/** The pending push executor over a store (`processPendingPushes` in main.go). The results of
    `git push` and the readings of the clock are parameters; the pushes run are a result. */
module PushExecutor {
  import opened Consensus
  import opened Executor
  import opened Log
  import opened Operations
  import opened Pending
  import PushQueue
  import opened Store
  import opened Strings
  import Voting
  import opened Wrappers

  datatype Outcomes = Outcomes(counts: Counts, first: Option<Failure>, runs: seq<GitRun>)

  /** Where the executor is: its store, the files behind it, and its results so far. */
  ghost function At(s: Store, o: Outcomes): Progress
    reads s
    requires Pending.Load(s.pendingFile).Ok?
  {
    Progress(s.ops, s.opsLog, Pending.Load(s.pendingFile).value, o.runs, o.counts, o.first)
  }

  /** `MarkPendingPush*`, whose errors the executor discards. */
  method Mark(s: Store, pid: string, status: string, text: string, now: string)
    requires Pending.Load(s.pendingFile).Ok? && pid != "" && TrimSpace(pid) == pid && KnownStatus(status)
    modifies s`pendingFile
    ensures Pending.Load(s.pendingFile) == Ok(Marked(old(Pending.Load(s.pendingFile)).value, pid, status, text, now))
  {
    hide Pending.Load, TrimSpace;
    ghost var before := Pending.Load(s.pendingFile).value;
    LoadListed(s.pendingFile);
    MarkedListed(before, pid, status, text, now);
    ListedReloads(Marked(before, pid, status, text, now));
    var _ := PushQueue.UpdatePendingPushStatus(s, pid, status, text, now);
  }

  /** `recordGitEvent`: a second store on the same log file. */
  method RecordGitEvent(s: Store, pid: string, now: int)
    requires s.Indexed()
    modifies s`opsLog
    ensures s.Indexed() && s.opsLog == EventRecorded(old(s.opsLog), s.nodeId, pid, now)
  {
    hide WellFormed, KeysIndexed, SummaryOf, Journal.Load, LocalOp;
    var other := new Store(s.nodeId, s.opsLog, s.configFile, s.pendingFile);
    var failure := other.LoadOps();
    if failure.Some? {
      return;
    }
    var _ := other.AppendLocalOp(Event("git.push", pid), now);
    s.opsLog := other.opsLog;
  }

  method Failed(s: Store, pid: string, failure: Failure, now: string, o: Outcomes) returns (r: Outcomes)
    requires s.Indexed() && Pending.Load(s.pendingFile).Ok? && pid != "" && TrimSpace(pid) == pid
    modifies s`pendingFile
    ensures s.Indexed() && Pending.Load(s.pendingFile).Ok? && At(s, r) == Fail(old(At(s, o)), pid, failure, now)
  {
    hide WellFormed, KeysIndexed, SummaryOf, Pending.Load, TrimSpace, Message, Marked;
    Mark(s, pid, FAILED, Message(failure), now);
    r := o.(counts := o.counts.(failed := o.counts.failed + 1), first := if o.first.None? then Some(failure) else o.first);
  }

  method RunPush(s: Store, push: PendingPush, i: nat, world: World, o: Outcomes) returns (r: Outcomes)
    requires s.Indexed() && Pending.Load(s.pendingFile).Ok? && Clean(push)
    modifies s`pendingFile, s`opsLog
    ensures s.Indexed() && Pending.Load(s.pendingFile).Ok? && At(s, r) == Push(old(At(s, o)), s.nodeId, push, i, world)
  {
    hide Store.Indexed, Pending.Load, TrimSpace, Marked, EventRecorded, Fail;
    var outcome := world.git(i);
    r := o.(runs := o.runs + [GitRun(push.proposalId, push.gitArgs, s.ops, outcome.None?)]);
    if outcome.Some? {
      r := Failed(s, push.proposalId, PushFailed(outcome.value), world.stamp(i), r);
      return;
    }
    r := r.(counts := r.counts.(executed := r.counts.executed + 1));
    label marking:
    Mark(s, push.proposalId, COMPLETED, "", world.stamp(i));
    StillIndexed@marking(s);
    RecordGitEvent(s, push.proposalId, world.eventAt(i));
  }

  twostate lemma StillIndexed(s: Store)
    requires old(s.Indexed()) && unchanged(s`ops, s`opIDs, s`seqByAuthor, s`authorSeqIndex)
    ensures s.Indexed()
  {
    hide WellFormed, KeysIndexed, SummaryOf;
  }

  method ProcessRecord(s: Store, push: PendingPush, i: nat, world: World, o: Outcomes) returns (r: Outcomes)
    requires s.Indexed() && Pending.Load(s.pendingFile).Ok? && Clean(push)
    modifies s`ops, s`opIDs, s`seqByAuthor, s`authorSeqIndex, s`opsLog, s`pendingFile
    ensures s.Indexed() && Pending.Load(s.pendingFile).Ok?
    ensures At(s, r) == Handle(old(At(s, o)), s.nodeId, s.configFile, push, i, world)
  {
    hide Store.Indexed, Store.Valid, Pending.Load, TrimSpace, Marked, Waiting, StatusOf, IssuedOp, Push, Fail,
         WellFormed;
    var pid := push.proposalId;
    r := o.(counts := o.counts.(checked := o.counts.checked + 1));
    var status := Voting.ProposalStatus(s, pid, world.statusAt(i));
    if status.Err? {
      r := Failed(s, pid, StatusFailed(status.error), world.stamp(i), r);
      return;
    }
    if status.value.expired {
      r := Failed(s, pid, ProposalExpired, world.stamp(i), r);
      return;
    }
    if !status.value.certified {
      if !status.value.hasQuorum {
        var text := Waiting(|status.value.yesVoters|, |status.value.members|, Max(status.value.requiredYes, 0));
        r := r.(counts := r.counts.(pending := r.counts.pending + 1));
        label marking:
        Mark(s, pid, PENDING, text, world.stamp(i));
        StillIndexed@marking(s);
        return;
      }
      var cert := Voting.CertifyProposal(s, pid, false, world.certifyAt(i));
      if cert.Err? {
        r := Failed(s, pid, CertifyFailed(cert.error), world.stamp(i), r);
        return;
      }
    }
    r := RunPush(s, push, i, world, r);
  }

  /** `processPendingPushes`. */
  method ProcessPendingPushes(s: Store, only: string, world: World) returns (r: Result<Outcomes, PendingError>)
    requires s.Indexed()
    modifies s`ops, s`opIDs, s`seqByAuthor, s`authorSeqIndex, s`opsLog, s`pendingFile
    ensures s.Indexed()
    ensures var listed := old(Pending.Load(s.pendingFile));
      if listed.Err? then r == Err(listed.error) && s.ops == old(s.ops) && s.opsLog == old(s.opsLog)
        && s.pendingFile == old(s.pendingFile)
      else
        && r.Ok? && Pending.Load(s.pendingFile).Ok?
        && At(s, r.value)
           == Process(Begin(old(s.ops), old(s.opsLog), listed.value), s.nodeId, s.configFile, only, |listed.value|, world)
  {
    hide Store.Indexed, Store.Valid, Pending.Load, Handle, Clean;
    var listed := PushQueue.ListPendingPushes(s);
    if listed.Err? {
      return Err(listed.error);
    }
    var pushes := listed.value;
    LoadListed(s.pendingFile);
    ghost var start := Begin(s.ops, s.opsLog, pushes);
    var o := Outcomes(Counts(0, 0, 0, 0), None, []);
    for i := 0 to |pushes|
      invariant s.Indexed() && Pending.Load(s.pendingFile).Ok? && s.configFile == old(s.configFile)
      invariant At(s, o) == Process(start, s.nodeId, s.configFile, only, i, world)
    {
      var push := pushes[i];
      assert push in pushes;
      if only != "" && push.proposalId != only {
        continue;
      }
      if push.status == COMPLETED {
        continue;
      }
      o := ProcessRecord(s, push, i, world, o);
    }
    r := Ok(o);
  }
}
