/** The pending push executor (`processPendingPushes` in main.go) as a function of the log it
    holds in memory, the log file, and the pending records; and what it guarantees. */
module Executor {
  import opened Consensus
  import opened Journal
  import opened Log
  import opened Operations
  import opened Pending
  import opened Strings
  import opened Wrappers

  /** One `git push`, with the log in memory at that moment. */
  datatype GitRun = GitRun(proposalId: string, args: seq<string>, log: Ops, succeeded: bool)

  datatype Counts = Counts(checked: nat, executed: nat, pending: nat, failed: nat)

  datatype Failure = StatusFailed(error: Error) | ProposalExpired | CertifyFailed(error: Error) | PushFailed(message: string)

  /** What the outside world answers while the i-th listed record is handled: the clock when
      its status is read, when it is certified and when the event is recorded, the time
      stamp on its record, and the outcome of `git push`. */
  datatype World = World(
    statusAt: nat -> int, certifyAt: nat -> int, eventAt: nat -> int, stamp: nat -> string, git: nat -> Option<string>)

  /** `log` is the executor's own store; `journal` is the log file, which the event recorder
      appends to through a second store. */
  datatype Progress = Progress(
    log: Ops, journal: seq<Line>, pushes: seq<PendingPush>, runs: seq<GitRun>, counts: Counts, first: Option<Failure>)

  function Message(failure: Failure): string {
    match failure
    case PushFailed(message) => message
    case ProposalExpired => "proposal has expired"
    case StatusFailed(_) => "proposal status unavailable"
    case CertifyFailed(_) => "certification failed"
  }

  function Waiting(yes: nat, members: nat, required: int): string
    requires required >= 0
  {
    "awaiting quorum yes=" + Decimal(yes) + "/" + Decimal(members) + " required=" + Decimal(required)
  }

  function Fail(st: Progress, pid: string, failure: Failure, now: string): Progress {
    st.(counts := st.counts.(failed := st.counts.failed + 1),
        pushes := Marked(st.pushes, pid, FAILED, Message(failure), now),
        first := if st.first.None? then Some(failure) else st.first)
  }

  /** `recordGitEvent`: a fresh store on the same file; its errors are ignored. */
  function EventRecorded(journal: seq<Line>, node: NodeId, pid: string, now: int): seq<Line> {
    match Journal.Load(journal)
    case Err(_) => journal
    case Ok(disk) =>
      match LocalOp(disk, node, now, Event("git.push", pid))
      case Err(_) => journal
      case Ok(op) => journal + [Entry(op)]
  }

  /** The push itself, once the proposal is certified. */
  function Push(st: Progress, node: NodeId, push: PendingPush, i: nat, world: World): Progress {
    var outcome := world.git(i);
    var ran := st.(runs := st.runs + [GitRun(push.proposalId, push.gitArgs, st.log, outcome.None?)]);
    if outcome.Some? then Fail(ran, push.proposalId, PushFailed(outcome.value), world.stamp(i))
    else ran.(counts := ran.counts.(executed := ran.counts.executed + 1),
              pushes := Marked(ran.pushes, push.proposalId, COMPLETED, "", world.stamp(i)),
              journal := EventRecorded(ran.journal, node, push.proposalId, world.eventAt(i)))
  }

  /** One record. */
  ghost function Handle(st: Progress, node: NodeId, cfg: ConfigFile, push: PendingPush, i: nat,
                        world: World): Progress {
    var pid, checked := push.proposalId, st.(counts := st.counts.(checked := st.counts.checked + 1));
    var status := StatusOf(st.log, node, cfg, pid, world.statusAt(i));
    if status.Err? then Fail(checked, pid, StatusFailed(status.error), world.stamp(i))
    else
      var s := status.value;
      if s.expired then Fail(checked, pid, ProposalExpired, world.stamp(i))
      else if s.certified then Push(checked, node, push, i, world)
      else if !s.hasQuorum then
        checked.(counts := checked.counts.(pending := checked.counts.pending + 1),
                 pushes := Marked(st.pushes, pid, PENDING,
                                  Waiting(|s.yesVoters|, |s.members|, Max(s.requiredYes, 0)), world.stamp(i)))
      else
        var cert := IssuedOp(st.log, st.log, node, cfg, Certify(pid, false), world.certifyAt(i));
        if cert.Err? then Fail(checked, pid, CertifyFailed(cert.error), world.stamp(i))
        else Push(checked.(log := st.log + [cert.value], journal := st.journal + [Entry(cert.value)]), node, push, i, world)
  }

  predicate Selected(only: string, push: PendingPush) {
    (only == "" || push.proposalId == only) && push.status != COMPLETED
  }

  /** The first `n` listed records. */
  ghost function Process(start: Progress, node: NodeId, cfg: ConfigFile, only: string, n: nat, world: World): Progress
    requires n <= |start.pushes|
  {
    if n == 0 then start
    else
      var st, push := Process(start, node, cfg, only, n - 1, world), start.pushes[n - 1];
      if Selected(only, push) then Handle(st, node, cfg, push, n - 1, world) else st
  }

  function Begin(log: Ops, journal: seq<Line>, pushes: seq<PendingPush>): Progress {
    Progress(log, journal, pushes, [], Counts(0, 0, 0, 0), None)
  }

  // ------------------------------------------------------------------- the counts add up

  ghost predicate Balanced(st: Progress) {
    && st.counts.checked == st.counts.executed + st.counts.pending + st.counts.failed
    && (st.first.Some? <==> st.counts.failed > 0)
    && st.counts.executed <= |st.runs|
  }

  lemma HandleBalanced(st: Progress, node: NodeId, cfg: ConfigFile, push: PendingPush, i: nat, world: World)
    requires Balanced(st)
    ensures Balanced(Handle(st, node, cfg, push, i, world))
  {
    hide StatusOf, IssuedOp, Marked, EventRecorded, Message, Waiting;
  }

  /** Every record checked is executed, pending or failed, and an error is returned exactly
      when one failed. */
  lemma {:induction false} CountsBalance(log: Ops, journal: seq<Line>, pushes: seq<PendingPush>, node: NodeId,
                                         cfg: ConfigFile, only: string, n: nat, world: World)
    requires n <= |pushes|
    ensures Balanced(Process(Begin(log, journal, pushes), node, cfg, only, n, world))
  {
    hide Handle;
    if n > 0 {
      CountsBalance(log, journal, pushes, node, cfg, only, n - 1, world);
      HandleBalanced(Process(Begin(log, journal, pushes), node, cfg, only, n - 1, world), node, cfg, pushes[n - 1], n - 1, world);
    }
  }

  // ---------------------------------------------------------------- only certified pushes

  ghost predicate RunCertified(run: GitRun) {
    exists o :: o in run.log && IsCertified(o, run.proposalId)
  }

  ghost predicate RunsCertified(st: Progress) {
    WellFormed(st.log) && forall r :: r in st.runs ==> RunCertified(r)
  }

  /** A certificate issued without force certifies. */
  lemma UnforcedCertCertifies(log: Ops, node: NodeId, cfg: ConfigFile, pid: string, now: int)
    requires WellFormed(log) && IssuedOp(log, log, node, cfg, Certify(pid, false), now).Ok?
    ensures var op := IssuedOp(log, log, node, cfg, Certify(pid, false), now).value;
      && IsCertified(op, TrimSpace(pid)) && OutcomeOf(log, op) == Added && WellFormed(log + [op])
  {
    hide TrimSpace, OutcomeOf, VotersMean, CountsMean, CertificationMeans, WellFormed, StatusOf;
    StatusSpec(log, node, cfg, pid, now);
    AddOutcome(log, IssuedOp(log, log, node, cfg, Certify(pid, false), now).value);
  }

  lemma HandleCertified(st: Progress, node: NodeId, cfg: ConfigFile, push: PendingPush, i: nat, world: World)
    requires RunsCertified(st) && Clean(push)
    ensures RunsCertified(Handle(st, node, cfg, push, i, world))
  {
    hide StatusOf, IssuedOp, Marked, EventRecorded, Message, Waiting, TrimSpace, WellFormed, VotersMean, CountsMean,
         IsCertified;
    var pid := push.proposalId;
    var status := StatusOf(st.log, node, cfg, pid, world.statusAt(i));
    if status.Ok? {
      StatusSpec(st.log, node, cfg, pid, world.statusAt(i));
      if !status.value.certified && IssuedOp(st.log, st.log, node, cfg, Certify(pid, false), world.certifyAt(i)).Ok? {
        UnforcedCertCertifies(st.log, node, cfg, pid, world.certifyAt(i));
      }
    }
  }

  /** Every push executed has a certified certificate for its proposal in the store at that moment. */
  lemma {:induction false} PushesAreCertified(start: Progress, node: NodeId, cfg: ConfigFile, only: string, n: nat,
                                              world: World)
    requires n <= |start.pushes| && Listed(start.pushes) && RunsCertified(start)
    ensures RunsCertified(Process(start, node, cfg, only, n, world))
  {
    hide Handle, RunsCertified, Clean;
    if n > 0 {
      PushesAreCertified(start, node, cfg, only, n - 1, world);
      assert start.pushes[n - 1] in start.pushes;
      HandleCertified(Process(start, node, cfg, only, n - 1, world), node, cfg, start.pushes[n - 1], n - 1, world);
    }
  }

  // -------------------------------------------------------------- at most one success each

  predicate Completed(pushes: seq<PendingPush>, pid: string) {
    exists p :: p in pushes && p.proposalId == pid && p.status == COMPLETED
  }

  /** Once a proposal's push has succeeded it is never attempted again. */
  ghost predicate SuccessIsLast(runs: seq<GitRun>) {
    forall i, j :: 0 <= i < j < |runs| && runs[i].succeeded ==> runs[i].proposalId != runs[j].proposalId
  }

  /** ... and only a completed record has a success. */
  ghost predicate OncePerProposal(pushes: seq<PendingPush>, runs: seq<GitRun>) {
    && UniqueIds(pushes)
    && (forall r :: r in runs && r.succeeded ==> Completed(pushes, r.proposalId))
    && SuccessIsLast(runs)
  }

  /** The records not yet handled are as they were listed. */
  ghost predicate Untouched(listed: seq<PendingPush>, pushes: seq<PendingPush>, n: nat) {
    && |pushes| == |listed|
    && (forall i :: 0 <= i < |listed| ==> pushes[i].proposalId == listed[i].proposalId)
    && (forall i :: n <= i < |listed| ==> pushes[i] == listed[i])
  }

  lemma IndexOfUnique(pushes: seq<PendingPush>, i: nat)
    requires UniqueIds(pushes) && i < |pushes|
    ensures IndexOf(pushes, pushes[i].proposalId) == i
  {
  }

  lemma MarkUntouched(listed: seq<PendingPush>, pushes: seq<PendingPush>, n: nat, status: string, text: string,
                      now: string)
    requires UniqueIds(listed) && Untouched(listed, pushes, n) && n < |listed| && Listed(pushes) && KnownStatus(status)
    ensures var r := Marked(pushes, listed[n].proposalId, status, text, now);
      && Untouched(listed, r, n + 1) && UniqueIds(r) && Listed(r)
      && r[n].proposalId == listed[n].proposalId && r[n].status == status
      && forall i :: 0 <= i < |r| && i != n ==> r[i] == pushes[i]
  {
    hide Listed;
    assert UniqueIds(pushes);
    IndexOfUnique(pushes, n);
    MarkedListed(pushes, listed[n].proposalId, status, text, now);
  }

  /** Marking the record being handled, which has no success yet. */
  lemma MarkKeepsOnce(listed: seq<PendingPush>, pushes: seq<PendingPush>, runs: seq<GitRun>, n: nat, status: string,
                      text: string, now: string)
    requires UniqueIds(listed) && Untouched(listed, pushes, n) && n < |listed| && Listed(pushes) && KnownStatus(status)
    requires OncePerProposal(pushes, runs)
    requires forall r :: r in runs && r.succeeded ==> r.proposalId != listed[n].proposalId
    ensures OncePerProposal(Marked(pushes, listed[n].proposalId, status, text, now), runs)
  {
    hide Listed, Marked;
    MarkUntouched(listed, pushes, n, status, text, now);
    var later := Marked(pushes, listed[n].proposalId, status, text, now);
    forall r | r in runs && r.succeeded ensures Completed(later, r.proposalId) {
      var p :| p in pushes && p.proposalId == r.proposalId && p.status == COMPLETED;
      var i :| 0 <= i < |pushes| && pushes[i] == p;
      assert later[i] == p;
    }
  }

  lemma NoSuccessYet(listed: seq<PendingPush>, pushes: seq<PendingPush>, runs: seq<GitRun>, n: nat)
    requires Untouched(listed, pushes, n) && n < |listed| && listed[n].status != COMPLETED
      && OncePerProposal(pushes, runs)
    ensures forall r :: r in runs && r.succeeded ==> r.proposalId != listed[n].proposalId
  {
    forall r | r in runs && r.succeeded ensures r.proposalId != listed[n].proposalId {
      var p :| p in pushes && p.proposalId == r.proposalId && p.status == COMPLETED;
      var i :| 0 <= i < |pushes| && pushes[i] == p;
      assert pushes[n] == listed[n];
    }
  }

  ghost predicate Sofar(listed: seq<PendingPush>, earlier: seq<GitRun>, st: Progress, n: nat) {
    Untouched(listed, st.pushes, n) && Listed(st.pushes) && OncePerProposal(st.pushes, earlier + st.runs)
  }

  lemma FailSofar(listed: seq<PendingPush>, earlier: seq<GitRun>, st: Progress, n: nat, failure: Failure, now: string)
    requires UniqueIds(listed) && n < |listed| && listed[n].status != COMPLETED && Sofar(listed, earlier, st, n)
    ensures Sofar(listed, earlier, Fail(st, listed[n].proposalId, failure, now), n + 1)
  {
    hide Listed, Untouched, OncePerProposal, Marked, Message, UniqueIds;
    NoSuccessYet(listed, st.pushes, earlier + st.runs, n);
    MarkUntouched(listed, st.pushes, n, FAILED, Message(failure), now);
    MarkKeepsOnce(listed, st.pushes, earlier + st.runs, n, FAILED, Message(failure), now);
  }

  lemma PushSofar(listed: seq<PendingPush>, earlier: seq<GitRun>, st: Progress, n: nat, node: NodeId, world: World)
    requires UniqueIds(listed) && n < |listed| && listed[n].status != COMPLETED && Sofar(listed, earlier, st, n)
    ensures Sofar(listed, earlier, Push(st, node, listed[n], n, world), n + 1)
  {
    hide Listed, Untouched, Marked, Message, UniqueIds, EventRecorded;
    var push, runs := listed[n], earlier + st.runs;
    var run := GitRun(push.proposalId, push.gitArgs, st.log, world.git(n).None?);
    assert earlier + (st.runs + [run]) == runs + [run];
    NoSuccessYet(listed, st.pushes, runs, n);
    if run.succeeded {
      MarkUntouched(listed, st.pushes, n, COMPLETED, "", world.stamp(n));
      MarkKeepsOnce(listed, st.pushes, runs, n, COMPLETED, "", world.stamp(n));
      var done := Marked(st.pushes, push.proposalId, COMPLETED, "", world.stamp(n));
      assert Completed(done, push.proposalId) by { CompletedAt(listed, done, n); }
      RunAdded(done, runs, run);
    } else {
      RunAdded(st.pushes, runs, run);
      FailSofar(listed, earlier, st.(runs := st.runs + [run]), n, PushFailed(world.git(n).value), world.stamp(n));
    }
  }

  lemma CompletedAt(listed: seq<PendingPush>, pushes: seq<PendingPush>, n: nat)
    requires Untouched(listed, pushes, n + 1) && n < |listed| && pushes[n].status == COMPLETED
    ensures Completed(pushes, listed[n].proposalId)
  {
    assert pushes[n] in pushes;
  }

  lemma RunAdded(pushes: seq<PendingPush>, runs: seq<GitRun>, run: GitRun)
    requires OncePerProposal(pushes, runs)
    requires run.succeeded ==> Completed(pushes, run.proposalId)
    requires forall r :: r in runs && r.succeeded ==> r.proposalId != run.proposalId
    ensures OncePerProposal(pushes, runs + [run])
  {
    hide Completed, UniqueIds;
  }

  lemma HandleSofar(listed: seq<PendingPush>, earlier: seq<GitRun>, st: Progress, n: nat, node: NodeId,
                    cfg: ConfigFile, world: World)
    requires UniqueIds(listed) && n < |listed| && listed[n].status != COMPLETED && Sofar(listed, earlier, st, n)
    ensures Sofar(listed, earlier, Handle(st, node, cfg, listed[n], n, world), n + 1)
  {
    hide Listed, Untouched, OncePerProposal, Marked, Message, Waiting, UniqueIds, StatusOf, IssuedOp, Fail, Push;
    var pid, checked := listed[n].proposalId, st.(counts := st.counts.(checked := st.counts.checked + 1));
    var status := StatusOf(st.log, node, cfg, pid, world.statusAt(n));
    if status.Err? {
      FailSofar(listed, earlier, checked, n, StatusFailed(status.error), world.stamp(n));
    } else if status.value.expired {
      FailSofar(listed, earlier, checked, n, ProposalExpired, world.stamp(n));
    } else if status.value.certified {
      PushSofar(listed, earlier, checked, n, node, world);
    } else if !status.value.hasQuorum {
      var text := Waiting(|status.value.yesVoters|, |status.value.members|, Max(status.value.requiredYes, 0));
      NoSuccessYet(listed, st.pushes, earlier + st.runs, n);
      MarkUntouched(listed, st.pushes, n, PENDING, text, world.stamp(n));
      MarkKeepsOnce(listed, st.pushes, earlier + st.runs, n, PENDING, text, world.stamp(n));
    } else {
      var cert := IssuedOp(st.log, st.log, node, cfg, Certify(pid, false), world.certifyAt(n));
      if cert.Err? {
        FailSofar(listed, earlier, checked, n, CertifyFailed(cert.error), world.stamp(n));
      } else {
        var ready := checked.(log := st.log + [cert.value], journal := st.journal + [Entry(cert.value)]);
        PushSofar(listed, earlier, ready, n, node, world);
      }
    }
  }

  /** Whatever happened before, one call never pushes a completed record and keeps every
      proposal to at most one success. */
  lemma {:induction false} ProcessKeepsOnce(start: Progress, earlier: seq<GitRun>, node: NodeId, cfg: ConfigFile,
                                            only: string, n: nat, world: World)
    requires n <= |start.pushes| && Listed(start.pushes) && start.runs == [] && OncePerProposal(start.pushes, earlier)
    ensures Sofar(start.pushes, earlier, Process(start, node, cfg, only, n, world), n)
  {
    hide Handle, Listed, OncePerProposal, UniqueIds;
    if n == 0 {
      assert earlier + [] == earlier;
    } else {
      ProcessKeepsOnce(start, earlier, node, cfg, only, n - 1, world);
      var st := Process(start, node, cfg, only, n - 1, world);
      if Selected(only, start.pushes[n - 1]) {
        assert UniqueIds(start.pushes) by { OnceIsUnique(start.pushes, earlier); }
        HandleSofar(start.pushes, earlier, st, n - 1, node, cfg, world);
      }
    }
  }

  /** The pushes of one call are those of listed records that were selected and not completed. */
  ghost predicate RunsListed(only: string, listed: seq<PendingPush>, runs: seq<GitRun>) {
    forall r :: r in runs ==>
      exists p :: p in listed && Selected(only, p) && p.proposalId == r.proposalId && p.gitArgs == r.args
  }

  lemma HandleRunsRecord(st: Progress, node: NodeId, cfg: ConfigFile, push: PendingPush, i: nat, world: World)
    ensures var next := Handle(st, node, cfg, push, i, world);
      next.runs == st.runs
      || exists log, ok :: next.runs == st.runs + [GitRun(push.proposalId, push.gitArgs, log, ok)]
  {
    hide StatusOf, IssuedOp, Marked, EventRecorded, Message, Waiting;
  }

  lemma {:induction false} OnlyOpenRecordsRun(start: Progress, node: NodeId, cfg: ConfigFile, only: string, n: nat,
                                              world: World)
    requires n <= |start.pushes| && start.runs == []
    ensures RunsListed(only, start.pushes, Process(start, node, cfg, only, n, world).runs)
  {
    hide Handle, Selected;
    if n > 0 {
      OnlyOpenRecordsRun(start, node, cfg, only, n - 1, world);
      HandleRunsRecord(Process(start, node, cfg, only, n - 1, world), node, cfg, start.pushes[n - 1], n - 1, world);
      assert start.pushes[n - 1] in start.pushes;
    }
  }

  /** A completed record is not pushed, whether or not its success is on record. */
  lemma CompletedNotRun(start: Progress, node: NodeId, cfg: ConfigFile, only: string, world: World, p: PendingPush)
    requires start.runs == [] && UniqueIds(start.pushes) && p in start.pushes && p.status == COMPLETED
    ensures forall r :: r in Process(start, node, cfg, only, |start.pushes|, world).runs ==> r.proposalId != p.proposalId
  {
    hide Process;
    OnlyOpenRecordsRun(start, node, cfg, only, |start.pushes|, world);
    var runs := Process(start, node, cfg, only, |start.pushes|, world).runs;
    forall r | r in runs ensures r.proposalId != p.proposalId {
      var q :| q in start.pushes && Selected(only, q) && q.proposalId == r.proposalId && q.gitArgs == r.args;
      var i :| 0 <= i < |start.pushes| && start.pushes[i] == p;
      var j :| 0 <= j < |start.pushes| && start.pushes[j] == q;
    }
  }

  lemma OnceIsUnique(pushes: seq<PendingPush>, runs: seq<GitRun>)
    requires OncePerProposal(pushes, runs)
    ensures UniqueIds(pushes)
  {
  }

  // ------------------------------------------------------------- what handling a record does

  /** A push is run exactly when the proposal is open and, by then, certified in the log. */
  lemma PushRunsIff(st: Progress, node: NodeId, cfg: ConfigFile, push: PendingPush, i: nat, world: World)
    requires WellFormed(st.log) && Clean(push)
    ensures var status := StatusOf(st.log, node, cfg, push.proposalId, world.statusAt(i));
      var next := Handle(st, node, cfg, push, i, world);
      var open := status.Ok? && !status.value.expired && exists o :: o in next.log && IsCertified(o, push.proposalId);
      next.runs == if open then st.runs + [GitRun(push.proposalId, push.gitArgs, next.log, world.git(i).None?)]
        else st.runs
  {
    hide StatusOf, IssuedOp, Marked, EventRecorded, Message, Waiting, TrimSpace, WellFormed, VotersMean, CountsMean,
         IsCertified;
    var pid := push.proposalId;
    if StatusOf(st.log, node, cfg, pid, world.statusAt(i)).Ok? {
      StatusSpec(st.log, node, cfg, pid, world.statusAt(i));
      if IssuedOp(st.log, st.log, node, cfg, Certify(pid, false), world.certifyAt(i)).Ok? {
        var cert := IssuedOp(st.log, st.log, node, cfg, Certify(pid, false), world.certifyAt(i)).value;
        UnforcedCertCertifies(st.log, node, cfg, pid, world.certifyAt(i));
        assert cert in st.log + [cert];
      }
    }
  }

  /** The proposal can be pushed now: it is open, and certified or ready to be. */
  ghost predicate Pushable(log: Ops, node: NodeId, cfg: ConfigFile, pid: string, readAt: int, certifiedAt: int) {
    var status := StatusOf(log, node, cfg, pid, readAt);
    && status.Ok? && !status.value.expired
    && (status.value.certified
        || (status.value.hasQuorum && IssuedOp(log, log, node, cfg, Certify(pid, false), certifiedAt).Ok?))
  }

  lemma PushedIffPushable(st: Progress, node: NodeId, cfg: ConfigFile, push: PendingPush, i: nat, world: World)
    ensures var next := Handle(st, node, cfg, push, i, world);
      next.runs == (if Pushable(st.log, node, cfg, push.proposalId, world.statusAt(i), world.certifyAt(i))
                    then st.runs + [GitRun(push.proposalId, push.gitArgs, next.log, world.git(i).None?)] else st.runs)
  {
    hide StatusOf, IssuedOp, Marked, EventRecorded, Message, Waiting;
  }

  lemma ExecutedIffPushed(st: Progress, node: NodeId, cfg: ConfigFile, push: PendingPush, i: nat, world: World)
    ensures Handle(st, node, cfg, push, i, world).counts.executed == st.counts.executed +
      (if Pushable(st.log, node, cfg, push.proposalId, world.statusAt(i), world.certifyAt(i)) && world.git(i).None? then 1 else 0)
  {
    hide StatusOf, IssuedOp, Marked, EventRecorded, Message, Waiting;
  }

  ghost predicate Tells(before: Progress, after: Progress, n: nat) {
    && n < |before.pushes| == |after.pushes|
    && after.pushes[n].attempts == before.pushes[n].attempts + 1
    && (forall i :: 0 <= i < |before.pushes| && i != n ==> after.pushes[i] == before.pushes[i])
    && after.counts == before.counts.(
         checked := before.counts.checked + 1,
         executed := before.counts.executed + (if after.pushes[n].status == COMPLETED then 1 else 0),
         pending := before.counts.pending + (if after.pushes[n].status == PENDING then 1 else 0),
         failed := before.counts.failed + (if after.pushes[n].status == FAILED then 1 else 0))
  }

  lemma MarkTells(listed: seq<PendingPush>, pushes: seq<PendingPush>, n: nat, status: string, text: string, now: string)
    requires UniqueIds(listed) && Untouched(listed, pushes, n) && n < |listed| && Listed(pushes) && KnownStatus(status)
    ensures var r := Marked(pushes, listed[n].proposalId, status, text, now);
      && |r| == |pushes| && r[n].status == status && r[n].attempts == pushes[n].attempts + 1
      && forall i :: 0 <= i < |pushes| && i != n ==> r[i] == pushes[i]
  {
    hide Listed;
    MarkUntouched(listed, pushes, n, status, text, now);
    IndexOfUnique(pushes, n);
  }

  /** Handling a record marks that record alone, with the status that counts it. */
  lemma RecordTellsCounts(listed: seq<PendingPush>, st: Progress, n: nat, node: NodeId, cfg: ConfigFile, world: World)
    requires UniqueIds(listed) && n < |listed| && Untouched(listed, st.pushes, n) && Listed(st.pushes)
    ensures Tells(st, Handle(st, node, cfg, listed[n], n, world), n)
  {
    hide Listed, Marked, Message, Waiting, UniqueIds, StatusOf, IssuedOp, EventRecorded;
    forall status, text | KnownStatus(status)
      ensures var r := Marked(st.pushes, listed[n].proposalId, status, text, world.stamp(n));
        && |r| == |st.pushes| && r[n].status == status && r[n].attempts == st.pushes[n].attempts + 1
        && forall i :: 0 <= i < |st.pushes| && i != n ==> r[i] == st.pushes[i]
    {
      MarkTells(listed, st.pushes, n, status, text, world.stamp(n));
    }
  }

  // ------------------------------------------------- which failure a call returns, and what is said

  /** What goes wrong with a record, if anything: the first of its status failing, its proposal
      having expired, its certificate being refused, and `git push` failing. A proposal short of
      a quorum waits, and is no failure. */
  ghost function Raises(log: Ops, node: NodeId, cfg: ConfigFile, pid: string, i: nat, world: World): Option<Failure> {
    var status := StatusOf(log, node, cfg, pid, world.statusAt(i));
    if status.Err? then Some(StatusFailed(status.error))
    else if status.value.expired then Some(ProposalExpired)
    else if !status.value.certified && !status.value.hasQuorum then None
    else
      var cert := IssuedOp(log, log, node, cfg, Certify(pid, false), world.certifyAt(i));
      if !status.value.certified && cert.Err? then Some(CertifyFailed(cert.error))
      else if world.git(i).Some? then Some(PushFailed(world.git(i).value)) else None
  }

  lemma HandleRaises(st: Progress, node: NodeId, cfg: ConfigFile, push: PendingPush, i: nat, world: World)
    ensures var next, raised := Handle(st, node, cfg, push, i, world), Raises(st.log, node, cfg, push.proposalId, i, world);
      && next.counts.failed == st.counts.failed + (if raised.Some? then 1 else 0)
      && next.first == (if st.first.Some? then st.first else raised)
      && next.counts.checked == st.counts.checked + 1
  {
    hide StatusOf, IssuedOp, Marked, EventRecorded, Message, Waiting;
  }

  /** Record `j` is handled in the call and something goes wrong with it. */
  ghost predicate FailsWith(start: Progress, node: NodeId, cfg: ConfigFile, only: string, world: World, j: nat,
                            failure: Failure)
    requires j < |start.pushes|
  {
    && (only == "" || start.pushes[j].proposalId == only) && start.pushes[j].status != COMPLETED
    && Raises(Process(start, node, cfg, only, j, world).log, node, cfg, start.pushes[j].proposalId, j, world) == Some(failure)
  }

  /** The failure a call returns is that of the first record that fails: none before it fails,
      and no later one replaces it. */
  lemma {:induction false} FirstFailure(start: Progress, node: NodeId, cfg: ConfigFile, only: string, n: nat,
                                        world: World)
    requires n <= |start.pushes| && start.first.None?
    ensures var first := Process(start, node, cfg, only, n, world).first;
      && (first.None? ==> forall j, f :: 0 <= j < n ==> !FailsWith(start, node, cfg, only, world, j, f))
      && (first.Some? ==> exists j :: 0 <= j < n && FailsWith(start, node, cfg, only, world, j, first.value)
                           && forall i, f :: 0 <= i < j ==> !FailsWith(start, node, cfg, only, world, i, f))
  {
    hide Handle, Raises;
    if n > 0 {
      var st, push := Process(start, node, cfg, only, n - 1, world), start.pushes[n - 1];
      FirstFailure(start, node, cfg, only, n - 1, world);
      HandleRaises(st, node, cfg, push, n - 1, world);
      var first := Process(start, node, cfg, only, n, world).first;
      if st.first.None? && first.Some? {
        assert FailsWith(start, node, cfg, only, world, n - 1, first.value);
      }
    }
  }

  /** Once a call has a failure to return it keeps it. */
  lemma {:induction false} FirstIsKept(start: Progress, node: NodeId, cfg: ConfigFile, only: string, m: nat, n: nat,
                                       world: World)
    requires m <= n <= |start.pushes| && Process(start, node, cfg, only, m, world).first.Some?
    ensures Process(start, node, cfg, only, n, world).first == Process(start, node, cfg, only, m, world).first
  {
    hide Handle, Raises;
    if m < n {
      FirstIsKept(start, node, cfg, only, m, n - 1, world);
      HandleRaises(Process(start, node, cfg, only, n - 1, world), node, cfg, start.pushes[n - 1], n - 1, world);
    }
  }

  /** A record that a call looks at: one of the proposal named, or any if none is, but no
      completed one. */
  ghost predicate IsWanted(push: PendingPush, only: string) {
    (only == "" || push.proposalId == only) && push.status != COMPLETED
  }

  /** Those among the first `n` listed. */
  ghost function Wanted(listed: seq<PendingPush>, n: nat, only: string): set<int>
    requires n <= |listed|
  {
    set i | 0 <= i < n && IsWanted(listed[i], only)
  }

  lemma WantedGrows(listed: seq<PendingPush>, n: nat, only: string)
    requires n < |listed|
    ensures |Wanted(listed, n + 1, only)| == |Wanted(listed, n, only)| + (if IsWanted(listed[n], only) then 1 else 0)
  {
    hide IsWanted;
    if IsWanted(listed[n], only) {
      assert Wanted(listed, n + 1, only) == Wanted(listed, n, only) + {n};
    } else {
      assert Wanted(listed, n + 1, only) == Wanted(listed, n, only);
    }
  }

  /** Each of them is checked once. */
  lemma {:induction false} EveryWantedIsChecked(start: Progress, node: NodeId, cfg: ConfigFile, only: string, n: nat,
                                                world: World)
    requires n <= |start.pushes|
    ensures Process(start, node, cfg, only, n, world).counts.checked == start.counts.checked + |Wanted(start.pushes, n, only)|
  {
    hide Handle, Raises, Wanted;
    if n == 0 {
      NothingWanted(start.pushes, only);
    } else {
      EveryWantedIsChecked(start, node, cfg, only, n - 1, world);
      HandleRaises(Process(start, node, cfg, only, n - 1, world), node, cfg, start.pushes[n - 1], n - 1, world);
      WantedGrows(start.pushes, n - 1, only);
    }
  }

  lemma NothingWanted(listed: seq<PendingPush>, only: string)
    ensures |Wanted(listed, 0, only)| == 0
  {
  }

  /** What is written to the record: when it was tried, how it ended and why. */
  ghost predicate Says(before: PendingPush, after: PendingPush, status: string, text: string, now: string) {
    after == before.(status := status, lastError := text, attempts := before.attempts + 1, updatedAt := now, lastTriedAt := now,
                     completedAt := if status == "completed" then now else before.completedAt)
  }

  lemma MarkSays(listed: seq<PendingPush>, pushes: seq<PendingPush>, n: nat, status: string, text: string, now: string)
    requires UniqueIds(listed) && Untouched(listed, pushes, n) && n < |listed|
    ensures var r := Marked(pushes, listed[n].proposalId, status, text, now);
      && |r| == |pushes| && r[n].status == status
      && Says(pushes[n], r[n], status, if status == "completed" then "" else TrimSpace(text), now)
  {
    hide TrimSpace;
    IndexOfUnique(pushes, n);
  }

  /** A record that fails keeps the reason: expiry in words, and git's own message. A record that
      waits says how many of how many members have voted yes and how many must. A record that is
      pushed has no error left. */
  lemma RecordSays(listed: seq<PendingPush>, st: Progress, n: nat, node: NodeId, cfg: ConfigFile, world: World)
    requires UniqueIds(listed) && n < |listed| && Untouched(listed, st.pushes, n)
    requires StatusOf(st.log, node, cfg, listed[n].proposalId, world.statusAt(n)).Ok?
    ensures var s := StatusOf(st.log, node, cfg, listed[n].proposalId, world.statusAt(n)).value;
      var before, after := st.pushes, Handle(st, node, cfg, listed[n], n, world).pushes;
      var raised := Raises(st.log, node, cfg, listed[n].proposalId, n, world);
      && |after| == |before|
      && (raised == Some(ProposalExpired) ==>
            Says(before[n], after[n], "failed", TrimSpace("proposal has expired"), world.stamp(n)))
      && (raised.Some? && raised.value.PushFailed? ==>
            && world.git(n) == Some(raised.value.message)
            && Says(before[n], after[n], "failed", TrimSpace(raised.value.message), world.stamp(n)))
      && (!s.expired && !s.certified && !s.hasQuorum && s.requiredYes >= 0 ==>
            Says(before[n], after[n], "pending",
                 TrimSpace("awaiting quorum yes=" + Decimal(|s.yesVoters|) + "/" + Decimal(|s.members|)
                           + " required=" + Decimal(s.requiredYes)),
                 world.stamp(n)))
      && (after[n].status == "completed" ==> Says(before[n], after[n], "completed", "", world.stamp(n)))
  {
    hide StatusOf, IssuedOp, Marked, EventRecorded, UniqueIds, TrimSpace, Decimal, Says, Untouched;
    SameLength(listed, st.pushes, n);
    forall status, text
      ensures var r := Marked(st.pushes, listed[n].proposalId, status, text, world.stamp(n));
        && |r| == |st.pushes| && r[n].status == status
        && Says(st.pushes[n], r[n], status, if status == "completed" then "" else TrimSpace(text), world.stamp(n))
    {
      MarkSays(listed, st.pushes, n, status, text, world.stamp(n));
    }
  }

  lemma SameLength(listed: seq<PendingPush>, pushes: seq<PendingPush>, n: nat)
    requires Untouched(listed, pushes, n)
    ensures |pushes| == |listed|
  {
  }

  /** The event a push leaves on file: one operation of the node's, at the sequence number that is
      next there, of kind `git.push` and about the proposal; none if the file cannot be loaded
      or the node can append nothing. */
  lemma EventMeans(journal: seq<Line>, node: NodeId, pid: string, now: int)
    ensures Journal.Load(journal).Err? ==> EventRecorded(journal, node, pid, now) == journal
    ensures Journal.Load(journal).Ok? && WellFormed(Journal.Load(journal).value) ==>
      var disk := Journal.Load(journal).value;
      if Exhausted(disk, node) then EventRecorded(journal, node, pid, now) == journal
      else exists op :: EventRecorded(journal, node, pid, now) == journal + [Entry(op)] && Valid(op) && op.author == node
             && op.seqNo == Extent(disk, node) + 1 && op.timestamp == now && op.payload == Event("git.push", pid)
  {
    hide WellFormed, Extent, TrimSpace, OutcomeOf, LocalOp;
    if Journal.Load(journal).Ok? && WellFormed(Journal.Load(journal).value) {
      Untrimmed("git.push");
      LocalOpMeans(Journal.Load(journal).value, node, now, Event("git.push", pid));
    }
  }
}
