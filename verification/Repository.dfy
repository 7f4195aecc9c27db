/** Whole histories of one repository: its log file, its pending records and every `git push`
    ever run, over any sequence of log appends by others, queued pushes and executor calls. */
module Repository {
  import opened Consensus
  import opened Executor
  import opened Journal
  import opened Log
  import opened Operations
  import opened Pending
  import opened Recorder
  import opened Sorting
  import opened Wrappers

  datatype Repo = Repo(journal: seq<Line>, pending: PendingFile, runs: seq<GitRun>)

  datatype Command =
    | Append(line: Line)
    | Enqueue(push: PendingPush, now: string)
    | Execute(only: string, cfg: ConfigFile, world: World)

  /** One command. The executor does nothing when the log or the pending file cannot be loaded. */
  ghost function Do(r: Repo, node: NodeId, c: Command): Repo {
    match c
    case Append(line) => r.(journal := r.journal + [line])
    case Enqueue(push, now) =>
      if Normalize(push).Err? || Pending.Load(r.pending).Err? then r
      else r.(pending := Pushes(Upserted(Pending.Load(r.pending).value, Stamp(Normalize(push).value, now))))
    case Execute(only, cfg, world) =>
      if Journal.Load(r.journal).Err? || Pending.Load(r.pending).Err? then r
      else
        var listed := Pending.Load(r.pending).value;
        var end := Process(Begin(Journal.Load(r.journal).value, r.journal, listed), node, cfg, only, |listed|, world);
        Repo(end.journal, if end.pushes == listed then r.pending else Pushes(end.pushes), r.runs + end.runs)
  }

  ghost function After(r: Repo, node: NodeId, commands: seq<Command>): Repo {
    if commands == [] then r
    else Do(After(r, node, commands[..|commands| - 1]), node, commands[|commands| - 1])
  }

  /** The command queues a proposal again whose record is completed. */
  predicate Rearms(r: Repo, c: Command) {
    && c.Enqueue? && Normalize(c.push).Ok? && Pending.Load(r.pending).Ok?
    && Completed(Pending.Load(r.pending).value, Normalize(c.push).value.proposalId)
    && Normalize(c.push).value.status != COMPLETED
  }

  ghost predicate NeverRearms(r: Repo, node: NodeId, commands: seq<Command>) {
    forall k :: 0 <= k < |commands| ==> !Rearms(After(r, node, commands[..k]), commands[k])
  }

  /** No proposal's push has succeeded twice. */
  ghost predicate AtMostOnce(runs: seq<GitRun>) {
    forall i, j :: 0 <= i < j < |runs| && runs[i].succeeded && runs[j].succeeded ==> runs[i].proposalId != runs[j].proposalId
  }

  ghost predicate AllCertified(runs: seq<GitRun>) {
    forall r :: r in runs ==> RunCertified(r)
  }

  ghost predicate Sane(r: Repo) {
    && AllCertified(r.runs)
    && if Pending.Load(r.pending).Ok? then OncePerProposal(Pending.Load(r.pending).value, r.runs)
      else SuccessIsLast(r.runs)
  }

  lemma EnqueueKeepsSane(r: Repo, node: NodeId, push: PendingPush, now: string)
    requires Sane(r) && !Rearms(r, Enqueue(push, now))
    ensures Sane(Do(r, node, Enqueue(push, now)))
  {
    hide ListedBefore, Normalize, Pending.Load, AllCertified;
    if Normalize(push).Ok? && Pending.Load(r.pending).Ok? {
      var before, stamped := Pending.Load(r.pending).value, Stamp(Normalize(push).value, now);
      var saved := Upserted(before, stamped);
      UpsertedUnique(before, stamped);
      UpsertLoads(r.pending, push, now);
      SortedUnique(saved);
      SortElements(ListedBefore, saved);
      forall x | x in r.runs && x.succeeded ensures Completed(Sort(ListedBefore, saved), x.proposalId) {
        StillCompleted(before, stamped, x.proposalId);
      }
    }
  }

  lemma UpsertLoads(file: PendingFile, push: PendingPush, now: string)
    requires Normalize(push).Ok? && Pending.Load(file).Ok?
    ensures var saved := Upserted(Pending.Load(file).value, Stamp(Normalize(push).value, now));
      Pending.Load(Pushes(saved)) == Ok(Sort(ListedBefore, saved))
  {
    hide ListedBefore, Normalize;
    var before, stamped := Pending.Load(file).value, Stamp(Normalize(push).value, now);
    LoadListed(file);
    NormalizeIsClean(push);
    forall p | p in Upserted(before, stamped) ensures Clean(p) {
      UpsertedClean(before, Normalize(push).value, now, p);
    }
    CleanIsFixed(Upserted(before, stamped));
  }

  lemma UpsertedClean(before: seq<PendingPush>, push: PendingPush, now: string, p: PendingPush)
    requires (forall x :: x in before ==> Clean(x)) && Clean(push) && p in Upserted(before, Stamp(push, now))
    ensures Clean(p)
  {
    hide Strings.TrimSpace;
    var i := IndexOf(before, push.proposalId);
    assert p in before || p == Stamp(push, now) || (i < |before| && p == Merged(Stamp(push, now), before[i]));
  }

  lemma StillCompleted(before: seq<PendingPush>, push: PendingPush, pid: string)
    requires UniqueIds(before) && Completed(before, pid) && (push.proposalId == pid ==> push.status == COMPLETED)
    ensures exists p :: p in Sort(ListedBefore, Upserted(before, push)) && p.proposalId == pid && p.status == COMPLETED
  {
    hide ListedBefore;
    var saved := Upserted(before, push);
    UpsertedUnique(before, push);
    SortElements(ListedBefore, saved);
    if push.proposalId == pid {
      var i := IndexOf(before, pid);
      assert i < |before|;
      assert saved[i] in saved && saved[i].status == COMPLETED && saved[i].proposalId == pid;
    } else {
      var p :| p in before && p.proposalId == pid && p.status == COMPLETED;
      assert p in saved;
    }
  }

  lemma ExecuteKeepsSane(r: Repo, node: NodeId, only: string, cfg: ConfigFile, world: World)
    requires Sane(r)
    ensures Sane(Do(r, node, Execute(only, cfg, world)))
  {
    hide Process, Journal.Load, Pending.Load, Listed, OncePerProposal, WellFormed, RunCertified;
    if Journal.Load(r.journal).Ok? && Pending.Load(r.pending).Ok? {
      var log, listed := Journal.Load(r.journal).value, Pending.Load(r.pending).value;
      var start := Begin(log, r.journal, listed);
      var end := Process(start, node, cfg, only, |listed|, world);
      LoadExact(r.journal);
      LoadListed(r.pending);
      PushesAreCertified(start, node, cfg, only, |listed|, world);
      ProcessKeepsOnce(start, r.runs, node, cfg, only, |listed|, world);
      ListedReloads(end.pushes);
    }
  }

  /** Over any history that re-arms no completed record, every push executed was certified in
      the log it was executed on, and once a proposal's push has succeeded it is never run again. */
  lemma {:induction false} PushSafety(r: Repo, node: NodeId, commands: seq<Command>)
    requires Sane(r) && NeverRearms(r, node, commands)
    ensures var end := After(r, node, commands);
      && (forall x :: x in end.runs ==> RunCertified(x)) && SuccessIsLast(end.runs) && Sane(end)
  {
    hide Do, Rearms, RunCertified, Completed, UniqueIds;
    if commands != [] {
      var front, last := commands[..|commands| - 1], commands[|commands| - 1];
      var before := After(r, node, front);
      assert forall k :: 0 <= k <= |front| ==> commands[..k] == front[..k];
      assert front[..|front|] == front;
      PushSafety(r, node, front);
      match last
      case Append(line) => AppendKeepsSane(before, node, line);
      case Enqueue(push, now) => EnqueueKeepsSane(before, node, push, now);
      case Execute(only, cfg, world) => ExecuteKeepsSane(before, node, only, cfg, world);
    }
  }

  lemma AppendKeepsSane(r: Repo, node: NodeId, line: Line)
    requires Sane(r)
    ensures Sane(Do(r, node, Append(line)))
  {
  }

  /** A repository with no pending file has run nothing. */
  lemma StartsSane(journal: seq<Line>)
    ensures Sane(Repo(journal, NoFile, []))
  {
  }

  // ------------------------------------------- completed records, and IDs queued only once

  /** The pending file never has two records of one proposal. */
  ghost predicate DistinctIds(r: Repo) {
    Pending.Load(r.pending).Ok? ==> UniqueIds(Pending.Load(r.pending).value)
  }

  /** The pushes a command adds are of records that were not completed when it was given. */
  ghost predicate RunsOpenRecords(before: Repo, after: Repo) {
    && before.runs <= after.runs
    && forall i :: |before.runs| <= i < |after.runs| ==>
         Pending.Load(before.pending).Ok? && OpenRecord(Pending.Load(before.pending).value, after.runs[i])
  }

  ghost predicate OpenRecord(listed: seq<PendingPush>, run: GitRun) {
    && !Completed(listed, run.proposalId)
    && exists p :: p in listed && p.proposalId == run.proposalId && p.gitArgs == run.args
  }

  /** A call leaves the list of proposal IDs as it was, and runs only open records. */
  lemma ExecuteOpens(r: Repo, node: NodeId, only: string, cfg: ConfigFile, world: World)
    requires DistinctIds(r)
    ensures var next := Do(r, node, Execute(only, cfg, world));
      && DistinctIds(next) && RunsOpenRecords(r, next)
      && (Pending.Load(r.pending).Ok? <==> Pending.Load(next.pending).Ok?)
      && (Pending.Load(r.pending).Ok? ==>
            var before, after := Pending.Load(r.pending).value, Pending.Load(next.pending).value;
            |after| == |before| && forall i :: 0 <= i < |before| ==> after[i].proposalId == before[i].proposalId)
  {
    hide Process, Journal.Load, Pending.Load, Listed, Completed;
    if Journal.Load(r.journal).Ok? && Pending.Load(r.pending).Ok? {
      var listed := Pending.Load(r.pending).value;
      var start := Begin(Journal.Load(r.journal).value, r.journal, listed);
      var end := Process(start, node, cfg, only, |listed|, world);
      LoadListed(r.pending);
      assert OncePerProposal(listed, []);
      ProcessKeepsOnce(start, [], node, cfg, only, |listed|, world);
      ListedReloads(end.pushes);
      OnlyOpenRecordsRun(start, node, cfg, only, |listed|, world);
      forall run | run in end.runs ensures OpenRecord(listed, run) {
        SelectedIsOpen(only, listed, end.runs, run);
      }
    }
  }

  lemma SelectedIsOpen(only: string, listed: seq<PendingPush>, runs: seq<GitRun>, run: GitRun)
    requires UniqueIds(listed) && RunsListed(only, listed, runs) && run in runs
    ensures OpenRecord(listed, run)
  {
    var p :| p in listed && Selected(only, p) && p.proposalId == run.proposalId && p.gitArgs == run.args;
    forall q | q in listed && q.proposalId == run.proposalId ensures q.status != COMPLETED {
      var i :| 0 <= i < |listed| && listed[i] == p;
      var j :| 0 <= j < |listed| && listed[j] == q;
    }
  }

  lemma EnqueueDistinct(r: Repo, node: NodeId, push: PendingPush, now: string)
    requires DistinctIds(r)
    ensures var next := Do(r, node, Enqueue(push, now));
      && DistinctIds(next) && RunsOpenRecords(r, next)
      && (Pending.Load(next.pending).Ok? ==> Pending.Load(r.pending).Ok?)
      && (Pending.Load(next.pending).Ok? ==> forall p :: p in Pending.Load(next.pending).value ==>
            (exists q :: q in Pending.Load(r.pending).value && q.proposalId == p.proposalId)
            || (Normalize(push).Ok? && p.proposalId == Normalize(push).value.proposalId))
  {
    hide ListedBefore, Normalize, Pending.Load, OpenRecord;
    if Normalize(push).Ok? && Pending.Load(r.pending).Ok? {
      var before, stamped := Pending.Load(r.pending).value, Stamp(Normalize(push).value, now);
      var saved := Upserted(before, stamped);
      UpsertedUnique(before, stamped);
      UpsertLoads(r.pending, push, now);
      SortedUnique(saved);
      SortElements(ListedBefore, saved);
    }
  }

  /** Over every history, no executor call runs a record that is completed in the file it reads:
      whatever was queued, and whether or not the record's success is among the known runs. */
  lemma {:induction false} CompletedNeverRuns(r: Repo, node: NodeId, commands: seq<Command>, k: nat)
    requires DistinctIds(r) && k < |commands|
    ensures RunsOpenRecords(After(r, node, commands[..k]), After(r, node, commands[..k + 1]))
  {
    hide Do, RunsOpenRecords, DistinctIds;
    var before := After(r, node, commands[..k]);
    HistoryDistinct(r, node, commands[..k]);
    assert commands[..k + 1][..k] == commands[..k];
    match commands[k]
    case Append(line) => AppendRunsNothing(before, node, line);
    case Enqueue(push, now) => EnqueueDistinct(before, node, push, now);
    case Execute(only, cfg, world) => ExecuteOpens(before, node, only, cfg, world);
  }

  lemma AppendRunsNothing(r: Repo, node: NodeId, line: Line)
    requires DistinctIds(r)
    ensures DistinctIds(Do(r, node, Append(line))) && RunsOpenRecords(r, Do(r, node, Append(line)))
  {
  }

  lemma {:induction false} HistoryDistinct(r: Repo, node: NodeId, commands: seq<Command>)
    requires DistinctIds(r)
    ensures DistinctIds(After(r, node, commands))
  {
    hide Do, RunsOpenRecords, DistinctIds;
    if commands != [] {
      var before := After(r, node, commands[..|commands| - 1]);
      HistoryDistinct(r, node, commands[..|commands| - 1]);
      match commands[|commands| - 1]
      case Append(line) => AppendRunsNothing(before, node, line);
      case Enqueue(push, now) => EnqueueDistinct(before, node, push, now);
      case Execute(only, cfg, world) => ExecuteOpens(before, node, only, cfg, world);
    }
  }

  predicate Queues(c: Command, pid: string) {
    c.Enqueue? && Normalize(c.push).Ok? && Normalize(c.push).value.proposalId == pid
  }

  /** Every push is queued under an ID no other is queued under, as the program does: it queues
      one right after generating the proposal's ID. */
  ghost predicate QueuedOnce(commands: seq<Command>) {
    forall j, k, pid :: 0 <= j < k < |commands| && Queues(commands[j], pid) ==> !Queues(commands[k], pid)
  }

  /** Without a pending file to begin with, every record was queued by some command. */
  lemma {:induction false} RecordsWereQueued(journal: seq<Line>, node: NodeId, commands: seq<Command>)
    ensures var end := After(Repo(journal, NoFile, []), node, commands);
      && DistinctIds(end)
      && (Pending.Load(end.pending).Ok? ==> forall p :: p in Pending.Load(end.pending).value ==>
            exists c :: c in commands && Queues(c, p.proposalId))
  {
    hide Do, DistinctIds, RunsOpenRecords, Queues;
    var start := Repo(journal, NoFile, []);
    assert DistinctIds(start) by { StartsDistinct(journal); }
    HistoryDistinct(start, node, commands);
    if commands != [] {
      var front, last := commands[..|commands| - 1], commands[|commands| - 1];
      var before := After(start, node, front);
      RecordsWereQueued(journal, node, front);
      assert forall c :: c in front ==> c in commands;
      assert last in commands;
      RecordsStep(before, node, last);
    }
  }

  lemma StartsDistinct(journal: seq<Line>)
    ensures DistinctIds(Repo(journal, NoFile, []))
  {
  }

  /** The records after a command are those before it and the one it queues. */
  lemma RecordsStep(r: Repo, node: NodeId, c: Command)
    requires DistinctIds(r)
    ensures var next := Do(r, node, c);
      Pending.Load(next.pending).Ok? ==>
        && Pending.Load(r.pending).Ok?
        && forall p :: p in Pending.Load(next.pending).value ==>
             Queues(c, p.proposalId) || exists q :: q in Pending.Load(r.pending).value && q.proposalId == p.proposalId
  {
    hide Pending.Load, RunsOpenRecords, Normalize;
    var next := Do(r, node, c);
    match c
    case Append(_) =>
    case Enqueue(push, now) => EnqueueDistinct(r, node, push, now);
    case Execute(only, cfg, world) =>
      hide Do;
      ExecuteOpens(r, node, only, cfg, world);
      if Pending.Load(next.pending).Ok? {
        forall p | p in Pending.Load(next.pending).value
          ensures exists q :: q in Pending.Load(r.pending).value && q.proposalId == p.proposalId
        {
          var i :| 0 <= i < |Pending.Load(next.pending).value| && Pending.Load(next.pending).value[i] == p;
          assert Pending.Load(r.pending).value[i] in Pending.Load(r.pending).value;
        }
      }
  }

  lemma {:induction false} QueuedOnceNeverRearms(journal: seq<Line>, node: NodeId, commands: seq<Command>)
    requires QueuedOnce(commands)
    ensures NeverRearms(Repo(journal, NoFile, []), node, commands)
  {
    hide Do, DistinctIds, Queues, After;
    var start := Repo(journal, NoFile, []);
    forall k | 0 <= k < |commands| ensures !Rearms(After(start, node, commands[..k]), commands[k]) {
      var before := After(start, node, commands[..k]);
      RecordsWereQueued(journal, node, commands[..k]);
      if commands[k].Enqueue? && Normalize(commands[k].push).Ok? && Pending.Load(before.pending).Ok? {
        var pid := Normalize(commands[k].push).value.proposalId;
        QueuesIt(commands[k]);
        forall p | p in Pending.Load(before.pending).value ensures p.proposalId != pid {
          var c :| c in commands[..k] && Queues(c, p.proposalId);
          var j :| 0 <= j < k && commands[j] == c;
        }
      }
    }
  }

  lemma QueuesIt(c: Command)
    requires c.Enqueue? && Normalize(c.push).Ok?
    ensures Queues(c, Normalize(c.push).value.proposalId)
  {
  }

  /** Every history the program can produce, from a repository without a pending file: each
      push run is certified, and once a proposal's push has succeeded it is never run again. */
  lemma {:induction false} ProgramPushSafety(journal: seq<Line>, node: NodeId, commands: seq<Command>)
    requires QueuedOnce(commands)
    ensures var end := After(Repo(journal, NoFile, []), node, commands);
      (forall x :: x in end.runs ==> RunCertified(x)) && SuccessIsLast(end.runs)
  {
    hide After, NeverRearms, Sane, RunCertified;
    StartsSane(journal);
    QueuedOnceNeverRearms(journal, node, commands);
    PushSafety(Repo(journal, NoFile, []), node, commands);
  }

  // ------------------------------------------------------- queueing a proposal again

  lemma OneMore(start: Progress, node: NodeId, cfg: ConfigFile, only: string, k: nat, world: World)
    requires k < |start.pushes|
    ensures Process(start, node, cfg, only, k + 1, world) ==
      var st, push := Process(start, node, cfg, only, k, world), start.pushes[k];
      if Selected(only, push) then Handle(st, node, cfg, push, k, world) else st
  {
    hide Handle;
  }

  lemma {:induction false} RestSkipped(start: Progress, node: NodeId, cfg: ConfigFile, only: string, k: nat, n: nat,
                                       world: World)
    requires k < n <= |start.pushes| && UniqueIds(start.pushes) && only != "" && start.pushes[k].proposalId == only
    ensures Process(start, node, cfg, only, n, world) == Process(start, node, cfg, only, k + 1, world)
  {
    hide Handle;
    if k + 1 < n {
      RestSkipped(start, node, cfg, only, k, n - 1, world);
      OneMore(start, node, cfg, only, n - 1, world);
    }
  }

  /** A call for one proposal handles its record and nothing else. */
  lemma OnlyItsRecord(start: Progress, node: NodeId, cfg: ConfigFile, k: nat, world: World)
    requires k < |start.pushes| && UniqueIds(start.pushes) && start.pushes[k].proposalId != ""
    ensures Process(start, node, cfg, start.pushes[k].proposalId, |start.pushes|, world) ==
      if start.pushes[k].status != COMPLETED then Handle(start, node, cfg, start.pushes[k], k, world) else start
  {
    hide Process, Handle, UniqueIds;
    var pid := start.pushes[k].proposalId;
    OthersSkipped(start, node, cfg, pid, k, k, world);
    RestSkipped(start, node, cfg, pid, k, |start.pushes|, world);
    OneMore(start, node, cfg, pid, k, world);
  }

  lemma TwoCommands(r: Repo, node: NodeId, c: Command, d: Command)
    ensures After(r, node, [c, d]) == Do(Do(r, node, c), node, d)
  {
    hide Do;
    assert [c, d][..1] == [c] && [c][..0] == [];
    assert After(r, node, [c]) == Do(r, node, c);
  }

  /** The list of records after queueing a push. */
  ghost function Queued(r: Repo, push: PendingPush, now: string): seq<PendingPush>
    requires Normalize(push).Ok? && Pending.Load(r.pending).Ok?
  {
    Sort(ListedBefore, Upserted(Pending.Load(r.pending).value, Stamp(Normalize(push).value, now)))
  }

  /** Where the queued record is listed. */
  ghost function QueuedAt(r: Repo, push: PendingPush, now: string): (k: nat)
    requires Normalize(push).Ok? && Pending.Load(r.pending).Ok?
  {
    IndexOf(Queued(r, push, now), Normalize(push).value.proposalId)
  }

  lemma QueuedRecord(r: Repo, node: NodeId, push: PendingPush, now: string)
    requires DistinctIds(r) && Normalize(push).Ok? && Pending.Load(r.pending).Ok?
    ensures var queued, k := Queued(r, push, now), QueuedAt(r, push, now);
      && Pending.Load(Do(r, node, Enqueue(push, now)).pending) == Ok(queued)
      && UniqueIds(queued) && k < |queued| && queued[k].proposalId == Normalize(push).value.proposalId != ""
      && queued[k].status == Normalize(push).value.status
  {
    hide ListedBefore, Normalize, Pending.Load;
    var before, stamped := Pending.Load(r.pending).value, Stamp(Normalize(push).value, now);
    var saved, queued, pid := Upserted(before, stamped), Queued(r, push, now), stamped.proposalId;
    UpsertedUnique(before, stamped);
    UpsertLoads(r.pending, push, now);
    SortedUnique(saved);
    SortElements(ListedBefore, saved);
    NormalizedHasId(push);
    UpsertedRecord(before, stamped);
    assert saved[IndexOf(before, pid)] in queued;
  }

  lemma UpsertedRecord(before: seq<PendingPush>, push: PendingPush)
    requires UniqueIds(before)
    ensures var saved, i := Upserted(before, push), IndexOf(before, push.proposalId);
      && i < |saved| && saved[i] in saved && saved[i].proposalId == push.proposalId
      && forall q :: q in saved && q.proposalId == push.proposalId ==> q.status == push.status
  {
    var saved, i := Upserted(before, push), IndexOf(before, push.proposalId);
    UpsertedUnique(before, push);
    forall q | q in saved && q.proposalId == push.proposalId ensures q.status == push.status {
      var j :| 0 <= j < |saved| && saved[j] == q;
    }
  }

  lemma NormalizedHasId(push: PendingPush)
    requires Normalize(push).Ok?
    ensures Normalize(push).value.proposalId != ""
  {
  }

  /** Queueing a push and then processing its proposal runs it exactly when it was not queued
      as completed and its proposal can be pushed. */
  lemma QueueThenExecute(r: Repo, node: NodeId, push: PendingPush, now: string, cfg: ConfigFile, world: World)
    requires DistinctIds(r) && Normalize(push).Ok? && Pending.Load(r.pending).Ok? && Journal.Load(r.journal).Ok?
    ensures var pid, k := Normalize(push).value.proposalId, QueuedAt(r, push, now);
      var start := Begin(Journal.Load(r.journal).value, r.journal, Queued(r, push, now));
      var end := After(r, node, [Enqueue(push, now), Execute(pid, cfg, world)]);
      && k < |start.pushes|
      && end.runs == r.runs +
           (if Normalize(push).value.status != COMPLETED && Pushable(start.log, node, cfg, pid, world.statusAt(k), world.certifyAt(k))
            then [GitRun(pid, start.pushes[k].gitArgs, Handle(start, node, cfg, start.pushes[k], k, world).log, world.git(k).None?)]
            else [])
      && (Normalize(push).value.status != COMPLETED ==>
            end.journal == Handle(start, node, cfg, start.pushes[k], k, world).journal)
  {
    hide Process, Handle, Journal.Load, Pending.Load, Normalize, Queued, QueuedAt, Pushable, UniqueIds;
    var pid, k := Normalize(push).value.proposalId, QueuedAt(r, push, now);
    QueuedRecord(r, node, push, now);
    TwoCommands(r, node, Enqueue(push, now), Execute(pid, cfg, world));
    var start := Begin(Journal.Load(r.journal).value, r.journal, Queued(r, push, now));
    OnlyItsRecord(start, node, cfg, k, world);
    PushedIffPushable(start, node, cfg, start.pushes[k], k, world);
  }

  /** Exactly when a proposal that was pushed is pushed again, and exactly when that succeeds a
      second time. Let some push of the proposal have succeeded. Queueing it again and processing
      it runs it once more if and only if it is not queued as completed, which puts its completed
      record back, and the proposal is open and certified or ready to be; two successes need
      `git push` to succeed again. */
  lemma PushedAgainIff(r: Repo, node: NodeId, push: PendingPush, now: string, cfg: ConfigFile, world: World)
    requires Sane(r) && Normalize(push).Ok? && Pending.Load(r.pending).Ok? && Journal.Load(r.journal).Ok?
    requires exists x :: x in r.runs && x.succeeded && x.proposalId == Normalize(push).value.proposalId
    ensures Rearms(r, Enqueue(push, now)) <==> Normalize(push).value.status != COMPLETED
    ensures var pid, k, log := Normalize(push).value.proposalId, QueuedAt(r, push, now), Journal.Load(r.journal).value;
      var again := Rearms(r, Enqueue(push, now)) && Pushable(log, node, cfg, pid, world.statusAt(k), world.certifyAt(k));
      var end := After(r, node, [Enqueue(push, now), Execute(pid, cfg, world)]);
      && (!SuccessIsLast(end.runs) <==> again)
      && (!AtMostOnce(end.runs) <==> again && world.git(k).None?)
  {
    hide Handle, Journal.Load, Pending.Load, Normalize, Queued, QueuedAt, Pushable, UniqueIds, After, RunCertified;
    hide SuccessIsLast, AtMostOnce;
    var pid := Normalize(push).value.proposalId;
    var end := After(r, node, [Enqueue(push, now), Execute(pid, cfg, world)]);
    QueueThenExecute(r, node, push, now, cfg, world);
    if |end.runs| > |r.runs| {
      AnotherRun(r.runs, end.runs[|r.runs|]);
      assert end.runs == r.runs + [end.runs[|r.runs|]];
    } else {
      SuccessIsLastOnce(r.runs);
      assert end.runs == r.runs;
    }
  }

  lemma SuccessIsLastOnce(runs: seq<GitRun>)
    requires SuccessIsLast(runs)
    ensures AtMostOnce(runs)
  {
  }

  lemma AnotherRun(runs: seq<GitRun>, run: GitRun)
    requires SuccessIsLast(runs) && exists x :: x in runs && x.succeeded && x.proposalId == run.proposalId
    ensures !SuccessIsLast(runs + [run]) && (!AtMostOnce(runs + [run]) <==> run.succeeded)
  {
    var x :| x in runs && x.succeeded && x.proposalId == run.proposalId;
    var i :| 0 <= i < |runs| && runs[i] == x;
    assert (runs + [run])[i] == x && (runs + [run])[|runs|] == run;
  }

  // ----------------------------------------------------------- an input that pushes twice

  /** Recording an event adds nothing else to the file. */
  lemma EventAddsOnlyEvents(journal: seq<Line>, node: NodeId, pid: string, now: int)
    requires Journal.Load(journal).Ok?
    ensures Journal.Load(EventRecorded(journal, node, pid, now)).Ok?
    ensures var before, after := Journal.Load(journal).value, Journal.Load(EventRecorded(journal, node, pid, now)).value;
      before <= after && forall o :: o in after ==> o in before || o.payload.Event?
  {
    hide OutcomeOf, Extent, Strings.TrimSpace;
    var before := Journal.Load(journal).value;
    var op := LocalOp(before, node, now, Event("git.push", pid));
    if op.Ok? {
      Journal.LoadAppended(journal, op.value);
    }
  }

  /** The log file as the push of a ready proposal leaves it: the certificate, and events. */
  ghost predicate JustPushed(log: Ops, disk: Ops, pid: string) {
    && log <= disk && (exists o :: o in disk && IsCertified(o, pid))
    && forall o :: o in disk ==> o in log || o.payload.Cert? || o.payload.Event?
  }

  /** A ready proposal, queued and processed, is certified and pushed. */
  lemma ReadyIsPushed(r: Repo, node: NodeId, push: PendingPush, now: string, cfg: ConfigFile, world: World)
    requires DistinctIds(r) && Clean(push) && push.status == PENDING && Pending.Load(r.pending).Ok?
    requires Journal.Load(r.journal).Ok? && forall i :: world.git(i).None?
    requires ReadyAlone(Journal.Load(r.journal).value, node, cfg, push.proposalId)
    requires !Exhausted(Journal.Load(r.journal).value, node)
    ensures var end := After(r, node, [Enqueue(push, now), Execute(push.proposalId, cfg, world)]);
      && |end.runs| == |r.runs| + 1 && r.runs <= end.runs
      && end.runs[|r.runs|].proposalId == push.proposalId && end.runs[|r.runs|].succeeded
      && Journal.Load(end.journal).Ok?
        && JustPushed(Journal.Load(r.journal).value, Journal.Load(end.journal).value, push.proposalId)
  {
    hide Journal.Load, Pending.Load, ReadyAlone, Exhausted, Handle, WellFormed, Queued, QueuedAt, After, Pushable,
         JustPushed;
    var k := QueuedAt(r, push, now);
    var start := Begin(Journal.Load(r.journal).value, r.journal, Queued(r, push, now));
    LoadExact(r.journal);
    QueuedRecord(r, node, push, now);
    QueueThenExecute(r, node, push, now, cfg, world);
    QueuedClean(r, node, push, now);
    ReadyHandled(start, node, cfg, start.pushes[k], k, world);
  }

  lemma ReadyHandled(start: Progress, node: NodeId, cfg: ConfigFile, record: PendingPush, k: nat, world: World)
    requires Aligned(start) && Clean(record) && world.git(k).None?
    requires ReadyAlone(start.log, node, cfg, record.proposalId) && !Exhausted(start.log, node)
    ensures Pushable(start.log, node, cfg, record.proposalId, world.statusAt(k), world.certifyAt(k))
    ensures var journal := Handle(start, node, cfg, record, k, world).journal;
      Journal.Load(journal).Ok? && JustPushed(start.log, Journal.Load(journal).value, record.proposalId)
  {
    hide Journal.Load, ReadyAlone, Exhausted, Certifies, Handle, WellFormed, OutcomeOf, IsCertified, Push,
         EventRecorded,
         IssuedOp, JustPushed, Pushable, Clean;
    var cert := ReadyCertified(start, node, cfg, record, k, world);
    CertifiesIsPushable(start, node, cfg, record, k, world);
    PushedJournal(AfterCertificate(start, cert), node, record, k, world);
    CertificateThenEvent(start.log, start.journal, cert, node, record.proposalId, world.eventAt(k));
  }

  lemma ReadyCertified(start: Progress, node: NodeId, cfg: ConfigFile, record: PendingPush, k: nat, world: World)
    returns (cert: Operation)
    requires WellFormed(start.log) && Clean(record)
    requires ReadyAlone(start.log, node, cfg, record.proposalId) && !Exhausted(start.log, node)
    ensures Certifies(start, node, cfg, record, k, world)
    ensures Handle(start, node, cfg, record, k, world) == Push(AfterCertificate(start, cert), node, record, k, world)
    ensures OutcomeOf(start.log, cert) == Added && IsCertified(cert, record.proposalId)
  {
    hide ReadyAlone, Exhausted, Certifies, Handle, WellFormed, OutcomeOf, IsCertified, Push, IssuedOp, Clean;
    ReadyAloneCertifies(start, node, cfg, record, k, world);
    HandleCases(start, node, cfg, record, k, world);
    cert := IssuedOp(start.log, start.log, node, cfg, Certify(record.proposalId, false), world.certifyAt(k)).value;
  }

  lemma CertificateThenEvent(log: Ops, journal: seq<Line>, cert: Operation, node: NodeId, pid: string, now: int)
    requires Journal.Load(journal) == Ok(log) && OutcomeOf(log, cert) == Added && IsCertified(cert, pid)
    ensures var after := EventRecorded(journal + [Entry(cert)], node, pid, now);
      Journal.Load(after).Ok? && JustPushed(log, Journal.Load(after).value, pid)
  {
    hide Journal.Load, OutcomeOf, IsCertified, EventRecorded;
    Journal.LoadAppended(journal, cert);
    EventAddsOnlyEvents(journal + [Entry(cert)], node, pid, now);
    IsCertificate(cert, pid);
    assert (log + [cert])[|log|] == cert;
  }

  lemma PushedJournal(st: Progress, node: NodeId, push: PendingPush, i: nat, world: World)
    requires world.git(i).None?
    ensures Push(st, node, push, i, world).journal == EventRecorded(st.journal, node, push.proposalId, world.eventAt(i))
  {
    hide EventRecorded, Marked;
  }

  lemma IsCertificate(o: Operation, pid: string)
    requires IsCertified(o, pid)
    ensures o.payload.Cert?
  {
  }

  lemma CertifiesIsPushable(st: Progress, node: NodeId, cfg: ConfigFile, push: PendingPush, i: nat, world: World)
    requires Certifies(st, node, cfg, push, i, world)
    ensures Pushable(st.log, node, cfg, push.proposalId, world.statusAt(i), world.certifyAt(i))
  {
    hide StatusOf, IssuedOp;
  }

  lemma QueuedClean(r: Repo, node: NodeId, push: PendingPush, now: string)
    requires DistinctIds(r) && Normalize(push).Ok? && Pending.Load(r.pending).Ok?
    ensures forall p :: p in Queued(r, push, now) ==> Clean(p)
  {
    hide Normalize, Pending.Load, Queued, DistinctIds;
    QueuedRecord(r, node, push, now);
    LoadListed(Do(r, node, Enqueue(push, now)).pending);
  }

  /** After its push a ready proposal can be pushed again. */
  lemma StaysPushable(log: Ops, disk: Ops, node: NodeId, cfg: ConfigFile, pid: string, readAt: int, certifiedAt: int)
    requires WellFormed(disk) && pid != "" && Strings.TrimSpace(pid) == pid
    requires ReadyAlone(log, node, cfg, pid) && JustPushed(log, disk, pid)
    ensures Pushable(disk, node, cfg, pid, readAt, certifiedAt)
  {
    hide WellFormed, StatusOf, IssuedOp, Strings.TrimSpace, Votes, ShowsCertificate, VotersMean, CountsMean,
         IsCertified, KeyLess;
    StatusOutcome(disk, node, cfg, pid, readAt);
    var o :| o in log && IsProposal(o, pid);
    assert o in disk;
    StatusSpec(disk, node, cfg, pid, readAt);
    var s := StatusOf(disk, node, cfg, pid, readAt).value;
    var p :| AboutProposal(disk, pid, s, p);
    assert p in log;
  }

  lemma FourCommands(r: Repo, node: NodeId, c: Command, d: Command)
    ensures After(r, node, [c, d, c, d]) == After(After(r, node, [c, d]), node, [c, d])
  {
    hide Do;
    TwoCommands(After(r, node, [c, d]), node, c, d);
    assert [c, d, c, d][..3] == [c, d, c] && [c, d, c][..2] == [c, d];
    assert After(r, node, [c, d, c]) == Do(After(r, node, [c, d]), node, c);
  }

  /** Wherever a node alone has voted yes on an open, uncertified proposal: queueing its push and
      processing it, twice, pushes it twice. */
  lemma PushedTwice(r: Repo, node: NodeId, push: PendingPush, now: string, cfg: ConfigFile, world: World)
    requires Sane(r) && Clean(push) && push.status == PENDING && Pending.Load(r.pending).Ok?
    requires !Completed(Pending.Load(r.pending).value, push.proposalId)
    requires Journal.Load(r.journal).Ok? && forall i :: world.git(i).None?
    requires ReadyAlone(Journal.Load(r.journal).value, node, cfg, push.proposalId)
    requires !Exhausted(Journal.Load(r.journal).value, node)
    ensures var c, d := Enqueue(push, now), Execute(push.proposalId, cfg, world);
      !AtMostOnce(After(r, node, [c, d, c, d]).runs)
  {
    hide Journal.Load, Pending.Load, ReadyAlone, Exhausted, WellFormed, After, OncePerProposal, Completed, Pushable,
         JustPushed;
    var pid, c, d := push.proposalId, Enqueue(push, now), Execute(push.proposalId, cfg, world);
    var once := After(r, node, [c, d]);
    SaneDistinct(r);
    ReadyIsPushed(r, node, push, now, cfg, world);
    TwoCommands(r, node, c, d);
    EnqueueKeepsSane(r, node, push, now);
    ExecuteKeepsSane(Do(r, node, c), node, push.proposalId, cfg, world);
    StillLoads(r, node, c, d);
    LoadExact(once.journal);
    var k := QueuedAt(once, push, now);
    CleanHasId(push);
    StaysPushable(Journal.Load(r.journal).value, Journal.Load(once.journal).value, node, cfg, pid, world.statusAt(k), world.certifyAt(k));
    assert once.runs[|r.runs|] in once.runs;
    PushedAgainIff(once, node, push, now, cfg, world);
    FourCommands(r, node, c, d);
  }

  lemma CleanHasId(push: PendingPush)
    requires Clean(push)
    ensures push.proposalId != "" && Strings.TrimSpace(push.proposalId) == push.proposalId
  {
  }

  lemma SaneDistinct(r: Repo)
    requires Sane(r)
    ensures DistinctIds(r)
  {
  }

  lemma StillLoads(r: Repo, node: NodeId, c: Command, d: Command)
    requires DistinctIds(r) && Pending.Load(r.pending).Ok? && c.Enqueue? && d.Execute?
    ensures Pending.Load(Do(Do(r, node, c), node, d).pending).Ok?
  {
    hide Do, Pending.Load, RunsOpenRecords, DistinctIds, Normalize;
    var next := Do(r, node, c);
    EnqueueDistinct(r, node, c.push, c.now);
    EnqueueLoads(r, node, c.push, c.now);
    ExecuteOpens(next, node, d.only, d.cfg, d.world);
  }

  lemma EnqueueLoads(r: Repo, node: NodeId, push: PendingPush, now: string)
    requires DistinctIds(r) && Pending.Load(r.pending).Ok?
    ensures Pending.Load(Do(r, node, Enqueue(push, now)).pending).Ok?
  {
    hide Pending.Load, Normalize, Queued;
    if Normalize(push).Ok? {
      QueuedRecord(r, node, push, now);
    }
  }

  function QuietWorld(): World {
    World(_ => 0, _ => 0, _ => 0, _ => "t", _ => None)
  }

  /** Such an input, written out: the example's push of "p". */
  lemma PushedTwiceExample()
    ensures var c, d := Enqueue(ExamplePush("p"), "t"), Execute("p", AloneFile(), QuietWorld());
      !AtMostOnce(After(Repo(Entries(ExampleLog()), NoFile, []), "n", [c, d, c, d]).runs)
  {
    hide ReadyAlone, Journal.Load, ExampleLog, Clean, Extent, AtMostOnce, After;
    var r := Repo(Entries(ExampleLog()), NoFile, []);
    ExampleOk();
    TrimmedExamples();
    ReplayWritten(ExampleLog());
    ExampleReady("p");
    ExampleClean("p");
    StartsSane(Entries(ExampleLog()));
    PushedTwice(r, "n", ExamplePush("p"), "t", AloneFile(), QuietWorld());
  }
}
