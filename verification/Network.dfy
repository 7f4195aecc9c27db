/** Any number of stores exchanging sync requests and responses. Messages may be lost,
    delayed, duplicated and reordered, batches are added one operation at a time with
    anything in between, summaries may be stale, and stores may crash and reload. */
module Network {
  import opened Consensus
  import opened Journal
  import opened Log
  import opened Merge
  import opened Operations
  import opened Replica
  import Session
  import opened Strings
  import opened Wrappers

  datatype Snapshot = Snapshot(node: NodeId, summary: Summary)

  /** Operations on their way to a store, or what is left of them. */
  datatype Batch = Batch(dest: NodeId, ops: Ops)

  /** A batch a client has computed for its next request to a peer. */
  datatype Push = Push(client: NodeId, batch: Batch)

  datatype Message =
    | Request(from: NodeId, summary: Summary, batch: Batch, limit: int)
    | Response(from: NodeId, summary: Summary, batch: Batch)

  type Logs = map<NodeId, Ops>

  /** `messages` and `summaries` hold everything ever sent or taken: delivering one never
      removes it, so loss, delay and duplication are all runs of this system. */
  datatype System = System(
    logs: Logs, summaries: set<Snapshot>, pushes: set<Push>, messages: set<Message>, inbox: set<Batch>)

  datatype Step =
    | Act(node: NodeId, seen: nat, file: ConfigFile, action: Action, now: int)
    | Summarise(node: NodeId)
    | Send(client: NodeId, summary: Summary, batch: Batch, limit: int)
    | Respond(request: Message, summary: Summary, configured: int)
    | Prepare(response: Message, limit: int)
    | Receive(message: Message)
    | Add(batch: Batch)
    | Crash(node: NodeId)

  predicate Enabled(s: System, step: Step) {
    match step
    case Act(node, seen, _, _, _) => node in s.logs && seen <= |s.logs[node]|
    case Summarise(node) => node in s.logs
    case Send(client, summary, batch, _) =>
      && client in s.logs && batch.dest in s.logs && Snapshot(client, summary) in s.summaries
      && (batch.ops == [] || Push(client, batch) in s.pushes)
    case Respond(request, summary, _) =>
      request in s.messages && request.Request? && request.batch.dest in s.logs
      && Snapshot(request.batch.dest, summary) in s.summaries
    case Prepare(response, _) => response in s.messages && response.Response? && response.batch.dest in s.logs
    case Receive(message) => message in s.messages
    case Add(batch) => batch in s.inbox && batch.dest in s.logs && batch.ops != []
    case Crash(node) => node in s.logs
  }

  function Reload(log: Ops): Ops {
    match Load(Entries(log))
    case Ok(loaded) => loaded
    case Err(_) => log
  }

  ghost function Do(s: System, step: Step): System
    requires Enabled(s, step)
  {
    match step
    case Act(node, seen, file, action, now) =>
      var op := IssuedOp(s.logs[node][..seen], s.logs[node], node, file, action, now);
      if op.Ok? then s.(logs := s.logs[node := s.logs[node] + [op.value]]) else s
    case Summarise(node) => s.(summaries := s.summaries + {Snapshot(node, SummaryOf(s.logs[node]))})
    case Send(client, summary, batch, limit) => s.(messages := s.messages + {Request(client, summary, batch, limit)})
    case Respond(request, summary, configured) =>
      var server := request.batch.dest;
      var ops := Missing(s.logs[server], request.summary, Session.PullLimit(request.limit, configured));
      s.(messages := s.messages + {Response(server, summary, Batch(request.from, ops))})
    case Prepare(response, limit) =>
      var client := response.batch.dest;
      var ops := Missing(s.logs[client], response.summary, Session.ClientLimit(limit));
      s.(pushes := s.pushes + {Push(client, Batch(response.from, ops))})
    case Receive(message) => s.(inbox := s.inbox + {message.batch})
    case Add(batch) =>
      s.(logs := s.logs[batch.dest := AddTo(s.logs[batch.dest], batch.ops[0])],
         inbox := s.inbox - {batch} + {Batch(batch.dest, batch.ops[1..])})
    case Crash(node) =>
      s.(logs := s.logs[node := Reload(s.logs[node])],
         pushes := (set p | p in s.pushes && p.client != node),
         inbox := (set b | b in s.inbox && b.dest != node))
  }

  /** The state after a list of steps; a step that is not enabled does nothing. */
  ghost function After(s: System, steps: seq<Step>): System {
    if steps == [] then s
    else
      var before, last := After(s, steps[..|steps| - 1]), steps[|steps| - 1];
      if Enabled(before, last) then Do(before, last) else before
  }

  function Init(nodes: set<NodeId>): System {
    System(map n | n in nodes :: [], {}, {}, {}, {})
  }

  lemma {:induction false} AfterSplit(s: System, steps: seq<Step>, i: nat)
    requires i <= |steps|
    ensures After(s, steps) == After(After(s, steps[..i]), steps[i..])
  {
    hide Do, Enabled;
    if i == |steps| {
      assert steps[..i] == steps && steps[i..] == [];
    } else {
      var front := steps[..|steps| - 1];
      AfterSplit(s, front, i);
      assert front[..i] == steps[..i] && steps[i..][..|steps[i..]| - 1] == front[i..];
    }
  }

  // ------------------------------------------------------------------- the invariant

  /** Every store holds, for every author, a prefix of what the author's own store holds. */
  ghost predicate Prefixes(logs: Logs) {
    forall n, a :: n in logs && a in logs ==> By(logs[n], a) <= By(logs[a], a)
  }

  ghost predicate Core(logs: Logs) {
    && (forall n :: n in logs ==> TrimSpace(n) != "")
    && (forall n :: n in logs ==> Sound(logs[n]))
    && (forall n, o :: n in logs && o in logs[n] ==> o.author in logs)
    && (forall a :: a in logs ==> Numbered(By(logs[a], a)))
    && Prefixes(logs)
  }

  ghost predicate Genuine(logs: Logs, o: Operation) {
    o.author in logs && o in logs[o.author]
  }

  ghost predicate BatchOk(logs: Logs, batch: Batch) {
    && batch.dest in logs
    && forall i :: 0 <= i < |batch.ops| ==> Genuine(logs, batch.ops[i]) && Linked(logs[batch.dest], batch.ops, i)
  }

  ghost predicate SummaryOk(logs: Logs, node: NodeId, summary: Summary) {
    node in logs && Within(summary, logs[node])
  }

  ghost predicate Inv(s: System) {
    && Core(s.logs)
    && (forall x :: x in s.summaries ==> SummaryOk(s.logs, x.node, x.summary))
    && (forall p :: p in s.pushes ==> BatchOk(s.logs, p.batch))
    && (forall m :: m in s.messages ==> SummaryOk(s.logs, m.from, m.summary) && BatchOk(s.logs, m.batch))
    && (forall b :: b in s.inbox ==> BatchOk(s.logs, b))
  }

  ghost predicate Grows(logs: Logs, later: Logs) {
    logs.Keys == later.Keys && forall n :: n in logs ==> logs[n] <= later[n]
  }

  lemma CoreGapless(logs: Logs, n: NodeId)
    requires Core(logs) && n in logs
    ensures Gapless(logs[n]) && WellFormed(logs[n])
  {
    forall a ensures Numbered(By(logs[n], a)) {
      if a in logs {
        assert By(logs[n], a) <= By(logs[a], a);
      } else {
        NoneBy(logs[n], a);
      }
    }
    GaplessWellFormed(logs[n]);
  }

  lemma SummaryGrows(logs: Logs, later: Logs, node: NodeId, summary: Summary)
    requires Grows(logs, later) && SummaryOk(logs, node, summary)
    ensures SummaryOk(later, node, summary)
  {
    forall a ensures At(summary, a) <= Extent(later[node], a) {
      ExtentGrows(logs[node], later[node], a);
    }
  }

  lemma BatchGrows(logs: Logs, later: Logs, batch: Batch)
    requires Grows(logs, later) && BatchOk(logs, batch)
    ensures BatchOk(later, batch)
  {
    forall i | 0 <= i < |batch.ops| ensures Genuine(later, batch.ops[i]) && Linked(later[batch.dest], batch.ops, i) {
      var o := batch.ops[i];
      assert Genuine(logs, o) && Linked(logs[batch.dest], batch.ops, i);
      ExtentGrows(logs[batch.dest], later[batch.dest], o.author);
      assert logs[o.author] <= later[o.author];
    }
  }

  /** What is in flight stays good while stores grow. */
  lemma InFlightGrows(s: System, later: Logs)
    requires Inv(s) && Grows(s.logs, later) && Core(later)
    ensures Inv(s.(logs := later))
  {
    forall x | x in s.summaries ensures SummaryOk(later, x.node, x.summary) {
      SummaryGrows(s.logs, later, x.node, x.summary);
    }
    forall p | p in s.pushes ensures BatchOk(later, p.batch) {
      BatchGrows(s.logs, later, p.batch);
    }
    forall m | m in s.messages ensures SummaryOk(later, m.from, m.summary) && BatchOk(later, m.batch) {
      SummaryGrows(s.logs, later, m.from, m.summary);
      BatchGrows(s.logs, later, m.batch);
    }
    forall b | b in s.inbox ensures BatchOk(later, b) {
      BatchGrows(s.logs, later, b);
    }
  }

  /** A sender's own history determines what any store may hold at a sequence number. */
  lemma GenuinePosition(logs: Logs, n: NodeId, o: Operation)
    requires Core(logs) && n in logs && Genuine(logs, o)
    ensures o in logs[n] <==> o.seqNo <= Extent(logs[n], o.author)
    ensures 0 < o.seqNo <= |By(logs[o.author], o.author)| && By(logs[o.author], o.author)[o.seqNo - 1] == o
    ensures Extent(logs[n], o.author) == |By(logs[n], o.author)|
  {
    CoreGapless(logs, n);
    assert By(logs[n], o.author) <= By(logs[o.author], o.author);
    assert Numbered(By(logs[n], o.author)) && Numbered(By(logs[o.author], o.author));
    NumberedExtent(logs[n], o.author);
    NumberedPosition(logs[n], o);
    NumberedPosition(logs[o.author], o);
  }

  lemma HeldIsGenuine(logs: Logs, n: NodeId, o: Operation)
    requires Core(logs) && n in logs && o in logs[n]
    ensures Genuine(logs, o)
  {
    hide Sound, Numbered, By;
    ByElements(logs[n], o.author);
    ByElements(logs[o.author], o.author);
    var history := By(logs[n], o.author);
    var i :| 0 <= i < |history| && history[i] == o;
    assert history <= By(logs[o.author], o.author);
    assert By(logs[o.author], o.author)[i] == o;
  }

  /** What `MissingFor` answers can be added without leaving a hole, at any later time and
      however it is truncated, as long as the summary was once the destination's own. */
  lemma MissingBatchOk(logs: Logs, holder: NodeId, dest: NodeId, summary: Summary, limit: int)
    requires Core(logs) && holder in logs && SummaryOk(logs, dest, summary)
    ensures BatchOk(logs, Batch(dest, Missing(logs[holder], summary, limit)))
  {
    hide Core, Genuine, Linked, Missing;
    var ops := Missing(logs[holder], summary, limit);
    CoreGapless(logs, holder);
    DeltaLinked(logs[holder], logs[dest], summary, limit);
    MissingIsDifference(logs[holder], summary);
    MissingPrefix(logs[holder], summary, limit);
    forall i | 0 <= i < |ops| ensures Genuine(logs, ops[i]) {
      assert ops[i] == Missing(logs[holder], summary, 0)[i];
      HeldIsGenuine(logs, holder, ops[i]);
    }
  }

  /** Adding the next operation of a good batch: it is already held or exactly the next one
      of its author, so it is never refused. */
  lemma NextIsHeldOrNext(logs: Logs, batch: Batch)
    requires Core(logs) && BatchOk(logs, batch) && batch.ops != []
    ensures var log, o := logs[batch.dest], batch.ops[0];
      && (OutcomeOf(log, o) == Duplicate || OutcomeOf(log, o) == Added)
      && (OutcomeOf(log, o) == Duplicate ==> o in log)
      && (OutcomeOf(log, o) == Added ==> o.seqNo == Extent(log, o.author) + 1)
  {
    hide Valid, Verify;
    var log, o := logs[batch.dest], batch.ops[0];
    assert Genuine(logs, o) && Linked(log, batch.ops, 0);
    GenuinePosition(logs, batch.dest, o);
    CoreGapless(logs, batch.dest);
    AddOutcome(log, o);
    ExtentIsMax(log, o.author);
    assert Valid(o) by { assert o in logs[o.author] && Sound(logs[o.author]); }
  }

  /** A store that appends the next operation of an author keeps the invariant. */
  lemma AppendKeepsCore(logs: Logs, n: NodeId, o: Operation)
    requires Core(logs) && n in logs && o.author in logs && Valid(o)
    requires o.seqNo == Extent(logs[n], o.author) + 1
    requires n == o.author || Genuine(logs, o)
    ensures Core(logs[n := logs[n] + [o]]) && Grows(logs, logs[n := logs[n] + [o]])
  {
    hide Numbered, Valid, Prefixes, Extent, By;
    var later := logs[n := logs[n] + [o]];
    AppendKeepsPrefixes(logs, n, o);
    forall b | b in later ensures Numbered(By(later[b], b)) {
      AppendKeepsNumbered(logs, n, o, b);
    }
    assert forall p :: p in later[n] ==> p == o || p in logs[n];
  }

  lemma AppendKeepsNumbered(logs: Logs, n: NodeId, o: Operation, b: NodeId)
    requires Core(logs) && n in logs && b in logs && o.author in logs
    requires o.seqNo == Extent(logs[n], o.author) + 1
    ensures var later := logs[n := logs[n] + [o]]; Numbered(By(later[b], b))
  {
    hide Valid, Extent;
    assert Numbered(By(logs[b], b));
    if b == n {
      ByAppend(logs[n], o, n);
      NumberedExtent(logs[n], n);
    }
  }

  lemma AppendKeepsPrefixes(logs: Logs, n: NodeId, o: Operation)
    requires Core(logs) && n in logs && o.author in logs
    requires o.seqNo == Extent(logs[n], o.author) + 1
    requires n == o.author || Genuine(logs, o)
    ensures Prefixes(logs[n := logs[n] + [o]])
  {
    hide Valid, Extent, Genuine, Numbered, By, Sound;
    var later := logs[n := logs[n] + [o]];
    if n != o.author {
      GenuinePosition(logs, n, o);
    }
    forall m, b | m in later && b in later ensures By(later[m], b) <= By(later[b], b) {
      assert By(logs[m], b) <= By(logs[b], b);
      if b == o.author {
        ByAppend(logs[n], o, b);
      } else {
        ByAppend(logs[n], o, b);
        assert By(later[n], b) == By(logs[n], b);
      }
    }
  }

  lemma AddKeepsInv(s: System, batch: Batch)
    requires Inv(s) && Enabled(s, Add(batch))
    ensures Inv(Do(s, Add(batch)))
  {
    hide Core, Grows, BatchOk, SummaryOk, Extent;
    var log, o, next := s.logs[batch.dest], batch.ops[0], Do(s, Add(batch));
    assert BatchOk(s.logs, batch);
    NextIsHeldOrNext(s.logs, batch);
    AddLeavesLinked(s.logs, batch);
    InFlightGrows(s, next.logs);
  }

  lemma AddLeavesLinked(logs: Logs, batch: Batch)
    requires Core(logs) && BatchOk(logs, batch) && batch.ops != []
    ensures var later := logs[batch.dest := AddTo(logs[batch.dest], batch.ops[0])];
      Core(later) && Grows(logs, later) && BatchOk(later, Batch(batch.dest, batch.ops[1..]))
  {
    hide Core, Valid;
    var log, o, rest := logs[batch.dest], batch.ops[0], batch.ops[1..];
    var after, later := AddTo(log, o), logs[batch.dest := AddTo(log, o)];
    NextIsHeldOrNext(logs, batch);
    assert Genuine(logs, o);
    if OutcomeOf(log, o) == Added {
      GenuineIsValid(logs, o);
      AppendKeepsCore(logs, batch.dest, o);
    } else {
      assert later == logs;
    }
    BatchGrows(logs, later, batch);
    AddedWithinExtent(log, o);
    forall i | 0 <= i < |rest| ensures Genuine(later, rest[i]) && Linked(later[batch.dest], rest, i) {
      assert rest[i] == batch.ops[i + 1] && Linked(after, batch.ops, i + 1);
      assert i > 0 ==> rest[i - 1] == batch.ops[i];
    }
  }

  lemma GenuineIsValid(logs: Logs, o: Operation)
    requires Core(logs) && Genuine(logs, o)
    ensures Valid(o)
  {
    assert Sound(logs[o.author]);
  }

  lemma AddedWithinExtent(log: Ops, o: Operation)
    requires OutcomeOf(log, o) == Added || o in log
    ensures o.seqNo <= Extent(AddTo(log, o), o.author)
  {
    ExtentIsMax(AddTo(log, o), o.author);
  }

  lemma ActKeepsInv(s: System, step: Step)
    requires Inv(s) && step.Act? && Enabled(s, step)
    ensures Inv(Do(s, step)) && Grows(s.logs, Do(s, step).logs)
  {
    hide Core, BatchOk, SummaryOk, Issue, WellFormed, Extent, Valid;
    var log, next := s.logs[step.node], Do(s, step);
    if IssuedOp(log[..step.seen], log, step.node, step.file, step.action, step.now).Ok? {
      var payload := Issue(log[..step.seen], step.node, step.file, step.action, step.now).value;
      NodeNamed(s.logs, step.node);
      CoreGapless(s.logs, step.node);
      LocalOpSpec(log, step.node, step.now, payload);
      AppendKeepsCore(s.logs, step.node, LocalOp(log, step.node, step.now, payload).value);
      InFlightGrows(s, next.logs);
    }
  }

  lemma NodeNamed(logs: Logs, n: NodeId)
    requires Core(logs) && n in logs
    ensures TrimSpace(n) != ""
  {
  }

  lemma ReopensWithItsLog(logs: Logs, node: NodeId)
    requires Core(logs) && node in logs
    ensures Load(Entries(logs[node])) == Ok(logs[node])
  {
    hide Core;
    CoreGapless(logs, node);
    ReplayWritten(logs[node]);
  }

  lemma CrashKeepsInv(s: System, node: NodeId)
    requires Enabled(s, Crash(node)) && Inv(s)
    ensures Inv(Do(s, Crash(node)))
    ensures Grows(s.logs, Do(s, Crash(node)).logs)
  {
    hide Core, BatchOk, SummaryOk, Load;
    ReopensWithItsLog(s.logs, node);
    assert s.logs[node := s.logs[node]] == s.logs;
  }

  lemma SummaryIsOk(logs: Logs, node: NodeId)
    requires node in logs
    ensures SummaryOk(logs, node, SummaryOf(logs[node]))
  {
    forall a ensures At(SummaryOf(logs[node]), a) <= Extent(logs[node], a) {
      AtSummary(logs[node], a);
    }
  }

  /** Every step keeps the invariant and no store ever loses an operation. */
  lemma StepKeepsInv(s: System, step: Step)
    requires Inv(s) && Enabled(s, step)
    ensures Inv(Do(s, step)) && Grows(s.logs, Do(s, step).logs)
  {
    hide Core, SummaryOk, AddTo, Missing, Reload;
    match step
    case Act(_, _, _, _, _) =>
      ActKeepsInv(s, step);
    case Summarise(node) =>
      SummaryIsOk(s.logs, node);
    case Send(client, summary, batch, limit) =>
      assert SummaryOk(s.logs, client, summary) by { assert Snapshot(client, summary) in s.summaries; }
    case Respond(request, summary, configured) =>
      var server := request.batch.dest;
      assert SummaryOk(s.logs, server, summary) by { assert Snapshot(server, summary) in s.summaries; }
      MissingBatchOk(s.logs, server, request.from, request.summary, Session.PullLimit(request.limit, configured));
    case Prepare(response, limit) =>
      MissingBatchOk(s.logs, response.batch.dest, response.from, response.summary, Session.ClientLimit(limit));
    case Receive(message) =>
    case Add(batch) =>
      AddKeepsInv(s, batch);
      AddLeavesLinked(s.logs, batch);
    case Crash(node) =>
      CrashKeepsInv(s, node);
  }

  lemma GrowsTransitive(x: Logs, y: Logs, z: Logs)
    requires Grows(x, y) && Grows(y, z)
    ensures Grows(x, z)
  {
  }

  lemma {:induction false} RunKeepsInv(s: System, steps: seq<Step>)
    requires Inv(s)
    ensures Inv(After(s, steps)) && Grows(s.logs, After(s, steps).logs)
  {
    hide Inv, Grows, Do, Enabled;
    if steps == [] {
      assert Grows(s.logs, s.logs) by { GrowsReflexive(s.logs); }
    } else {
      var front, last := steps[..|steps| - 1], steps[|steps| - 1];
      var before := After(s, front);
      RunKeepsInv(s, front);
      if Enabled(before, last) {
        StepKeepsInv(before, last);
        GrowsTransitive(s.logs, before.logs, After(s, steps).logs);
      }
    }
  }

  lemma GrowsReflexive(x: Logs)
    ensures Grows(x, x)
  {
  }

  lemma InitInv(nodes: set<NodeId>)
    requires forall n :: n in nodes ==> TrimSpace(n) != ""
    ensures Inv(Init(nodes)) && Init(nodes).logs.Keys == nodes
  {
  }

  // ------------------------------------------------------------------ run-level results

  /** In every run, at every store: each author's operations are exactly sequences
      1, 2, ..., up to the store's extent, inserted in that order, although nothing checks
      it on receipt; and the store's log is well formed. */
  lemma Contiguity(nodes: set<NodeId>, steps: seq<Step>, n: NodeId, a: NodeId)
    requires (forall m :: m in nodes ==> TrimSpace(m) != "") && n in nodes
    ensures var logs := After(Init(nodes), steps).logs;
      && n in logs && WellFormed(logs[n])
      && |By(logs[n], a)| == Extent(logs[n], a)
      && forall i :: 0 <= i < |By(logs[n], a)| ==> By(logs[n], a)[i].author == a && By(logs[n], a)[i].seqNo == i + 1
  {
    hide Core, After, WellFormed, Extent;
    InitInv(nodes);
    RunKeepsInv(Init(nodes), steps);
    var logs := After(Init(nodes), steps).logs;
    CoreGapless(logs, n);
    assert Numbered(By(logs[n], a));
    NumberedExtent(logs[n], a);
    ByElements(logs[n], a);
  }

  /** In every run, every store's operations by an author are a prefix of the author's own
      log, so no two stores ever hold different operations at one author and sequence. */
  lemma {:induction false} PrefixAgreement(nodes: set<NodeId>, steps: seq<Step>)
    requires forall m :: m in nodes ==> TrimSpace(m) != ""
    ensures var logs := After(Init(nodes), steps).logs;
      && logs.Keys == nodes
      && (forall n, a :: n in nodes && a in nodes ==> By(logs[n], a) <= By(logs[a], a))
      && (forall m, n, o, p :: m in nodes && n in nodes && o in logs[m] && p in logs[n] && SameKey(o, p) ==> o == p)
  {
    hide After, Valid, Sound, Numbered, By;
    InitInv(nodes);
    RunKeepsInv(Init(nodes), steps);
    var logs := After(Init(nodes), steps).logs;
    forall m, n, o, p | m in nodes && n in nodes && o in logs[m] && p in logs[n] && SameKey(o, p) ensures o == p {
      OneOperationPerKey(logs, m, n, o, p);
    }
  }

  lemma OneOperationPerKey(logs: Logs, m: NodeId, n: NodeId, o: Operation, p: Operation)
    requires Core(logs) && m in logs && n in logs && o in logs[m] && p in logs[n] && SameKey(o, p)
    ensures o == p
  {
    hide Core;
    HeldIsGenuine(logs, m, o);
    HeldIsGenuine(logs, n, p);
    GenuinePosition(logs, m, o);
    GenuinePosition(logs, n, p);
  }

  /** In every run, no operation a peer sent is ever refused, so the rejected and dropped
      counts of a session stay 0, and a store always reopens with the log it had. */
  lemma NothingRefused(nodes: set<NodeId>, steps: seq<Step>)
    requires forall m :: m in nodes ==> TrimSpace(m) != ""
    ensures var s := After(Init(nodes), steps);
      && (forall b :: b in s.inbox && b.ops != [] ==>
            b.dest in s.logs && OutcomeOf(s.logs[b.dest], b.ops[0]) in {Duplicate, Outcome.Added})
      && (forall n :: n in s.logs ==> Load(Entries(s.logs[n])) == Ok(s.logs[n]))
  {
    hide After, Core, OutcomeOf;
    InitInv(nodes);
    RunKeepsInv(Init(nodes), steps);
    var s := After(Init(nodes), steps);
    forall b | b in s.inbox && b.ops != []
      ensures b.dest in s.logs && OutcomeOf(s.logs[b.dest], b.ops[0]) in {Duplicate, Outcome.Added}
    {
      NextIsHeldOrNext(s.logs, b);
    }
    forall n | n in s.logs ensures Load(Entries(s.logs[n])) == Ok(s.logs[n]) {
      ReopensWithItsLog(s.logs, n);
    }
  }
}
