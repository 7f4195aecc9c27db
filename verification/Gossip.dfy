/** Many stores and many sessions: what every store holds after any schedule of sessions that
    are long enough, and when all of them hold everything. */
module Gossip {
  import opened Convergence
  import opened Delta
  import opened Log
  import opened Network
  import opened Operations
  import opened Session
  import opened SessionRuns
  import opened Strings

  datatype Meeting = Meeting(client: NodeId, server: NodeId, limit: int, configured: int, maxRounds: int, net: nat -> Delivery)

  function Meet(logs: Logs, m: Meeting): Logs
    requires m.client in logs && m.server in logs
  {
    var end := Sync(logs[m.client], logs[m.server], m.limit, m.configured, m.maxRounds, m.net);
    logs[m.client := end.client][m.server := end.server]
  }

  /** The logs after a schedule; a meeting of unknown nodes changes nothing. */
  function Meetings(logs: Logs, schedule: seq<Meeting>): Logs {
    if schedule == [] then logs
    else
      var before, last := Meetings(logs, schedule[..|schedule| - 1]), schedule[|schedule| - 1];
      if last.client in before && last.server in before then Meet(before, last) else before
  }

  /** Two different nodes, nothing lost, and rounds enough for what each lacks. */
  ghost predicate LongEnough(logs: Logs, m: Meeting) {
    && m.client in logs && m.server in logs && m.client != m.server && Reliable(m.net)
    && var push, rounds := ClientLimit(m.limit), ClientRounds(m.maxRounds);
       && |Gap(logs[m.server], logs[m.client])| <= rounds * PullLimit(push, m.configured)
       && |Gap(logs[m.client], logs[m.server])| <= (rounds - 1) * push
  }

  ghost predicate AllLongEnough(logs: Logs, schedule: seq<Meeting>) {
    forall i :: 0 <= i < |schedule| ==> LongEnough(Meetings(logs, schedule[..i]), schedule[i])
  }

  /** The nodes whose operations have had a way to reach `n`, in the order of the schedule. */
  function Heard(schedule: seq<Meeting>, n: NodeId): set<NodeId> {
    if schedule == [] then {n}
    else
      var front, last := schedule[..|schedule| - 1], schedule[|schedule| - 1];
      if n == last.client || n == last.server then Heard(front, last.client) + Heard(front, last.server)
        else Heard(front, n)
  }

  // ------------------------------------------------------------- one session's elements

  lemma RoundElements(s: State, limit: int, pull: int, delivery: Delivery)
    requires forall o :: o in s.toSend ==> o in s.client
    ensures var next := Round(s, limit, pull, delivery);
      && s.client <= next.client && s.server <= next.server
      && (forall o :: o in next.client || o in next.server ==> o in s.client || o in s.server)
      && (forall o :: o in next.toSend ==> o in next.client)
  {
    hide AddAll, Missing, SummaryOf, AddedCount, RefusedCount;
    var server := AddAll(s.server, s.toSend);
    var ops := Missing(server, SummaryOf(s.client), pull);
    AddAllElements(s.server, s.toSend);
    MissingIsNewer(server, SummaryOf(s.client), pull);
    AddAllElements(s.client, ops);
    MissingIsNewer(AddAll(s.client, ops), SummaryOf(server), limit);
  }

  lemma {:induction false} RunElements(start: State, limit: int, pull: int, net: nat -> Delivery, rounds: nat)
    requires start.toSend == []
    ensures var end := Run(start, limit, pull, net, rounds);
      && start.client <= end.client && start.server <= end.server
      && (forall o :: o in end.client || o in end.server ==> o in start.client || o in start.server)
      && (forall o :: o in end.toSend ==> o in end.client)
  {
    hide Round;
    if rounds > 0 {
      RunElements(start, limit, pull, net, rounds - 1);
      RoundElements(Run(start, limit, pull, net, rounds - 1), limit, pull, net(rounds - 1));
    }
  }

  /** A session that is long enough leaves both stores with what either held. */
  lemma MeetingUnites(nodes: set<NodeId>, steps: seq<Step>, m: Meeting)
    requires (forall x :: x in nodes ==> TrimSpace(x) != "") && m.client in nodes && m.server in nodes
    requires LongEnough(After(Init(nodes), steps).logs, m)
    ensures var logs := After(Init(nodes), steps).logs;
      var end := Sync(logs[m.client], logs[m.server], m.limit, m.configured, m.maxRounds, m.net);
      forall o :: (o in end.client <==> o in logs[m.client] || o in logs[m.server])
        && (o in end.server <==> o in logs[m.client] || o in logs[m.server])
  {
    hide After, Run, Gap;
    var logs := After(Init(nodes), steps).logs;
    ReachableStoresConverge(nodes, steps, m.client, m.server, m.limit, m.configured, m.maxRounds, m.net);
    RunElements(Start(logs[m.client], logs[m.server]), ClientLimit(m.limit), PullLimit(ClientLimit(m.limit), m.configured), m.net,
                ClientRounds(m.maxRounds));
  }

  // ----------------------------------------------------------------- any schedule

  /** The logs after a schedule are again those of a reachable system. */
  lemma {:induction false} MeetingsAreRun(nodes: set<NodeId>, steps: seq<Step>, schedule: seq<Meeting>)
    returns (more: seq<Step>)
    requires (forall x :: x in nodes ==> TrimSpace(x) != "")
    requires forall m :: m in schedule ==> m.client != m.server
    ensures After(Init(nodes), steps + more).logs == Meetings(After(Init(nodes), steps).logs, schedule)
  {
    hide After, Sync;
    more := [];
    if schedule == [] {
      assert steps + [] == steps;
    } else {
      var front, last := schedule[..|schedule| - 1], schedule[|schedule| - 1];
      more := MeetingsAreRun(nodes, steps, front);
      var s := After(Init(nodes), steps + more);
      if last.client in s.logs && last.server in s.logs {
        var session := SyncIsRun(s, last.client, last.server, last.limit, last.configured, last.maxRounds, last.net);
        AfterAppend(Init(nodes), steps + more, session);
        assert steps + more + session == steps + (more + session);
        more := more + session;
      }
    }
  }

  ghost predicate HoldsUnion(logs: Logs, start: Logs, n: NodeId, origins: set<NodeId>) {
    n in logs && forall o :: o in logs[n] <==> exists m :: m in origins && m in start && o in start[m]
  }

  /** From any reachable state, after any schedule of sessions that are long enough, every store
      holds exactly what the nodes it has heard of held at the start. */
  lemma {:induction false} SpreadsExactly(nodes: set<NodeId>, steps: seq<Step>, schedule: seq<Meeting>, n: NodeId)
    requires (forall x :: x in nodes ==> TrimSpace(x) != "") && n in nodes
    requires AllLongEnough(After(Init(nodes), steps).logs, schedule)
    ensures var start := After(Init(nodes), steps).logs;
      HoldsUnion(Meetings(start, schedule), start, n, Heard(schedule, n))
  {
    hide After, Sync, Gap, LongEnough;
    var start := After(Init(nodes), steps).logs;
    StoresAre(nodes, steps);
    if schedule != [] {
      var front, last := schedule[..|schedule| - 1], schedule[|schedule| - 1];
      assert forall i :: 0 <= i <= |front| ==> schedule[..i] == front[..i];
      assert front[..|front|] == front;
      SpreadsExactly(nodes, steps, front, n);
      var before := Meetings(start, front);
      assert LongEnough(before, last);
      NamedAndDifferent(start, schedule);
      var more := MeetingsAreRun(nodes, steps, front);
      StoresAre(nodes, steps + more);
      Different(before, last);
      SpreadsExactly(nodes, steps, front, last.client);
      SpreadsExactly(nodes, steps, front, last.server);
      MeetingUnites(nodes, steps + more, last);
      UnionStep(before, start, front, last, n);
    }
  }

  lemma UnionStep(before: Logs, start: Logs, front: seq<Meeting>, last: Meeting, n: NodeId)
    requires last.client in before && last.server in before && last.client != last.server
    requires HoldsUnion(before, start, n, Heard(front, n))
    requires HoldsUnion(before, start, last.client, Heard(front, last.client))
    requires HoldsUnion(before, start, last.server, Heard(front, last.server))
    requires var end := Sync(before[last.client], before[last.server], last.limit, last.configured, last.maxRounds, last.net);
      forall o :: (o in end.client <==> o in before[last.client] || o in before[last.server])
        && (o in end.server <==> o in before[last.client] || o in before[last.server])
    ensures HoldsUnion(Meet(before, last), start, n,
                       if n == last.client || n == last.server then Heard(front, last.client) + Heard(front, last.server) else Heard(front, n))
  {
    hide Sync, Heard;
  }

  lemma Different(logs: Logs, m: Meeting)
    requires LongEnough(logs, m)
    ensures m.client in logs && m.server in logs && m.client != m.server
  {
  }

  lemma NamedAndDifferent(logs: Logs, schedule: seq<Meeting>)
    requires AllLongEnough(logs, schedule)
    ensures forall m :: m in schedule ==> m.client != m.server
  {
    hide Gap, Meetings;
    forall m | m in schedule ensures m.client != m.server {
      var i :| 0 <= i < |schedule| && schedule[i] == m;
      assert LongEnough(Meetings(logs, schedule[..i]), m);
    }
  }

  lemma StoresAre(nodes: set<NodeId>, steps: seq<Step>)
    requires forall x :: x in nodes ==> TrimSpace(x) != ""
    ensures After(Init(nodes), steps).logs.Keys == nodes
  {
    hide After, Inv, TrimSpace;
    InitInv(nodes);
    RunKeepsInv(Init(nodes), steps);
  }

  // -------------------------------------------------------------- connected networks

  /** Two nodes meet in the schedule, in either role. */
  ghost predicate MeetIn(schedule: seq<Meeting>, a: NodeId, b: NodeId) {
    exists m :: m in schedule && ((m.client == a && m.server == b) || (m.client == b && m.server == a))
  }

  /** `a` is at most `hops` links away from `n`. */
  ghost predicate Near(links: set<(NodeId, NodeId)>, a: NodeId, n: NodeId, hops: nat)
    decreases hops
  {
    if hops == 0 then a == n
    else exists b :: Near(links, a, b, hops - 1) && (b == n || (b, n) in links || (n, b) in links)
  }

  function Flatten(passes: seq<seq<Meeting>>): seq<Meeting> {
    if passes == [] then [] else Flatten(passes[..|passes| - 1]) + passes[|passes| - 1]
  }

  lemma {:induction false} HeardGrows(x: seq<Meeting>, y: seq<Meeting>, n: NodeId)
    ensures Heard(x, n) <= Heard(x + y, n)
  {
    if y == [] {
      assert x + y == x;
    } else {
      var front, last := y[..|y| - 1], y[|y| - 1];
      assert (x + y)[..|x + y| - 1] == x + front;
      HeardGrows(x, front, n);
    }
  }

  /** Who meets a node hears all that the node has heard. */
  lemma {:induction false} HeardThrough(x: seq<Meeting>, y: seq<Meeting>, b: NodeId, n: NodeId)
    requires MeetIn(y, b, n)
    ensures Heard(x, b) <= Heard(x + y, n)
  {
    var front, last := y[..|y| - 1], y[|y| - 1];
    assert (x + y)[..|x + y| - 1] == x + front && y == front + [last];
    if (last.client == b && last.server == n) || (last.client == n && last.server == b) {
      HeardGrows(x, front, b);
    } else {
      HeardThrough(x, front, b, n);
      HeardGrows(x + front, [last], n);
      assert (x + front) + [last] == x + y;
    }
  }

  /** A pass over every link takes what each node has heard one hop further. */
  lemma {:induction false} PassesReach(links: set<(NodeId, NodeId)>, passes: seq<seq<Meeting>>, a: NodeId, n: NodeId)
    requires forall p, l :: p in passes && l in links ==> MeetIn(p, l.0, l.1)
    requires Near(links, a, n, |passes|)
    ensures a in Heard(Flatten(passes), n)
  {
    if passes != [] {
      var front, last := passes[..|passes| - 1], passes[|passes| - 1];
      var b :| Near(links, a, b, |front|) && (b == n || (b, n) in links || (n, b) in links);
      assert last in passes && forall p :: p in front ==> p in passes;
      PassesReach(links, front, a, b);
      HeardGrows(Flatten(front), last, n);
      if b != n {
        assert MeetIn(last, b, n) by { EitherWay(links, last, b, n); }
        HeardThrough(Flatten(front), last, b, n);
      }
    }
  }

  lemma EitherWay(links: set<(NodeId, NodeId)>, pass: seq<Meeting>, b: NodeId, n: NodeId)
    requires (forall l :: l in links ==> MeetIn(pass, l.0, l.1)) && ((b, n) in links || (n, b) in links)
    ensures MeetIn(pass, b, n)
  {
    if (b, n) in links {
      assert MeetIn(pass, (b, n).0, (b, n).1);
    } else {
      assert MeetIn(pass, (n, b).0, (n, b).1);
    }
  }

  /** Anti-entropy reaches everyone. Let the links join every two nodes by at most as many hops
      as there are passes, each pass holding some session over every link. From any reachable
      state, with sessions long enough and in whatever order, all stores end up holding exactly
      the union of what all of them held. */
  lemma EveryoneConverges(nodes: set<NodeId>, steps: seq<Step>, links: set<(NodeId, NodeId)>, passes: seq<seq<Meeting>>)
    requires forall x :: x in nodes ==> TrimSpace(x) != ""
    requires forall p, l :: p in passes && l in links ==> MeetIn(p, l.0, l.1)
    requires forall a, n :: a in nodes && n in nodes ==> Near(links, a, n, |passes|)
    requires AllLongEnough(After(Init(nodes), steps).logs, Flatten(passes))
    ensures var start := After(Init(nodes), steps).logs;
      forall n :: n in nodes ==> HoldsUnion(Meetings(start, Flatten(passes)), start, n, nodes)
  {
    hide After, AllLongEnough, Meetings, TrimSpace;
    StoresAre(nodes, steps);
    forall n | n in nodes
      ensures HoldsUnion(Meetings(After(Init(nodes), steps).logs, Flatten(passes)), After(Init(nodes), steps).logs, n, nodes)
    {
      SpreadsExactly(nodes, steps, Flatten(passes), n);
      forall a | a in nodes ensures a in Heard(Flatten(passes), n) {
        PassesReach(links, passes, a, n);
      }
    }
  }
}
