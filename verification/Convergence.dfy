/** What a whole `SyncPeer` session achieves between two quiescent stores. */
module Convergence {
  import opened Delta
  import opened Log
  import opened Merge
  import Network
  import opened Operations
  import opened Replica
  import opened Session
  import opened Sorting
  import opened Strings

  /** `SyncPeer` with its defaults applied: the final state of both stores and the counts. */
  function Sync(client: Ops, server: Ops, limit: int, configured: int, maxRounds: int, net: nat -> Delivery): State {
    var push := ClientLimit(limit);
    Run(Start(client, server), push, PullLimit(push, configured), net, ClientRounds(maxRounds))
  }

  lemma MulMonotone(x: int, y: int, f: int)
    requires x <= y && f >= 0
    ensures x * f <= y * f
  {
  }

  lemma DropAll<T>(s: seq<T>, n: int)
    ensures Drop(s, n) == [] <==> |s| <= n || s == []
    ensures |Take(s, n)| + |Drop(s, n)| == |s|
  {
  }

  /** The exact bound. A fault-free session closes both differences if and only if its
      rounds times the pull batch cover what the client lacks and one round fewer times the
      push batch covers what the server lacks; the push side lags one round behind. */
  lemma ConvergenceBound(c0: Ops, s0: Ops, limit: int, configured: int, maxRounds: int, net: nat -> Delivery)
    requires WellFormed(c0) && WellFormed(s0) && Reliable(net)
    ensures var push, rounds := ClientLimit(limit), ClientRounds(maxRounds);
      var pull, end := PullLimit(push, configured), Sync(c0, s0, limit, configured, maxRounds, net);
      var down, up := |Gap(s0, c0)|, |Gap(c0, s0)|;
      && (Gap(end.server, end.client) == [] && Gap(end.client, end.server) == []
          <==> down <= rounds * pull && up <= (rounds - 1) * push)
      && (end.status == Settled ==> Gap(end.server, end.client) == [] && Gap(end.client, end.server) == [])
      && (down <= (rounds - 1) * pull && up <= (rounds - 1) * push ==> end.status == Settled)
      && end.stats.pulled == down - |Gap(end.server, end.client)|
      && end.stats.sent == end.stats.accepted == up - |Gap(end.client, end.server)|
      && end.stats.rejected == end.stats.dropped == 0
  {
    hide WellFormed, Gap, Run;
    var push, rounds := ClientLimit(limit), ClientRounds(maxRounds);
    var pull, end := PullLimit(push, configured), Sync(c0, s0, limit, configured, maxRounds, net);
    var down, up, k := Gap(s0, c0), Gap(c0, s0), end.stats.rounds;
    SessionProgress(c0, s0, push, pull, net, rounds);
    StillMissing(s0, c0, k * pull, (k - 1) * push);
    StillMissing(c0, s0, (k - 1) * push, k * pull);
    DropAll(down, k * pull);
    DropAll(up, (k - 1) * push);
    MulMonotone(k, rounds, pull);
    MulMonotone(k - 1, rounds - 1, push);
    MulMonotone(k - 1, k, pull);
    MulMonotone(0, rounds, pull);
    MulMonotone(0, rounds - 1, push);
  }

  /** The termination measure: what is still missing on either side, then whether a push
      is staged. */
  function Remaining(s: State): nat {
    |Gap(s.server, s.client)| + |Gap(s.client, s.server)|
  }

  lemma RemainingIs(c0: Ops, s0: Ops, limit: int, pull: int, passes: nat, s: State)
    requires WellFormed(c0) && WellFormed(s0) && limit > 0 && pull > 0
    requires Progress(c0, s0, limit, pull, passes, s)
    ensures var k, down, up := s.stats.rounds, |Gap(s0, c0)|, |Gap(c0, s0)|;
      && Remaining(s) == (if down <= k * pull then 0 else down - k * pull)
                         + (if k == 0 then up else if up <= (k - 1) * limit then 0 else up - (k - 1) * limit)
      && (s.toSend == [] <==> k == 0 || up <= (k - 1) * limit)
  {
    hide WellFormed, Gap;
    var k := s.stats.rounds;
    StillMissing(s0, c0, k * pull, (k - 1) * limit);
    StillMissing(c0, s0, (k - 1) * limit, k * pull);
    MulMonotone(0, k, pull);
    if k > 0 {
      MulMonotone(0, k - 1, limit);
    }
  }

  /** Every round that does not stop the loop strictly decreases the measure. */
  lemma RoundDecreases(c0: Ops, s0: Ops, limit: int, pull: int, passes: nat, s: State)
    requires WellFormed(c0) && WellFormed(s0) && limit > 0 && pull > 0
    requires Progress(c0, s0, limit, pull, passes, s) && s.status == Running
    ensures var next := Round(s, limit, pull, Delivered);
      next.status == Running ==>
        Remaining(next) < Remaining(s) || (Remaining(next) == Remaining(s) && s.toSend == [] && next.toSend != [])
  {
    hide WellFormed, Gap, Round, Remaining, Moved;
    var next, k := Round(s, limit, pull, Delivered), s.stats.rounds;
    ProgressStep(c0, s0, limit, pull, passes, s);
    RemainingIs(c0, s0, limit, pull, passes, s);
    RemainingIs(c0, s0, limit, pull, passes + 1, next);
    assert next.stats.rounds == k + 1 by { RoundCounts(s, limit, pull); }
    assert (k + 1) * pull == k * pull + pull && (k - 1) * limit + limit == k * limit;
    MulMonotone(0, k, pull);
    MulMonotone(0, k, limit);
  }

  lemma RoundCounts(s: State, limit: int, pull: int)
    ensures Round(s, limit, pull, Delivered).stats.rounds == s.stats.rounds + 1
  {
  }

  /** An operation the other store lacks although its extent says it is past it. */
  ghost predicate HiddenGap(from: Ops, to: Ops) {
    exists o :: o in from && o !in to && o.seqNo <= Extent(to, o.author)
  }

  /** An operation within a store's extent that the store does not hold. */
  ghost predicate Hole(log: Ops, o: Operation) {
    o !in log && o.seqNo <= Extent(log, o.author)
  }

  lemma MissingIsNewer(log: Ops, summary: Summary, limit: int)
    ensures forall o :: o in Missing(log, summary, limit) ==> o in log && o.seqNo > At(summary, o.author)
  {
    hide At;
    NewerElements(SortedOps(log), summary);
    SortElements(KeyLess, log);
    MissingPrefix(log, summary, limit);
    forall o | o in Missing(log, summary, limit) ensures o in Newer(SortedOps(log), summary) {
      var i :| 0 <= i < |Missing(log, summary, limit)| && Missing(log, summary, limit)[i] == o;
      assert Newer(SortedOps(log), summary)[i] == o;
    }
  }

  lemma {:induction false} AddAllElements(log: Ops, ops: Ops)
    ensures log <= AddAll(log, ops) && forall o :: o in AddAll(log, ops) ==> o in log || o in ops
  {
    hide OutcomeOf;
    if ops != [] {
      AddAllElements(log, ops[..|ops| - 1]);
      assert ops == ops[..|ops| - 1] + [ops[|ops| - 1]];
    }
  }

  /** Adding what some summary of the store left out keeps its holes. */
  lemma AddKeepsHole(log: Ops, ops: Ops, o: Operation)
    requires Hole(log, o) && o !in ops
    ensures Hole(AddAll(log, ops), o)
  {
    hide Extent, AddAll;
    AddAllElements(log, ops);
    ExtentGrows(log, AddAll(log, ops), o.author);
  }

  lemma RoundKeepsHoles(s: State, limit: int, pull: int, delivery: Delivery, o: Operation)
    ensures Hole(s.client, o) ==> Hole(Round(s, limit, pull, delivery).client, o)
    ensures var next := Round(s, limit, pull, delivery);
      Hole(s.server, o) && o !in s.toSend ==>
        Hole(next.server, o) && (next.status != Failed ==> o !in next.toSend)
  {
    hide Hole, Missing, AddAll, SummaryOf, AddedCount, RefusedCount;
    var server := AddAll(s.server, s.toSend);
    var ops := Missing(server, SummaryOf(s.client), pull);
    if Hole(s.client, o) {
      HoleNotSent(server, s.client, pull, o);
      AddKeepsHole(s.client, ops, o);
    }
    if Hole(s.server, o) && o !in s.toSend {
      AddKeepsHole(s.server, s.toSend, o);
      HoleNotSent(AddAll(s.client, ops), server, limit, o);
    }
  }

  lemma HoleNotSent(from: Ops, to: Ops, limit: int, o: Operation)
    requires Hole(to, o)
    ensures o !in Missing(from, SummaryOf(to), limit)
  {
    hide Missing, Extent, SummaryOf;
    MissingIsNewer(from, SummaryOf(to), limit);
    AtSummary(to, o.author);
  }

  lemma {:induction false} RunKeepsHoles(start: State, limit: int, pull: int, net: nat -> Delivery, rounds: nat,
                                         o: Operation)
    requires start.status == Running && start.toSend == []
    ensures var s := Run(start, limit, pull, net, rounds);
      && (Hole(start.client, o) ==> Hole(s.client, o))
      && (Hole(start.server, o) ==> Hole(s.server, o) && (s.status != Failed ==> o !in s.toSend))
  {
    hide Hole, Round;
    if rounds > 0 {
      RunKeepsHoles(start, limit, pull, net, rounds - 1, o);
      RoundKeepsHoles(Run(start, limit, pull, net, rounds - 1), limit, pull, net(rounds - 1), o);
    }
  }

  /** A hole is never healed, on either side: whatever the transport does and however many
      rounds there are, an operation within a store's extent that it does not hold does not
      reach it. */
  lemma HiddenGapNeverHeals(c0: Ops, s0: Ops, limit: int, configured: int, maxRounds: int, net: nat -> Delivery,
                            o: Operation)
    ensures var end := Sync(c0, s0, limit, configured, maxRounds, net);
      && (o !in c0 && o.seqNo <= Extent(c0, o.author) ==> o !in end.client)
      && (o !in s0 && o.seqNo <= Extent(s0, o.author) ==> o !in end.server)
  {
    hide Run, Extent;
    RunKeepsHoles(Start(c0, s0), ClientLimit(limit), PullLimit(ClientLimit(limit), configured), net, ClientRounds(maxRounds), o);
  }

  /** After a session that stopped by itself the two stores hold the same operations
      exactly when neither started with a hidden gap towards the other. */
  lemma SettledIffNoHiddenGap(c0: Ops, s0: Ops, limit: int, configured: int, maxRounds: int, net: nat -> Delivery)
    requires WellFormed(c0) && WellFormed(s0) && Reliable(net)
    requires Sync(c0, s0, limit, configured, maxRounds, net).status == Settled
    ensures var end := Sync(c0, s0, limit, configured, maxRounds, net);
      SameElements(end.client, end.server) <==> !HiddenGap(s0, c0) && !HiddenGap(c0, s0)
  {
    hide WellFormed, Gap, Run, Extent;
    var push := ClientLimit(limit);
    var pull, end := PullLimit(push, configured), Sync(c0, s0, limit, configured, maxRounds, net);
    SessionProgress(c0, s0, push, pull, net, ClientRounds(maxRounds));
    var k := end.stats.rounds;
    MulMonotone(k - 1, k, pull);
    assert end.client == c0 + Gap(s0, c0) && end.server == s0 + Gap(c0, s0);
    UnionOfGaps(c0, s0);
    UnionOfGaps(s0, c0);
  }

  /** What closing one difference adds. */
  lemma UnionOfGaps(to: Ops, from: Ops)
    requires WellFormed(from)
    ensures (forall o :: o in from ==> o in to + Gap(from, to)) <==> !HiddenGap(from, to)
    ensures forall o :: o in to + Gap(from, to) ==> o in to || o in from
  {
    hide Gap, Extent, WellFormed;
    GapElements(from, to);
    if o :| o in from && o !in to && o.seqNo <= Extent(to, o.author) {
      assert o !in to + Gap(from, to);
    }
  }

  /** Stores that hold prefixes of common histories have no hidden gaps, so a session that
      closes both differences leaves them holding the same operations. */
  lemma AgreeingStoresConverge(c0: Ops, s0: Ops, limit: int, configured: int, maxRounds: int, net: nat -> Delivery)
    requires Sound(c0) && Sound(s0) && Gapless(c0) && Gapless(s0) && Agree(c0, s0) && Reliable(net)
    ensures var push, rounds := ClientLimit(limit), ClientRounds(maxRounds);
      var end := Sync(c0, s0, limit, configured, maxRounds, net);
      SameElements(end.client, end.server)
      <==> |Gap(s0, c0)| <= rounds * PullLimit(push, configured) && |Gap(c0, s0)| <= (rounds - 1) * push
  {
    hide WellFormed, Gap, Run, Extent, Gapless, Agree;
    var push, rounds := ClientLimit(limit), ClientRounds(maxRounds);
    var pull, end := PullLimit(push, configured), Sync(c0, s0, limit, configured, maxRounds, net);
    GaplessWellFormed(c0);
    GaplessWellFormed(s0);
    ConvergenceBound(c0, s0, limit, configured, maxRounds, net);
    SessionProgress(c0, s0, push, pull, net, rounds);
    var down, up, k := Gap(s0, c0), Gap(c0, s0), end.stats.rounds;
    StillMissing(s0, c0, k * pull, (k - 1) * push);
    StillMissing(c0, s0, (k - 1) * push, k * pull);
    AgreeSymmetric(c0, s0);
    PartialUnion(c0, s0, k * pull);
    PartialUnion(s0, c0, (k - 1) * push);
  }

  lemma AgreeSymmetric(x: Ops, y: Ops)
    requires Agree(x, y)
    ensures Agree(y, x)
  {
  }

  /** Taking part of the difference from an agreeing store leaves out exactly the rest. */
  lemma PartialUnion(to: Ops, from: Ops, n: int)
    requires WellFormed(from) && Gapless(from) && Gapless(to) && Agree(from, to)
    ensures forall o :: o in to + Take(Gap(from, to), n) ==> o in to || o in from
    ensures (forall o :: o in from ==> o in to + Take(Gap(from, to), n)) <==> Drop(Gap(from, to), n) == []
  {
    hide WellFormed, Gapless, Agree, Gap, Extent, KeyLess;
    var gap := Gap(from, to);
    GapElements(from, to);
    forall o | o in from && o !in to ensures o in gap {
      if o.seqNo <= Extent(to, o.author) {
        WithinExtentIsHeld(from, to, o);
      }
    }
    OrderedKeysDistinct(gap);
    assert gap == Take(gap, n) + Drop(gap, n);
    if Drop(gap, n) != [] {
      var o := Drop(gap, n)[0];
      assert o == gap[|Take(gap, n)|];
      assert o in gap && o !in Take(gap, n);
      ExtentIsMax(to, o.author);
      assert o in from && o !in to;
    }
  }

  /** Any two stores of a running system hold prefixes of common histories. */
  lemma ReachableStoresAgree(logs: Network.Logs, m: NodeId, n: NodeId)
    requires Network.Core(logs) && m in logs && n in logs
    ensures Sound(logs[m]) && Gapless(logs[m]) && Agree(logs[m], logs[n])
  {
    hide Numbered, Valid;
    Network.CoreGapless(logs, m);
    forall a ensures By(logs[m], a) <= By(logs[n], a) || By(logs[n], a) <= By(logs[m], a) {
      if a in logs {
        assert By(logs[m], a) <= By(logs[a], a) && By(logs[n], a) <= By(logs[a], a);
      } else {
        NoneBy(logs[m], a);
      }
    }
  }

  /** In every state of every run, a fault-free session between any two stores makes them
      equal exactly when it is given enough rounds. */
  lemma {:induction false} ReachableStoresConverge(nodes: set<NodeId>, steps: seq<Network.Step>, m: NodeId, n: NodeId,
                                limit: int, configured: int, maxRounds: int, net: nat -> Delivery)
    requires (forall x :: x in nodes ==> TrimSpace(x) != "") && m in nodes && n in nodes && Reliable(net)
    ensures var logs := Network.After(Network.Init(nodes), steps).logs;
      && m in logs && n in logs
      && var push, rounds := ClientLimit(limit), ClientRounds(maxRounds);
      var end := Sync(logs[m], logs[n], limit, configured, maxRounds, net);
      SameElements(end.client, end.server)
      <==> |Gap(logs[n], logs[m])| <= rounds * PullLimit(push, configured) && |Gap(logs[m], logs[n])| <= (rounds - 1) * push
  {
    hide Network.Core, Network.After, Sync, Gap, SameElements, Sound, Gapless, Agree;
    Network.InitInv(nodes);
    Network.RunKeepsInv(Network.Init(nodes), steps);
    var logs := Network.After(Network.Init(nodes), steps).logs;
    ReachableStoresAgree(logs, m, n);
    ReachableStoresAgree(logs, n, m);
    AgreeingStoresConverge(logs[m], logs[n], limit, configured, maxRounds, net);
  }
}
