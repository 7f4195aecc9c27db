/** Sessions whose calls may be lost: when a session fails, when it settles, and what its counts
    say, whatever the transport does. */
module Calls {
  import opened Convergence
  import opened Delta
  import opened Log
  import opened Session

  // ------------------------------------------------------------------------- counts

  /** The store refuses the operation at position `i` of a batch when its turn comes. */
  ghost predicate RefusedAt(log: Ops, ops: Ops, i: int)
    requires 0 <= i < |ops|
  {
    var outcome := OutcomeOf(AddAll(log, ops[..i]), ops[i]);
    outcome != Outcome.Added && outcome != Duplicate
  }

  ghost function Refusals(log: Ops, ops: Ops): set<int> {
    set i | 0 <= i < |ops| && RefusedAt(log, ops, i)
  }

  lemma {:induction false} CountsMean(log: Ops, ops: Ops)
    ensures AddedCount(log, ops) == |AddAll(log, ops)| - |log|
    ensures RefusedCount(log, ops) == |Refusals(log, ops)|
  {
    hide OutcomeOf, RefusedAt;
    if ops != [] {
      var front, last := ops[..|ops| - 1], |ops| - 1;
      CountsMean(log, front);
      forall i | 0 <= i < last ensures RefusedAt(log, front, i) == RefusedAt(log, ops, i) {
        SamePrefix(log, front, ops, i);
      }
      LastRefused(log, ops);
      if RefusedAt(log, ops, last) {
        assert Refusals(log, ops) == Refusals(log, front) + {last};
      } else {
        assert Refusals(log, ops) == Refusals(log, front);
      }
    }
  }

  lemma SamePrefix(log: Ops, front: Ops, ops: Ops, i: int)
    requires front <= ops && 0 <= i < |front|
    ensures RefusedAt(log, front, i) == RefusedAt(log, ops, i)
  {
    hide OutcomeOf;
    assert front[..i] == ops[..i];
  }

  lemma LastRefused(log: Ops, ops: Ops)
    requires ops != []
    ensures RefusedAt(log, ops, |ops| - 1)
      <==> var outcome := OutcomeOf(AddAll(log, ops[..|ops| - 1]), ops[|ops| - 1]); outcome == Conflict || outcome.Invalid?
  {
    hide OutcomeOf;
  }

  // -------------------------------------------------------------------------- one pass

  /** What one pass does, by what happens to its call. A lost call fails the session: the client
      is as it was, and the server has the push if the request got through. A delivered call adds
      each store's growth to the counts; the session settles exactly when the client learned
      nothing new and lacks nothing to push. */
  lemma PassMeans(s: State, limit: int, pull: int, delivery: Delivery)
    ensures var next := Round(s, limit, pull, delivery);
      && next.stats.sent == s.stats.sent + |s.toSend|
      && (delivery == RequestLost ==> next.server == s.server)
      && (delivery != RequestLost ==> next.server == AddAll(s.server, s.toSend))
      && (delivery != Delivered ==>
            && next.status == Status.Failed && next.client == s.client
            && next.stats == s.stats.(sent := s.stats.sent + |s.toSend|))
      && (delivery == Delivered ==>
            && next.client == AddAll(s.client, Missing(next.server, SummaryOf(s.client), pull))
            && next.toSend == Missing(next.client, SummaryOf(next.server), limit)
            && next.stats.rounds == s.stats.rounds + 1
            && next.stats.pulled == s.stats.pulled + |next.client| - |s.client|
            && next.stats.accepted == s.stats.accepted + |next.server| - |s.server|
            && next.stats.rejected == s.stats.rejected + |Refusals(s.server, s.toSend)|
            && next.stats.dropped == s.stats.dropped + |Refusals(s.client, Missing(next.server, SummaryOf(s.client), pull))|
            && next.status == if next.client == s.client && next.toSend == [] then Settled else Running)
  {
    hide AddAll, Missing, SummaryOf, AddedCount, RefusedCount, Refusals;
    var server := AddAll(s.server, s.toSend);
    var ops := Missing(server, SummaryOf(s.client), pull);
    CountsMean(s.server, s.toSend);
    CountsMean(s.client, ops);
    AddAllElements(s.client, ops);
  }

  lemma PassRunning(s: State, limit: int, pull: int, delivery: Delivery)
    requires Round(s, limit, pull, delivery).status == Running
    ensures delivery == Delivered
    ensures var next := Round(s, limit, pull, delivery).stats;
      next.rounds == s.stats.rounds + 1 && next.sent == s.stats.sent + |s.toSend|
  {
    hide AddAll, Missing, SummaryOf, AddedCount, RefusedCount;
  }

  /** How a pass that is not the last differs from one that is. */
  lemma PassStatus(s: State, limit: int, pull: int, delivery: Delivery)
    ensures var next := Round(s, limit, pull, delivery);
      && (next.status == Status.Failed <==> delivery != Delivered)
      && (next.status == Settled <==> delivery == Delivered && next.client == s.client && next.toSend == [])
  {
    hide Round, AddAll, Missing, SummaryOf, Refusals;
    PassMeans(s, limit, pull, delivery);
  }

  // ------------------------------------------------------------------ a whole session

  /** The call at which a session fails: the first that is not delivered, if the session gets
      there. */
  ghost predicate FailsAt(start: State, limit: int, pull: int, net: nat -> Delivery, rounds: nat, k: nat) {
    && k < rounds && net(k) != Delivered && (forall j: nat :: j < k ==> net(j) == Delivered)
    && Run(start, limit, pull, net, k).status == Running
  }

  /** The call after which a session settles. */
  ghost predicate SettlesAt(start: State, limit: int, pull: int, net: nat -> Delivery, rounds: nat, k: nat) {
    && k < rounds && (forall j: nat :: j <= k ==> net(j) == Delivered)
    && var before, after := Run(start, limit, pull, net, k), Run(start, limit, pull, net, k + 1);
       before.status == Running && after.client == before.client && after.toSend == []
  }

  /** How much a session has staged for its first calls. */
  ghost function Staged(start: State, limit: int, pull: int, net: nat -> Delivery, calls: nat): nat {
    if calls == 0 then 0
    else Staged(start, limit, pull, net, calls - 1) + |Run(start, limit, pull, net, calls - 1).toSend|
  }

  ghost predicate Fresh(start: State) {
    start.status == Running && start.stats == Stats(0, 0, 0, 0, 0, 0)
  }

  lemma StillRunning(start: State, limit: int, pull: int, net: nat -> Delivery, rounds: nat)
    requires rounds > 0 && Run(start, limit, pull, net, rounds).status == Running
    ensures Run(start, limit, pull, net, rounds - 1).status == Running
    ensures Run(start, limit, pull, net, rounds) == Round(Run(start, limit, pull, net, rounds - 1), limit, pull, net(rounds - 1))
  {
    hide Round;
  }

  /** While a session runs, every call so far was delivered and counted. */
  lemma {:induction false} RunningMeans(start: State, limit: int, pull: int, net: nat -> Delivery, rounds: nat)
    requires Fresh(start) && Run(start, limit, pull, net, rounds).status == Running
    ensures forall j: nat :: j < rounds ==> net(j) == Delivered
    ensures var s := Run(start, limit, pull, net, rounds);
      s.stats.rounds == rounds && s.stats.sent == Staged(start, limit, pull, net, rounds)
  {
    hide Round, Run;
    if rounds == 0 {
      NoPass(start, limit, pull, net);
    } else {
      StillRunning(start, limit, pull, net, rounds);
      PassRunning(Run(start, limit, pull, net, rounds - 1), limit, pull, net(rounds - 1));
      RunningMeans(start, limit, pull, net, rounds - 1);
    }
  }

  lemma NoPass(start: State, limit: int, pull: int, net: nat -> Delivery)
    ensures Run(start, limit, pull, net, 0) == start
  {
  }

  /** A stopped session stays as it is. */
  lemma {:induction false} StoppedStays(start: State, limit: int, pull: int, net: nat -> Delivery, k: nat, rounds: nat)
    requires k <= rounds && Run(start, limit, pull, net, k).status != Running
    ensures Run(start, limit, pull, net, rounds) == Run(start, limit, pull, net, k)
  {
    hide Round;
    if k < rounds {
      StoppedStays(start, limit, pull, net, k, rounds - 1);
    }
  }

  /** A session that has stopped stopped at some call. */
  lemma {:induction false} StoppedSomewhere(start: State, limit: int, pull: int, net: nat -> Delivery,
                                            rounds: nat) returns (k: nat)
    requires Fresh(start) && Run(start, limit, pull, net, rounds).status != Running
    ensures k < rounds && Run(start, limit, pull, net, k).status == Running
    ensures Run(start, limit, pull, net, rounds) == Round(Run(start, limit, pull, net, k), limit, pull, net(k))
    ensures Run(start, limit, pull, net, k + 1) == Run(start, limit, pull, net, rounds)
  {
    hide Round;
    if Run(start, limit, pull, net, rounds - 1).status == Running {
      k := rounds - 1;
    } else {
      k := StoppedSomewhere(start, limit, pull, net, rounds - 1);
    }
  }

  /** Whatever the transport does: a session fails exactly when some call it makes is not
      delivered, and settles exactly when some call it makes moves nothing and leaves nothing
      to push; the two cannot happen to one session. */
  lemma {:induction false} StatusMeans(start: State, limit: int, pull: int, net: nat -> Delivery, rounds: nat)
    requires Fresh(start)
    ensures var end := Run(start, limit, pull, net, rounds);
      && (end.status == Status.Failed <==> exists k :: FailsAt(start, limit, pull, net, rounds, k))
      && (end.status == Settled <==> exists k :: SettlesAt(start, limit, pull, net, rounds, k))
  {
    hide Round, Run;
    var end := Run(start, limit, pull, net, rounds);
    if end.status != Running {
      var k := StoppedSomewhere(start, limit, pull, net, rounds);
      PassStatus(Run(start, limit, pull, net, k), limit, pull, net(k));
      RunningMeans(start, limit, pull, net, k);
      assert net(k) != Delivered ==> FailsAt(start, limit, pull, net, rounds, k);
      assert net(k) == Delivered ==> SettlesAt(start, limit, pull, net, rounds, k);
    }
    if k :| FailsAt(start, limit, pull, net, rounds, k) {
      LostFails(start, limit, pull, net, rounds, k);
    }
    if k :| SettlesAt(start, limit, pull, net, rounds, k) {
      NothingMovedSettles(start, limit, pull, net, rounds, k);
    }
  }

  lemma NextPass(start: State, limit: int, pull: int, net: nat -> Delivery, k: nat)
    requires Run(start, limit, pull, net, k).status == Running
    ensures Run(start, limit, pull, net, k + 1) == Round(Run(start, limit, pull, net, k), limit, pull, net(k))
  {
    hide Round;
  }

  /** What a failed session leaves: the client as the last delivered call left it, the server with
      the last push if its request got through, a round for each delivered call, and everything
      staged, the lost push too, counted as sent. */
  lemma {:induction false} LostFails(start: State, limit: int, pull: int, net: nat -> Delivery, rounds: nat, k: nat)
    requires Fresh(start) && FailsAt(start, limit, pull, net, rounds, k)
    ensures var end, before := Run(start, limit, pull, net, rounds), Run(start, limit, pull, net, k);
      && end.status == Status.Failed && end.client == before.client
      && end.server == (if net(k) == ResponseLost then AddAll(before.server, before.toSend) else before.server)
      && end.stats.rounds == k && end.stats.sent == Staged(start, limit, pull, net, k + 1)
      && end.stats == before.stats.(sent := end.stats.sent)
  {
    hide Round, Run, AddAll, Missing, SummaryOf, Refusals;
    NextPass(start, limit, pull, net, k);
    PassMeans(Run(start, limit, pull, net, k), limit, pull, net(k));
    RunningMeans(start, limit, pull, net, k);
    StoppedStays(start, limit, pull, net, k + 1, rounds);
  }

  lemma {:induction false} NothingMovedSettles(start: State, limit: int, pull: int, net: nat -> Delivery, rounds: nat,
                                               k: nat)
    requires Fresh(start) && SettlesAt(start, limit, pull, net, rounds, k)
    ensures var end := Run(start, limit, pull, net, rounds);
      && end.status == Settled && end == Run(start, limit, pull, net, k + 1)
      && end.stats.rounds == k + 1 && end.stats.sent == Staged(start, limit, pull, net, k + 1)
  {
    hide Round, Run, AddAll, Missing, SummaryOf, Refusals;
    NextPass(start, limit, pull, net, k);
    PassMeans(Run(start, limit, pull, net, k), limit, pull, net(k));
    RunningMeans(start, limit, pull, net, k);
    StoppedStays(start, limit, pull, net, k + 1, rounds);
  }

  // ---------------------------------------------------------- the caller's own numbers

  /** `SyncPeer` reports an error exactly when a call it makes is lost. */
  lemma SyncFailsIff(client: Ops, server: Ops, limit: int, configured: int, maxRounds: int, net: nat -> Delivery)
    ensures var push, rounds := ClientLimit(limit), ClientRounds(maxRounds);
      Sync(client, server, limit, configured, maxRounds, net).status == Status.Failed
      <==> exists k :: FailsAt(Start(client, server), push, PullLimit(push, configured), net, rounds, k)
  {
    hide Run;
    StatusMeans(Start(client, server), ClientLimit(limit), PullLimit(ClientLimit(limit), configured), net, ClientRounds(maxRounds));
  }

  /** A peer that cannot be reached is an error, and nothing has changed. */
  lemma UnreachablePeer(client: Ops, server: Ops, limit: int, configured: int, maxRounds: int, net: nat -> Delivery)
    requires net(0) == RequestLost
    ensures var end := Sync(client, server, limit, configured, maxRounds, net);
      end.status == Status.Failed && end.client == client && end.server == server && end.stats == Stats(0, 0, 0, 0, 0, 0)
  {
    hide Round;
    var push := ClientLimit(limit);
    assert FailsAt(Start(client, server), push, PullLimit(push, configured), net, ClientRounds(maxRounds), 0);
    LostFails(Start(client, server), push, PullLimit(push, configured), net, ClientRounds(maxRounds), 0);
  }

  /** The bound in the caller's own numbers: at most `limit` a round are pushed, 256 when none is
      given, and as many but never more than 2048 pulled; a session has `maxRounds` rounds, 6 when
      none are given. */
  lemma BoundInNumbers(client: Ops, server: Ops, limit: int, configured: int, maxRounds: int, net: nat -> Delivery)
    requires WellFormed(client) && WellFormed(server) && Reliable(net)
    ensures var end := Sync(client, server, limit, configured, maxRounds, net);
      var push, rounds := if limit <= 0 then 256 else limit, if maxRounds <= 0 then 6 else maxRounds;
      Gap(end.server, end.client) == [] && Gap(end.client, end.server) == []
      <==> |Gap(server, client)| <= rounds * (if push < 2048 then push else 2048) && |Gap(client, server)| <= (rounds - 1) * push
  {
    hide WellFormed, Gap, Run;
    ConvergenceBound(client, server, limit, configured, maxRounds, net);
  }

  /** What the handler makes of a request's limit: the request's own, else the configured one,
      else 256, and never more than 2048. */
  lemma HandlerLimit(limit: int, configured: int)
    ensures 0 < limit <= 2048 ==> PullLimit(limit, configured) == limit
    ensures limit > 2048 ==> PullLimit(limit, configured) == 2048
    ensures limit <= 0 && 0 < configured <= 2048 ==> PullLimit(limit, configured) == configured
    ensures limit <= 0 && configured > 2048 ==> PullLimit(limit, configured) == 2048
    ensures limit <= 0 && configured <= 0 ==> PullLimit(limit, configured) == 256
  {
  }
}
