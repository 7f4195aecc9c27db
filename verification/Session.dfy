/** One anti-entropy session: the client loop of `SyncPeer` against the `/v1/sync`
    handler, as a function of the two logs, and exactly what a session achieves. */
module Session {
  import opened Delta
  import opened Log
  import opened Operations
  import opened Wrappers

  const DEFAULT_SYNC_LIMIT := 256
  const DEFAULT_MAX_SYNC_ROUNDS := 6
  const MAX_PULL := 2048

  /** What the transport does with one call. */
  datatype Delivery = Delivered | RequestLost | ResponseLost

  datatype Response = Response(summary: Summary, ops: Ops, accepted: nat, rejected: nat)

  datatype Stats = Stats(rounds: nat, sent: nat, pulled: nat, accepted: nat, rejected: nat, dropped: nat)

  datatype Status = Running | Settled | Failed

  datatype State = State(client: Ops, server: Ops, toSend: Ops, stats: Stats, status: Status)

  function AddedCount(log: Ops, ops: Ops): nat {
    if ops == [] then 0
    else
      var front := ops[..|ops| - 1];
      AddedCount(log, front) + (if OutcomeOf(AddAll(log, front), ops[|ops| - 1]) == Added then 1 else 0)
  }

  function RefusedCount(log: Ops, ops: Ops): nat {
    if ops == [] then 0
    else
      var front := ops[..|ops| - 1];
      var outcome := OutcomeOf(AddAll(log, front), ops[|ops| - 1]);
      RefusedCount(log, front) + (if outcome == Conflict || outcome.Invalid? then 1 else 0)
  }

  function ClientLimit(limit: int): (r: int)
    ensures r > 0
  {
    if limit <= 0 then DEFAULT_SYNC_LIMIT else limit
  }

  function ClientRounds(maxRounds: int): (r: nat)
    ensures r > 0
  {
    if maxRounds <= 0 then DEFAULT_MAX_SYNC_ROUNDS else maxRounds
  }

  /** The handler's limit: the request's, else the configured one, at most 2048. */
  function PullLimit(limit: int, configured: int): (r: int)
    ensures 0 < r <= MAX_PULL
  {
    Min(if limit > 0 then limit else if configured > 0 then configured else DEFAULT_SYNC_LIMIT, MAX_PULL)
  }

  function Reply(server: Ops, toSend: Ops, summary: Summary, pull: int): Response {
    var after := AddAll(server, toSend);
    Response(SummaryOf(after), Missing(after, summary, pull), AddedCount(server, toSend), RefusedCount(server, toSend))
  }

  /** One pass of the client loop. */
  function Round(s: State, limit: int, pull: int, delivery: Delivery): State {
    var called := s.(stats := s.stats.(sent := s.stats.sent + |s.toSend|));
    var served := called.(server := AddAll(s.server, s.toSend));
    var reply := Reply(s.server, s.toSend, SummaryOf(s.client), pull);
    match delivery
    case RequestLost => called.(status := Failed)
    case ResponseLost => served.(status := Failed)
    case Delivered =>
      var client := AddAll(s.client, reply.ops);
      var pulled, toSend := AddedCount(s.client, reply.ops), Missing(client, reply.summary, limit);
      State(client, served.server, toSend,
            Stats(s.stats.rounds + 1, called.stats.sent, s.stats.pulled + pulled,
                  s.stats.accepted + reply.accepted, s.stats.rejected + reply.rejected,
                  s.stats.dropped + RefusedCount(s.client, reply.ops)),
            if pulled == 0 && |toSend| == 0 then Settled else Running)
  }

  function Start(client: Ops, server: Ops): State {
    State(client, server, [], Stats(0, 0, 0, 0, 0, 0), Running)
  }

  /** The session after at most `rounds` passes. */
  function Run(start: State, limit: int, pull: int, net: nat -> Delivery, rounds: nat): State {
    if rounds == 0 then start
    else
      var s := Run(start, limit, pull, net, rounds - 1);
      if s.status.Running? then Round(s, limit, pull, net(rounds - 1)) else s
  }

  ghost predicate Reliable(net: nat -> Delivery) {
    forall i: nat :: net(i).Delivered?
  }

  // ------------------------------------------------------------ what a session achieves

  lemma {:induction false} FreshIsAdded(log: Ops, batch: Ops)
    requires WellFormed(log) && Fresh(log, batch)
    ensures AddedCount(log, batch) == |batch| && RefusedCount(log, batch) == 0
  {
    hide Fresh, WellFormed, Valid, OutcomeOf;
    if batch != [] {
      var front, last := batch[..|batch| - 1], batch[|batch| - 1];
      FreshPrefix(log, batch);
      FreshIsAdded(log, front);
      AddAllFresh(log, front);
      AddOutcome(log + front, last);
    }
  }

  /** A batch cut from the difference is added whole, leaving the rest of the difference. */
  lemma BatchAdded(from: Ops, to: Ops, limit: int)
    requires WellFormed(from) && WellFormed(to)
    ensures var batch := Take(Gap(from, to), limit);
      && AddAll(to, batch) == to + batch && WellFormed(to + batch)
      && AddedCount(to, batch) == |batch| && RefusedCount(to, batch) == 0
      && Gap(from, to + batch) == Drop(Gap(from, to), limit)
  {
    MissingAfterBatch(from, to, limit);
    MissingIsDifference(from, SummaryOf(to));
    GapIsFresh(from, to, Take(Gap(from, to), limit));
    FreshIsAdded(to, Take(Gap(from, to), limit));
  }

  /** The server applies a push. */
  lemma PushApplied(c0: Ops, s0: Ops, m: int, limit: int, toSend: Ops)
    requires WellFormed(c0) && WellFormed(s0) && limit > 0 && (m >= 0 || m == -limit)
    requires toSend == if m < 0 then [] else Take(Drop(Gap(c0, s0), m), limit)
    ensures var server := s0 + Take(Gap(c0, s0), m);
      && AddAll(server, toSend) == s0 + Take(Gap(c0, s0), m + limit)
      && WellFormed(AddAll(server, toSend))
      && AddedCount(server, toSend) == |toSend| && RefusedCount(server, toSend) == 0
  {
    hide WellFormed, Gap, AddAll, AddedCount, RefusedCount;
    var up, server := Gap(c0, s0), s0 + Take(Gap(c0, s0), m);
    MissingAfterBatch(c0, s0, m);
    BatchAdded(c0, server, if m < 0 then 0 else limit);
    assert Take(up, m + limit) == Take(up, m) + toSend;
    assert server + toSend == s0 + Take(up, m + limit);
  }

  /** What the other side still lacks, after each side took part of the other's difference. */
  lemma StillMissing(from: Ops, to: Ops, sent: int, taken: int)
    requires WellFormed(from) && WellFormed(to)
    ensures Gap(from + Take(Gap(to, from), taken), to + Take(Gap(from, to), sent)) == Drop(Gap(from, to), sent)
    ensures WellFormed(from + Take(Gap(to, from), taken))
    ensures WellFormed(to + Take(Gap(from, to), sent))
  {
    MissingAfterBatch(from, to, sent);
    MissingAfterBatch(to, from, taken);
    GapIsShared(to, from, taken, to + Take(Gap(from, to), sent));
    GapIgnoresShared(from, Take(Gap(to, from), taken), to + Take(Gap(from, to), sent));
  }

  /** The client applies the reply. */
  lemma PullApplied(c0: Ops, s0: Ops, n: nat, served: int, pull: int)
    requires WellFormed(c0) && WellFormed(s0) && pull > 0
    ensures var client, server, batch :=
        c0 + Take(Gap(s0, c0), n), s0 + Take(Gap(c0, s0), served), Take(Drop(Gap(s0, c0), n), pull);
      && Missing(server, SummaryOf(client), pull) == batch
      && AddAll(client, batch) == c0 + Take(Gap(s0, c0), n + pull)
      && AddedCount(client, batch) == |batch| && RefusedCount(client, batch) == 0
  {
    hide WellFormed, Gap, AddAll, AddedCount, RefusedCount, Missing, SummaryOf;
    var down := Gap(s0, c0);
    var client, server, batch := c0 + Take(down, n), s0 + Take(Gap(c0, s0), served), Take(Drop(down, n), pull);
    StillMissing(s0, c0, n, served);
    LimitedIsPrefix(server, client, pull);
    BatchAdded(server, client, pull);
    assert Take(down, n + pull) == Take(down, n) + batch;
    assert client + batch == c0 + Take(down, n + pull);
  }

  /** A round between two quiescent stores moves one batch each way: `m` operations become
      `m + limit` on the push side and `n` become `n + pull` on the pull side. */
  lemma RoundMoves(c0: Ops, s0: Ops, s: State, n: nat, m: int, limit: int, pull: int)
    requires WellFormed(c0) && WellFormed(s0) && limit > 0 && pull > 0 && (m >= 0 || m == -limit)
    requires s.client == c0 + Take(Gap(s0, c0), n)
    requires s.server == s0 + Take(Gap(c0, s0), m)
    requires s.toSend == if m < 0 then [] else Take(Drop(Gap(c0, s0), m), limit)
    ensures Round(s, limit, pull, Delivered) ==
      State(c0 + Take(Gap(s0, c0), n + pull), s0 + Take(Gap(c0, s0), m + limit), Take(Drop(Gap(c0, s0), m + limit), limit),
            Stats(s.stats.rounds + 1, s.stats.sent + |s.toSend|, s.stats.pulled + |Take(Drop(Gap(s0, c0), n), pull)|,
                  s.stats.accepted + |s.toSend|, s.stats.rejected, s.stats.dropped),
            if |Gap(s0, c0)| <= n && |Gap(c0, s0)| <= m + limit then Settled else Running)
  {
    hide WellFormed, Gap, AddAll, AddedCount, RefusedCount, Missing, SummaryOf, Take, Drop;
    var down, up := Gap(s0, c0), Gap(c0, s0);
    var server, client, batch := s0 + Take(up, m + limit), c0 + Take(down, n + pull), Take(Drop(down, n), pull);
    PushApplied(c0, s0, m, limit, s.toSend);
    PullApplied(c0, s0, n, m + limit, pull);
    assert Reply(s.server, s.toSend, SummaryOf(s.client), pull) == Response(SummaryOf(server), batch, |s.toSend|, 0);
    StillMissing(c0, s0, m + limit, n + pull);
    LimitedIsPrefix(client, server, limit);
    TakeNothing(down, n, pull);
    TakeNothing(up, m + limit, limit);
  }

  lemma TakeNothing<T>(s: seq<T>, n: nat, limit: int)
    requires limit > 0
    ensures |Take(Drop(s, n), limit)| == 0 <==> |s| <= n
  {
  }

  /** A batch of `from`'s operations is held by every extension of `from`. */
  lemma GapIsShared(from: Ops, to: Ops, n: int, holder: Ops)
    requires WellFormed(from) && from <= holder
    ensures forall o :: o in Take(Gap(from, to), n) ==> o in holder
  {
    MissingIsDifference(from, SummaryOf(to));
  }

  /** The exact state of a fault-free session after `k` completed rounds, of which
      `n` operations at most have been pulled and `m` at most pushed. */
  ghost predicate Moved(c0: Ops, s0: Ops, limit: int, n: int, m: int, s: State) {
    && s.client == c0 + Take(Gap(s0, c0), n)
    && s.server == s0 + Take(Gap(c0, s0), m)
    && s.toSend == (if m < 0 then [] else Take(Drop(Gap(c0, s0), m), limit))
    && s.stats.sent == s.stats.accepted == |Take(Gap(c0, s0), m)|
    && s.stats.pulled == |Take(Gap(s0, c0), n)|
    && s.stats.rejected == s.stats.dropped == 0
  }

  /** A fault-free session after any number of passes: it runs until both differences are
      used up and settles in the first round that finds them so. */
  ghost predicate Progress(c0: Ops, s0: Ops, limit: int, pull: int, passes: nat, s: State) {
    var down, up, k := |Gap(s0, c0)|, |Gap(c0, s0)|, s.stats.rounds;
    && Moved(c0, s0, limit, k * pull, (k - 1) * limit, s)
    && k <= passes
    && (s.status == Running ==> k == passes)
    && (s.status == if k > 0 && down <= (k - 1) * pull && up <= (k - 1) * limit then Settled else Running)
    && (k > 1 ==> down > (k - 2) * pull || up > (k - 2) * limit)
  }

  lemma MovedStep(c0: Ops, s0: Ops, limit: int, pull: int, n: nat, m: int, s: State)
    requires WellFormed(c0) && WellFormed(s0) && limit > 0 && pull > 0 && (m >= 0 || m == -limit)
    requires Moved(c0, s0, limit, n, m, s)
    ensures var next := Round(s, limit, pull, Delivered);
      && Moved(c0, s0, limit, n + pull, m + limit, next)
      && next.stats.rounds == s.stats.rounds + 1
      && next.status == if |Gap(s0, c0)| <= n && |Gap(c0, s0)| <= m + limit then Settled else Running
  {
    hide WellFormed, Gap, Round;
    RoundMoves(c0, s0, s, n, m, limit, pull);
  }

  lemma ProgressStep(c0: Ops, s0: Ops, limit: int, pull: int, passes: nat, s: State)
    requires WellFormed(c0) && WellFormed(s0) && limit > 0 && pull > 0
    requires Progress(c0, s0, limit, pull, passes, s) && s.status == Running
    ensures Progress(c0, s0, limit, pull, passes + 1, Round(s, limit, pull, Delivered))
  {
    hide WellFormed, Gap, Round, Moved;
    var k := s.stats.rounds;
    assert (k + 1) * pull == k * pull + pull && (k - 1) * limit + limit == k * limit;
    assert (k - 1) * limit >= 0 || (k - 1) * limit == -limit;
    MovedStep(c0, s0, limit, pull, k * pull, (k - 1) * limit, s);
  }

  lemma {:induction false} SessionProgress(c0: Ops, s0: Ops, limit: int, pull: int, net: nat -> Delivery, passes: nat)
    requires WellFormed(c0) && WellFormed(s0) && limit > 0 && pull > 0 && Reliable(net)
    ensures Progress(c0, s0, limit, pull, passes, Run(Start(c0, s0), limit, pull, net, passes))
  {
    hide WellFormed, Gap, Round;
    if passes == 0 {
      assert c0 + [] == c0 && s0 + [] == s0;
      assert (0 - 1) * limit < 0 && 0 * pull == 0;
    } else {
      SessionProgress(c0, s0, limit, pull, net, passes - 1);
      var s := Run(Start(c0, s0), limit, pull, net, passes - 1);
      if s.status == Running {
        ProgressStep(c0, s0, limit, pull, passes - 1, s);
      }
    }
  }
}
