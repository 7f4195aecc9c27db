/** The sync handler (gossip/daemon.go) and the client loop (gossip/sync.go) over stores. */
module Peers {
  import opened Convergence
  import opened Log
  import opened Session
  import opened Store
  import opened Wrappers

  /** The `/v1/sync` handler: add what was pushed, answer with what the caller lacks. */
  method HandleSync(server: Store, toSend: Ops, summary: Log.Summary, limit: int, configured: int)
    returns (response: Response)
    requires server.Indexed()
    modifies server`ops, server`opIDs, server`seqByAuthor, server`authorSeqIndex, server`opsLog
    ensures server.Indexed() && (old(server.Valid()) ==> server.Valid())
    ensures server.ops == AddAll(old(server.ops), toSend)
    ensures response == Reply(old(server.ops), toSend, summary, PullLimit(limit, configured))
  {
    hide Store.Indexed, Store.Valid;
    var effective := limit;
    if effective <= 0 {
      effective := if configured > 0 then configured else DEFAULT_SYNC_LIMIT;
    }
    if effective > MAX_PULL {
      effective := MAX_PULL;
    }
    var accepted, rejected := AddBatch(server, toSend);
    var current := server.Summary();
    var ops := server.MissingFor(summary, effective);
    response := Response(current, ops, accepted, rejected);
  }

  /** The loop both sides run over a batch: operations that fail are counted and skipped. */
  method AddBatch(store: Store, batch: Ops) returns (added: nat, refused: nat)
    requires store.Indexed()
    modifies store`ops, store`opIDs, store`seqByAuthor, store`authorSeqIndex, store`opsLog
    ensures store.Indexed() && (old(store.Valid()) ==> store.Valid())
    ensures store.ops == AddAll(old(store.ops), batch)
    ensures added == AddedCount(old(store.ops), batch) && refused == RefusedCount(old(store.ops), batch)
  {
    hide Store.Indexed, Store.Valid;
    added, refused := 0, 0;
    for i := 0 to |batch|
      invariant store.Indexed() && (old(store.Valid()) ==> store.Valid())
      invariant store.ops == AddAll(old(store.ops), batch[..i])
      invariant added == AddedCount(old(store.ops), batch[..i]) && refused == RefusedCount(old(store.ops), batch[..i])
    {
      assert batch[..i + 1][..i] == batch[..i];
      var outcome := store.AddRemoteOp(batch[i]);
      match outcome
      case Added => added := added + 1;
      case Duplicate =>
      case _ => refused := refused + 1;
    }
    assert batch[..|batch|] == batch;
  }

  /** `callSync`: the call as the transport lets it happen. */
  method CallSync(server: Store, toSend: Ops, summary: Log.Summary, limit: int, configured: int, delivery: Delivery)
    returns (response: Option<Response>)
    requires server.Indexed()
    modifies server`ops, server`opIDs, server`seqByAuthor, server`authorSeqIndex, server`opsLog
    ensures server.Indexed() && (old(server.Valid()) ==> server.Valid())
    ensures server.ops == if delivery == RequestLost then old(server.ops) else AddAll(old(server.ops), toSend)
    ensures response ==
      if delivery == Delivered then Some(Reply(old(server.ops), toSend, summary, PullLimit(limit, configured)))
        else None
  {
    hide Store.Indexed, Store.Valid;
    if delivery == RequestLost {
      return None;
    }
    var answer := HandleSync(server, toSend, summary, limit, configured);
    response := if delivery == Delivered then Some(answer) else None;
  }

  /** A store lacks nothing it has itself. */
  lemma NothingForItself(log: Ops, limit: int)
    ensures Missing(log, SummaryOf(log), limit) == []
  {
    hide Missing, SummaryOf, Extent;
    MissingIsNewer(log, SummaryOf(log), limit);
    ExtentOfElements(log);
    if Missing(log, SummaryOf(log), limit) != [] {
      var o := Missing(log, SummaryOf(log), limit)[0];
      assert o in log;
      AtSummary(log, o.author);
    }
  }

  lemma NothingAdded(log: Ops)
    ensures AddAll(log, []) == log && AddedCount(log, []) == 0 && RefusedCount(log, []) == 0
  {
  }

  lemma ExtentOfElements(log: Ops)
    ensures forall o :: o in log ==> o.seqNo <= Extent(log, o.author)
  {
    forall o | o in log ensures o.seqNo <= Extent(log, o.author) {
      ExtentIsMax(log, o.author);
    }
  }

  /** One pass of the client loop: the body of the `for` in `SyncPeer`. */
  method SyncRound(client: Store, server: Store, toSend: Ops, before: Stats, limit: int, configured: int,
                   delivery: Delivery)
    returns (next: Ops, stats: Stats, status: Status)
    requires client.Indexed() && server.Indexed() && limit > 0 && (client == server ==> toSend == [])
    modifies client`ops, client`opIDs, client`seqByAuthor, client`authorSeqIndex, client`opsLog
    modifies server`ops, server`opIDs, server`seqByAuthor, server`authorSeqIndex, server`opsLog
    ensures client.Indexed() && server.Indexed()
    ensures old(client.Valid() && server.Valid()) ==> client.Valid() && server.Valid()
    ensures client == server ==> next == []
    ensures State(client.ops, server.ops, next, stats, status)
      == Round(State(old(client.ops), old(server.ops), toSend, before, Running), limit, PullLimit(limit, configured), delivery)
  {
    hide AddAll, Missing, SummaryOf, AddedCount, RefusedCount, Store.Indexed, Store.Valid;
    var summary := client.Summary();
    stats := before.(sent := before.sent + |toSend|);
    var response := CallSync(server, toSend, summary, limit, configured, delivery);
    if response.None? {
      NothingAdded(old(client.ops));
      return toSend, stats, Failed;
    }
    var resp := response.value;
    if client == server {
      NothingAdded(old(client.ops));
      NothingForItself(client.ops, PullLimit(limit, configured));
      NothingForItself(client.ops, limit);
    }
    stats := stats.(rounds := stats.rounds + 1, accepted := stats.accepted + resp.accepted,
                    rejected := stats.rejected + resp.rejected);
    var pulledNow, dropped := AddBatch(client, resp.ops);
    stats := stats.(pulled := stats.pulled + pulledNow, dropped := stats.dropped + dropped);
    next := client.MissingFor(resp.summary, limit);
    status := if pulledNow == 0 && |next| == 0 then Settled else Running;
  }

  /** `SyncPeer`, where `net` is what the transport does with each call in turn. A peer may
      be the node itself. */
  method SyncPeer(client: Store, server: Store, limit: int, configured: int, maxRounds: int, net: nat -> Delivery)
    returns (stats: Stats, failed: bool)
    requires client.Indexed() && server.Indexed()
    modifies client`ops, client`opIDs, client`seqByAuthor, client`authorSeqIndex, client`opsLog
    modifies server`ops, server`opIDs, server`seqByAuthor, server`authorSeqIndex, server`opsLog
    ensures client.Indexed() && server.Indexed()
    ensures old(client.Valid() && server.Valid()) ==> client.Valid() && server.Valid()
    ensures var end := Sync(old(client.ops), old(server.ops), limit, configured, maxRounds, net);
      client.ops == end.client && server.ops == end.server && stats == end.stats && failed == end.status.Failed?
  {
    hide Store.Indexed, Store.Valid, Round;
    var push, rounds := limit, maxRounds;
    if push <= 0 {
      push := DEFAULT_SYNC_LIMIT;
    }
    if rounds <= 0 {
      rounds := DEFAULT_MAX_SYNC_ROUNDS;
    }
    ghost var start, pull := Start(client.ops, server.ops), PullLimit(push, configured);
    var toSend: Ops := [];
    stats := Stats(0, 0, 0, 0, 0, 0);
    for round := 0 to rounds
      invariant client.Indexed() && server.Indexed()
      invariant old(client.Valid() && server.Valid()) ==> client.Valid() && server.Valid()
      invariant client == server ==> toSend == []
      invariant Run(start, push, pull, net, round) == State(client.ops, server.ops, toSend, stats, Running)
    {
      var status;
      toSend, stats, status := SyncRound(client, server, toSend, stats, push, configured, net(round));
      if status != Running {
        Stopped(start, push, pull, net, round + 1, rounds);
        return stats, status == Failed;
      }
    }
    failed := false;
  }

  /** A session that has stopped stays as it is. */
  lemma {:induction false} Stopped(start: State, limit: int, pull: int, net: nat -> Delivery, n: nat, rounds: nat)
    requires n <= rounds && Run(start, limit, pull, net, n).status != Running
    ensures Run(start, limit, pull, net, rounds) == Run(start, limit, pull, net, n)
  {
    hide Round;
    if n < rounds {
      Stopped(start, limit, pull, net, n, rounds - 1);
    }
  }
}
