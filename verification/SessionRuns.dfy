/** A session between two stores is a run of the network: each round of the client loop, under
    whatever the transport does with it, is a list of network steps. */
module SessionRuns {
  import opened Convergence
  import opened Log
  import opened Network
  import opened Operations
  import opened Session

  lemma AfterAppend(s: System, x: seq<Step>, y: seq<Step>)
    ensures After(s, x + y) == After(After(s, x), y)
  {
    hide After;
    AfterSplit(s, x + y, |x|);
    assert (x + y)[..|x|] == x && (x + y)[|x|..] == y;
  }

  lemma AfterOne(s: System, step: Step)
    requires Enabled(s, step)
    ensures After(s, [step]) == Do(s, step)
  {
    hide Do;
    assert [step][..0] == [];
    assert After(s, []) == s;
  }

  lemma AfterTwo(s: System, x: Step, y: Step)
    requires Enabled(s, x) && Enabled(Do(s, x), y)
    ensures After(s, [x, y]) == Do(Do(s, x), y)
  {
    hide Do, After;
    AfterOne(s, x);
    AfterOne(Do(s, x), y);
    AfterAppend(s, [x], [y]);
    assert [x] + [y] == [x, y];
  }

  // --------------------------------------------------------------- adding a batch

  /** Add a received batch, one operation at a time. */
  function AddSteps(dest: NodeId, ops: Ops): seq<Step> {
    seq(|ops|, i requires 0 <= i < |ops| => Add(Batch(dest, ops[i..])))
  }

  /** Only the log of `dest`, and what is in its inbox, has changed. */
  ghost predicate OnlyLog(s: System, e: System, dest: NodeId, log: Ops) {
    e.logs == s.logs[dest := log] && e.summaries == s.summaries && e.pushes == s.pushes && e.messages == s.messages
  }

  lemma AddOne(s: System, before: System, dest: NodeId, log: Ops, rest: Ops)
    requires dest in s.logs && rest != [] && Batch(dest, rest) in before.inbox && OnlyLog(s, before, dest, log)
    ensures Enabled(before, Add(Batch(dest, rest)))
    ensures var e := Do(before, Add(Batch(dest, rest)));
      OnlyLog(s, e, dest, AddTo(log, rest[0])) && Batch(dest, rest[1..]) in e.inbox
  {
    hide AddTo;
    assert before.logs[dest] == log;
  }

  lemma {:induction false} AddsRun(s: System, dest: NodeId, ops: Ops, n: nat)
    requires n <= |ops| && dest in s.logs && Batch(dest, ops) in s.inbox
    ensures var e := After(s, AddSteps(dest, ops)[..n]);
      && OnlyLog(s, e, dest, AddAll(s.logs[dest], ops[..n]))
      && Batch(dest, ops[n..]) in e.inbox
      && (Inv(s) ==> RefusedCount(s.logs[dest], ops[..n]) == 0)
  {
    hide Inv, OutcomeOf, AddTo, Do, Enabled, OnlyLog;
    var steps := AddSteps(dest, ops);
    if n == 0 {
      assert steps[..0] == [] && ops[..0] == [] && ops[0..] == ops;
      LogUnchanged(s, dest);
    } else {
      AddsRun(s, dest, ops, n - 1);
      var before, rest := After(s, steps[..n - 1]), ops[n - 1..];
      assert steps[..n][..n - 1] == steps[..n - 1] && steps[n - 1] == Add(Batch(dest, rest));
      assert rest[0] == ops[n - 1] && rest[1..] == ops[n..] && ops[..n][..n - 1] == ops[..n - 1];
      AddOne(s, before, dest, AddAll(s.logs[dest], ops[..n - 1]), rest);
      if Inv(s) {
        RunKeepsInv(s, steps[..n - 1]);
        NeverRefused(before, Batch(dest, rest));
        LogOf(s, before, dest, AddAll(s.logs[dest], ops[..n - 1]));
      }
    }
  }

  lemma LogUnchanged(s: System, dest: NodeId)
    requires dest in s.logs
    ensures OnlyLog(s, s, dest, s.logs[dest])
  {
    assert s.logs[dest := s.logs[dest]] == s.logs;
  }

  lemma LogOf(s: System, e: System, dest: NodeId, log: Ops)
    requires dest in s.logs && OnlyLog(s, e, dest, log)
    ensures dest in e.logs && e.logs[dest] == log
  {
  }

  lemma NeverRefused(s: System, batch: Batch)
    requires Inv(s) && batch in s.inbox && batch.ops != []
    ensures batch.dest in s.logs && OutcomeOf(s.logs[batch.dest], batch.ops[0]) in {Duplicate, Outcome.Added}
  {
    hide Core, OutcomeOf;
    NextIsHeldOrNext(s.logs, batch);
  }

  /** Receive a message and add its batch. */
  function TakeSteps(message: Message): seq<Step> {
    [Receive(message)] + AddSteps(message.batch.dest, message.batch.ops)
  }

  lemma TakeRun(s: System, message: Message)
    requires message in s.messages && message.batch.dest in s.logs
    ensures var dest, ops := message.batch.dest, message.batch.ops;
      && OnlyLog(s, After(s, TakeSteps(message)), dest, AddAll(s.logs[dest], ops))
      && (Inv(s) ==> RefusedCount(s.logs[dest], ops) == 0)
  {
    hide After, Inv, AddAll, RefusedCount;
    var dest, ops := message.batch.dest, message.batch.ops;
    var received := Do(s, Receive(message));
    AfterOne(s, Receive(message));
    assert Batch(dest, ops) == message.batch;
    AddsRun(received, dest, ops, |ops|);
    assert AddSteps(dest, ops)[..|ops|] == AddSteps(dest, ops) && ops[..|ops|] == ops;
    AfterAppend(s, [Receive(message)], AddSteps(dest, ops));
    if Inv(s) {
      StepKeepsInv(s, Receive(message));
    }
  }

  // ------------------------------------------------------------------- one round

  function RequestOf(s: System, client: NodeId, server: NodeId, toSend: Ops, limit: int): Message
    requires client in s.logs
  {
    Request(client, SummaryOf(s.logs[client]), Batch(server, toSend), limit)
  }

  function ReplyOf(s: System, client: NodeId, server: NodeId, toSend: Ops, limit: int, configured: int): Message
    requires client in s.logs && server in s.logs
  {
    var reply := Reply(s.logs[server], toSend, SummaryOf(s.logs[client]), PullLimit(limit, configured));
    Message.Response(server, reply.summary, Batch(client, reply.ops))
  }

  function AskSteps(s: System, client: NodeId, server: NodeId, toSend: Ops, limit: int): seq<Step>
    requires client in s.logs
  {
    [Summarise(client), Send(client, SummaryOf(s.logs[client]), Batch(server, toSend), limit)]
  }

  function ServeSteps(s: System, client: NodeId, server: NodeId, toSend: Ops, limit: int, configured: int): seq<Step>
    requires client in s.logs && server in s.logs
  {
    var request := RequestOf(s, client, server, toSend, limit);
    TakeSteps(request) + [Summarise(server), Respond(request, SummaryOf(AddAll(s.logs[server], toSend)), configured)]
  }

  /** The steps of one pass of the client loop, up to where the transport lets it get. */
  function RoundSteps(s: System, client: NodeId, server: NodeId, toSend: Ops, limit: int, configured: int,
                      delivery: Delivery)
    : seq<Step>
    requires client in s.logs && server in s.logs
  {
    var ask := AskSteps(s, client, server, toSend, limit);
    var serve := ServeSteps(s, client, server, toSend, limit, configured);
    var reply := ReplyOf(s, client, server, toSend, limit, configured);
    match delivery
    case RequestLost => ask
    case ResponseLost => ask + serve
    case Delivered => ask + serve + (TakeSteps(reply) + [Prepare(reply, limit)])
  }

  /** What a node would push next is nothing, or staged. */
  ghost predicate Staged(s: System, client: NodeId, server: NodeId, toSend: Ops) {
    toSend == [] || Push(client, Batch(server, toSend)) in s.pushes
  }

  lemma AskRun(s: System, client: NodeId, server: NodeId, toSend: Ops, limit: int)
    requires client in s.logs && server in s.logs && Staged(s, client, server, toSend)
    ensures var e := After(s, AskSteps(s, client, server, toSend, limit));
      && e.logs == s.logs && e.pushes == s.pushes
      && RequestOf(s, client, server, toSend, limit) in e.messages
  {
    hide After, SummaryOf;
    AfterTwo(s, Summarise(client), Send(client, SummaryOf(s.logs[client]), Batch(server, toSend), limit));
  }

  lemma ServeRun(s: System, e: System, client: NodeId, server: NodeId, toSend: Ops, limit: int, configured: int)
    requires client in s.logs && server in s.logs && client != server && e.logs == s.logs
    requires RequestOf(s, client, server, toSend, limit) in e.messages
    ensures var f := After(e, ServeSteps(s, client, server, toSend, limit, configured));
      && f.logs == s.logs[server := AddAll(s.logs[server], toSend)] && f.pushes == e.pushes
      && ReplyOf(s, client, server, toSend, limit, configured) in f.messages
    ensures Inv(e) ==> RefusedCount(s.logs[server], toSend) == 0
  {
    hide After, Inv, AddAll, RefusedCount, SummaryOf, Missing, AddedCount, PullLimit;
    var request := RequestOf(s, client, server, toSend, limit);
    var summary := SummaryOf(AddAll(s.logs[server], toSend));
    TakeRun(e, request);
    var taken := After(e, TakeSteps(request));
    AfterTwo(taken, Summarise(server), Respond(request, summary, configured));
    AfterAppend(e, TakeSteps(request), [Summarise(server), Respond(request, summary, configured)]);
  }

  lemma TakeReply(e: System, client: NodeId, server: NodeId, reply: Message, limit: int)
    requires reply in e.messages && reply.Response? && client in e.logs && reply.batch.dest == client
      && reply.from == server
    ensures var f, log := After(e, TakeSteps(reply) + [Prepare(reply, limit)]), AddAll(e.logs[client], reply.batch.ops);
      && f.logs == e.logs[client := log]
      && Push(client, Batch(server, Missing(log, reply.summary, ClientLimit(limit)))) in f.pushes
    ensures Inv(e) ==> RefusedCount(e.logs[client], reply.batch.ops) == 0
  {
    hide After, Inv, AddAll, RefusedCount, Missing;
    TakeRun(e, reply);
    var taken := After(e, TakeSteps(reply));
    AfterOne(taken, Prepare(reply, limit));
    AfterAppend(e, TakeSteps(reply), [Prepare(reply, limit)]);
  }

  /** Each pass of the client loop is a run of the network: the two logs end as the round says,
      every other log stays, and the next push is staged. In a reachable system nothing either
      side received was refused. */
  lemma RoundIsRun(s: System, client: NodeId, server: NodeId, toSend: Ops, stats: Stats, limit: int, configured: int,
                   delivery: Delivery)
    requires client in s.logs && server in s.logs && client != server && limit > 0 && Staged(s, client, server, toSend)
    ensures var e := After(s, RoundSteps(s, client, server, toSend, limit, configured, delivery));
      var next := Round(State(s.logs[client], s.logs[server], toSend, stats, Running), limit, PullLimit(limit, configured), delivery);
      && e.logs == s.logs[client := next.client][server := next.server]
      && (next.status != Status.Failed ==> Staged(e, client, server, next.toSend))
      && (Inv(s) ==> next.stats.rejected == stats.rejected && next.stats.dropped == stats.dropped)
  {
    hide After, Inv, AddAll, RefusedCount, AddedCount, SummaryOf, Missing, PullLimit, AskSteps, ServeSteps, TakeSteps;
    var ask := AskSteps(s, client, server, toSend, limit);
    var serve := ServeSteps(s, client, server, toSend, limit, configured);
    var reply := ReplyOf(s, client, server, toSend, limit, configured);
    AskRun(s, client, server, toSend, limit);
    var e := After(s, ask);
    assert s.logs[client := s.logs[client]][server := s.logs[server]] == s.logs;
    if delivery != RequestLost {
      ServeRun(s, e, client, server, toSend, limit, configured);
      AfterAppend(s, ask, serve);
      var f := After(s, ask + serve);
      assert s.logs[client := s.logs[client]][server := f.logs[server]] == f.logs;
      if delivery == Delivered {
        TakeReply(f, client, server, reply, limit);
        AfterAppend(s, ask + serve, TakeSteps(reply) + [Prepare(reply, limit)]);
        assert f.logs[client := AddAll(s.logs[client], reply.batch.ops)]
          == s.logs[client := AddAll(s.logs[client], reply.batch.ops)][server := f.logs[server]];
      }
      if Inv(s) {
        RunKeepsInv(s, ask);
        RunKeepsInv(s, ask + serve);
      }
    }
  }

  /** No step but the exchange itself: nobody appends anything of their own. */
  predicate OnlyExchange(steps: seq<Step>) {
    forall i :: 0 <= i < |steps| ==> !steps[i].Act? && !steps[i].Crash?
  }

  lemma RoundOnlyExchanges(s: System, client: NodeId, server: NodeId, toSend: Ops, limit: int, configured: int,
                           delivery: Delivery)
    requires client in s.logs && server in s.logs
    ensures OnlyExchange(RoundSteps(s, client, server, toSend, limit, configured, delivery))
  {
    hide Missing, AddAll, SummaryOf, AddedCount, RefusedCount, PullLimit;
    var reply := ReplyOf(s, client, server, toSend, limit, configured);
    assert OnlyExchange(AskSteps(s, client, server, toSend, limit));
    assert OnlyExchange(TakeSteps(RequestOf(s, client, server, toSend, limit)));
    assert OnlyExchange(ServeSteps(s, client, server, toSend, limit, configured));
    assert OnlyExchange(TakeSteps(reply) + [Prepare(reply, limit)]);
  }

  // --------------------------------------------------------------- a whole session

  /** A whole session, with losses or without, is a run of the network. */
  lemma {:induction false} SessionIsRun(s: System, client: NodeId, server: NodeId, limit: int, configured: int,
                                        rounds: nat,
                                        net: nat -> Delivery)
    returns (steps: seq<Step>)
    requires client in s.logs && server in s.logs && client != server && limit > 0
    ensures var e, end := After(s, steps), Run(Start(s.logs[client], s.logs[server]), limit, PullLimit(limit, configured), net, rounds);
      && e.logs == s.logs[client := end.client][server := end.server]
      && (end.status != Status.Failed ==> Staged(e, client, server, end.toSend))
      && (Inv(s) ==> end.stats.rejected == 0 && end.stats.dropped == 0)
    ensures OnlyExchange(steps)
  {
    hide Inv, Round, PullLimit, RoundSteps, Enabled, Do;
    steps := [];
    if rounds == 0 {
      assert s.logs[client := s.logs[client]][server := s.logs[server]] == s.logs;
    } else {
      steps := SessionIsRun(s, client, server, limit, configured, rounds - 1, net);
      var e, st := After(s, steps), Run(Start(s.logs[client], s.logs[server]), limit, PullLimit(limit, configured), net, rounds - 1);
      hide After;
      if st.status == Running {
        var more := RoundSteps(e, client, server, st.toSend, limit, configured, net(rounds - 1));
        RoundIsRun(e, client, server, st.toSend, st.stats, limit, configured, net(rounds - 1));
        RoundOnlyExchanges(e, client, server, st.toSend, limit, configured, net(rounds - 1));
        AfterAppend(s, steps, more);
        if Inv(s) {
          RunKeepsInv(s, steps);
        }
        var next := Round(st, limit, PullLimit(limit, configured), net(rounds - 1));
        assert st == State(e.logs[client], e.logs[server], st.toSend, st.stats, Running);
        assert e.logs[client := next.client][server := next.server] == s.logs[client := next.client][server := next.server];
        steps := steps + more;
      }
    }
  }

  /** `SyncPeer` between two nodes of a system, whatever the transport does with its calls, is
      a run of the network. In a reachable system its rejected and dropped counts are 0. */
  lemma SyncIsRun(s: System, client: NodeId, server: NodeId, limit: int, configured: int, maxRounds: int,
                  net: nat -> Delivery)
    returns (steps: seq<Step>)
    requires client in s.logs && server in s.logs && client != server
    ensures var end := Sync(s.logs[client], s.logs[server], limit, configured, maxRounds, net);
      && After(s, steps).logs == s.logs[client := end.client][server := end.server]
      && (Inv(s) ==> end.stats.rejected == 0 && end.stats.dropped == 0)
    ensures OnlyExchange(steps)
  {
    hide After, Inv, Run, PullLimit;
    steps := SessionIsRun(s, client, server, ClientLimit(limit), configured, ClientRounds(maxRounds), net);
  }
}
