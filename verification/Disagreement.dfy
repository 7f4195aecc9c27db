/** Inputs on which the GUI and the status command disagree: a membership, on a written-out log,
    and a certification, in a written-out run of two nodes under one configuration. */
module Disagreement {
  import opened Consensus
  import Executor
  import opened Gossip
  import opened Log
  import opened Network
  import opened Operations
  import opened Quorum
  import Recorder
  import opened Session
  import opened SessionRuns
  import opened Sorting
  import opened Strings
  import opened Views
  import opened Wrappers

  // ------------------------------------------------------------------- membership

  /** Node "a" has proposed to update a ref named like node "b". */
  function RefNamedB(): Operation {
    Sign("a", 1, 0, Proposal(ProposalPayload("p", "b", "", "c1", 0, None)))
  }

  /** On a log that holds only that proposal, node "b" counts itself in the GUI and not in the
      status: two voters against one. */
  lemma MembershipsDiffer()
    ensures var data := ReadGossip("b", [RefNamedB()], Config(0.5, []));
      var members := MembersOf(SortedOps([RefNamedB()]), "b", "a", RefNamedB().payload.proposal, Config(0.5, []));
      && WellFormed([RefNamedB()])
      && SetOf(members) == {"a"} && MemberSet(data) == {"a", "b"} && VoterCount(data) == 2
  {
    hide TrimSpace, SortedOps, MembersOf;
    var log, cfg := [RefNamedB()], Config(0.5, []);
    Named();
    ValidIffSigned(RefNamedB());
    MembersSpec(log, "b", cfg, RefNamedB());
    var data := ReadGossip("b", log, cfg);
    assert Authors(log) == {"a"};
    assert KnownAuthors(data) == {"a", "b"};
  }

  lemma Named()
    ensures TrimSpace("a") == "a" && TrimSpace("b") == "b" && TrimSpace("p") == "p"
    ensures TrimSpace("consensus.proposal") != "" && TrimSpace("consensus.vote") != ""
      && TrimSpace("consensus.cert") != ""
    ensures TrimSpace("refs/heads/main") == "refs/heads/main" && TrimSpace("c1") == "c1" && TrimSpace("") == ""
    ensures TrimSpace("yes") == "yes"
  {
    hide TrimSpace;
    Untrimmed("a");
    Untrimmed("b");
    Untrimmed("p");
    Untrimmed("consensus.proposal");
    Untrimmed("consensus.vote");
    Untrimmed("consensus.cert");
    Untrimmed("refs/heads/main");
    Untrimmed("c1");
    Untrimmed("");
    Untrimmed("yes");
  }

  // ------------------------------------------------------------------ certification

  /** A certificate that arrives after a certified one and is not certified hides it. */
  lemma LaterCertificateHides(log: Ops, more: Ops, pid: string)
    requires HoldsCertified(log, pid)
    requires exists r :: r in more && IsCert(r, pid)
    requires forall r :: r in more && IsCert(r, pid) ==> !r.payload.cert.certified
    ensures HoldsCertified(log + more, pid) && !FileCertified(log + more, pid)
  {
    var o :| o in log && IsCertified(o, pid);
    assert o in log + more;
    LastIsLate(log, more, CertFor(pid));
    LastMatches(more, CertFor(pid));
    var r :| r in more && IsCert(r, pid);
    assert CertFor(pid).Matches(r);
  }

  lemma {:induction false} LastIsLate(log: Ops, more: Ops, q: Query)
    ensures Last(log + more, q) == if Last(more, q).Some? then Last(more, q) else Last(log, q)
  {
    if more == [] {
      assert log + more == log;
    } else {
      LastIsLate(log, more[..|more| - 1], q);
      assert (log + more)[..|log + more| - 1] == log + more[..|more| - 1];
    }
  }

  /** Both nodes act under one configuration: "a" is the whole membership. */
  function OnlyA(): ConfigFile {
    Saved(Config(0.5, ["a"]))
  }

  function Draft(): ProposalPayload {
    ProposalPayload("p", "refs/heads/main", "", "c1", 0, None)
  }

  function Proposed(): Operation {
    Sign("a", 1, 0, Proposal(Draft()))
  }

  function VotedYes(): Operation {
    Sign("a", 2, 0, Vote(VotePayload("p", 0, "yes")))
  }

  lemma OnlyAReads()
    ensures ReadConfig(OnlyA()) == Ok(Config(0.5, ["a"])) && ConfigIn(OnlyA()) == Config(0.5, ["a"])
  {
    hide TrimSpace, Quorum.Normalize;
    Named();
    NormalizedIsFixed(Config(0.5, ["a"]));
  }

  lemma FirstLogs()
    ensures WellFormed([Proposed()]) && WellFormed([Proposed(), VotedYes()])
    ensures Extent([], "a") == 0 && Extent([Proposed()], "a") == 1 && Extent([Proposed(), VotedYes()], "a") == 2
    ensures Extent([Proposed()], "b") == 0
  {
    hide TrimSpace;
    Named();
    ValidIffSigned(Proposed());
    ValidIffSigned(VotedYes());
    assert [Proposed()][..0] == [] && [Proposed(), VotedYes()][..1] == [Proposed()];
  }

  lemma ProposeIssues()
    ensures IssuedOp([], [], "a", OnlyA(), Propose(Draft(), ""), 0) == Ok(Proposed())
  {
    hide TrimSpace, OutcomeOf, Extent;
    Named();
    FirstLogs();
    LocalOpSpec([], "a", 0, Proposal(Draft()));
  }

  lemma StatusStarts(log: Ops, node: NodeId)
    requires WellFormed(log) && Proposed() in log && forall o :: o in log && IsProposal(o, "p") ==> o == Proposed()
    ensures StatusOf(log, node, OnlyA(), "p", 0).Ok?
    ensures !StatusOf(log, node, OnlyA(), "p", 0).value.expired
    ensures StatusOf(log, node, OnlyA(), "p", 0).value.proposal == Draft()
    ensures StatusOf(log, node, OnlyA(), "p", 0).value.members == ["a"]
  {
    hide TrimSpace, StatusOf, WellFormed, ShowsCertificate, KeyLess, ReadConfig;
    Named();
    OnlyAReads();
    assert IsProposal(Proposed(), "p");
    StatusOutcome(log, node, OnlyA(), "p", 0);
    var s := StatusOf(log, node, OnlyA(), "p", 0).value;
    var o :| AboutProposal(log, "p", s, o);
    StatusMembers(log, node, OnlyA(), "p", 0);
  }

  lemma ProposalAlone()
    ensures Proposed() in [Proposed()] && forall o :: o in [Proposed()] && IsProposal(o, "p") ==> o == Proposed()
    ensures Proposed() in [Proposed(), VotedYes()]
    ensures forall o :: o in [Proposed(), VotedYes()] && IsProposal(o, "p") ==> o == Proposed()
  {
    assert [Proposed(), VotedYes()][0] == Proposed();
  }

  lemma VoteIssues()
    ensures IssuedOp([Proposed()], [Proposed()], "a", OnlyA(), Action.CastVote("p", "yes"), 0) == Ok(VotedYes())
  {
    hide TrimSpace, OutcomeOf, Extent, StatusOf, WellFormed;
    Named();
    FirstLogs();
    ProposalAlone();
    StatusStarts([Proposed()], "a");
    assert ToLower("yes") == "yes" by { LowerDecision("yes"); }
    LocalOpSpec([Proposed()], "a", 0, Vote(VotePayload("p", 0, "yes")));
  }

  /** "a" certifies on its own vote. */
  lemma CertificateIssues() returns (cert: Operation)
    ensures IssuedOp([Proposed(), VotedYes()], [Proposed(), VotedYes()], "a", OnlyA(), Certify("p", false), 0) == Ok(cert)
    ensures IsCertified(cert, "p")
  {
    hide TrimSpace, OutcomeOf, Extent, StatusOf, WellFormed, LocalOp, ReadConfig, Votes;
    var log := [Proposed(), VotedYes()];
    Named();
    FirstLogs();
    OnlyAReads();
    ProposalAlone();
    assert Votes(log, "p", "a", "yes") by { AVotes(); }
    Recorder.ReadyAloneIsCertified(log, "a", OnlyA(), "p", 0);
    Recorder.IssuesIff(log, "a", OnlyA(), "p", 0);
    Executor.UnforcedCertCertifies(log, "a", OnlyA(), "p", 0);
    cert := IssuedOp(log, log, "a", OnlyA(), Certify("p", false), 0).value;
  }

  lemma AVotes()
    ensures Votes([Proposed(), VotedYes()], "p", "a", "yes")
  {
    var log := [Proposed(), VotedYes()];
    assert log[1] == VotedYes() && VotedYes() in log;
    assert forall o :: o in log && IsVote(o, "p") ==> o == VotedYes();
  }

  lemma NobodyVotes()
    ensures forall a :: !Votes([Proposed()], "p", a, "yes")
    ensures forall o :: o in [Proposed()] ==> !IsCertified(o, "p")
  {
  }

  /** "b" has not heard of the vote: it counts nobody. */
  lemma NoVotes()
    ensures StatusOf([Proposed()], "b", OnlyA(), "p", 0).Ok?
    ensures var s := StatusOf([Proposed()], "b", OnlyA(), "p", 0).value;
      !s.hasQuorum && s.certifiedOpId.None? && s.proposal == Draft()
  {
    hide TrimSpace, StatusOf, WellFormed, RequiredYes, StrictlyOrdered, Votes, Less;
    var log := [Proposed()];
    Named();
    FirstLogs();
    ProposalAlone();
    NobodyVotes();
    StatusStarts(log, "b");
    StatusSpec(log, "b", OnlyA(), "p", 0);
    var s := StatusOf(log, "b", OnlyA(), "p", 0).value;
    SizeOfDistinct(s.yesVoters);
    assert SetOf(s.yesVoters) == {};
  }

  /** So it can certify by force only. */
  lemma ForcedIssues() returns (forced: Operation)
    ensures IssuedOp([Proposed()], [Proposed()], "b", OnlyA(), Certify("p", true), 0) == Ok(forced)
    ensures IsCert(forced, "p") && !forced.payload.cert.certified && forced.author == "b"
  {
    hide TrimSpace, OutcomeOf, Extent, StatusOf, WellFormed, RequiredYes;
    var log := [Proposed()];
    Named();
    FirstLogs();
    NoVotes();
    var payload := CertToIssue(log, "b", OnlyA(), "p", true, 0);
    LocalOpSpec(log, "b", 0, payload.value);
    forced := LocalOp(log, "b", 0, payload.value).value;
  }

  // ------------------------------------------------------------- the run of two nodes

  lemma ActRun(s: System, n: NodeId, action: Action, op: Operation)
    requires n in s.logs && IssuedOp(s.logs[n], s.logs[n], n, OnlyA(), action, 0) == Ok(op)
    ensures After(s, [Act(n, |s.logs[n]|, OnlyA(), action, 0)]).logs == s.logs[n := s.logs[n] + [op]]
  {
    hide IssuedOp, After;
    assert s.logs[n][..|s.logs[n]|] == s.logs[n];
    AfterOne(s, Act(n, |s.logs[n]|, OnlyA(), action, 0));
  }

  lemma {:induction false} NewerSize(ops: Ops, summary: Summary)
    ensures |Newer(ops, summary)| <= |ops|
  {
    if ops != [] {
      NewerSize(ops[..|ops| - 1], summary);
    }
  }

  /** `client` syncs with `server` under the default limits, and nothing is lost. */
  function Default(client: NodeId, server: NodeId): Meeting {
    Meeting(client, server, 0, 0, 0, _ => Delivered)
  }

  lemma DefaultIsLongEnough(logs: Logs, client: NodeId, server: NodeId)
    requires client in logs && server in logs && client != server && |logs[client]| <= 100 && |logs[server]| <= 100
    ensures LongEnough(logs, Default(client, server))
  {
    hide SummaryOf;
    NewerSize(SortedOps(logs[server]), SummaryOf(logs[client]));
    NewerSize(SortedOps(logs[client]), SummaryOf(logs[server]));
    SortElements(KeyLess, logs[client]);
    SortElements(KeyLess, logs[server]);
  }

  /** One default session, as a run: both end with the union, each log extended. */
  lemma MeetRun(nodes: set<NodeId>, steps: seq<Step>, client: NodeId, server: NodeId) returns (more: seq<Step>)
    requires (forall x :: x in nodes ==> TrimSpace(x) != "") && client in nodes && server in nodes && client != server
    requires var logs := After(Init(nodes), steps).logs;
      client in logs && server in logs && |logs[client]| <= 100 && |logs[server]| <= 100
    ensures var logs, later := After(Init(nodes), steps).logs, After(Init(nodes), steps + more).logs;
      && client in later && server in later && logs[client] <= later[client] && logs[server] <= later[server]
      && WellFormed(later[client]) && WellFormed(later[server])
      && (forall o :: o in later[client] <==> o in logs[client] || o in logs[server])
      && (forall o :: o in later[server] <==> o in logs[client] || o in logs[server])
    ensures OnlyExchange(more)
  {
    hide After, Run, LongEnough, Inv, OnlyExchange, Core, WellFormed;
    var s, m := After(Init(nodes), steps), Default(client, server);
    DefaultIsLongEnough(s.logs, client, server);
    MeetingUnites(nodes, steps, m);
    more := SyncIsRun(s, client, server, m.limit, m.configured, m.maxRounds, m.net);
    AfterAppend(Init(nodes), steps, more);
    RunElements(Start(s.logs[client], s.logs[server]), ClientLimit(m.limit), PullLimit(ClientLimit(m.limit), m.configured), m.net,
                ClientRounds(m.maxRounds));
    InitInv(nodes);
    RunKeepsInv(Init(nodes), steps + more);
    HoldsWell(After(Init(nodes), steps + more), client);
    HoldsWell(After(Init(nodes), steps + more), server);
  }

  lemma HoldsWell(s: System, n: NodeId)
    requires Inv(s) && n in s.logs
    ensures WellFormed(s.logs[n])
  {
    hide Core, WellFormed;
    CoreGapless(s.logs, n);
  }

  lemma OneElement(log: Ops, o: Operation)
    requires WellFormed(log) && forall p :: p in log <==> p == o
    ensures log == [o]
  {
    hide Valid;
    assert o in log;
    forall i | 0 <= i < |log| ensures log[i] == o {
      assert log[i] in log;
    }
    assert |log| > 1 ==> SameKey(log[0], log[1]);
  }

  lemma ABNamed(nodes: set<NodeId>)
    requires nodes == {"a", "b"}
    ensures forall x :: x in nodes ==> TrimSpace(x) != ""
  {
    Named();
  }

  lemma FirstStep()
    ensures After(Init({"a", "b"}), [Act("a", 0, OnlyA(), Propose(Draft(), ""), 0)]).logs == map["a" := [Proposed()], "b" := []]
  {
    hide After, IssuedOp;
    var s := Init({"a", "b"});
    ProposeIssues();
    ActRun(s, "a", Propose(Draft(), ""), Proposed());
    assert [] + [Proposed()] == [Proposed()];
    assert s.logs["a" := [Proposed()]] == map["a" := [Proposed()], "b" := []];
  }

  /** "a" proposes, and "b" syncs with it. */
  lemma Shared() returns (steps: seq<Step>)
    ensures After(Init({"a", "b"}), steps).logs == map["a" := [Proposed()], "b" := [Proposed()]]
    ensures UnderOnlyA(steps)
  {
    hide After, Init, IssuedOp, WellFormed, OnlyExchange, OnlyA, Proposed;
    var nodes := {"a", "b"};
    ABNamed(nodes);
    FirstStep();
    var first := [Act("a", 0, OnlyA(), Propose(Draft(), ""), 0)];
    var more := MeetRun(nodes, first, "b", "a");
    steps := first + more;
    StoresAre(nodes, steps);
    var later := After(Init(nodes), steps).logs;
    OneElement(later["a"], Proposed());
    OneElement(later["b"], Proposed());
    assert later == map["a" := [Proposed()], "b" := [Proposed()]];
    UnderBoth(first, more);
  }

  /** Every step a node takes on its own is under the one configuration. */
  ghost predicate UnderOnlyA(steps: seq<Step>) {
    forall i :: 0 <= i < |steps| && steps[i].Act? ==> steps[i].file == OnlyA()
  }

  lemma UnderBoth(x: seq<Step>, more: seq<Step>)
    requires UnderOnlyA(x) && OnlyExchange(more)
    ensures UnderOnlyA(x + more)
  {
  }

  /** ... then "a" votes and certifies, and "b" certifies by force. */
  lemma Certified() returns (steps: seq<Step>, cert: Operation, forced: Operation)
    ensures After(Init({"a", "b"}), steps).logs
      == map["a" := [Proposed(), VotedYes(), cert], "b" := [Proposed(), forced]]
    ensures IsCertified(cert, "p") && IsCert(forced, "p") && !forced.payload.cert.certified && UnderOnlyA(steps)
  {
    hide After, IssuedOp, IsCertified, IsCert;
    var nodes := {"a", "b"};
    steps := Shared();
    var s := After(Init(nodes), steps);
    VoteIssues();
    ActRun(s, "a", Action.CastVote("p", "yes"), VotedYes());
    var vote := [Act("a", 1, OnlyA(), Action.CastVote("p", "yes"), 0)];
    AfterAppend(Init(nodes), steps, vote);
    steps := steps + vote;
    s := After(Init(nodes), steps);
    assert [Proposed()] + [VotedYes()] == [Proposed(), VotedYes()];
    cert := CertificateIssues();
    ActRun(s, "a", Certify("p", false), cert);
    var certify := [Act("a", 2, OnlyA(), Certify("p", false), 0)];
    AfterAppend(Init(nodes), steps, certify);
    steps := steps + certify;
    s := After(Init(nodes), steps);
    assert [Proposed(), VotedYes()] + [cert] == [Proposed(), VotedYes(), cert];
    forced := ForcedIssues();
    ActRun(s, "b", Certify("p", true), forced);
    var force := [Act("b", 1, OnlyA(), Certify("p", true), 0)];
    AfterAppend(Init(nodes), steps, force);
    steps := steps + force;
    assert [Proposed()] + [forced] == [Proposed(), forced];
  }

  /** In a run of two nodes under one configuration, whose whole membership is "a", the status
      command reports the proposal certified at "a" while the GUI does not: "a" has certified it,
      and a sync then brings the certificate "b" had issued by force before it heard of the vote. */
  lemma CertificationsDiffer() returns (steps: seq<Step>)
    ensures UnderOnlyA(steps)
    ensures var logs := After(Init({"a", "b"}), steps).logs;
      "a" in logs && CertificationHidden(logs["a"])
  {
    hide After, IsCertified, IsCert, WellFormed, HoldsCertified, FileCertified, StatusOf, ViewOf, ReadGossip,
         OnlyExchange,
         VotersMean, CountsMean;
    var nodes := {"a", "b"};
    ABNamed(nodes);
    Named();
    var before, cert, forced := Certified();
    var more := MeetRun(nodes, before, "a", "b");
    steps := before + more;
    UnderBoth(before, more);
    var start := [Proposed(), VotedYes(), cert];
    var log := After(Init(nodes), steps).logs["a"];
    HiddenIn(start, log, cert, forced);
    StatusAtA(log);
  }

  ghost predicate CertificationHidden(log: Ops) {
    var r := StatusOf(log, "a", OnlyA(), "p", 0);
    && Proposed() in log && r.Ok? && r.value.certified
    && !ViewOf(ReadGossip("a", log, ConfigIn(OnlyA())), Proposed(), 0).certified
  }

  lemma HiddenIn(start: Ops, log: Ops, cert: Operation, forced: Operation)
    requires start == [Proposed(), VotedYes(), cert] && start <= log && WellFormed(log)
    requires forall o :: o in log <==> o in start || o in [Proposed(), forced]
    requires IsCertified(cert, "p") && IsCert(forced, "p") && !forced.payload.cert.certified
    ensures HoldsCertified(log, "p") && !FileCertified(log, "p")
    ensures forall o :: o in log && IsProposal(o, "p") ==> o == Proposed()
    ensures Proposed() in log
  {
    hide FileCertified, WellFormed, IsCertified, IsCert;
    var rest := log[|start|..];
    assert log == start + rest;
    assert start[2] == cert && cert in start && start[0] == Proposed();
    NotInStart(start, cert, forced);
    RestIsForced(start, log, forced);
    assert HoldsCertified(start, "p");
    LaterCertificateHides(start, rest, "p");
    ProposalsInStart(start, cert, forced);
  }

  lemma NotInStart(start: Ops, cert: Operation, forced: Operation)
    requires start == [Proposed(), VotedYes(), cert]
    requires IsCertified(cert, "p") && IsCert(forced, "p") && !forced.payload.cert.certified
    ensures forced !in start
  {
  }

  lemma ProposalsInStart(start: Ops, cert: Operation, forced: Operation)
    requires start == [Proposed(), VotedYes(), cert] && IsCertified(cert, "p") && IsCert(forced, "p")
    ensures forall o :: (o in start || o in [Proposed(), forced]) && IsProposal(o, "p") ==> o == Proposed()
  {
  }

  lemma RestIsForced(start: Ops, log: Ops, forced: Operation)
    requires start != [] && start <= log && WellFormed(log) && forced !in start
    requires forall o :: o in log <==> o in start || o in [start[0], forced]
    ensures forced in log[|start|..] && forall o :: o in log[|start|..] ==> o == forced
  {
    hide Valid;
    var rest := log[|start|..];
    assert log == start + rest && start[0] in start;
    KeysDistinct(log);
    forall o | o in rest ensures o == forced {
      var i :| 0 <= i < |rest| && rest[i] == o;
      assert log[|start| + i] == o && o in log;
      forall j | 0 <= j < |start| ensures start[j] != o {
        assert log[j] == start[j];
      }
    }
    assert forced in [start[0], forced];
  }

  lemma StatusAtA(log: Ops)
    requires WellFormed(log) && Proposed() in log && HoldsCertified(log, "p") && !FileCertified(log, "p")
    requires forall o :: o in log && IsProposal(o, "p") ==> o == Proposed()
    ensures CertificationHidden(log)
  {
    hide StatusOf, ViewOf, ReadGossip, WellFormed, FileCertified, VotersMean, CountsMean, TrimSpace, IsCertified;
    Named();
    StatusStarts(log, "a");
    StatusSpec(log, "a", OnlyA(), "p", 0);
    ViewShowsLastCertificate(log, "a", ConfigIn(OnlyA()), 0, Proposed(), "p");
  }
}
