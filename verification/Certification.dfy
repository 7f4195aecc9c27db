/** Certificates over whole runs: what justifies each one, and why two competing proposals
    are never both certified. */
module Certification {
  import opened Consensus
  import opened Journal
  import opened Log
  import opened Network
  import opened Operations
  import opened Quorum
  import opened Sorting
  import opened Strings
  import opened Wrappers

  /** Which configurations the nodes act under: any, or one explicit member list with a
      threshold of at least a half (not necessarily the same threshold everywhere). */
  datatype Policy = AnyConfig | Shared(members: seq<NodeId>)

  predicate Allows(policy: Policy, file: ConfigFile) {
    policy.Shared? ==>
      && ReadConfig(file).Ok?
      && ReadConfig(file).value.members == policy.members != []
      && ReadConfig(file).value.threshold >= 0.5
  }

  ghost predicate Follows(policy: Policy, steps: seq<Step>) {
    forall i :: 0 <= i < |steps| && steps[i].Act? ==> Allows(policy, steps[i].file)
  }

  /** A node's own operation at position `i` is what one of its methods issued, having read
      the first `seen` operations, on the log it had at that moment. */
  ghost predicate Issued(policy: Policy, log: Ops, n: NodeId, i: nat)
    requires i < |log|
  {
    log[i].author == n ==>
      exists seen: nat, file, action, now :: seen <= i && Allows(policy, file)
        && IssuedOp(log[..seen], log[..i], n, file, action, now) == Ok(log[i])
  }

  ghost predicate AllIssued(policy: Policy, logs: Logs) {
    forall n, i :: n in logs && 0 <= i < |logs[n]| ==> Issued(policy, logs[n], n, i)
  }

  lemma IssuedKept(policy: Policy, log: Ops, op: Operation, n: NodeId, i: nat)
    requires i < |log| && Issued(policy, log, n, i)
    ensures Issued(policy, log + [op], n, i)
  {
    hide IssuedOp;
    assert forall k :: 0 <= k <= i ==> (log + [op])[..k] == log[..k];
  }

  lemma AppendKeepsIssued(policy: Policy, logs: Logs, n: NodeId, op: Operation)
    requires n in logs && AllIssued(policy, logs)
    requires op.author == n ==>
      exists seen: nat, file, action, now :: seen <= |logs[n]| && Allows(policy, file)
        && IssuedOp(logs[n][..seen], logs[n], n, file, action, now) == Ok(op)
    ensures AllIssued(policy, logs[n := logs[n] + [op]])
  {
    hide IssuedOp, Allows;
    var later := logs[n := logs[n] + [op]];
    forall m, i | m in later && 0 <= i < |later[m]| ensures Issued(policy, later[m], m, i) {
      if m != n {
        assert Issued(policy, logs[m], m, i);
      } else if i < |logs[n]| {
        assert Issued(policy, logs[n], n, i);
        IssuedKept(policy, logs[n], op, n, i);
      } else {
        assert forall k :: 0 <= k <= i ==> later[n][..k] == logs[n][..k];
        assert logs[n][..i] == logs[n];
      }
    }
  }

  lemma StepKeepsIssued(policy: Policy, s: System, step: Step)
    requires Inv(s) && Enabled(s, step) && AllIssued(policy, s.logs)
    requires step.Act? ==> Allows(policy, step.file)
    ensures AllIssued(policy, Do(s, step).logs)
  {
    hide AllIssued, Core, BatchOk, SummaryOk, Extent, Load, Issue, LocalOp;
    match step
    case Act(node, seen, file, action, now) =>
      var op := IssuedOp(s.logs[node][..seen], s.logs[node], node, file, action, now);
      if op.Ok? {
        AppendKeepsIssued(policy, s.logs, node, op.value);
      }
    case Add(batch) =>
      var log, o := s.logs[batch.dest], batch.ops[0];
      assert BatchOk(s.logs, batch);
      NextIsHeldOrNext(s.logs, batch);
      OwnIsNeverAdded(s.logs, batch);
      if OutcomeOf(log, o) == Outcome.Added {
        AppendKeepsIssued(policy, s.logs, batch.dest, o);
      } else {
        assert Do(s, step).logs == s.logs;
      }
    case Crash(node) =>
      ReopensWithItsLog(s.logs, node);
      assert s.logs[node := s.logs[node]] == s.logs;
    case _ =>
  }

  /** A store never learns one of its own operations from a peer. */
  lemma OwnIsNeverAdded(logs: Logs, batch: Batch)
    requires Core(logs) && BatchOk(logs, batch) && batch.ops != []
    ensures OutcomeOf(logs[batch.dest], batch.ops[0]) == Outcome.Added ==> batch.ops[0].author != batch.dest
  {
    hide Core;
    var log, o := logs[batch.dest], batch.ops[0];
    assert Genuine(logs, o);
    CoreGapless(logs, batch.dest);
    AddOutcome(log, o);
  }

  lemma {:induction false} RunIssued(policy: Policy, nodes: set<NodeId>, steps: seq<Step>)
    requires (forall n :: n in nodes ==> TrimSpace(n) != "") && Follows(policy, steps)
    ensures Inv(After(Init(nodes), steps)) && AllIssued(policy, After(Init(nodes), steps).logs)
  {
    hide Inv, Do, Enabled, Issued, TrimSpace, Allows;
    InitInv(nodes);
    RunKeepsInv(Init(nodes), steps);
    if steps != [] {
      var front, last := steps[..|steps| - 1], steps[|steps| - 1];
      var before := After(Init(nodes), front);
      RunIssued(policy, nodes, front);
      if Enabled(before, last) {
        StepKeepsIssued(policy, before, last);
      }
    }
  }

  // ------------------------------------------------------------- certificate justification

  /** What a certificate says is true of the log it was issued on, for the issuer and under
      its configuration. The membership is the one that votes on the proposal the ID names;
      the voter lists are all the members whose latest votes are yes, and no; the counts are
      those of the membership; and it claims certification exactly when the yes ratio is above
      the configured threshold. */
  ghost predicate Justified(log: Ops, issuer: NodeId, cfg: Config, c: CertificationPayload) {
    exists o, members: seq<NodeId> :: JustifiedBy(log, issuer, cfg, c, o, members)
  }

  ghost predicate JustifiedBy(log: Ops, issuer: NodeId, cfg: Config, c: CertificationPayload, o: Operation,
                              members: seq<NodeId>)
  {
    && LeastProposal(log, c.proposalId, o) && c.epoch == o.payload.proposal.epoch
    && Membership(log, issuer, cfg, o.payload.proposal, members)
    && c.totalVoters == |members| && c.threshold == cfg.threshold
    && Tallied(log, c, members)
  }

  ghost predicate Tallied(log: Ops, c: CertificationPayload, members: seq<NodeId>) {
    && StrictlyOrdered(Less, c.yesVoters) && StrictlyOrdered(Less, c.noVoters)
    && (forall a :: a in c.yesVoters <==> a in members && Votes(log, c.proposalId, a, "yes"))
    && (forall a :: a in c.noVoters <==> a in members && Votes(log, c.proposalId, a, "no"))
    && 0.0 < c.threshold < 1.0 && c.requiredYes == RequiredYes(|members|, c.threshold)
    && (c.certified <==> |c.yesVoters| >= c.requiredYes)
    && (c.certified <==> |c.yesVoters| as real > c.threshold * |members| as real)
  }

  lemma CertJustified(log: Ops, n: NodeId, file: ConfigFile, pid: string, force: bool, now: int)
    requires WellFormed(log) && CertToIssue(log, n, file, pid, force, now).Ok?
    ensures CertToIssue(log, n, file, pid, force, now).value.Cert? && ReadConfig(file).Ok?
    ensures Justified(log, n, ReadConfig(file).value, CertToIssue(log, n, file, pid, force, now).value.cert)
  {
    hide StatusOf, TrimSpace, WellFormed, CertificationMeans, VotersMean, CountsMean, MembersMean, Tallied,
         LeastProposal,
         ShowsCertificate;
    var id := TrimSpace(pid);
    var s, c := StatusOf(log, n, file, pid, now).value, CertToIssue(log, n, file, pid, force, now).value.cert;
    StatusSpec(log, n, file, pid, now);
    StatusMembers(log, n, file, pid, now);
    StatusMembersMean(log, n, file, pid, now);
    StatusOutcome(log, n, file, pid, now);
    var o :| AboutProposal(log, id, s, o);
    StatusTallied(log, s, c);
    MembershipOf(log, n, ReadConfig(file).value, s);
    assert JustifiedBy(log, n, ReadConfig(file).value, c, o, s.members);
  }

  lemma MembershipOf(log: Ops, n: NodeId, cfg: Config, s: Consensus.ProposalStatus)
    requires MembersMean(log, n, cfg, s)
    ensures Membership(log, n, cfg, s.proposal, s.members)
  {
  }

  lemma StatusTallied(log: Ops, s: Consensus.ProposalStatus, c: CertificationPayload)
    requires VotersMean(log, c.proposalId, s) && CountsMean(s)
    requires c.threshold == s.threshold && c.totalVoters == |s.members| && c.requiredYes == s.requiredYes
    requires c.yesVoters == s.yesVoters && c.noVoters == s.noVoters && c.certified == s.hasQuorum
    ensures Tallied(log, c, s.members)
  {
    hide StrictlyOrdered, Votes, RequiredYes, Less;
  }

  lemma IssuedCertJustified(view: Ops, log: Ops, n: NodeId, op: Operation, file: ConfigFile, action: Action, now: int)
    requires WellFormed(view) && op.payload.Cert? && IssuedOp(view, log, n, file, action, now) == Ok(op)
    ensures ReadConfig(file).Ok? && Justified(view, n, ReadConfig(file).value, op.payload.cert)
  {
    hide Justified, CertToIssue, VoteToCast, WellFormed, TrimSpace, OutcomeOf, Extent;
    match action
    case Certify(pid, force) =>
      CertJustified(view, n, file, pid, force, now);
    case CastVote(pid, decision) =>
      VoteIsVote(view, n, file, pid, decision, now);
    case _ =>
  }

  lemma VoteIsVote(log: Ops, n: NodeId, file: ConfigFile, pid: string, decision: string, now: int)
    requires VoteToCast(log, n, file, pid, decision, now).Ok?
    ensures VoteToCast(log, n, file, pid, decision, now).value.Vote?
  {
    hide StatusOf, TrimSpace, ToLower;
  }

  /** In every run, every certificate any store holds was justified by what its issuer's own
      log held when it read the status and by the configuration it then read, `force` or not. */
  lemma {:induction false} CertificatesJustified(policy: Policy, nodes: set<NodeId>, steps: seq<Step>, n: NodeId,
                                                 o: Operation)
    returns (i: nat, seen: nat, file: ConfigFile)
    requires (forall m :: m in nodes ==> TrimSpace(m) != "") && Follows(policy, steps)
    requires n in nodes && n in After(Init(nodes), steps).logs && o in After(Init(nodes), steps).logs[n]
      && o.payload.Cert?
    ensures var logs := After(Init(nodes), steps).logs;
      && o.author in logs && seen <= i < |logs[o.author]| && logs[o.author][i] == o
      && Allows(policy, file) && ReadConfig(file).Ok?
      && Justified(logs[o.author][..seen], o.author, ReadConfig(file).value, o.payload.cert)
  {
    hide After, Core, Justified, Allows, IssuedOp, WellFormed;
    RunIssued(policy, nodes, steps);
    var logs := After(Init(nodes), steps).logs;
    HeldIsGenuine(logs, n, o);
    var own := logs[o.author];
    i :| 0 <= i < |own| && own[i] == o;
    assert Issued(policy, own, o.author, i);
    var k: nat, read, action, now :| k <= i && Allows(policy, read)
      && IssuedOp(own[..k], own[..i], o.author, read, action, now) == Ok(o);
    seen, file := k, read;
    CoreGapless(logs, o.author);
    WellFormedPrefix(own, seen);
    IssuedCertJustified(own[..seen], own[..i], o.author, o, file, action, now);
  }

  // ------------------------------------------------------------------- safety over runs

  /** A member has at some time voted yes: votes are never removed, so it suffices to look
      at the member's own log at the end. */
  ghost predicate EverVotedYes(logs: Logs, a: NodeId, pid: string) {
    a in logs && exists v :: v in logs[a] && v.author == a && IsVote(v, pid) && v.payload.vote.decision == "yes"
  }

  lemma YesVoterVoted(logs: Logs, n: NodeId, i: nat, pid: string, a: NodeId)
    requires Core(logs) && n in logs && i <= |logs[n]| && Votes(logs[n][..i], pid, a, "yes")
    ensures EverVotedYes(logs, a, pid)
  {
    hide Core;
    var log := logs[n][..i];
    var v :| v in log && IsVote(v, pid) && v.author == a && v.payload.vote.decision == "yes"
      && forall p :: p in log && IsVote(p, pid) && p.author == a ==> p.seqNo <= v.seqNo;
    assert v in logs[n];
    HeldIsGenuine(logs, n, v);
  }

  /** Two justified certificates under one explicit member list, each with a threshold of at
      least a half, have a common yes voter. */
  lemma CertifiedQuorumsMeet(members: seq<NodeId>, x: Ops, m: NodeId, cfg: Config, c: CertificationPayload,
                             y: Ops, n: NodeId, other: Config, d: CertificationPayload)
    returns (a: NodeId)
    requires Justified(x, m, cfg, c) && Justified(y, n, other, d) && c.certified && d.certified
    requires cfg.members == other.members == members != [] && cfg.threshold >= 0.5 && other.threshold >= 0.5
    ensures a in members && Votes(x, c.proposalId, a, "yes") && Votes(y, d.proposalId, a, "yes")
  {
    hide StrictlyOrdered, RequiredYes, Votes, Less, Membership, Tallied;
    var o, p :| JustifiedBy(x, m, cfg, c, o, p);
    var r, q :| JustifiedBy(y, n, other, d, r, q);
    ListedMembership(x, m, cfg, o.payload.proposal, p);
    ListedMembership(y, n, other, r.payload.proposal, q);
    YesMajority(x, c, p);
    YesMajority(y, d, q);
    LargeSetsMeet(SetOf(members), SetOf(c.yesVoters), SetOf(d.yesVoters));
    a :| a in SetOf(c.yesVoters) * SetOf(d.yesVoters);
    YesVoterVotes(x, c, p, a);
    YesVoterVotes(y, d, q, a);
  }

  lemma ListedMembership(log: Ops, node: NodeId, cfg: Config, proposal: ProposalPayload, members: seq<NodeId>)
    requires Membership(log, node, cfg, proposal, members) && cfg.members != []
    ensures SetOf(members) == SetOf(cfg.members) && StrictlyOrdered(Less, members) && |members| > 0
  {
    hide StrictlyOrdered, Less, TrimSpace;
  }

  lemma YesMajority(log: Ops, c: CertificationPayload, members: seq<NodeId>)
    requires Tallied(log, c, members) && StrictlyOrdered(Less, members) && |members| > 0 && c.threshold >= 0.5
      && c.certified
    ensures SetOf(c.yesVoters) <= SetOf(members) && 2 * |SetOf(c.yesVoters)| > |SetOf(members)|
  {
    hide StrictlyOrdered, Votes, RequiredYes, Less;
    SizeOfDistinct(members);
    SizeOfDistinct(c.yesVoters);
    RequiredAboveHalf(|members|, c.threshold);
  }

  lemma YesVoterVotes(log: Ops, c: CertificationPayload, members: seq<NodeId>, a: NodeId)
    requires Tallied(log, c, members) && a in c.yesVoters
    ensures a in members && Votes(log, c.proposalId, a, "yes")
  {
    hide StrictlyOrdered, Votes, RequiredYes, Less;
  }

  /** Once a store holds an operation it holds it for the rest of the run. */
  lemma {:induction false} HeldForever(nodes: set<NodeId>, steps: seq<Step>, i: nat, n: NodeId, o: Operation)
    requires (forall m :: m in nodes ==> TrimSpace(m) != "") && i <= |steps|
    requires n in After(Init(nodes), steps[..i]).logs && o in After(Init(nodes), steps[..i]).logs[n]
    ensures n in After(Init(nodes), steps).logs && o in After(Init(nodes), steps).logs[n]
  {
    hide After, Inv;
    InitInv(nodes);
    AfterSplit(Init(nodes), steps, i);
    RunKeepsInv(Init(nodes), steps[..i]);
    RunKeepsInv(After(Init(nodes), steps[..i]), steps[i..]);
  }

  /** Certification safety. Let every node act under one explicit member list with a
      threshold of at least a half. In any run, if certificates for two different proposals
      are held as certified anywhere, at any two times, then some member has voted yes on both. */
  lemma CompetingCertificatesShareAVoter(members: seq<NodeId>, nodes: set<NodeId>, steps: seq<Step>, p: string,
                                         q: string,
                                         i: nat, m: NodeId, o: Operation, j: nat, n: NodeId, r: Operation)
    returns (voter: NodeId)
    requires (forall x :: x in nodes ==> TrimSpace(x) != "") && Follows(Shared(members), steps)
    requires i <= |steps| && j <= |steps| && m in nodes && n in nodes
    requires m in After(Init(nodes), steps[..i]).logs && o in After(Init(nodes), steps[..i]).logs[m]
      && IsCertified(o, p)
    requires n in After(Init(nodes), steps[..j]).logs && r in After(Init(nodes), steps[..j]).logs[n]
      && IsCertified(r, q)
    ensures var logs := After(Init(nodes), steps).logs;
      voter in members && EverVotedYes(logs, voter, p) && EverVotedYes(logs, voter, q)
  {
    hide After, Core, Justified, Follows, EverVotedYes, Votes;
    HeldForever(nodes, steps, i, m, o);
    HeldForever(nodes, steps, j, n, r);
    InitInv(nodes);
    RunKeepsInv(Init(nodes), steps);
    var logs := After(Init(nodes), steps).logs;
    var _, x, file := CertificatesJustified(Shared(members), nodes, steps, m, o);
    var _, y, other := CertificatesJustified(Shared(members), nodes, steps, n, r);
    voter := CertifiedQuorumsMeet(
      members, logs[o.author][..x], o.author, ReadConfig(file).value, o.payload.cert,
      logs[r.author][..y], r.author, ReadConfig(other).value, r.payload.cert);
    YesVoterVoted(logs, o.author, x, p, voter);
    YesVoterVoted(logs, r.author, y, q, voter);
  }

  /** So if no member ever votes yes on both, at most one of them is ever certified. */
  lemma {:induction false} AtMostOneCertified(members: seq<NodeId>, nodes: set<NodeId>, steps: seq<Step>, p: string,
                                              q: string)
    requires (forall x :: x in nodes ==> TrimSpace(x) != "") && Follows(Shared(members), steps)
    requires var logs := After(Init(nodes), steps).logs;
      forall a :: a in members ==> !(EverVotedYes(logs, a, p) && EverVotedYes(logs, a, q))
    ensures !exists i, m, o, j, n, r ::
      && 0 <= i <= |steps| && 0 <= j <= |steps|
      && CertifiedAt(nodes, steps, i, m, o, p) && CertifiedAt(nodes, steps, j, n, r, q)
  {
    hide After, Follows, EverVotedYes, IsCertified;
    if i, m, o, j, n, r :|
      && 0 <= i <= |steps| && 0 <= j <= |steps|
      && CertifiedAt(nodes, steps, i, m, o, p) && CertifiedAt(nodes, steps, j, n, r, q)
    {
      var voter := CompetingCertificatesShareAVoter(members, nodes, steps, p, q, i, m, o, j, n, r);
      assert false;
    }
  }

  ghost predicate CertifiedAt(nodes: set<NodeId>, steps: seq<Step>, i: nat, n: NodeId, o: Operation, pid: string)
    requires i <= |steps|
  {
    var logs := After(Init(nodes), steps[..i]).logs;
    n in nodes && n in logs && o in logs[n] && IsCertified(o, pid)
  }
}
