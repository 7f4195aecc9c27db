/** Changing a vote: what a later vote does to a status, and how a quorum can be lost after it
    was certified. */
module Ballot {
  import opened Consensus
  import opened Log
  import opened Operations
  import opened Quorum
  import opened Sorting
  import opened Strings

  /** A vote above every earlier vote of its author on the proposal. */
  ghost predicate LatestVote(log: Ops, op: Operation, id: string) {
    IsVote(op, id) && forall p :: p in log && IsVote(p, id) && p.author == op.author ==> p.seqNo < op.seqNo
  }

  lemma VotesAfter(log: Ops, op: Operation, id: string, a: NodeId, decision: string)
    requires WellFormed(log + [op]) && LatestVote(log, op, id)
    ensures a == op.author && (decision == "yes" || decision == "no") ==>
      (Votes(log + [op], id, a, decision) <==> op.payload.vote.decision == decision)
    ensures a != op.author ==> (Votes(log + [op], id, a, decision) <==> Votes(log, id, a, decision))
  {
    hide WellFormed;
    if a == op.author {
      assert op in log + [op];
      assert Votes(log + [op], id, a, op.payload.vote.decision);
      if Votes(log + [op], id, a, "yes") {
        OneHighestVote(log + [op], id, a);
      }
    } else {
      if Votes(log, id, a, decision) {
        VoteKept(log, op, id, a, decision);
      }
      if Votes(log + [op], id, a, decision) {
        var o :| o in log + [op] && IsVote(o, id) && o.author == a && o.payload.vote.decision == decision
          && forall p :: p in log + [op] && IsVote(p, id) && p.author == a ==> p.seqNo <= o.seqNo;
        assert o in log && forall p :: p in log ==> p in log + [op];
      }
    }
  }

  /** The status still stands, on the same proposal, under the same configuration. */
  lemma StatusStands(log: Ops, op: Operation, node: NodeId, file: ConfigFile, pid: string, now: int)
    requires WellFormed(log) && WellFormed(log + [op]) && StatusOf(log, node, file, pid, now).Ok? && op.payload.Vote?
    ensures StatusOf(log + [op], node, file, pid, now).Ok?
    ensures StatusOf(log + [op], node, file, pid, now).value.proposal == StatusOf(log, node, file, pid, now).value.proposal
    ensures StatusOf(log + [op], node, file, pid, now).value.threshold == StatusOf(log, node, file, pid, now).value.threshold
    ensures StatusOf(log + [op], node, file, pid, now).value.certified == StatusOf(log, node, file, pid, now).value.certified
  {
    hide WellFormed, StatusOf, TrimSpace, KeyLess, ShowsCertificate, VotersMean, CountsMean;
    var id, s := TrimSpace(pid), StatusOf(log, node, file, pid, now).value;
    StatusOutcome(log, node, file, pid, now);
    StatusOutcome(log + [op], node, file, pid, now);
    var o :| AboutProposal(log, id, s, o);
    assert o in log + [op];
    StatusMembers(log, node, file, pid, now);
    StatusMembers(log + [op], node, file, pid, now);
    StatusSpec(log, node, file, pid, now);
    StatusSpec(log + [op], node, file, pid, now);
    var t := StatusOf(log + [op], node, file, pid, now).value;
    var r :| AboutProposal(log + [op], id, t, r);
    assert r in log;
    KeyLessAsymmetric(o, r);
    assert forall c :: c in log + [op] && IsCertified(c, id) ==> c in log;
    assert forall c :: c in log ==> c in log + [op];
  }

  lemma KeyLessAsymmetric(x: Operation, y: Operation)
    ensures !(KeyLess(x, y) && KeyLess(y, x))
  {
    LessLaws();
    if KeyLess(x, y) && KeyLess(y, x) {
      if x.author != y.author {
        LessTransitive(x.author, y.author, x.author);
      }
      LessIrreflexive(x.author);
    }
  }

  lemma MembersStand(log: Ops, op: Operation, node: NodeId, file: ConfigFile, pid: string, now: int)
    requires WellFormed(log) && WellFormed(log + [op]) && StatusOf(log, node, file, pid, now).Ok? && op.payload.Vote?
    requires op.author in StatusOf(log, node, file, pid, now).value.members
    ensures StatusOf(log + [op], node, file, pid, now).Ok?
    ensures StatusOf(log + [op], node, file, pid, now).value.members == StatusOf(log, node, file, pid, now).value.members
  {
    hide WellFormed, StatusOf, TrimSpace, StrictlyOrdered, RequiredYes, Less, CertificationMeans, CountsMean,
         VotersMean, MembersMean;
    StatusStands(log, op, node, file, pid, now);
    StatusSpec(log, node, file, pid, now);
    StatusSpec(log + [op], node, file, pid, now);
    StatusMembersMean(log, node, file, pid, now);
    StatusMembersMean(log + [op], node, file, pid, now);
    var s, t := StatusOf(log, node, file, pid, now).value, StatusOf(log + [op], node, file, pid, now).value;
    SameMembers(log, op, node, ReadConfig(file).value, s, t);
    MembersOrdered(log, TrimSpace(pid), s);
    MembersOrdered(log + [op], TrimSpace(pid), t);
    LessOrder();
    StrictlyOrderedUnique(Less, s.members, t.members);
  }

  lemma SameMembers(log: Ops, op: Operation, node: NodeId, cfg: Config, s: ProposalStatus, t: ProposalStatus)
    requires MembersMean(log, node, cfg, s) && MembersMean(log + [op], node, cfg, t)
    requires s.proposal == t.proposal && op.author in s.members
    ensures forall m :: m in s.members <==> m in t.members
  {
    hide TrimSpace, StrictlyOrdered, Less;
    assert Authors(log + [op]) == Authors(log) + {op.author};
  }

  lemma MembersOrdered(log: Ops, id: string, s: ProposalStatus)
    requires VotersMean(log, id, s)
    ensures StrictlyOrdered(Less, s.members)
  {
    hide StrictlyOrdered, Votes, Less;
  }

  /** A later vote of a member moves exactly that member, to the side it names; the members,
      the required count and the certification stay. */
  lemma RevoteMovesOneVoter(log: Ops, op: Operation, node: NodeId, file: ConfigFile, pid: string, now: int)
    requires WellFormed(log) && WellFormed(log + [op]) && StatusOf(log, node, file, pid, now).Ok?
    requires LatestVote(log, op, TrimSpace(pid)) && op.author in StatusOf(log, node, file, pid, now).value.members
    ensures StatusOf(log + [op], node, file, pid, now).Ok?
    ensures var s, t := StatusOf(log, node, file, pid, now).value, StatusOf(log + [op], node, file, pid, now).value;
      && t.members == s.members && t.requiredYes == s.requiredYes && t.certified == s.certified
      && (forall a :: a in t.yesVoters <==> if a == op.author then op.payload.vote.decision == "yes" else a in s.yesVoters)
      && (forall a :: a in t.noVoters <==> if a == op.author then op.payload.vote.decision == "no" else a in s.noVoters)
  {
    hide WellFormed, StatusOf, TrimSpace, StrictlyOrdered, Votes, RequiredYes, Less, IsVote, CertificationMeans;
    var id := TrimSpace(pid);
    Ballots(op, id);
    StatusStands(log, op, node, file, pid, now);
    MembersStand(log, op, node, file, pid, now);
    StatusSpec(log, node, file, pid, now);
    StatusSpec(log + [op], node, file, pid, now);
    var s, t := StatusOf(log, node, file, pid, now).value, StatusOf(log + [op], node, file, pid, now).value;
    forall a ensures
      && (a in t.yesVoters <==> if a == op.author then op.payload.vote.decision == "yes" else a in s.yesVoters)
      && (a in t.noVoters <==> if a == op.author then op.payload.vote.decision == "no" else a in s.noVoters)
    {
      VotesAfter(log, op, id, a, "yes");
      VotesAfter(log, op, id, a, "no");
    }
  }

  lemma Ballots(op: Operation, id: string)
    requires IsVote(op, id)
    ensures op.payload.Vote?
  {
  }

  /** So a bare quorum is lost when one of its voters votes no, and a certificate already
      issued on it still stands. */
  lemma QuorumLost(log: Ops, op: Operation, node: NodeId, file: ConfigFile, pid: string, now: int)
    requires WellFormed(log) && WellFormed(log + [op]) && StatusOf(log, node, file, pid, now).Ok?
    requires LatestVote(log, op, TrimSpace(pid)) && op.payload.vote.decision == "no"
    requires var s := StatusOf(log, node, file, pid, now).value;
      op.author in s.yesVoters && op.author in s.members && |s.yesVoters| == s.requiredYes
    ensures StatusOf(log + [op], node, file, pid, now).Ok?
    ensures var s, t := StatusOf(log, node, file, pid, now).value, StatusOf(log + [op], node, file, pid, now).value;
      s.hasQuorum && !t.hasQuorum && t.certified == s.certified
  {
    hide WellFormed, StatusOf, TrimSpace, StrictlyOrdered, Votes, RequiredYes, Less, IsVote, CertificationMeans,
         LatestVote;
    RevoteMovesOneVoter(log, op, node, file, pid, now);
    StatusSpec(log, node, file, pid, now);
    StatusSpec(log + [op], node, file, pid, now);
    var s, t := StatusOf(log, node, file, pid, now).value, StatusOf(log + [op], node, file, pid, now).value;
    SizeOfDistinct(s.yesVoters);
    SizeOfDistinct(t.yesVoters);
    assert SetOf(t.yesVoters) == SetOf(s.yesVoters) - {op.author};
  }

  // ------------------------------------------------------------------- casting a vote

  /** The vote just cast is its author's latest and says what was asked for; and if the author
      is a member of the next status, it is on that side of the tally and not on the other. */
  lemma CastVoteCounts(view: Ops, log: Ops, node: NodeId, file: ConfigFile, pid: string, decision: string, now: int,
                       reader: NodeId, other: ConfigFile, later: int)
    requires WellFormed(view) && WellFormed(log)
    requires IssuedOp(view, log, node, file, Action.CastVote(pid, decision), now).Ok?
    ensures var op := IssuedOp(view, log, node, file, Action.CastVote(pid, decision), now).value;
      var id, d := TrimSpace(pid), ToLower(TrimSpace(decision));
      && (d == "yes" || d == "no") && WellFormed(log + [op])
      && (Votes(log + [op], id, node, "yes") <==> d == "yes") && (Votes(log + [op], id, node, "no") <==> d == "no")
      && var r := StatusOf(log + [op], reader, other, pid, later);
         r.Ok? && node in r.value.members ==>
           && (d == "yes" ==> node in r.value.yesVoters && node !in r.value.noVoters)
           && (d == "no" ==> node in r.value.noVoters && node !in r.value.yesVoters)
  {
    hide TrimSpace, StatusOf, WellFormed, Extent, ToLower, OutcomeOf, Votes, LocalOp, CountsMean, CertificationMeans,
         StrictlyOrdered, IsVote;
    var op, id := IssuedOp(view, log, node, file, Action.CastVote(pid, decision), now).value, TrimSpace(pid);
    IssuedIsNext(view, log, node, file, Action.CastVote(pid, decision), now);
    VoteMeans(view, log, node, file, pid, decision, now);
    AddOutcome(log, op);
    LatestByExtent(log, op, id);
    VotesAfter(log, op, id, node, "yes");
    VotesAfter(log, op, id, node, "no");
    if StatusOf(log + [op], reader, other, pid, later).Ok? {
      StatusSpec(log + [op], reader, other, pid, later);
    }
  }

  /** An operation that is issued is the node's next. */
  lemma IssuedIsNext(view: Ops, log: Ops, node: NodeId, file: ConfigFile, action: Action, now: int)
    requires WellFormed(log) && IssuedOp(view, log, node, file, action, now).Ok?
    ensures TrimSpace(node) != "" && Extent(log, node) < 0xFFFF_FFFF_FFFF_FFFF
    ensures OutcomeOf(log, IssuedOp(view, log, node, file, action, now).value) == Added
  {
    hide TrimSpace, WellFormed, Extent, OutcomeOf, Issue;
    LocalOpMeans(log, node, now, Issue(view, node, file, action, now).value);
  }

  lemma LatestByExtent(log: Ops, op: Operation, id: string)
    requires op.payload.Vote? && op.payload.vote.proposalId == id
    requires op.payload.vote.decision == "yes" || op.payload.vote.decision == "no"
    requires op.seqNo > Extent(log, op.author)
    ensures LatestVote(log, op, id) && IsVote(op, id)
  {
    hide Extent;
    ExtentIsMax(log, op.author);
  }

  /** Who can count on being a member after voting: anyone, unless the members are listed. */
  lemma VoterIsMember(log: Ops, op: Operation, reader: NodeId, file: ConfigFile, pid: string, now: int)
    requires WellFormed(log + [op]) && StatusOf(log + [op], reader, file, pid, now).Ok?
    ensures ReadConfig(file).Ok?
    ensures op.author in StatusOf(log + [op], reader, file, pid, now).value.members
      <==> ReadConfig(file).value.members == [] || op.author in ReadConfig(file).value.members
  {
    hide TrimSpace, StatusOf, Valid, StrictlyOrdered, ReadConfig;
    StatusMembersMean(log + [op], reader, file, pid, now);
    assert (log + [op])[|log|] == op && op in log + [op] && op.author in Authors(log + [op]);
    ValidIffSigned(op);
  }
}
