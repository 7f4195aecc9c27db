/** Proposals with a time to live: when the status and the GUI call them expired, and what is
    refused from then on. */
module Expiry {
  import opened Consensus
  import opened Executor
  import opened Log
  import opened Operations
  import opened Pending
  import opened Strings
  import Views
  import opened Wrappers

  /** `op` was issued by `ProposeRefUpdate` for this input when the clock read `clock`, and is
      the only proposal under its ID in the log. */
  ghost predicate ProposedAt(log: Ops, op: Operation, input: ProposeRefInput, clock: int) {
    && op in log && op.payload.Proposal? && TrimSpace(op.payload.proposal.proposalId) == op.payload.proposal.proposalId != ""
    && (forall p :: p in log && IsProposal(p, op.payload.proposal.proposalId) ==> p == op)
    && exists view, own, node, file, freshId, now ::
         IssuedOp(view, own, node, file, Propose(DraftOf(input, clock), freshId), now) == Ok(op)
  }

  lemma ProposedExpiry(log: Ops, op: Operation, input: ProposeRefInput, clock: int)
    requires ProposedAt(log, op, input, clock)
    ensures op.payload.proposal.expiresAt == if input.ttl > 0 then Some(clock + input.ttl) else None
  {
    hide TrimSpace, OutcomeOf, Extent;
    var view, own, node, file, freshId, now :|
      IssuedOp(view, own, node, file, Propose(DraftOf(input, clock), freshId), now) == Ok(op);
  }

  lemma StatusAbout(log: Ops, op: Operation, node: NodeId, file: ConfigFile, now: int)
    requires WellFormed(log) && op in log && op.payload.Proposal?
    requires TrimSpace(op.payload.proposal.proposalId) == op.payload.proposal.proposalId != ""
    requires forall p :: p in log && IsProposal(p, op.payload.proposal.proposalId) ==> p == op
    ensures var r, proposal := StatusOf(log, node, file, op.payload.proposal.proposalId, now), op.payload.proposal;
      && (r.Ok? <==> ReadConfig(file).Ok?)
      && (r.Ok? ==> r.value.proposal == proposal)
      && (r.Ok? ==> (r.value.expired <==> proposal.expiresAt.Some? && now > proposal.expiresAt.value))
  {
    hide TrimSpace, StatusOf, WellFormed, ShowsCertificate, KeyLess;
    var pid := op.payload.proposal.proposalId;
    StatusOutcome(log, node, file, pid, now);
    assert IsProposal(op, pid);
    var r := StatusOf(log, node, file, pid, now);
    if r.Ok? {
      var o :| AboutProposal(log, pid, r.value, o);
    }
  }

  /** A proposal made at `clock` with a positive time to live is expired exactly from just after
      `clock + ttl` on, for the status at any node and for the GUI; without one it never is. */
  lemma ExpiresAfterTtl(log: Ops, op: Operation, input: ProposeRefInput, clock: int, node: NodeId, file: ConfigFile,
                        now: int)
    requires WellFormed(log) && ProposedAt(log, op, input, clock) && ReadConfig(file).Ok?
    ensures var r := StatusOf(log, node, file, op.payload.proposal.proposalId, now);
      r.Ok? && (r.value.expired <==> input.ttl > 0 && now > clock + input.ttl)
    ensures forall data: Views.GossipData :: Views.ViewOf(data, op, now).expired <==> input.ttl > 0 && now > clock + input.ttl
  {
    hide TrimSpace, StatusOf, WellFormed, ReadConfig;
    ProposedExpiry(log, op, input, clock);
    StatusAbout(log, op, node, file, now);
    forall data: Views.GossipData
      ensures Views.ViewOf(data, op, now).expired <==> input.ttl > 0 && now > clock + input.ttl
    {
      ViewExpiry(data, op, now);
    }
  }

  lemma ViewExpiry(data: Views.GossipData, op: Operation, now: int)
    requires op.payload.Proposal?
    ensures Views.ViewOf(data, op, now).expired
      <==> op.payload.proposal.expiresAt.Some? && now > op.payload.proposal.expiresAt.value
  {
    hide Views.VotesIn, Views.CertsIn, Views.MemberSet, Views.VoterCount, Views.ViewRequired, Views.Counted;
  }

  /** Expired once, expired for good. */
  lemma ExpiryIsFinal(log: Ops, op: Operation, node: NodeId, file: ConfigFile, now: int,
                      more: Ops, other: NodeId, another: ConfigFile, later: int)
    requires WellFormed(log) && WellFormed(more) && op in log && op in more && op.payload.Proposal? && now <= later
    requires TrimSpace(op.payload.proposal.proposalId) == op.payload.proposal.proposalId != ""
    requires forall p :: (p in log || p in more) && IsProposal(p, op.payload.proposal.proposalId) ==> p == op
    requires ReadConfig(file).Ok? && ReadConfig(another).Ok?
    ensures var r, s := StatusOf(log, node, file, op.payload.proposal.proposalId, now),
                        StatusOf(more, other, another, op.payload.proposal.proposalId, later);
      r.Ok? && s.Ok? && (r.value.expired ==> s.value.expired)
  {
    hide TrimSpace, StatusOf, WellFormed, ReadConfig, IsProposal;
    StatusAbout(log, op, node, file, now);
    StatusAbout(more, op, other, another, later);
  }

  /** While a proposal is open a member can vote on it, and after `clock + ttl` nobody can. */
  lemma VotingEnds(log: Ops, op: Operation, input: ProposeRefInput, clock: int, node: NodeId, file: ConfigFile,
                   decision: string, now: int)
    requires WellFormed(log) && ProposedAt(log, op, input, clock) && ReadConfig(file).Ok?
    requires TrimSpace(node) != "" && Extent(log, node) < 0xFFFF_FFFF_FFFF_FFFF
    requires ToLower(TrimSpace(decision)) == "yes" || ToLower(TrimSpace(decision)) == "no"
    ensures var r := IssuedOp(log, log, node, file, Action.CastVote(op.payload.proposal.proposalId, decision), now);
      if input.ttl > 0 && now > clock + input.ttl then r == Err(Expired) else r.Ok?
  {
    hide TrimSpace, StatusOf, WellFormed, ReadConfig, Extent, ToLower;
    var pid := op.payload.proposal.proposalId;
    ExpiresAfterTtl(log, op, input, clock, node, file, now);
    VoteMeans(log, log, node, file, pid, decision, now);
  }

  /** ... and without force it is not certified any more, and not pushed, certified or not. */
  lemma PushingEnds(st: Progress, op: Operation, input: ProposeRefInput, clock: int, node: NodeId, file: ConfigFile,
                    push: PendingPush, i: nat, world: World)
    requires WellFormed(st.log) && ProposedAt(st.log, op, input, clock) && ReadConfig(file).Ok?
    requires push.proposalId == op.payload.proposal.proposalId && input.ttl > 0 && world.statusAt(i) > clock + input.ttl
    ensures var next := Handle(st, node, file, push, i, world);
      && next.runs == st.runs && next.log == st.log && next.counts.failed == st.counts.failed + 1
  {
    hide TrimSpace, StatusOf, WellFormed, ReadConfig, IssuedOp, Marked, Message, Waiting, EventRecorded;
    ExpiresAfterTtl(st.log, op, input, clock, node, file, world.statusAt(i));
  }
}
