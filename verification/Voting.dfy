/** Proposal status, voting and certification over a store (gossip/consensus.go). Each
    method is proved against the functions of `Consensus`. */
module Voting {
  import opened Consensus
  import opened Journal
  import opened Log
  import opened Operations
  import opened Quorum
  import opened Sorting
  import opened Store
  import opened Strings
  import opened Wrappers

  /** Collect a set in whatever order it iterates, then sort. */
  method SortedList(ids: set<NodeId>) returns (r: seq<NodeId>)
    ensures r == SortedIds(ids)
  {
    hide Less, SortedIds;
    r := [];
    var left := ids;
    while left != {}
      invariant left <= ids && Distinct(r)
      invariant forall x :: x in r <==> x in ids && x !in left
      decreases left
    {
      var x :| x in left;
      r := r + [x];
      left := left - {x};
    }
    DistinctSorted(r);
    r := Sort(Less, r);
    LessOrder();
    StrictlyOrderedUnique(Less, r, SortedIds(ids));
  }

  /** The voting membership: as configured, else everyone known. */
  method Members(ops: Ops, node: NodeId, proposer: NodeId, proposal: ProposalPayload, cfg: Config)
    returns (members: seq<NodeId>)
    ensures members == MembersOf(ops, node, proposer, proposal, cfg)
  {
    hide SortedIds, TrimSpace;
    if cfg.members != [] {
      return cfg.members;
    }
    var memberSet := {node, proposer, proposal.ref, proposal.newOid};
    memberSet := memberSet - {proposal.ref};
    memberSet := memberSet - {proposal.newOid};
    ghost var kept := memberSet;
    for i := 0 to |ops|
      invariant memberSet == kept + Authors(ops[..i])
    {
      assert ops[..i + 1] == ops[..i] + [ops[i]];
      memberSet := memberSet + {ops[i].author};
    }
    assert ops[..|ops|] == ops;
    var named := set m | m in memberSet && TrimSpace(m) != "";
    assert named == Discovered(ops, node, proposer, proposal);
    members := SortedList(named);
  }

  /** The latest readable vote of each member, split by decision. */
  method CountVotes(ops: Ops, members: seq<NodeId>, pid: string) returns (yes: seq<NodeId>, no: seq<NodeId>)
    ensures var votes := LatestVotes(ops, SetOf(members), pid);
      yes == SortedIds(VotersFor(votes, "yes")) && no == SortedIds(VotersFor(votes, "no"))
  {
    hide SortedIds;
    var memberSet := {};
    for i := 0 to |members|
      invariant memberSet == SetOf(members[..i])
    {
      assert members[..i + 1] == members[..i] + [members[i]];
      memberSet := memberSet + {members[i]};
    }
    assert members[..|members|] == members;
    var latestVoteByAuthor: map<NodeId, string> := map[];
    for i := 0 to |ops|
      invariant latestVoteByAuthor == LatestVotes(ops[..i], memberSet, pid)
    {
      assert ops[..i + 1][..i] == ops[..i];
      var op := ops[i];
      if IsVote(op, pid) && op.author in memberSet {
        latestVoteByAuthor := latestVoteByAuthor[op.author := op.payload.vote.decision];
      }
    }
    assert ops[..|ops|] == ops;
    var yesVoters, noVoters := {}, {};
    var left := latestVoteByAuthor.Keys;
    while left != {}
      invariant left <= latestVoteByAuthor.Keys
      invariant yesVoters == set a | a in latestVoteByAuthor && a !in left && latestVoteByAuthor[a] == "yes"
      invariant noVoters == set a | a in latestVoteByAuthor && a !in left && latestVoteByAuthor[a] == "no"
      decreases left
    {
      var author :| author in left;
      if latestVoteByAuthor[author] == "yes" {
        yesVoters := yesVoters + {author};
      } else if latestVoteByAuthor[author] == "no" {
        noVoters := noVoters + {author};
      }
      left := left - {author};
    }
    assert yesVoters == VotersFor(latestVoteByAuthor, "yes") && noVoters == VotersFor(latestVoteByAuthor, "no");
    yes := SortedList(yesVoters);
    no := SortedList(noVoters);
  }

  function IdOf(found: Option<Operation>): Option<OpId> {
    if found.Some? then Some(found.value.id) else None
  }

  function CertOf(found: Option<Operation>): Option<CertificationPayload>
    requires found.Some? ==> found.value.payload.Cert?
  {
    if found.Some? then Some(found.value.payload.cert) else None
  }

  /** The last certificate for the proposal, and the last certified one. */
  method FindCertificates(ops: Ops, pid: string) returns (cert: Option<CertificationPayload>, certOpId: Option<OpId>)
    ensures cert == CertOf(Last(ops, CertFor(pid)))
    ensures certOpId == IdOf(Last(ops, CertifiedFor(pid)))
  {
    cert, certOpId := None, None;
    for i := 0 to |ops|
      invariant cert == CertOf(Last(ops[..i], CertFor(pid)))
      invariant certOpId == IdOf(Last(ops[..i], CertifiedFor(pid)))
    {
      assert ops[..i + 1][..i] == ops[..i];
      var op := ops[i];
      if IsCert(op, pid) {
        cert := Some(op.payload.cert);
        if op.payload.cert.certified {
          certOpId := Some(op.id);
        }
      }
    }
    assert ops[..|ops|] == ops;
  }

  /** `Store.ProposalStatus`. */
  method ProposalStatus(s: Store, pid: string, now: int) returns (r: Result<Consensus.ProposalStatus, Error>)
    requires s.Indexed()
    ensures r == StatusOf(s.ops, s.nodeId, s.configFile, pid, now)
  {
    hide Store.Indexed, Store.Valid, SortedOps, TrimSpace, LatestVotes, MembersOf, RequiredYes;
    var id := TrimSpace(pid);
    if id == "" {
      return Err(MissingProposalId);
    }
    var ops := s.Operations(0);
    var found: Option<Operation> := None;
    var i := 0;
    while i < |ops| && found.None?
      invariant 0 <= i <= |ops|
      invariant if found.None? then First(ops, ProposalFor(id)) == First(ops[i..], ProposalFor(id))
                else First(ops, ProposalFor(id)) == found
      decreases |ops| - i, found.None?
    {
      if IsProposal(ops[i], id) {
        found := Some(ops[i]);
      } else {
        i := i + 1;
      }
    }
    if found.None? {
      return Err(ProposalNotFound);
    }
    var config := ReadConfig(s.configFile);
    if config.Err? {
      return Err(config.error);
    }
    var proposalOp, cfg := found.value, config.value;
    r := StatusFrom(ops, s.nodeId, cfg, proposalOp, now);
  }

  method StatusFrom(ops: Ops, node: NodeId, cfg: Config, proposalOp: Operation, now: int)
    returns (r: Result<Consensus.ProposalStatus, Error>)
    requires proposalOp.payload.Proposal?
    ensures r == Ok(Tally(ops, node, cfg, proposalOp, now))
  {
    hide LatestVotes, MembersOf, RequiredYes, SortedIds, VotersFor;
    var proposal := proposalOp.payload.proposal;
    var pid := proposal.proposalId;
    var members := Members(ops, node, proposalOp.author, proposal, cfg);
    var yes, no := CountVotes(ops, members, pid);
    var required := RequiredYes(|members|, cfg.threshold);
    var cert, certOpId := FindCertificates(ops, pid);
    r := Ok(Consensus.ProposalStatus.ProposalStatus(
              proposal, proposalOp.id, proposalOp.author, cfg.threshold, members, yes, no, required,
              |yes| >= required, IsExpired(proposal, now), certOpId.Some?, cert, certOpId, |yes| + |no|));
  }

  /** `SaveConsensusConfig`: an invalid configuration is refused and nothing is written. */
  method SaveConsensusConfig(s: Store, cfg: Config) returns (saved: Option<Config>)
    modifies s`configFile
    ensures saved == Normalize(cfg)
    ensures s.configFile == if saved.Some? then Saved(saved.value) else old(s.configFile)
  {
    saved := Normalize(cfg);
    if saved.Some? {
      s.configFile := Saved(saved.value);
    }
  }

  /** Append what an action decided on. */
  method AppendIssued(s: Store, payload: Result<Payload, Error>, now: int) returns (r: Result<Operation, Error>)
    requires s.Indexed()
    modifies s`ops, s`opIDs, s`seqByAuthor, s`authorSeqIndex, s`opsLog
    ensures s.Indexed() && (old(s.Valid()) ==> s.Valid())
    ensures payload.Err? ==> r == Err(payload.error)
    ensures payload.Ok? ==> var op := LocalOp(old(s.ops), s.nodeId, now, payload.value);
      r == if op.Ok? then Ok(op.value) else Err(NotAppended(op.error))
    ensures s.ops == if r.Ok? then old(s.ops) + [r.value] else old(s.ops)
    ensures s.opsLog == if r.Ok? then old(s.opsLog) + [Entry(r.value)] else old(s.opsLog)
  {
    hide Store.Indexed, Store.Valid, LocalOp;
    if payload.Err? {
      return Err(payload.error);
    }
    var op := s.AppendLocalOp(payload.value, now);
    r := if op.Ok? then Ok(op.value) else Err(NotAppended(op.error));
  }

  /** `ProposeRefUpdate`; `freshId` is the generated proposal ID, `clock` the time the expiry is
      counted from. */
  method ProposeRefUpdate(s: Store, input: ProposeRefInput, freshId: string, clock: int, now: int)
    returns (r: Result<Operation, Error>)
    requires s.Indexed()
    modifies s`ops, s`opIDs, s`seqByAuthor, s`authorSeqIndex, s`opsLog
    ensures s.Indexed() && (old(s.Valid()) ==> s.Valid())
    ensures r == IssuedOp(old(s.ops), old(s.ops), s.nodeId, s.configFile, Propose(DraftOf(input, clock), freshId), now)
    ensures s.ops == if r.Ok? then old(s.ops) + [r.value] else old(s.ops)
    ensures s.opsLog == if r.Ok? then old(s.opsLog) + [Entry(r.value)] else old(s.opsLog)
  {
    hide Store.Indexed, Store.Valid, LocalOp, TrimSpace;
    var ref, newOid, oldOid, pid :=
      TrimSpace(input.ref), TrimSpace(input.newOid), TrimSpace(input.oldOid), TrimSpace(input.proposalId);
    if ref == "" {
      return Err(MissingRef);
    }
    if newOid == "" {
      return Err(MissingNewOid);
    }
    if pid == "" {
      pid := freshId;
    }
    var payload := ProposalPayload(pid, ref, oldOid, newOid, input.epoch, None);
    if input.ttl > 0 {
      payload := payload.(expiresAt := Some(clock + input.ttl));
    }
    r := AppendIssued(s, Ok(Proposal(payload)), now);
  }

  /** `CastVote`. */
  method CastVote(s: Store, pid: string, decision: string, now: int) returns (r: Result<Operation, Error>)
    requires s.Indexed()
    modifies s`ops, s`opIDs, s`seqByAuthor, s`authorSeqIndex, s`opsLog
    ensures s.Indexed() && (old(s.Valid()) ==> s.Valid())
    ensures r == IssuedOp(old(s.ops), old(s.ops), s.nodeId, s.configFile, Action.CastVote(pid, decision), now)
    ensures s.ops == if r.Ok? then old(s.ops) + [r.value] else old(s.ops)
    ensures s.opsLog == if r.Ok? then old(s.opsLog) + [Entry(r.value)] else old(s.opsLog)
  {
    hide Store.Indexed, Store.Valid, LocalOp, TrimSpace, StatusOf;
    var id, choice := TrimSpace(pid), ToLower(TrimSpace(decision));
    if id == "" {
      return Err(MissingProposalId);
    }
    if choice != "yes" && choice != "no" {
      return Err(BadDecision);
    }
    var status := ProposalStatus(s, id, now);
    if status.Err? {
      return Err(status.error);
    }
    if status.value.expired {
      return Err(Expired);
    }
    r := AppendIssued(s, Ok(Vote(VotePayload(id, status.value.proposal.epoch, choice))), now);
  }

  /** `CertifyProposal`. */
  method CertifyProposal(s: Store, pid: string, force: bool, now: int) returns (r: Result<Operation, Error>)
    requires s.Indexed()
    modifies s`ops, s`opIDs, s`seqByAuthor, s`authorSeqIndex, s`opsLog
    ensures s.Indexed() && (old(s.Valid()) ==> s.Valid())
    ensures r == IssuedOp(old(s.ops), old(s.ops), s.nodeId, s.configFile, Certify(pid, force), now)
    ensures s.ops == if r.Ok? then old(s.ops) + [r.value] else old(s.ops)
    ensures s.opsLog == if r.Ok? then old(s.opsLog) + [Entry(r.value)] else old(s.opsLog)
  {
    hide Store.Indexed, Store.Valid, LocalOp, StatusOf;
    var status := ProposalStatus(s, pid, now);
    if status.Err? {
      return Err(status.error);
    }
    var st := status.value;
    if st.certifiedOpId.Some? {
      return Err(AlreadyCertified);
    }
    if st.expired && !force {
      return Err(Expired);
    }
    if !st.hasQuorum && !force {
      return Err(NoQuorum);
    }
    var cert := CertificationPayload(st.proposal.proposalId, st.proposal.epoch, st.threshold, |st.members|,
                                     st.requiredYes, st.yesVoters, st.noVoters, st.hasQuorum);
    r := AppendIssued(s, Ok(Cert(cert)), now);
  }
}
