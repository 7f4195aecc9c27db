/** Proposal status, voting and certification as functions of a log (gossip/consensus.go). */
module Consensus {
  import opened Log
  import opened Operations
  import opened Quorum
  import opened Sorting
  import opened Strings
  import opened Wrappers

  datatype Error =
    | MissingProposalId | ProposalNotFound | BadConfig | BadDecision | MissingRef | MissingNewOid
    | Expired | AlreadyCertified | NoQuorum | NotAppended(error: AppendError)

  /** `consensus.json`: absent, unreadable, or some configuration. */
  datatype ConfigFile = Absent | Unreadable | Saved(config: Config)

  /** `Store.ConsensusConfig`. */
  function ReadConfig(file: ConfigFile): Result<Config, Error> {
    match file
    case Absent => Ok(Config(0.5, []))
    case Unreadable => Err(BadConfig)
    case Saved(cfg) => if Normalize(cfg).Some? then Ok(Normalize(cfg).value) else Err(BadConfig)
  }

  predicate IsProposal(o: Operation, pid: string) {
    o.payload.Proposal? && o.payload.proposal.proposalId == pid
  }

  /** A vote the tally looks at: on this proposal, with a readable decision. */
  predicate IsVote(o: Operation, pid: string) {
    o.payload.Vote? && o.payload.vote.proposalId == pid
      && (o.payload.vote.decision == "yes" || o.payload.vote.decision == "no")
  }

  predicate IsCert(o: Operation, pid: string) {
    o.payload.Cert? && o.payload.cert.proposalId == pid
  }

  predicate IsCertified(o: Operation, pid: string) {
    IsCert(o, pid) && o.payload.cert.certified
  }

  /** What a scan over the operations looks for. */
  datatype Query = ProposalFor(pid: string) | CertFor(pid: string) | CertifiedFor(pid: string) {
    predicate Matches(o: Operation) {
      match this
      case ProposalFor(pid) => IsProposal(o, pid)
      case CertFor(pid) => IsCert(o, pid)
      case CertifiedFor(pid) => IsCertified(o, pid)
    }
  }

  /** The first match, as the source's `break` finds it. */
  function First(ops: Ops, q: Query): (r: Option<Operation>)
    ensures r.Some? ==> q.Matches(r.value)
  {
    if ops == [] then None else if q.Matches(ops[0]) then Some(ops[0]) else First(ops[1..], q)
  }

  /** The last match, as an overwritten variable keeps it. */
  function Last(ops: Ops, q: Query): (r: Option<Operation>)
    ensures r.Some? ==> q.Matches(r.value)
  {
    if ops == [] then None
    else if q.Matches(ops[|ops| - 1]) then Some(ops[|ops| - 1])
    else Last(ops[..|ops| - 1], q)
  }

  lemma {:induction false} FirstMatches(ops: Ops, q: Query)
    ensures First(ops, q).Some? <==> exists o :: o in ops && q.Matches(o)
    ensures First(ops, q).Some? ==> First(ops, q).value in ops
  {
    if ops != [] {
      FirstMatches(ops[1..], q);
      assert ops == [ops[0]] + ops[1..];
    }
  }

  lemma {:induction false} LastMatches(ops: Ops, q: Query)
    ensures Last(ops, q).Some? <==> exists o :: o in ops && q.Matches(o)
    ensures Last(ops, q).Some? ==> Last(ops, q).value in ops
  {
    if ops != [] {
      LastMatches(ops[..|ops| - 1], q);
      assert ops == ops[..|ops| - 1] + [ops[|ops| - 1]];
    }
  }

  /** `latestVoteByAuthor` after the loop over `ops`. */
  function LatestVotes(ops: Ops, members: set<NodeId>, pid: string): map<NodeId, string> {
    if ops == [] then map[]
    else
      var votes, o := LatestVotes(ops[..|ops| - 1], members, pid), ops[|ops| - 1];
      if IsVote(o, pid) && o.author in members then votes[o.author := o.payload.vote.decision] else votes
  }

  function VotersFor(votes: map<NodeId, string>, decision: string): set<NodeId> {
    set a | a in votes && votes[a] == decision
  }

  /** The set in increasing order: what appending it in any order and sorting gives. */
  ghost function SortedIds(ids: set<NodeId>): (r: seq<NodeId>)
    ensures StrictlyOrdered(Less, r) && forall x :: x in r <==> x in ids
    ensures |r| == |ids|
  {
    var r := Enumerated(ids);
    SortElements(Less, r);
    DistinctSorted(r);
    Sort(Less, r)
  }

  ghost function Enumerated(ids: set<NodeId>): (r: seq<NodeId>)
    ensures Distinct(r) && |r| == |ids| && forall x :: x in r <==> x in ids
  {
    if ids == {} then []
    else
      var x :| x in ids;
      Enumerated(ids - {x}) + [x]
  }

  /** Auto-discovered membership. The proposal's ref and new OID are used as placeholder
      keys and deleted again, so a node whose ID equals one of them is only a member if
      it has authored an operation. */
  function Discovered(ops: Ops, node: NodeId, proposer: NodeId, proposal: ProposalPayload): set<NodeId> {
    var named := {node, proposer, proposal.ref, proposal.newOid};
    var kept := named - {proposal.ref, proposal.newOid};
    set m | m in kept + Authors(ops) && TrimSpace(m) != ""
  }

  ghost function MembersOf(ops: Ops, node: NodeId, proposer: NodeId, proposal: ProposalPayload,
                           cfg: Config): seq<NodeId> {
    if cfg.members != [] then cfg.members else SortedIds(Discovered(ops, node, proposer, proposal))
  }

  datatype ProposalStatus = ProposalStatus(
    proposal: ProposalPayload, proposalOpId: OpId, proposer: NodeId, threshold: real,
    members: seq<NodeId>, yesVoters: seq<NodeId>, noVoters: seq<NodeId>,
    requiredYes: int, hasQuorum: bool, expired: bool, certified: bool,
    certification: Option<CertificationPayload>, certifiedOpId: Option<OpId>, voteCountTotal: nat)

  function SetOf<T>(s: seq<T>): set<T> {
    set x | x in s
  }

  predicate IsExpired(proposal: ProposalPayload, now: int) {
    proposal.expiresAt.Some? && now > proposal.expiresAt.value
  }

  /** `Store.ProposalStatus` on the operations in author and sequence order. */
  ghost function Tally(ops: Ops, node: NodeId, cfg: Config, proposalOp: Operation, now: int): ProposalStatus
    requires proposalOp.payload.Proposal?
  {
    var proposal, pid := proposalOp.payload.proposal, proposalOp.payload.proposal.proposalId;
    var members := MembersOf(ops, node, proposalOp.author, proposal, cfg);
    var votes := LatestVotes(ops, SetOf(members), pid);
    var yes, no := SortedIds(VotersFor(votes, "yes")), SortedIds(VotersFor(votes, "no"));
    var required := RequiredYes(|members|, cfg.threshold);
    var cert, certified := Last(ops, CertFor(pid)), Last(ops, CertifiedFor(pid));
    ProposalStatus(
      proposal, proposalOp.id, proposalOp.author, cfg.threshold, members, yes, no, required,
      |yes| >= required, IsExpired(proposal, now), certified.Some?,
      if cert.Some? then Some(cert.value.payload.cert) else None,
      if certified.Some? then Some(certified.value.id) else None,
      |yes| + |no|)
  }

  ghost function StatusOf(log: Ops, node: NodeId, file: ConfigFile, pid: string, now: int): Result<ProposalStatus,
                          Error> {
    var ops, id := SortedOps(log), TrimSpace(pid);
    if id == "" then Err(MissingProposalId)
    else
      var proposalOp := First(ops, ProposalFor(id));
      if proposalOp.None? then Err(ProposalNotFound)
      else if ReadConfig(file).Err? then Err(ReadConfig(file).error)
      else Ok(Tally(ops, node, ReadConfig(file).value, proposalOp.value, now))
  }

  function LowerChar(c: char): char {
    if 'A' <= c <= 'Z' then (c - 'A') + 'a' else c
  }

  function ToLower(s: string): string {
    seq(|s|, i requires 0 <= i < |s| => LowerChar(s[i]))
  }

  /** The payload `CastVote` appends. */
  ghost function VoteToCast(log: Ops, node: NodeId, file: ConfigFile, pid: string, decision: string, now: int)
    : Result<Payload, Error>
  {
    var id, choice := TrimSpace(pid), ToLower(TrimSpace(decision));
    if id == "" then Err(MissingProposalId)
    else if choice != "yes" && choice != "no" then Err(BadDecision)
    else
      var status := StatusOf(log, node, file, id, now);
      if status.Err? then Err(status.error)
      else if status.value.expired then Err(Expired)
      else Ok(Vote(VotePayload(id, status.value.proposal.epoch, choice)))
  }

  /** The payload `CertifyProposal` appends. */
  ghost function CertToIssue(log: Ops, node: NodeId, file: ConfigFile, pid: string, force: bool, now: int)
    : Result<Payload, Error>
  {
    var status := StatusOf(log, node, file, pid, now);
    if status.Err? then Err(status.error)
    else
      var s := status.value;
      if s.certifiedOpId.Some? then Err(AlreadyCertified)
      else if s.expired && !force then Err(Expired)
      else if !s.hasQuorum && !force then Err(NoQuorum)
      else Ok(Cert(CertificationPayload(s.proposal.proposalId, s.proposal.epoch, s.threshold, |s.members|,
                                        s.requiredYes, s.yesVoters, s.noVoters, s.hasQuorum)))
  }

  /** What a node can be asked to add to its own log. */
  datatype Action =
    | Record(kind: string, text: string)
    | Propose(draft: ProposalPayload, freshId: string)
    | CastVote(pid: string, decision: string)
    | Certify(pid: string, force: bool)

  /** What a proposer asks for. */
  datatype ProposeRefInput = ProposeRefInput(
    proposalId: string, ref: string, oldOid: string, newOid: string, epoch: Uint64, ttl: int)

  /** The proposal it stands for, when the clock reads `clock`: a positive time to live ends in
      an expiry, any other leaves it out. */
  function DraftOf(input: ProposeRefInput, clock: int): ProposalPayload {
    ProposalPayload(input.proposalId, input.ref, input.oldOid, input.newOid, input.epoch,
                    if input.ttl > 0 then Some(clock + input.ttl) else None)
  }

  /** `ProposeRefUpdate`: `freshId` is the ID generated when none is given. */
  function ProposalToIssue(draft: ProposalPayload, freshId: string): Result<Payload, Error> {
    var clean := draft.(proposalId := TrimSpace(draft.proposalId), ref := TrimSpace(draft.ref),
                        oldOid := TrimSpace(draft.oldOid), newOid := TrimSpace(draft.newOid));
    if clean.ref == "" then Err(MissingRef)
    else if clean.newOid == "" then Err(MissingNewOid)
    else Ok(Proposal(if clean.proposalId == "" then clean.(proposalId := freshId) else clean))
  }

  /** The payload an action appends to the log, if it appends one. */
  ghost function Issue(log: Ops, node: NodeId, file: ConfigFile, action: Action, now: int): Result<Payload, Error> {
    match action
    case Record(kind, text) => Ok(Event(kind, text))
    case Propose(draft, freshId) => ProposalToIssue(draft, freshId)
    case CastVote(pid, decision) => VoteToCast(log, node, file, pid, decision, now)
    case Certify(pid, force) => CertToIssue(log, node, file, pid, force, now)
  }

  /** The operation an action appends, signed by the node. Reading the status and appending
      are two locked steps, so the decision may rest on an earlier `view` of the log. */
  ghost function IssuedOp(view: Ops, log: Ops, node: NodeId, file: ConfigFile, action: Action,
                          now: int): Result<Operation, Error> {
    var payload := Issue(view, node, file, action, now);
    if payload.Err? then Err(payload.error)
    else
      var op := LocalOp(log, node, now, payload.value);
      if op.Err? then Err(NotAppended(op.error)) else Ok(op.value)
  }

  // ------------------------------------------------------------ what a status says

  /** The author's highest-sequence readable vote on the proposal is `decision`. */
  ghost predicate Votes(log: Ops, pid: string, a: NodeId, decision: string) {
    exists o :: o in log && IsVote(o, pid) && o.author == a && o.payload.vote.decision == decision
      && forall p :: p in log && IsVote(p, pid) && p.author == a ==> p.seqNo <= o.seqNo
  }

  lemma VoteOverridden(ops: Ops, last: Operation, pid: string)
    requires StrictlyOrdered(KeyLess, ops + [last]) && IsVote(last, pid)
    ensures Votes(ops + [last], pid, last.author, last.payload.vote.decision)
  {
    hide IsVote;
    forall p | p in ops && p.author == last.author ensures p.seqNo < last.seqNo {
      var i :| 0 <= i < |ops| && ops[i] == p;
      assert KeyLess((ops + [last])[i], (ops + [last])[|ops|]);
      LessIrreflexive(p.author);
    }
    assert last in ops + [last];
  }

  lemma VoteKept(ops: Ops, last: Operation, pid: string, a: NodeId, decision: string)
    requires Votes(ops, pid, a, decision) && !(IsVote(last, pid) && last.author == a)
    ensures Votes(ops + [last], pid, a, decision)
  {
    var o :| o in ops && IsVote(o, pid) && o.author == a && o.payload.vote.decision == decision
      && forall p :: p in ops && IsVote(p, pid) && p.author == a ==> p.seqNo <= o.seqNo;
    assert o in ops + [last];
  }

  lemma {:induction false} LatestVotesIn(ops: Ops, members: set<NodeId>, pid: string, a: NodeId)
    requires StrictlyOrdered(KeyLess, ops)
    ensures var votes := LatestVotes(ops, members, pid);
      && (a in votes ==> a in members && Votes(ops, pid, a, votes[a]) && (votes[a] == "yes" || votes[a] == "no"))
      && (a !in votes && a in members ==> forall o :: o in ops && o.author == a ==> !IsVote(o, pid))
  {
    hide KeyLess, Votes;
    if ops != [] {
      var front, last := ops[..|ops| - 1], ops[|ops| - 1];
      var votes := LatestVotes(ops, members, pid);
      assert ops == front + [last];
      LatestVotesIn(front, members, pid, a);
      if IsVote(last, pid) && last.author == a {
        VoteOverridden(front, last, pid);
      } else if a in votes {
        VoteKept(front, last, pid, a, votes[a]);
      }
    }
  }

  lemma OneHighestVote(log: Ops, pid: string, a: NodeId)
    requires WellFormed(log) && Votes(log, pid, a, "yes")
    ensures !Votes(log, pid, a, "no")
  {
    hide Valid;
  }

  /** Only the elements of a log matter to the votes counted on it. */
  lemma VotesOfElements(x: Ops, y: Ops, pid: string, a: NodeId, decision: string)
    requires (forall o :: o in x <==> o in y) && Votes(x, pid, a, decision)
    ensures Votes(y, pid, a, decision)
  {
    var o :| o in x && IsVote(o, pid) && o.author == a && o.payload.vote.decision == decision
      && forall p :: p in x && IsVote(p, pid) && p.author == a ==> p.seqNo <= o.seqNo;
    assert o in y;
  }

  lemma VotersSpec(log: Ops, members: set<NodeId>, pid: string, a: NodeId)
    requires WellFormed(log)
    ensures var votes := LatestVotes(SortedOps(log), members, pid);
      && (a in VotersFor(votes, "yes") <==> a in members && Votes(log, pid, a, "yes"))
      && (a in VotersFor(votes, "no") <==> a in members && Votes(log, pid, a, "no"))
  {
    hide WellFormed, SortedOps, LatestVotes, StrictlyOrdered;
    var votes := LatestVotes(SortedOps(log), members, pid);
    SortedStrictly(log);
    LatestVotesIn(SortedOps(log), members, pid, a);
    if a in votes {
      VotesOfElements(SortedOps(log), log, pid, a, votes[a]);
    }
    if Votes(log, pid, a, "yes") {
      OneHighestVote(log, pid, a);
    }
  }

  /** The configuration a status is computed under. */
  lemma ReadIsNormalized(file: ConfigFile)
    requires ReadConfig(file).Ok?
    ensures Normalized(ReadConfig(file).value)
  {
    if file.Saved? {
      ConfigRoundTrip(file.config);
    }
  }

  lemma SizeOfDistinct(s: seq<NodeId>)
    requires StrictlyOrdered(Less, s)
    ensures |SetOf(s)| == |s|
  {
    if s != [] {
      var front, last := s[..|s| - 1], s[|s| - 1];
      SizeOfDistinct(front);
      LessIrreflexive(last);
      assert SetOf(s) == SetOf(front) + {last};
    }
  }

  lemma ConfiguredMembers(ops: Ops, node: NodeId, proposer: NodeId, proposal: ProposalPayload, cfg: Config)
    requires cfg.members != []
    ensures MembersOf(ops, node, proposer, proposal, cfg) == cfg.members
  {
  }

  lemma DiscoveredMembers(ops: Ops, node: NodeId, proposer: NodeId, proposal: ProposalPayload, cfg: Config)
    requires cfg.members == [] && proposer in Authors(ops) && TrimSpace(proposer) != ""
    ensures var members := MembersOf(ops, node, proposer, proposal, cfg);
      && proposer in members && StrictlyOrdered(Less, members)
      && (forall m :: m in members <==>
           TrimSpace(m) != "" && (m in Authors(ops) || (m == node && m != proposal.ref && m != proposal.newOid)))
  {
    hide TrimSpace, Less, StrictlyOrdered, SortedIds;
  }

  /** The members of a status: the configured list, or everyone who has authored an
      operation plus, unless its ID is the proposal's ref or new OID, the node itself. */
  lemma MembersSpec(log: Ops, node: NodeId, cfg: Config, proposalOp: Operation)
    requires WellFormed(log) && Normalized(cfg) && proposalOp in log && proposalOp.payload.Proposal?
    ensures var proposal := proposalOp.payload.proposal;
      var members := MembersOf(SortedOps(log), node, proposalOp.author, proposal, cfg);
      && |members| > 0 && StrictlyOrdered(Less, members)
      && (forall m :: m in members <==>
           if cfg.members != [] then m in cfg.members
           else TrimSpace(m) != "" && (m in Authors(log) || (m == node && m != proposal.ref && m != proposal.newOid)))
  {
    hide SortedOps, TrimSpace, Less, Valid, Sign, Normalized, StrictlyOrdered, MembersOf;
    SortedStrictly(log);
    assert Authors(SortedOps(log)) == Authors(log);
    assert proposalOp.author in Authors(log);
    ValidIffSigned(proposalOp);
    NormalizedSorted(cfg);
    if cfg.members != [] {
      ConfiguredMembers(SortedOps(log), node, proposalOp.author, proposalOp.payload.proposal, cfg);
    } else {
      DiscoveredMembers(SortedOps(log), node, proposalOp.author, proposalOp.payload.proposal, cfg);
    }
  }

  lemma NormalizedSorted(cfg: Config)
    requires Normalized(cfg)
    ensures StrictlyOrdered(Less, cfg.members)
  {
  }

  lemma StatusFinds(log: Ops, node: NodeId, file: ConfigFile, pid: string, now: int)
    returns (cfg: Config, proposalOp: Operation)
    requires StatusOf(log, node, file, pid, now).Ok?
    ensures ReadConfig(file) == Ok(cfg) && Normalized(cfg)
    ensures proposalOp in SortedOps(log) && IsProposal(proposalOp, TrimSpace(pid))
    ensures StatusOf(log, node, file, pid, now) == Ok(Tally(SortedOps(log), node, cfg, proposalOp, now))
  {
    hide SortedOps, TrimSpace, Tally;
    cfg := ReadConfig(file).value;
    ReadIsNormalized(file);
    FirstMatches(SortedOps(log), ProposalFor(TrimSpace(pid)));
    proposalOp := First(SortedOps(log), ProposalFor(TrimSpace(pid))).value;
  }

  /** Who is counted: exactly the members whose highest-sequence readable vote on the
      proposal says so. */
  ghost predicate VotersMean(log: Ops, id: string, s: ProposalStatus) {
    && (forall a :: a in s.yesVoters <==> a in s.members && Votes(log, id, a, "yes"))
    && (forall a :: a in s.noVoters <==> a in s.members && Votes(log, id, a, "no"))
    && (forall a :: a in s.yesVoters ==> a !in s.noVoters)
    && StrictlyOrdered(Less, s.yesVoters) && StrictlyOrdered(Less, s.noVoters)
    && StrictlyOrdered(Less, s.members) && |s.members| > 0
  }

  /** What the counts mean: a quorum is a yes ratio strictly above the threshold. */
  ghost predicate CountsMean(s: ProposalStatus) {
    && 0.0 < s.threshold < 1.0
    && s.voteCountTotal == |s.yesVoters| + |s.noVoters| <= |s.members|
    && s.requiredYes == RequiredYes(|s.members|, s.threshold)
    && (s.hasQuorum <==> |s.yesVoters| >= s.requiredYes)
    && (s.hasQuorum <==> |s.yesVoters| as real > s.threshold * |s.members| as real)
  }

  /** Certification is the presence of a certified certificate, whoever issued it. */
  ghost predicate CertificationMeans(log: Ops, id: string, s: ProposalStatus) {
    && (s.certified <==> exists o :: o in log && IsCertified(o, id))
    && (s.certifiedOpId.Some? <==> s.certified)
  }

  lemma VoterLists(log: Ops, members: seq<NodeId>, pid: string)
    requires WellFormed(log)
    ensures var votes := LatestVotes(SortedOps(log), SetOf(members), pid);
      var yes, no := SortedIds(VotersFor(votes, "yes")), SortedIds(VotersFor(votes, "no"));
      && (forall a :: a in yes <==> a in members && Votes(log, pid, a, "yes"))
      && (forall a :: a in no <==> a in members && Votes(log, pid, a, "no"))
      && (forall a :: a in yes ==> a !in no)
  {
    hide SortedOps, StrictlyOrdered, SortedIds, Less, LatestVotes, Votes, WellFormed;
    var votes := LatestVotes(SortedOps(log), SetOf(members), pid);
    var yes, no := SortedIds(VotersFor(votes, "yes")), SortedIds(VotersFor(votes, "no"));
    forall a ensures
      && (a in yes <==> a in members && Votes(log, pid, a, "yes"))
      && (a in no <==> a in members && Votes(log, pid, a, "no"))
    {
      VotersSpec(log, SetOf(members), pid, a);
    }
  }

  lemma TallyVoters(log: Ops, node: NodeId, cfg: Config, proposalOp: Operation, now: int)
    requires WellFormed(log) && Normalized(cfg) && proposalOp in log && proposalOp.payload.Proposal?
    ensures VotersMean(log, proposalOp.payload.proposal.proposalId, Tally(SortedOps(log), node, cfg, proposalOp, now))
  {
    hide SortedOps, StrictlyOrdered, SortedIds, VotersFor, SetOf, Less, LatestVotes, Votes, MembersOf, WellFormed,
         Normalized, RequiredYes, Last;
    var s, id := Tally(SortedOps(log), node, cfg, proposalOp, now), proposalOp.payload.proposal.proposalId;
    MembersSpec(log, node, cfg, proposalOp);
    VoterLists(log, s.members, id);
  }

  lemma DisjointListsFit(yes: seq<NodeId>, no: seq<NodeId>, members: seq<NodeId>)
    requires StrictlyOrdered(Less, yes) && StrictlyOrdered(Less, no) && StrictlyOrdered(Less, members)
    requires forall a :: a in yes ==> a !in no
    requires forall a :: a in yes || a in no ==> a in members
    ensures |yes| + |no| <= |members|
  {
    hide StrictlyOrdered;
    SizeOfDistinct(yes);
    SizeOfDistinct(no);
    SizeOfDistinct(members);
    assert SetOf(yes) * SetOf(no) == {};
    SubsetSize(SetOf(yes) + SetOf(no), SetOf(members));
  }

  lemma TallyCounts(log: Ops, node: NodeId, cfg: Config, proposalOp: Operation, now: int)
    requires WellFormed(log) && Normalized(cfg) && proposalOp in log && proposalOp.payload.Proposal?
    ensures CountsMean(Tally(SortedOps(log), node, cfg, proposalOp, now))
  {
    hide SortedOps, StrictlyOrdered, SortedIds, VotersFor, SetOf, Less, LatestVotes, Votes, MembersOf, WellFormed,
         RequiredYes, Last;
    var s := Tally(SortedOps(log), node, cfg, proposalOp, now);
    TallyVoters(log, node, cfg, proposalOp, now);
    DisjointListsFit(s.yesVoters, s.noVoters, s.members);
    StrictThreshold(|s.yesVoters|, |s.members|, s.threshold);
  }

  lemma TallyCertification(log: Ops, node: NodeId, cfg: Config, proposalOp: Operation, now: int)
    requires WellFormed(log) && proposalOp.payload.Proposal?
    ensures CertificationMeans(log, proposalOp.payload.proposal.proposalId, Tally(SortedOps(log), node, cfg, proposalOp, now))
  {
    hide SortedOps, StrictlyOrdered, LatestVotes, MembersOf, WellFormed, RequiredYes, IsCertified;
    var id := proposalOp.payload.proposal.proposalId;
    SortedStrictly(log);
    LastMatches(SortedOps(log), CertifiedFor(id));
    assert forall o :: CertifiedFor(id).Matches(o) <==> IsCertified(o, id);
  }

  lemma StatusSpec(log: Ops, node: NodeId, file: ConfigFile, pid: string, now: int)
    requires WellFormed(log) && StatusOf(log, node, file, pid, now).Ok?
    ensures var s, id := StatusOf(log, node, file, pid, now).value, TrimSpace(pid);
      && s.proposal.proposalId == id && VotersMean(log, id, s) && CountsMean(s) && CertificationMeans(log, id, s)
  {
    hide StatusOf, SortedOps, WellFormed, Normalized, VotersMean, CountsMean, CertificationMeans;
    var cfg, proposalOp := StatusFinds(log, node, file, pid, now);
    SortedStrictly(log);
    TallyVoters(log, node, cfg, proposalOp, now);
    TallyCounts(log, node, cfg, proposalOp, now);
    TallyCertification(log, node, cfg, proposalOp, now);
  }

  lemma StatusMembers(log: Ops, n: NodeId, file: ConfigFile, pid: string, now: int)
    requires StatusOf(log, n, file, pid, now).Ok?
    ensures var s := StatusOf(log, n, file, pid, now).value;
      && ReadConfig(file).Ok? && s.threshold == ReadConfig(file).value.threshold
      && (ReadConfig(file).value.members != [] ==> s.members == ReadConfig(file).value.members)
  {
    hide SortedOps, TrimSpace, LatestVotes, Last;
  }

  /** The membership that votes on a proposal, given a configuration and a log. */
  ghost predicate Membership(log: Ops, node: NodeId, cfg: Config, proposal: ProposalPayload, members: seq<NodeId>) {
    && StrictlyOrdered(Less, members) && |members| > 0
    && forall m :: m in members <==>
         if cfg.members != [] then m in cfg.members
         else TrimSpace(m) != "" && (m in Authors(log) || (m == node && m != proposal.ref && m != proposal.newOid))
  }

  /** Who the members of a status are. */
  ghost predicate MembersMean(log: Ops, node: NodeId, cfg: Config, s: ProposalStatus) {
    Membership(log, node, cfg, s.proposal, s.members)
  }

  lemma StatusMembersMean(log: Ops, node: NodeId, file: ConfigFile, pid: string, now: int)
    requires WellFormed(log) && StatusOf(log, node, file, pid, now).Ok?
    ensures ReadConfig(file).Ok?
      && MembersMean(log, node, ReadConfig(file).value, StatusOf(log, node, file, pid, now).value)
  {
    hide StatusOf, SortedOps, WellFormed, Normalized, TrimSpace, LatestVotes, StrictlyOrdered, MembersOf;
    var cfg, proposalOp := StatusFinds(log, node, file, pid, now);
    SortedStrictly(log);
    MembersSpec(log, node, cfg, proposalOp);
  }

  lemma {:induction false} FirstIsLeast(ops: Ops, q: Query)
    requires StrictlyOrdered(KeyLess, ops) && First(ops, q).Some?
    ensures forall o :: o in ops && q.Matches(o) ==> o == First(ops, q).value || KeyLess(First(ops, q).value, o)
  {
    hide KeyLess;
    if !q.Matches(ops[0]) {
      FirstIsLeast(ops[1..], q);
    }
  }

  lemma {:induction false} LastIsGreatest(ops: Ops, q: Query)
    requires StrictlyOrdered(KeyLess, ops) && Last(ops, q).Some?
    ensures forall o :: o in ops && q.Matches(o) ==> o == Last(ops, q).value || KeyLess(o, Last(ops, q).value)
  {
    hide KeyLess;
    var front := ops[..|ops| - 1];
    if !q.Matches(ops[|ops| - 1]) {
      LastIsGreatest(front, q);
      assert ops == front + [ops[|ops| - 1]];
    }
  }

  /** The proposal an ID names in a log: the least in author and sequence order. */
  ghost predicate LeastProposal(log: Ops, id: string, o: Operation) {
    o in log && IsProposal(o, id) && forall p :: p in log && IsProposal(p, id) ==> p == o || KeyLess(o, p)
  }

  ghost predicate AboutProposal(log: Ops, id: string, s: ProposalStatus, o: Operation) {
    && LeastProposal(log, id, o)
    && s.proposal == o.payload.proposal && s.proposer == o.author && s.proposalOpId == o.id
  }

  /** The certificate it shows: the greatest in that order, certified or not. */
  ghost predicate ShowsCertificate(log: Ops, id: string, s: ProposalStatus) {
    && (s.certification.None? <==> !exists o :: o in log && IsCert(o, id))
    && (s.certification.Some? ==> exists o :: LatestCert(log, id, o) && o.payload.cert == s.certification.value)
  }

  ghost predicate LatestCert(log: Ops, id: string, o: Operation) {
    o in log && IsCert(o, id) && forall p :: p in log && IsCert(p, id) ==> p == o || KeyLess(p, o)
  }

  /** The certificate it calls the certifying one: the greatest of the certified ones. */
  ghost predicate NamesCertificate(log: Ops, id: string, s: ProposalStatus) {
    && (s.certifiedOpId.None? <==> !exists o :: o in log && IsCertified(o, id))
    && (s.certifiedOpId.Some? ==> exists o :: GreatestCertified(log, id, o) && o.id == s.certifiedOpId.value)
  }

  ghost predicate GreatestCertified(log: Ops, id: string, o: Operation) {
    o in log && IsCertified(o, id) && forall p :: p in log && IsCertified(p, id) ==> p == o || KeyLess(p, o)
  }

  lemma TallyNames(log: Ops, node: NodeId, cfg: Config, proposalOp: Operation, now: int)
    requires WellFormed(log) && proposalOp.payload.Proposal?
    ensures NamesCertificate(log, proposalOp.payload.proposal.proposalId, Tally(SortedOps(log), node, cfg, proposalOp, now))
  {
    hide SortedOps, StrictlyOrdered, LatestVotes, MembersOf, WellFormed, RequiredYes, KeyLess, IsCertified;
    var q := CertifiedFor(proposalOp.payload.proposal.proposalId);
    SortedStrictly(log);
    LastMatches(SortedOps(log), q);
    assert forall o :: q.Matches(o) <==> IsCertified(o, q.pid);
    if Last(SortedOps(log), q).Some? {
      LastIsGreatest(SortedOps(log), q);
      assert GreatestCertified(log, q.pid, Last(SortedOps(log), q).value);
    }
  }

  /** The operation a certified status names. */
  lemma StatusNamesCertificate(log: Ops, node: NodeId, file: ConfigFile, pid: string, now: int)
    requires WellFormed(log) && StatusOf(log, node, file, pid, now).Ok?
    ensures NamesCertificate(log, TrimSpace(pid), StatusOf(log, node, file, pid, now).value)
  {
    hide StatusOf, SortedOps, WellFormed, Normalized, NamesCertificate, TrimSpace;
    var cfg, proposalOp := StatusFinds(log, node, file, pid, now);
    TallyNames(log, node, cfg, proposalOp, now);
  }

  lemma TallyPicks(log: Ops, node: NodeId, cfg: Config, proposalOp: Operation, now: int)
    requires WellFormed(log) && proposalOp.payload.Proposal?
    ensures ShowsCertificate(log, proposalOp.payload.proposal.proposalId, Tally(SortedOps(log), node, cfg, proposalOp, now))
  {
    hide SortedOps, StrictlyOrdered, LatestVotes, MembersOf, WellFormed, RequiredYes, KeyLess;
    var q := CertFor(proposalOp.payload.proposal.proposalId);
    SortedStrictly(log);
    LastMatches(SortedOps(log), q);
    assert forall o :: q.Matches(o) <==> IsCert(o, q.pid);
    if Last(SortedOps(log), q).Some? {
      LastIsGreatest(SortedOps(log), q);
      assert LatestCert(log, q.pid, Last(SortedOps(log), q).value);
    }
  }

  /** When a status is reported, and what it reports it about. */
  lemma StatusOutcome(log: Ops, node: NodeId, file: ConfigFile, pid: string, now: int)
    requires WellFormed(log)
    ensures var r, id := StatusOf(log, node, file, pid, now), TrimSpace(pid);
      if id == "" then r == Err(MissingProposalId)
      else if !exists o :: o in log && IsProposal(o, id) then r == Err(ProposalNotFound)
      else if ReadConfig(file).Err? then r == Err(ReadConfig(file).error)
      else r.Ok? && ShowsCertificate(log, id, r.value) && (exists o :: AboutProposal(log, id, r.value, o))
           && (r.value.expired <==> r.value.proposal.expiresAt.Some? && now > r.value.proposal.expiresAt.value)
  {
    hide SortedOps, StrictlyOrdered, LatestVotes, MembersOf, WellFormed, RequiredYes, KeyLess, TrimSpace,
         ShowsCertificate, SortedIds;
    var r, id := StatusOf(log, node, file, pid, now), TrimSpace(pid);
    SortedStrictly(log);
    FirstMatches(SortedOps(log), ProposalFor(id));
    assert forall o :: ProposalFor(id).Matches(o) <==> IsProposal(o, id);
    if r.Ok? {
      var o := First(SortedOps(log), ProposalFor(id)).value;
      FirstIsLeast(SortedOps(log), ProposalFor(id));
      TallyPicks(log, node, ReadConfig(file).value, o, now);
      assert AboutProposal(log, id, r.value, o);
    }
  }

  // ------------------------------------------------------ what the three actions append

  /** `consensus.json` missing means a simple majority of everyone known; an unreadable or
      out-of-range file is an error. */
  lemma ConfigRead(file: ConfigFile)
    ensures file.Absent? ==> ReadConfig(file).Ok? && ReadConfig(file).value.threshold == 0.5 && ReadConfig(file).value.members == []
    ensures file.Unreadable? ==> ReadConfig(file) == Err(BadConfig)
    ensures file.Saved? ==>
      var cfg := file.config;
      if cfg.threshold < 0.0 || cfg.threshold >= 1.0 then ReadConfig(file) == Err(BadConfig)
      else
        && ReadConfig(file).Ok?
        && ReadConfig(file).value.threshold == (if cfg.threshold == 0.0 then 0.5 else cfg.threshold)
        && forall m :: m in ReadConfig(file).value.members <==> m != "" && exists x :: x in cfg.members && TrimSpace(x) == m
  {
    if file.Saved? {
      ConfigRoundTrip(file.config);
    }
  }

  /** Decisions are read in any case: only the letters A to Z are changed. */
  lemma LowerMeans(s: string)
    ensures |ToLower(s)| == |s|
    ensures forall i :: 0 <= i < |s| ==>
      ToLower(s)[i] as int == if 'A' <= s[i] <= 'Z' then s[i] as int + 32 else s[i] as int
  {
  }

  /** A vote goes on record exactly as asked for, or is refused for the first reason that
      applies. */
  lemma VoteMeans(view: Ops, log: Ops, node: NodeId, file: ConfigFile, pid: string, decision: string, now: int)
    requires WellFormed(view) && WellFormed(log) && TrimSpace(node) != "" && Extent(log, node) < 0xFFFF_FFFF_FFFF_FFFF
    ensures var r := IssuedOp(view, log, node, file, Action.CastVote(pid, decision), now);
      var id, d := TrimSpace(pid), ToLower(TrimSpace(decision));
      var status := StatusOf(view, node, file, id, now);
      if id == "" then r == Err(MissingProposalId)
      else if d != "yes" && d != "no" then r == Err(BadDecision)
      else if status.Err? then r == Err(status.error)
      else if status.value.expired then r == Err(Expired)
      else
        && r.Ok? && Valid(r.value) && r.value.author == node && r.value.seqNo == Extent(log, node) + 1
        && r.value.payload.Vote? && r.value.payload.vote.proposalId == id && r.value.payload.vote.decision == d
        && exists o :: LeastProposal(view, id, o) && r.value.payload.vote.epoch == o.payload.proposal.epoch
  {
    hide TrimSpace, StatusOf, WellFormed, Extent, ToLower, KeyLess, ShowsCertificate, OutcomeOf, LocalOp;
    var id := TrimSpace(pid);
    TrimIdempotent(pid);
    StatusOutcome(view, node, file, id, now);
    var payload := VoteToCast(view, node, file, pid, decision, now);
    if payload.Ok? {
      VoteType();
      LocalOpMeans(log, node, now, payload.value);
      var o :| AboutProposal(view, id, StatusOf(view, node, file, id, now).value, o);
    }
  }

  lemma VoteType()
    ensures TrimSpace("consensus.vote") != "" && TrimSpace("consensus.cert") != "" && TrimSpace("consensus.proposal") != ""
  {
    hide TrimSpace;
    Untrimmed("consensus.vote");
    Untrimmed("consensus.cert");
    Untrimmed("consensus.proposal");
  }

  /** A certificate copies the tally, or is refused for the first reason that applies: certified
      already, then without force expired or short of quorum. */
  lemma CertificateMeans(view: Ops, log: Ops, node: NodeId, file: ConfigFile, pid: string, force: bool, now: int)
    requires WellFormed(view) && WellFormed(log) && TrimSpace(node) != "" && Extent(log, node) < 0xFFFF_FFFF_FFFF_FFFF
    ensures var r := IssuedOp(view, log, node, file, Certify(pid, force), now);
      var id, status := TrimSpace(pid), StatusOf(view, node, file, pid, now);
      if status.Err? then r == Err(status.error)
      else if exists o :: o in view && IsCertified(o, id) then r == Err(AlreadyCertified)
      else if !force && status.value.expired then r == Err(Expired)
      else if !force && !status.value.hasQuorum then r == Err(NoQuorum)
      else
        && r.Ok? && Valid(r.value) && r.value.author == node && r.value.seqNo == Extent(log, node) + 1 && r.value.payload.Cert?
        && var cert := r.value.payload.cert;
           && cert.proposalId == id && cert.epoch == status.value.proposal.epoch && cert.threshold == status.value.threshold
           && cert.totalVoters == |status.value.members| && cert.requiredYes == status.value.requiredYes
           && cert.yesVoters == status.value.yesVoters && cert.noVoters == status.value.noVoters
           && cert.certified == status.value.hasQuorum
  {
    hide TrimSpace, StatusOf, WellFormed, Extent, OutcomeOf, LocalOp, VotersMean, CountsMean, IsCertified;
    if StatusOf(view, node, file, pid, now).Ok? {
      StatusSpec(view, node, file, pid, now);
    }
    var payload := CertToIssue(view, node, file, pid, force, now);
    if payload.Ok? {
      VoteType();
      LocalOpMeans(log, node, now, payload.value);
    }
  }

  /** A proposal goes on record with every field as given, trimmed, its expiry counted from the
      clock and a fresh ID when none is given; a missing ref or new OID refuses it. */
  lemma ProposalMeans(view: Ops, log: Ops, node: NodeId, file: ConfigFile, input: ProposeRefInput, freshId: string,
                      clock: int, now: int)
    requires WellFormed(log) && TrimSpace(node) != "" && Extent(log, node) < 0xFFFF_FFFF_FFFF_FFFF
    ensures var r := IssuedOp(view, log, node, file, Propose(DraftOf(input, clock), freshId), now);
      if TrimSpace(input.ref) == "" then r == Err(MissingRef)
      else if TrimSpace(input.newOid) == "" then r == Err(MissingNewOid)
      else
        && r.Ok? && Valid(r.value) && r.value.author == node && r.value.seqNo == Extent(log, node) + 1 && r.value.payload.Proposal?
        && var p := r.value.payload.proposal;
           && p.proposalId == (if TrimSpace(input.proposalId) == "" then freshId else TrimSpace(input.proposalId))
           && p.ref == TrimSpace(input.ref) && p.oldOid == TrimSpace(input.oldOid) && p.newOid == TrimSpace(input.newOid)
           && p.epoch == input.epoch
           && (input.ttl > 0 ==> p.expiresAt == Some(clock + input.ttl)) && (input.ttl <= 0 ==> p.expiresAt == None)
  {
    hide TrimSpace, WellFormed, Extent, OutcomeOf, LocalOp;
    var payload := ProposalToIssue(DraftOf(input, clock), freshId);
    if payload.Ok? {
      VoteType();
      LocalOpMeans(log, node, now, payload.value);
    }
  }

  // ------------------------------------------------- operations a status does not depend on

  lemma {:induction false} FirstSkips(a: Ops, x: Operation, b: Ops, q: Query)
    requires !q.Matches(x)
    ensures First(a + [x] + b, q) == First(a + b, q)
  {
    var with, without := a + [x] + b, a + b;
    if a == [] {
      assert with[1..] == without;
    } else {
      FirstSkips(a[1..], x, b, q);
      assert with[1..] == a[1..] + [x] + b && without[1..] == a[1..] + b;
    }
  }

  lemma {:induction false} LastSkips(a: Ops, x: Operation, b: Ops, q: Query)
    requires !q.Matches(x)
    ensures Last(a + [x] + b, q) == Last(a + b, q)
  {
    var with, without := a + [x] + b, a + b;
    if b == [] {
      assert with[..|with| - 1] == without;
    } else {
      var front := b[..|b| - 1];
      LastSkips(a, x, front, q);
      assert with[..|with| - 1] == a + [x] + front && without[..|without| - 1] == a + front;
    }
  }

  lemma {:induction false} LatestVotesSkip(a: Ops, x: Operation, b: Ops, members: set<NodeId>, pid: string)
    requires !IsVote(x, pid)
    ensures LatestVotes(a + [x] + b, members, pid) == LatestVotes(a + b, members, pid)
  {
    hide IsVote;
    var with, without := a + [x] + b, a + b;
    if b == [] {
      assert with[..|with| - 1] == without;
    } else {
      var front := b[..|b| - 1];
      LatestVotesSkip(a, x, front, members, pid);
      assert with[..|with| - 1] == a + [x] + front && without[..|without| - 1] == a + front;
    }
  }

  lemma TallySkips(a: Ops, x: Operation, b: Ops, node: NodeId, cfg: Config, proposalOp: Operation, now: int)
    requires proposalOp.payload.Proposal? && !IsVote(x, proposalOp.payload.proposal.proposalId)
    requires !IsCert(x, proposalOp.payload.proposal.proposalId) && (cfg.members != [] || x.author in Authors(a + b))
    ensures Tally(a + [x] + b, node, cfg, proposalOp, now) == Tally(a + b, node, cfg, proposalOp, now)
  {
    hide LatestVotes, Last, IsVote, IsCertified, RequiredYes, SortedIds, VotersFor, TrimSpace;
    var pid := proposalOp.payload.proposal.proposalId;
    LastSkips(a, x, b, CertFor(pid));
    NotCertified(x, pid);
    LastSkips(a, x, b, CertifiedFor(pid));
    assert Authors(a + [x] + b) == Authors(a + b) + {x.author};
    if cfg.members == [] {
      assert Discovered(a + [x] + b, node, proposalOp.author, proposalOp.payload.proposal)
        == Discovered(a + b, node, proposalOp.author, proposalOp.payload.proposal);
    }
    LatestVotesSkip(a, x, b, SetOf(MembersOf(a + b, node, proposalOp.author, proposalOp.payload.proposal, cfg)), pid);
  }

  lemma NotCertified(x: Operation, pid: string)
    requires !IsCert(x, pid)
    ensures !IsCertified(x, pid)
  {
  }

  /** An operation about something else, by a known author or under an explicit member list,
      leaves the status as it was. */
  lemma UnrelatedOperation(log: Ops, op: Operation, node: NodeId, file: ConfigFile, pid: string, now: int)
    requires !IsProposal(op, TrimSpace(pid)) && !IsVote(op, TrimSpace(pid)) && !IsCert(op, TrimSpace(pid))
    requires ReadConfig(file).Ok? ==> ReadConfig(file).value.members != [] || op.author in Authors(log)
    ensures StatusOf(log + [op], node, file, pid, now) == StatusOf(log, node, file, pid, now)
  {
    hide TrimSpace, Tally, IsProposal, IsVote, IsCert, First, Insert, KeyLess, ReadConfig;
    var id, s := TrimSpace(pid), SortedOps(log);
    var i := InsertSplits(KeyLess, op, s);
    assert (log + [op])[..|log|] == log;
    assert SortedOps(log + [op]) == s[..i] + [op] + s[i..] && s[..i] + s[i..] == s;
    FirstSkips(s[..i], op, s[i..], ProposalFor(id));
    var found := First(s, ProposalFor(id));
    if found.Some? && ReadConfig(file).Ok? {
      SortElements(KeyLess, log);
      assert Authors(s) == Authors(log);
      FoundProposal(s, id);
      TallySkips(s[..i], op, s[i..], node, ReadConfig(file).value, found.value, now);
    }
  }

  lemma FoundProposal(ops: Ops, id: string)
    requires First(ops, ProposalFor(id)).Some?
    ensures IsProposal(First(ops, ProposalFor(id)).value, id)
    ensures First(ops, ProposalFor(id)).value.payload.Proposal?
      && First(ops, ProposalFor(id)).value.payload.proposal.proposalId == id
  {
  }
}
