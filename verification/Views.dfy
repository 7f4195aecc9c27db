/** The desktop client's own tally (`compute_proposal_views` in gui/src/main.rs): one pass over
    the log in file order. When and how it agrees with `Store.ProposalStatus`. */
module Views {
  import opened Consensus
  import opened Log
  import opened Operations
  import opened Quorum
  import opened Replica
  import opened Sorting
  import opened Strings
  import opened Wrappers

  /** What the client reads from disk: the log file, the node's ID and the configuration,
      which it does not normalize apart from a zero threshold. */
  datatype GossipData = GossipData(nodeId: NodeId, ops: Ops, threshold: real, members: seq<string>)

  datatype ProposalView = ProposalView(
    proposal: ProposalPayload, proposer: NodeId, createdAt: int, yesVotes: nat, noVotes: nat, voters: nat,
    requiredYes: int, quorum: bool, certified: bool, expired: bool)

  function ReadGossip(node: NodeId, log: Ops, cfg: Config): GossipData {
    GossipData(node, log, if cfg.threshold == 0.0 then 0.5 else cfg.threshold, cfg.members)
  }

  // ---------------------------------------------------------------- the single pass

  /** `proposals` after the pass: the last operation under each non-blank ID. */
  function ProposalsIn(log: Ops): (r: map<string, Operation>)
    ensures forall pid :: pid in r ==> IsProposal(r[pid], pid)
  {
    if log == [] then map[]
    else
      var before, o := ProposalsIn(log[..|log| - 1]), log[|log| - 1];
      if o.payload.Proposal? && TrimSpace(o.payload.proposal.proposalId) != ""
      then before[o.payload.proposal.proposalId := o] else before
  }

  function VotesOn(votes: map<string, map<NodeId, string>>, pid: string): map<NodeId, string> {
    if pid in votes then votes[pid] else map[]
  }

  /** `vote_by_proposal` after the pass: the last decision of each author, in file order. */
  function VotesIn(log: Ops): map<string, map<NodeId, string>> {
    if log == [] then map[]
    else
      var before, o := VotesIn(log[..|log| - 1]), log[|log| - 1];
      if o.payload.Vote? && TrimSpace(o.payload.vote.proposalId) != "" && TrimSpace(o.author) != "" then
        var pid := o.payload.vote.proposalId;
        before[pid := VotesOn(before, pid)[o.author := ToLower(o.payload.vote.decision)]]
      else before
  }

  /** `cert_by_proposal` after the pass: what the last certificate in file order says. */
  function CertsIn(log: Ops): map<string, bool> {
    if log == [] then map[]
    else
      var before, o := CertsIn(log[..|log| - 1]), log[|log| - 1];
      if o.payload.Cert? && TrimSpace(o.payload.cert.proposalId) != ""
      then before[o.payload.cert.proposalId := o.payload.cert.certified] else before
  }

  function KnownAuthors(data: GossipData): set<NodeId> {
    (set a | a in Authors(data.ops) && TrimSpace(a) != "") + (if TrimSpace(data.nodeId) != "" then {data.nodeId} else {})
  }

  function Counted(votes: map<NodeId, string>, members: set<NodeId>, decision: string): (r: set<NodeId>)
    ensures r <= votes.Keys
  {
    set a | a in votes && a in members && votes[a] == decision
  }

  function MemberSet(data: GossipData): set<NodeId> {
    if data.members == [] then KnownAuthors(data) else SetOf(data.members)
  }

  /** How many voters there are: repeats in a configured list count. */
  function VoterCount(data: GossipData): (n: nat)
    ensures n >= 1
  {
    Max(if data.members == [] then |KnownAuthors(data)| else |data.members|, 1)
  }

  function ViewRequired(data: GossipData): int {
    Min(Max((data.threshold * VoterCount(data) as real).Floor + 1, 1), VoterCount(data))
  }

  function ViewOf(data: GossipData, op: Operation, now: int): ProposalView
    requires op.payload.Proposal?
  {
    var proposal := op.payload.proposal;
    var votes, members := VotesOn(VotesIn(data.ops), proposal.proposalId), MemberSet(data);
    var yes, no, certs := |Counted(votes, members, "yes")|, |Counted(votes, members, "no")|, CertsIn(data.ops);
    ProposalView(proposal, op.author, op.timestamp, yes, no, VoterCount(data), ViewRequired(data), yes >= ViewRequired(data),
                 proposal.proposalId in certs && certs[proposal.proposalId], IsExpired(proposal, now))
  }

  /** `compute_proposal_views`, as views by proposal ID. */
  method ComputeProposalViews(data: GossipData, now: int) returns (out: map<string, ProposalView>)
    ensures out.Keys == ProposalsIn(data.ops).Keys
    ensures forall pid :: pid in out ==> out[pid] == ViewOf(data, ProposalsIn(data.ops)[pid], now)
  {
    hide TrimSpace, ToLower;
    var proposals: map<string, Operation> := map[];
    var voteByProposal: map<string, map<NodeId, string>> := map[];
    var certByProposal: map<string, bool> := map[];
    for i := 0 to |data.ops|
      invariant proposals == ProposalsIn(data.ops[..i])
      invariant voteByProposal == VotesIn(data.ops[..i])
      invariant certByProposal == CertsIn(data.ops[..i])
    {
      assert data.ops[..i + 1][..i] == data.ops[..i];
      var op := data.ops[i];
      match op.payload {
        case Proposal(payload) =>
          if TrimSpace(payload.proposalId) != "" {
            proposals := proposals[payload.proposalId := op];
          }
        case Vote(payload) =>
          if TrimSpace(payload.proposalId) != "" && TrimSpace(op.author) != "" {
            var votes := VotesOn(voteByProposal, payload.proposalId);
            voteByProposal := voteByProposal[payload.proposalId := votes[op.author := ToLower(payload.decision)]];
          }
        case Cert(payload) =>
          if TrimSpace(payload.proposalId) != "" {
            certByProposal := certByProposal[payload.proposalId := payload.certified];
          }
        case Event(_, _) =>
      }
    }
    assert data.ops[..|data.ops|] == data.ops;
    var allAuthors := CollectAuthors(data);
    out := map[];
    var left := proposals.Keys;
    while left != {}
      invariant left <= proposals.Keys && out.Keys == proposals.Keys - left
      invariant forall pid :: pid in out ==> out[pid] == ViewOf(data, proposals[pid], now)
      decreases left
    {
      var pid :| pid in left;
      var view := TallyView(data, proposals[pid], allAuthors, VotesOn(voteByProposal, pid),
                            pid in certByProposal && certByProposal[pid], now);
      out := out[pid := view];
      left := left - {pid};
    }
  }

  /** Everyone who has authored an operation, and the node itself. */
  method CollectAuthors(data: GossipData) returns (allAuthors: set<NodeId>)
    ensures allAuthors == KnownAuthors(data)
  {
    hide TrimSpace;
    allAuthors := {};
    for i := 0 to |data.ops|
      invariant allAuthors == set a | a in Authors(data.ops[..i]) && TrimSpace(a) != ""
    {
      assert data.ops[..i + 1] == data.ops[..i] + [data.ops[i]];
      if TrimSpace(data.ops[i].author) != "" {
        allAuthors := allAuthors + {data.ops[i].author};
      }
    }
    assert data.ops[..|data.ops|] == data.ops;
    if TrimSpace(data.nodeId) != "" {
      allAuthors := allAuthors + {data.nodeId};
    }
  }

  /** How many members the loop has counted, when it has still to look at `left`. */
  function CountedSoFar(votes: map<NodeId, string>, members: set<NodeId>, decision: string, left: set<NodeId>): nat {
    |Counted(votes, members, decision) - left|
  }

  lemma CountOne(votes: map<NodeId, string>, members: set<NodeId>, decision: string, left: set<NodeId>, author: NodeId)
    requires author in left && author in votes
    ensures CountedSoFar(votes, members, decision, left - {author})
      == CountedSoFar(votes, members, decision, left) + (if author in members && votes[author] == decision then 1 else 0)
  {
    var counted := Counted(votes, members, decision);
    if author in counted {
      assert counted - (left - {author}) == (counted - left) + {author};
    } else {
      assert counted - (left - {author}) == counted - left;
    }
  }

  lemma CountEnds(votes: map<NodeId, string>, members: set<NodeId>, decision: string)
    ensures CountedSoFar(votes, members, decision, votes.Keys) == 0
    ensures CountedSoFar(votes, members, decision, {}) == |Counted(votes, members, decision)|
  {
    var counted := Counted(votes, members, decision);
    assert counted - votes.Keys == {} && counted - {} == counted;
  }

  /** The counting loop: votes of members, by decision. */
  method CountDecisions(votes: map<NodeId, string>, members: set<NodeId>) returns (yes: nat, no: nat)
    ensures yes == |Counted(votes, members, "yes")| && no == |Counted(votes, members, "no")|
  {
    hide Counted, CountedSoFar;
    CountEnds(votes, members, "yes");
    CountEnds(votes, members, "no");
    yes, no := 0, 0;
    var left := votes.Keys;
    while left != {}
      invariant left <= votes.Keys
      invariant yes == CountedSoFar(votes, members, "yes", left) && no == CountedSoFar(votes, members, "no", left)
      decreases left
    {
      var author :| author in left;
      CountOne(votes, members, "yes", left, author);
      CountOne(votes, members, "no", left, author);
      if author in members {
        if votes[author] == "yes" {
          yes := yes + 1;
        } else if votes[author] == "no" {
          no := no + 1;
        }
      }
      left := left - {author};
    }
  }

  /** The view of one proposal from what the pass remembers. */
  method TallyView(data: GossipData, op: Operation, allAuthors: set<NodeId>, votes: map<NodeId, string>,
                   certified: bool,
                   now: int)
    returns (view: ProposalView)
    requires op.payload.Proposal? && allAuthors == KnownAuthors(data)
    requires votes == VotesOn(VotesIn(data.ops), op.payload.proposal.proposalId)
    requires var certs := CertsIn(data.ops);
      certified == (op.payload.proposal.proposalId in certs && certs[op.payload.proposal.proposalId])
    ensures view == ViewOf(data, op, now)
  {
    hide VotesIn, CertsIn, KnownAuthors, Counted, VotesOn;
    var members, memberCount := allAuthors, |allAuthors|;
    if data.members != [] {
      members, memberCount := SetOf(data.members), |data.members|;
    }
    var yes, no := CountDecisions(votes, members);
    var voterCount := Max(memberCount, 1);
    var requiredYes := Min(Max((data.threshold * voterCount as real).Floor + 1, 1), voterCount);
    view := ProposalView(op.payload.proposal, op.author, op.timestamp, yes, no, voterCount, requiredYes, yes >= requiredYes,
                         certified, IsExpired(op.payload.proposal, now));
  }

  // ------------------------------------------------------- agreement with the status

  /** Each author's operations appear in ascending order in the file, as every store writes them. */
  ghost predicate Ascending(log: Ops) {
    forall i, j :: 0 <= i < j < |log| && log[i].author == log[j].author ==> log[i].seqNo < log[j].seqNo
  }

  lemma {:induction false} GaplessAscending(log: Ops)
    requires Gapless(log)
    ensures Ascending(log)
  {
    if log != [] {
      var front, last := log[..|log| - 1], log[|log| - 1];
      assert log == front + [last];
      forall a ensures Numbered(By(front, a)) {
        assert Numbered(By(log, a));
        assert forall i :: 0 <= i < |By(front, a)| ==> By(front, a)[i] == By(log, a)[i];
      }
      GaplessAscending(front);
      var history := By(front, last.author);
      assert Numbered(By(log, last.author)) && By(log, last.author)[|history|] == last;
      forall o | o in front && o.author == last.author ensures o.seqNo < last.seqNo {
        NumberedPosition(front, o);
      }
    }
  }

  /** Every vote on the proposal is one `CastVote` can write. */
  ghost predicate ReadableVotes(log: Ops, pid: string) {
    forall o :: o in log && o.payload.Vote? && o.payload.vote.proposalId == pid ==> IsVote(o, pid)
  }

  lemma LowerDecision(decision: string)
    requires decision == "yes" || decision == "no"
    ensures ToLower(decision) == decision
  {
  }

  /** How one more operation changes what the pass remembers of an author's vote. */
  lemma PassStep(front: Ops, last: Operation, pid: string, a: NodeId)
    requires TrimSpace(pid) != "" && TrimSpace(a) != ""
    requires last.payload.Vote? && last.payload.vote.proposalId == pid ==> IsVote(last, pid)
    ensures var before, after := VotesOn(VotesIn(front), pid), VotesOn(VotesIn(front + [last]), pid);
      if IsVote(last, pid) && last.author == a then a in after && after[a] == last.payload.vote.decision
      else (a in after <==> a in before) && (a in after ==> after[a] == before[a])
  {
    hide TrimSpace, ToLower;
    assert (front + [last])[..|front|] == front;
    if IsVote(last, pid) {
      LowerDecision(last.payload.vote.decision);
    }
  }

  /** What the pass remembers for an author is its highest-sequence vote, because file order
      and sequence order agree per author. */
  lemma {:induction false} PassFindsLatestVote(log: Ops, pid: string, a: NodeId)
    requires Ascending(log) && ReadableVotes(log, pid) && TrimSpace(pid) != "" && TrimSpace(a) != ""
    ensures var votes := VotesOn(VotesIn(log), pid);
      && (a in votes ==> Votes(log, pid, a, votes[a]) && (votes[a] == "yes" || votes[a] == "no"))
      && (a !in votes ==> forall o :: o in log && o.author == a ==> !IsVote(o, pid))
  {
    if log != [] {
      hide TrimSpace, ToLower, Votes, VotesIn, VotesOn;
      var front, last := log[..|log| - 1], log[|log| - 1];
      var votes := VotesOn(VotesIn(log), pid);
      assert log == front + [last] && last in log;
      PassFindsLatestVote(front, pid, a);
      PassStep(front, last, pid, a);
      if IsVote(last, pid) && last.author == a {
        LastVoteIsLatest(front, last, pid);
      } else if a in votes {
        VoteKept(front, last, pid, a, votes[a]);
      }
    }
  }

  lemma LastVoteIsLatest(front: Ops, last: Operation, pid: string)
    requires Ascending(front + [last]) && IsVote(last, pid)
    ensures Votes(front + [last], pid, last.author, last.payload.vote.decision)
  {
    var log := front + [last];
    forall p | p in front && p.author == last.author ensures p.seqNo < last.seqNo {
      var i :| 0 <= i < |front| && front[i] == p;
      assert log[i] == p && log[|front|] == last;
    }
    assert last in log;
  }

  lemma PassCounts(log: Ops, members: set<NodeId>, pid: string, decision: string)
    requires WellFormed(log) && Ascending(log) && ReadableVotes(log, pid) && TrimSpace(pid) != ""
    requires decision == "yes" || decision == "no"
    ensures var votes := VotesOn(VotesIn(log), pid);
      forall a :: a in Counted(votes, members, decision) <==> a in members && Votes(log, pid, a, decision)
  {
    hide TrimSpace, VotesIn, VotesOn, WellFormed;
    var votes := VotesOn(VotesIn(log), pid);
    forall a ensures a in Counted(votes, members, decision) <==> a in members && Votes(log, pid, a, decision) {
      if Votes(log, pid, a, decision) {
        AuthorNamed(log, pid, a, decision);
        PassFindsLatestVote(log, pid, a);
        SameVote(log, pid, a, decision, votes[a]);
      } else if a in votes {
        VoterNamed(log, pid, a);
        PassFindsLatestVote(log, pid, a);
      }
    }
  }

  lemma AuthorNamed(log: Ops, pid: string, a: NodeId, decision: string)
    requires WellFormed(log) && Votes(log, pid, a, decision)
    ensures TrimSpace(a) != "" && exists o :: o in log && o.author == a && IsVote(o, pid)
  {
    hide TrimSpace;
    var o :| o in log && IsVote(o, pid) && o.author == a;
    assert Valid(o);
  }

  lemma SameVote(log: Ops, pid: string, a: NodeId, d: string, e: string)
    requires WellFormed(log) && Votes(log, pid, a, d) && Votes(log, pid, a, e)
    ensures d == e
  {
    hide Valid;
    var x :| x in log && IsVote(x, pid) && x.author == a && x.payload.vote.decision == d
      && forall p :: p in log && IsVote(p, pid) && p.author == a ==> p.seqNo <= x.seqNo;
    var y :| y in log && IsVote(y, pid) && y.author == a && y.payload.vote.decision == e
      && forall p :: p in log && IsVote(p, pid) && p.author == a ==> p.seqNo <= y.seqNo;
    KeysDistinct(log);
    assert SameKey(x, y);
  }

  lemma {:induction false} VoterNamed(log: Ops, pid: string, a: NodeId)
    requires a in VotesOn(VotesIn(log), pid)
    ensures TrimSpace(a) != ""
  {
    hide TrimSpace, ToLower;
    if log != [] && a in VotesOn(VotesIn(log[..|log| - 1]), pid) {
      VoterNamed(log[..|log| - 1], pid, a);
    }
  }

  lemma {:induction false} PassFindsProposal(log: Ops, op: Operation, pid: string)
    requires TrimSpace(pid) != "" && op in log && IsProposal(op, pid)
    requires forall p :: p in log && IsProposal(p, pid) ==> p == op
    ensures pid in ProposalsIn(log) && ProposalsIn(log)[pid] == op
  {
    hide TrimSpace;
    var front, last := log[..|log| - 1], log[|log| - 1];
    assert log == front + [last];
    if op in front {
      PassFindsProposal(front, op, pid);
    }
  }

  /** The proposals shown are those with an ID that is not blank, and of several under one ID the
      last in the file. */
  lemma {:induction false} PassFindsLastProposal(log: Ops, pid: string)
    ensures pid in ProposalsIn(log) <==> TrimSpace(pid) != "" && exists o :: o in log && IsProposal(o, pid)
    ensures pid in ProposalsIn(log) ==>
      exists i :: 0 <= i < |log| && log[i] == ProposalsIn(log)[pid] && forall j :: i < j < |log| ==> !IsProposal(log[j], pid)
  {
    hide TrimSpace, IsProposal;
    if log != [] {
      hide ProposalsIn;
      var front, last := log[..|log| - 1], log[|log| - 1];
      assert log == front + [last];
      PassFindsLastProposal(front, pid);
      LastProposalStep(front, last, pid);
      if IsProposal(last, pid) {
        assert log[|log| - 1] == last;
      } else if pid in ProposalsIn(front) {
        var i :| 0 <= i < |front| && front[i] == ProposalsIn(front)[pid]
          && forall j :: i < j < |front| ==> !IsProposal(front[j], pid);
        assert log[i] == front[i];
      }
    }
  }

  lemma LastProposalStep(front: Ops, last: Operation, pid: string)
    ensures var before, after := ProposalsIn(front), ProposalsIn(front + [last]);
      if IsProposal(last, pid) && TrimSpace(pid) != "" then pid in after && after[pid] == last
      else (pid in after <==> pid in before) && (pid in after ==> after[pid] == before[pid])
  {
    hide TrimSpace;
    assert (front + [last])[..|front|] == front;
  }

  /** What the client shows for whatever the configuration file says: repeats in the member list
      count, the yes votes must be more than the threshold's share of the voters, a half if it is
      zero, all of them if it is one or more, and one is enough if it is negative. */
  lemma ViewQuorumMeans(node: NodeId, log: Ops, cfg: Config, op: Operation, now: int)
    requires op.payload.Proposal?
    ensures var v := ViewOf(ReadGossip(node, log, cfg), op, now);
      && v.proposal == op.payload.proposal && v.proposer == op.author && v.createdAt == op.timestamp
      && v.voters >= 1 && (cfg.members != [] ==> v.voters == |cfg.members|)
      && (0.0 < cfg.threshold < 1.0 ==> (v.quorum <==> v.yesVotes as real > cfg.threshold * v.voters as real))
      && (cfg.threshold == 0.0 ==> (v.quorum <==> 2 * v.yesVotes > v.voters))
      && (cfg.threshold >= 1.0 ==> (v.quorum <==> v.yesVotes >= v.voters))
      && (cfg.threshold < 0.0 ==> (v.quorum <==> v.yesVotes > 0))
  {
    hide CertsIn, VotesIn, Counted, MemberSet, KnownAuthors, ViewRequired, IsExpired;
    var data := ReadGossip(node, log, cfg);
    RequiredShare(data, |Counted(VotesOn(VotesIn(log), op.payload.proposal.proposalId), MemberSet(data), "yes")|,
                  data.threshold * VoterCount(data) as real);
  }

  lemma RequiredShare(data: GossipData, yes: nat, share: real)
    requires share == data.threshold * VoterCount(data) as real
    ensures 0.0 < data.threshold < 1.0 ==> (yes >= ViewRequired(data) <==> yes as real > share)
    ensures data.threshold >= 1.0 ==> ViewRequired(data) == VoterCount(data)
    ensures data.threshold < 0.0 ==> ViewRequired(data) == 1
  {
    hide VoterCount, Min, Max;
    ShareRange(data.threshold, VoterCount(data) as real, share);
    ClampedShare(share, VoterCount(data), yes, ViewRequired(data));
  }

  lemma ShareRange(t: real, n: real, share: real)
    requires n >= 1.0 && share == t * n
    ensures 0.0 < t < 1.0 ==> 0.0 < share < n
    ensures t >= 1.0 ==> share >= n
    ensures t < 0.0 ==> share < 0.0
  {
    if 0.0 < t < 1.0 {
      assert (1.0 - t) * n > 0.0;
    } else if t >= 1.0 {
      assert (t - 1.0) * n >= 0.0;
    }
  }

  lemma ClampedShare(share: real, n: nat, yes: nat, required: int)
    requires n >= 1 && required == Min(Max(share.Floor + 1, 1), n)
    ensures 0.0 < share < n as real ==> (yes >= required <==> yes as real > share)
    ensures share >= n as real ==> required == n
    ensures share < 0.0 ==> required == 1
  {
  }

  /** The last vote of `a` on the proposal in the file, whatever it says, reads `decision` in
      lower case. */
  ghost predicate LastDecision(log: Ops, pid: string, a: NodeId, decision: string) {
    exists i :: 0 <= i < |log| && VoteBy(log[i], pid, a) && ToLower(log[i].payload.vote.decision) == decision
      && forall j :: i < j < |log| ==> !VoteBy(log[j], pid, a)
  }

  ghost predicate VoteBy(o: Operation, pid: string, a: NodeId) {
    o.payload.Vote? && o.payload.vote.proposalId == pid && o.author == a
  }

  lemma LastDecisionStep(front: Ops, last: Operation, pid: string, a: NodeId)
    requires TrimSpace(pid) != "" && TrimSpace(a) != ""
    ensures var before, after := VotesOn(VotesIn(front), pid), VotesOn(VotesIn(front + [last]), pid);
      if VoteBy(last, pid, a) then a in after && after[a] == ToLower(last.payload.vote.decision)
      else (a in after <==> a in before) && (a in after ==> after[a] == before[a])
  {
    hide TrimSpace, ToLower;
    assert (front + [last])[..|front|] == front;
  }

  lemma {:induction false} PassFindsLastDecision(log: Ops, pid: string, a: NodeId)
    requires TrimSpace(pid) != "" && TrimSpace(a) != ""
    ensures var votes := VotesOn(VotesIn(log), pid);
      && (a in votes <==> exists o :: o in log && VoteBy(o, pid, a))
      && (a in votes ==> LastDecision(log, pid, a, votes[a]))
  {
    hide TrimSpace, ToLower, VoteBy;
    if log != [] {
      hide VotesIn, VotesOn;
      var front, last := log[..|log| - 1], log[|log| - 1];
      var votes := VotesOn(VotesIn(log), pid);
      assert log == front + [last];
      PassFindsLastDecision(front, pid, a);
      LastDecisionStep(front, last, pid, a);
      if VoteBy(last, pid, a) {
        assert last in log && log[|log| - 1] == last;
      } else if a in votes {
        LastDecisionKept(front, last, pid, a, votes[a]);
      }
    }
  }

  lemma LastDecisionKept(front: Ops, last: Operation, pid: string, a: NodeId, decision: string)
    requires LastDecision(front, pid, a, decision) && !VoteBy(last, pid, a)
    ensures LastDecision(front + [last], pid, a, decision)
  {
    hide ToLower;
    var i :| 0 <= i < |front| && VoteBy(front[i], pid, a) && ToLower(front[i].payload.vote.decision) == decision
      && forall j :: i < j < |front| ==> !VoteBy(front[j], pid, a);
    assert (front + [last])[i] == front[i];
  }

  /** What the client counts on any file, signed by a store or not: the members whose last vote
      there reads yes, or no, in any case. */
  lemma ViewCountsLastDecisions(data: GossipData, op: Operation, now: int, yes: set<NodeId>, no: set<NodeId>)
    requires op.payload.Proposal? && TrimSpace(op.payload.proposal.proposalId) != ""
    requires forall a :: a in yes <==>
      a in MemberSet(data) && TrimSpace(a) != "" && LastDecision(data.ops, op.payload.proposal.proposalId, a, "yes")
    requires forall a :: a in no <==>
      a in MemberSet(data) && TrimSpace(a) != "" && LastDecision(data.ops, op.payload.proposal.proposalId, a, "no")
    ensures ViewOf(data, op, now).yesVotes == |yes| && ViewOf(data, op, now).noVotes == |no|
  {
    hide TrimSpace, VotesIn, VotesOn, CertsIn, MemberSet, ViewRequired, VoterCount, LastDecision;
    var pid := op.payload.proposal.proposalId;
    var votes := VotesOn(VotesIn(data.ops), pid);
    forall a, d
      ensures a in Counted(votes, MemberSet(data), d)
        <==> a in MemberSet(data) && TrimSpace(a) != "" && LastDecision(data.ops, pid, a, d)
    {
      CountedIffLast(data, pid, a, d);
    }
    assert Counted(votes, MemberSet(data), "yes") == yes;
    assert Counted(votes, MemberSet(data), "no") == no;
  }

  lemma CountedIffLast(data: GossipData, pid: string, a: NodeId, d: string)
    requires TrimSpace(pid) != ""
    ensures a in Counted(VotesOn(VotesIn(data.ops), pid), MemberSet(data), d)
      <==> a in MemberSet(data) && TrimSpace(a) != "" && LastDecision(data.ops, pid, a, d)
  {
    hide TrimSpace, VotesIn, VotesOn, MemberSet, ToLower, VoteBy;
    if TrimSpace(a) != "" {
      PassFindsLastDecision(data.ops, pid, a);
    } else if a in VotesOn(VotesIn(data.ops), pid) {
      VoterNamed(data.ops, pid, a);
    }
  }

  lemma {:induction false} PassFindsCert(log: Ops, pid: string)
    requires TrimSpace(pid) != ""
    ensures pid in CertsIn(log) <==> Last(log, CertFor(pid)).Some?
    ensures pid in CertsIn(log) ==> CertsIn(log)[pid] == Last(log, CertFor(pid)).value.payload.cert.certified
  {
    hide TrimSpace;
    if log != [] {
      PassFindsCert(log[..|log| - 1], pid);
    }
  }

  /** A configuration file as the program leaves it. */
  ghost predicate SavedByStore(file: ConfigFile) {
    file.Absent? || (file.Saved? && Normalized(file.config))
  }

  function ConfigIn(file: ConfigFile): Config {
    if file.Saved? then file.config else Config(0.5, [])
  }

  lemma SavedReadsBack(file: ConfigFile)
    requires SavedByStore(file)
    ensures ReadConfig(file) == Ok(ConfigIn(file)) && Normalized(ConfigIn(file))
  {
    if file.Saved? {
      NormalizedIsFixed(file.config);
    }
  }

  /** The two memberships are the same exactly when the placeholder deletion does not drop
      the node itself. */
  lemma MembershipsAgreeIff(log: Ops, node: NodeId, cfg: Config, op: Operation)
    requires WellFormed(log) && Normalized(cfg) && TrimSpace(node) != "" && op in log && op.payload.Proposal?
    ensures var proposal, data := op.payload.proposal, ReadGossip(node, log, cfg);
      var members := MembersOf(SortedOps(log), node, op.author, proposal, cfg);
      && (SetOf(members) == MemberSet(data)
          <==> cfg.members != [] || node in Authors(log) || (node != proposal.ref && node != proposal.newOid))
      && (SetOf(members) == MemberSet(data) ==> VoterCount(data) == |members|)
  {
    hide SortedOps, TrimSpace, Normalized, MembersOf;
    var proposal, data := op.payload.proposal, ReadGossip(node, log, cfg);
    var members := MembersOf(SortedOps(log), node, op.author, proposal, cfg);
    MembersSpec(log, node, cfg, op);
    SizeOfDistinct(members);
    if cfg.members != [] {
      ConfiguredMembers(SortedOps(log), node, op.author, proposal, cfg);
      assert SetOf(members) == MemberSet(data);
    } else if node in Authors(log) || (node != proposal.ref && node != proposal.newOid) {
      assert SetOf(members) == MemberSet(data);
    } else {
      assert node in MemberSet(data) && node !in SetOf(members);
    }
  }

  lemma CountIsLength(votes: map<NodeId, string>, members: set<NodeId>, decision: string, voters: seq<NodeId>)
    requires StrictlyOrdered(Less, voters)
    requires forall a :: a in Counted(votes, members, decision) <==> a in voters
    ensures |Counted(votes, members, decision)| == |voters|
  {
    hide Counted, Less;
    SizeOfDistinct(voters);
    assert Counted(votes, members, decision) == SetOf(voters);
  }

  /** What both sides read alike. */
  ghost predicate Comparable(log: Ops, node: NodeId, file: ConfigFile, pid: string, op: Operation) {
    && WellFormed(log) && Ascending(log) && SavedByStore(file)
    && TrimSpace(node) != "" && pid != "" && TrimSpace(pid) == pid
    && op in log && IsProposal(op, pid) && (forall p :: p in log && IsProposal(p, pid) ==> p == op)
    && ReadableVotes(log, pid)
  }

  lemma ComparableStatus(log: Ops, node: NodeId, file: ConfigFile, pid: string, now: int, op: Operation)
    requires Comparable(log, node, file, pid, op)
    ensures StatusOf(log, node, file, pid, now) == Ok(Tally(SortedOps(log), node, ConfigIn(file), op, now))
    ensures pid in ProposalsIn(log) && ProposalsIn(log)[pid] == op
  {
    hide SortedOps, TrimSpace, Tally, WellFormed;
    PassFindsProposal(log, op, pid);
    SavedReadsBack(file);
    SortedStrictly(log);
    FirstMatches(SortedOps(log), ProposalFor(pid));
    assert ProposalFor(pid).Matches(op);
  }

  lemma TallyShape(log: Ops, node: NodeId, cfg: Config, op: Operation, now: int)
    requires op.payload.Proposal?
    ensures var s := Tally(SortedOps(log), node, cfg, op, now);
      && s.proposal == op.payload.proposal && s.proposer == op.author && s.threshold == cfg.threshold
      && s.members == MembersOf(SortedOps(log), node, op.author, op.payload.proposal, cfg)
      && s.expired == IsExpired(op.payload.proposal, now)
  {
  }

  /** The last certificate for the proposal in file order is a certified one. */
  predicate FileCertified(log: Ops, pid: string) {
    var last := Last(log, CertFor(pid));
    last.Some? && last.value.payload.cert.certified
  }

  /** The log holds a certified certificate for the proposal. */
  ghost predicate HoldsCertified(log: Ops, pid: string) {
    exists o :: o in log && IsCertified(o, pid)
  }

  /** The client shows what the last certificate in the file says. */
  lemma ViewShowsLastCertificate(log: Ops, node: NodeId, cfg: Config, now: int, op: Operation, pid: string)
    requires IsProposal(op, pid) && TrimSpace(pid) != ""
    ensures ViewOf(ReadGossip(node, log, cfg), op, now).certified == FileCertified(log, pid)
    ensures FileCertified(log, pid) ==> HoldsCertified(log, pid)
  {
    hide TrimSpace, CertsIn, VotesIn, Counted, MemberSet, VoterCount, ViewRequired;
    PassFindsCert(log, pid);
    LastMatches(log, CertFor(pid));
  }

  /** The certified flags agree exactly when the log holds no certified certificate for the
      proposal or its last certificate in the file is one: a later uncertified certificate
      hides a certified one from the client. */
  lemma ViewCertificationAgreesIff(log: Ops, node: NodeId, file: ConfigFile, pid: string, now: int, op: Operation)
    requires Comparable(log, node, file, pid, op)
    ensures var r := StatusOf(log, node, file, pid, now);
      r.Ok? && (ViewOf(ReadGossip(node, log, ConfigIn(file)), op, now).certified == r.value.certified
                <==> (HoldsCertified(log, pid) ==> FileCertified(log, pid)))
    ensures (forall o :: o in log && IsCert(o, pid) ==> o.payload.cert.certified) ==>
      HoldsCertified(log, pid) ==> FileCertified(log, pid)
  {
    hide SortedOps, TrimSpace, WellFormed, Ascending, VotersMean, CountsMean, SavedByStore, ReadableVotes, Tally,
         StatusOf, ViewOf,
         IsCertified;
    ComparableStatus(log, node, file, pid, now, op);
    StatusSpec(log, node, file, pid, now);
    ViewShowsLastCertificate(log, node, ConfigIn(file), now, op, pid);
    LastMatches(log, CertFor(pid));
    CertifiedIsCert(log, pid);
  }

  lemma CertifiedIsCert(log: Ops, pid: string)
    ensures HoldsCertified(log, pid) ==> exists o :: o in log && CertFor(pid).Matches(o)
  {
    if o :| o in log && IsCertified(o, pid) {
      assert CertFor(pid).Matches(o);
    }
  }

  /** What the client shows and what the status says. */
  ghost predicate CountsAgree(data: GossipData, v: ProposalView, s: ProposalStatus) {
    && v.proposal == s.proposal && v.proposer == s.proposer && v.expired == s.expired
    && MemberSet(data) == SetOf(s.members) && v.voters == |s.members|
    && v.yesVotes == |s.yesVoters| && v.noVotes == |s.noVoters|
    && v.requiredYes == s.requiredYes && v.quorum == s.hasQuorum
  }

  lemma RequiredAgrees(data: GossipData, memberCount: int)
    requires memberCount == VoterCount(data)
    ensures ViewRequired(data) == RequiredYes(memberCount, data.threshold)
  {
    hide KnownAuthors, VoterCount;
    var product := data.threshold * memberCount as real;
    assert ViewRequired(data) == Min(Max(product.Floor + 1, 1), memberCount);
  }

  lemma VoterCountsAgree(log: Ops, members: seq<NodeId>, pid: string, s: ProposalStatus)
    requires WellFormed(log) && Ascending(log) && ReadableVotes(log, pid) && TrimSpace(pid) != ""
    requires VotersMean(log, pid, s) && s.members == members
    ensures |Counted(VotesOn(VotesIn(log), pid), SetOf(members), "yes")| == |s.yesVoters|
    ensures |Counted(VotesOn(VotesIn(log), pid), SetOf(members), "no")| == |s.noVoters|
  {
    hide TrimSpace, WellFormed, Ascending, ReadableVotes, VotesOn, VotesIn, Votes, StrictlyOrdered, Less, Counted;
    var votes := VotesOn(VotesIn(log), pid);
    PassCounts(log, SetOf(members), pid, "yes");
    PassCounts(log, SetOf(members), pid, "no");
    CountIsLength(votes, SetOf(members), "yes", s.yesVoters);
    CountIsLength(votes, SetOf(members), "no", s.noVoters);
  }

  /** One pass over the file gives the same voter counts, membership, required count,
      quorum and expiry as `ProposalStatus` on the sorted log, on any log one store writes,
      unless the placeholder deletion drops the node from its own membership. */
  lemma {:induction false} ViewRefinesStatus(log: Ops, node: NodeId, file: ConfigFile, pid: string, now: int,
                                             op: Operation)
    requires Comparable(log, node, file, pid, op)
    requires var proposal := op.payload.proposal;
      ConfigIn(file).members != [] || node in Authors(log) || (node != proposal.ref && node != proposal.newOid)
    ensures pid in ProposalsIn(log) && ProposalsIn(log)[pid] == op
    ensures var r, data := StatusOf(log, node, file, pid, now), ReadGossip(node, log, ConfigIn(file));
      r.Ok? && CountsAgree(data, ViewOf(data, op, now), r.value)
  {
    hide SortedOps, TrimSpace, Tally, WellFormed, Ascending, Less, VotesIn, VotesOn, CertsIn, Counted,
         CertificationMeans;
    hide MembersOf, ReadableVotes, ProposalsIn, StatusOf, VotersMean, SavedByStore, Normalized, VoterCount,
         ViewRequired, RequiredYes;
    var cfg := ConfigIn(file);
    var data := ReadGossip(node, log, cfg);
    ComparableStatus(log, node, file, pid, now, op);
    SavedReadsBack(file);
    StatusSpec(log, node, file, pid, now);
    var s := StatusOf(log, node, file, pid, now).value;
    TallyShape(log, node, cfg, op, now);
    MembershipsAgreeIff(log, node, cfg, op);
    VoterCountsAgree(log, s.members, pid, s);
    RequiredAgrees(data, |s.members|);
    assert data.threshold == s.threshold;
  }
}
