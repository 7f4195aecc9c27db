/** Merging logs: order and repetition do not matter, a delta is as good as the whole log,
    and no delta opens a hole. */
module Merge {
  import opened Consensus
  import Journal
  import opened Log
  import opened Operations
  import opened Replica
  import opened Sorting
  import opened Strings
  import opened Wrappers

  ghost predicate SameElements(x: Ops, y: Ops) {
    forall o :: o in x <==> o in y
  }

  /** Valid operations of which no two dispute an author and sequence; repeats are fine. */
  ghost predicate ConflictFree(ops: Ops) {
    && (forall o :: o in ops ==> Valid(o))
    && (forall o, p :: o in ops && p in ops && SameKey(o, p) ==> o == p)
  }

  lemma {:induction false} AddAllUnion(log: Ops, ops: Ops)
    requires WellFormed(log) && ConflictFree(log + ops)
    ensures WellFormed(AddAll(log, ops)) && log <= AddAll(log, ops)
    ensures forall o :: o in AddAll(log, ops) <==> o in log || o in ops
  {
    hide Valid;
    if ops != [] {
      var front, last := ops[..|ops| - 1], ops[|ops| - 1];
      assert ops == front + [last];
      assert forall o :: o in log + front ==> o in log + ops;
      AddAllUnion(log, front);
      AddOutcome(AddAll(log, front), last);
      assert last in log + ops;
    }
  }

  lemma SameElementsSameSummary(x: Ops, y: Ops)
    requires SameElements(x, y)
    ensures SummaryOf(x) == SummaryOf(y)
  {
    hide Extent;
    assert Authors(x) == Authors(y);
    forall a ensures Extent(x, a) == Extent(y, a) {
      ExtentIsMax(x, a);
      ExtentIsMax(y, a);
    }
  }

  lemma SameElementsSameOrder(x: Ops, y: Ops)
    requires WellFormed(x) && WellFormed(y) && SameElements(x, y)
    ensures SortedOps(x) == SortedOps(y)
  {
    hide SortedOps, KeyLess, WellFormed;
    SortedStrictly(x);
    SortedStrictly(y);
    KeyOrder();
    StrictlyOrderedUnique(KeyLess, SortedOps(x), SortedOps(y));
  }

  /** Whatever order, and however often, a conflict-free set of operations arrives, a store
      ends up answering the same: operations, summary, deltas and proposal status. */
  lemma ArrivalOrderIrrelevant(p: Ops, q: Ops)
    requires ConflictFree(p) && SameElements(p, q)
    ensures var x, y := AddAll([], p), AddAll([], q);
      && SortedOps(x) == SortedOps(y) && SummaryOf(x) == SummaryOf(y)
      && (forall summary, limit :: Missing(x, summary, limit) == Missing(y, summary, limit))
      && (forall node, file, pid, now :: StatusOf(x, node, file, pid, now) == StatusOf(y, node, file, pid, now))
  {
    hide SortedOps, SummaryOf, WellFormed, Tally, Valid;
    var x, y := AddAll([], p), AddAll([], q);
    assert [] + p == p && [] + q == q;
    assert WellFormed([]) by { Journal.EmptyWellFormed(); }
    AddAllUnion([], p);
    AddAllUnion([], q);
    SameElementsSameOrder(x, y);
    SameElementsSameSummary(x, y);
  }

  // ------------------------------------------------------------------ deltas and holes

  /** A summary some store once gave out, or any lower one. */
  ghost predicate Within(summary: Summary, log: Ops) {
    forall a :: At(summary, a) <= Extent(log, a)
  }

  /** `ops[i]` is at most one past what the receiver holds when its turn comes. */
  ghost predicate Linked(log: Ops, ops: Ops, i: nat)
    requires i < |ops|
  {
    ops[i].seqNo <= Extent(log, ops[i].author) + 1
    || (i > 0 && ops[i - 1].author == ops[i].author && ops[i - 1].seqNo + 1 == ops[i].seqNo)
  }

  /** Consecutive sequences of one author are neighbours in the sorted order. */
  lemma NeighboursInOrder(ops: Ops, j: nat, i: nat)
    requires StrictlyOrdered(KeyLess, ops) && j < |ops| && i < |ops|
    requires ops[j].author == ops[i].author && ops[j].seqNo + 1 == ops[i].seqNo
    ensures j + 1 == i
  {
    LessIrreflexive(ops[i].author);
    if j + 1 < i {
      var k := j + 1;
      assert KeyLess(ops[j], ops[k]) && KeyLess(ops[k], ops[i]);
      if Less(ops[j].author, ops[k].author) && Less(ops[k].author, ops[i].author) {
        LessTransitive(ops[j].author, ops[k].author, ops[i].author);
      }
    }
  }

  /** A store without holes that has an operation has all earlier ones by its author. */
  lemma HoldsEarlier(log: Ops, o: Operation, seqNo: Uint64) returns (earlier: Operation)
    requires Gapless(log) && o in log && 0 < seqNo <= o.seqNo
    ensures earlier in log && earlier.author == o.author && earlier.seqNo == seqNo
  {
    var history := By(log, o.author);
    assert Numbered(history);
    NumberedPosition(log, o);
    earlier := history[seqNo - 1];
    ByElements(log, o.author);
    assert earlier in history;
  }

  lemma WholeDeltaLinked(from: Ops, to: Ops, summary: Summary, i: nat)
    requires WellFormed(from) && Gapless(from) && Within(summary, to) && i < |Missing(from, summary, 0)|
    ensures Linked(to, Missing(from, summary, 0), i)
  {
    hide KeyLess, StrictlyOrdered, Missing, Extent, WellFormed, Gapless;
    var all := Missing(from, summary, 0);
    var o := all[i];
    MissingIsDifference(from, summary);
    assert o in all;
    if o.seqNo > Extent(to, o.author) + 1 {
      var earlier := HoldsEarlier(from, o, o.seqNo - 1);
      assert earlier in all;
      var j :| 0 <= j < |all| && all[j] == earlier;
      NeighboursInOrder(all, j, i);
    }
  }

  lemma LinkedInPrefix(log: Ops, ops: Ops, all: Ops, i: nat)
    requires ops <= all && i < |ops| && Linked(log, all, i)
    ensures Linked(log, ops, i)
  {
    hide Extent;
  }

  /** What `MissingFor` answers, truncated or not, can be added without leaving a hole. */
  lemma DeltaLinked(from: Ops, to: Ops, summary: Summary, limit: int)
    requires WellFormed(from) && Gapless(from) && Within(summary, to)
    ensures forall i :: 0 <= i < |Missing(from, summary, limit)| ==> Linked(to, Missing(from, summary, limit), i)
  {
    hide WellFormed, Gapless, Missing, Linked;
    var ops := Missing(from, summary, limit);
    MissingPrefix(from, summary, limit);
    forall i | 0 <= i < |ops| ensures Linked(to, ops, i) {
      WholeDeltaLinked(from, to, summary, i);
      LinkedInPrefix(to, ops, Missing(from, summary, 0), i);
    }
  }

  /** The next operation of an author's history, for one author. */
  lemma NextExtendsHistory(from: Ops, to: Ops, o: Operation, b: NodeId)
    requires Gapless(from) && Gapless(to) && Agree(from, to) && o in from && o.seqNo == |By(to, o.author)| + 1
    ensures Numbered(By(to + [o], b))
    ensures By(from, b) <= By(to + [o], b) || By(to + [o], b) <= By(from, b)
  {
    hide By;
    ByAppend(to, o, b);
    assert Numbered(By(to, b)) && Numbered(By(from, b));
    assert By(from, b) <= By(to, b) || By(to, b) <= By(from, b);
    if b == o.author {
      NumberedPosition(from, o);
    }
  }

  /** One more operation of an agreeing store, at most one past the extent. */
  lemma AddKeepsGapless(from: Ops, to: Ops, o: Operation)
    requires Sound(from) && Sound(to) && Gapless(from) && Gapless(to) && Agree(from, to)
    requires o in from && o.seqNo <= Extent(to, o.author) + 1
    ensures var r := AddTo(to, o);
      to <= r && Sound(r) && Gapless(r) && Agree(from, r) && o.seqNo <= Extent(r, o.author) && o in r
  {
    hide Valid, Extent, Numbered, By, OutcomeOf;
    var a, r := o.author, AddTo(to, o);
    GaplessWellFormed(to);
    AddOutcome(to, o);
    ExtentIsMax(to, a);
    ExtentIsMax(r, a);
    if o.seqNo <= Extent(to, a) {
      WithinExtentIsHeld(from, to, o);
    } else {
      assert r == to + [o];
      NumberedExtent(to, a);
      forall b ensures Numbered(By(r, b)) && (By(from, b) <= By(r, b) || By(r, b) <= By(from, b)) {
        NextExtendsHistory(from, to, o, b);
      }
    }
  }

  lemma {:induction false} LinkedKeepsGapless(from: Ops, to: Ops, ops: Ops)
    requires Sound(from) && Sound(to) && Gapless(from) && Gapless(to) && Agree(from, to)
    requires forall i :: 0 <= i < |ops| ==> ops[i] in from && Linked(to, ops, i)
    ensures var r := AddAll(to, ops);
      && to <= r && Sound(r) && Gapless(r) && Agree(from, r)
      && (ops != [] ==> ops[|ops| - 1].seqNo <= Extent(r, ops[|ops| - 1].author))
      && (forall o :: o in ops ==> o in r)
  {
    hide Sound, Gapless, Agree, Extent, AddTo;
    if ops != [] {
      var front, last := ops[..|ops| - 1], ops[|ops| - 1];
      assert ops == front + [last];
      forall i | 0 <= i < |front| ensures front[i] in from && Linked(to, front, i) {
        LinkedInPrefix(to, front, ops, i);
      }
      LinkedKeepsGapless(from, to, front);
      ExtentGrows(to, AddAll(to, front), last.author);
      assert Linked(to, ops, |ops| - 1);
      AddKeepsGapless(from, AddAll(to, front), last);
    }
  }

  /** Delta exchange refines full-state merge. For agreeing stores, adding what the sender
      holds above any summary the receiver is past gives the same store as adding the sender's
      whole log; a truncated delta is its first operations, and either way the receiver
      is left without a hole. */
  lemma {:induction false} DeltaRefinesMerge(from: Ops, to: Ops, summary: Summary, limit: int)
    requires Sound(from) && Sound(to) && Gapless(from) && Gapless(to) && Agree(from, to) && Within(summary, to)
    ensures SameElements(AddAll(to, Missing(from, summary, 0)), AddAll(to, from))
    ensures forall o :: o in AddAll(to, from) <==> o in to || o in from
    ensures Missing(from, summary, limit) <= Missing(from, summary, 0)
    ensures limit > 0 ==> |Missing(from, summary, limit)| == Min(limit, |Missing(from, summary, 0)|)
    ensures Gapless(AddAll(to, Missing(from, summary, limit)))
  {
    hide Sound, Gapless, Agree, Extent, WellFormed, ConflictFree, Newer, SortedOps;
    var all, ops := Missing(from, summary, 0), Missing(from, summary, limit);
    GaplessWellFormed(from);
    GaplessWellFormed(to);
    MissingIsDifference(from, summary);
    MissingPrefix(from, summary, limit);
    DeltaLinked(from, to, summary, limit);
    assert forall i :: 0 <= i < |ops| ==> ops[i] == all[i] && all[i] in all;
    LinkedKeepsGapless(from, to, ops);
    AgreeingConflictFree(from, to, all);
    AgreeingConflictFree(from, to, from);
    AddAllUnion(to, all);
    AddAllUnion(to, from);
    forall o | o in from && o !in all ensures o in to {
      WithinExtentIsHeld(from, to, o);
    }
  }

  lemma AgreeingConflictFree(from: Ops, to: Ops, part: Ops)
    requires Sound(from) && Sound(to) && Gapless(from) && Gapless(to) && Agree(from, to)
    requires forall o :: o in part ==> o in from
    ensures ConflictFree(to + part)
  {
    hide Valid, Gapless, Agree;
    GaplessWellFormed(from);
    GaplessWellFormed(to);
    KeysDistinct(from);
    KeysDistinct(to);
    forall o, p | o in from && p in to && SameKey(o, p) ensures o == p {
      ExtentIsMax(to, p.author);
      WithinExtentIsHeld(from, to, o);
    }
  }

  // -------------------------------------------------------------- certification is stable

  /** Once certified, a proposal stays certified at every store that holds at least the same
      operations, whatever votes, clock or configuration it has. */
  lemma CertificationIsStable(x: Ops, y: Ops, node: NodeId, peer: NodeId, file: ConfigFile, other: ConfigFile,
                              pid: string, now: int, later: int)
    requires WellFormed(x) && WellFormed(y) && (forall o :: o in x ==> o in y)
    requires StatusOf(x, node, file, pid, now).Ok? && StatusOf(x, node, file, pid, now).value.certified
    requires ReadConfig(other).Ok?
    ensures StatusOf(y, peer, other, pid, later).Ok? && StatusOf(y, peer, other, pid, later).value.certified
  {
    hide SortedOps, Tally, TrimSpace, WellFormed, VotersMean, CountsMean;
    var cfg, proposalOp := StatusFinds(x, node, file, pid, now);
    SortedStrictly(x);
    SortedStrictly(y);
    FirstMatches(SortedOps(y), ProposalFor(TrimSpace(pid)));
    assert ProposalFor(TrimSpace(pid)).Matches(proposalOp);
    StatusSpec(x, node, file, pid, now);
    StatusSpec(y, peer, other, pid, later);
  }
}
