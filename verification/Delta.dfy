/** Delta exchange: what a batch of missing operations does to the store that applies it. */
module Delta {
  import opened Log
  import opened Operations
  import opened Sorting

  /** The first `n` elements, or all of them. */
  function Take<T>(s: seq<T>, n: int): seq<T> {
    if n <= 0 then [] else if |s| <= n then s else s[..n]
  }

  /** What `Take` leaves. */
  function Drop<T>(s: seq<T>, n: int): seq<T> {
    if n <= 0 then s else if |s| <= n then [] else s[n..]
  }

  /** What one store holds above everything the other knows of. */
  function Gap(from: Ops, to: Ops): Ops {
    Missing(from, SummaryOf(to), 0)
  }

  lemma GapElements(from: Ops, to: Ops)
    requires WellFormed(from)
    ensures StrictlyOrdered(KeyLess, Gap(from, to))
    ensures forall o :: o in Gap(from, to) <==> o in from && o.seqNo > Extent(to, o.author)
    ensures forall o :: o in Gap(from, to) ==> Valid(o)
  {
    hide Missing, Extent, SummaryOf, Valid;
    MissingIsDifference(from, SummaryOf(to));
    forall o: Operation ensures At(SummaryOf(to), o.author) == Extent(to, o.author) {
      AtSummary(to, o.author);
    }
  }

  /** A limited reply is the first `limit` operations of the whole difference. */
  lemma LimitedIsPrefix(from: Ops, to: Ops, limit: int)
    requires limit > 0
    ensures Missing(from, SummaryOf(to), limit) == Take(Gap(from, to), limit)
  {
  }

  ghost predicate Fresh(log: Ops, batch: Ops) {
    && (forall o :: o in batch ==> Valid(o))
    && (forall o, p :: o in log && p in batch ==> !SameKey(o, p))
    && (forall i, j :: 0 <= i < j < |batch| ==> !SameKey(batch[i], batch[j]))
  }

  lemma FreshPrefix(log: Ops, batch: Ops)
    requires Fresh(log, batch) && batch != []
    ensures var front, last := batch[..|batch| - 1], batch[|batch| - 1];
      && Fresh(log, front) && Valid(last) && !exists o :: o in log + front && SameKey(o, last)
  {
    hide Valid;
    var front := batch[..|batch| - 1];
    assert forall o :: o in front ==> o in batch;
  }

  lemma {:induction false} AddAllFresh(log: Ops, batch: Ops)
    requires WellFormed(log) && Fresh(log, batch)
    ensures AddAll(log, batch) == log + batch && WellFormed(log + batch)
  {
    hide Fresh, WellFormed, Valid, OutcomeOf;
    if batch == [] {
      assert log + batch == log;
    } else {
      var front, last := batch[..|batch| - 1], batch[|batch| - 1];
      FreshPrefix(log, batch);
      AddAllFresh(log, front);
      AddOutcome(log + front, last);
      assert log + batch == (log + front) + [last];
    }
  }

  /** Nothing above a store's summary can collide with what it holds. */
  lemma GapIsFresh(from: Ops, to: Ops, batch: Ops)
    requires WellFormed(from) && WellFormed(to)
    requires StrictlyOrdered(KeyLess, batch) && forall o :: o in batch ==> o in Gap(from, to)
    ensures Fresh(to, batch)
  {
    hide WellFormed, Gap;
    GapElements(from, to);
    OrderedKeysDistinct(batch);
    forall o, p | o in to && p in batch ensures !SameKey(o, p) {
      ExtentIsMax(to, p.author);
    }
  }

  /** Applying a prefix of the difference leaves exactly the rest of it missing, whatever
      the receiver's own gaps are. */
  lemma {:induction false} MissingAfterBatch(from: Ops, to: Ops, n: int)
    requires WellFormed(from) && WellFormed(to)
    ensures var batch := Take(Gap(from, to), n);
      && AddAll(to, batch) == to + batch
      && WellFormed(to + batch)
      && Gap(from, to + batch) == Drop(Gap(from, to), n)
  {
    hide WellFormed, Gap, Extent, KeyLess, StrictlyOrdered;
    var gap := Gap(from, to);
    var batch, rest, after := Take(gap, n), Drop(gap, n), to + Take(gap, n);
    assert gap == batch + rest;
    GapElements(from, to);
    SubsequencesOrdered(gap, n);
    GapIsFresh(from, to, batch);
    AddAllFresh(to, batch);
    GapElements(from, after);
    forall o ensures o in Gap(from, after) <==> o in rest {
      ExtentOfSum(to, batch, o.author);
      BatchCutsGap(gap, n, o);
    }
    KeyOrder();
    StrictlyOrderedUnique(KeyLess, Gap(from, after), rest);
  }

  lemma SubsequencesOrdered(gap: Ops, n: int)
    requires StrictlyOrdered(KeyLess, gap)
    ensures StrictlyOrdered(KeyLess, Take(gap, n)) && StrictlyOrdered(KeyLess, Drop(gap, n))
  {
  }

  /** In a sorted difference, the elements past the cut are those above the batch's extents. */
  lemma BatchCutsGap(gap: Ops, n: int, o: Operation)
    requires StrictlyOrdered(KeyLess, gap) && forall p :: p in gap ==> p.seqNo > 0
    ensures o in Drop(gap, n) <==> o in gap && o.seqNo > Extent(Take(gap, n), o.author)
  {
    var batch, rest := Take(gap, n), Drop(gap, n);
    KeyOrder();
    ExtentIsMax(batch, o.author);
    assert gap == batch + rest;
    if o in rest {
      forall p | p in batch && p.author == o.author ensures p.seqNo < o.seqNo {
        assert KeyLess(p, o);
      }
      assert o in gap;
    }
  }

  lemma {:induction false} ExtentOfSum(log: Ops, batch: Ops, a: NodeId)
    ensures Extent(log + batch, a) == if Extent(batch, a) > Extent(log, a) then Extent(batch, a) else Extent(log, a)
  {
    if batch == [] {
      assert log + batch == log;
    } else {
      var front := batch[..|batch| - 1];
      ExtentOfSum(log, front, a);
      assert (log + batch)[..|log + batch| - 1] == log + front;
    }
  }

  /** Operations the other store holds never enter the difference. */
  lemma GapIgnoresShared(from: Ops, more: Ops, to: Ops)
    requires WellFormed(from) && WellFormed(from + more)
    requires forall o :: o in more ==> o in to
    ensures Gap(from + more, to) == Gap(from, to)
  {
    hide WellFormed, Gap, KeyLess, StrictlyOrdered;
    GapElements(from, to);
    GapElements(from + more, to);
    forall o | o in more ensures o.seqNo <= Extent(to, o.author) {
      ExtentIsMax(to, o.author);
    }
    KeyOrder();
    StrictlyOrderedUnique(KeyLess, Gap(from + more, to), Gap(from, to));
  }
}
