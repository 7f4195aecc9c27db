/** Replicas: each author's operations as one store holds them, and what it means for two
    stores to hold parts of the same history. */
module Replica {
  import opened Log
  import opened Operations

  /** An author's operations, in the order they were added. */
  function By(log: Ops, a: NodeId): Ops {
    if log == [] then []
    else
      var last := log[|log| - 1];
      By(log[..|log| - 1], a) + (if last.author == a then [last] else [])
  }

  /** Sequences 1, 2, 3, ... with none missing. */
  ghost predicate Numbered(ops: Ops) {
    forall i :: 0 <= i < |ops| ==> ops[i].seqNo == i + 1
  }

  /** No author's history has a hole, and each was inserted in ascending order. */
  ghost predicate Gapless(log: Ops) {
    forall a :: Numbered(By(log, a))
  }

  ghost predicate Sound(log: Ops) {
    forall o :: o in log ==> Valid(o)
  }

  /** For every author, one store's history continues the other's. */
  ghost predicate Agree(x: Ops, y: Ops) {
    forall a :: By(x, a) <= By(y, a) || By(y, a) <= By(x, a)
  }

  lemma ByAppend(log: Ops, op: Operation, a: NodeId)
    ensures By(log + [op], a) == By(log, a) + (if op.author == a then [op] else [])
  {
    assert (log + [op])[..|log|] == log;
  }

  lemma {:induction false} ByElements(log: Ops, a: NodeId)
    ensures forall o :: o in By(log, a) <==> o in log && o.author == a
  {
    if log != [] {
      ByElements(log[..|log| - 1], a);
      assert log == log[..|log| - 1] + [log[|log| - 1]];
    }
  }

  lemma {:induction false} NoneBy(log: Ops, a: NodeId)
    requires forall o :: o in log ==> o.author != a
    ensures By(log, a) == []
  {
    if log != [] {
      NoneBy(log[..|log| - 1], a);
    }
  }

  lemma {:induction false} ByPrefix(x: Ops, y: Ops, a: NodeId)
    requires x <= y
    ensures By(x, a) <= By(y, a)
  {
    if |x| < |y| {
      ByPrefix(x, y[..|y| - 1], a);
    } else {
      assert x == y;
    }
  }

  lemma {:induction false} NumberedExtent(log: Ops, a: NodeId)
    requires Numbered(By(log, a))
    ensures Extent(log, a) == |By(log, a)|
  {
    if log != [] {
      var front, last := log[..|log| - 1], log[|log| - 1];
      assert By(log, a)[..|By(front, a)|] == By(front, a);
      assert forall i :: 0 <= i < |By(front, a)| ==> By(front, a)[i] == By(log, a)[i];
      NumberedExtent(front, a);
      if last.author == a {
        assert By(log, a)[|By(front, a)|] == last;
      }
    }
  }

  /** Position in an author's numbered history is the sequence number. */
  lemma NumberedPosition(log: Ops, o: Operation)
    requires Numbered(By(log, o.author))
    ensures o in log <==> 0 < o.seqNo <= |By(log, o.author)| && By(log, o.author)[o.seqNo - 1] == o
  {
    ByElements(log, o.author);
    var history := By(log, o.author);
    if o in log {
      var i :| 0 <= i < |history| && history[i] == o;
    }
  }

  lemma {:induction false} GaplessWellFormed(log: Ops)
    requires Sound(log) && Gapless(log)
    ensures WellFormed(log)
  {
    hide Valid;
    if log != [] {
      var front, last := log[..|log| - 1], log[|log| - 1];
      assert log == front + [last];
      forall a ensures Numbered(By(front, a)) {
        assert Numbered(By(log, a));
        assert forall i :: 0 <= i < |By(front, a)| ==> By(front, a)[i] == By(log, a)[i];
      }
      GaplessWellFormed(front);
      var history := By(log, last.author);
      assert Numbered(history) && history == By(front, last.author) + [last];
      assert history[|By(front, last.author)|] == last;
      forall o | o in front ensures !SameKey(o, last) {
        NumberedPosition(front, o);
      }
    }
  }

  /** Between agreeing replicas, whatever is within the other's extent is held by it. */
  lemma WithinExtentIsHeld(x: Ops, y: Ops, o: Operation)
    requires Gapless(x) && Gapless(y) && Agree(x, y) && o in x && o.seqNo <= Extent(y, o.author)
    ensures o in y
  {
    var a := o.author;
    assert Numbered(By(x, a)) && Numbered(By(y, a));
    NumberedExtent(y, a);
    NumberedPosition(x, o);
    NumberedPosition(y, o);
    assert By(x, a) <= By(y, a) || By(y, a) <= By(x, a);
  }
}
