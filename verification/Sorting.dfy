/** `sort.SliceStable` and `sort.Strings`: one stable insertion sort, what it
    guarantees, and the fact that a strictly sorted list is fixed by its elements. */
module Sorting {

  ghost predicate TotalPreorder<T(!new)>(lt: (T, T) -> bool) {
    && (forall x :: !lt(x, x))
    && (forall x, y, z :: lt(x, y) && lt(y, z) ==> lt(x, z))
    && (forall x, y, z :: lt(x, z) ==> lt(x, y) || lt(y, z))
  }

  ghost predicate Ordered<T(!new)>(lt: (T, T) -> bool, s: seq<T>) {
    forall i, j :: 0 <= i < j < |s| ==> !lt(s[j], s[i])
  }

  ghost predicate StrictlyOrdered<T(!new)>(lt: (T, T) -> bool, s: seq<T>) {
    forall i, j :: 0 <= i < j < |s| ==> lt(s[i], s[j])
  }

  function Insert<T>(lt: (T, T) -> bool, x: T, s: seq<T>): (r: seq<T>)
    ensures multiset(r) == multiset(s) + multiset{x}
  {
    if s == [] then [x]
    else if lt(x, s[0]) then [x] + s
    else
      assert s == [s[0]] + s[1..];
      [s[0]] + Insert(lt, x, s[1..])
  }

  function Sort<T>(lt: (T, T) -> bool, s: seq<T>): (r: seq<T>)
    ensures multiset(r) == multiset(s)
  {
    if s == [] then []
    else
      assert s == s[..|s| - 1] + [s[|s| - 1]];
      Insert(lt, s[|s| - 1], Sort(lt, s[..|s| - 1]))
  }

  lemma {:induction false} InsertOrdered<T(!new)>(lt: (T, T) -> bool, x: T, s: seq<T>)
    requires TotalPreorder(lt) && Ordered(lt, s)
    ensures Ordered(lt, Insert(lt, x, s))
  {
    if s != [] && !lt(x, s[0]) {
      var rest := Insert(lt, x, s[1..]);
      InsertOrdered(lt, x, s[1..]);
      forall j | 0 <= j < |rest| ensures !lt(rest[j], s[0]) {
        assert rest[j] in multiset(rest);
        assert rest[j] == x || rest[j] in s[1..];
      }
    }
  }

  /** Insertion keeps the list and puts the element somewhere in it. */
  lemma {:induction false} InsertSplits<T>(lt: (T, T) -> bool, x: T, s: seq<T>) returns (i: nat)
    ensures i <= |s| && Insert(lt, x, s) == s[..i] + [x] + s[i..]
  {
    if s == [] || lt(x, s[0]) {
      i := 0;
      assert Insert(lt, x, s) == [x] + s;
    } else {
      var j := InsertSplits(lt, x, s[1..]);
      i := j + 1;
      assert s[..i] == [s[0]] + s[1..][..j] && s[i..] == s[1..][j..];
      hide Insert;
      assert [s[0]] + (s[1..][..j] + [x] + s[1..][j..]) == s[..i] + [x] + s[i..];
    }
  }

  lemma {:induction false} SortOrdered<T(!new)>(lt: (T, T) -> bool, s: seq<T>)
    requires TotalPreorder(lt)
    ensures Ordered(lt, Sort(lt, s))
  {
    if s != [] {
      SortOrdered(lt, s[..|s| - 1]);
      InsertOrdered(lt, s[|s| - 1], Sort(lt, s[..|s| - 1]));
    }
  }

  lemma {:induction false} InsertLast<T(!new)>(lt: (T, T) -> bool, x: T, s: seq<T>)
    requires forall y :: y in s ==> !lt(x, y)
    ensures Insert(lt, x, s) == s + [x]
  {
    if s != [] {
      InsertLast(lt, x, s[1..]);
      assert s + [x] == [s[0]] + (s[1..] + [x]);
    }
  }

  /** An ordered list stays as it is. */
  lemma {:induction false} SortFixed<T(!new)>(lt: (T, T) -> bool, s: seq<T>)
    requires Ordered(lt, s)
    ensures Sort(lt, s) == s
  {
    hide Insert;
    if s != [] {
      var front, last := s[..|s| - 1], s[|s| - 1];
      SortFixed(lt, front);
      InsertLast(lt, last, front);
      assert s == front + [last];
    }
  }

  lemma SortElements<T>(lt: (T, T) -> bool, s: seq<T>)
    ensures |Sort(lt, s)| == |s|
    ensures forall x :: x in Sort(lt, s) <==> x in s
  {
    var r := Sort(lt, s);
    assert |multiset(r)| == |multiset(s)|;
    forall x ensures x in r <==> x in s {
      assert x in r <==> x in multiset(r);
      assert x in s <==> x in multiset(s);
    }
  }

  ghost predicate Distinct<T(!new)>(s: seq<T>) {
    forall i, j :: 0 <= i < j < |s| ==> s[i] != s[j]
  }

  lemma {:induction false} OnceEach<T(!new)>(s: seq<T>, x: T)
    requires Distinct(s)
    ensures multiset(s)[x] <= 1
  {
    if s != [] {
      OnceEach(s[..|s| - 1], x);
      assert s == s[..|s| - 1] + [s[|s| - 1]];
    }
  }

  lemma SortDistinct<T(!new)>(lt: (T, T) -> bool, s: seq<T>)
    requires Distinct(s)
    ensures Distinct(Sort(lt, s))
  {
    var r := Sort(lt, s);
    forall i, j | 0 <= i < j < |r| ensures r[i] != r[j] {
      OnceEach(s, r[i]);
      assert r == r[..j] + r[j..];
      assert r[i] in multiset(r[..j]) && r[j] in multiset(r[j..]);
    }
  }

  /** Two strictly ordered lists over the same elements are the same list. */
  lemma {:induction false} StrictlyOrderedUnique<T(!new)>(lt: (T, T) -> bool, p: seq<T>, q: seq<T>)
    requires TotalPreorder(lt) && StrictlyOrdered(lt, p) && StrictlyOrdered(lt, q)
    requires forall x :: x in p <==> x in q
    ensures p == q
  {
    assert p == [] || p[0] in q;
    assert q == [] || q[0] in p;
    if p != [] {
      assert p[0] == q[0];
      forall x ensures x in p[1..] <==> x in q[1..] {
        assert x in p[1..] ==> x in q && lt(p[0], x);
        assert x in q[1..] ==> x in p && lt(q[0], x);
        assert forall s: seq<T> :: s != [] && x in s && x != s[0] ==> x in s[1..];
      }
      StrictlyOrderedUnique(lt, p[1..], q[1..]);
      assert p == [p[0]] + p[1..] && q == [q[0]] + q[1..];
    }
  }
}
