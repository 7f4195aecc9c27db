/** Consensus configuration and the quorum rule (gossip/consensus.go). The threshold is an
    exact real: rounding of the source's float64 is not modelled. */
module Quorum {
  import opened Sorting
  import opened Strings
  import opened Wrappers

  datatype Config = Config(threshold: real, members: seq<string>)

  /** Member names trimmed, blanks and repeats dropped, in order of first mention. */
  function Dedup(members: seq<string>): (r: seq<string>)
    ensures Distinct(r)
    ensures forall m :: m in r <==> m != "" && exists x :: x in members && TrimSpace(x) == m
  {
    if members == [] then []
    else
      var front, last := members[..|members| - 1], members[|members| - 1];
      assert members == front + [last];
      var r, m := Dedup(front), TrimSpace(last);
      if m == "" || m in r then r else r + [m]
  }

  /** `normalizeConsensusConfig`. */
  function Normalize(cfg: Config): Option<Config> {
    var threshold := if cfg.threshold == 0.0 then 0.5 else cfg.threshold;
    if threshold < 0.0 || threshold >= 1.0 then None
    else Some(Config(threshold, Sort(Less, Dedup(cfg.members))))
  }

  predicate Normalized(cfg: Config) {
    && 0.0 < cfg.threshold < 1.0
    && (forall i, j :: 0 <= i < j < |cfg.members| ==> Less(cfg.members[i], cfg.members[j]))
    && (forall m :: m in cfg.members ==> m != "" && TrimSpace(m) == m)
  }

  lemma LessOrder()
    ensures TotalPreorder(Less)
  {
    LessLaws();
  }

  lemma DistinctSorted(s: seq<string>)
    requires Distinct(s)
    ensures StrictlyOrdered(Less, Sort(Less, s)) && forall x :: x in Sort(Less, s) <==> x in s
  {
    hide Less;
    LessOrder();
    LessLaws();
    SortOrdered(Less, s);
    SortElements(Less, s);
    SortDistinct(Less, s);
  }

  /** What `SaveConsensusConfig` writes, `ConsensusConfig` reads back unchanged; the members
      are the distinct non-blank trimmed names given, sorted. */
  lemma ConfigRoundTrip(cfg: Config)
    ensures Normalize(cfg).Some? <==> 0.0 <= cfg.threshold < 1.0
    ensures Normalize(cfg).Some? ==>
      var saved := Normalize(cfg).value;
      && Normalized(saved) && Normalize(saved) == Some(saved)
      && saved.threshold == (if cfg.threshold == 0.0 then 0.5 else cfg.threshold)
      && forall m :: m in saved.members <==> m != "" && exists x :: x in cfg.members && TrimSpace(x) == m
  {
    if Normalize(cfg).Some? {
      var saved := Normalize(cfg).value;
      DistinctSorted(Dedup(cfg.members));
      forall x ensures TrimSpace(TrimSpace(x)) == TrimSpace(x) { TrimIdempotent(x); }
      NormalizedIsFixed(saved);
    }
  }

  lemma NormalizedIsFixed(cfg: Config)
    requires Normalized(cfg)
    ensures Normalize(cfg) == Some(cfg)
  {
    hide TrimSpace, Less;
    var d := Dedup(cfg.members);
    DistinctSorted(d);
    LessOrder();
    StrictlyOrderedUnique(Less, Sort(Less, d), cfg.members);
  }

  /** `calculateRequiredYes`. */
  function RequiredYes(memberCount: int, threshold: real): (r: int)
    ensures r >= 1
  {
    if memberCount <= 0 then 1
    else
      var required := (threshold * memberCount as real).Floor + 1;
      Min(Max(required, 1), memberCount)
  }

  /** The quorum rule README promises: the yes ratio is strictly above the threshold. On
      the thresholds a configuration can hold, neither clamp ever binds. */
  lemma StrictThreshold(yes: int, memberCount: int, threshold: real)
    requires memberCount >= 1 && 0.0 <= threshold < 1.0
    ensures yes >= RequiredYes(memberCount, threshold) <==> yes as real > threshold * memberCount as real
    ensures RequiredYes(memberCount, threshold) == (threshold * memberCount as real).Floor + 1
    ensures RequiredYes(memberCount, threshold) <= memberCount
  {
    var product := threshold * memberCount as real;
    assert 0.0 <= product < memberCount as real;
    assert product.Floor as real <= product < (product.Floor + 1) as real;
  }

  lemma FloorAboveHalf(product: real, n: int)
    requires product >= n as real / 2.0
    ensures 2 * (product.Floor + 1) > n
  {
  }

  /** A threshold of at least a half asks for more than half the members. */
  lemma RequiredAboveHalf(memberCount: int, threshold: real)
    requires memberCount >= 1 && 0.5 <= threshold < 1.0
    ensures 2 * RequiredYes(memberCount, threshold) > memberCount
  {
    hide RequiredYes;
    StrictThreshold(0, memberCount, threshold);
    FloorAboveHalf(threshold * memberCount as real, memberCount);
  }

  lemma {:induction false} SubsetSize<T>(a: set<T>, b: set<T>)
    requires a <= b
    ensures |a| <= |b|
  {
    if a != {} {
      var x :| x in a;
      SubsetSize(a - {x}, b - {x});
    }
  }

  lemma LargeSetsMeet<T>(members: set<T>, yes1: set<T>, yes2: set<T>)
    requires yes1 <= members && yes2 <= members && |yes1| + |yes2| > |members|
    ensures yes1 * yes2 != {}
  {
    SubsetSize(yes1 + yes2, members);
    assert |yes1 + yes2| == |yes1| + |yes2| - |yes1 * yes2|;
  }

  lemma {:induction false} SubsetOfSize<T>(s: set<T>, n: nat) returns (r: set<T>)
    requires n <= |s|
    ensures r <= s && |r| == n
  {
    if n == 0 {
      r := {};
    } else {
      var x :| x in s;
      r := SubsetOfSize(s - {x}, n - 1);
      r := r + {x};
    }
  }

  ghost predicate Quorum<T>(members: set<T>, yes: set<T>, threshold: real) {
    yes <= members && |yes| >= RequiredYes(|members|, threshold)
  }

  /** Every two quorums over one membership share a member exactly when the required count
      is more than half of it; a threshold of a half or more is always enough. */
  lemma QuorumsMeetIff<T(!new)>(members: set<T>, threshold: real)
    requires members != {} && 0.0 <= threshold < 1.0
    ensures (forall yes1, yes2 :: Quorum(members, yes1, threshold) && Quorum(members, yes2, threshold) ==> yes1 * yes2 != {})
            <==> 2 * RequiredYes(|members|, threshold) > |members|
    ensures threshold >= 0.5 ==> 2 * RequiredYes(|members|, threshold) > |members|
  {
    var required := RequiredYes(|members|, threshold);
    if threshold >= 0.5 {
      RequiredAboveHalf(|members|, threshold);
    }
    if 2 * required > |members| {
      forall yes1, yes2 | Quorum(members, yes1, threshold) && Quorum(members, yes2, threshold) ensures yes1 * yes2 != {} {
        LargeSetsMeet(members, yes1, yes2);
      }
    } else {
      var yes1 := SubsetOfSize(members, required);
      var yes2 := SubsetOfSize(members - yes1, required);
      assert Quorum(members, yes1, threshold) && Quorum(members, yes2, threshold) && yes1 * yes2 == {};
    }
  }
}
