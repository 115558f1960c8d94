/**
 * The dataset splitter: the record list is shuffled and then cut at
 * `int(split_rate * n)`; the prefix is the training set and the suffix the
 * validation set. The shuffle is any permutation the caller supplies.
 */
module DatasetSplit {

  // ---------------------------------------------------------------------------
  // The shuffle
  // ---------------------------------------------------------------------------

  /** `perm` lists every index below `n` exactly once. */
  predicate IsPermutation(perm: seq<nat>, n: nat)
  {
    && |perm| == n
    && (forall i :: 0 <= i < n ==> perm[i] < n)
    && (forall i, j :: 0 <= i < j < n ==> perm[i] != perm[j])
  }

  /** The list reordered by `perm`: position `i` receives element `perm[i]`. */
  function Permute<T>(s: seq<T>, perm: seq<nat>): seq<T>
    requires IsPermutation(perm, |s|)
  {
    seq(|s|, i requires 0 <= i < |s| => s[perm[i]])
  }

  /** The set of the first `m` values of `perm`. */
  function Image(perm: seq<nat>, m: nat): set<nat>
    requires m <= |perm|
  {
    if m == 0 then {} else Image(perm, m - 1) + {perm[m - 1]}
  }

  function Below(n: nat): set<nat>
  {
    if n == 0 then {} else Below(n - 1) + {n - 1}
  }

  lemma {:induction false} BelowSpec(n: nat)
    ensures |Below(n)| == n
    ensures forall k: nat :: k in Below(n) <==> k < n
  {
    if n > 0 {
      BelowSpec(n - 1);
      assert n - 1 !in Below(n - 1);
      forall k: nat
        ensures k in Below(n) <==> k < n
      {
        assert k in Below(n) <==> k in Below(n - 1) || k == n - 1;
      }
    }
  }

  /** No value appears twice. */
  predicate Distinct(perm: seq<nat>)
  {
    forall i, j :: 0 <= i < j < |perm| ==> perm[i] != perm[j]
  }

  lemma {:induction false} ImageMember(perm: seq<nat>, m: nat, k: nat)
    requires m <= |perm|
    ensures k in Image(perm, m) <==> k in perm[..m]
  {
    if m > 0 {
      ImageMember(perm, m - 1, k);
      assert perm[..m] == perm[..m - 1] + [perm[m - 1]];
    }
  }

  lemma {:induction false} ImageSize(perm: seq<nat>, m: nat)
    requires m <= |perm|
    requires Distinct(perm)
    ensures |Image(perm, m)| == m
  {
    if m > 0 {
      ImageSize(perm, m - 1);
      ImageMember(perm, m - 1, perm[m - 1]);
    }
  }

  /** Every index below `n` is hit (pigeonhole: `n` distinct values below `n`). */
  lemma PermutationOnto(perm: seq<nat>, n: nat, k: nat)
    requires IsPermutation(perm, n)
    requires k < n
    ensures k in perm
  {
    var img := Image(perm, n);
    ImageSize(perm, n);
    BelowSpec(n);
    assert perm[..n] == perm;
    forall x | x in img ensures x in Below(n) {
      ImageMember(perm, n, x);
    }
    assert |Below(n) - img| == |Below(n)| - |img| == 0;
    ImageMember(perm, n, k);
  }

  /** Taking out the entry `n - 1` of a permutation of `n` leaves one of `n - 1`. */
  lemma RemoveLast(perm: seq<nat>, n: nat, j: nat)
    requires IsPermutation(perm, n)
    requires j < n && perm[j] == n - 1
    ensures IsPermutation(perm[..j] + perm[j + 1..], n - 1)
  {
    var rest := perm[..j] + perm[j + 1..];
    assert forall i :: 0 <= i < j ==> rest[i] == perm[i];
    assert forall i :: j <= i < n - 1 ==> rest[i] == perm[i + 1];
  }

  /** The shuffle of `s` is the shuffle of its prefix with the last element put
      back where the permutation sends it. */
  lemma PermuteLast<T>(s: seq<T>, perm: seq<nat>, j: nat)
    requires IsPermutation(perm, |s|)
    requires j < |s| && perm[j] == |s| - 1
    requires IsPermutation(perm[..j] + perm[j + 1..], |s| - 1)
    ensures var rest := Permute(s[..|s| - 1], perm[..j] + perm[j + 1..]);
      Permute(s, perm) == rest[..j] + [s[|s| - 1]] + rest[j..]
  {
    var n := |s|;
    var r := perm[..j] + perm[j + 1..];
    var rest := Permute(s[..n - 1], r);
    var whole := rest[..j] + [s[n - 1]] + rest[j..];
    forall i | 0 <= i < n
      ensures Permute(s, perm)[i] == whole[i]
    {
      if i < j {
        assert r[i] == perm[i];
      } else if i > j {
        assert r[i - 1] == perm[i];
      }
    }
  }

  lemma MultisetInsert<T>(s: seq<T>, j: nat, x: T)
    requires j <= |s|
    ensures multiset(s[..j] + [x] + s[j..]) == multiset(s) + multiset{x}
  {
    assert s == s[..j] + s[j..];
  }

  /** Shuffling keeps every element, as often as it was there. */
  lemma {:induction false} PermutePreserves<T>(s: seq<T>, perm: seq<nat>)
    requires IsPermutation(perm, |s|)
    ensures multiset(Permute(s, perm)) == multiset(s)
    decreases |s|
  {
    var n := |s|;
    if n > 0 {
      PermutationOnto(perm, n, n - 1);
      var j :| 0 <= j < n && perm[j] == n - 1;
      var r := perm[..j] + perm[j + 1..];
      var init := s[..n - 1];
      RemoveLast(perm, n, j);
      PermutePreserves(init, r);
      var rest := Permute(init, r);
      PermuteLast(s, perm, j);
      MultisetInsert(rest, j, s[n - 1]);
      assert s == init + [s[n - 1]];
    }
  }

  // ---------------------------------------------------------------------------
  // The cut
  // ---------------------------------------------------------------------------

  /** Python's `int()` on a float: truncation toward zero. */
  function Trunc(x: real): int
  {
    if x >= 0.0 then x.Floor else -((-x).Floor)
  }

  /** Rounding to a double never reverses an order. */
  ghost predicate Monotone(rnd: real -> real)
  {
    forall a, b :: a <= b ==> rnd(a) <= rnd(b)
  }

  /**
   * What the cut requires of the rounding of `split_rate * n` to a double: it
   * never reverses an order, and 0 and the record count `n` are represented
   * exactly.
   */
  ghost predicate ExactAtEnds(rnd: real -> real, n: nat)
  {
    && Monotone(rnd)
    && rnd(0.0) == 0.0 && rnd(n as real) == n as real
  }

  /** `int(split_rate * n)`: the product is rounded to a double by `rnd`, then
      truncated toward zero. */
  function SplitPoint(rate: real, n: nat, rnd: real -> real): int
  {
    Trunc(rnd(rate * n as real))
  }

  /** Where a Python slice bound `k` falls in a list of length `n`:
      negative bounds count from the end, and bounds are clamped to the list. */
  function Bound(k: int, n: nat): (b: nat)
    ensures b <= n
  {
    if k < 0 then (if k + n < 0 then 0 else k + n)
    else if k > n then n
    else k
  }

  /** `shuffled[:split_point]`. */
  function TrainSet<T>(shuffled: seq<T>, rate: real, rnd: real -> real): seq<T>
  {
    shuffled[..Bound(SplitPoint(rate, |shuffled|, rnd), |shuffled|)]
  }

  /** `shuffled[split_point:]`. */
  function ValSet<T>(shuffled: seq<T>, rate: real, rnd: real -> real): seq<T>
  {
    shuffled[Bound(SplitPoint(rate, |shuffled|, rnd), |shuffled|)..]
  }

  /** For every ratio, the two sets are the shuffled list cut in two. */
  lemma SplitPartitions<T>(shuffled: seq<T>, rate: real, rnd: real -> real)
    ensures TrainSet(shuffled, rate, rnd) + ValSet(shuffled, rate, rnd) == shuffled
    ensures |TrainSet(shuffled, rate, rnd)| + |ValSet(shuffled, rate, rnd)| == |shuffled|
  {
  }

  /** Truncation keeps the order of its arguments. */
  lemma TruncOrder(a: real, b: real)
    requires 0.0 <= a <= b
    ensures 0 <= Trunc(a) <= Trunc(b)
  {
  }

  /** Scaling by a non-negative factor keeps order. */
  lemma ScaleOrder(r1: real, r2: real, n: real)
    requires 0.0 <= r1 <= r2 && 0.0 <= n
    ensures 0.0 <= r1 * n <= r2 * n
  {
    assert r2 * n - r1 * n == (r2 - r1) * n;
  }

  /**
   * For a ratio in [0, 1], the cut lies in [0, n]: the training set has
   * exactly that many records and the validation set the rest. Ratio 0 leaves
   * training empty; ratio 1 leaves validation empty.
   */
  lemma SplitSizes<T>(shuffled: seq<T>, rate: real, rnd: real -> real)
    requires 0.0 <= rate <= 1.0
    requires ExactAtEnds(rnd, |shuffled|)
    ensures var n := |shuffled|;
      && 0 <= SplitPoint(rate, n, rnd) <= n
      && |TrainSet(shuffled, rate, rnd)| == SplitPoint(rate, n, rnd)
      && |ValSet(shuffled, rate, rnd)| == n - SplitPoint(rate, n, rnd)
    ensures rate == 0.0 ==> TrainSet(shuffled, rate, rnd) == [] && ValSet(shuffled, rate, rnd) == shuffled
    ensures rate == 1.0 ==> TrainSet(shuffled, rate, rnd) == shuffled && ValSet(shuffled, rate, rnd) == []
  {
    var n := |shuffled|;
    var x := rate * n as real;
    assert 0.0 <= x <= n as real by {
      assert rate * n as real <= 1.0 * n as real;
    }
    assert 0.0 <= rnd(x) <= n as real by {
      assert rnd(0.0) <= rnd(x) <= rnd(n as real);
    }
    TruncOrder(rnd(x), n as real);
  }

  /** A larger ratio never gives a smaller cut. */
  lemma CutOrder(r1: real, r2: real, n: nat, rnd: real -> real)
    requires 0.0 <= r1 <= r2
    requires Monotone(rnd) && rnd(0.0) == 0.0
    ensures 0 <= SplitPoint(r1, n, rnd) <= SplitPoint(r2, n, rnd)
  {
    var x1, x2 := r1 * n as real, r2 * n as real;
    ScaleOrder(r1, r2, n as real);
    var y1, y2 := rnd(x1), rnd(x2);
    assert 0.0 <= y1 <= y2 by {
      assert rnd(0.0) <= rnd(x1) <= rnd(x2);
    }
    TruncOrder(y1, y2);
  }

  /**
   * A larger ratio never moves a record from training to validation: the
   * training set for the smaller ratio is a prefix of the one for the larger.
   */
  lemma SplitGrows<T>(shuffled: seq<T>, r1: real, r2: real, rnd: real -> real)
    requires 0.0 <= r1 <= r2
    requires Monotone(rnd) && rnd(0.0) == 0.0
    ensures TrainSet(shuffled, r1, rnd) <= TrainSet(shuffled, r2, rnd)
    ensures |ValSet(shuffled, r2, rnd)| <= |ValSet(shuffled, r1, rnd)|
  {
    var n := |shuffled|;
    CutOrder(r1, r2, n, rnd);
    var k1 := Bound(SplitPoint(r1, n, rnd), n);
    var k2 := Bound(SplitPoint(r2, n, rnd), n);
    assert TrainSet(shuffled, r1, rnd) == shuffled[..k2][..k1];
  }
}
