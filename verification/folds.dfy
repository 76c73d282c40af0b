/**
 * Cross-validation folds (shuffle_and_split_into_folds) and the train/test sets of each fold
 * (the loop in export_data). The shuffle is a given permutation of positions; the fixed-seed
 * generator that produces it is not modelled. Groups are generic: in the engine a group is the
 * row list of one (site, day).
 */
module Folds {
  /** perm lists each of 0 .. n - 1 exactly once. */
  predicate IsPermutation(perm: seq<int>, n: nat)
  {
    |perm| == n &&
    (forall i :: 0 <= i < n ==> 0 <= perm[i] < n) &&
    (forall i, j :: 0 <= i < j < n ==> perm[i] != perm[j]) &&
    (forall q :: 0 <= q < n ==> q in perm)
  }

  /** The data rearranged: position i receives the group at position perm[i]. */
  function Shuffle<T>(data: seq<T>, perm: seq<int>): (r: seq<T>)
    requires IsPermutation(perm, |data|)
    ensures |r| == |data|
  {
    seq(|data|, i requires 0 <= i < |data| => data[perm[i]])
  }

  /** Every group of the input lands at exactly one position of the shuffled list. */
  lemma ShuffleMoves<T>(data: seq<T>, perm: seq<int>, q: nat)
    requires IsPermutation(perm, |data|) && q < |data|
    ensures exists p :: 0 <= p < |data| && perm[p] == q && Shuffle(data, perm)[p] == data[q]
    ensures forall p, p' :: 0 <= p < |data| && 0 <= p' < |data| && perm[p] == q && perm[p'] == q ==> p == p'
  {
    assert q in perm;
    var p :| 0 <= p < |perm| && perm[p] == q;
    assert Shuffle(data, perm)[p] == data[q];
  }

  /** k blocks of q: the start of slice k when each slice has q groups. */
  function Offset(k: nat, q: nat): nat
  {
    if k == 0 then 0 else Offset(k - 1, q) + q
  }

  lemma {:induction false} OffsetIsProduct(k: nat, q: nat)
    ensures Offset(k, q) == k * q
  {
    if k > 0 {
      OffsetIsProduct(k - 1, q);
      assert k * q == (k - 1) * q + q;
    }
  }

  lemma {:induction false} OffsetMonotone(a: nat, b: nat, q: nat)
    requires a <= b
    ensures Offset(a, q) <= Offset(b, q)
    decreases b - a
  {
    if a < b {
      OffsetMonotone(a, b - 1, q);
    }
  }

  /** The folds full slices fit in the list. */
  lemma FullSlices(n: nat, folds: nat)
    requires folds >= 1
    ensures Offset(folds, n / folds) <= n
  {
    var q := n / folds;
    OffsetIsProduct(folds, q);
    assert folds * q + n % folds == n;
  }

  /** Slice k runs from k * (n / folds) to the next slice's start, the last slice to the end. */
  function Start(k: nat, n: nat, folds: nat): (r: nat)
    requires k < folds
    ensures r <= n
  {
    OffsetMonotone(k, folds, n / folds);
    FullSlices(n, folds);
    Offset(k, n / folds)
  }

  function End(k: nat, n: nat, folds: nat): (r: nat)
    requires k < folds
    ensures Start(k, n, folds) <= r <= n
  {
    OffsetMonotone(k + 1, folds, n / folds);
    FullSlices(n, folds);
    if k == folds - 1 then n else Start(k, n, folds) + n / folds
  }

  /** Where the slices are cut: slice k runs from cut k to cut k + 1. */
  function Cuts(n: nat, folds: nat): (c: seq<nat>)
    requires folds >= 1
    ensures |c| == folds + 1
  {
    seq(folds + 1, k requires 0 <= k <= folds => if k == folds then n else Start(k, n, folds))
  }

  /** The cuts that bound slice k. */
  lemma CutsAt(n: nat, folds: nat, k: nat)
    requires k < folds
    ensures Cuts(n, folds)[k] == Start(k, n, folds)
    ensures Cuts(n, folds)[k + 1] == End(k, n, folds)
  {
  }

  /** The cuts never go back, start at 0 and end at n. */
  predicate Ascending(c: seq<nat>, n: nat)
  {
    |c| >= 1 && c[0] == 0 && c[|c| - 1] == n && forall i, j :: 0 <= i < j < |c| ==> c[i] <= c[j]
  }

  lemma CutsAscend(n: nat, folds: nat)
    requires folds >= 1
    ensures Ascending(Cuts(n, folds), n)
  {
    var c := Cuts(n, folds);
    forall i, j | 0 <= i < j < |c| ensures c[i] <= c[j] {
      if j < folds {
        OffsetMonotone(i, j, n / folds);
      }
    }
  }

  /** The pieces of s between consecutive cuts. */
  function Pieces<T>(s: seq<T>, c: seq<nat>): (r: seq<seq<T>>)
    requires Ascending(c, |s|)
    ensures |r| == |c| - 1
  {
    seq(|c| - 1, k requires 0 <= k < |c| - 1 => s[c[k]..c[k + 1]])
  }

  /** The slices of a list. */
  function Split<T>(s: seq<T>, folds: nat): (r: seq<seq<T>>)
    requires folds >= 1
    ensures |r| == folds
  {
    CutsAscend(|s|, folds);
    Pieces(s, Cuts(|s|, folds))
  }

  /** Slice k of a list. */
  lemma SliceAt<T>(s: seq<T>, folds: nat, k: nat)
    requires k < folds
    ensures Split(s, folds)[k] == s[Start(k, |s|, folds)..End(k, |s|, folds)]
  {
    CutsAt(|s|, folds, k);
  }

  /**
   * shuffle_and_split_into_folds: shuffle, then cut into `folds` contiguous slices of n / folds
   * groups each, the last one taking the remainder. The only caller passes FOLDS = 10; zero folds
   * would panic on the division.
   */
  method ShuffleAndSplitIntoFolds<T>(data: seq<T>, folds: int, perm: seq<int>) returns (result: seq<seq<T>>)
    requires folds >= 1
    requires IsPermutation(perm, |data|)
    ensures result == Split(Shuffle(data, perm), folds)
  {
    var shuffled := Shuffle(data, perm);
    var foldSize := |shuffled| / folds;
    result := [];
    ghost var slices := Split(shuffled, folds);
    for i := 0 to folds
      invariant result == slices[..i]
    {
      var startIndex := i * foldSize;
      var endIndex := if i == folds - 1 then |shuffled| else startIndex + foldSize;
      SliceIndices(i, |shuffled|, folds);
      SliceAt(shuffled, folds, i);
      assert slices[..i + 1] == slices[..i] + [slices[i]];
      result := result + [shuffled[startIndex..endIndex]];
    }
    assert slices[..folds] == slices;
  }

  /** The indices the source computes are those of slice i. */
  lemma SliceIndices(i: nat, n: nat, folds: nat)
    requires i < folds
    ensures i * (n / folds) == Start(i, n, folds)
    ensures (if i == folds - 1 then n else i * (n / folds) + n / folds) == End(i, n, folds)
  {
    OffsetIsProduct(i, n / folds);
  }

  /** Slice sizes: n / folds each, except the last, which has n - (folds - 1) * (n / folds). */
  lemma SplitSizes<T>(s: seq<T>, folds: nat, k: nat)
    requires folds >= 1 && k < folds
    ensures k < folds - 1 ==> |Split(s, folds)[k]| == |s| / folds
    ensures k == folds - 1 ==> |Split(s, folds)[k]| == |s| - (folds - 1) * (|s| / folds)
  {
    var n, q := |s|, |s| / folds;
    SliceAt(s, folds, k);
    if k == folds - 1 {
      OffsetIsProduct(k, q);
    }
  }

  /** Scanning the slices from k0 on finds the one holding position p. */
  lemma {:induction false} FindSlice(n: nat, folds: nat, p: nat, k0: nat)
    requires folds >= 1 && p < n && k0 < folds && Start(k0, n, folds) <= p
    ensures exists k :: k0 <= k < folds && Start(k, n, folds) <= p < End(k, n, folds)
    decreases folds - k0
  {
    if k0 < folds - 1 && End(k0, n, folds) <= p {
      FindSlice(n, folds, p, k0 + 1);
    }
  }

  /** An earlier slice ends before a later one starts. */
  lemma SlicesOrdered(n: nat, folds: nat, k1: nat, k2: nat)
    requires 1 <= folds && k1 < k2 < folds
    ensures End(k1, n, folds) <= Start(k2, n, folds)
  {
    OffsetMonotone(k1 + 1, k2, n / folds);
  }

  /** Each position of the list lies in exactly one slice. */
  lemma SplitPartition(n: nat, folds: nat, p: nat)
    requires folds >= 1 && p < n
    ensures exists k :: 0 <= k < folds && Start(k, n, folds) <= p < End(k, n, folds)
    ensures forall k, k' ::
      (0 <= k < folds && 0 <= k' < folds &&
       Start(k, n, folds) <= p < End(k, n, folds) && Start(k', n, folds) <= p < End(k', n, folds)) ==> k == k'
  {
    FindSlice(n, folds, p, 0);
    forall k1, k2 | 0 <= k1 < k2 < folds
      ensures !(Start(k1, n, folds) <= p < End(k1, n, folds) && Start(k2, n, folds) <= p)
    {
      SlicesOrdered(n, folds, k1, k2);
    }
  }

  // ---------------------------------------------------------------------------
  // Train and test sets.

  /** The lists joined end to end (`flatten`, `extend_from_slice`). */
  function Concat<T>(ss: seq<seq<T>>): seq<T>
  {
    if ss == [] then [] else Concat(ss[..|ss| - 1]) + ss[|ss| - 1]
  }

  /** All folds but fold k, joined in index order. */
  function ConcatExcept<T>(ss: seq<seq<T>>, k: nat): seq<T>
  {
    if ss == [] then []
    else ConcatExcept(ss[..|ss| - 1], k) + (if |ss| - 1 == k then [] else ss[|ss| - 1])
  }

  /**
   * The sets of fold k, as the export loop builds them: test is fold k, train is every other
   * fold in index order; both are written out as the rows of their groups.
   */
  method TrainTest<R>(folded: seq<seq<seq<R>>>, k: nat) returns (train: seq<seq<R>>, test: seq<seq<R>>)
    requires k < |folded|
    ensures test == folded[k]
    ensures train == ConcatExcept(folded, k)
  {
    train := [];
    test := [];
    for i := 0 to |folded|
      invariant train == ConcatExcept(folded[..i], k)
      invariant test == if i <= k then [] else folded[k]
    {
      assert folded[..i + 1][..i] == folded[..i];
      if i == k {
        test := folded[i];
      } else {
        train := train + folded[i];
      }
    }
    assert folded[..|folded|] == folded;
  }

  /** The written rows of a set of groups. */
  method Rows<R>(groups: seq<seq<R>>) returns (rows: seq<R>)
    ensures rows == Concat(groups)
  {
    rows := [];
    for i := 0 to |groups|
      invariant rows == Concat(groups[..i])
    {
      assert groups[..i + 1][..i] == groups[..i];
      rows := rows + groups[i];
    }
    assert groups[..|groups|] == groups;
  }

  /** Joining one more list. */
  lemma ConcatStep<T>(ss: seq<seq<T>>, m: nat, k: nat)
    requires 0 < m <= |ss|
    ensures Concat(ss[..m]) == Concat(ss[..m - 1]) + ss[m - 1]
    ensures ConcatExcept(ss[..m], k) == ConcatExcept(ss[..m - 1], k) + (if m - 1 == k then [] else ss[m - 1])
  {
    assert ss[..m][..m - 1] == ss[..m - 1];
  }

  /** Before list k is reached, leaving it out changes nothing. */
  lemma {:induction false} ExceptBefore<T>(ss: seq<seq<T>>, k: nat, m: nat)
    requires m <= k && m <= |ss|
    ensures ConcatExcept(ss[..m], k) == Concat(ss[..m])
  {
    if m > 0 {
      ExceptBefore(ss, k, m - 1);
      ConcatStep(ss, m, k);
    }
  }

  /** Joining the first m pieces gives the list up to cut m. */
  lemma {:induction false} PiecesPrefix<T>(s: seq<T>, c: seq<nat>, m: nat)
    requires Ascending(c, |s|) && m < |c|
    ensures Concat(Pieces(s, c)[..m]) == s[..c[m]]
  {
    var ps := Pieces(s, c);
    if m == 0 {
      assert ps[..0] == [];
    } else {
      PiecesPrefix(s, c, m - 1);
      ConcatStep(ps, m, 0);
      assert s[..c[m - 1]] + s[c[m - 1]..c[m]] == s[..c[m]];
    }
  }

  /** A prefix, then two adjacent pieces, is the prefix and one piece. */
  lemma Glue<T>(s: seq<T>, a: nat, b: nat, d: nat, e: nat)
    requires a <= b <= d <= e <= |s|
    ensures (s[..a] + s[b..d]) + s[d..e] == s[..a] + s[b..e]
    ensures s[d..d] == []
  {
    assert s[b..d] + s[d..e] == s[b..e];
  }

  /** Joining the first m pieces but piece k: the list up to cut k, then from cut k + 1 to cut m. */
  lemma {:induction false} PiecesExcept<T>(s: seq<T>, c: seq<nat>, k: nat, m: nat)
    requires Ascending(c, |s|) && k < m < |c|
    ensures ConcatExcept(Pieces(s, c)[..m], k) == s[..c[k]] + s[c[k + 1]..c[m]]
  {
    var ps := Pieces(s, c);
    ConcatStep(ps, m, k);
    if m == k + 1 {
      ExceptBefore(ps, k, k);
      PiecesPrefix(s, c, k);
      Glue(s, c[k], c[m], c[m], c[m]);
    } else {
      PiecesExcept(s, c, k, m - 1);
      Glue(s, c[k], c[k + 1], c[m - 1], c[m]);
    }
  }

  /** All pieces but piece k: the list up to cut k, then the list from cut k + 1 on. */
  lemma PiecesComplement<T>(s: seq<T>, c: seq<nat>, k: nat)
    requires Ascending(c, |s|) && k < |c| - 1
    ensures ConcatExcept(Pieces(s, c), k) == s[..c[k]] + s[c[k + 1]..]
  {
    var ps, b := Pieces(s, c), c[k + 1];
    PiecesExcept(s, c, k, |c| - 1);
    assert ps[..|c| - 1] == ps;
    assert s[b..c[|c| - 1]] == s[b..|s|] == s[b..];
  }

  /** The slices joined give back the list. */
  lemma SplitConcat<T>(s: seq<T>, folds: nat)
    requires folds >= 1
    ensures Concat(Split(s, folds)) == s
  {
    var c := Cuts(|s|, folds);
    CutsAscend(|s|, folds);
    PiecesPrefix(s, c, folds);
    assert Split(s, folds)[..folds] == Split(s, folds);
    assert s[..|s|] == s;
  }

  /**
   * For fold k of a split, the training groups are the shuffled list without slice k, and the
   * test groups are slice k: every group is tested in exactly one fold and trained on in all
   * the others.
   */
  lemma TrainIsComplement<T>(s: seq<T>, folds: nat, k: nat)
    requires k < folds
    ensures ConcatExcept(Split(s, folds), k) == s[..Start(k, |s|, folds)] + s[End(k, |s|, folds)..]
    ensures Split(s, folds)[k] == s[Start(k, |s|, folds)..End(k, |s|, folds)]
  {
    CutsAscend(|s|, folds);
    CutsAt(|s|, folds, k);
    PiecesComplement(s, Cuts(|s|, folds), k);
    SliceAt(s, folds, k);
  }
}
