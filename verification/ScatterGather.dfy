/** bsg_scatter_gather: for each bit vector, the permutation that moves the set positions together
    and the one that moves them back. */
module ScatterGather {

  /** Bits set below position p. */
  function Ones(v: seq<bool>, p: nat): (n: nat)
    requires p <= |v|
    ensures n <= p
  {
    if p == 0 then 0 else Ones(v, p - 1) + if v[p - 1] then 1 else 0
  }

  function Popcount(v: seq<bool>): nat {
    Ones(v, |v|)
  }

  /** The vector by position; the generator's lists have the highest position first. */
  function Vec(a: seq<bool>): (v: seq<bool>)
    ensures |v| == |a|
  {
    seq(|a|, p requires 0 <= p < |a| => a[|a| - 1 - p])
  }

  lemma {:induction false} OnesMonotone(v: seq<bool>, p: nat, q: nat)
    requires p <= q <= |v|
    ensures Ones(v, p) <= Ones(v, q) && q - Ones(v, q) >= p - Ones(v, p)
    ensures p < q && v[p] ==> Ones(v, p) < Ones(v, q)
  {
    if p < q {
      OnesMonotone(v, p, q - 1);
    }
  }

  lemma OnesNone(v: seq<bool>)
    ensures Ones(v, 0) == 0
  {
  }

  lemma OnesNext(v: seq<bool>, p: nat)
    requires p < |v|
    ensures Ones(v, p + 1) == Ones(v, p) + if v[p] then 1 else 0
  {
  }

  /** A set position is determined by how many are set below it. */
  lemma SameRank(v: seq<bool>, p: nat, q: nat)
    requires p < |v| && q < |v| && v[p] && v[q] && Ones(v, p) == Ones(v, q)
    ensures p == q
  {
    if p < q {
      OnesMonotone(v, p, q);
    } else {
      OnesMonotone(v, q, p);
    }
  }

  // ----- the two vectors -------------------------------------------------------

  /** The highest unset position. */
  predicate IsSpare(v: seq<bool>, p: int) {
    0 <= p < |v| && !v[p] && forall q :: p < q < |v| ==> v[q]
  }

  /** Entry k is the position of the k-th set bit; the entries left over name the highest unset one. */
  predicate IsFwd(v: seq<bool>, fwd: seq<int>) {
    && |fwd| == |v|
    && (forall k :: 0 <= k < Popcount(v) ==> 0 <= fwd[k] < |v| && v[fwd[k]] && Ones(v, fwd[k]) == k)
    && (forall k :: Popcount(v) <= k < |v| ==> IsSpare(v, fwd[k]))
  }

  /** The same as distances: entry k is how far the k-th set bit moves down, and 0 where there is none. */
  predicate IsFwdDatapath(v: seq<bool>, fwd: seq<int>, dp: seq<int>) {
    && |dp| == |fwd| == |v|
    && (forall k :: 0 <= k < Popcount(v) ==> dp[k] == fwd[k] - k)
    && (forall k :: Popcount(v) <= k < |v| ==> dp[k] == 0)
  }

  /** A set position's rank among the set ones; a fixed value elsewhere. */
  predicate IsBack(v: seq<bool>, bk: seq<int>, unused: int) {
    |bk| == |v| && forall p :: 0 <= p < |v| ==> bk[p] == if v[p] then Ones(v, p) else unused
  }

  /** gen_fwd_vec_line_helper for either form. */
  method ForwardVec(a: seq<bool>, dpath: bool) returns (result: seq<int>)
    ensures !dpath ==> IsFwd(Vec(a), result)
    ensures dpath ==> exists fwd :: IsFwd(Vec(a), fwd) && IsFwdDatapath(Vec(a), fwd, result)
  {
    hide Ones;
    var n := |a|;
    ghost var v := Vec(a);
    OnesNone(v);
    var spare, pos := -1, 0;
    result := [];
    for i := 0 to n
      invariant pos == |result| == Ones(v, i)
      invariant spare == -1 ==> Ones(v, i) == i
      invariant spare >= 0 ==> spare < i && !v[spare] && forall q :: spare < q < i ==> v[q]
      invariant forall k :: 0 <= k < pos ==> IsKth(v, k, if dpath then result[k] + k else result[k], i)
    {
      OnesNext(v, i);
      if a[n - 1 - i] {
        result := result + [if dpath then i - pos else i];
        pos := pos + 1;
      } else {
        spare := i;
      }
    }
    var filler := if dpath then 0 else spare;
    result := result + seq(n - |result|, _ => filler);
    if dpath {
      ghost var fwd := seq(n, k requires 0 <= k < n => if k < pos then result[k] + k else spare);
      assert IsFwd(v, fwd);
      assert IsFwdDatapath(v, fwd, result);
    }
  }

  /** p, below i, is the k-th set position. */
  predicate IsKth(v: seq<bool>, k: nat, p: int, i: nat)
    requires i <= |v|
  {
    0 <= p < i && v[p] && Ones(v, p) == k
  }

  /** gen_back_vec_line_helper for either form. */
  method BackVec(a: seq<bool>, dpath: bool) returns (result: seq<int>)
    ensures IsBack(Vec(a), result, if dpath then 0 else |a| - 1)
  {
    var n, i := |a|, 0;
    ghost var v := Vec(a);
    result := [];
    for p := 0 to n
      invariant |result| == p && i == Ones(v, p)
      invariant forall q :: 0 <= q < p ==> result[q] == if v[q] then Ones(v, q) else if dpath then 0 else n - 1
    {
      if a[n - 1 - p] {
        result := result + [i];
        i := i + 1;
      } else {
        result := result + [if dpath then 0 else n - 1];
      }
    }
  }

  // ----- what they promise ------------------------------------------------------------

  /** Going back and forward: every set position returns to itself, every other one to a position
      that is not set either, so the vector is unchanged; going forward and back, every rank
      returns to itself. All entries are positions. */
  lemma Inverse(v: seq<bool>, fwd: seq<int>, bk: seq<int>)
    requires IsFwd(v, fwd) && IsBack(v, bk, |v| - 1)
    ensures forall p :: 0 <= p < |v| ==> 0 <= fwd[p] < |v| && 0 <= bk[p] < |v|
    ensures forall k :: 0 <= k < Popcount(v) ==> bk[fwd[k]] == k
    ensures forall p :: 0 <= p < |v| && v[p] ==> fwd[bk[p]] == p
    ensures forall p :: 0 <= p < |v| ==> v[fwd[bk[p]]] == v[p]
  {
    hide Ones, IsSpare;
    forall p | 0 <= p < |v|
      ensures 0 <= fwd[p] < |v| && 0 <= bk[p] < |v|
      ensures 0 <= fwd[bk[p]] < |v| && (v[p] ==> fwd[bk[p]] == p) && v[fwd[bk[p]]] == v[p]
    {
      InverseAt(v, fwd, bk, p);
    }
    forall k | 0 <= k < Popcount(v) ensures bk[fwd[k]] == k {
      ForwardBack(v, fwd, bk, k);
    }
  }

  lemma InverseAt(v: seq<bool>, fwd: seq<int>, bk: seq<int>, p: nat)
    requires IsFwd(v, fwd) && IsBack(v, bk, |v| - 1) && p < |v|
    ensures |fwd| == |bk| == |v| && 0 <= fwd[p] < |v| && 0 <= bk[p] < |v|
    ensures 0 <= fwd[bk[p]] < |v| && (v[p] ==> fwd[bk[p]] == p) && v[fwd[bk[p]]] == v[p]
  {
    hide Ones;
    OnesMonotone(v, p, |v|);
    if !v[p] {
      Unset(v, p);
    } else {
      SameRank(v, fwd[bk[p]], p);
    }
  }

  /** An unset position leaves the last rank unused. */
  lemma Unset(v: seq<bool>, p: nat)
    requires p < |v| && !v[p]
    ensures Popcount(v) <= |v| - 1
  {
    OnesMonotone(v, p + 1, |v|);
  }

  lemma ForwardBack(v: seq<bool>, fwd: seq<int>, bk: seq<int>, k: nat)
    requires IsFwd(v, fwd) && IsBack(v, bk, |v| - 1) && k < Popcount(v)
    ensures |fwd| == |bk| == |v| && k < |v| && 0 <= fwd[k] < |v| && bk[fwd[k]] == k
  {
  }

  /** The gathered bits keep their order, and each has moved down past the unset ones below it: the
      data path form counts those, so it never decreases. */
  lemma DatapathCountsZeros(v: seq<bool>, fwd: seq<int>, dp: seq<int>, j: nat, k: nat)
    requires IsFwd(v, fwd) && IsFwdDatapath(v, fwd, dp) && j <= k < Popcount(v)
    ensures 0 <= fwd[j] < |v| && 0 <= fwd[k] < |v|
    ensures dp[k] == fwd[k] - Ones(v, fwd[k]) >= 0
    ensures j < k ==> fwd[j] < fwd[k]
    ensures dp[j] <= dp[k]
  {
    OnesMonotone(v, |v|, |v|);
    assert k < |fwd|;
    if fwd[j] <= fwd[k] {
      OnesMonotone(v, fwd[j], fwd[k]);
    } else {
      OnesMonotone(v, fwd[k], fwd[j]);
    }
  }

  /** Both forms of the back vector agree where the vector is set. */
  lemma BackFormsAgree(v: seq<bool>, bk: seq<int>, dp: seq<int>, p: nat)
    requires IsBack(v, bk, |v| - 1) && IsBack(v, dp, 0) && p < |v| && v[p]
    ensures dp[p] == bk[p] == Ones(v, p)
  {
  }

  /** Gathering data with the one vector and scattering it with the other restores it where the
      vector is set, and the gathered data is the set positions' data in order. */
  lemma GatherScatter<T>(v: seq<bool>, fwd: seq<int>, bk: seq<int>, data: seq<T>, gathered: seq<T>)
    requires IsFwd(v, fwd) && IsBack(v, bk, |v| - 1) && |data| == |gathered| == |v|
    requires forall k :: 0 <= k < |v| ==> 0 <= fwd[k] < |v| && gathered[k] == data[fwd[k]]
    ensures gathered[..Popcount(v)] == SelectSet(v, data, |v|)
    ensures forall p :: 0 <= p < |v| && v[p] ==> 0 <= bk[p] < |v| && gathered[bk[p]] == data[p]
  {
    hide Ones, SelectSet;
    Inverse(v, fwd, bk);
    SelectSetAt(v, data, |v|);
    var sel := SelectSet(v, data, |v|);
    forall k | 0 <= k < Popcount(v) ensures gathered[k] == sel[k] {
      assert sel[Ones(v, fwd[k])] == data[fwd[k]];
    }
  }

  /** The data below p at set positions, in order. */
  function SelectSet<T>(v: seq<bool>, data: seq<T>, p: nat): seq<T>
    requires p <= |v| == |data|
  {
    if p == 0 then [] else SelectSet(v, data, p - 1) + if v[p - 1] then [data[p - 1]] else []
  }

  lemma {:induction false} SelectSetAt<T>(v: seq<bool>, data: seq<T>, p: nat)
    requires p <= |v| == |data|
    ensures |SelectSet(v, data, p)| == Ones(v, p)
    ensures forall q :: 0 <= q < p && v[q] ==> Ones(v, q) < Ones(v, p) && SelectSet(v, data, p)[Ones(v, q)] == data[q]
  {
    if p > 0 {
      SelectSetAt(v, data, p - 1);
    }
  }
}
