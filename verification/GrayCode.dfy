/** Fixed-width registers as bit vectors and the reflected Gray code
    (b >> 1) ^ b that bsg_async_ptr_gray sends across clock domains.
    Bit 0 is the least significant bit. */
module GrayCode {
  import opened Powers

  type Bits = seq<bool>

  /** The w-bit register holding n, that is n modulo 2^w. */
  function ToBits(n: nat, w: nat): (b: Bits)
    ensures |b| == w
  {
    if w == 0 then [] else [n % 2 == 1] + ToBits(n / 2, w - 1)
  }

  /** The unsigned number a register stands for. */
  function Value(b: Bits): (n: nat)
    ensures n < Pow2(|b|)
  {
    if b == [] then 0 else (if b[0] then 1 else 0) + 2 * Value(b[1..])
  }

  /** b + 1, dropping the carry out. */
  function Increment(b: Bits): (r: Bits)
    ensures |r| == |b|
  {
    if b == [] then []
    else if b[0] then [false] + Increment(b[1..])
    else [true] + b[1..]
  }

  /** b >> 1, a zero entering at the top. */
  function ShiftRight(b: Bits): (r: Bits)
    ensures |r| == |b|
  {
    if b == [] then [] else b[1..] + [false]
  }

  function Xor(a: Bits, b: Bits): (r: Bits)
    requires |a| == |b|
    ensures |r| == |a|
  {
    seq(|a|, i requires 0 <= i < |a| => a[i] != b[i])
  }

  function Gray(b: Bits): (g: Bits)
    ensures |g| == |b|
  {
    Xor(ShiftRight(b), b)
  }

  /** The Gray code of count n in a w-bit register. */
  function GrayOf(n: nat, w: nat): (g: Bits)
    ensures |g| == w
  {
    Gray(ToBits(n, w))
  }

  // ----- binary registers -------------------------------------------------

  lemma {:induction false} ValueToBits(n: nat, w: nat)
    ensures Value(ToBits(n, w)) == n % Pow2(w)
  {
    if w > 0 {
      var b := ToBits(n, w);
      assert b[1..] == ToBits(n / 2, w - 1);
      ValueToBits(n / 2, w - 1);
      Halve(n, Pow2(w - 1));
    }
  }

  lemma {:induction false} ToBitsValue(b: Bits)
    ensures ToBits(Value(b), |b|) == b
  {
    if b != [] {
      ToBitsValue(b[1..]);
      assert b == [b[0]] + b[1..];
    }
  }

  /** Equal registers hold counts that agree modulo 2^w, and conversely. */
  lemma ToBitsEqual(m: nat, n: nat, w: nat)
    ensures ToBits(m, w) == ToBits(n, w) <==> m % Pow2(w) == n % Pow2(w)
  {
    ValueToBits(m, w);
    ValueToBits(n, w);
    ToBitsValue(ToBits(m, w));
    ToBitsValue(ToBits(n, w));
  }

  lemma {:induction false} IncrementCounts(n: nat, w: nat)
    ensures Increment(ToBits(n, w)) == ToBits(n + 1, w)
  {
    if w > 0 {
      var b := ToBits(n, w);
      assert b[1..] == ToBits(n / 2, w - 1);
      if n % 2 == 1 {
        IncrementCounts(n / 2, w - 1);
        assert (n + 1) / 2 == n / 2 + 1;
      } else {
        assert (n + 1) / 2 == n / 2;
      }
    }
  }

  /** The bits above position k hold n / 2^k, the bits below it hold n. */
  lemma {:induction false} ToBitsSlice(n: nat, w: nat, k: nat)
    requires k <= w
    ensures ToBits(n, w)[k..] == ToBits(n / Pow2(k), w - k)
    ensures ToBits(n, w)[..k] == ToBits(n, k)
  {
    if k > 0 {
      var b := ToBits(n, w);
      ToBitsSlice(n / 2, w - 1, k - 1);
      assert b[k..] == b[1..][k - 1..];
      assert b[..k] == [b[0]] + b[1..][..k - 1];
      Halve(n, Pow2(k - 1));
    }
  }

  // ----- Gray code ---------------------------------------------------------

  /** Gray code of a non-empty register: its lowest bit, then the Gray code of the rest. */
  lemma GrayUnfold(b: Bits)
    requires b != []
    ensures Gray(b) == [(|b| > 1 && b[1]) != b[0]] + Gray(b[1..])
  {
    var g, t := Gray(b), b[1..];
    forall i | 0 < i < |b| ensures g[i] == Gray(t)[i - 1] {
      assert t[i - 1] == b[i];
      if i + 1 < |b| {
        assert ShiftRight(b)[i] == b[i + 1] == t[i] == ShiftRight(t)[i - 1];
      } else {
        assert !ShiftRight(b)[i] && !ShiftRight(t)[i - 1];
      }
    }
  }

  lemma {:induction false} GrayInjective(a: Bits, b: Bits)
    requires |a| == |b| && Gray(a) == Gray(b)
    ensures a == b
  {
    if a != [] {
      GrayUnfold(a);
      GrayUnfold(b);
      assert Gray(a)[1..] == Gray(a[1..]) && Gray(b)[1..] == Gray(b[1..]);
      GrayInjective(a[1..], b[1..]);
      assert Gray(a)[0] == Gray(b)[0];
      if |a| > 1 {
        assert a[1] == a[1..][0] == b[1..][0] == b[1];
      }
      assert a == [a[0]] + a[1..] && b == [b[0]] + b[1..];
    }
  }

  /** Comparing Gray codes compares the counts modulo 2^w. */
  lemma GrayEqual(m: nat, n: nat, w: nat)
    ensures GrayOf(m, w) == GrayOf(n, w) <==> m % Pow2(w) == n % Pow2(w)
  {
    ToBitsEqual(m, n, w);
    if GrayOf(m, w) == GrayOf(n, w) {
      GrayInjective(ToBits(m, w), ToBits(n, w));
    }
  }

  /** For counts less than a revolution apart the Gray comparison is exact. */
  lemma GrayEqualClose(m: nat, n: nat, w: nat)
    requires m < n + Pow2(w) && n < m + Pow2(w)
    ensures GrayOf(m, w) == GrayOf(n, w) <==> m == n
  {
    GrayEqual(m, n, w);
    if m % Pow2(w) == n % Pow2(w) {
      CloseAndCongruent(m, n, Pow2(w));
    }
  }

  /** The position in which the Gray codes of n and n + 1 differ. */
  function ToggleAt(n: nat, w: nat): (k: nat)
    requires w > 0
    ensures k < w
  {
    if w == 1 || n % 2 == 0 then 0 else 1 + ToggleAt(n / 2, w - 1)
  }

  /** A Gray code by its lowest bit and the code of the half. */
  lemma GrayParts(n: nat, w: nat, i: nat)
    requires i < w
    ensures i > 0 ==> GrayOf(n, w)[i] == GrayOf(n / 2, w - 1)[i - 1]
    ensures i == 0 ==> GrayOf(n, w)[i] == ((n % 2 == 1) != (w > 1 && n / 2 % 2 == 1))
  {
    hide Gray;
    var a := ToBits(n, w);
    GrayUnfold(a);
    GrayLowest(a);
    assert a[1..] == ToBits(n / 2, w - 1);
    if w > 1 {
      assert a[1] == a[1..][0];
    }
  }

  lemma GrayLowest(b: Bits)
    requires b != []
    ensures Gray(b)[0] == (b[0] != (|b| > 1 && b[1]))
  {
  }

  lemma HalfNext(n: nat)
    ensures n % 2 == 0 ==> (n + 1) / 2 == n / 2 && (n + 1) % 2 == 1
    ensures n % 2 == 1 ==> (n + 1) / 2 == n / 2 + 1 && (n + 1) % 2 == 0
    ensures (n + 1) % 2 != n % 2
  {
  }

  lemma {:induction false} GrayAdjacent(n: nat, w: nat)
    requires w > 0
    ensures forall i :: 0 <= i < w ==> (GrayOf(n, w)[i] != GrayOf(n + 1, w)[i] <==> i == ToggleAt(n, w))
  {
    hide GrayOf;
    HalfNext(n);
    HalfNext(n / 2);
    if n % 2 == 1 && w > 1 {
      GrayAdjacent(n / 2, w - 1);
    }
    forall i | 0 <= i < w ensures GrayOf(n, w)[i] != GrayOf(n + 1, w)[i] <==> i == ToggleAt(n, w) {
      GrayParts(n, w, i);
      GrayParts(n + 1, w, i);
    }
  }

  /** What a flop may capture while its input changes from a to b:
      each bit independently old or new. */
  predicate IsSample(s: Bits, a: Bits, b: Bits) {
    |s| == |a| == |b| && forall i :: 0 <= i < |s| ==> s[i] == a[i] || s[i] == b[i]
  }

  /** Sampling a Gray pointer while it steps yields the old or the new count, never a third. */
  lemma SampleIsOldOrNew(s: Bits, n: nat, step: bool, w: nat)
    requires IsSample(s, GrayOf(n, w), GrayOf(if step then n + 1 else n, w))
    ensures s == GrayOf(n, w) || s == GrayOf(if step then n + 1 else n, w)
  {
    if step && w > 0 {
      GrayAdjacent(n, w);
      var k := ToggleAt(n, w);
      if s[k] == GrayOf(n, w)[k] {
        assert s == GrayOf(n, w);
      } else {
        assert s == GrayOf(n + 1, w);
      }
    }
  }

  /** Inverts the two most significant bits. */
  function FlipTopTwo(g: Bits): (r: Bits)
    requires |g| >= 2
    ensures |r| == |g|
  {
    var t := |g| - 2;
    g[..t] + [!g[t], !g[t + 1]]
  }

  /** Half a revolution of a counter inverts its top bit and leaves the others. */
  lemma {:induction false} HalfTurn(n: nat, w: nat)
    requires w > 0
    ensures ToBits(n + Pow2(w - 1), w) == ToBits(n, w)[w - 1 := !ToBits(n, w)[w - 1]]
  {
    if w > 1 {
      assert Pow2(w - 1) == 2 * Pow2(w - 2);
      assert (n + Pow2(w - 1)) / 2 == n / 2 + Pow2(w - 2);
      HalfTurn(n / 2, w - 1);
    } else {
      assert Pow2(0) == 1;
    }
  }

  /** Half a revolution of the counter inverts exactly the two top bits of its Gray code. */
  lemma GrayHalfTurn(n: nat, w: nat)
    requires w >= 2
    ensures GrayOf(n + Pow2(w - 1), w) == FlipTopTwo(GrayOf(n, w))
  {
    HalfTurn(n, w);
    var a, b := ToBits(n, w), ToBits(n + Pow2(w - 1), w);
    forall i | 0 <= i < w
      ensures Gray(b)[i] == FlipTopTwo(Gray(a))[i]
    {
      if i < w - 1 {
        assert ShiftRight(a)[i] == a[i + 1] && ShiftRight(b)[i] == b[i + 1];
      } else {
        assert !ShiftRight(a)[i] && !ShiftRight(b)[i];
      }
    }
  }
}
