/** bsg_cache's sub-word path: stores and atomics narrower than a word become a replicated word and a
    byte mask, loads a selected and extended slice. Words hold 2^lg bytes; sizes are 2^size bytes. */
module CacheSubWord {
  import opened Powers
  import opened CacheAlu
  import A = CacheAmo

  /** The data memory by word number, and the byte-addressed memory it stands for; what was never
      written reads as zero. */
  type WordMem = map<nat, seq<Byte>>
  type ByteMem = map<nat, Byte>

  function GetWord(lg: nat, m: WordMem, w: nat): (r: seq<Byte>)
    ensures |r| == Pow2(lg)
  {
    if w in m && |m[w]| == Pow2(lg) then m[w] else seq(Pow2(lg), _ => 0)
  }

  function GetByte(m: ByteMem, a: nat): Byte {
    if a in m then m[a] else 0
  }

  /** Division through a variable, kept out of the proofs about memories. */
  function Div(a: nat, p: nat): nat
    requires p >= 1
  {
    a / p
  }

  function Mod(a: nat, p: nat): (r: nat)
    requires p >= 1
    ensures r < p
  {
    a % p
  }

  function WordOf(lg: nat, a: nat): nat { Div(a, Pow2(lg)) }

  function OffsetOf(lg: nat, a: nat): (r: nat)
    ensures r < Pow2(lg)
  {
    Mod(a, Pow2(lg))
  }

  /** The word memory holds exactly the bytes of the byte memory. */
  ghost predicate Agrees(lg: nat, wm: WordMem, bm: ByteMem) {
    forall a: nat :: GetWord(lg, wm, WordOf(lg, a))[OffsetOf(lg, a)] == GetByte(bm, a)
  }

  // ----- address arithmetic --------------------------------------------------------

  lemma NestedDivision(a: nat, p: nat, q: nat)
    requires p >= 1 && q >= 1
    ensures p * q >= 1
    ensures Div(a, p * q) == Div(Div(a, p), q)
    ensures Div(Mod(a, p * q), p) == Mod(Div(a, p), q) && Mod(Mod(a, p * q), p) == Mod(a, p)
  {
    MulMonotone(1, p, q);
    var d, r := a / p, a % p;
    var e, s := d / q, d % q;
    assert a == (e * q + s) * p + r;
    Distribute(e * q, s, p);
    assert e * q * p == e * (p * q);
    MulMonotone(s + 1, q, p);
    Distribute(s, 1, p);
    DivModUnique(a, p * q, e, s * p + r);
    DivModUnique(s * p + r, p, s, r);
  }

  /** The aligned block of p bytes around a. */
  function Align(a: nat, p: nat): nat
    requires p >= 1
  {
    Div(a, p) * p
  }

  lemma InBlock(a: nat, b: nat, p: nat)
    requires p >= 1
    ensures Align(a, p) <= b < Align(a, p) + p <==> Div(b, p) == Div(a, p)
    ensures Div(b, p) == Div(a, p) ==> b - Align(a, p) == Mod(b, p)
  {
    var q := a / p;
    if q * p <= b < q * p + p {
      DivModUnique(b, p, q, b - q * p);
    }
  }

  lemma AtBlock(a: nat, t: nat, p: nat)
    requires p >= 1 && t < p
    ensures Div(Align(a, p) + t, p) == Div(a, p) && Mod(Align(a, p) + t, p) == t
  {
    DivModUnique(a / p * p + t, p, a / p, t);
  }

  /** How a byte address splits, for a slice of 2^size bytes in a word of 2^lg. */
  lemma Splits(lg: nat, size: nat, b: nat)
    requires size <= lg
    ensures Pow2(lg) == Pow2(size) * Pow2(lg - size)
    ensures WordOf(lg, b) == Div(Div(b, Pow2(size)), Pow2(lg - size))
    ensures Div(OffsetOf(lg, b), Pow2(size)) == Mod(Div(b, Pow2(size)), Pow2(lg - size))
    ensures Mod(OffsetOf(lg, b), Pow2(size)) == Mod(b, Pow2(size))
  {
    hide Div, Mod, Pow2;
    Pow2Add(size, lg - size);
    NestedDivision(b, Pow2(size), Pow2(lg - size));
  }

  /** Two addresses are in the same aligned slice exactly when they are in the same word and the same
      slice of it. */
  lemma SameSlice(lg: nat, size: nat, a: nat, b: nat)
    requires size <= lg
    ensures Div(b, Pow2(size)) == Div(a, Pow2(size)) <==>
            WordOf(lg, b) == WordOf(lg, a) && Div(OffsetOf(lg, b), Pow2(size)) == Div(OffsetOf(lg, a), Pow2(size))
  {
    hide WordOf, OffsetOf;
    Splits(lg, size, a);
    Splits(lg, size, b);
    DivAndMod(Div(a, Pow2(size)), Div(b, Pow2(size)), Pow2(lg - size));
  }

  lemma DivAndMod(x: nat, y: nat, q: nat)
    requires q >= 1
    ensures x == y <==> Div(x, q) == Div(y, q) && Mod(x, q) == Mod(y, q)
  {
  }

  // ----- the wiring -------------------------------------------------------------------

  /** The bit slice a[low +: width]. */
  function AddrSlice(a: nat, low: nat, width: nat): nat {
    Mod(Div(a, Pow2(low)), Pow2(width))
  }

  /** Select input of the decoder and of the mux for a size: at least one bit wide. */
  function Slice(lg: nat, size: nat, a: nat): nat
    requires size <= lg
  {
    AddrSlice(a, size, if lg - size >= 1 then lg - size else 1)
  }

  /** bsg_decode: with one output the input is ignored. */
  function Decoded(n: nat, k: nat): (bits: seq<bool>)
    ensures |bits| == n
  {
    seq(n, j requires 0 <= j < n => n == 1 || j == k)
  }

  /** bsg_expand_bitmask of the decoded slice, to a mask of n bytes. */
  function Expanded(bits: seq<bool>, p: nat, n: nat): (mask: seq<bool>)
    requires p >= 1
    ensures |mask| == n
  {
    seq(n, j requires 0 <= j < n => Div(j, p) < |bits| && bits[Div(j, p)])
  }

  function StoreMask(lg: nat, size: nat, a: nat): (mask: seq<bool>)
    requires size <= lg
    ensures |mask| == Pow2(lg)
  {
    Expanded(Decoded(Pow2(lg - size), Slice(lg, size, a)), Pow2(size), Pow2(lg))
  }

  /** The low bytes of data, replicated over the word. */
  function Replicated(lg: nat, size: nat, data: seq<Byte>): (word: seq<Byte>)
    requires |data| == Pow2(size)
    ensures |word| == Pow2(lg)
  {
    seq(Pow2(lg), j requires 0 <= j < Pow2(lg) => data[Mod(j, Pow2(size))])
  }

  /** A masked write of one word. */
  function Merge(word: seq<Byte>, data: seq<Byte>, mask: seq<bool>): (r: seq<Byte>)
    requires |word| == |data| == |mask|
    ensures |r| == |word|
  {
    seq(|word|, j requires 0 <= j < |word| => if mask[j] then data[j] else word[j])
  }

  function Store(lg: nat, wm: WordMem, size: nat, a: nat, data: seq<Byte>): WordMem
    requires size <= lg && |data| == Pow2(size)
  {
    wm[WordOf(lg, a) := Merge(GetWord(lg, wm, WordOf(lg, a)), Replicated(lg, size, data), StoreMask(lg, size, a))]
  }

  function MaskStore(lg: nat, wm: WordMem, a: nat, data: seq<Byte>, mask: seq<bool>): WordMem
    requires |data| == |mask| == Pow2(lg)
  {
    wm[WordOf(lg, a) := Merge(GetWord(lg, wm, WordOf(lg, a)), data, mask)]
  }

  /** byte_sel: the mux over the slices of a word; with one slice the select is ignored. */
  function Selected(lg: nat, wm: WordMem, size: nat, a: nat): (b: seq<Byte>)
    requires size <= lg
    ensures |b| == Pow2(size)
  {
    var word := GetWord(lg, wm, WordOf(lg, a));
    var k := if lg == size then 0 else Slice(lg, size, a);
    SliceInWord(lg, size, k, a);
    seq(Pow2(size), t requires 0 <= t < Pow2(size) => word[k * Pow2(size) + t])
  }

  lemma SliceInWord(lg: nat, size: nat, k: nat, a: nat)
    requires size <= lg && k == if lg == size then 0 else Slice(lg, size, a)
    ensures k < Pow2(lg - size) && k * Pow2(size) + Pow2(size) <= Pow2(lg)
    ensures k == Mod(Div(a, Pow2(size)), Pow2(lg - size))
  {
    hide Div;
    Pow2Add(size, lg - size);
    MulMonotone(k + 1, Pow2(lg - size), Pow2(size));
    Distribute(k, 1, Pow2(size));
  }

  /** Zero or sign extension to n bytes. */
  function Extended(b: seq<Byte>, n: nat, signed: bool): (r: seq<Byte>)
    requires 1 <= |b| <= n
    ensures |r| == n
  {
    b + seq(n - |b|, _ => if signed && b[|b| - 1] >= 0x80 then 0xFF else 0)
  }

  function Load(lg: nat, wm: WordMem, size: nat, a: nat, signed: bool): (r: seq<Byte>)
    requires size <= lg
    ensures |r| == Pow2(lg)
  {
    Pow2Monotone(size, lg);
    Extended(Selected(lg, wm, size, a), Pow2(lg), signed)
  }

  /** A masked load clears the bytes outside its mask. */
  function MaskLoad(lg: nat, wm: WordMem, a: nat, mask: seq<bool>): seq<Byte>
    requires |mask| == Pow2(lg)
  {
    var word := GetWord(lg, wm, WordOf(lg, a));
    seq(Pow2(lg), j requires 0 <= j < Pow2(lg) => if mask[j] then word[j] else 0)
  }

  // ----- the byte-addressed memory ------------------------------------------------------

  /** n bytes from address a. */
  function ReadBytes(bm: ByteMem, a: nat, n: nat): (b: seq<Byte>)
    ensures |b| == n
  {
    seq(n, t requires 0 <= t < n => GetByte(bm, a + t))
  }

  predicate Within(b: nat, a: nat, n: nat) {
    a <= b < a + n
  }

  function WriteBytes(bm: ByteMem, a: nat, data: seq<Byte>): ByteMem {
    bm + map b: nat | a <= b < a + |data| && Within(b, a, |data|) :: b := data[b - a]
  }

  function WriteMasked(bm: ByteMem, a: nat, data: seq<Byte>, mask: seq<bool>): ByteMem
    requires |data| == |mask|
  {
    bm + map b: nat | a <= b < a + |data| && Within(b, a, |data|) && mask[b - a] :: b := data[b - a]
  }

  /** The mask of a store covers the bytes of its slice, and no others. */
  lemma MaskIsSlice(lg: nat, size: nat, a: nat, j: nat)
    requires size <= lg && j < Pow2(lg)
    ensures StoreMask(lg, size, a)[j] <==> Div(j, Pow2(size)) == Div(OffsetOf(lg, a), Pow2(size))
  {
    hide Div, OffsetOf, Mod;
    Splits(lg, size, a);
    SliceInWord(lg, size, if lg == size then 0 else Slice(lg, size, a), a);
    SliceNumber(lg, size, j);
    SliceNumber(lg, size, OffsetOf(lg, a));
  }

  lemma SliceNumber(lg: nat, size: nat, j: nat)
    requires size <= lg && j < Pow2(lg)
    ensures Div(j, Pow2(size)) < Pow2(lg - size)
  {
    hide Pow2;
    Pow2Add(size, lg - size);
    SmallQuotient(j, Pow2(size), Pow2(lg - size));
  }

  lemma SmallQuotient(j: nat, p: nat, q: nat)
    requires p > 0 && j < p * q
    ensures j / p < q
  {
    assert j == p * (j / p) + j % p;
    if j / p >= q {
      MulMonotone(q, j / p, p);
    }
  }

  /** One byte of memory after a store. */
  lemma StoredByte(lg: nat, wm: WordMem, bm: ByteMem, size: nat, a: nat, data: seq<Byte>, b: nat)
    requires size <= lg && |data| == Pow2(size) && Agrees(lg, wm, bm)
    ensures GetWord(lg, Store(lg, wm, size, a, data), WordOf(lg, b))[OffsetOf(lg, b)] ==
            GetByte(WriteBytes(bm, Align(a, Pow2(size)), data), b)
  {
    hide Div, Mod, WordOf, OffsetOf, Align, StoreMask, Pow2, Agrees;
    AgreesAt(lg, wm, bm, b);
    SameSlice(lg, size, a, b);
    InBlock(a, b, Pow2(size));
    MaskIsSlice(lg, size, a, OffsetOf(lg, b));
    Splits(lg, size, b);
  }

  lemma AgreesAt(lg: nat, wm: WordMem, bm: ByteMem, b: nat)
    requires Agrees(lg, wm, bm)
    ensures GetWord(lg, wm, WordOf(lg, b))[OffsetOf(lg, b)] == GetByte(bm, b)
  {
  }

  lemma StoreAgrees(lg: nat, wm: WordMem, bm: ByteMem, size: nat, a: nat, data: seq<Byte>)
    requires size <= lg && |data| == Pow2(size) && Agrees(lg, wm, bm)
    ensures Agrees(lg, Store(lg, wm, size, a, data), WriteBytes(bm, Align(a, Pow2(size)), data))
  {
    hide GetWord, WordOf, OffsetOf, Store, WriteBytes, GetByte;
    forall b: nat
      ensures GetWord(lg, Store(lg, wm, size, a, data), WordOf(lg, b))[OffsetOf(lg, b)] ==
              GetByte(WriteBytes(bm, Align(a, Pow2(size)), data), b)
    {
      StoredByte(lg, wm, bm, size, a, data, b);
    }
  }

  lemma MaskStoredByte(lg: nat, wm: WordMem, bm: ByteMem, a: nat, data: seq<Byte>, mask: seq<bool>, b: nat)
    requires |data| == |mask| == Pow2(lg) && Agrees(lg, wm, bm)
    ensures GetWord(lg, MaskStore(lg, wm, a, data, mask), WordOf(lg, b))[OffsetOf(lg, b)] ==
            GetByte(WriteMasked(bm, Align(a, Pow2(lg)), data, mask), b)
  {
    hide Div, Mod, Align, Pow2, Agrees;
    AgreesAt(lg, wm, bm, b);
    InBlock(a, b, Pow2(lg));
  }

  lemma MaskStoreAgrees(lg: nat, wm: WordMem, bm: ByteMem, a: nat, data: seq<Byte>, mask: seq<bool>)
    requires |data| == |mask| == Pow2(lg) && Agrees(lg, wm, bm)
    ensures Agrees(lg, MaskStore(lg, wm, a, data, mask), WriteMasked(bm, Align(a, Pow2(lg)), data, mask))
  {
    hide GetWord, WordOf, OffsetOf, MaskStore, WriteMasked, GetByte;
    forall b: nat
      ensures GetWord(lg, MaskStore(lg, wm, a, data, mask), WordOf(lg, b))[OffsetOf(lg, b)] ==
              GetByte(WriteMasked(bm, Align(a, Pow2(lg)), data, mask), b)
    {
      MaskStoredByte(lg, wm, bm, a, data, mask, b);
    }
  }

  /** A selected slice is the aligned bytes of memory. */
  lemma SelectedAgrees(lg: nat, wm: WordMem, bm: ByteMem, size: nat, a: nat)
    requires size <= lg && Agrees(lg, wm, bm)
    ensures Selected(lg, wm, size, a) == ReadBytes(bm, Align(a, Pow2(size)), Pow2(size))
  {
    hide Agrees, GetByte, GetWord;
    forall t | 0 <= t < Pow2(size) ensures Selected(lg, wm, size, a)[t] == GetByte(bm, Align(a, Pow2(size)) + t) {
      SelectedByte(lg, wm, bm, size, a, t);
    }
  }

  lemma SelectedByte(lg: nat, wm: WordMem, bm: ByteMem, size: nat, a: nat, t: nat)
    requires size <= lg && Agrees(lg, wm, bm) && t < Pow2(size)
    ensures Selected(lg, wm, size, a)[t] == GetByte(bm, Align(a, Pow2(size)) + t)
  {
    hide Agrees, GetByte, GetWord, Div, Mod, Align, WordOf, OffsetOf, Pow2;
    var p := Pow2(size);
    var b := Align(a, p) + t;
    var k := if lg == size then 0 else Slice(lg, size, a);
    AtBlock(a, t, p);
    AgreesAt(lg, wm, bm, b);
    Splits(lg, size, a);
    Splits(lg, size, b);
    SliceInWord(lg, size, k, a);
    Recombine(OffsetOf(lg, b), p);
  }

  lemma Recombine(x: nat, p: nat)
    requires p >= 1
    ensures x == Div(x, p) * p + Mod(x, p)
  {
  }

  lemma {:induction false} FillValue(k: nat, x: Byte)
    requires x == 0 || x == 0xFF
    ensures A.Value(seq(k, _ => x)) == if x == 0 then 0 else A.Pow256(k) - 1
  {
    hide A.Num;
    if k > 0 {
      FillValue(k - 1, x);
      assert seq(k, _ => x)[1..] == seq(k - 1, _ => x);
      FillNum(x);
    }
  }

  lemma FillNum(x: Byte)
    requires x == 0 || x == 0xFF
    ensures A.Num(x) == if x == 0 then 0 else 255
  {
  }

  lemma SignNum(x: Byte)
    ensures x >= 0x80 <==> A.Num(x) >= 128
  {
  }

  lemma {:induction false} Pow256Add(a: nat, b: nat)
    ensures A.Pow256(a + b) == A.Pow256(a) * A.Pow256(b)
  {
    if a > 0 {
      Pow256Add(a - 1, b);
      A.Scale(A.Pow256(a - 1), A.Pow256(b));
    }
  }

  lemma Lengthened(b: seq<Byte>, k: nat, x: Byte)
    requires x == 0 || x == 0xFF
    ensures A.Value(b + seq(k, _ => x)) ==
            if x == 0 then A.Value(b) else A.Value(b) + A.Pow256(|b| + k) - A.Pow256(|b|)
  {
    hide A.Value, A.Pow256;
    var more := seq(k, _ => x);
    var r := b + more;
    assert r[..|b|] == b && r[|b|..] == more;
    A.ValueSplit(r, |b|);
    FillValue(k, x);
    Pow256Add(|b|, k);
    LessOne(A.Pow256(|b|), A.Pow256(k));
  }

  lemma LessOne(p: nat, q: nat)
    ensures p * (q - 1) == p * q - p && p * 0 == 0
  {
  }

  function Fill(b: seq<Byte>, signed: bool): Byte
    requires b != []
  {
    if signed && b[|b| - 1] >= 0x80 then 0xFF else 0
  }

  lemma FillIs(b: seq<Byte>, signed: bool)
    requires b != []
    ensures Fill(b, signed) == 0 || Fill(b, signed) == 0xFF
    ensures A.Num(Fill(b, signed)) == if signed && A.Num(b[|b| - 1]) >= 128 then 255 else 0
    ensures Fill(b, signed) == 0 <==> A.Num(Fill(b, signed)) == 0
  {
    hide A.Num;
    SignNum(b[|b| - 1]);
    FillNum(Fill(b, signed));
  }

  lemma ExtendedIs(b: seq<Byte>, n: nat, signed: bool)
    requires 1 <= |b| <= n
    ensures Extended(b, n, signed) == b + seq(n - |b|, _ => Fill(b, signed))
  {
  }

  /** Extension keeps the number that the bytes stand for: the two's complement one with sign, the
      unsigned one without. */
  lemma ExtendedValue(b: seq<Byte>, n: nat, signed: bool)
    requires 1 <= |b| <= n
    ensures if signed then A.SignedValue(Extended(b, n, signed)) == A.SignedValue(b)
            else A.Value(Extended(b, n, signed)) == A.Value(b)
  {
    hide A.Value, A.Num, A.Pow256, Fill, Extended;
    var x := Fill(b, signed);
    var r := b + seq(n - |b|, _ => x);
    ExtendedIs(b, n, signed);
    FillIs(b, signed);
    Lengthened(b, n - |b|, x);
    assert r[n - 1] == if n == |b| then b[n - 1] else x;
  }

  /** Loads of every size agree with byte-addressed memory: the word loaded stands for the number that
      the aligned bytes make, in two's complement for a signed load and unsigned for an unsigned one. */
  lemma LoadAgrees(lg: nat, wm: WordMem, bm: ByteMem, size: nat, a: nat, signed: bool)
    requires size <= lg && Agrees(lg, wm, bm)
    ensures var word, bytes := Load(lg, wm, size, a, signed), ReadBytes(bm, Align(a, Pow2(size)), Pow2(size));
            if signed then A.SignedValue(word) == A.SignedValue(bytes) else A.Value(word) == A.Value(bytes)
  {
    hide Selected, Extended, Agrees, Pow2, Align, A.SignedValue, A.Value;
    Pow2Monotone(size, lg);
    SelectedAgrees(lg, wm, bm, size, a);
    ExtendedValue(Selected(lg, wm, size, a), Pow2(lg), signed);
  }

  lemma MaskLoadAgrees(lg: nat, wm: WordMem, bm: ByteMem, a: nat, mask: seq<bool>)
    requires |mask| == Pow2(lg) && Agrees(lg, wm, bm)
    ensures forall j :: 0 <= j < Pow2(lg) ==>
              MaskLoad(lg, wm, a, mask)[j] == if mask[j] then GetByte(bm, Align(a, Pow2(lg)) + j) else 0
  {
    hide Agrees, GetByte, GetWord, Div, Mod, Align, Pow2;
    forall j | 0 <= j < Pow2(lg)
      ensures MaskLoad(lg, wm, a, mask)[j] == if mask[j] then GetByte(bm, Align(a, Pow2(lg)) + j) else 0
    {
      AtBlock(a, j, Pow2(lg));
      AgreesAt(lg, wm, bm, Align(a, Pow2(lg)) + j);
    }
  }

  // ----- sequences of stores and atomics -----------------------------------------------

  /** data is the packet's word, of which a store or atomic of size uses the low 2^size bytes. */
  datatype Op =
    | StoreOp(size: nat, addr: nat, data: seq<Byte>)
    | MaskStoreOp(addr: nat, data: seq<Byte>, mask: seq<bool>)
    | AmoOp(amo: Amo, size: nat, addr: nat, data: seq<Byte>)

  /** Sizes a word can hold; atomics are of words (4 bytes) and doublewords (8). */
  predicate ValidOp(lg: nat, op: Op) {
    && |op.data| == Pow2(lg)
    && match op
       case StoreOp(size, _, _) => size <= 3 && size <= lg
       case MaskStoreOp(_, _, mask) => |mask| == Pow2(lg)
       case AmoOp(_, size, _, _) => (size == 2 || size == 3) && size <= lg
  }

  function LowBytes(lg: nat, size: nat, data: seq<Byte>): (b: seq<Byte>)
    requires size <= lg && |data| == Pow2(lg)
    ensures |b| == Pow2(size)
  {
    Pow2Monotone(size, lg);
    data[..Pow2(size)]
  }

  /** atomic_result's low bytes: a 32-bit ALU for 32-bit words, otherwise the shared 64-bit one. */
  function AtomicResult(lg: nat, amo: Amo, size: nat, reg: seq<Byte>, mem: seq<Byte>): (b: seq<Byte>)
    requires (size == 2 || size == 3) && |reg| == |mem| == Pow2(size)
    ensures |b| == Pow2(size)
  {
    assert Pow2(2) == 4 && Pow2(3) == 8;
    if size == 3 then From64(Alu64(amo, To64(reg), To64(mem)))
    else if lg >= 3 then WiredWord(amo, reg, mem)
    else From32(Alu32(amo, To32(reg), To32(mem)))
  }

  /** Shared or not, the ALU computes what the atomic is meant to: on the numbers and bits that the
      bytes stand for. */
  lemma AtomicIsMeant(lg: nat, amo: Amo, size: nat, reg: seq<Byte>, mem: seq<Byte>)
    requires (size == 2 || size == 3) && |reg| == |mem| == Pow2(size)
    ensures Pow2(size) == 4 || Pow2(size) == 8
    ensures AtomicResult(lg, amo, size, reg, mem) == A.Meant(amo, reg, mem)
  {
    hide Alu64, Alu32, To32, From32, To64, From64, WiredWord, A.Meant;
    assert Pow2(2) == 4 && Pow2(3) == 8;
    if size == 2 {
      WiredWordIsWord(amo, reg, mem);
      A.Alu32Meant(amo, reg, mem);
    } else {
      A.Alu64Meant(amo, reg, mem);
    }
  }

  /** The hardware's effect on the word memory. */
  function Apply(lg: nat, wm: WordMem, op: Op): WordMem
    requires ValidOp(lg, op)
  {
    match op
    case StoreOp(size, a, data) => Store(lg, wm, size, a, LowBytes(lg, size, data))
    case MaskStoreOp(a, data, mask) => MaskStore(lg, wm, a, data, mask)
    case AmoOp(amo, size, a, data) =>
      Store(lg, wm, size, a, AtomicResult(lg, amo, size, LowBytes(lg, size, data), Selected(lg, wm, size, a)))
  }

  /** The program's view: bytes written at the aligned address, of the packet's data the first 2^size. */
  ghost function ApplyBytes(lg: nat, bm: ByteMem, op: Op): ByteMem
    requires ValidOp(lg, op)
  {
    match op
    case StoreOp(size, a, data) => WriteBytes(bm, Align(a, Pow2(size)), First(data, Pow2(size)))
    case MaskStoreOp(a, data, mask) => WriteMasked(bm, Align(a, Pow2(lg)), data, mask)
    case AmoOp(amo, size, a, data) =>
      var n, at := Pow2(size), Align(a, Pow2(size));
      assert Pow2(2) == 4 && Pow2(3) == 8;
      WriteBytes(bm, at, A.Meant(amo, First(data, n), ReadBytes(bm, at, n)))
  }

  function First(data: seq<Byte>, n: nat): (b: seq<Byte>)
    ensures |b| == n
  {
    seq(n, t requires 0 <= t < n => if t < |data| then data[t] else 0)
  }

  lemma LowIsFirst(lg: nat, size: nat, data: seq<Byte>)
    requires size <= lg && |data| == Pow2(lg)
    ensures LowBytes(lg, size, data) == First(data, Pow2(size))
  {
    Pow2Monotone(size, lg);
  }

  lemma StepAgrees(lg: nat, wm: WordMem, bm: ByteMem, op: Op)
    requires ValidOp(lg, op) && Agrees(lg, wm, bm)
    ensures Agrees(lg, Apply(lg, wm, op), ApplyBytes(lg, bm, op))
  {
    hide Agrees, Store, MaskStore, WriteBytes, WriteMasked, AtomicResult, A.Meant, Selected, ReadBytes,
      Align, LowBytes, First, Pow2;
    match op
    case StoreOp(size, a, data) =>
      LowIsFirst(lg, size, data);
      StoreAgrees(lg, wm, bm, size, a, LowBytes(lg, size, data));
    case MaskStoreOp(a, data, mask) => MaskStoreAgrees(lg, wm, bm, a, data, mask);
    case AmoOp(amo, size, a, data) =>
      LowIsFirst(lg, size, data);
      SelectedAgrees(lg, wm, bm, size, a);
      var reg := LowBytes(lg, size, data);
      AtomicIsMeant(lg, amo, size, reg, Selected(lg, wm, size, a));
      StoreAgrees(lg, wm, bm, size, a, AtomicResult(lg, amo, size, reg, Selected(lg, wm, size, a)));
  }

  function ApplyAll(lg: nat, wm: WordMem, ops: seq<Op>): WordMem
    requires forall op :: op in ops ==> ValidOp(lg, op)
    decreases |ops|
  {
    if ops == [] then wm else ApplyAll(lg, Apply(lg, wm, ops[0]), ops[1..])
  }

  ghost function ApplyAllBytes(lg: nat, bm: ByteMem, ops: seq<Op>): ByteMem
    requires forall op :: op in ops ==> ValidOp(lg, op)
    decreases |ops|
  {
    if ops == [] then bm else ApplyAllBytes(lg, ApplyBytes(lg, bm, ops[0]), ops[1..])
  }

  lemma {:induction false} RunAgrees(lg: nat, wm: WordMem, bm: ByteMem, ops: seq<Op>)
    requires (forall op :: op in ops ==> ValidOp(lg, op)) && Agrees(lg, wm, bm)
    ensures Agrees(lg, ApplyAll(lg, wm, ops), ApplyAllBytes(lg, bm, ops))
    decreases |ops|
  {
    hide Agrees, Apply, ApplyBytes, ValidOp;
    if ops != [] {
      StepAgrees(lg, wm, bm, ops[0]);
      RunAgrees(lg, Apply(lg, wm, ops[0]), ApplyBytes(lg, bm, ops[0]), ops[1..]);
    }
  }

  /** For every word width: after any sequence of sub-word stores, masked stores and atomics, any
      load gives the number that the aligned bytes of byte-addressed memory make. */
  lemma LoadAfterStores(lg: nat, ops: seq<Op>, size: nat, a: nat, signed: bool)
    requires (forall op :: op in ops ==> ValidOp(lg, op)) && size <= 3 && size <= lg
    ensures var word := Load(lg, ApplyAll(lg, map[], ops), size, a, signed);
            var bytes := ReadBytes(ApplyAllBytes(lg, map[], ops), Align(a, Pow2(size)), Pow2(size));
            if signed then A.SignedValue(word) == A.SignedValue(bytes) else A.Value(word) == A.Value(bytes)
  {
    hide Load, ApplyAll, ApplyAllBytes, ReadBytes, Align, ValidOp, Pow2, A.SignedValue, A.Value;
    assert Agrees(lg, map[], map[]);
    RunAgrees(lg, map[], map[], ops);
    LoadAgrees(lg, ApplyAll(lg, map[], ops), ApplyAllBytes(lg, map[], ops), size, a, signed);
  }
}
