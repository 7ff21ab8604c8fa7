/** What the atomics compute, in terms of the numbers and bits that bytes stand for. */
module CacheAmo {
  import opened Powers
  import opened CacheAlu

  function Num(b: Byte): (x: nat)
    ensures x < 256
  {
    b as int
  }

  /** The unsigned number that bytes make, least significant first. */
  function Value(b: seq<Byte>): nat {
    if b == [] then 0 else Num(b[0]) + 256 * Value(b[1..])
  }

  function Pow256(n: nat): (p: nat)
    ensures p >= 1
  {
    if n == 0 then 1 else 256 * Pow256(n - 1)
  }

  /** The same in two's complement. */
  function SignedValue(b: seq<Byte>): int
    requires b != []
  {
    if Num(b[|b| - 1]) < 128 then Value(b) else Value(b) - Pow256(|b|)
  }

  /** What an atomic stores, given the register operand's bytes and memory's. */
  ghost function Meant(op: Amo, reg: seq<Byte>, mem: seq<Byte>): (r: seq<Byte>)
    requires |reg| == |mem| && (|reg| == 4 || |reg| == 8)
    ensures |r| == |reg|
  {
    match op
    case Swap => reg
    case And => seq(|reg|, k requires 0 <= k < |reg| => reg[k] & mem[k])
    case Or => seq(|reg|, k requires 0 <= k < |reg| => reg[k] | mem[k])
    case Xor => seq(|reg|, k requires 0 <= k < |reg| => reg[k] ^ mem[k])
    case Add =>
      SumExists(reg, mem);
      var r :| |r| == |reg| && Value(r) == (Value(reg) + Value(mem)) % Pow256(|reg|);
      r
    case Min => if SignedValue(reg) < SignedValue(mem) then reg else mem
    case Max => if SignedValue(reg) > SignedValue(mem) then reg else mem
    case MinU => if Value(reg) < Value(mem) then reg else mem
    case MaxU => if Value(reg) > Value(mem) then reg else mem
  }

  // ----- numbers and their bytes ------------------------------------------------------

  lemma SameNum(a: Byte, b: Byte)
    requires Num(a) == Num(b)
    ensures a == b
  {
    RawSameNum(a, b);
  }

  lemma RawSameNum(a: Byte, b: Byte)
    requires a as int == b as int
    ensures a == b
  {
  }

  lemma LessNum(a: Byte, b: Byte)
    ensures a < b <==> Num(a) < Num(b)
  {
    RawLessNum(a, b);
  }

  lemma RawLessNum(a: Byte, b: Byte)
    ensures a < b <==> (a as int) < (b as int)
  {
  }

  /** Different bytes are different numbers, so that a sum is determined by its value. */
  lemma {:induction false} SameValue(b: seq<Byte>, c: seq<Byte>)
    requires |b| == |c| && Value(b) == Value(c)
    ensures b == c
  {
    hide Num;
    if b != [] {
      SameNum(b[0], c[0]);
      SameValue(b[1..], c[1..]);
    }
  }

  lemma WordValue(b: seq<Byte>)
    requires |b| == 4
    ensures Value(b) == Num(b[0]) + 256 * Num(b[1]) + 65536 * Num(b[2]) + 16777216 * Num(b[3])
  {
    hide Num;
    assert b[1..][0] == b[1] && b[2..][0] == b[2] && b[3..][0] == b[3] && b[4..] == [];
    assert b[1..][1..] == b[2..] && b[2..][1..] == b[3..] && b[3..][1..] == b[4..];
    assert Value(b[3..]) == Num(b[3]);
    assert Value(b[2..]) == Num(b[2]) + 256 * Num(b[3]);
    assert Value(b[1..]) == Num(b[1]) + 256 * Value(b[2..]);
  }

  /** A sequence's value by its first part and the rest. */
  lemma {:induction false} ValueSplit(b: seq<Byte>, k: nat)
    requires k <= |b|
    ensures Value(b) == Value(b[..k]) + Pow256(k) * Value(b[k..])
  {
    hide Num;
    if k == 0 {
      assert b[..0] == [] && b[0..] == b;
    } else {
      ValueSplit(b[1..], k - 1);
      assert b[1..][..k - 1] == b[..k][1..] && b[1..][k - 1..] == b[k..] && b[..k][0] == b[0];
      Scale(Pow256(k - 1), Value(b[k..]));
    }
  }

  lemma Scale(p: nat, v: nat)
    ensures 256 * (p * v) == 256 * p * v
  {
  }

  lemma {:induction false} ValueBound(b: seq<Byte>)
    ensures Value(b) < Pow256(|b|)
  {
    if b != [] {
      ValueBound(b[1..]);
    }
  }

  lemma PowIs()
    ensures Pow256(4) == 0x1_0000_0000 && Pow256(8) == 0x1_0000_0000_0000_0000
  {
    assert Pow256(2) == 65536 && Pow256(4) == 0x1_0000_0000;
    assert Pow256(6) == 0x1_0000_0000_0000 && Pow256(8) == 0x1_0000_0000_0000_0000;
  }

  // ----- words and their numbers --------------------------------------------------------

  /** Numbers of words, kept out of the proofs about bytes. */
  function Num32(x: bv32): nat { x as int }

  function Num64(x: bv64): nat { x as int }

  lemma RawWord(b0: Byte, b1: Byte, b2: Byte, b3: Byte)
    ensures ((b0 as bv32) | ((b1 as bv32) << 8) | ((b2 as bv32) << 16) | ((b3 as bv32) << 24)) as int ==
            (b0 as int) + 256 * (b1 as int) + 65536 * (b2 as int) + 16777216 * (b3 as int)
  {
  }

  lemma Word(b: seq<Byte>)
    requires |b| == 4
    ensures Num32(To32(b)) == Num(b[0]) + 256 * Num(b[1]) + 65536 * Num(b[2]) + 16777216 * Num(b[3])
  {
    RawWord(b[0], b[1], b[2], b[3]);
  }

  lemma WordIsValue(b: seq<Byte>)
    requires |b| == 4
    ensures Num32(To32(b)) == Value(b)
  {
    hide Num32, To32, Num, Value;
    Word(b);
    WordValue(b);
  }

  lemma RawJoin(a: bv32, b: bv32)
    ensures ((a as bv64) | ((b as bv64) << 32)) as int == (a as int) + 0x1_0000_0000 * (b as int)
  {
  }

  lemma JoinNum(a: bv32, b: bv32)
    ensures Num64(Join(a, b)) == Num32(a) + 0x1_0000_0000 * Num32(b)
  {
    RawJoin(a, b);
  }

  lemma DoublewordIsValue(b: seq<Byte>)
    requires |b| == 8
    ensures Num64(To64(b)) == Value(b)
  {
    hide Num64, Num32, To32, Join, Value, Pow256;
    JoinNum(To32(b[..4]), To32(b[4..]));
    WordIsValue(b[..4]);
    WordIsValue(b[4..]);
    ValueSplit(b, 4);
    PowIs();
  }

  // ----- sums ------------------------------------------------------------------------------

  function Add32(x: bv32, y: bv32): bv32 { x + y }

  function Sum33(x: bv32, y: bv32): bv33 { (x as bv33) + (y as bv33) }

  function Num33(s: bv33): nat { s as int }

  function Low33(s: bv33): bv32 { (s & 0xFFFF_FFFF) as bv32 }

  predicate Top33(s: bv33) { (s >> 32) == 1 }

  predicate IsSum33(x: bv32, y: bv32, s: bv33) { s == (x as bv33) + (y as bv33) }

  lemma Sum33Is(x: bv32, y: bv32)
    ensures IsSum33(x, y, Sum33(x, y))
  {
  }

  lemma Sum33Num(x: bv32, y: bv32, s: bv33)
    requires IsSum33(x, y, s)
    ensures Num33(s) == Num32(x) + Num32(y)
  {
  }

  lemma Sum33Low(x: bv32, y: bv32, s: bv33)
    requires IsSum33(x, y, s)
    ensures Low33(s) == Add32(x, y)
  {
  }

  lemma Split33(s: bv33)
    ensures Num33(s) == Num32(Low33(s)) + (if Top33(s) then 0x1_0000_0000 else 0)
  {
  }

  lemma AddNum32(x: bv32, y: bv32)
    ensures Num32(x) + Num32(y) == Num32(Add32(x, y)) + (if Top33(Sum33(x, y)) then 0x1_0000_0000 else 0)
  {
    hide *;
    Sum33Is(x, y);
    Sum33Num(x, y, Sum33(x, y));
    Sum33Low(x, y, Sum33(x, y));
    Split33(Sum33(x, y));
  }

  function Sum65(x: bv64, y: bv64): bv65 { (x as bv65) + (y as bv65) }

  function Num65(s: bv65): nat { s as int }

  function Low65(s: bv65): bv64 { (s & 0xFFFF_FFFF_FFFF_FFFF) as bv64 }

  predicate Top65(s: bv65) { (s >> 64) == 1 }

  predicate IsSum65(x: bv64, y: bv64, s: bv65) { s == (x as bv65) + (y as bv65) }

  lemma Sum65Is(x: bv64, y: bv64)
    ensures IsSum65(x, y, Sum65(x, y))
  {
  }

  lemma Sum65Num(x: bv64, y: bv64, s: bv65)
    requires IsSum65(x, y, s)
    ensures Num65(s) == Num64(x) + Num64(y)
  {
  }

  lemma Sum65Low(x: bv64, y: bv64, s: bv65)
    requires IsSum65(x, y, s)
    ensures Low65(s) == Add64(x, y)
  {
  }

  lemma Split65(s: bv65)
    ensures Num65(s) == Num64(Low65(s)) + (if Top65(s) then 0x1_0000_0000_0000_0000 else 0)
  {
  }

  lemma AddNum64(x: bv64, y: bv64)
    ensures Num64(x) + Num64(y) == Num64(Add64(x, y)) + (if Top65(Sum65(x, y)) then 0x1_0000_0000_0000_0000 else 0)
  {
    hide *;
    Sum65Is(x, y);
    Sum65Num(x, y, Sum65(x, y));
    Sum65Low(x, y, Sum65(x, y));
    Split65(Sum65(x, y));
  }

  lemma HalvesJoin(x: bv64)
    ensures Join(Half(x), Half(x >> 32)) == x
  {
  }

  lemma DoublewordOfBytes(x: bv64)
    ensures To64(From64(x)) == x
  {
    hide To32, From32, Join, Half;
    var low, high := From32(Half(x)), From32(Half(x >> 32));
    WordBytes(Half(x), low);
    WordBytes(Half(x >> 32), high);
    HalvesJoin(x);
    assert (low + high)[..4] == low && (low + high)[4..] == high;
  }

  lemma Modular(v: nat, w: nat, m: nat, carry: bool)
    requires m > 0 && w < m && v == w + if carry then m else 0
    ensures v % m == w
  {
    DivModUnique(v, m, if carry then 1 else 0, w);
  }

  /** Adding words adds their bytes' values, modulo the word. */
  lemma SumBytes32(b: seq<Byte>, c: seq<Byte>)
    requires |b| == |c| == 4
    ensures Value(From32(Add32(To32(b), To32(c)))) == (Value(b) + Value(c)) % Pow256(4)
  {
    hide *;
    var s := Add32(To32(b), To32(c));
    WordIsValue(b);
    WordIsValue(c);
    WordBytes(s, b);
    WordIsValue(From32(s));
    AddNum32(To32(b), To32(c));
    ValueBound(From32(s));
    PowIs();
    Modular(Value(b) + Value(c), Value(From32(s)), Pow256(4), Top33(Sum33(To32(b), To32(c))));
  }

  lemma SumBytes64(b: seq<Byte>, c: seq<Byte>)
    requires |b| == |c| == 8
    ensures Value(From64(Add64(To64(b), To64(c)))) == (Value(b) + Value(c)) % Pow256(8)
  {
    hide *;
    var s := Add64(To64(b), To64(c));
    DoublewordIsValue(b);
    DoublewordIsValue(c);
    DoublewordOfBytes(s);
    DoublewordIsValue(From64(s));
    AddNum64(To64(b), To64(c));
    ValueBound(From64(s));
    PowIs();
    Modular(Value(b) + Value(c), Value(From64(s)), Pow256(8), Top65(Sum65(To64(b), To64(c))));
  }

  lemma SumExists(b: seq<Byte>, c: seq<Byte>)
    requires |b| == |c| && (|b| == 4 || |b| == 8)
    ensures exists r: seq<Byte> :: |r| == |b| && Value(r) == (Value(b) + Value(c)) % Pow256(|b|)
  {
    hide *;
    if |b| == 4 {
      SumBytes32(b, c);
    } else {
      SumBytes64(b, c);
    }
  }

  // ----- order ---------------------------------------------------------------------------------

  lemma Byte3First(b0: Byte, b1: Byte, b2: Byte, b3: Byte, c0: Byte, c1: Byte, c2: Byte, c3: Byte)
    requires b3 < c3
    ensures ((b0 as bv32) | ((b1 as bv32) << 8) | ((b2 as bv32) << 16) | ((b3 as bv32) << 24)) <
            ((c0 as bv32) | ((c1 as bv32) << 8) | ((c2 as bv32) << 16) | ((c3 as bv32) << 24))
  {
  }

  lemma Byte2Next(b0: Byte, b1: Byte, b2: Byte, b3: Byte, c0: Byte, c1: Byte, c2: Byte)
    requires b2 < c2
    ensures ((b0 as bv32) | ((b1 as bv32) << 8) | ((b2 as bv32) << 16) | ((b3 as bv32) << 24)) <
            ((c0 as bv32) | ((c1 as bv32) << 8) | ((c2 as bv32) << 16) | ((b3 as bv32) << 24))
  {
  }

  lemma Byte1Next(b0: Byte, b1: Byte, b2: Byte, b3: Byte, c0: Byte, c1: Byte)
    requires b1 < c1
    ensures ((b0 as bv32) | ((b1 as bv32) << 8) | ((b2 as bv32) << 16) | ((b3 as bv32) << 24)) <
            ((c0 as bv32) | ((c1 as bv32) << 8) | ((b2 as bv32) << 16) | ((b3 as bv32) << 24))
  {
  }

  lemma Byte0Next(b0: Byte, b1: Byte, b2: Byte, b3: Byte, c0: Byte)
    requires b0 < c0
    ensures ((b0 as bv32) | ((b1 as bv32) << 8) | ((b2 as bv32) << 16) | ((b3 as bv32) << 24)) <
            ((c0 as bv32) | ((b1 as bv32) << 8) | ((b2 as bv32) << 16) | ((b3 as bv32) << 24))
  {
  }

  /** A word by its bytes. */
  function WordOf(b0: Byte, b1: Byte, b2: Byte, b3: Byte): bv32 {
    (b0 as bv32) | ((b1 as bv32) << 8) | ((b2 as bv32) << 16) | ((b3 as bv32) << 24)
  }

  lemma WordIs(b: seq<Byte>)
    requires |b| == 4
    ensures To32(b) == WordOf(b[0], b[1], b[2], b[3])
  {
  }

  lemma Below3(b0: Byte, b1: Byte, b2: Byte, b3: Byte, c0: Byte, c1: Byte, c2: Byte, c3: Byte)
    requires b3 < c3
    ensures Below32(WordOf(b0, b1, b2, b3), WordOf(c0, c1, c2, c3))
  {
    Byte3First(b0, b1, b2, b3, c0, c1, c2, c3);
  }

  lemma Below2(b0: Byte, b1: Byte, b2: Byte, b3: Byte, c0: Byte, c1: Byte, c2: Byte)
    requires b2 < c2
    ensures Below32(WordOf(b0, b1, b2, b3), WordOf(c0, c1, c2, b3))
  {
    Byte2Next(b0, b1, b2, b3, c0, c1, c2);
  }

  lemma Below1(b0: Byte, b1: Byte, b2: Byte, b3: Byte, c0: Byte, c1: Byte)
    requires b1 < c1
    ensures Below32(WordOf(b0, b1, b2, b3), WordOf(c0, c1, b2, b3))
  {
    Byte1Next(b0, b1, b2, b3, c0, c1);
  }

  lemma Below0(b0: Byte, b1: Byte, b2: Byte, b3: Byte, c0: Byte)
    requires b0 < c0
    ensures Below32(WordOf(b0, b1, b2, b3), WordOf(c0, b1, b2, b3))
  {
    Byte0Next(b0, b1, b2, b3, c0);
  }

  lemma LessIsBelow32(b: seq<Byte>, c: seq<Byte>)
    requires |b| == |c| == 4 && Num32(To32(b)) < Num32(To32(c))
    ensures Below32(To32(b), To32(c))
  {
    hide *;
    Word(b);
    Word(c);
    WordIs(b);
    WordIs(c);
    LessNum(b[3], c[3]);
    LessNum(b[2], c[2]);
    LessNum(b[1], c[1]);
    LessNum(b[0], c[0]);
    if Num(b[3]) < Num(c[3]) {
      Below3(b[0], b[1], b[2], b[3], c[0], c[1], c[2], c[3]);
    } else {
      SameNum(b[3], c[3]);
      if Num(b[2]) < Num(c[2]) {
        Below2(b[0], b[1], b[2], b[3], c[0], c[1], c[2]);
      } else {
        SameNum(b[2], c[2]);
        if Num(b[1]) < Num(c[1]) {
          Below1(b[0], b[1], b[2], b[3], c[0], c[1]);
        } else {
          SameNum(b[1], c[1]);
          Below0(b[0], b[1], b[2], b[3], c[0]);
        }
      }
    }
  }

  lemma OneWay32(x: bv32, y: bv32)
    requires Below32(x, y)
    ensures x != y && !Below32(y, x)
  {
  }

  /** The comparison of words is that of their numbers. */
  lemma BelowNum32(x: bv32, y: bv32)
    ensures Below32(x, y) <==> Num32(x) < Num32(y)
  {
    hide *;
    var b, c := From32(x), From32(y);
    WordBytes(x, b);
    WordBytes(y, c);
    if Num32(x) < Num32(y) {
      LessIsBelow32(b, c);
    } else if Num32(y) < Num32(x) {
      LessIsBelow32(c, b);
      OneWay32(y, x);
    } else {
      WordIsValue(b);
      WordIsValue(c);
      SameValue(b, c);
      if Below32(x, y) {
        OneWay32(x, y);
      }
    }
  }

  lemma HighFirst(a: bv32, b: bv32, c: bv32, d: bv32)
    requires Below32(b, d)
    ensures Below64(Join(a, b), Join(c, d))
  {
    RawHighFirst(a, b, c, d);
  }

  lemma RawHighFirst(a: bv32, b: bv32, c: bv32, d: bv32)
    requires b < d
    ensures ((a as bv64) | ((b as bv64) << 32)) < ((c as bv64) | ((d as bv64) << 32))
  {
  }

  lemma LowNext(a: bv32, b: bv32, c: bv32)
    requires Below32(a, c)
    ensures Below64(Join(a, b), Join(c, b))
  {
    RawLowNext(a, b, c);
  }

  lemma RawLowNext(a: bv32, b: bv32, c: bv32)
    requires a < c
    ensures ((a as bv64) | ((b as bv64) << 32)) < ((c as bv64) | ((b as bv64) << 32))
  {
  }

  lemma OneWay64(x: bv64, y: bv64)
    requires Below64(x, y)
    ensures x != y && !Below64(y, x)
  {
  }

  lemma SameNum32(x: bv32, y: bv32)
    requires Num32(x) == Num32(y)
    ensures x == y
  {
    hide *;
    WordBytes(x, From32(x));
    WordBytes(y, From32(y));
    WordIsValue(From32(x));
    WordIsValue(From32(y));
    SameValue(From32(x), From32(y));
  }

  lemma NumBound32(x: bv32)
    ensures Num32(x) < 0x1_0000_0000
  {
  }

  lemma LessIsBelow64(a: bv32, b: bv32, c: bv32, d: bv32)
    requires Num64(Join(a, b)) < Num64(Join(c, d))
    ensures Below64(Join(a, b), Join(c, d))
  {
    hide *;
    JoinNum(a, b);
    JoinNum(c, d);
    NumBound32(a);
    NumBound32(c);
    if Num32(b) < Num32(d) {
      BelowNum32(b, d);
      HighFirst(a, b, c, d);
    } else {
      SameNum32(b, d);
      BelowNum32(a, c);
      LowNext(a, b, c);
    }
  }

  lemma BelowNum64(x: bv64, y: bv64)
    ensures Below64(x, y) <==> Num64(x) < Num64(y)
  {
    hide *;
    HalvesJoin(x);
    HalvesJoin(y);
    var a, b, c, d := Half(x), Half(x >> 32), Half(y), Half(y >> 32);
    JoinNum(a, b);
    JoinNum(c, d);
    NumBound32(a);
    NumBound32(c);
    if Num64(x) < Num64(y) {
      LessIsBelow64(a, b, c, d);
    } else if Num64(y) < Num64(x) {
      LessIsBelow64(c, d, a, b);
      OneWay64(y, x);
    } else {
      SameNum32(a, c);
      SameNum32(b, d);
      if Below64(x, y) {
        OneWay64(x, y);
      }
    }
  }

  // ----- signs -----------------------------------------------------------------------------------

  function SignedNum32(x: bv32): int {
    if Num32(x) < 0x8000_0000 then Num32(x) else Num32(x) - 0x1_0000_0000
  }

  function SignedNum64(x: bv64): int {
    if Num64(x) < 0x8000_0000_0000_0000 then Num64(x) else Num64(x) - 0x1_0000_0000_0000_0000
  }

  lemma Sign32(x: bv32)
    ensures x >> 31 == if Num32(x) < 0x8000_0000 then 0 else 1
  {
  }

  lemma SignHalf(x: bv64)
    ensures x >> 63 == if Half(x >> 32) >> 31 == 1 then 1 else 0
    ensures Half(x >> 32) >> 31 == 0 || Half(x >> 32) >> 31 == 1
  {
  }

  lemma Sign64(x: bv64)
    ensures x >> 63 == if Num64(x) < 0x8000_0000_0000_0000 then 0 else 1
  {
    hide Num64, Num32, Half, Join;
    SignHalf(x);
    HalvesJoin(x);
    JoinNum(Half(x), Half(x >> 32));
    Sign32(Half(x >> 32));
    NumBound32(Half(x));
  }

  lemma NumBound64(x: bv64)
    ensures Num64(x) < 0x1_0000_0000_0000_0000
  {
  }

  lemma LessNum32(x: bv32, y: bv32)
    ensures Less32(x, y) <==> SignedNum32(x) < SignedNum32(y)
  {
    hide Num32, Below32;
    Sign32(x);
    Sign32(y);
    NumBound32(x);
    NumBound32(y);
    BelowNum32(x, y);
  }

  lemma LessNum64(x: bv64, y: bv64)
    ensures Less64(x, y) <==> SignedNum64(x) < SignedNum64(y)
  {
    hide Num64, Below64;
    Sign64(x);
    Sign64(y);
    NumBound64(x);
    NumBound64(y);
    BelowNum64(x, y);
  }

  lemma SignedWord(b: seq<Byte>)
    requires |b| == 4
    ensures SignedNum32(To32(b)) == SignedValue(b)
  {
    hide Num32, To32, Num, Value, Pow256;
    WordIsValue(b);
    WordValue(b);
    PowIs();
  }

  lemma SignedDoubleword(b: seq<Byte>)
    requires |b| == 8
    ensures SignedNum64(To64(b)) == SignedValue(b)
  {
    hide Num64, To64, Num, Value, Pow256;
    DoublewordIsValue(b);
    SignByte(b);
    PowIs();
  }

  /** The sign is that of the last byte. */
  lemma SignByte(b: seq<Byte>)
    requires |b| == 8
    ensures Num(b[7]) < 128 <==> Value(b) < 0x8000_0000_0000_0000
  {
    hide Num, Value, Pow256;
    ValueSplit(b, 4);
    PowIs();
    WordValue(b[..4]);
    WordValue(b[4..]);
    assert b[4..][3] == b[7];
  }

  // ----- the ALU ----------------------------------------------------------------------------------

  function BitByte(op: Amo, x: Byte, y: Byte): Byte {
    match op
    case And => x & y
    case Or => x | y
    case _ => x ^ y
  }

  function Bit32(op: Amo, x: bv32, y: bv32): bv32 {
    match op
    case And => x & y
    case Or => x | y
    case _ => x ^ y
  }

  function Bit64(op: Amo, x: bv64, y: bv64): bv64 {
    match op
    case And => x & y
    case Or => x | y
    case _ => x ^ y
  }

  lemma And32(b: seq<Byte>, c: seq<Byte>)
    requires |b| == |c| == 4
    ensures From32(To32(b) & To32(c)) == [b[0] & c[0], b[1] & c[1], b[2] & c[2], b[3] & c[3]]
  {
  }

  lemma Or32(b: seq<Byte>, c: seq<Byte>)
    requires |b| == |c| == 4
    ensures From32(To32(b) | To32(c)) == [b[0] | c[0], b[1] | c[1], b[2] | c[2], b[3] | c[3]]
  {
  }

  lemma Xor32(b: seq<Byte>, c: seq<Byte>)
    requires |b| == |c| == 4
    ensures From32(To32(b) ^ To32(c)) == [b[0] ^ c[0], b[1] ^ c[1], b[2] ^ c[2], b[3] ^ c[3]]
  {
  }

  lemma JoinAnd(a: bv32, b: bv32, c: bv32, d: bv32)
    ensures Join(a, b) & Join(c, d) == Join(a & c, b & d)
  {
  }

  lemma JoinOr(a: bv32, b: bv32, c: bv32, d: bv32)
    ensures Join(a, b) | Join(c, d) == Join(a | c, b | d)
  {
  }

  lemma JoinXor(a: bv32, b: bv32, c: bv32, d: bv32)
    ensures Join(a, b) ^ Join(c, d) == Join(a ^ c, b ^ d)
  {
  }

  lemma BitIs(op: Amo, b: Byte, c: Byte, x: bv32, y: bv32, z: bv64, w: bv64)
    ensures op.And? ==> BitByte(op, b, c) == b & c && Bit32(op, x, y) == x & y && Bit64(op, z, w) == z & w
    ensures op.Or? ==> BitByte(op, b, c) == b | c && Bit32(op, x, y) == x | y && Bit64(op, z, w) == z | w
    ensures !op.And? && !op.Or? ==> BitByte(op, b, c) == b ^ c && Bit32(op, x, y) == x ^ y && Bit64(op, z, w) == z ^ w
  {
  }

  lemma Bytes32(op: Amo, b: seq<Byte>, c: seq<Byte>)
    requires |b| == |c| == 4
    ensures From32(Bit32(op, To32(b), To32(c))) ==
            [BitByte(op, b[0], c[0]), BitByte(op, b[1], c[1]), BitByte(op, b[2], c[2]), BitByte(op, b[3], c[3])]
  {
    hide *;
    if op.And? {
      Bytes32And(op, b, c);
    } else if op.Or? {
      Bytes32Or(op, b, c);
    } else {
      Bytes32Xor(op, b, c);
    }
  }

  lemma Bytes32And(op: Amo, b: seq<Byte>, c: seq<Byte>)
    requires |b| == |c| == 4 && op.And?
    ensures From32(Bit32(op, To32(b), To32(c))) ==
            [BitByte(op, b[0], c[0]), BitByte(op, b[1], c[1]), BitByte(op, b[2], c[2]), BitByte(op, b[3], c[3])]
  {
    hide To32, From32, Bit32, BitByte;
    BitIs(op, b[0], c[0], To32(b), To32(c), 0, 0);
    BitIs(op, b[1], c[1], 0, 0, 0, 0);
    BitIs(op, b[2], c[2], 0, 0, 0, 0);
    BitIs(op, b[3], c[3], 0, 0, 0, 0);
    And32(b, c);
  }

  lemma Bytes32Or(op: Amo, b: seq<Byte>, c: seq<Byte>)
    requires |b| == |c| == 4 && op.Or?
    ensures From32(Bit32(op, To32(b), To32(c))) ==
            [BitByte(op, b[0], c[0]), BitByte(op, b[1], c[1]), BitByte(op, b[2], c[2]), BitByte(op, b[3], c[3])]
  {
    hide To32, From32, Bit32, BitByte;
    BitIs(op, b[0], c[0], To32(b), To32(c), 0, 0);
    BitIs(op, b[1], c[1], 0, 0, 0, 0);
    BitIs(op, b[2], c[2], 0, 0, 0, 0);
    BitIs(op, b[3], c[3], 0, 0, 0, 0);
    Or32(b, c);
  }

  lemma Bytes32Xor(op: Amo, b: seq<Byte>, c: seq<Byte>)
    requires |b| == |c| == 4 && !op.And? && !op.Or?
    ensures From32(Bit32(op, To32(b), To32(c))) ==
            [BitByte(op, b[0], c[0]), BitByte(op, b[1], c[1]), BitByte(op, b[2], c[2]), BitByte(op, b[3], c[3])]
  {
    hide To32, From32, Bit32, BitByte;
    BitIs(op, b[0], c[0], To32(b), To32(c), 0, 0);
    BitIs(op, b[1], c[1], 0, 0, 0, 0);
    BitIs(op, b[2], c[2], 0, 0, 0, 0);
    BitIs(op, b[3], c[3], 0, 0, 0, 0);
    Xor32(b, c);
  }

  lemma JoinBit(op: Amo, a: bv32, b: bv32, c: bv32, d: bv32)
    ensures Bit64(op, Join(a, b), Join(c, d)) == Join(Bit32(op, a, c), Bit32(op, b, d))
  {
    hide Bit64, Bit32, Join;
    if op.And? {
      JoinBitAnd(op, a, b, c, d);
    } else if op.Or? {
      JoinBitOr(op, a, b, c, d);
    } else {
      JoinBitXor(op, a, b, c, d);
    }
  }

  lemma JoinBitAnd(op: Amo, a: bv32, b: bv32, c: bv32, d: bv32)
    requires op.And?
    ensures Bit64(op, Join(a, b), Join(c, d)) == Join(Bit32(op, a, c), Bit32(op, b, d))
  {
    hide Join, Bit64, Bit32;
    BitIs(op, 0, 0, a, c, Join(a, b), Join(c, d));
    BitIs(op, 0, 0, b, d, 0, 0);
    JoinAnd(a, b, c, d);
  }

  lemma JoinBitOr(op: Amo, a: bv32, b: bv32, c: bv32, d: bv32)
    requires op.Or?
    ensures Bit64(op, Join(a, b), Join(c, d)) == Join(Bit32(op, a, c), Bit32(op, b, d))
  {
    hide Join, Bit64, Bit32;
    BitIs(op, 0, 0, a, c, Join(a, b), Join(c, d));
    BitIs(op, 0, 0, b, d, 0, 0);
    JoinOr(a, b, c, d);
  }

  lemma JoinBitXor(op: Amo, a: bv32, b: bv32, c: bv32, d: bv32)
    requires !op.And? && !op.Or?
    ensures Bit64(op, Join(a, b), Join(c, d)) == Join(Bit32(op, a, c), Bit32(op, b, d))
  {
    hide Join, Bit64, Bit32;
    BitIs(op, 0, 0, a, c, Join(a, b), Join(c, d));
    BitIs(op, 0, 0, b, d, 0, 0);
    JoinXor(a, b, c, d);
  }

  lemma BytesOfJoin(low: bv32, high: bv32)
    ensures From64(Join(low, high)) == From32(low) + From32(high)
  {
    hide From32, Half, Join;
    JoinHalves(low, high);
  }

  lemma JoinOfBytes(b: seq<Byte>)
    requires |b| == 8
    ensures To64(b) == Join(To32(b[..4]), To32(b[4..]))
  {
  }

  lemma Bytes64(op: Amo, b: seq<Byte>, c: seq<Byte>, k: nat)
    requires |b| == |c| == 8 && k < 8
    ensures From64(Bit64(op, To64(b), To64(c)))[k] == BitByte(op, b[k], c[k])
  {
    hide *;
    var bl, bh, cl, ch := b[..4], b[4..], c[..4], c[4..];
    JoinOfBytes(b);
    JoinOfBytes(c);
    JoinBit(op, To32(bl), To32(bh), To32(cl), To32(ch));
    BytesOfJoin(Bit32(op, To32(bl), To32(cl)), Bit32(op, To32(bh), To32(ch)));
    if k < 4 {
      Bytes32(op, bl, cl);
    } else {
      Bytes32(op, bh, ch);
    }
  }

  lemma AluIs32(op: Amo, x: bv32, y: bv32)
    ensures op.And? || op.Or? || op.Xor? ==> Alu32(op, x, y) == Bit32(op, x, y)
    ensures op.Swap? ==> Alu32(op, x, y) == x
    ensures op.Add? ==> Alu32(op, x, y) == Add32(x, y)
    ensures op.Min? ==> Alu32(op, x, y) == if Less32(x, y) then x else y
    ensures op.Max? ==> Alu32(op, x, y) == if Less32(y, x) then x else y
    ensures op.MinU? ==> Alu32(op, x, y) == if Below32(x, y) then x else y
    ensures op.MaxU? ==> Alu32(op, x, y) == if Below32(y, x) then x else y
  {
    hide Less32, Below32;
  }

  lemma AluIs64(op: Amo, x: bv64, y: bv64)
    ensures op.And? || op.Or? || op.Xor? ==> Alu64(op, x, y) == Bit64(op, x, y)
    ensures op.Swap? ==> Alu64(op, x, y) == x
    ensures op.Add? ==> Alu64(op, x, y) == Add64(x, y)
    ensures op.Min? ==> Alu64(op, x, y) == if Less64(x, y) then x else y
    ensures op.Max? ==> Alu64(op, x, y) == if Less64(y, x) then x else y
    ensures op.MinU? ==> Alu64(op, x, y) == if Below64(x, y) then x else y
    ensures op.MaxU? ==> Alu64(op, x, y) == if Below64(y, x) then x else y
  {
    hide Less64, Below64;
  }

  lemma MeantBits(op: Amo, reg: seq<Byte>, mem: seq<Byte>, r: seq<Byte>)
    requires |r| == |reg| == |mem| && (|reg| == 4 || |reg| == 8) && (op.And? || op.Or? || op.Xor?)
    requires forall k :: 0 <= k < |r| ==> r[k] == BitByte(op, reg[k], mem[k])
    ensures r == Meant(op, reg, mem)
  {
  }

  lemma MeantSum(reg: seq<Byte>, mem: seq<Byte>, r: seq<Byte>)
    requires |r| == |reg| == |mem| && (|reg| == 4 || |reg| == 8)
    requires Value(r) == (Value(reg) + Value(mem)) % Pow256(|reg|)
    ensures r == Meant(Add, reg, mem)
  {
    hide Value, Pow256;
    SameValue(r, Meant(Add, reg, mem));
  }

  /** Every operation of the ALU on words: its result's bytes are those meant. */
  lemma Alu32Meant(op: Amo, reg: seq<Byte>, mem: seq<Byte>)
    requires |reg| == |mem| == 4
    ensures From32(Alu32(op, To32(reg), To32(mem))) == Meant(op, reg, mem)
  {
    hide *;
    if op.And? || op.Or? || op.Xor? {
      AluIs32(op, To32(reg), To32(mem));
      Bytes32(op, reg, mem);
      MeantBits(op, reg, mem, From32(Bit32(op, To32(reg), To32(mem))));
    } else if op.Add? {
      AluIs32(op, To32(reg), To32(mem));
      SumBytes32(reg, mem);
      MeantSum(reg, mem, From32(Add32(To32(reg), To32(mem))));
    } else {
      AluChooses32(op, reg, mem);
      WordBytes(0, reg);
      WordBytes(0, mem);
    }
  }

  lemma AluChooses32(op: Amo, reg: seq<Byte>, mem: seq<Byte>)
    requires |reg| == |mem| == 4 && !op.And? && !op.Or? && !op.Xor? && !op.Add?
    ensures Meant(op, reg, mem) in {reg, mem} && Alu32(op, To32(reg), To32(mem)) == To32(Meant(op, reg, mem))
  {
    hide Alu32, To32, Less32, Below32, Value, SignedValue;
    AluIs32(op, To32(reg), To32(mem));
    Signed32(reg, mem);
    Signed32(mem, reg);
    Unsigned32(reg, mem);
    Unsigned32(mem, reg);
  }

  lemma Signed32(b: seq<Byte>, c: seq<Byte>)
    requires |b| == |c| == 4
    ensures Less32(To32(b), To32(c)) <==> SignedValue(b) < SignedValue(c)
  {
    hide *;
    LessNum32(To32(b), To32(c));
    SignedWord(b);
    SignedWord(c);
  }

  lemma Unsigned32(b: seq<Byte>, c: seq<Byte>)
    requires |b| == |c| == 4
    ensures Below32(To32(b), To32(c)) <==> Value(b) < Value(c)
  {
    hide *;
    BelowNum32(To32(b), To32(c));
    WordIsValue(b);
    WordIsValue(c);
  }

  lemma Signed64(b: seq<Byte>, c: seq<Byte>)
    requires |b| == |c| == 8
    ensures Less64(To64(b), To64(c)) <==> SignedValue(b) < SignedValue(c)
  {
    hide *;
    LessNum64(To64(b), To64(c));
    SignedDoubleword(b);
    SignedDoubleword(c);
  }

  lemma Unsigned64(b: seq<Byte>, c: seq<Byte>)
    requires |b| == |c| == 8
    ensures Below64(To64(b), To64(c)) <==> Value(b) < Value(c)
  {
    hide *;
    BelowNum64(To64(b), To64(c));
    DoublewordIsValue(b);
    DoublewordIsValue(c);
  }

  /** And on doublewords. */
  lemma Alu64Meant(op: Amo, reg: seq<Byte>, mem: seq<Byte>)
    requires |reg| == |mem| == 8
    ensures From64(Alu64(op, To64(reg), To64(mem))) == Meant(op, reg, mem)
  {
    hide *;
    if op.And? || op.Or? || op.Xor? {
      AluIs64(op, To64(reg), To64(mem));
      AllBytes64(op, reg, mem);
      MeantBits(op, reg, mem, From64(Bit64(op, To64(reg), To64(mem))));
    } else if op.Add? {
      AluIs64(op, To64(reg), To64(mem));
      SumBytes64(reg, mem);
      MeantSum(reg, mem, From64(Add64(To64(reg), To64(mem))));
    } else {
      AluChooses64(op, reg, mem);
      DoublewordBytes(reg);
      DoublewordBytes(mem);
    }
  }

  lemma AluChooses64(op: Amo, reg: seq<Byte>, mem: seq<Byte>)
    requires |reg| == |mem| == 8 && !op.And? && !op.Or? && !op.Xor? && !op.Add?
    ensures Meant(op, reg, mem) in {reg, mem} && Alu64(op, To64(reg), To64(mem)) == To64(Meant(op, reg, mem))
  {
    hide Alu64, To64, Less64, Below64, Value, SignedValue;
    AluIs64(op, To64(reg), To64(mem));
    Signed64(reg, mem);
    Signed64(mem, reg);
    Unsigned64(reg, mem);
    Unsigned64(mem, reg);
  }

  lemma AllBytes64(op: Amo, b: seq<Byte>, c: seq<Byte>)
    requires |b| == |c| == 8
    ensures forall k :: 0 <= k < 8 ==> From64(Bit64(op, To64(b), To64(c)))[k] == BitByte(op, b[k], c[k])
  {
    hide *;
    forall k | 0 <= k < 8 ensures From64(Bit64(op, To64(b), To64(c)))[k] == BitByte(op, b[k], c[k]) {
      Bytes64(op, b, c, k);
    }
  }
}
