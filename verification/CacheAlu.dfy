/** bsg_cache's atomic ALU: word and doubleword atomics share one 64-bit ALU. */
module CacheAlu {
  datatype Amo = Swap | Add | Xor | And | Or | Min | Max | MinU | MaxU

  predicate Below64(a: bv64, b: bv64) { a < b }

  predicate Below32(a: bv32, b: bv32) { a < b }

  /** $signed comparison: of different signs the negative one is less. */
  predicate Less64(a: bv64, b: bv64) {
    if (a >> 63) != (b >> 63) then (a >> 63) == 1 else Below64(a, b)
  }

  predicate Less32(a: bv32, b: bv32) {
    if (a >> 31) != (b >> 31) then (a >> 31) == 1 else Below32(a, b)
  }

  function Alu64(op: Amo, reg: bv64, mem: bv64): bv64 {
    match op
    case Swap => reg
    case And => reg & mem
    case Or => reg | mem
    case Xor => reg ^ mem
    case Add => reg + mem
    case Min => if Less64(reg, mem) then reg else mem
    case Max => if Less64(mem, reg) then reg else mem
    case MinU => if Below64(reg, mem) then reg else mem
    case MaxU => if Below64(mem, reg) then reg else mem
  }

  /** The same operation on 32 bits: what a word atomic is meant to be. */
  function Alu32(op: Amo, reg: bv32, mem: bv32): bv32 {
    match op
    case Swap => reg
    case And => reg & mem
    case Or => reg | mem
    case Xor => reg ^ mem
    case Add => reg + mem
    case Min => if Less32(reg, mem) then reg else mem
    case Max => if Less32(mem, reg) then reg else mem
    case MinU => if Below32(reg, mem) then reg else mem
    case MaxU => if Below32(mem, reg) then reg else mem
  }

  /** A word in the top half of the ALU's input, and the result back from there. */
  function ToTop(a: bv32): bv64 { (a as bv64) << 32 }

  function FromTop(x: bv64): bv64 { x >> 32 }

  function Wide(a: bv32): bv64 { a as bv64 }

  lemma TopAnd(a: bv32, b: bv32)
    ensures FromTop(ToTop(a) & ToTop(b)) == Wide(a & b)
  {
  }

  lemma TopOr(a: bv32, b: bv32)
    ensures FromTop(ToTop(a) | ToTop(b)) == Wide(a | b)
  {
  }

  lemma TopXor(a: bv32, b: bv32)
    ensures FromTop(ToTop(a) ^ ToTop(b)) == Wide(a ^ b)
  {
  }

  function Add64(x: bv64, y: bv64): bv64 { x + y }

  lemma ShiftedSum(a: bv32, b: bv32)
    ensures Add64((a as bv64) << 32, (b as bv64) << 32) == ((a + b) as bv64) << 32
  {
    RawSum(a, b);
  }

  lemma RawSum(a: bv32, b: bv32)
    ensures ((a as bv64) << 32) + ((b as bv64) << 32) == ((a + b) as bv64) << 32
  {
  }

  lemma TopSum(a: bv32, b: bv32)
    ensures Add64(ToTop(a), ToTop(b)) == ToTop(a + b)
  {
    hide Add64;
    ShiftedSum(a, b);
  }

  lemma TopAdd(a: bv32, b: bv32)
    ensures FromTop(ToTop(a) + ToTop(b)) == Wide(a + b)
  {
    hide ToTop, FromTop, Wide;
    TopSum(a, b);
    TopBack(a + b);
  }

  lemma TopBack(a: bv32)
    ensures FromTop(ToTop(a)) == Wide(a)
  {
  }

  lemma ShiftedBelow(a: bv32, b: bv32)
    ensures Below64((a as bv64) << 32, (b as bv64) << 32) <==> Below32(a, b)
  {
  }

  lemma TopBelow(a: bv32, b: bv32)
    ensures Below64(ToTop(a), ToTop(b)) <==> Below32(a, b)
  {
    hide Below64, Below32;
    ShiftedBelow(a, b);
  }

  lemma TopSign(a: bv32)
    ensures ToTop(a) >> 63 == if a >> 31 == 1 then 1 else 0
    ensures a >> 31 == 0 || a >> 31 == 1
  {
  }

  lemma TopLess(a: bv32, b: bv32)
    ensures Less64(ToTop(a), ToTop(b)) <==> Less32(a, b)
  {
    hide ToTop, Below64, Below32;
    TopBelow(a, b);
    TopSign(a);
    TopSign(b);
  }

  lemma TopBitwise(op: Amo, reg: bv32, mem: bv32)
    requires op.And? || op.Or? || op.Xor?
    ensures FromTop(Alu64(op, ToTop(reg), ToTop(mem))) == Wide(Alu32(op, reg, mem))
  {
    hide ToTop, Less64, Less32, Below64, Below32, FromTop, Wide;
    TopAnd(reg, mem);
    TopOr(reg, mem);
    TopXor(reg, mem);
  }

  lemma TopSigned(op: Amo, reg: bv32, mem: bv32)
    requires op.Min? || op.Max?
    ensures FromTop(Alu64(op, ToTop(reg), ToTop(mem))) == Wide(Alu32(op, reg, mem))
  {
    hide ToTop, Less64, Less32, Below64, Below32, FromTop, Wide;
    TopBack(reg);
    TopBack(mem);
    TopLess(reg, mem);
    TopLess(mem, reg);
  }

  lemma TopMinU(reg: bv32, mem: bv32)
    ensures FromTop(Alu64(MinU, ToTop(reg), ToTop(mem))) == Wide(Alu32(MinU, reg, mem))
  {
    hide ToTop, Less64, Less32, Below64, Below32, FromTop, Wide;
    TopBack(reg);
    TopBack(mem);
    TopBelow(reg, mem);
  }

  lemma TopMaxU(reg: bv32, mem: bv32)
    ensures FromTop(Alu64(MaxU, ToTop(reg), ToTop(mem))) == Wide(Alu32(MaxU, reg, mem))
  {
    hide ToTop, Less64, Less32, Below64, Below32, FromTop, Wide;
    TopBack(reg);
    TopBack(mem);
    TopBelow(mem, reg);
  }

  lemma TopOther(op: Amo, reg: bv32, mem: bv32)
    requires op.Add? || op.Swap?
    ensures FromTop(Alu64(op, ToTop(reg), ToTop(mem))) == Wide(Alu32(op, reg, mem))
  {
    hide ToTop, Less64, Less32, Below64, Below32, FromTop, Wide;
    TopAdd(reg, mem);
    TopBack(reg);
  }

  /** Operating in the top half and shifting back is the 32-bit operation, carries and signs
      included, with nothing left above it. */
  lemma TopHalfAlu(op: Amo, reg: bv32, mem: bv32)
    ensures FromTop(Alu64(op, ToTop(reg), ToTop(mem))) == Wide(Alu32(op, reg, mem))
  {
    hide ToTop, FromTop, Wide, Alu64, Alu32;
    match op
    case And => TopBitwise(op, reg, mem);
    case Or => TopBitwise(op, reg, mem);
    case Xor => TopBitwise(op, reg, mem);
    case Add => TopOther(op, reg, mem);
    case Swap => TopOther(op, reg, mem);
    case Min => TopSigned(op, reg, mem);
    case Max => TopSigned(op, reg, mem);
    case MinU => TopMinU(reg, mem);
    case MaxU => TopMaxU(reg, mem);
  }

  // ----- bytes, least significant first ------------------------------------------

  type Byte = bv8

  function To32(b: seq<Byte>): bv32
    requires |b| == 4
  {
    (b[0] as bv32) | ((b[1] as bv32) << 8) | ((b[2] as bv32) << 16) | ((b[3] as bv32) << 24)
  }

  function From32(x: bv32): (b: seq<Byte>)
    ensures |b| == 4
  {
    [(x & 0xFF) as Byte, ((x >> 8) & 0xFF) as Byte, ((x >> 16) & 0xFF) as Byte, ((x >> 24) & 0xFF) as Byte]
  }

  /** The low and the high half of a doubleword. */
  function Half(x: bv64): bv32 { (x & 0xFFFF_FFFF) as bv32 }

  function Join(low: bv32, high: bv32): bv64 { (low as bv64) | ((high as bv64) << 32) }

  function To64(b: seq<Byte>): bv64
    requires |b| == 8
  {
    Join(To32(b[..4]), To32(b[4..]))
  }

  function From64(x: bv64): (b: seq<Byte>)
    ensures |b| == 8
  {
    From32(Half(x)) + From32(Half(x >> 32))
  }

  lemma HalfOfWide(a: bv32)
    ensures Half(Wide(a)) == a
  {
  }

  /** The ALU as wired for a word data path of 64 bits or more: word operands go to the top half and
      the result comes back from there. */
  function WiredWord(op: Amo, reg: seq<Byte>, mem: seq<Byte>): seq<Byte>
    requires |reg| == |mem| == 4
  {
    From32(Half(FromTop(Alu64(op, ToTop(To32(reg)), ToTop(To32(mem))))))
  }

  lemma WiredWordIsWord(op: Amo, reg: seq<Byte>, mem: seq<Byte>)
    requires |reg| == |mem| == 4
    ensures WiredWord(op, reg, mem) == From32(Alu32(op, To32(reg), To32(mem)))
  {
    hide Alu64, Alu32, ToTop, FromTop, Wide, Half, To32;
    TopHalfAlu(op, To32(reg), To32(mem));
    HalfOfWide(Alu32(op, To32(reg), To32(mem)));
  }

  /** Taking bytes apart and together again changes nothing, so a swap stores the register. */
  lemma WordBytes(x: bv32, b: seq<Byte>)
    requires |b| == 4
    ensures To32(From32(x)) == x
    ensures From32(To32(b)) == b
  {
  }

  lemma JoinHalves(low: bv32, high: bv32)
    ensures Half(Join(low, high)) == low && Half(Join(low, high) >> 32) == high
  {
  }

  lemma DoublewordBytes(b: seq<Byte>)
    requires |b| == 8
    ensures From64(To64(b)) == b
  {
    hide To32, From32, Half, Join;
    JoinHalves(To32(b[..4]), To32(b[4..]));
    WordBytes(0, b[..4]);
    WordBytes(0, b[4..]);
  }
}
