/** Gate-level netlists as the multiplier generators emit them: named wires, cells that
    relate them, and what a valuation of the wires is worth. */
module Netlist {

  /** Wires of one emitted module. Ports carry their flattened index. */
  datatype Wire =
    | Sdn(index: nat)          // SDN_i
    | Yvec(index: nat)         // y_vec_i
    | In(index: nat)           // i
    | CrI | ClO
    | SO(pos: nat) | CO(pos: nat)
    | Pp(pos: nat, bit: nat) | Aoi(pos: nat, bit: nat)
    | S0(pos: nat) | Cl(pos: nat)
    | Tie(level: bool)         // 1'b0 and 1'b1

  datatype Gate =
    | Aoi22(a0: Wire, a1: Wire, b0: Wire, b1: Wire, y: Wire)
    | Xnor2(a: Wire, b: Wire, y: Wire)
    | Xor2(a: Wire, b: Wire, y: Wire)
    | Addf(a: Wire, b: Wire, ci: Wire, s: Wire, co: Wire)
    | Assign(y: Wire, a: Wire)

  type Valuation = Wire -> bool

  function Sum3(a: bool, b: bool, c: bool): bool {
    (a != b) != c
  }

  function Carry3(a: bool, b: bool, c: bool): bool {
    (a && b) || (a && c) || (b && c)
  }

  /** The cell's output pins agree with its input pins. */
  predicate Holds(v: Valuation, g: Gate) {
    match g
    case Aoi22(a0, a1, b0, b1, y) => v(y) == !((v(a0) && v(a1)) || (v(b0) && v(b1)))
    case Xnor2(a, b, y) => v(y) == (v(a) == v(b))
    case Xor2(a, b, y) => v(y) == (v(a) != v(b))
    case Addf(a, b, ci, s, co) => v(s) == Sum3(v(a), v(b), v(ci)) && v(co) == Carry3(v(a), v(b), v(ci))
    case Assign(y, a) => v(y) == v(a)
  }

  /** v is a stable state of the netlist. */
  predicate Satisfies(v: Valuation, gates: seq<Gate>) {
    && v(Tie(true)) && !v(Tie(false))
    && forall i :: 0 <= i < |gates| ==> Holds(v, gates[i])
  }

  lemma SatisfiesParts(v: Valuation, a: seq<Gate>, b: seq<Gate>)
    ensures Satisfies(v, a + b) <==> Satisfies(v, a) && Satisfies(v, b)
  {
    if Satisfies(v, a + b) {
      forall i | 0 <= i < |a| ensures Holds(v, a[i]) {
        assert (a + b)[i] == a[i];
      }
      forall i | 0 <= i < |b| ensures Holds(v, b[i]) {
        assert (a + b)[|a| + i] == b[i];
      }
    }
  }

  /** The number a wire stands for. */
  function Num(v: Valuation, w: Wire): nat {
    Bit(v(w))
  }

  function Bit(b: bool): nat {
    if b then 1 else 0
  }

  /** A full adder conserves value. */
  lemma FullAdder(v: Valuation, a: Wire, b: Wire, ci: Wire, s: Wire, co: Wire)
    requires Holds(v, Addf(a, b, ci, s, co))
    ensures Num(v, s) + 2 * Num(v, co) == Num(v, a) + Num(v, b) + Num(v, ci)
  {
  }

  /** SDN_i[word][bit] and y_vec_i[pos][word][bit]. */
  function SdnBit(word: nat, bit: nat): Wire {
    Sdn(word * 3 + bit)
  }

  function YBit(pos: nat, word: nat, bit: nat): Wire {
    Yvec(2 * (pos * 4 + word) + bit)
  }

  /** One Booth partial-product bit: select y or 2y, then invert for a negative digit.
      Bit 0 of an SDN triple negates, bit 1 doubles, bit 2 selects. */
  function Dot(n: bool, d: bool, s: bool, ym1: bool, y0: bool): bool {
    ((d && ym1) || (s && y0)) != n
  }

  /** The partial-product bit a block should form at column pos for row word. */
  function DotAt(v: Valuation, pos: nat, word: nat): bool {
    Dot(v(SdnBit(word + 1, 0)), v(SdnBit(word + 1, 1)), v(SdnBit(word + 1, 2)),
        v(YBit(pos, word, 0)), v(YBit(pos, word, 1)))
  }

  /** The AOI22/XNOR2 pair that forms a dot, and its XOR2 variant that forms its complement. */
  function DotAoi(pos: nat, word: nat): Gate {
    Aoi22(SdnBit(word + 1, 1), YBit(pos, word, 0), SdnBit(word + 1, 2), YBit(pos, word, 1), Aoi(pos, word))
  }

  function DotXnor(pos: nat, word: nat): Gate {
    Xnor2(Aoi(pos, word), SdnBit(word + 1, 0), Pp(pos, word))
  }

  function DotXor(pos: nat, word: nat): Gate {
    Xor2(Aoi(pos, word), SdnBit(word + 1, 0), Pp(pos, word))
  }

  lemma DotFormed(v: Valuation, pos: nat, word: nat)
    requires Holds(v, DotAoi(pos, word))
    ensures Holds(v, DotXnor(pos, word)) ==> v(Pp(pos, word)) == DotAt(v, pos, word)
    ensures Holds(v, DotXor(pos, word)) ==> v(Pp(pos, word)) == !DotAt(v, pos, word)
  {
  }
}
