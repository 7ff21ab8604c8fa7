/** The configuration network's test vectors: packets whose fields are separated by frame bits, so
    that ten ones in a row are only ever a reset. Strings are most significant bit first, with
    underscores between fields; the network receives the rightmost bit first. */
module ConfigNet {
  import opened Powers
  import opened GrayCode
  import opened Wrappers

  const FRAME_LEN := 8   // data_frame_len_lp
  const FIELD := 8       // id_width_lp and len_width_lp
  const RESET_LEN := 10  // reset_len_lp

  // ----- strings and the bits they send ----------------------------------------

  /** The bits of a literal, rightmost first; underscores are not bits. */
  function Sent(s: string): Bits {
    if s == [] then [] else Sent(s[1..]) + (if s[0] == '_' then [] else [s[0] == '1'])
  }

  predicate IsBinary(s: string) {
    forall k :: 0 <= k < |s| ==> s[k] == '0' || s[k] == '1'
  }

  lemma {:induction false} SentConcat(a: string, b: string)
    ensures Sent(a + b) == Sent(b) + Sent(a)
  {
    if a == [] {
      assert a + b == b;
    } else {
      assert (a + b)[0] == a[0] && (a + b)[1..] == a[1..] + b;
      SentConcat(a[1..], b);
    }
  }

  lemma {:induction false} SentBinary(s: string)
    requires IsBinary(s)
    ensures |Sent(s)| == |s|
    ensures forall i :: 0 <= i < |s| ==> Sent(s)[i] == (s[|s| - 1 - i] == '1')
  {
    if s != [] {
      var rest := s[1..];
      SentBinary(rest);
      forall i | 0 <= i < |s| ensures Sent(s)[i] == (s[|s| - 1 - i] == '1') {
        if i < |rest| {
          assert Sent(s)[i] == Sent(rest)[i];
        }
      }
    }
  }

  /** dec2bin: the low n bits of dec. */
  method Dec2Bin(dec: nat, n: int) returns (bin: string)
    ensures IsBinary(bin) && |bin| == (if n > 0 then n else 0)
    ensures Sent(bin) == ToBits(dec, |bin|)
  {
    hide Sent, ToBits;
    bin := "";
    var d, k := dec, n;
    ghost var total: nat := if n > 0 then n else 0;
    SentNothing();
    while k > 0
      invariant IsBinary(bin) && (if k > 0 then k else 0) == total - |bin| >= 0
      invariant Sent(bin) + ToBits(d, total - |bin|) == ToBits(dec, total)
    {
      var c := if d % 2 == 1 then '1' else '0';
      DigitMore(bin, d, k, c);
      bin := [c] + bin;
      d := d / 2;
      k := k - 1;
    }
    NoBits(d);
  }

  lemma SentNothing()
    ensures Sent("") == []
  {
  }

  lemma NoBits(d: nat)
    ensures ToBits(d, 0) == []
  {
  }

  lemma DigitMore(bin: string, d: nat, k: nat, c: char)
    requires k > 0 && c == if d % 2 == 1 then '1' else '0'
    ensures Sent([c] + bin) + ToBits(d / 2, k - 1) == Sent(bin) + ToBits(d, k)
  {
    SentConcat([c], bin);
    assert Sent([c]) == [d % 2 == 1];
  }

  /** The first k data bits with a frame bit after every eighth. */
  function FramePrefix(d: Bits, k: nat): Bits
    requires k <= |d|
  {
    if k == 0 then []
    else FramePrefix(d, k - 1) + [d[k - 1]] + (if k % FRAME_LEN == 0 then [false] else [])
  }

  function Framed(d: Bits): Bits {
    FramePrefix(d, |d|) + [false]
  }

  /** insert_frame_bits */
  method InsertFrameBits(data: string) returns (framed: string)
    requires IsBinary(data)
    ensures Sent(framed) == Framed(Sent(data))
  {
    framed := "";
    SentBinary(data);
    ghost var d := Sent(data);
    for idx := 1 to |data| + 1
      invariant Sent(framed) == FramePrefix(d, idx - 1)
    {
      var bit := data[|data| - idx];
      ghost var before := framed;
      if idx % FRAME_LEN == 0 {
        framed := ['0', '_', bit] + framed;
        SentThree(bit, before);
        if idx != |data| {
          SentConcat("_", framed);
          framed := "_" + framed;
        }
      } else {
        SentConcat([bit], framed);
        framed := [bit] + framed;
      }
    }
    SentConcat("0_", framed);
    SentTwo();
    framed := "0_" + framed;
  }

  lemma SentTwo()
    ensures Sent("0_") == [false]
  {
    assert "0_"[1..] == "_" && "_"[1..] == "";
  }

  lemma SentThree(bit: char, s: string)
    requires bit != '_'
    ensures Sent(['0', '_', bit] + s) == Sent(s) + [bit == '1'] + [false]
  {
    SentTwo();
    SentConcat([bit], s);
    SentConcat("0_", [bit] + s);
    assert ['0', '_', bit] + s == "0_" + ([bit] + s);
  }

  // ----- framing ----------------------------------------------------------------

  /** The place of bit i: one frame bit for every eight bits before it. */
  function PlaceOf(i: nat): nat {
    i + i / FRAME_LEN
  }

  lemma NextPlace(k: nat)
    ensures PlaceOf(k) % 9 != 8
    ensures (k + 1) % 8 == 0 ==> (PlaceOf(k) + 1) % 9 == 8 && PlaceOf(k + 1) == PlaceOf(k) + 2
    ensures (k + 1) % 8 != 0 ==> PlaceOf(k + 1) == PlaceOf(k) + 1
  {
    var q, r := k / 8, k % 8;
    assert k == 8 * q + r && PlaceOf(k) == 9 * q + r;
    DivModUnique(PlaceOf(k), 9, q, r);
    if r == 7 {
      DivModUnique(k + 1, 8, q + 1, 0);
      DivModUnique(PlaceOf(k) + 1, 9, q, 8);
    } else {
      DivModUnique(k + 1, 8, q, r + 1);
    }
  }

  lemma {:induction false} FrameSize(d: Bits, k: nat)
    requires k <= |d|
    ensures |FramePrefix(d, k)| == PlaceOf(k)
  {
    hide PlaceOf;
    if k == 0 {
      FirstPlace();
    } else {
      FrameSize(d, k - 1);
      NextPlace(k - 1);
    }
  }

  lemma FirstPlace()
    ensures PlaceOf(0) == 0
  {
  }

  lemma {:induction false} FrameBit(d: Bits, k: nat, i: nat)
    requires i < k <= |d|
    ensures PlaceOf(i) < |FramePrefix(d, k)| && FramePrefix(d, k)[PlaceOf(i)] == d[i]
  {
    hide PlaceOf;
    FrameSize(d, k - 1);
    if i < k - 1 {
      FrameBit(d, k - 1, i);
    }
  }

  lemma {:induction false} FrameZero(d: Bits, k: nat, p: nat)
    requires k <= |d| && p < |FramePrefix(d, k)| && p % 9 == 8
    ensures !FramePrefix(d, k)[p]
  {
    hide PlaceOf;
    if k > 0 {
      FrameSize(d, k - 1);
      NextPlace(k - 1);
      if p < |FramePrefix(d, k - 1)| {
        FrameZero(d, k - 1, p);
      }
    }
  }

  /** Bit i of the data is sent i / 8 places late; every ninth place is a zero. */
  lemma FramePlaces(d: Bits, k: nat)
    requires k <= |d|
    ensures |FramePrefix(d, k)| == k + k / FRAME_LEN
    ensures forall i :: 0 <= i < k ==>
              i + i / FRAME_LEN < |FramePrefix(d, k)| && FramePrefix(d, k)[i + i / FRAME_LEN] == d[i]
    ensures forall p :: 0 <= p < |FramePrefix(d, k)| && p % 9 == 8 ==> !FramePrefix(d, k)[p]
  {
    hide FramePrefix;
    FrameSize(d, k);
    forall i | 0 <= i < k
      ensures i + i / FRAME_LEN < |FramePrefix(d, k)| && FramePrefix(d, k)[i + i / FRAME_LEN] == d[i]
    {
      FrameBit(d, k, i);
    }
    forall p: nat | p < |FramePrefix(d, k)| && p % 9 == 8 ensures !FramePrefix(d, k)[p] {
      FrameZero(d, k, p);
    }
  }

  /** Removing the frame bits. */
  function Unframed(f: Bits, n: nat): (d: Bits)
    requires n > 0 ==> n - 1 + (n - 1) / FRAME_LEN < |f|
    ensures |d| == n
  {
    seq(n, i requires 0 <= i < n => f[i + i / FRAME_LEN])
  }

  lemma UnframedFramed(d: Bits)
    ensures |Framed(d)| == |d| + |d| / FRAME_LEN + 1
    ensures Unframed(Framed(d), |d|) == d
  {
    FramePlaces(d, |d|);
  }

  // ----- no long runs of ones -----------------------------------------------------

  /** Every k bits in a row include a zero. */
  ghost predicate Broken(b: Bits, k: nat) {
    forall p :: 0 <= p && p + k <= |b| ==> HasZero(b, p, k)
  }

  ghost predicate HasZero(b: Bits, p: nat, k: nat)
    requires p + k <= |b|
  {
    exists q :: p <= q < p + k && !b[q]
  }

  /** Pieces that end in a zero can be joined. */
  lemma BrokenJoin(a: Bits, b: Bits, k: nat)
    requires Broken(a, k) && Broken(b, k) && k > 0 && (a != [] ==> !a[|a| - 1])
    ensures Broken(a + b, k)
  {
    var c := a + b;
    forall p: int | 0 <= p && p + k <= |c| ensures HasZero(c, p, k) {
      if p + k <= |a| {
        assert HasZero(a, p, k);
        var q :| p <= q < p + k && !a[q];
        assert !c[q];
      } else if p >= |a| {
        assert HasZero(b, p - |a|, k);
        var q :| p - |a| <= q < p - |a| + k && !b[q];
        assert !c[q + |a|];
      } else {
        assert !c[|a| - 1];
      }
    }
  }

  lemma ShortIsBroken(b: Bits, k: nat)
    requires |b| < k
    ensures Broken(b, k)
  {
  }

  lemma FieldIsBroken(b: Bits)
    requires |b| == FIELD
    ensures Broken(b + [false], 9)
  {
    var c := b + [false];
    forall p: int | 0 <= p && p + 9 <= |c| ensures HasZero(c, p, 9) {
      assert !c[8];
    }
  }

  lemma FramedIsBroken(d: Bits)
    ensures Broken(Framed(d), 9) && !Framed(d)[|Framed(d)| - 1]
  {
    FramePlaces(d, |d|);
    var f := FramePrefix(d, |d|);
    forall p: int | 0 <= p && p + 9 <= |Framed(d)| ensures HasZero(Framed(d), p, 9) {
      var q := p + (8 - p % 9);
      assert q % 9 == 8 by {
        DivModUnique(q, 9, p / 9, 8);
      }
      assert !Framed(d)[q];
    }
  }

  // ----- packets --------------------------------------------------------------------

  /** A line of the test file. */
  datatype Test = Test(id: nat, data: string)

  function SendDataBits(dataBits: nat): nat {
    dataBits + dataBits / FRAME_LEN + 1
  }

  function PacketLen(dataBits: nat): nat {
    SendDataBits(dataBits) + 1 + FIELD + 1 + FIELD + 1 + 2
  }

  /** valid, frame, length, frame, id, frame, framed data: in the order they are sent. */
  function PacketBits(id: nat, data: Bits, dataBits: nat): Bits {
    [false, true, false] + (ToBits(PacketLen(dataBits), FIELD) + [false]) + (ToBits(id, FIELD) + [false]) + Framed(data)
  }

  predicate Declared(tests: seq<Test>, dataBits: map<nat, nat>) {
    forall t :: t in tests ==> t.id in dataBits
  }

  predicate BinaryData(tests: seq<Test>) {
    forall t :: t in tests ==> IsBinary(t.data)
  }

  function Packets(tests: seq<Test>, dataBits: map<nat, nat>): Bits
    requires Declared(tests, dataBits)
  {
    if tests == [] then []
    else PacketBits(tests[0].id, Sent(tests[0].data), dataBits[tests[0].id]) + Packets(tests[1..], dataBits)
  }

  function Ones(n: nat): (b: Bits)
    ensures |b| == n
  {
    seq(n, _ => true)
  }

  /** The whole vector, reset first. */
  function VectorBits(tests: seq<Test>, dataBits: map<nat, nat>): Bits
    requires Declared(tests, dataBits)
  {
    Ones(RESET_LEN) + Packets(tests, dataBits)
  }

  function TotalLen(tests: seq<Test>, dataBits: map<nat, nat>): nat
    requires Declared(tests, dataBits)
  {
    if tests == [] then 0 else PacketLen(dataBits[tests[0].id]) + TotalLen(tests[1..], dataBits)
  }

  lemma {:induction false} PacketsAppend(a: seq<Test>, b: seq<Test>, dataBits: map<nat, nat>)
    requires Declared(a, dataBits) && Declared(b, dataBits)
    ensures Declared(a + b, dataBits)
    ensures Packets(a + b, dataBits) == Packets(a, dataBits) + Packets(b, dataBits)
    ensures TotalLen(a + b, dataBits) == TotalLen(a, dataBits) + TotalLen(b, dataBits)
  {
    hide PacketBits, PacketLen, Declared, Sent;
    DeclaredParts(a, b, dataBits);
    if a == [] {
      assert a + b == b;
    } else {
      assert (a + b)[0] == a[0] && (a + b)[1..] == a[1..] + b && a == [a[0]] + a[1..];
      DeclaredParts([a[0]], a[1..], dataBits);
      PacketsAppend(a[1..], b, dataBits);
    }
  }

  lemma DeclaredParts(a: seq<Test>, b: seq<Test>, dataBits: map<nat, nat>)
    ensures Declared(a + b, dataBits) <==> Declared(a, dataBits) && Declared(b, dataBits)
  {
    assert Declared(a + b, dataBits) ==> forall t :: t in a ==> t in a + b;
    assert Declared(a + b, dataBits) ==> forall t :: t in b ==> t in a + b;
  }

  lemma OnePacket(before: seq<Test>, t: Test, dataBits: map<nat, nat>)
    requires Declared(before, dataBits) && t.id in dataBits
    ensures Declared(before + [t], dataBits)
    ensures Packets(before + [t], dataBits) == Packets(before, dataBits) + PacketBits(t.id, Sent(t.data), dataBits[t.id])
    ensures TotalLen(before + [t], dataBits) == TotalLen(before, dataBits) + PacketLen(dataBits[t.id])
  {
    hide PacketBits, PacketLen, Sent;
    PacketsAppend(before, [t], dataBits);
    assert [t][1..] == [];
  }

  lemma SentOne()
    ensures Sent("1") == [true] && Sent("") == []
  {
  }

  /** One packet's string from its fields. */
  method TestPacket(t: Test, dataBits: nat) returns (packet: string, packetLen: nat)
    requires IsBinary(t.data)
    ensures Sent(packet) == PacketBits(t.id, Sent(t.data), dataBits)
    ensures packetLen == PacketLen(dataBits)
  {
    var sendData := InsertFrameBits(t.data);
    packetLen := SendDataBits(dataBits) + 1 + FIELD + 1 + FIELD + 1 + 2;
    var id := Dec2Bin(t.id, FIELD);
    var len := Dec2Bin(packetLen, FIELD);
    packet := sendData + "_0_" + id + "_0_" + len + "_0_" + "10";
    PacketSent(sendData, id, len);
  }

  lemma PacketSent(sendData: string, id: string, len: string)
    ensures Sent(sendData + "_0_" + id + "_0_" + len + "_0_" + "10") ==
            [false, true, false] + (Sent(len) + [false]) + (Sent(id) + [false]) + Sent(sendData)
  {
    hide Sent;
    SentSeparators();
    SentConcat(sendData + "_0_" + id + "_0_" + len + "_0_", "10");
    SentConcat(sendData + "_0_" + id + "_0_" + len, "_0_");
    SentConcat(sendData + "_0_" + id + "_0_", len);
    SentConcat(sendData + "_0_" + id, "_0_");
    SentConcat(sendData + "_0_", id);
    SentConcat(sendData, "_0_");
  }

  lemma SentSeparators()
    ensures Sent("_0_") == [false] && Sent("10") == [false, true] && Sent("__") == []
  {
    assert "_0_"[1..] == "0_" && "0_"[1..] == "_" && "_"[1..] == "";
    assert "10"[1..] == "0" && "0"[1..] == "" && "__"[1..] == "_";
  }

  /** Every packet and the vector made of them; an undeclared id is a KeyError. */
  method TestVector(tests: seq<Test>, dataBits: map<nat, nat>) returns (r: Result<(string, nat), nat>)
    requires BinaryData(tests)
    ensures r.Ok? <==> Declared(tests, dataBits)
    ensures r.Ok? ==> Sent(r.value.0) == VectorBits(tests, dataBits)
    ensures r.Ok? ==> r.value.1 == TotalLen(tests, dataBits) + 10
    ensures r.Err? ==> exists t :: t in tests && t.id == r.error && t.id !in dataBits
  {
    hide Sent, PacketBits, PacketLen, PacketsFor, Packets;
    var made := TestPackets(tests, dataBits);
    if made.Err? {
      return Err(made.error);
    }
    var (packets, testVectorBits) := made.value;
    var resetString := ResetString();
    testVectorBits := testVectorBits + RESET_LEN;
    var vector := JoinPackets(packets, resetString, tests, dataBits);
    r := Ok((vector, testVectorBits));
  }

  /** packets are the strings of the tests. */
  predicate PacketsFor(packets: seq<string>, tests: seq<Test>, dataBits: map<nat, nat>) {
    |packets| <= |tests| && forall j :: 0 <= j < |packets| ==>
      tests[j].id in dataBits
      && Sent(packets[j]) == PacketBits(tests[j].id, Sent(tests[j].data), dataBits[tests[j].id])
  }

  /** The loop that makes every packet's string and counts the bits. */
  method TestPackets(tests: seq<Test>, dataBits: map<nat, nat>) returns (r: Result<(seq<string>, nat), nat>)
    requires BinaryData(tests)
    ensures r.Ok? <==> Declared(tests, dataBits)
    ensures r.Ok? ==> |r.value.0| == |tests| && PacketsFor(r.value.0, tests, dataBits)
    ensures r.Ok? ==> r.value.1 == TotalLen(tests, dataBits)
    ensures r.Err? ==> exists t :: t in tests && t.id == r.error && t.id !in dataBits
  {
    hide Sent, PacketBits, PacketLen;
    var packets: seq<string> := [];
    var testVectorBits := 0;
    for k := 0 to |tests|
      invariant |packets| == k && PacketsFor(packets, tests, dataBits)
      invariant Declared(tests[..k], dataBits) && testVectorBits == TotalLen(tests[..k], dataBits)
    {
      if tests[k].id !in dataBits {
        return Err(tests[k].id);
      }
      var packet, packetLen := TestPacket(tests[k], dataBits[tests[k].id]);
      OnePacket(tests[..k], tests[k], dataBits);
      assert tests[..k + 1] == tests[..k] + [tests[k]];
      packets := packets + [packet];
      testVectorBits := testVectorBits + packetLen;
    }
    assert tests[..|tests|] == tests;
    r := Ok((packets, testVectorBits));
  }

  method ResetString() returns (resetString: string)
    ensures Sent(resetString) == Ones(RESET_LEN)
  {
    hide Sent;
    resetString := "";
    SentOne();
    for bit := 0 to RESET_LEN
      invariant Sent(resetString) == Ones(bit)
    {
      SentConcat(resetString, "1");
      resetString := resetString + "1";
    }
  }

  /** The loop that puts every packet in front of the vector. */
  method JoinPackets(packets: seq<string>, resetString: string, ghost tests: seq<Test>, ghost dataBits: map<nat, nat>)
    returns (vector: string)
    requires |packets| == |tests| && PacketsFor(packets, tests, dataBits) && Declared(tests, dataBits)
    ensures Sent(vector) == Sent(resetString) + Packets(tests, dataBits)
  {
    hide Sent, PacketBits, PacketLen;
    vector := resetString;
    for k := 0 to |packets|
      invariant Declared(tests[..k], dataBits)
      invariant Sent(vector) == Sent(resetString) + Packets(tests[..k], dataBits)
    {
      OnePacket(tests[..k], tests[k], dataBits);
      assert tests[..k + 1] == tests[..k] + [tests[k]];
      SentFront(packets[k], vector);
      vector := packets[k] + "__" + vector;
    }
    assert tests[..|tests|] == tests;
  }

  lemma SentFront(packet: string, vector: string)
    ensures Sent(packet + "__" + vector) == Sent(vector) + Sent(packet)
  {
    hide Sent;
    SentSeparators();
    SentConcat(packet + "__", vector);
    SentConcat(packet, "__");
    assert packet + "__" + vector == (packet + "__") + vector;
  }

  // ----- what the vector promises -------------------------------------------------------

  /** Every test's data is as wide as its node was declared. */
  predicate Widths(tests: seq<Test>, dataBits: map<nat, nat>)
    requires Declared(tests, dataBits)
  {
    forall t :: t in tests ==> IsBinary(t.data) && |t.data| == dataBits[t.id]
  }

  lemma PacketLength(id: nat, data: Bits)
    ensures |PacketBits(id, data, |data|)| == PacketLen(|data|)
  {
    UnframedFramed(data);
  }

  /** The bits counted are the bits sent. */
  lemma {:induction false} VectorLength(tests: seq<Test>, dataBits: map<nat, nat>)
    requires Declared(tests, dataBits) && Widths(tests, dataBits)
    ensures |VectorBits(tests, dataBits)| == TotalLen(tests, dataBits) + 10
  {
    hide PacketBits, PacketLen;
    if tests != [] {
      VectorLength(tests[1..], dataBits);
      assert tests[0] in tests;
      SentBinary(tests[0].data);
      PacketLength(tests[0].id, Sent(tests[0].data));
    }
  }

  lemma PacketIsBroken(id: nat, data: Bits, dataBits: nat)
    ensures var p := PacketBits(id, data, dataBits);
            Broken(p, 9) && p != [] && !p[0] && !p[|p| - 1]
  {
    hide Broken, ToBits;
    var head, len := [false, true, false], ToBits(PacketLen(dataBits), FIELD) + [false];
    var i, f := ToBits(id, FIELD) + [false], Framed(data);
    ShortIsBroken(head, 9);
    FieldIsBroken(ToBits(PacketLen(dataBits), FIELD));
    FieldIsBroken(ToBits(id, FIELD));
    FramedIsBroken(data);
    BrokenJoin(head, len, 9);
    BrokenJoin(head + len, i, 9);
    BrokenJoin(head + len + i, f, 9);
  }

  lemma {:induction false} PacketsBroken(tests: seq<Test>, dataBits: map<nat, nat>)
    requires Declared(tests, dataBits)
    ensures Broken(Packets(tests, dataBits), 9)
    ensures tests != [] ==> Packets(tests, dataBits) != [] && !Packets(tests, dataBits)[0]
  {
    hide Broken, PacketBits;
    if tests == [] {
      ShortIsBroken([], 9);
    } else {
      PacketIsBroken(tests[0].id, Sent(tests[0].data), dataBits[tests[0].id]);
      PacketsBroken(tests[1..], dataBits);
      BrokenJoin(PacketBits(tests[0].id, Sent(tests[0].data), dataBits[tests[0].id]), Packets(tests[1..], dataBits), 9);
    }
  }

  /** Ten ones in a row, the reset sequence, occur at the start of the vector and nowhere else,
      whatever the ids, lengths and data. */
  lemma ResetOnlyAtStart(tests: seq<Test>, dataBits: map<nat, nat>, p: nat)
    requires Declared(tests, dataBits) && p + 10 <= |VectorBits(tests, dataBits)|
    ensures HasZero(VectorBits(tests, dataBits), p, 10) <==> p != 0
  {
    hide Packets;
    PacketsBroken(tests, dataBits);
    var b := Packets(tests, dataBits);
    if p >= RESET_LEN {
      assert HasZero(b, p - RESET_LEN, 9);
      var q :| p - RESET_LEN <= q < p - RESET_LEN + 9 && !b[q];
      assert !VectorBits(tests, dataBits)[q + RESET_LEN];
    } else if p > 0 {
      NoPackets(dataBits);
      assert !VectorBits(tests, dataBits)[RESET_LEN];
    }
  }

  lemma NoPackets(dataBits: map<nat, nat>)
    ensures Packets([], dataBits) == []
  {
  }

  // ----- reading the vector back ---------------------------------------------------------

  /** What a node sees of a packet. */
  datatype Item = Item(id: nat, data: Bits)

  /** The first packet of a stream and its length: the length field gives the end of the packet and
      with it the number of data bits, and the frame bits must be where they belong. */
  function ReadPacket(b: Bits): Option<(Item, nat)> {
    if |b| < 21 || b[..3] != [false, true, false] || b[11] || b[20] then None
    else
      var len := Value(b[3..11]);
      if len < 22 || len > |b| then None
      else
        var m := len - 22;
        var n := m - m / 9;
        if n + n / FRAME_LEN != m then None
        else Some((Item(Value(b[12..20]), Unframed(b[21..len], n)), len))
  }

  function ReadPackets(b: Bits): (seq<Item>, Bits)
    decreases |b|
  {
    var first := ReadPacket(b);
    if first.None? || first.value.1 == 0 || first.value.1 > |b| then ([], b)
    else
      var (items, rest) := ReadPackets(b[first.value.1..]);
      ([first.value.0] + items, rest)
  }

  /** id and length fit their eight-bit fields. */
  predicate Fits(t: Test, dataBits: map<nat, nat>)
    requires t.id in dataBits
  {
    t.id < 256 && PacketLen(dataBits[t.id]) < 256
  }

  function Items(tests: seq<Test>): seq<Item> {
    if tests == [] then [] else [Item(tests[0].id, Sent(tests[0].data))] + Items(tests[1..])
  }

  lemma FieldValue(v: nat)
    ensures Value(ToBits(v, FIELD)) == v % 256
    ensures v % 256 == v <==> v < 256
  {
    hide Value, ToBits, Pow2;
    ValueToBits(v, FIELD);
    PowEight();
  }

  lemma PowEight()
    ensures Pow2(8) == 256
  {
    assert Pow2(4) == 16;
    Pow2Add(4, 4);
  }

  /** Where the fields of a packet are. */
  lemma PacketFields(id: nat, data: Bits, rest: Bits)
    ensures var b := PacketBits(id, data, |data|) + rest;
            && |b| == PacketLen(|data|) + |rest| && PacketLen(|data|) == |data| + |data| / FRAME_LEN + 22
            && b[..3] == [false, true, false] && !b[11] && !b[20]
            && b[3..11] == ToBits(PacketLen(|data|), FIELD) && b[12..20] == ToBits(id, FIELD)
            && b[21..PacketLen(|data|)] == Framed(data) && b[PacketLen(|data|)..] == rest
  {
    hide Framed, ToBits;
    UnframedFramed(data);
  }

  /** n data bits with their frame bits: n is recovered from n + n / 8. */
  lemma DataLength(n: nat)
    ensures var m := n + n / FRAME_LEN; m - m / 9 == n
  {
    var q, r := n / 8, n % 8;
    DivModUnique(n + q, 9, q, r);
  }

  lemma ReadOne(id: nat, data: Bits, rest: Bits)
    ensures var first := ReadPacket(PacketBits(id, data, |data|) + rest);
            if id < 256 && PacketLen(|data|) < 256 then first == Some((Item(id, data), PacketLen(|data|)))
            else first.Some? ==> first.value.0 != Item(id, data)
  {
    hide PacketBits, ToBits, Value, Unframed, Framed;
    var b := PacketBits(id, data, |data|) + rest;
    PacketFields(id, data, rest);
    FieldValue(PacketLen(|data|));
    FieldValue(id);
    DataLength(|data|);
    UnframedFramed(data);
    var first := ReadPacket(b);
    if PacketLen(|data|) >= 256 && first.Some? {
      var n := |first.value.0.data|;
      assert first.value.1 == n + n / FRAME_LEN + 22;
    }
  }

  /** Removing the frame bits recovers every id, length and data, in order and to the last bit, if
      and only if every id and every packet length fits its field. */
  lemma {:induction false} ReadsBackIff(tests: seq<Test>, dataBits: map<nat, nat>)
    requires Declared(tests, dataBits) && Widths(tests, dataBits)
    ensures ReadPackets(Packets(tests, dataBits)) == (Items(tests), []) <==>
            forall t :: t in tests ==> Fits(t, dataBits)
  {
    hide PacketBits, ReadPacket, PacketLen, Sent;
    if tests != [] {
      var t, rest := tests[0], Packets(tests[1..], dataBits);
      assert t in tests && tests == [t] + tests[1..];
      SentBinary(t.data);
      ReadOne(t.id, Sent(t.data), rest);
      PacketFields(t.id, Sent(t.data), rest);
      ReadsBackIff(tests[1..], dataBits);
      assert (forall u :: u in tests ==> Fits(u, dataBits)) <==>
             Fits(t, dataBits) && forall u :: u in tests[1..] ==> Fits(u, dataBits);
      var b := Packets(tests, dataBits);
      assert b == PacketBits(t.id, Sent(t.data), |Sent(t.data)|) + rest;
      var (items, left) := ReadPackets(b);
      if Fits(t, dataBits) {
        assert items == [Item(t.id, Sent(t.data))] + ReadPackets(rest).0 && left == ReadPackets(rest).1;
        assert items[1..] == ReadPackets(rest).0 && Items(tests)[1..] == Items(tests[1..]);
      } else {
        assert items != [] ==> items[0] != Items(tests)[0];
      }
    } else {
      ReadNothing();
    }
  }

  lemma ReadNothing()
    ensures ReadPackets([]) == ([], [])
  {
  }
}
