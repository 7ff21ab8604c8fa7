/** bsg_cache_dma_to_wormhole: turns DMA packets and evicted data into wormhole packets, a header
    flit and as many flits as its length field says, and strips the headers of returning ones. */
module CacheWormhole {
  import opened Powers
  import opened Wrappers

  /** A flit by its value. */
  type Flit = nat

  /** burst: dma_burst_len_p; the others are field widths, and mine and dest are this end's and the
      far end's coordinate and concentrator id. */
  datatype Config = Config(
    burst: nat, addrWidth: nat, maskWidth: nat, flitWidth: nat, lenWidth: nat, cordWidth: nat, cidWidth: nat,
    mine: End, dest: End)

  datatype End = End(cord: nat, cid: nat)

  /** What the module needs, and its own checks of the parameters: a flit holds an address, and the
      length field holds burst + 1. */
  predicate ValidConfig(g: Config) {
    && g.burst >= 1 && g.lenWidth >= 1 && g.addrWidth <= g.flitWidth
    && g.burst + 1 < Pow2(g.lenWidth)
    && FitsEnd(g, g.mine) && FitsEnd(g, g.dest)
  }

  predicate FitsEnd(g: Config, e: End) {
    e.cord < Pow2(g.cordWidth) && e.cid < Pow2(g.cidWidth)
  }

  /** bsg_cache_dma_pkt_s; a read's mask is zero. */
  datatype Packet = Packet(write: bool, addr: nat, mask: nat)

  function AllOnes(g: Config): nat {
    Pow2(g.maskWidth) - 1
  }

  predicate ValidPacket(g: Config, p: Packet) {
    p.addr < Pow2(g.addrWidth) && p.mask < Pow2(g.maskWidth) && (!p.write ==> p.mask == 0)
  }

  predicate Masked(g: Config, p: Packet) {
    p.write && p.mask != AllOnes(g)
  }

  // ----- the header flit -------------------------------------------------------

  datatype Header = Header(cord: nat, len: nat, cid: nat, srcCord: nat, srcCid: nat, opcode: nat)

  const READ := 0
  const WRITE_NON_MASKED := 2
  const WRITE_MASKED := 3

  /** A field of p values below the rest of the word, and its two parts again. */
  function Put(low: nat, p: nat, high: nat): nat {
    low + p * high
  }

  function Low(f: nat, p: nat): nat
    requires p >= 1
  {
    f % p
  }

  function High(f: nat, p: nat): nat
    requires p >= 1
  {
    f / p
  }

  lemma Peel(low: nat, p: nat, high: nat)
    requires low < p
    ensures Low(Put(low, p, high), p) == low && High(Put(low, p, high), p) == high
  {
    DivModUnique(low + p * high, p, high, low);
  }

  /** The packed struct, least significant field first; the unused bits above are zero. */
  function PackHeader(g: Config, h: Header): Flit {
    Put(h.cord, Pow2(g.cordWidth), Put(h.len, Pow2(g.lenWidth), Put(h.cid, Pow2(g.cidWidth),
      Put(h.srcCord, Pow2(g.cordWidth), Put(h.srcCid, Pow2(g.cidWidth), h.opcode)))))
  }

  function UnpackHeader(g: Config, f: Flit): Header {
    var f1 := High(f, Pow2(g.cordWidth));
    var f2 := High(f1, Pow2(g.lenWidth));
    var f3 := High(f2, Pow2(g.cidWidth));
    var f4 := High(f3, Pow2(g.cordWidth));
    Header(Low(f, Pow2(g.cordWidth)), Low(f1, Pow2(g.lenWidth)), Low(f2, Pow2(g.cidWidth)),
           Low(f3, Pow2(g.cordWidth)), Low(f4, Pow2(g.cidWidth)), High(f4, Pow2(g.cidWidth)) % 4)
  }

  /** Every field of the header can be read back from the flit. */
  lemma HeaderRoundTrip(g: Config, h: Header)
    requires h.cord < Pow2(g.cordWidth) && h.len < Pow2(g.lenWidth) && h.cid < Pow2(g.cidWidth)
    requires h.srcCord < Pow2(g.cordWidth) && h.srcCid < Pow2(g.cidWidth) && h.opcode < 4
    ensures UnpackHeader(g, PackHeader(g, h)) == h
  {
    hide Pow2, Put, Low, High;
    var h4 := Put(h.srcCid, Pow2(g.cidWidth), h.opcode);
    var h3 := Put(h.srcCord, Pow2(g.cordWidth), h4);
    var h2 := Put(h.cid, Pow2(g.cidWidth), h3);
    Peel(h.cord, Pow2(g.cordWidth), Put(h.len, Pow2(g.lenWidth), h2));
    Peel(h.len, Pow2(g.lenWidth), h2);
    Peel(h.cid, Pow2(g.cidWidth), h3);
    Peel(h.srcCord, Pow2(g.cordWidth), h4);
    Peel(h.srcCid, Pow2(g.cidWidth), h.opcode);
  }

  /** A value cast to the length field. */
  function LenCast(g: Config, n: nat): (r: nat)
    ensures r < Pow2(g.lenWidth)
  {
    n % Pow2(g.lenWidth)
  }

  function Opcode(g: Config, p: Packet): nat {
    if !p.write then READ else if Masked(g, p) then WRITE_MASKED else WRITE_NON_MASKED
  }

  /** Flits that follow the header, and what the length field makes of that. */
  function Following(g: Config, p: Packet): nat {
    if !p.write then 1 else if Masked(g, p) then 2 + g.burst else 1 + g.burst
  }

  function HeaderOf(g: Config, p: Packet): Header {
    Header(g.dest.cord, LenCast(g, Following(g, p)), g.dest.cid, g.mine.cord, g.mine.cid, Opcode(g, p))
  }

  function HeaderFlit(g: Config, p: Packet): Flit {
    PackHeader(g, HeaderOf(g, p))
  }

  function AddrFlit(g: Config, p: Packet): Flit {
    p.addr % Pow2(g.flitWidth)
  }

  function MaskFlit(g: Config, p: Packet): Flit {
    p.mask % Pow2(g.flitWidth)
  }

  // ----- the stream and its meaning -----------------------------------------------

  /** A DMA packet with the data burst that belongs to it. */
  datatype Message = Message(packet: Packet, data: seq<Flit>)

  predicate ValidMessage(g: Config, m: Message) {
    ValidPacket(g, m.packet) && |m.data| == if m.packet.write then g.burst else 0
  }

  /** The flits before the data. */
  function Lead(g: Config, p: Packet): seq<Flit> {
    [HeaderFlit(g, p), AddrFlit(g, p)] + if Masked(g, p) then [MaskFlit(g, p)] else []
  }

  function Encode(g: Config, m: Message): seq<Flit> {
    Lead(g, m.packet) + m.data
  }

  function EncodeAll(g: Config, ms: seq<Message>): seq<Flit> {
    if ms == [] then [] else Encode(g, ms[0]) + EncodeAll(g, ms[1..])
  }

  /** A message from its opcode and the flits after the header. */
  function Decode(g: Config, opcode: nat, body: seq<Flit>): Option<Message> {
    if |body| < 1 then None
    else if opcode == READ then Some(Message(Packet(false, body[0], 0), body[1..]))
    else if opcode == WRITE_NON_MASKED then Some(Message(Packet(true, body[0], AllOnes(g)), body[1..]))
    else if opcode == WRITE_MASKED && |body| >= 2 then Some(Message(Packet(true, body[0], body[1]), body[2..]))
    else None
  }

  /** The wormhole network's view of a stream: each header's length field says where the next
      header is. The messages, and what is left over: an incomplete or malformed packet. */
  function Parse(g: Config, flits: seq<Flit>): (seq<Message>, seq<Flit>) {
    if flits == [] then ([], [])
    else
      var h := UnpackHeader(g, flits[0]);
      if 1 + h.len > |flits| then ([], flits)
      else
        var m := Decode(g, h.opcode, flits[1..1 + h.len]);
        if m.None? then ([], flits)
        else
          var (ms, rest) := Parse(g, flits[1 + h.len..]);
          ([m.value] + ms, rest)
  }

  /** The length field holds the number of flits that follow. */
  predicate LenFits(g: Config, p: Packet) {
    Following(g, p) < Pow2(g.lenWidth)
  }

  /** A mask that is sent fits in a flit. */
  predicate MaskFits(g: Config, p: Packet) {
    Masked(g, p) ==> p.mask < Pow2(g.flitWidth)
  }

  predicate Fits(g: Config, p: Packet) {
    LenFits(g, p) && MaskFits(g, p)
  }

  /** The check the module makes of its parameters, that burst + 1 fits, covers reads and whole-block
      writes; a masked write needs one more. */
  lemma LenFitsExactly(g: Config, p: Packet)
    requires ValidConfig(g)
    ensures LenFits(g, p) <==> !Masked(g, p) || g.burst + 2 < Pow2(g.lenWidth)
    ensures LenCast(g, Following(g, p)) == if LenFits(g, p) then Following(g, p) else 0
  {
    var n := Following(g, p);
    if LenFits(g, p) {
      DivModUnique(n, Pow2(g.lenWidth), 0, n);
    } else {
      DivModUnique(n, Pow2(g.lenWidth), 1, 0);
    }
  }

  lemma HeaderReads(g: Config, p: Packet)
    requires ValidConfig(g)
    ensures UnpackHeader(g, HeaderFlit(g, p)) == HeaderOf(g, p)
    ensures HeaderOf(g, p).len == if LenFits(g, p) then Following(g, p) else 0
    ensures HeaderOf(g, p).opcode == Opcode(g, p)
  {
    hide PackHeader, UnpackHeader, LenCast, Following, Masked, Pow2, LenFits;
    LenFitsExactly(g, p);
    HeaderRoundTrip(g, HeaderOf(g, p));
  }

  /** The network routes by the far end's coordinates, the answer comes back by this end's, and the
      opcode tells the three kinds of packet apart. */
  lemma HeaderRoutes(g: Config, p: Packet)
    requires ValidConfig(g)
    ensures var h := UnpackHeader(g, HeaderFlit(g, p));
            && h.cord == g.dest.cord && h.cid == g.dest.cid
            && h.srcCord == g.mine.cord && h.srcCid == g.mine.cid
            && (h.opcode == 0 <==> !p.write)
            && (h.opcode == 2 <==> p.write && p.mask == Pow2(g.maskWidth) - 1)
            && (h.opcode == 3 <==> p.write && p.mask != Pow2(g.maskWidth) - 1)
  {
    hide UnpackHeader, HeaderFlit, LenCast, Following, Pow2, LenFits, ValidConfig;
    HeaderReads(g, p);
  }

  lemma AddrFits(g: Config, p: Packet)
    requires ValidConfig(g) && ValidPacket(g, p)
    ensures AddrFlit(g, p) == p.addr
    ensures MaskFlit(g, p) == p.mask <==> p.mask < Pow2(g.flitWidth)
  {
    Pow2Monotone(g.addrWidth, g.flitWidth);
    var f := Pow2(g.flitWidth);
    DivModUnique(p.addr, f, 0, p.addr);
    if p.mask < f {
      DivModUnique(p.mask, f, 0, p.mask);
    }
  }

  /** One message decodes to itself exactly when its mask fits. */
  lemma DecodeEncode(g: Config, m: Message)
    requires ValidConfig(g) && ValidMessage(g, m)
    ensures |Encode(g, m)| == 1 + Following(g, m.packet)
    ensures Decode(g, Opcode(g, m.packet), Encode(g, m)[1..]).Some?
    ensures Decode(g, Opcode(g, m.packet), Encode(g, m)[1..]) == Some(m) <==> MaskFits(g, m.packet)
  {
    hide HeaderFlit, AddrFlit, MaskFlit, Pow2;
    AddrFits(g, m.packet);
    var body := Encode(g, m)[1..];
    if Masked(g, m.packet) {
      assert body[2..] == m.data;
    } else {
      assert body[1..] == m.data;
    }
  }

  lemma ParseOne(g: Config, m: Message, rest: seq<Flit>)
    requires ValidConfig(g) && ValidMessage(g, m)
    ensures LenFits(g, m.packet) ==>
              Parse(g, Encode(g, m) + rest) ==
              ([Decode(g, Opcode(g, m.packet), Encode(g, m)[1..]).value] + Parse(g, rest).0, Parse(g, rest).1)
    ensures !LenFits(g, m.packet) ==> Parse(g, Encode(g, m) + rest) == ([], Encode(g, m) + rest)
  {
    hide UnpackHeader, HeaderFlit, AddrFlit, MaskFlit, Decode, Following, Masked, Pow2, LenFits;
    HeaderReads(g, m.packet);
    DecodeEncode(g, m);
    var e, flits := Encode(g, m), Encode(g, m) + rest;
    assert flits[0] == HeaderFlit(g, m.packet);
    var n := UnpackHeader(g, flits[0]).len;
    if LenFits(g, m.packet) {
      assert flits[1..1 + n] == e[1..] && flits[1 + n..] == rest;
    } else {
      assert flits[1..1] == [];
      DecodeNothing(g, UnpackHeader(g, flits[0]).opcode);
    }
  }

  lemma DecodeNothing(g: Config, opcode: nat)
    ensures Decode(g, opcode, []) == None
  {
  }

  /** The stream parses back into the messages, and whatever follows them is left over unchanged, if
      and only if every length and every mask fits its field. A masked write whose length does not
      fit reads as a header with nothing behind it, and the parse is lost there. */
  lemma {:induction false} StreamParsesIff(g: Config, ms: seq<Message>, tail: seq<Flit>)
    requires ValidConfig(g) && forall m :: m in ms ==> ValidMessage(g, m)
    requires Parse(g, tail) == ([], tail)
    ensures Parse(g, EncodeAll(g, ms) + tail) == (ms, tail) <==> forall m :: m in ms ==> Fits(g, m.packet)
  {
    hide ValidConfig, ValidMessage, Parse, Decode, Encode, LenFits, MaskFits;
    if ms == [] {
      assert EncodeAll(g, ms) + tail == tail;
    } else {
      var rest := EncodeAll(g, ms[1..]) + tail;
      assert EncodeAll(g, ms) + tail == Encode(g, ms[0]) + rest;
      ParseOne(g, ms[0], rest);
      DecodeEncode(g, ms[0]);
      StreamParsesIff(g, ms[1..], tail);
      assert ms == [ms[0]] + ms[1..];
      var d := Decode(g, Opcode(g, ms[0].packet), Encode(g, ms[0])[1..]).value;
      if LenFits(g, ms[0].packet) {
        var (more, left) := Parse(g, rest);
        assert ([d] + more)[0] == d && ([d] + more)[1..] == more;
        assert (forall m :: m in ms ==> Fits(g, m.packet)) <==>
               Fits(g, ms[0].packet) && forall m :: m in ms[1..] ==> Fits(g, m.packet);
      } else {
        assert !Fits(g, ms[0].packet);
      }
    }
  }

  // ----- the send side --------------------------------------------------------------

  datatype SendFsm = SEND_RESET | SEND_READY | SEND_ADDR | SEND_MASK | SEND_DATA

  /** accepted, consumed and sent are the histories of the packets and data taken and the flits
      sent; sentMsgs and current say what they amount to: the messages completely sent and, while
      data is being sent, the packet it belongs to. */
  datatype SendState = SendState(
    fsm: SendFsm, count: nat, fifo: seq<Packet>,
    accepted: seq<Packet>, consumed: seq<Flit>, sent: seq<Flit>,
    sentMsgs: seq<Message>, current: Packet)

  datatype SendInput = SendInput(packet: Option<Packet>, data: Option<Flit>, linkReady: bool)

  predicate SendReset(s: SendState) {
    && s.fsm == SEND_RESET && s.count == 0 && s.fifo == [] && s.accepted == []
    && s.consumed == s.sent == [] && s.sentMsgs == []
  }

  /** The flit on the link, if there is one. */
  function LinkFlit(g: Config, s: SendState, i: SendInput): Option<Flit> {
    match s.fsm
    case SEND_RESET => None
    case SEND_READY => if s.fifo != [] then Some(HeaderFlit(g, s.fifo[0])) else None
    case SEND_ADDR => if s.fifo != [] then Some(AddrFlit(g, s.fifo[0])) else None
    case SEND_MASK => if s.fifo != [] then Some(MaskFlit(g, s.fifo[0])) else None
    case SEND_DATA => i.data
  }

  predicate Goes(g: Config, s: SendState, i: SendInput) {
    LinkFlit(g, s, i).Some? && i.linkReady
  }

  /** dma_pkt_yumi_li */
  predicate Dequeues(g: Config, s: SendState, i: SendInput) {
    Goes(g, s, i) && s.fifo != []
    && (s.fsm.SEND_MASK? || (s.fsm.SEND_ADDR? && !Masked(g, s.fifo[0])))
  }

  predicate LastData(g: Config, s: SendState, i: SendInput) {
    s.fsm.SEND_DATA? && Goes(g, s, i) && s.count == g.burst - 1
  }

  function NextSendFsm(g: Config, s: SendState, i: SendInput): SendFsm {
    if s.fsm.SEND_RESET? then SEND_READY
    else if !Goes(g, s, i) then s.fsm
    else match s.fsm
      case SEND_READY => SEND_ADDR
      case SEND_ADDR =>
        if s.fifo != [] && s.fifo[0].write then if Masked(g, s.fifo[0]) then SEND_MASK else SEND_DATA else SEND_READY
      case SEND_MASK => SEND_DATA
      case _ => if LastData(g, s, i) then SEND_READY else SEND_DATA
  }

  function NextSendCount(g: Config, s: SendState, i: SendInput): nat {
    if !(s.fsm.SEND_DATA? && Goes(g, s, i)) then s.count
    else if s.count == g.burst - 1 then 0 else s.count + 1
  }

  /** dma_pkt_yumi_o */
  predicate AcceptsPacket(s: SendState, i: SendInput) {
    i.packet.Some? && |s.fifo| < 2
  }

  function Arrival(s: SendState, i: SendInput): seq<Packet> {
    if AcceptsPacket(s, i) then [i.packet.value] else []
  }

  /** The data consumed after the messages completely sent. */
  function Burst(s: SendState): seq<Flit> {
    if s.count <= |s.consumed| then s.consumed[|s.consumed| - s.count..] else []
  }

  /** The flit sent in this cycle, and the data flit taken for it. */
  function Out(g: Config, s: SendState, i: SendInput): seq<Flit> {
    if Goes(g, s, i) then [LinkFlit(g, s, i).value] else []
  }

  function Eaten(g: Config, s: SendState, i: SendInput): seq<Flit> {
    if s.fsm.SEND_DATA? then Out(g, s, i) else []
  }

  /** The message whose last flit is sent in this cycle. */
  function Finished(g: Config, s: SendState, i: SendInput): seq<Message> {
    if Dequeues(g, s, i) && !s.fifo[0].write then [Message(s.fifo[0], [])]
    else if LastData(g, s, i) then [Message(s.current, Burst(s) + Eaten(g, s, i))]
    else []
  }

  function NextSend(g: Config, s: SendState, i: SendInput): SendState {
    SendState(
      NextSendFsm(g, s, i), NextSendCount(g, s, i),
      (if Dequeues(g, s, i) then s.fifo[1..] else s.fifo) + Arrival(s, i),
      s.accepted + Arrival(s, i), s.consumed + Eaten(g, s, i), s.sent + Out(g, s, i),
      s.sentMsgs + Finished(g, s, i),
      if Dequeues(g, s, i) then s.fifo[0] else s.current)
  }

  // ----- what a run sends ---------------------------------------------------------------

  function PacketsOf(ms: seq<Message>): seq<Packet> {
    if ms == [] then [] else PacketsOf(ms[..|ms| - 1]) + [ms[|ms| - 1].packet]
  }

  function DataOf(ms: seq<Message>): seq<Flit> {
    if ms == [] then [] else DataOf(ms[..|ms| - 1]) + ms[|ms| - 1].data
  }

  lemma PacketsAppend(ms: seq<Message>, m: Message)
    ensures PacketsOf(ms + [m]) == PacketsOf(ms) + [m.packet]
    ensures DataOf(ms + [m]) == DataOf(ms) + m.data
  {
    assert (ms + [m])[..|ms + [m]| - 1] == ms;
  }

  lemma {:induction false} EncodeAppend(g: Config, ms: seq<Message>, m: Message)
    ensures EncodeAll(g, ms + [m]) == EncodeAll(g, ms) + Encode(g, m)
  {
    hide Encode;
    if ms == [] {
      assert ms + [m] == [m] && [m][1..] == [];
      assert EncodeAll(g, [m]) == Encode(g, m) + EncodeAll(g, []);
    } else {
      EncodeAppend(g, ms[1..], m);
      assert (ms + [m])[0] == ms[0] && (ms + [m])[1..] == ms[1..] + [m];
    }
  }

  /** What has been sent of the message under way. */
  function Partial(g: Config, s: SendState): seq<Flit> {
    match s.fsm
    case SEND_ADDR => if s.fifo != [] then [HeaderFlit(g, s.fifo[0])] else []
    case SEND_MASK => if s.fifo != [] then [HeaderFlit(g, s.fifo[0]), AddrFlit(g, s.fifo[0])] else []
    case SEND_DATA => Lead(g, s.current) + Burst(s)
    case _ => []
  }

  /** The packet whose data is being sent. */
  function UnderWay(s: SendState): seq<Packet> {
    if s.fsm.SEND_DATA? then [s.current] else []
  }

  /** Control state. */
  predicate SendShape(g: Config, s: SendState) {
    && s.count < g.burst && (!s.fsm.SEND_DATA? ==> s.count == 0) && s.count <= |s.consumed|
    && (s.fsm.SEND_ADDR? || s.fsm.SEND_MASK? ==> s.fifo != [])
    && (s.fsm.SEND_MASK? ==> Masked(g, s.fifo[0]))
    && (s.fsm.SEND_DATA? ==> s.current.write)
    && |s.fifo| <= 2
  }

  /** The flits sent are the encodings of the messages sent and the beginning of the next; every
      packet accepted and every data flit consumed is in exactly one of them, in order. */
  predicate SendInv(g: Config, s: SendState) {
    && SendShape(g, s)
    && s.sent == EncodeAll(g, s.sentMsgs) + Partial(g, s)
    && s.accepted == PacketsOf(s.sentMsgs) + UnderWay(s) + s.fifo
    && s.consumed == DataOf(s.sentMsgs) + Burst(s)
    && forall m :: m in s.sentMsgs ==> |m.data| == if m.packet.write then g.burst else 0
  }

  lemma StepShape(g: Config, s: SendState, i: SendInput)
    requires g.burst >= 1 && SendShape(g, s)
    ensures SendShape(g, NextSend(g, s, i))
  {
    hide HeaderFlit, AddrFlit, MaskFlit;
  }

  lemma StepPartialData(g: Config, s: SendState, i: SendInput)
    requires g.burst >= 1 && SendShape(g, s) && s.fsm.SEND_DATA?
    ensures var m := Finished(g, s, i);
            Partial(g, s) + Out(g, s, i) == (if m != [] then Encode(g, m[0]) else []) + Partial(g, NextSend(g, s, i))
  {
    hide Lead, Goes;
    BurstStep(g, s, i);
    assert Lead(g, s.current) + Burst(s) + Out(g, s, i) == Lead(g, s.current) + (Burst(s) + Out(g, s, i));
  }

  /** One cycle, seen as a stream of flits, of data and of packets. */
  lemma StepPartial(g: Config, s: SendState, i: SendInput)
    requires g.burst >= 1 && SendShape(g, s)
    ensures var m := Finished(g, s, i);
            Partial(g, s) + Out(g, s, i) == (if m != [] then Encode(g, m[0]) else []) + Partial(g, NextSend(g, s, i))
  {
    hide HeaderFlit, AddrFlit, MaskFlit;
    if s.fsm.SEND_DATA? {
      StepPartialData(g, s, i);
    }
  }

  lemma BurstStep(g: Config, s: SendState, i: SendInput)
    requires g.burst >= 1 && SendShape(g, s)
    ensures var m := Finished(g, s, i);
            Burst(s) + Eaten(g, s, i) == (if m != [] then m[0].data else []) + Burst(NextSend(g, s, i))
    ensures var m := Finished(g, s, i);
            m != [] ==> |m[0].data| == if m[0].packet.write then g.burst else 0
    ensures |Burst(s)| == s.count
  {
    hide HeaderFlit, AddrFlit, MaskFlit;
  }

  /** The packets that stay in the FIFO. */
  function Waiting(g: Config, s: SendState, i: SendInput): seq<Packet> {
    if Dequeues(g, s, i) then s.fifo[1..] else s.fifo
  }

  lemma PacketMoves(g: Config, s: SendState, i: SendInput)
    requires g.burst >= 1 && SendShape(g, s)
    ensures var m, s' := Finished(g, s, i), NextSend(g, s, i);
            UnderWay(s) + s.fifo == (if m != [] then [m[0].packet] else []) + UnderWay(s') + Waiting(g, s, i)
    ensures NextSend(g, s, i).fifo == Waiting(g, s, i) + Arrival(s, i)
  {
    hide HeaderFlit, AddrFlit, MaskFlit, Arrival, Burst, Eaten, Out, LinkFlit;
    assert Dequeues(g, s, i) ==> s.fifo == [s.fifo[0]] + s.fifo[1..];
  }

  lemma PacketStep(g: Config, s: SendState, i: SendInput)
    requires g.burst >= 1 && SendShape(g, s)
    ensures var m, s' := Finished(g, s, i), NextSend(g, s, i);
            UnderWay(s) + s.fifo + Arrival(s, i) == (if m != [] then [m[0].packet] else []) + UnderWay(s') + s'.fifo
  {
    hide Finished, NextSend, UnderWay, Arrival, Waiting, SendShape;
    PacketMoves(g, s, i);
    var m, s' := Finished(g, s, i), NextSend(g, s, i);
    var front := (if m != [] then [m[0].packet] else []) + UnderWay(s');
    assert front + Waiting(g, s, i) + Arrival(s, i) == front + (Waiting(g, s, i) + Arrival(s, i));
  }

  lemma StepSend(g: Config, s: SendState, i: SendInput)
    requires g.burst >= 1 && SendInv(g, s)
    ensures SendInv(g, NextSend(g, s, i))
  {
    hide EncodeAll, PacketsOf, DataOf, Finished, Out, Eaten, Arrival, Partial, UnderWay, Burst, SendShape,
      NextSendFsm, NextSendCount, Dequeues, Encode;
    StepShape(g, s, i);
    StepPartial(g, s, i);
    BurstStep(g, s, i);
    PacketStep(g, s, i);
    FinishedOne(g, s, i);
    var s', m := NextSend(g, s, i), Finished(g, s, i);
    if m != [] {
      EncodeAppend(g, s.sentMsgs, m[0]);
      PacketsAppend(s.sentMsgs, m[0]);
    } else {
      assert s'.sentMsgs == s.sentMsgs;
    }
    Rejoin(EncodeAll(g, s.sentMsgs), Partial(g, s), Out(g, s, i), if m != [] then Encode(g, m[0]) else [], Partial(g, s'));
    Rejoin(DataOf(s.sentMsgs), Burst(s), Eaten(g, s, i), if m != [] then m[0].data else [], Burst(s'));
    RejoinThree(PacketsOf(s.sentMsgs), UnderWay(s), s.fifo, Arrival(s, i), if m != [] then [m[0].packet] else [],
                UnderWay(s'), s'.fifo);
  }

  lemma RejoinThree<T>(all: seq<T>, u: seq<T>, f: seq<T>, more: seq<T>, finished: seq<T>, u': seq<T>, f': seq<T>)
    requires u + f + more == finished + u' + f'
    ensures all + u + f + more == all + finished + u' + f'
  {
    assert all + u + f + more == all + (u + f + more);
    assert all + finished + u' + f' == all + (finished + u' + f');
  }

  /** What was under way and what is new regroup into what is finished and what is under way now. */
  lemma Rejoin<T>(all: seq<T>, partial: seq<T>, more: seq<T>, finished: seq<T>, left: seq<T>)
    requires partial + more == finished + left
    ensures all + partial + more == all + finished + left
  {
    assert all + partial + more == all + (partial + more);
    assert all + finished + left == all + (finished + left);
  }

  lemma FinishedOne(g: Config, s: SendState, i: SendInput)
    ensures var m := Finished(g, s, i);
            m == [] || m == [m[0]]
  {
  }

  function SendAfter(g: Config, s: SendState, ins: seq<SendInput>): SendState
    decreases ins
  {
    if ins == [] then s else SendAfter(g, NextSend(g, s, ins[0]), ins[1..])
  }

  predicate OffersValid(g: Config, ins: seq<SendInput>) {
    forall k :: 0 <= k < |ins| && ins[k].packet.Some? ==> ValidPacket(g, ins[k].packet.value)
  }

  predicate AllValid(g: Config, ps: seq<Packet>) {
    forall p :: p in ps ==> ValidPacket(g, p)
  }

  lemma {:induction false} RunSend(g: Config, s: SendState, ins: seq<SendInput>)
    requires g.burst >= 1 && SendInv(g, s) && OffersValid(g, ins) && AllValid(g, s.accepted)
    ensures SendInv(g, SendAfter(g, s, ins)) && AllValid(g, SendAfter(g, s, ins).accepted)
    decreases ins
  {
    hide SendInv, ValidPacket, NextSendFsm, NextSendCount, Out, Eaten, Finished, Dequeues;
    if ins != [] {
      StepSend(g, s, ins[0]);
      assert ins[0].packet.Some? ==> ValidPacket(g, ins[0].packet.value);
      RunSend(g, NextSend(g, s, ins[0]), ins[1..]);
    }
  }

  lemma {:induction false} PacketListed(ms: seq<Message>, m: Message)
    requires m in ms
    ensures m.packet in PacketsOf(ms)
  {
    var last := ms[|ms| - 1];
    if m != last {
      assert ms == ms[..|ms| - 1] + [last];
      PacketListed(ms[..|ms| - 1], m);
    }
  }

  /** The beginning of a message never reads as a whole one. */
  lemma PartialIsRest(g: Config, s: SendState)
    requires ValidConfig(g) && SendShape(g, s)
    ensures Parse(g, Partial(g, s)) == ([], Partial(g, s))
  {
    hide UnpackHeader, HeaderFlit, AddrFlit, MaskFlit, Decode, Pow2, LenFits;
    var part := Partial(g, s);
    if part != [] {
      var p := if s.fsm.SEND_DATA? then s.current else s.fifo[0];
      assert part[0] == HeaderFlit(g, p);
      HeaderReads(g, p);
      DecodeNothing(g, UnpackHeader(g, part[0]).opcode);
      assert part[1..1] == [];
      assert |part| < 1 + Following(g, p);
    }
  }

  /** Over any run from reset, under any stalls, the flits sent parse by their headers' length fields
      into exactly the messages sent and the beginning of the one under way, if and only if every
      length and mask sent fits; and those messages are the packets and data the cache handed over,
      in order. */
  lemma SentParsesIff(g: Config, s: SendState, ins: seq<SendInput>)
    requires ValidConfig(g) && SendReset(s) && OffersValid(g, ins)
    ensures var e := SendAfter(g, s, ins);
            && (Parse(g, e.sent) == (e.sentMsgs, Partial(g, e)) <==> forall m :: m in e.sentMsgs ==> Fits(g, m.packet))
            && e.accepted == PacketsOf(e.sentMsgs) + UnderWay(e) + e.fifo
            && e.consumed == DataOf(e.sentMsgs) + Burst(e)
  {
    hide SendAfter, OffersValid, Partial, Parse, Fits, SendShape, UnderWay, Burst, ValidConfig, ValidPacket;
    ResetSend(g, s);
    RunSend(g, s, ins);
    var e := SendAfter(g, s, ins);
    PartialIsRest(g, e);
    forall m | m in e.sentMsgs ensures ValidMessage(g, m) {
      PacketListed(e.sentMsgs, m);
      assert m.packet in e.accepted;
    }
    StreamParsesIff(g, e.sentMsgs, Partial(g, e));
  }

  lemma ResetSend(g: Config, s: SendState)
    requires ValidConfig(g) && SendReset(s)
    ensures g.burst >= 1 && SendInv(g, s) && AllValid(g, s.accepted)
  {
  }

  /** A length field one count wider than the module checks for, and flits at least as wide as the
      mask, are enough for every run. */
  lemma WideEnough(g: Config, s: SendState, ins: seq<SendInput>)
    requires ValidConfig(g) && g.burst + 2 < Pow2(g.lenWidth) && g.maskWidth <= g.flitWidth
    requires SendReset(s) && OffersValid(g, ins)
    ensures var e := SendAfter(g, s, ins);
            Parse(g, e.sent) == (e.sentMsgs, Partial(g, e))
  {
    hide SendAfter, OffersValid, Partial, Parse, SendShape, UnderWay, Burst, ValidConfig;
    ResetSend(g, s);
    RunSend(g, s, ins);
    SentParsesIff(g, s, ins);
    var e := SendAfter(g, s, ins);
    Pow2Monotone(g.maskWidth, g.flitWidth);
    forall m | m in e.sentMsgs ensures Fits(g, m.packet) {
      PacketListed(e.sentMsgs, m);
      assert m.packet in e.accepted;
      LenFitsExactly(g, m.packet);
    }
  }

  /** A configuration that passes the module's checks and whose masked writes announce no flits. */
  lemma CheckedButTooNarrow() returns (g: Config, p: Packet)
    ensures ValidConfig(g) && ValidPacket(g, p) && Masked(g, p)
    ensures UnpackHeader(g, HeaderFlit(g, p)).len == 0 && Following(g, p) == 4
  {
    hide UnpackHeader, HeaderFlit;
    g := Config(2, 8, 6, 8, 2, 1, 1, End(0, 0), End(1, 0));
    p := Packet(true, 0, 1);
    assert Pow2(2) == 4 && Pow2(6) == 64;
    HeaderReads(g, p);
  }

  // ----- the receive side ----------------------------------------------------------------

  datatype RecvFsm = RECV_RESET | RECV_READY | RECV_DATA

  /** arrived, taken and delivered are the histories of the flits that came over the link, that left
      the return FIFO, and that the cache took as data. */
  datatype RecvState = RecvState(
    fsm: RecvFsm, count: nat, fifo: seq<Flit>, arrived: seq<Flit>, taken: seq<Flit>, delivered: seq<Flit>)

  datatype RecvInput = RecvInput(flit: Option<Flit>, ready: bool)

  predicate RecvReset(s: RecvState) {
    && s.fsm == RECV_RESET && s.count == 0 && s.fifo == [] && s.arrived == s.taken == s.delivered == []
  }

  /** The flit at the FSM's side of the return FIFO, or of the link when there is no FIFO. */
  function Returned(buffered: bool, s: RecvState, i: RecvInput): Option<Flit> {
    if !buffered then i.flit else if s.fifo != [] then Some(s.fifo[0]) else None
  }

  predicate FsmReady(s: RecvState, i: RecvInput) {
    s.fsm.RECV_READY? || (s.fsm.RECV_DATA? && i.ready)
  }

  function Take(buffered: bool, s: RecvState, i: RecvInput): seq<Flit> {
    if FsmReady(s, i) && Returned(buffered, s, i).Some? then [Returned(buffered, s, i).value] else []
  }

  function Arrive(buffered: bool, s: RecvState, i: RecvInput): seq<Flit> {
    if i.flit.Some? && (if buffered then |s.fifo| < 2 else FsmReady(s, i)) then [i.flit.value] else []
  }

  function NextRecv(g: Config, buffered: bool, s: RecvState, i: RecvInput): RecvState {
    var take, arrive := Take(buffered, s, i), Arrive(buffered, s, i);
    var last := s.fsm.RECV_DATA? && take != [] && s.count == g.burst - 1;
    RecvState(
      match s.fsm
      case RECV_RESET => RECV_READY
      case RECV_READY => if take != [] then RECV_DATA else RECV_READY
      case RECV_DATA => if last then RECV_READY else RECV_DATA,
      if s.fsm.RECV_DATA? && take != [] then if last then 0 else s.count + 1 else s.count,
      if buffered then (if take != [] then s.fifo[1..] else s.fifo) + arrive else s.fifo,
      s.arrived + arrive, s.taken + take,
      if s.fsm.RECV_DATA? then s.delivered + take else s.delivered)
  }

  function RecvAfter(g: Config, buffered: bool, s: RecvState, ins: seq<RecvInput>): RecvState
    decreases ins
  {
    if ins == [] then s else RecvAfter(g, buffered, NextRecv(g, buffered, s, ins[0]), ins[1..])
  }

  /** A stream of packets of one header and burst data flits, without the headers. */
  function Strip(burst: nat, flits: seq<Flit>): seq<Flit> {
    if flits == [] then []
    else if |flits| <= 1 + burst then flits[1..]
    else flits[1..1 + burst] + Strip(burst, flits[1 + burst..])
  }

  /** How far into a packet a stream of n flits ends. */
  function Place(burst: nat, n: nat): nat {
    if n < 1 + burst then n else Place(burst, n - (1 + burst))
  }

  lemma {:induction false} PlaceNext(burst: nat, n: nat)
    ensures Place(burst, n) <= burst
    ensures Place(burst, n + 1) == if Place(burst, n) == burst then 0 else Place(burst, n) + 1
    decreases n
  {
    if n >= 1 + burst {
      PlaceNext(burst, n - (1 + burst));
    }
  }

  lemma StripCut(burst: nat, flits: seq<Flit>)
    requires |flits| > 1 + burst
    ensures Strip(burst, flits) == flits[1..1 + burst] + Strip(burst, flits[1 + burst..])
    ensures Place(burst, |flits|) == Place(burst, |flits[1 + burst..]|)
  {
  }

  /** Within the first packet, and for the next one's header. */
  lemma StripFirst(burst: nat, flits: seq<Flit>, f: Flit)
    requires burst >= 1 && |flits| <= 1 + burst
    ensures Strip(burst, flits + [f]) == Strip(burst, flits) + if Place(burst, |flits|) == 0 then [] else [f]
  {
    var n := 1 + burst;
    if |flits| == n {
      assert (flits + [f])[n..] == [f] && (flits + [f])[1..n] == flits[1..];
      assert Strip(burst, [f]) == [];
    } else if flits != [] {
      assert (flits + [f])[1..] == flits[1..] + [f];
    }
  }

  /** One more flit is a header or one more flit of data. */
  lemma {:induction false} StripNext(burst: nat, flits: seq<Flit>, f: Flit)
    requires burst >= 1
    ensures Strip(burst, flits + [f]) == Strip(burst, flits) + if Place(burst, |flits|) == 0 then [] else [f]
    decreases |flits|
  {
    hide Strip, Place;
    var n := 1 + burst;
    if |flits| > n {
      assert (flits + [f])[n..] == flits[n..] + [f];
      assert (flits + [f])[1..n] == flits[1..n];
      StripCut(burst, flits);
      StripCut(burst, flits + [f]);
      StripNext(burst, flits[n..], f);
    } else {
      StripFirst(burst, flits, f);
    }
  }

  predicate RecvInv(g: Config, buffered: bool, s: RecvState) {
    && s.arrived == s.taken + (if buffered then s.fifo else []) && |s.fifo| <= 2
    && Place(g.burst, |s.taken|) == (if s.fsm.RECV_DATA? then 1 + s.count else 0)
    && s.count < g.burst && (!s.fsm.RECV_DATA? ==> s.count == 0)
    && s.delivered == Strip(g.burst, s.taken)
  }

  /** The return FIFO neither loses nor reorders a flit. */
  lemma StepReturned(g: Config, buffered: bool, s: RecvState, i: RecvInput)
    requires s.arrived == s.taken + (if buffered then s.fifo else []) && |s.fifo| <= 2
    ensures var s' := NextRecv(g, buffered, s, i);
            s'.arrived == s'.taken + (if buffered then s'.fifo else []) && |s'.fifo| <= 2
  {
    hide FsmReady;
    if Take(buffered, s, i) != [] && buffered {
      assert s.fifo == [s.fifo[0]] + s.fifo[1..];
    }
  }

  lemma TakesOne(buffered: bool, s: RecvState, i: RecvInput)
    ensures var take := Take(buffered, s, i);
            && (take == [] || (|take| == 1 && take == [take[0]]))
            && (s.fsm.RECV_RESET? ==> take == [])
  {
  }

  lemma StepRecv(g: Config, buffered: bool, s: RecvState, i: RecvInput)
    requires g.burst >= 1 && RecvInv(g, buffered, s)
    ensures RecvInv(g, buffered, NextRecv(g, buffered, s, i))
  {
    hide Place, Strip, Take, Arrive;
    var take := Take(buffered, s, i);
    StepReturned(g, buffered, s, i);
    TakesOne(buffered, s, i);
    PlaceNext(g.burst, |s.taken|);
    if take != [] {
      StripNext(g.burst, s.taken, take[0]);
      assert s.taken + take == s.taken + [take[0]];
    } else {
      assert s.taken + take == s.taken;
    }
  }

  lemma {:induction false} RunRecv(g: Config, buffered: bool, s: RecvState, ins: seq<RecvInput>)
    requires g.burst >= 1 && RecvInv(g, buffered, s)
    ensures RecvInv(g, buffered, RecvAfter(g, buffered, s, ins))
    decreases ins
  {
    hide RecvInv, NextRecv;
    if ins != [] {
      StepRecv(g, buffered, s, ins[0]);
      RunRecv(g, buffered, NextRecv(g, buffered, s, ins[0]), ins[1..]);
    }
  }

  /** A packet coming back: a header and burst flits of data. */
  datatype Reply = Reply(header: Flit, payload: seq<Flit>)

  function Wire(rs: seq<Reply>): seq<Flit> {
    if rs == [] then [] else [rs[0].header] + rs[0].payload + Wire(rs[1..])
  }

  function Payloads(rs: seq<Reply>): seq<Flit> {
    if rs == [] then [] else rs[0].payload + Payloads(rs[1..])
  }

  lemma {:induction false} StripWire(burst: nat, rs: seq<Reply>)
    requires forall r :: r in rs ==> |r.payload| == burst
    ensures Strip(burst, Wire(rs)) == Payloads(rs)
  {
    if rs != [] {
      StripWire(burst, rs[1..]);
      var w, n := Wire(rs), 1 + burst;
      assert rs[0] in rs;
      assert w[1..n] == rs[0].payload && w[n..] == Wire(rs[1..]);
    }
  }

  /** Over any run from reset, under any stalls and with or without the return FIFO, what the cache
      takes is what came over the link with the header of every packet stripped; once the replies rs
      have passed, exactly their payloads, in order. */
  lemma DeliversPayloads(g: Config, buffered: bool, s: RecvState, ins: seq<RecvInput>, rs: seq<Reply>)
    requires g.burst >= 1 && RecvReset(s) && forall r :: r in rs ==> |r.payload| == g.burst
    ensures var e := RecvAfter(g, buffered, s, ins);
            && e.delivered == Strip(g.burst, e.taken)
            && e.arrived == e.taken + (if buffered then e.fifo else []) && |e.fifo| <= 2
            && (e.taken == Wire(rs) ==> e.delivered == Payloads(rs))
  {
    hide RecvAfter, Strip, Payloads, Wire;
    RecvStart(g, buffered, s);
    RunRecv(g, buffered, s, ins);
    StripWire(g.burst, rs);
  }

  lemma RecvStart(g: Config, buffered: bool, s: RecvState)
    requires g.burst >= 1 && RecvReset(s)
    ensures RecvInv(g, buffered, s)
  {
  }

  // ----- the registers ---------------------------------------------------------------------

  class DmaToWormhole {
    const g: Config
    const buffered: bool
    var sendFsm: SendFsm
    var sendCount: nat
    var packets: seq<Packet>
    var recvFsm: RecvFsm
    var recvCount: nat
    var returned: seq<Flit>
    ghost var out: SendState
    ghost var back: RecvState

    /** out and back add the histories to the registers. */
    ghost predicate Valid()
      reads this
    {
      && ValidConfig(g) && SendInv(g, out) && RecvInv(g, buffered, back)
      && out.fsm == sendFsm && out.count == sendCount && out.fifo == packets
      && back.fsm == recvFsm && back.count == recvCount && back.fifo == returned
    }

    constructor (g: Config, buffered: bool)
      requires ValidConfig(g)
      ensures Valid() && this.g == g && this.buffered == buffered && SendReset(out) && RecvReset(back)
    {
      this.g, this.buffered := g, buffered;
      sendFsm, sendCount, packets := SEND_RESET, 0, [];
      recvFsm, recvCount, returned := RECV_RESET, 0, [];
      out := SendState(SEND_RESET, 0, [], [], [], [], [], Packet(false, 0, 0));
      back := RecvState(RECV_RESET, 0, [], [], [], []);
      new;
      ResetSend(g, out);
      RecvStart(g, buffered, back);
    }

    /** One clock edge of the send side; flit is what the link carries before it. */
    method SendClock(i: SendInput) returns (flit: Option<Flit>)
      requires Valid()
      modifies this`sendFsm, this`sendCount, this`packets, this`out
      ensures Valid() && out == NextSend(g, old(out), i)
      ensures flit == LinkFlit(g, old(out), i)
    {
      hide SendInv, RecvInv, ValidConfig, HeaderFlit, AddrFlit, MaskFlit;
      ShapeOf(g, out);
      StepSend(g, out, i);
      out := NextSend(g, out, i);
      var dequeue, arrive := false, i.packet.Some? && |packets| < 2;
      flit := None;
      match sendFsm {
        case SEND_RESET =>
          sendFsm := SEND_READY;
        case SEND_READY =>
          if packets != [] {
            flit := Some(HeaderFlit(g, packets[0]));
            if i.linkReady {
              sendFsm := SEND_ADDR;
            }
          }
        case SEND_ADDR =>
          flit := Some(AddrFlit(g, packets[0]));
          if i.linkReady {
            dequeue := !Masked(g, packets[0]);
            sendFsm := if !packets[0].write then SEND_READY else if Masked(g, packets[0]) then SEND_MASK else SEND_DATA;
          }
        case SEND_MASK =>
          flit := Some(MaskFlit(g, packets[0]));
          if i.linkReady {
            dequeue := true;
            sendFsm := SEND_DATA;
          }
        case SEND_DATA =>
          flit := i.data;
          if i.data.Some? && i.linkReady {
            if sendCount == g.burst - 1 {
              sendFsm, sendCount := SEND_READY, 0;
            } else {
              sendCount := sendCount + 1;
            }
          }
      }
      packets := (if dequeue then packets[1..] else packets) + if arrive then [i.packet.value] else [];
    }

    /** The return FIFO, if there is one. */
    method ClockReturned(pop: bool, flit: Option<Flit>)
      requires pop && buffered ==> returned != []
      modifies this`returned
      ensures returned == if !buffered then old(returned)
                          else (if pop then old(returned)[1..] else old(returned))
                               + (if flit.Some? && |old(returned)| < 2 then [flit.value] else [])
    {
      if buffered {
        var arrive := flit.Some? && |returned| < 2;
        returned := (if pop then returned[1..] else returned) + if arrive then [flit.value] else [];
      }
    }

    /** The receiving state machine; pop says that it takes a flit. */
    method ClockRecvFsm(pop: bool)
      requires recvFsm == RECV_RESET ==> !pop
      modifies this`recvFsm, this`recvCount
      ensures (recvFsm, recvCount) == RecvControl(g, old(recvFsm), old(recvCount), pop)
    {
      if recvFsm == RECV_RESET {
        recvFsm := RECV_READY;
      } else if pop {
        if recvFsm == RECV_READY {
          recvFsm := RECV_DATA;
        } else if recvCount == g.burst - 1 {
          recvFsm, recvCount := RECV_READY, 0;
        } else {
          recvCount := recvCount + 1;
        }
      }
    }

    /** One clock edge of the receive side; data is what the cache sees before it. */
    method RecvClock(i: RecvInput) returns (data: Option<Flit>)
      requires Valid()
      modifies this`recvFsm, this`recvCount, this`returned, this`back
      ensures Valid() && back == NextRecv(g, buffered, old(back), i)
      ensures data == if old(recvFsm) == RECV_DATA then Returned(buffered, old(back), i) else None
    {
      hide SendInv, RecvInv, ValidConfig, NextRecv, RecvControl;
      BurstPositive(g);
      StepRecv(g, buffered, back, i);
      RecvNextIs(g, buffered, back, i);
      back := NextRecv(g, buffered, back, i);
      var head := if !buffered then i.flit else if returned != [] then Some(returned[0]) else None;
      data := if recvFsm == RECV_DATA then head else None;
      var ready := recvFsm == RECV_READY || (recvFsm == RECV_DATA && i.ready);
      ClockReturned(ready && head.Some?, i.flit);
      ClockRecvFsm(ready && head.Some?);
    }
  }

  function RecvControl(g: Config, fsm: RecvFsm, count: nat, pop: bool): (RecvFsm, nat) {
    var last := pop && fsm.RECV_DATA? && count == g.burst - 1;
    (match fsm
     case RECV_RESET => RECV_READY
     case RECV_READY => if pop then RECV_DATA else RECV_READY
     case RECV_DATA => if last then RECV_READY else RECV_DATA,
     if fsm.RECV_DATA? && pop then if last then 0 else count + 1 else count)
  }

  lemma RecvNextIs(g: Config, buffered: bool, s: RecvState, i: RecvInput)
    ensures var s', pop := NextRecv(g, buffered, s, i), FsmReady(s, i) && Returned(buffered, s, i).Some?;
            && (s'.fsm, s'.count) == RecvControl(g, s.fsm, s.count, pop)
            && s'.fifo == if !buffered then s.fifo
                          else (if pop then s.fifo[1..] else s.fifo)
                               + (if i.flit.Some? && |s.fifo| < 2 then [i.flit.value] else [])
  {
  }

  lemma BurstPositive(g: Config)
    requires ValidConfig(g)
    ensures g.burst >= 1
  {
  }

  lemma ShapeOf(g: Config, s: SendState)
    requires ValidConfig(g) && SendInv(g, s)
    ensures g.burst >= 1 && SendShape(g, s)
  {
  }
}
