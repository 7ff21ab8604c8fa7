/** Store-to-load forwarding: what a load or atomic that hits sees of the stores before it, some of
    which are still in the store buffer or retiring. */
module CacheForward {
  import opened Wrappers
  import opened CacheBufferQueue
  import P = CachePipeline
  import D = CacheDma
  import M = CacheMiss

  type Byte = bv8
  type Word = seq<Byte>

  /** What packets mean: the word address, the byte mask and the data they store, which for an atomic
      depends on the word it loaded. */
  datatype Meaning = Meaning(addr: int -> nat, mask: int -> seq<bool>, data: (int, Word) -> Word)

  /** A store buffer entry. */
  datatype Entry = Entry(addr: nat, data: Word, mask: seq<bool>)

  type Memory = map<nat, Word>

  function Read(m: Memory, a: nat): Word {
    if a in m then m[a] else []
  }

  /** The entry writes byte j. */
  predicate Covers(e: Entry, j: nat) {
    j < |e.mask| && e.mask[j] && j < |e.data|
  }

  function Merge(w: Word, e: Entry): (r: Word)
    ensures |r| == |w|
  {
    seq(|w|, j requires 0 <= j < |w| => if Covers(e, j) then e.data[j] else w[j])
  }

  /** The word at a after the entries, oldest first. */
  function Fold(w: Word, es: seq<Entry>, a: nat): (r: Word)
    ensures |r| == |w|
    decreases |es|
  {
    if es == [] then w else Fold(if es[0].addr == a then Merge(w, es[0]) else w, es[1..], a)
  }

  // ----- the bypass network -----------------------------------------------------

  /** bypass_mask and bypass_data: registered when a load leaves TL. */
  datatype Bypass = Bypass(mask: seq<bool>, data: Word)

  predicate Hit(valid: bool, e: Entry, a: nat, j: nat) {
    valid && e.addr == a && Covers(e, j)
  }

  /** The three comparators and the merging muxes: el1 is the older entry, then el0, then the one
      being inserted. */
  function Forward(q: Queue<Entry>, v: bool, entering: Entry, a: nat, n: nat): (b: Bypass)
    ensures |b.mask| == |b.data| == n
  {
    var hit0, hit1 := q.num == 2, q.num == 1 || q.num == 2;
    Bypass(
      seq(n, j requires 0 <= j < n => Hit(hit0, q.el0, a, j) || Hit(hit1, q.el1, a, j) || Hit(v, entering, a, j)),
      seq(n, j requires 0 <= j < n =>
        if Hit(v, entering, a, j) then entering.data[j]
        else if Hit(hit0, q.el0, a, j) then q.el0.data[j]
        else if j < |q.el1.data| then q.el1.data[j] else 0))
  }

  /** bypass_data_masked */
  function Overlay(w: Word, b: Bypass): (r: Word)
    ensures |r| == |w|
  {
    seq(|w|, j requires 0 <= j < |w| => if j < |b.mask| && b.mask[j] && j < |b.data| then b.data[j] else w[j])
  }

  /** Forwarding from the buffer and from the entry being inserted is applying them all, in order. */
  lemma ForwardIsFold(q: Queue<Entry>, v: bool, entering: Entry, a: nat, w: Word)
    requires q.num <= 2
    ensures Overlay(w, Forward(q, v, entering, a, |w|)) == Fold(w, Offered(q, v, entering), a)
  {
    hide ByteAfter, Fold, Forward, Overlay;
    var over, es := Overlay(w, Forward(q, v, entering, a, |w|)), Offered(q, v, entering);
    forall j | 0 <= j < |w| ensures over[j] == Fold(w, es, a)[j] {
      FoldByte(w, es, a, j);
      ForwardByte(q, v, entering, a, w, j);
    }
  }

  lemma ForwardByte(q: Queue<Entry>, v: bool, entering: Entry, a: nat, w: Word, j: nat)
    requires q.num <= 2 && j < |w|
    ensures Overlay(w, Forward(q, v, entering, a, |w|))[j] == ByteAfter(w[j], Offered(q, v, entering), a, j)
  {
    hide ByteAfter;
    var held := Contents(q);
    HeldByte(q, a, w[j], j);
    if v {
      ByteAfterSnoc(w[j], held, entering, a, j);
    } else {
      assert held + [] == held;
    }
  }

  lemma HeldByte(q: Queue<Entry>, a: nat, b: Byte, j: nat)
    requires q.num <= 2
    ensures ByteAfter(b, Contents(q), a, j) ==
            if Hit(q.num == 2, q.el0, a, j) then q.el0.data[j]
            else if Hit(q.num >= 1, q.el1, a, j) then q.el1.data[j] else b
  {
    hide ByteAfter, Covers;
    ByteAfterNone(b, a, j);
    ByteAfterSnoc(b, [], q.el1, a, j);
    ByteAfterSnoc(b, [q.el1], q.el0, a, j);
    assert [] + [q.el1] == [q.el1] && [q.el1] + [q.el0] == [q.el1, q.el0];
  }

  /** Byte j comes from the youngest entry that writes it. */
  function ByteAfter(b: Byte, es: seq<Entry>, a: nat, j: nat): Byte {
    if es == [] then b
    else
      var last := es[|es| - 1];
      if Hit(true, last, a, j) then last.data[j] else ByteAfter(b, es[..|es| - 1], a, j)
  }

  lemma ByteAfterNone(b: Byte, a: nat, j: nat)
    ensures ByteAfter(b, [], a, j) == b
  {
  }

  lemma ByteAfterSnoc(b: Byte, es: seq<Entry>, e: Entry, a: nat, j: nat)
    ensures ByteAfter(b, es + [e], a, j) == if Hit(true, e, a, j) then e.data[j] else ByteAfter(b, es, a, j)
  {
    hide Covers;
    assert (es + [e])[..|es + [e]| - 1] == es;
  }

  lemma {:induction false} FoldSnoc(w: Word, es: seq<Entry>, e: Entry, a: nat)
    ensures Fold(w, es + [e], a) == if e.addr == a then Merge(Fold(w, es, a), e) else Fold(w, es, a)
    decreases |es|
  {
    hide Merge;
    if es == [] {
      assert es + [e] == [e] && [e][1..] == [];
    } else {
      assert (es + [e])[0] == es[0] && (es + [e])[1..] == es[1..] + [e];
      FoldSnoc(if es[0].addr == a then Merge(w, es[0]) else w, es[1..], e, a);
    }
  }

  lemma {:induction false} FoldByte(w: Word, es: seq<Entry>, a: nat, j: nat)
    requires j < |w|
    ensures Fold(w, es, a)[j] == ByteAfter(w[j], es, a, j)
    decreases |es|
  {
    if es != [] {
      var before, last := es[..|es| - 1], es[|es| - 1];
      assert es == before + [last];
      FoldByte(w, before, a, j);
      FoldSnoc(w, before, last, a);
    }
  }

  // ----- the machine with its data -------------------------------------------------

  /** dmem: the data memory by word; rdata: what it last read; loaded and bypass: the registers loaded
      with the packet that enters TV; buffer: the store buffer's entries; memory: the stores retired
      and blocks filled so far, applied in order; returned: what retired loads and atomics that did
      not miss gave, with what they should have. */
  datatype State = State(
    sys: M.State, dmem: Memory, rdata: Word, loaded: Word, bypass: Bypass, buffer: Queue<Entry>,
    memory: Memory, returned: seq<(Word, Word)>)

  /** snoop: what a missing load or atomic gets; fill: words that the DMA engine writes in a cycle in
      which it uses the data memory, and output what the memory then shows. */
  datatype Input = Input(ctl: M.Input, snoop: Word, fill: Memory, output: Word)

  function LoadValue(s: State, i: Input): Word {
    if s.sys.missing then i.snoop else Overlay(s.loaded, s.bypass)
  }

  /** The entry the packet in TV makes. */
  function Entering(m: Meaning, s: State, i: Input): Entry {
    if s.sys.pipe.tv.Some? then
      var body := s.sys.pipe.tv.value.body;
      Entry(m.addr(body), m.data(body, LoadValue(s, i)), m.mask(body))
    else Entry(0, [], [])
  }

  function Address(m: Meaning, p: Option<P.Packet>): nat {
    if p.Some? then m.addr(p.value.body) else 0
  }

  predicate Loads(p: Option<P.Packet>) {
    p.Some? && P.ReadsData(p.value.kind)
  }

  function Write(mem: Memory, e: Entry): Memory {
    mem[e.addr := Merge(Read(mem, e.addr), e)]
  }

  function NextDmem(c: P.Cycle, drains: bool, out: Entry, dmem: Memory, fill: Memory): Memory {
    if drains then Write(dmem, out) else if c.dmaData then dmem + fill else dmem
  }

  function NextRdata(m: Meaning, pipe: P.State, c: P.Cycle, dmem: Memory, rdata: Word, output: Word): Word {
    if P.Accepts(pipe, c) && P.ReadsData(c.packet.value.kind) then Read(dmem, m.addr(c.packet.value.body))
    else if c.recover && Loads(pipe.tl) then Read(dmem, Address(m, pipe.tl))
    else if c.dmaData then output
    else rdata
  }

  /** What a store of either kind or an atomic makes of memory when it retires, and a fill when it is
      written. */
  function NextMemory(retired: Option<P.Kind>, e: Entry, dma: bool, memory: Memory, fill: Memory): Memory {
    match retired
    case Some(FullStore) => Write(memory, e)
    case Some(PartialStore) => Write(memory, e)
    case Some(Atomic) => Write(memory, e)
    case _ => if dma then memory + fill else memory
  }

  function RetiredKind(retires: bool, tv: Option<P.Packet>): Option<P.Kind> {
    if retires && tv.Some? then Some(tv.value.kind) else None
  }

  function Next(g: D.Config, m: Meaning, s: State, i: Input): State {
    var pipe, c := s.sys.pipe, M.PipeCycle(g, s.sys, i.ctl);
    var e, sbufIn, drains := Entering(m, s, i), P.SbufIn(pipe, c), P.SbufYumi(pipe, c);
    State(
      M.Next(g, s.sys, i.ctl),
      NextDmem(c, drains, DataOut(s.buffer, e), s.dmem, i.fill),
      NextRdata(m, pipe, c, s.dmem, s.rdata, i.output),
      if P.VWe(pipe, c) && pipe.tl.Some? then s.rdata else s.loaded,
      if P.VWe(pipe, c) && Loads(pipe.tl) then
        Forward(s.buffer, sbufIn, e, Address(m, pipe.tl), |s.rdata|)
      else s.bypass,
      CacheBufferQueue.Next(s.buffer, sbufIn, e, drains),
      NextMemory(RetiredKind(P.Retires(pipe, c), pipe.tv), e, c.dmaData, s.memory, i.fill),
      if P.Retires(pipe, c) && pipe.tv.Some? && pipe.tv.value.kind in {P.Load, P.Atomic} && !s.sys.missing then
        s.returned + [(LoadValue(s, i), Read(s.memory, Address(m, pipe.tv)))]
      else s.returned)
  }

  // ----- the invariant ---------------------------------------------------------------

  /** The data memory with the buffered stores on top is the memory all retired stores make. */
  ghost predicate MemInv(s: State) {
    forall a: nat :: Fold(Read(s.dmem, a), Contents(s.buffer), a) == Read(s.memory, a)
  }

  /** The entry the packet in TV makes if it hits. */
  function HitEntry(m: Meaning, s: State): Entry
    requires s.sys.pipe.tv.Some?
  {
    var body := s.sys.pipe.tv.value.body;
    Entry(m.addr(body), m.data(body, Overlay(s.loaded, s.bypass)), m.mask(body))
  }

  /** The packet in TL is the second copy of the atomic in TV, which will write whatever is out of
      date in the word the copy has read. */
  predicate Covered(m: Meaning, s: State) {
    && !s.sys.missing && s.sys.pipe.tl.Some? && s.sys.pipe.tv == s.sys.pipe.tl && s.sys.pipe.tl.value.kind.Atomic?
    && s.buffer.num == 0
    && Merge(s.rdata, HitEntry(m, s)) == Merge(Read(s.dmem, Address(m, s.sys.pipe.tl)), HitEntry(m, s))
  }

  /** A load waiting in TL has read what the data memory still holds, unless a miss is being worked
      on, in which case it will read again, or what is out of date is about to be written. */
  predicate TlInv(m: Meaning, s: State) {
    Loads(s.sys.pipe.tl) ==>
      || (s.sys.missing && !s.sys.fsm.DONE?)
      || s.rdata == Read(s.dmem, Address(m, s.sys.pipe.tl))
      || Covered(m, s)
  }

  /** A load in TV that hits has the right value. */
  predicate TvInv(m: Meaning, s: State) {
    Loads(s.sys.pipe.tv) && !s.sys.missing ==>
      Overlay(s.loaded, s.bypass) == Read(s.memory, Address(m, s.sys.pipe.tv))
  }

  ghost predicate Inv(g: D.Config, m: Meaning, s: State) {
    && M.Inv(g, s.sys) && s.sys.pipe.sbuf.num <= 2 && s.buffer.num == s.sys.pipe.sbuf.num
    && MemInv(s) && TlInv(m, s) && TvInv(m, s)
    && forall k :: 0 <= k < |s.returned| ==> s.returned[k].0 == s.returned[k].1
  }

  // ----- memory ------------------------------------------------------------------------

  lemma ReadWrite(mem: Memory, e: Entry, a: nat)
    ensures Read(Write(mem, e), a) == if a == e.addr then Merge(Read(mem, a), e) else Read(mem, a)
  {
  }

  /** Retiring a store puts its entry on top; what is held and entering amounts to memory's word. */
  lemma OfferedFold(dmem: Memory, memory: Memory, q: Queue<Entry>, v: bool, e: Entry, a: nat)
    requires Fold(Read(dmem, a), Contents(q), a) == Read(memory, a)
    ensures Fold(Read(dmem, a), Offered(q, v, e), a) == Read(if v then Write(memory, e) else memory, a)
  {
    hide Fold, Merge, Read, Write, Contents;
    if v {
      FoldSnoc(Read(dmem, a), Contents(q), e, a);
      ReadWrite(memory, e, a);
    } else {
      assert Offered(q, v, e) == Contents(q);
    }
  }

  lemma FoldCons(w: Word, e: Entry, es: seq<Entry>, a: nat)
    ensures Fold(w, [e] + es, a) == Fold(if e.addr == a then Merge(w, e) else w, es, a)
  {
    assert ([e] + es)[1..] == es;
  }

  lemma FoldNothing(w: Word, a: nat)
    ensures Fold(w, [], a) == w
  {
  }

  /** Draining the oldest entry into the data memory changes nobody's view. */
  lemma MemStep(dmem: Memory, memory: Memory, q: Queue<Entry>, v: bool, e: Entry, drains: bool, a: nat)
    requires q.num <= 2 && (drains ==> OutValid(q, v)) && !(Full(q) && v && !drains)
    requires Fold(Read(dmem, a), Contents(q), a) == Read(memory, a)
    ensures Fold(Read(if drains then Write(dmem, DataOut(q, e)) else dmem, a),
                 Contents(CacheBufferQueue.Next(q, v, e, drains)), a)
         == Read(if v then Write(memory, e) else memory, a)
  {
    hide Fold, Merge, Read, Write, Contents, CacheBufferQueue.Next, DataOut, OutValid, Offered;
    OfferedFold(dmem, memory, q, v, e, a);
    RefinesFifo(q, v, e, drains);
    var all := Offered(q, v, e);
    if drains {
      assert all == [all[0]] + all[1..];
      FoldCons(Read(dmem, a), all[0], all[1..], a);
      ReadWrite(dmem, all[0], a);
    } else {
      assert all[0..] == all;
    }
  }

  // ----- control -------------------------------------------------------------------------

  /** What the cycle's control signals exclude. */
  lemma ControlFacts(g: D.Config, s: M.State, i: M.Input)
    requires M.Inv(g, s)
    ensures var c := M.PipeCycle(g, s, i);
            && (P.SbufIn(s.pipe, c) <==> P.Retires(s.pipe, c) && P.Stores(s.pipe.tv.value.kind))
            && (s.pipe.tv.Some? ==> (P.Retires(s.pipe, c) <==> P.VWe(s.pipe, c)))
            && (P.Retires(s.pipe, c) ==> s.pipe.tv.Some?)
            && (P.SbufYumi(s.pipe, c) ==> OutValid(s.pipe.sbuf, P.SbufIn(s.pipe, c)))
            && !(Full(s.pipe.sbuf) && P.SbufIn(s.pipe, c) && !P.SbufYumi(s.pipe, c))
            && (c.dmaData ==> s.pipe.sbuf.num == 0 && !P.SbufIn(s.pipe, c) && !P.SbufYumi(s.pipe, c)
                              && !P.Retires(s.pipe, c) && !P.VWe(s.pipe, c) && s.missing && !s.fsm.DONE?)
            && (P.VWe(s.pipe, c) ==> !(s.missing && !s.fsm.DONE?))
  {
  }

  /** When the packet in TL stays there: if nothing misses the store buffer leaves the data memory
      alone; if a miss is just done, TL has just been read again. */
  lemma StayFacts(g: D.Config, s: M.State, i: M.Input)
    requires M.Inv(g, s) && s.pipe.tl.Some? && !P.Duplicates(s.pipe, M.PipeCycle(g, s, i))
    requires !P.TlWe(s.pipe, M.PipeCycle(g, s, i)) && !P.SbufHazard(s.pipe, M.PipeCycle(g, s, i))
    ensures var c := M.PipeCycle(g, s, i);
            && !P.VWe(s.pipe, c) && !P.Accepts(s.pipe, c) && M.Next(g, s, i).missing == s.missing
            && (!s.missing && P.ReadsData(s.pipe.tl.value.kind) ==> !P.SbufYumi(s.pipe, c) && !c.dmaData && !c.recover)
            && (s.missing && M.Next(g, s, i).fsm.DONE? ==>
                  !P.SbufYumi(s.pipe, c) && !c.dmaData && (c.recover || s.fsm.DONE?))
  {
    hide D.Next;
  }

  lemma NextTlIs(g: D.Config, s: M.State, i: M.Input)
    ensures var c, s' := M.PipeCycle(g, s, i), M.Next(g, s, i);
            && s'.pipe.tl == (if P.TlWe(s.pipe, c) then i.packet
                              else if P.SbufHazard(s.pipe, c) then None else s.pipe.tl)
            && s'.pipe.tv == (if P.VWe(s.pipe, c) then s.pipe.tl else s.pipe.tv)
            && (!P.VWe(s.pipe, c) ==> s'.missing == s.missing)
            && (i.packet.Some? && P.TlWe(s.pipe, c) <==> P.Accepts(s.pipe, c))
            && s'.pipe.sbuf.num ==
               CacheBufferQueue.Next(s.pipe.sbuf, P.SbufIn(s.pipe, c), P.Entry(s.pipe), P.SbufYumi(s.pipe, c)).num
  {
    hide D.Next;
  }

  // ----- one cycle ---------------------------------------------------------------------------

  lemma StepMem(g: D.Config, m: Meaning, s: State, i: Input)
    requires Inv(g, m, s)
    ensures MemInv(Next(g, m, s, i))
    ensures Next(g, m, s, i).buffer.num <= 2 && Next(g, m, s, i).buffer.num == Next(g, m, s, i).sys.pipe.sbuf.num
  {
    hide Fold, Merge, Contents, CacheBufferQueue.Next, M.Next, M.PipeCycle, Entering, P.SbufYumi, P.SbufIn, P.Retires,
      P.VWe, M.Inv, TlInv, TvInv, Write, NextRdata, LoadValue, Forward;
    var pipe, c := s.sys.pipe, M.PipeCycle(g, s.sys, i.ctl);
    var e, v, drains := Entering(m, s, i), P.SbufIn(pipe, c), P.SbufYumi(pipe, c);
    ControlFacts(g, s.sys, i.ctl);
    NextTlIs(g, s.sys, i.ctl);
    SameCount(s.buffer, pipe.sbuf, v, e, P.Entry(pipe), drains);
    forall a: nat
      ensures Fold(Read(Next(g, m, s, i).dmem, a), Contents(Next(g, m, s, i).buffer), a) == Read(Next(g, m, s, i).memory, a)
    {
      assert Fold(Read(s.dmem, a), Contents(s.buffer), a) == Read(s.memory, a);
      if c.dmaData {
        FillStep(s.dmem, s.memory, i.fill, s.buffer, e, a);
      } else {
        MemStep(s.dmem, s.memory, s.buffer, v, e, drains, a);
      }
    }
  }

  /** The memory that loads are held to, byte by byte and by kind of packet: a retiring store of either
      kind writes the bytes of its word that its mask selects, an atomic those computed from the word
      all stores before it have made or, if it missed, from the word the DMA engine snooped; a
      filled word is written whole; nothing else changes a byte. */
  lemma MemoryByte(g: D.Config, m: Meaning, s: State, i: Input, a: nat, j: nat)
    requires Inv(g, m, s) && j < |Read(s.memory, a)|
    ensures var s', tv, c := Next(g, m, s, i), s.sys.pipe.tv, M.PipeCycle(g, s.sys, i.ctl);
            var writes := P.Retires(s.sys.pipe, c) && tv.value.kind in {P.FullStore, P.PartialStore, P.Atomic};
            if writes && m.addr(tv.value.body) == a then
              var body := tv.value.body;
              var seen := if s.sys.missing then i.snoop else if tv.value.kind.Atomic? then Read(s.memory, a)
                          else Overlay(s.loaded, s.bypass);
              j < |Read(s'.memory, a)| && Read(s'.memory, a)[j] ==
              (if j < |m.mask(body)| && m.mask(body)[j] && j < |m.data(body, seen)| then m.data(body, seen)[j]
               else Read(s.memory, a)[j])
            else if c.dmaData && a in i.fill then Read(s'.memory, a) == i.fill[a]
            else Read(s'.memory, a) == Read(s.memory, a)
  {
    hide Fold, Contents, CacheBufferQueue.Next, M.Next, M.PipeCycle, P.SbufYumi, P.SbufIn, P.Retires, P.VWe, M.Inv, TlInv,
      MemInv, Overlay, Forward, NextDmem, NextRdata;
    ControlFacts(g, s.sys, i.ctl);
  }

  /** The data memory is read when a load or atomic is accepted, again for the one in TL when the miss
      unit recovers, and by the DMA engine; its output stays otherwise. */
  lemma ReadsWhen(g: D.Config, m: Meaning, s: State, i: Input)
    requires M.Inv(g, s.sys)
    ensures var tl, packet := s.sys.pipe.tl, i.ctl.packet;
            var accepts := P.Accepts(s.sys.pipe, M.PipeCycle(g, s.sys, i.ctl));
            Next(g, m, s, i).rdata ==
            if accepts && packet.value.kind in {P.Load, P.Atomic} then Read(s.dmem, m.addr(packet.value.body))
            else if s.sys.fsm.RECOVER? && tl.Some? && tl.value.kind in {P.Load, P.Atomic} then
              Read(s.dmem, m.addr(tl.value.body))
            else if M.DmaControl(g, s.sys, i.ctl).memV then i.output
            else s.rdata
  {
    hide M.Next, D.Decide, Forward, Entering, NextDmem, NextMemory, CacheBufferQueue.Next, P.SbufYumi, P.SbufIn, P.Retires, P.VWe,
      P.TlWe, M.TagV, M.TrackV, M.Inv;
  }

  lemma SameCount<T, U>(q: Queue<T>, r: Queue<U>, v: bool, x: T, y: U, yumi: bool)
    requires q.num == r.num <= 2
    ensures CacheBufferQueue.Next(q, v, x, yumi).num == CacheBufferQueue.Next(r, v, y, yumi).num
    ensures OutValid(q, v) <==> OutValid(r, v)
    ensures Full(q) <==> Full(r)
    ensures !(Full(r) && v && !yumi) ==> CacheBufferQueue.Next(r, v, y, yumi).num <= 2
  {
  }

  lemma FillStep(dmem: Memory, memory: Memory, fill: Memory, q: Queue<Entry>, e: Entry, a: nat)
    requires q.num == 0 && Fold(Read(dmem, a), Contents(q), a) == Read(memory, a)
    ensures Fold(Read(dmem + fill, a), Contents(CacheBufferQueue.Next(q, false, e, false)), a) == Read(memory + fill, a)
  {
  }

  /** What a packet gets that has read w, when the one before it in TV is its own first copy, which
      saw the word seen. */
  function CopyValue(m: Meaning, p: P.Packet, w: Word, seen: Word): Word {
    if p.kind.Atomic? then Merge(w, Entry(m.addr(p.body), m.data(p.body, seen), m.mask(p.body))) else w
  }

  /** The duplicating cycles that do harm: a load or atomic stays in TL, its first copy hits, and the
      store retiring from TV changes the word it has read, other than in bytes which the first copy
      writes itself. */
  predicate Harmful(g: D.Config, m: Meaning, s: State, i: Input) {
    var tl, e := s.sys.pipe.tl, Entering(m, s, i);
    && P.Duplicates(s.sys.pipe, M.PipeCycle(g, s.sys, i.ctl))
    && Loads(tl) && !i.ctl.misses && P.Stores(s.sys.pipe.tv.value.kind) && e.addr == Address(m, tl)
    && var w := Read(s.dmem, e.addr);
       CopyValue(m, tl.value, w, Merge(w, e)) != CopyValue(m, tl.value, Merge(w, e), Merge(w, e))
  }

  /** A cycle without a duplicate. */
  lemma StepTlSingle(g: D.Config, m: Meaning, s: State, i: Input)
    requires Inv(g, m, s) && !P.Duplicates(s.sys.pipe, M.PipeCycle(g, s.sys, i.ctl))
    ensures TlInv(m, Next(g, m, s, i))
  {
    hide Fold, Merge, Contents, CacheBufferQueue.Next, M.Next, M.PipeCycle, Entering, P.SbufYumi, P.SbufIn, P.Retires,
      P.VWe, M.Inv, TvInv, MemInv, Write, LoadValue, Forward, P.Accepts, P.TlWe, P.SbufHazard, P.Duplicates, Read, Overlay;
    var pipe, c := s.sys.pipe, M.PipeCycle(g, s.sys, i.ctl);
    var s' := Next(g, m, s, i);
    ControlFacts(g, s.sys, i.ctl);
    NextTlIs(g, s.sys, i.ctl);
    if Loads(s'.sys.pipe.tl) {
      if P.TlWe(pipe, c) {
        AcceptedReads(g, s.sys, i.ctl);
        PacketIs(g, s.sys, i.ctl);
      } else {
        StayFacts(g, s.sys, i.ctl);
        if Covered(m, s) {
          StaysEmpty(g, m, s, i);
        }
      }
    }
  }

  /** An accepted load has the data memory to itself. */
  lemma AcceptedReads(g: D.Config, s: M.State, i: M.Input)
    requires M.Inv(g, s)
    ensures var c := M.PipeCycle(g, s, i);
            P.Accepts(s.pipe, c) ==>
              && !c.dmaData && !(c.recover && s.pipe.tl.Some?)
              && (P.ReadsData(c.packet.value.kind) ==> !P.SbufYumi(s.pipe, c))
  {
    M.MemoryPortsExclusive(g, s, i);
  }

  /** While the first copy of an atomic waits in TV, nothing moves. */
  lemma StaysEmpty(g: D.Config, m: Meaning, s: State, i: Input)
    requires Inv(g, m, s) && Covered(m, s) && !P.VWe(s.sys.pipe, M.PipeCycle(g, s.sys, i.ctl))
    ensures Covered(m, Next(g, m, s, i))
  {
    hide Fold, Merge, M.PipeCycle, Read, Overlay, Forward, P.TlWe, P.Duplicates, MemInv, TvInv, TlInv, D.Next;
    ControlFacts(g, s.sys, i.ctl);
    NextTlIs(g, s.sys, i.ctl);
    NotMissingIdle(g, s.sys, i.ctl);
    CoveredControl(g, s.sys, i.ctl);
  }

  lemma CoveredControl(g: D.Config, s: M.State, i: M.Input)
    requires M.Inv(g, s) && !s.missing && s.pipe.tl.Some? && P.ReadsData(s.pipe.tl.value.kind)
    requires !P.VWe(s.pipe, M.PipeCycle(g, s, i))
    ensures var c := M.PipeCycle(g, s, i);
            && !P.SbufYumi(s.pipe, c) && !P.SbufIn(s.pipe, c) && !P.Accepts(s.pipe, c) && !P.TlWe(s.pipe, c)
            && !P.SbufHazard(s.pipe, c) && !c.recover
  {
    hide D.Next;
  }

  /** The control in a duplicating cycle: the retiring store passes the empty buffer at once. */
  lemma DuplicateControl(g: D.Config, s: M.State, i: M.Input)
    requires M.Inv(g, s) && P.Duplicates(s.pipe, M.PipeCycle(g, s, i))
    ensures var c, s' := M.PipeCycle(g, s, i), M.Next(g, s, i);
            && s.missing && s.fsm.DONE? && P.VWe(s.pipe, c) && !P.Accepts(s.pipe, c) && !c.recover && !c.dmaData
            && s.pipe.sbuf.num == 0
            && (P.SbufIn(s.pipe, c) <==> P.Stores(s.pipe.tv.value.kind)) && (P.SbufYumi(s.pipe, c) <==> P.SbufIn(s.pipe, c))
            && s'.pipe.tl == s'.pipe.tv == s.pipe.tl && s'.fsm.START? && s'.pipe.sbuf.num == 0
            && (P.ReadsData(s.pipe.tl.value.kind) ==> s'.missing == i.misses)
  {
    hide D.Next;
  }

  /** The copy left in TL holds the current word, or one that its first copy brings up to date, if and
      only if the cycle is not a harmful one. */
  lemma StepTlDuplicate(g: D.Config, m: Meaning, s: State, i: Input)
    requires Inv(g, m, s) && P.Duplicates(s.sys.pipe, M.PipeCycle(g, s.sys, i.ctl))
    ensures TlInv(m, Next(g, m, s, i)) <==> !Harmful(g, m, s, i)
  {
    hide Fold, Merge, Contents, M.Next, M.PipeCycle, Entering, P.SbufYumi, P.SbufIn, P.Retires,
      P.VWe, M.Inv, TvInv, MemInv, LoadValue, Forward, Overlay, P.Accepts, P.TlWe, P.SbufHazard, P.Duplicates, Read, Write;
    var pipe, c := s.sys.pipe, M.PipeCycle(g, s.sys, i.ctl);
    var s', e, a := Next(g, m, s, i), Entering(m, s, i), Address(m, s.sys.pipe.tl);
    DuplicateControl(g, s.sys, i.ctl);
    if Loads(pipe.tl) {
      ReadWrite(s.dmem, e, a);
      FirstCopySees(g, m, s, i);
    }
  }

  /** The first copy has its value through the bypass. */
  lemma FirstCopySees(g: D.Config, m: Meaning, s: State, i: Input)
    requires Inv(g, m, s) && P.Duplicates(s.sys.pipe, M.PipeCycle(g, s.sys, i.ctl)) && Loads(s.sys.pipe.tl)
    ensures var s', e, a := Next(g, m, s, i), Entering(m, s, i), Address(m, s.sys.pipe.tl);
            && s.rdata == Read(s.dmem, a) == s'.rdata && s'.buffer.num == 0
            && s'.dmem == (if P.Stores(s.sys.pipe.tv.value.kind) then Write(s.dmem, e) else s.dmem)
            && (P.Stores(s.sys.pipe.tv.value.kind) && e.addr == a ==>
                  Overlay(s'.loaded, s'.bypass) == Merge(Read(s.dmem, a), e))
  {
    hide Fold, Merge, M.Next, M.PipeCycle, Entering, P.SbufYumi, P.SbufIn, P.Retires,
      P.VWe, M.Inv, TvInv, MemInv, LoadValue, Forward, Overlay, P.Accepts, P.TlWe, P.SbufHazard, P.Duplicates, Read, Write;
    var pipe, c := s.sys.pipe, M.PipeCycle(g, s.sys, i.ctl);
    var e, a := Entering(m, s, i), Address(m, s.sys.pipe.tl);
    DuplicateControl(g, s.sys, i.ctl);
    ForwardIsFold(s.buffer, P.SbufIn(pipe, c), e, a, s.rdata);
    if P.SbufIn(pipe, c) {
      assert Offered(s.buffer, true, e) == [e] + [];
      FoldCons(s.rdata, e, [], a);
      FoldNothing(s.rdata, a);
      FoldNothing(Merge(s.rdata, e), a);
    }
  }

  /** In every cycle, duplicating or not. */
  lemma StepTl(g: D.Config, m: Meaning, s: State, i: Input)
    requires Inv(g, m, s)
    ensures TlInv(m, Next(g, m, s, i)) <==> !Harmful(g, m, s, i)
  {
    hide Inv, Next, TlInv, M.PipeCycle, P.Duplicates, Entering, Read, CopyValue;
    if P.Duplicates(s.sys.pipe, M.PipeCycle(g, s.sys, i.ctl)) {
      StepTlDuplicate(g, m, s, i);
    } else {
      StepTlSingle(g, m, s, i);
    }
  }

  lemma PacketIs(g: D.Config, s: M.State, i: M.Input)
    ensures M.PipeCycle(g, s, i).packet == i.packet
  {
  }

  lemma StepTv(g: D.Config, m: Meaning, s: State, i: Input)
    requires Inv(g, m, s)
    ensures TvInv(m, Next(g, m, s, i))
  {
    hide Fold, Merge, Contents, CacheBufferQueue.Next, M.Next, M.PipeCycle, Entering, P.SbufYumi, P.SbufIn, P.Retires,
      P.VWe, M.Inv, Write, LoadValue, Forward, P.Accepts, P.TlWe, P.SbufHazard, Read, Overlay, NextDmem, NextRdata, Offered;
    var pipe, c := s.sys.pipe, M.PipeCycle(g, s.sys, i.ctl);
    var e, v := Entering(m, s, i), P.SbufIn(pipe, c);
    var s' := Next(g, m, s, i);
    ControlFacts(g, s.sys, i.ctl);
    NextTlIs(g, s.sys, i.ctl);
    NotMissingIdle(g, s.sys, i.ctl);
    if Loads(s'.sys.pipe.tv) && P.VWe(pipe, c) {
      var a := Address(m, pipe.tl);
      ForwardIsFold(s.buffer, v, e, a, s.rdata);
      assert Fold(Read(s.dmem, a), Contents(s.buffer), a) == Read(s.memory, a);
      OfferedFold(s.dmem, s.memory, s.buffer, v, e, a);
      if Covered(m, s) {
        HitEnters(m, s, i);
        CoveredFold(m, s, v, e);
      }
    }
  }

  lemma HitEnters(m: Meaning, s: State, i: Input)
    requires s.sys.pipe.tv.Some? && !s.sys.missing
    ensures Entering(m, s, i) == HitEntry(m, s)
  {
  }

  /** What the first copy of an atomic writes makes up for what the second has read. */
  lemma CoveredFold(m: Meaning, s: State, v: bool, e: Entry)
    requires Covered(m, s) && e == HitEntry(m, s) && v
    ensures var a := Address(m, s.sys.pipe.tl);
            Fold(s.rdata, Offered(s.buffer, v, e), a) == Fold(Read(s.dmem, a), Offered(s.buffer, v, e), a)
  {
    hide Fold, Merge, Read, Overlay;
    var a := Address(m, s.sys.pipe.tl);
    assert Offered(s.buffer, v, e) == [e] + [];
    FoldCons(s.rdata, e, [], a);
    FoldCons(Read(s.dmem, a), e, [], a);
  }

  lemma NotMissingIdle(g: D.Config, s: M.State, i: M.Input)
    requires M.Inv(g, s)
    ensures !s.missing ==> !M.PipeCycle(g, s, i).dmaData
  {
  }

  /** A cycle keeps every part of the invariant if and only if it is not a harmful one. */
  lemma StepInv(g: D.Config, m: Meaning, s: State, i: Input)
    requires D.ValidConfig(g) && Inv(g, m, s)
    ensures Inv(g, m, Next(g, m, s, i)) <==> !Harmful(g, m, s, i)
  {
    hide MemInv, TlInv, Harmful, M.Inv, M.Next, M.PipeCycle, Fold, Contents, CacheBufferQueue.Next, Entering, Forward, Read,
      Overlay, P.SbufYumi, P.SbufIn, P.VWe, P.Duplicates, NextDmem, NextRdata, NextMemory, P.Retires;
    StepMem(g, m, s, i);
    StepTl(g, m, s, i);
    StepTv(g, m, s, i);
    M.StepInv(g, s.sys, i.ctl);
  }

  // ----- runs ------------------------------------------------------------------------------------

  predicate IsReset(s: State) {
    M.IsReset(s.sys) && s.buffer.num == 0 && s.memory == s.dmem && s.returned == []
  }

  lemma ResetInv(g: D.Config, m: Meaning, s: State)
    requires IsReset(s)
    ensures Inv(g, m, s)
  {
  }

  function After(g: D.Config, m: Meaning, s: State, ins: seq<Input>): State
    decreases ins
  {
    if ins == [] then s else After(g, m, Next(g, m, s, ins[0]), ins[1..])
  }

  /** No harmful cycle. */
  predicate NoHarm(g: D.Config, m: Meaning, s: State, ins: seq<Input>)
    decreases ins
  {
    ins == [] || (!Harmful(g, m, s, ins[0]) && NoHarm(g, m, Next(g, m, s, ins[0]), ins[1..]))
  }

  lemma {:induction false} RunInv(g: D.Config, m: Meaning, s: State, ins: seq<Input>)
    requires D.ValidConfig(g) && Inv(g, m, s) && NoHarm(g, m, s, ins)
    ensures Inv(g, m, After(g, m, s, ins))
    decreases ins
  {
    hide Inv, Next, Harmful;
    if ins != [] {
      StepInv(g, m, s, ins[0]);
      RunInv(g, m, Next(g, m, s, ins[0]), ins[1..]);
    }
  }

  /** Every load and atomic that hit has returned the word that all stores retired before it made. */
  ghost predicate AllRight(s: State) {
    forall k :: 0 <= k < |s.returned| ==> s.returned[k].0 == s.returned[k].1
  }

  /** In every run from reset without a harmful cycle, under any stalls, misses, fills and duplicates,
      every load and atomic that hits returns the word that all stores retired before it have made,
      and the data memory with the buffered stores on top is that memory. */
  lemma {:induction false} LoadsSeeStores(g: D.Config, m: Meaning, s: State, ins: seq<Input>, a: nat)
    requires D.ValidConfig(g) && IsReset(s) && NoHarm(g, m, s, ins)
    ensures var e := After(g, m, s, ins);
            && (forall k :: 0 <= k < |e.returned| ==> e.returned[k].0 == e.returned[k].1)
            && Fold(Read(e.dmem, a), Contents(e.buffer), a) == Read(e.memory, a)
  {
    hide After, NoHarm, TlInv, TvInv, M.Inv, Fold, Contents, Read;
    ResetInv(g, m, s);
    RunInv(g, m, s, ins);
  }

  /** A cycle in which results are taken and no load or atomic is waiting. */
  predicate Quiet(i: Input) {
    (i.ctl.packet.Some? ==> i.ctl.packet.value.kind.TagStore?) && i.ctl.yumi && !i.ctl.misses
  }

  lemma QuietControl(g: D.Config, s: M.State, i: M.Input)
    requires M.Inv(g, s) && !s.missing && s.pipe.tv.Some? && P.ReadsData(s.pipe.tv.value.kind)
    requires (i.packet.Some? ==> i.packet.value.kind.TagStore?) && i.yumi && !i.misses
    ensures var c, s' := M.PipeCycle(g, s, i), M.Next(g, s, i);
            && P.Retires(s.pipe, c) && P.VWe(s.pipe, c) && !P.Duplicates(s.pipe, c)
            && (P.SbufIn(s.pipe, c) <==> P.Stores(s.pipe.tv.value.kind))
            && s'.pipe.tv == s.pipe.tl && !s'.missing && !c.dmaData
  {
    hide D.Next;
  }

  /** A load or atomic that hits, with its result taken. */
  lemma HitRetires(g: D.Config, m: Meaning, s: State, i: Input)
    requires M.Inv(g, s.sys) && !s.sys.missing && Loads(s.sys.pipe.tv) && Quiet(i)
    ensures Next(g, m, s, i).returned == s.returned + [(Overlay(s.loaded, s.bypass), Read(s.memory, Address(m, s.sys.pipe.tv)))]
    ensures Next(g, m, s, i).sys.pipe.tv == s.sys.pipe.tl && !Next(g, m, s, i).sys.missing
    ensures !Harmful(g, m, s, i)
  {
    hide M.Next, M.PipeCycle, Entering, P.SbufYumi, P.SbufIn, P.Retires, P.VWe, M.Inv, Forward, Overlay, P.Accepts, P.Duplicates,
      Read, Write, CopyValue;
    QuietControl(g, s.sys, i.ctl);
  }

  /** While it retires, the copy behind it takes over what it has read and what the bypass adds. */
  lemma CopyFollows(g: D.Config, m: Meaning, s: State, i: Input)
    requires M.Inv(g, s.sys) && MemInv(s) && !s.sys.missing && Loads(s.sys.pipe.tv) && Quiet(i)
    requires s.sys.pipe.tl == s.sys.pipe.tv && s.buffer.num == 0
    ensures var s', a, seen := Next(g, m, s, i), Address(m, s.sys.pipe.tl), Overlay(s.loaded, s.bypass);
            && Overlay(s'.loaded, s'.bypass) == CopyValue(m, s.sys.pipe.tl.value, s.rdata, seen)
            && Read(s'.memory, a) == CopyValue(m, s.sys.pipe.tl.value, Read(s.dmem, a), seen)
  {
    hide Fold, Merge, M.Next, M.PipeCycle, P.SbufYumi, P.SbufIn, P.Retires, P.VWe, M.Inv, Forward, Overlay, P.Accepts, P.Duplicates,
      Read, Write, LoadValue;
    var a, v, e := Address(m, s.sys.pipe.tl), P.Stores(s.sys.pipe.tv.value.kind), HitEntry(m, s);
    QuietControl(g, s.sys, i.ctl);
    HitEnters(m, s, i);
    ForwardIsFold(s.buffer, v, e, a, s.rdata);
    assert Fold(Read(s.dmem, a), Contents(s.buffer), a) == Read(s.memory, a);
    OfferedFold(s.dmem, s.memory, s.buffer, v, e, a);
    if v {
      assert Offered(s.buffer, v, e) == [e] + [];
      FoldCons(s.rdata, e, [], a);
      FoldCons(Read(s.dmem, a), e, [], a);
      FoldNothing(Merge(s.rdata, e), a);
      FoldNothing(Merge(Read(s.dmem, a), e), a);
    } else {
      assert Offered(s.buffer, v, e) == [];
      FoldNothing(s.rdata, a);
      FoldNothing(Read(s.dmem, a), a);
    }
  }

  /** What the two copies return: the first the word with the store in it, the second the word it had
      read before the store. */
  lemma CopiesReturn(g: D.Config, m: Meaning, s: State, i: Input, j: Input, k: Input)
    requires D.ValidConfig(g) && Inv(g, m, s) && P.Duplicates(s.sys.pipe, M.PipeCycle(g, s.sys, i.ctl))
    requires Loads(s.sys.pipe.tl) && !i.ctl.misses && P.Stores(s.sys.pipe.tv.value.kind)
    requires Entering(m, s, i).addr == Address(m, s.sys.pipe.tl) && Quiet(j) && Quiet(k)
    ensures var s1 := Next(g, m, s, i);
            var e, tl, w := Next(g, m, Next(g, m, s1, j), k), s.sys.pipe.tl.value, Read(s.dmem, Address(m, s.sys.pipe.tl));
            var after := Merge(w, Entering(m, s, i));
            e.returned == s1.returned + [(after, after), (CopyValue(m, tl, w, after), CopyValue(m, tl, after, after))]
  {
    hide Next, M.Inv, M.PipeCycle, TlInv, Merge, Read, Overlay, CopyValue, Entering, P.Duplicates, Fold, Contents;
    var s1, a := Next(g, m, s, i), Address(m, s.sys.pipe.tl);
    DuplicateShape(g, m, s, i);
    FirstCopySees(g, m, s, i);
    ReadWrite(s.dmem, Entering(m, s, i), a);
    StepMem(g, m, s, i);
    StepTv(g, m, s, i);
    M.StepInv(g, s.sys, i.ctl);
    NextSys(g, m, s, i);
    HitRetires(g, m, s1, j);
    CopyFollows(g, m, s1, j);
    var s2 := Next(g, m, s1, j);
    M.StepInv(g, s1.sys, j.ctl);
    NextSys(g, m, s1, j);
    HitRetires(g, m, s2, k);
  }

  lemma NextSys(g: D.Config, m: Meaning, s: State, i: Input)
    ensures Next(g, m, s, i).sys == M.Next(g, s.sys, i.ctl)
  {
  }

  lemma DuplicateShape(g: D.Config, m: Meaning, s: State, i: Input)
    requires Inv(g, m, s) && P.Duplicates(s.sys.pipe, M.PipeCycle(g, s.sys, i.ctl))
    requires Loads(s.sys.pipe.tl) && !i.ctl.misses
    ensures var s1 := Next(g, m, s, i);
            s1.sys.pipe.tl == s1.sys.pipe.tv == s.sys.pipe.tl && !s1.sys.missing
  {
    hide M.Next, M.PipeCycle, Entering, P.SbufYumi, P.SbufIn, P.Retires, P.VWe, M.Inv, Forward, Overlay, P.Accepts, P.Duplicates,
      Read, Write, MemInv, TlInv, TvInv;
    DuplicateControl(g, s.sys, i.ctl);
  }

  lemma {:induction false} AfterAppend(g: D.Config, m: Meaning, s: State, a: seq<Input>, b: seq<Input>)
    ensures After(g, m, s, a + b) == After(g, m, After(g, m, s, a), b)
    ensures NoHarm(g, m, s, a + b) <==> NoHarm(g, m, s, a) && NoHarm(g, m, After(g, m, s, a), b)
    decreases a
  {
    hide Next, Harmful;
    if a == [] {
      assert a + b == b;
    } else {
      assert (a + b)[0] == a[0] && (a + b)[1..] == a[1..] + b;
      AfterAppend(g, m, Next(g, m, s, a[0]), a[1..], b);
    }
  }

  lemma {:induction false} FirstHarm(g: D.Config, m: Meaning, s: State, ins: seq<Input>) returns (n: nat)
    requires !NoHarm(g, m, s, ins)
    ensures n < |ins| && NoHarm(g, m, s, ins[..n]) && Harmful(g, m, After(g, m, s, ins[..n]), ins[n])
    decreases ins
  {
    hide Next, Harmful;
    if Harmful(g, m, s, ins[0]) {
      n := 0;
      assert ins[..0] == [];
    } else {
      n := FirstHarm(g, m, Next(g, m, s, ins[0]), ins[1..]);
      n := n + 1;
      assert ins[..n][0] == ins[0] && ins[..n][1..] == ins[1..][..n - 1];
    }
  }

  lemma TwoMore(g: D.Config, m: Meaning, s: State, i: Input, j: Input)
    ensures After(g, m, s, [i, j]) == Next(g, m, Next(g, m, s, i), j)
    ensures NoHarm(g, m, s, [i, j]) <==> !Harmful(g, m, s, i) && !Harmful(g, m, Next(g, m, s, i), j)
  {
    hide Next, Harmful;
    assert [i, j][1..] == [j] && [j][1..] == [];
    assert NoHarm(g, m, Next(g, m, s, i), [j]) <==> !Harmful(g, m, Next(g, m, s, i), j);
    assert After(g, m, Next(g, m, s, i), [j]) == Next(g, m, Next(g, m, s, i), j);
  }

  lemma NothingWaits(g: D.Config, m: Meaning, s: State, i: Input)
    requires i.ctl.packet.None?
    ensures !Harmful(g, m, s, i)
  {
    hide Entering, Read, CopyValue, Loads;
  }

  /** A harmful cycle shows: with the next two results taken, the second copy has returned a wrong word. */
  lemma {:induction false} HarmShows(g: D.Config, m: Meaning, s: State, i: Input, j: Input, k: Input)
    requires D.ValidConfig(g) && Inv(g, m, s) && Harmful(g, m, s, i) && Quiet(j) && Quiet(k)
    ensures !AllRight(Next(g, m, Next(g, m, Next(g, m, s, i), j), k))
  {
    hide Next, Inv, Entering, Merge, Read, CopyValue, M.PipeCycle, P.Duplicates;
    CopiesReturn(g, m, s, i, j, k);
    var e := Next(g, m, Next(g, m, Next(g, m, s, i), j), k);
    assert e.returned[|e.returned| - 1].0 != e.returned[|e.returned| - 1].1;
  }

  /** The condition is exact: a run has no harmful cycle if and only if, wherever it is stopped and two
      more results are taken, every load and atomic that hit has returned the word it should. */
  lemma {:induction false} LoadsSeeStoresIff(g: D.Config, m: Meaning, s: State, ins: seq<Input>, j: Input, k: Input)
    requires D.ValidConfig(g) && IsReset(s)
    requires Quiet(j) && Quiet(k) && j.ctl.packet.None? && k.ctl.packet.None?
    ensures NoHarm(g, m, s, ins) <==> forall n :: 0 <= n <= |ins| ==> AllRight(After(g, m, s, ins[..n] + [j, k]))
  {
    hide After, NoHarm, Next, Inv, Harmful, Quiet;
    if NoHarm(g, m, s, ins) {
      forall n | 0 <= n <= |ins| ensures AllRight(After(g, m, s, ins[..n] + [j, k])) {
        assert ins == ins[..n] + ins[n..];
        AfterAppend(g, m, s, ins[..n], ins[n..]);
        AfterAppend(g, m, s, ins[..n], [j, k]);
        var b := After(g, m, s, ins[..n]);
        TwoMore(g, m, b, j, k);
        NothingWaits(g, m, b, j);
        NothingWaits(g, m, Next(g, m, b, j), k);
        LoadsSeeStores(g, m, s, ins[..n] + [j, k], 0);
      }
    } else {
      var n := FirstHarm(g, m, s, ins);
      var b := After(g, m, s, ins[..n]);
      ResetInv(g, m, s);
      RunInv(g, m, s, ins[..n]);
      HarmShows(g, m, b, ins[n], j, k);
      assert ins[..n + 1] + [j, k] == ins[..n] + [ins[n]] + [j, k];
      assert ins[..n] + [ins[n]] + [j, k] == ins[..n] + ([ins[n]] + [j, k]);
      AfterAppend(g, m, s, ins[..n], [ins[n]] + [j, k]);
      AfterOne(g, m, b, ins[n], [j, k]);
      TwoMore(g, m, Next(g, m, b, ins[n]), j, k);
      assert !AllRight(After(g, m, s, ins[..n + 1] + [j, k]));
    }
  }

  lemma AfterOne(g: D.Config, m: Meaning, s: State, i: Input, rest: seq<Input>)
    ensures After(g, m, s, [i] + rest) == After(g, m, Next(g, m, s, i), rest)
  {
    assert ([i] + rest)[1..] == rest;
  }

  // ----- a run that harms --------------------------------------------------------------------------

  const LOAD := P.Packet(P.Load, 4)

  /** Nothing of the data moves in a cycle without a store retiring or draining and without DMA. */
  predicate SameData(s: State, s': State) {
    s'.dmem == s.dmem && s'.memory == s.memory && s'.returned == s.returned && s'.buffer.num == s.buffer.num
  }

  function Wait(packet: Option<P.Packet>, misses: bool, d: D.Input): Input {
    Input(M.Input(packet, true, misses, M.Branch(false, false, true, false, false), d), [], map[], [])
  }

  /** A store that misses is in TV, a load in TL, and the miss unit at fsm. */
  predicate Waiting(s: M.State, fsm: M.Fsm) {
    && s.pipe.tl == Some(LOAD) && s.pipe.tv == Some(P.STORE) && s.missing && s.fsm == fsm && s.dma.fsm.IDLE?
    && s.pipe.sbuf.num == 0 && s.pipe.tbuf.num == 0 && s.pipe.retired == []
  }

  lemma StoreEnters(g: D.Config, s: M.State, d: D.Input)
    requires M.IsReset(s)
    ensures var i, j := Wait(Some(P.STORE), false, d).ctl, Wait(Some(LOAD), true, d).ctl;
            var s1 := M.Next(g, s, i);
            var c, c' := M.PipeCycle(g, s, i), M.PipeCycle(g, s1, j);
            && !P.Retires(s.pipe, c) && !c.dmaData && !P.SbufYumi(s.pipe, c) && !P.SbufIn(s.pipe, c)
            && !P.Retires(s1.pipe, c') && !c'.dmaData && !P.SbufYumi(s1.pipe, c') && !P.SbufIn(s1.pipe, c')
            && Waiting(M.Next(g, s1, j), M.START)
  {
    hide DataOut, D.WriteBeat, D.ReadRow, D.Pick;
    var s1 := M.Next(g, s, Wait(Some(P.STORE), false, d).ctl);
    assert s1.pipe.tl == Some(P.STORE) && s1.pipe.tv == None && !s1.missing && s1.fsm.START? && s1.dma.fsm.IDLE?;
    assert s1.pipe.sbuf.num == 0 && s1.pipe.tbuf.num == 0 && s1.pipe.retired == [];
  }

  function Following(fsm: M.Fsm): M.Fsm {
    match fsm
    case START => M.STORE_TAG_MISS
    case STORE_TAG_MISS => M.STORE_TAG_MISS_ALLOCATE
    case STORE_TAG_MISS_ALLOCATE => M.RECOVER
    case _ => M.DONE
  }

  lemma StoreMisses(g: D.Config, s: M.State, fsm: M.Fsm, d: D.Input)
    requires Waiting(s, fsm) && fsm in {M.START, M.STORE_TAG_MISS, M.STORE_TAG_MISS_ALLOCATE, M.RECOVER}
    ensures var i := Wait(Some(P.TAG), false, d).ctl;
            var c := M.PipeCycle(g, s, i);
            && !P.Retires(s.pipe, c) && !c.dmaData && !P.SbufYumi(s.pipe, c) && !P.SbufIn(s.pipe, c)
            && !P.Duplicates(s.pipe, c)
            && Waiting(M.Next(g, s, i), Following(fsm))
  {
    hide DataOut, D.WriteBeat, D.ReadRow, D.Pick;
  }

  lemma StoreDone(g: D.Config, s: M.State, d: D.Input)
    requires Waiting(s, M.DONE)
    ensures P.Duplicates(s.pipe, M.PipeCycle(g, s, Wait(Some(P.TAG), false, d).ctl))
  {
    hide DataOut, D.WriteBeat, D.ReadRow, D.Pick;
  }

  lemma DataStays(g: D.Config, m: Meaning, s: State, i: Input)
    requires var c := M.PipeCycle(g, s.sys, i.ctl);
             !P.Retires(s.sys.pipe, c) && !c.dmaData && !P.SbufYumi(s.sys.pipe, c) && !P.SbufIn(s.sys.pipe, c)
    requires s.buffer.num == 0
    ensures SameData(s, Next(g, m, s, i)) && Next(g, m, s, i).sys == M.Next(g, s.sys, i.ctl)
    ensures !Harmful(g, m, s, i)
  {
    hide M.Next, M.PipeCycle, Forward, Read, Write, Overlay, Entering, P.SbufYumi, P.SbufIn, P.Retires, P.VWe, P.Accepts, CopyValue;
  }

  /** The store and the load are in the pipeline, at the state fsm of the miss, with the data as it was. */
  ghost predicate Reached(g: D.Config, m: Meaning, s: State, b: State, fsm: M.Fsm) {
    Inv(g, m, b) && Waiting(b.sys, fsm) && SameData(s, b) && s.buffer.num == 0
  }

  lemma ReachStart(g: D.Config, m: Meaning, s: State, d: D.Input)
    requires D.ValidConfig(g) && IsReset(s)
    ensures Reached(g, m, s, Next(g, m, Next(g, m, s, Wait(Some(P.STORE), false, d)), Wait(Some(LOAD), true, d)), M.START)
  {
    hide Next, Inv, Waiting, M.Next, M.PipeCycle, Wait, Harmful, P.SbufYumi, P.SbufIn, P.Retires;
    var i, j := Wait(Some(P.STORE), false, d), Wait(Some(LOAD), true, d);
    ResetInv(g, m, s);
    StoreEnters(g, s.sys, d);
    DataStays(g, m, s, i);
    StepInv(g, m, s, i);
    var s1 := Next(g, m, s, i);
    DataStays(g, m, s1, j);
    StepInv(g, m, s1, j);
  }

  lemma ReachNext(g: D.Config, m: Meaning, s: State, b: State, fsm: M.Fsm, d: D.Input)
    requires D.ValidConfig(g) && Reached(g, m, s, b, fsm)
    requires fsm in {M.START, M.STORE_TAG_MISS, M.STORE_TAG_MISS_ALLOCATE, M.RECOVER}
    ensures Reached(g, m, s, Next(g, m, b, Wait(Some(P.TAG), false, d)), Following(fsm))
  {
    hide Next, Inv, Waiting, M.Next, M.PipeCycle, Wait, Harmful, P.SbufYumi, P.SbufIn, P.Retires, P.Duplicates;
    var i := Wait(Some(P.TAG), false, d);
    StoreMisses(g, b.sys, fsm, d);
    DataStays(g, m, b, i);
    StepInv(g, m, b, i);
  }

  /** The entry of the store in that run. */
  function StoreEntry(m: Meaning): Entry {
    Entry(m.addr(P.STORE.body), m.data(P.STORE.body, []), m.mask(P.STORE.body))
  }

  lemma ReachedEntry(g: D.Config, m: Meaning, s: State, b: State, d: D.Input)
    requires D.ValidConfig(g) && Reached(g, m, s, b, M.DONE) && s.returned == []
    ensures var i := Wait(Some(P.TAG), false, d);
            && Entering(m, b, i) == StoreEntry(m) && Next(g, m, b, i).returned == []
            && P.Duplicates(b.sys.pipe, M.PipeCycle(g, b.sys, i.ctl))
  {
    hide M.Next, M.PipeCycle, Forward, Read, Write, Overlay, P.SbufYumi, P.SbufIn, P.VWe, P.Accepts, Inv;
    StoreDone(g, b.sys, d);
  }

  /** The run: a store that misses by its tag, a load of its word behind it, and a tag store waiting
      until it is taken. */
  function HarmfulRun(d: D.Input): seq<Input> {
    var tag := Wait(Some(P.TAG), false, d);
    [Wait(Some(P.STORE), false, d)] + ([Wait(Some(LOAD), true, d)] + ([tag] + ([tag] + ([tag] + ([tag] + ([tag]
    + [tag, Wait(None, false, d)]))))))
  }

  /** The duplicate does harm data, from reset and with no stall anywhere: whenever the store changes
      the word, the load behind it returns the new word and then, a second time, the old one. */
  lemma {:induction false} OldWordFromReset(g: D.Config, m: Meaning, s: State, d: D.Input)
    requires D.ValidConfig(g) && g.tracking && IsReset(s) && m.addr(P.STORE.body) == m.addr(LOAD.body)
    ensures var before := Read(s.dmem, m.addr(LOAD.body));
            var after := Merge(before, StoreEntry(m));
            After(g, m, s, HarmfulRun(d)).returned == [(after, after), (before, after)]
  {
    hide After, Next, Inv, Waiting, Wait, Merge, Read, StoreEntry, Entering, P.Duplicates, M.PipeCycle;
    var store, load, tag, none := Wait(Some(P.STORE), false, d), Wait(Some(LOAD), true, d), Wait(Some(P.TAG), false, d), Wait(None, false, d);
    var s1 := Next(g, m, s, store);
    var s2 := Next(g, m, s1, load);
    ReachStart(g, m, s, d);
    var s3 := Next(g, m, s2, tag);
    ReachNext(g, m, s, s2, M.START, d);
    var s4 := Next(g, m, s3, tag);
    ReachNext(g, m, s, s3, M.STORE_TAG_MISS, d);
    var s5 := Next(g, m, s4, tag);
    ReachNext(g, m, s, s4, M.STORE_TAG_MISS_ALLOCATE, d);
    var s6 := Next(g, m, s5, tag);
    ReachNext(g, m, s, s5, M.RECOVER, d);
    ReachedEntry(g, m, s, s6, d);
    ReachedCopies(g, m, s, s6, d);
    var s7 := Next(g, m, s6, tag);
    TwoMore(g, m, s7, tag, none);
    AfterOne(g, m, s6, tag, [tag, none]);
    AfterOne(g, m, s5, tag, [tag] + [tag, none]);
    AfterOne(g, m, s4, tag, [tag] + ([tag] + [tag, none]));
    AfterOne(g, m, s3, tag, [tag] + ([tag] + ([tag] + [tag, none])));
    AfterOne(g, m, s2, tag, [tag] + ([tag] + ([tag] + ([tag] + [tag, none]))));
    AfterOne(g, m, s1, load, [tag] + ([tag] + ([tag] + ([tag] + ([tag] + [tag, none])))));
    AfterOne(g, m, s, store, [load] + ([tag] + ([tag] + ([tag] + ([tag] + ([tag] + [tag, none]))))));
  }

  lemma ReachedCopies(g: D.Config, m: Meaning, s: State, b: State, d: D.Input)
    requires D.ValidConfig(g) && Reached(g, m, s, b, M.DONE) && s.returned == [] && m.addr(P.STORE.body) == m.addr(LOAD.body)
    ensures var tag, none := Wait(Some(P.TAG), false, d), Wait(None, false, d);
            var before := Read(s.dmem, m.addr(LOAD.body));
            var after := Merge(before, StoreEntry(m));
            Next(g, m, Next(g, m, Next(g, m, b, tag), tag), none).returned == [(after, after), (before, after)]
  {
    hide Next, Inv, Merge, Read, Entering, P.Duplicates, M.PipeCycle;
    ReachedEntry(g, m, s, b, d);
    CopiesReturn(g, m, b, Wait(Some(P.TAG), false, d), Wait(Some(P.TAG), false, d), Wait(None, false, d));
  }
}
