/** The miss unit's registers and the DMA engine: what a command names stands still until it is
    carried out, so whole blocks move as the miss unit meant them to. */
module CacheCommand {
  import opened Wrappers
  import P = CachePipeline
  import D = CacheDma
  import M = CacheMiss

  /** What the miss unit's decoder tells apart; whole is whether a store writes its whole word. */
  datatype Opcode = TagFl | AInv | Afl | AflInv | ALock | AUnlock | Ld | St(whole: bool) | Amo | Plain

  /** What the TV stage holds of a packet: its opcode and address, what the tag memory said of the set's
      ways, and whether the addressed word is tracked in the way that hits. */
  datatype Tv = Tv(op: Opcode, addr: D.Addr, tags: seq<nat>, valid: set<nat>, locked: set<nat>, tracked: bool)

  /** The stat memory's output for the set: the dirty ways, and the way the LRU bits point to once the
      locked ones are overridden. */
  datatype Stat = Stat(dirty: set<nat>, lru: nat)

  /** A packet the memory side has taken. */
  datatype Request = Request(write: bool, addr: D.Addr)

  /** chosen and flush are chosen_way_r and flush_way_r; trackWe is track_data_we_o; requests is the
      history of the packets taken, tagUses and trackUses count the miss unit's accesses to the tag
      and the track memory. */
  datatype State = State(
    sys: M.State, tv: Tv, stat: Stat, chosen: nat, flush: nat, trackWe: bool, requests: seq<Request>,
    tagUses: nat, trackUses: nat)

  /** tv enters TV with the packet, if one does; stat and trackBits are what the stat and the track
      memory hold for the set. */
  datatype Input = Input(ctl: M.Input, tv: Tv, stat: Stat, trackBits: set<D.Bit>)

  // ----- tags -------------------------------------------------------------------

  /** bsg_priority_encode: the lowest bit that is set, or the number of bits. */
  function LowestSet(bits: seq<bool>): (k: nat)
    ensures k <= |bits| && (forall j :: 0 <= j < k ==> !bits[j]) && (k < |bits| ==> bits[k])
  {
    if bits == [] || bits[0] then 0 else 1 + LowestSet(bits[1..])
  }

  /** tag_hit_v */
  function HitBits(t: Tv): seq<bool> {
    seq(|t.tags|, w requires 0 <= w < |t.tags| => t.tags[w] == t.addr.tag && w in t.valid)
  }

  predicate HitFound(t: Tv) {
    LowestSet(HitBits(t)) < |t.tags|
  }

  function HitWay(t: Tv): nat {
    if HitFound(t) then LowestSet(HitBits(t)) else 0
  }

  function FreeBits(t: Tv): seq<bool> {
    seq(|t.tags|, w requires 0 <= w < |t.tags| => w !in t.valid && w !in t.locked)
  }

  /** The replacement policy: an invalid and unlocked way, or the least recently used one. */
  function Replaced(t: Tv, stat: Stat): nat {
    var free := LowestSet(FreeBits(t));
    if free < |t.tags| then free else stat.lru
  }

  predicate TrackMiss(t: Tv) {
    (t.op.Ld? || t.op.Amo? || (t.op.St? && !t.op.whole)) && HitFound(t) && !t.tracked
  }

  /** miss_v, as far as it depends on the packet. */
  predicate Misses(g: D.Config, t: Tv) {
    || ((t.op.Ld? || t.op.St? || t.op.Amo?) && !HitFound(t))
    || TrackMiss(t)
    || (t.op.TagFl? && AddrWay(g, t) in t.valid)
    || ((t.op.Afl? || t.op.AflInv? || t.op.AInv?) && HitFound(t))
    || (t.op.ALock? && (HitFound(t) ==> HitWay(t) !in t.locked))
    || (t.op.AUnlock? && HitFound(t) && HitWay(t) in t.locked)
  }

  /** addr_way_v: the way in the low bits of the tag. */
  function AddrWay(g: D.Config, t: Tv): nat {
    if g.ways >= 1 then t.addr.tag % g.ways else 0
  }

  predicate GotoFlush(t: Tv) {
    t.op.TagFl? || t.op.AInv? || t.op.Afl? || t.op.AflInv?
  }

  predicate GotoLock(t: Tv) {
    t.op.AUnlock? || (t.op.ALock? && HitFound(t))
  }

  predicate StoreTagMiss(g: D.Config, t: Tv) {
    g.tracking && t.op.St? && t.op.whole && !HitFound(t)
  }

  // ----- the registers ------------------------------------------------------------

  /** dma_way_o */
  function DmaWay(s: State): nat {
    if GotoFlush(s.tv) then s.flush else s.chosen
  }

  /** dma_addr_o */
  function DmaAddr(s: State): D.Addr {
    match s.sys.fsm
    case SEND_FILL_ADDR => D.Addr(s.tv.addr.tag, s.tv.addr.set_, 0, 0)
    case SEND_EVICT_ADDR => D.Addr(TagOf(s), s.tv.addr.set_, 0, 0)
    case SEND_EVICT_DATA => D.Addr(TagOf(s), s.tv.addr.set_, 0, 0)
    case GET_FILL_DATA => s.tv.addr
    case _ => D.Addr(0, 0, 0, 0)
  }

  function TagOf(s: State): nat {
    if DmaWay(s) < |s.tv.tags| then s.tv.tags[DmaWay(s)] else 0
  }

  /** chosen_way_n */
  function NextChosen(s: State): nat {
    match s.sys.fsm
    case SEND_FILL_ADDR => if TrackMiss(s.tv) then HitWay(s.tv) else Replaced(s.tv, s.stat)
    case STORE_TAG_MISS => Replaced(s.tv, s.stat)
    case _ => s.chosen
  }

  /** flush_way_n */
  function NextFlush(g: D.Config, s: State): nat {
    if s.sys.fsm.FLUSH_OP? then if s.tv.op.TagFl? then AddrWay(g, s.tv) else HitWay(s.tv) else s.flush
  }

  /** The condition of the branch to the evict route. */
  predicate EvictFirst(g: D.Config, s: State) {
    match s.sys.fsm
    case FLUSH_OP => !s.tv.op.AInv? && NextFlush(g, s) in s.stat.dirty && NextFlush(g, s) in s.tv.valid
    case SEND_FILL_ADDR => !TrackMiss(s.tv) && NextChosen(s) in s.stat.dirty && NextChosen(s) in s.tv.valid
    case STORE_TAG_MISS => NextChosen(s) in s.stat.dirty && NextChosen(s) in s.tv.valid
    case _ => false
  }

  function BranchOf(g: D.Config, s: State): M.Branch {
    M.Branch(GotoFlush(s.tv), GotoLock(s.tv), StoreTagMiss(g, s.tv), EvictFirst(g, s),
             s.tv.op.TagFl? || s.tv.op.AflInv? || s.tv.op.Afl? || StoreTagMiss(g, s.tv))
  }

  /** The miss unit's inputs with the wires of this module connected. */
  function Wire(g: D.Config, s: State, i: Input): M.Input {
    var d := i.ctl.dmaIn;
    i.ctl.(misses := Misses(g, i.tv), branch := BranchOf(g, s),
           dmaIn := d.(way := DmaWay(s), addr := DmaAddr(s), trackMiss := TrackMiss(s.tv),
                       trackMem := if s.trackWe then Some(i.trackBits) else None))
  }

  function DmaIn(g: D.Config, s: State, i: Input): D.Input {
    M.DmaInput(s.sys, Wire(g, s, i))
  }

  /** The packet taken in this cycle. */
  function Taken(g: D.Config, s: State, i: Input): seq<Request> {
    var c := D.Decide(g, s.sys.dma, DmaIn(g, s, i));
    if c.pktV && i.ctl.dmaIn.pktYumi then [Request(c.pktWrite, DmaAddr(s))] else []
  }

  function Next(g: D.Config, s: State, i: Input): State {
    var w := Wire(g, s, i);
    State(
      M.Next(g, s.sys, w),
      if P.VWe(s.sys.pipe, M.PipeCycle(g, s.sys, w)) then i.tv else s.tv,
      if M.TakesUp(s.sys) then i.stat else s.stat,
      NextChosen(s), NextFlush(g, s),
      s.sys.fsm.START? && M.TrackV(g, s.sys, w),
      s.requests + Taken(g, s, i),
      s.tagUses + (if M.TagV(g, s.sys, w) then 1 else 0), s.trackUses + (if M.TrackV(g, s.sys, w) then 1 else 0))
  }

  // ----- what every cycle keeps --------------------------------------------------

  predicate TvSized(g: D.Config, t: Tv) {
    && t.addr.set_ < g.sets && t.addr.beat < g.beats && t.addr.word < g.words && |t.tags| == g.ways
    && (!g.tracking ==> t.tracked)
  }

  /** The opcode is one of the pipeline's kind. */
  predicate Matches(kind: P.Kind, op: Opcode) {
    match kind
    case Load => op == Ld
    case FullStore => op == St(true)
    case PartialStore => op == St(false)
    case Atomic => op == Amo
    case TagStore => op == Plain
    case Other => !op.Ld? && !op.St? && !op.Amo?
  }

  /** Register widths, what TV holds; and the tracking bits are loaded in the cycle after a miss is taken
      up, in which no command moves data. */
  predicate Inv(g: D.Config, s: State) {
    && M.Inv(g, s.sys) && D.FifoInv(g, s.sys.dma)
    && TvSized(g, s.tv) && s.chosen < g.ways && s.flush < g.ways && s.stat.lru < g.ways
    && (s.sys.pipe.tv.Some? ==> Matches(s.sys.pipe.tv.value.kind, s.tv.op))
    && (s.sys.missing <==> s.sys.pipe.tv.Some? && Misses(g, s.tv))
    && (s.trackWe ==> s.sys.fsm in {M.FLUSH_OP, M.LOCK_OP, M.STORE_TAG_MISS, M.SEND_FILL_ADDR})
  }

  /** What the inputs are: the packet that leaves TL as the tag memory shows it, a way, and legal traffic
      on the DMA engine's two streams. */
  predicate Legal(g: D.Config, s: State, i: Input) {
    && TvSized(g, i.tv) && i.stat.lru < g.ways
    && (s.sys.pipe.tl.Some? ==> Matches(s.sys.pipe.tl.value.kind, i.tv.op))
    && (i.ctl.dmaIn.dataIn.Some? ==> |i.ctl.dmaIn.dataIn.value| == g.words)
    && (i.ctl.dmaIn.outYumi ==> s.sys.dma.outFifo != [])
  }

  lemma WireLegal(g: D.Config, s: State, i: Input)
    requires D.ValidConfig(g) && Inv(g, s) && Legal(g, s, i)
    ensures D.Legal(g, s.sys.dma, DmaIn(g, s, i))
  {
    hide M.Inv, D.FifoInv, Misses, TrackMiss, BranchOf;
  }

  lemma WaysFit(g: D.Config, s: State)
    requires D.ValidConfig(g) && Inv(g, s)
    ensures NextChosen(s) < g.ways && NextFlush(g, s) < g.ways && DmaWay(s) < g.ways
  {
    hide M.Inv, D.FifoInv, Misses, TrackMiss;
  }

  lemma StepInv(g: D.Config, s: State, i: Input)
    requires D.ValidConfig(g) && Inv(g, s) && Legal(g, s, i)
    ensures Inv(g, Next(g, s, i))
  {
    hide D.FifoInv, D.Next, M.DmaControl, Misses, TrackMiss, BranchOf, NextChosen, NextFlush, DmaWay, DmaAddr, TvSized,
      M.NextFsm, M.Inv, P.VWe, Matches, Taken;
    WireLegal(g, s, i);
    WaysFit(g, s);
    M.StepInv(g, s.sys, Wire(g, s, i));
    D.StepFifos(g, s.sys.dma, DmaIn(g, s, i));
    StepTv(g, s, i);
    StepTrackWe(g, s, i);
  }

  /** The packet and what is known of it move into TV together. */
  lemma StepTv(g: D.Config, s: State, i: Input)
    requires Inv(g, s) && Legal(g, s, i)
    ensures var e := Next(g, s, i);
            && (e.sys.pipe.tv.Some? ==> Matches(e.sys.pipe.tv.value.kind, e.tv.op))
            && (e.sys.missing <==> e.sys.pipe.tv.Some? && Misses(g, e.tv))
            && TvSized(g, e.tv) && e.stat.lru < g.ways
  {
    hide D.FifoInv, D.Next, M.DmaControl, HitFound, HitWay, BranchOf, NextChosen, NextFlush, DmaWay, DmaAddr,
      TvSized, M.NextFsm, M.Inv, P.VWe, Taken;
    TvFields(g, s, i);
  }

  lemma TvFields(g: D.Config, s: State, i: Input)
    ensures var e, w := Next(g, s, i), Wire(g, s, i);
            var vWe := P.VWe(s.sys.pipe, M.PipeCycle(g, s.sys, w));
            && e.tv == (if vWe then i.tv else s.tv)
            && e.sys.pipe.tv == (if vWe then s.sys.pipe.tl else s.sys.pipe.tv)
            && e.sys.missing == (if vWe then s.sys.pipe.tl.Some? && !s.sys.pipe.tl.value.kind.TagStore? && Misses(g, i.tv)
                                 else s.sys.missing)
  {
    hide D.Next, M.DmaControl, Misses, TrackMiss, BranchOf, NextChosen, NextFlush, DmaWay, DmaAddr, M.NextFsm, P.VWe, Taken,
      M.TagV, M.TrackV, P.Accepts, P.SbufIn, P.TbufIn, P.SbufYumi, P.TbufYumi;
  }

  lemma StepTrackWe(g: D.Config, s: State, i: Input)
    ensures Next(g, s, i).trackWe ==> Next(g, s, i).sys.fsm in {M.FLUSH_OP, M.LOCK_OP, M.STORE_TAG_MISS, M.SEND_FILL_ADDR}
  {
    hide D.Next, M.DmaControl, Misses, TrackMiss, NextChosen, NextFlush, DmaWay, DmaAddr, Taken, M.TakesUp;
  }

  // ----- a command in progress -----------------------------------------------------

  /** What the data command at hand names. */
  function OpOf(s: State): D.Op {
    D.Op(DmaWay(s), DmaAddr(s), TrackMiss(s.tv))
  }

  predicate MovesData(fsm: M.Fsm) {
    fsm.SEND_EVICT_DATA? || fsm.GET_FILL_DATA?
  }

  /** Until the DMA engine is done the miss unit stays where it is and names the same. */
  lemma CommandStands(g: D.Config, s: State, i: Input)
    requires D.ValidConfig(g) && Inv(g, s) && MovesData(s.sys.fsm)
    ensures D.Steady(DmaIn(g, s, i), OpOf(s)) && DmaIn(g, s, i).cmd == M.Command(s.sys.fsm)
    ensures Next(g, s, i).sys.dma == D.Next(g, s.sys.dma, DmaIn(g, s, i))
    ensures !D.Decide(g, s.sys.dma, DmaIn(g, s, i)).done ==>
              Next(g, s, i).sys.fsm == s.sys.fsm && OpOf(Next(g, s, i)) == OpOf(s)
  {
    hide D.Next;
  }

  /** The DMA engine's inputs from here until it is done, and the state of the machine then. */
  function Phase(g: D.Config, s: State, ins: seq<Input>): seq<D.Input>
    decreases ins
  {
    if ins == [] then []
    else [DmaIn(g, s, ins[0])]
         + if D.Decide(g, s.sys.dma, DmaIn(g, s, ins[0])).done then [] else Phase(g, Next(g, s, ins[0]), ins[1..])
  }

  function PhaseEnd(g: D.Config, s: State, ins: seq<Input>): (State, bool)
    decreases ins
  {
    if ins == [] then (s, false)
    else if D.Decide(g, s.sys.dma, DmaIn(g, s, ins[0])).done then (Next(g, s, ins[0]), true)
    else PhaseEnd(g, Next(g, s, ins[0]), ins[1..])
  }

  predicate LegalRun(g: D.Config, s: State, ins: seq<Input>)
    decreases ins
  {
    ins == [] || (Legal(g, s, ins[0]) && LegalRun(g, Next(g, s, ins[0]), ins[1..]))
  }

  lemma {:induction false} PhaseSteady(g: D.Config, s: State, ins: seq<Input>)
    requires D.ValidConfig(g) && Inv(g, s) && MovesData(s.sys.fsm) && LegalRun(g, s, ins)
    ensures D.SteadyRun(g, s.sys.dma, Phase(g, s, ins), OpOf(s))
    ensures D.Serve(g, s.sys.dma, Phase(g, s, ins)) == (PhaseEnd(g, s, ins).0.sys.dma, PhaseEnd(g, s, ins).1)
    decreases ins
  {
    hide Inv, Legal, Next, OpOf, DmaIn, D.Next, D.Decide, D.Steady, D.Legal, MovesData;
    if ins != [] {
      var i, s' := ins[0], Next(g, s, ins[0]);
      CommandStands(g, s, i);
      WireLegal(g, s, i);
      var p := Phase(g, s, ins);
      if D.Decide(g, s.sys.dma, DmaIn(g, s, i)).done {
        assert p == [DmaIn(g, s, i)];
      } else {
        StepInv(g, s, i);
        StillMoves(s, s');
        PhaseSteady(g, s', ins[1..]);
        assert p[0] == DmaIn(g, s, i) && p[1..] == Phase(g, s', ins[1..]);
      }
    }
  }

  lemma StillMoves(s: State, s': State)
    requires MovesData(s.sys.fsm) && s'.sys.fsm == s.sys.fsm
    ensures MovesData(s'.sys.fsm)
  {
  }

  // ----- runs ----------------------------------------------------------------------

  predicate IsReset(g: D.Config, s: State) {
    && M.IsReset(s.sys) && s.chosen == s.flush == 0 && !s.trackWe && TvSized(g, s.tv) && s.stat.lru < g.ways
    && s.sys.dma.inFifo == s.sys.dma.outFifo == [] && s.sys.dma.received == s.sys.dma.consumed == []
    && s.sys.dma.emitted == s.sys.dma.sent == [] && s.requests == [] && s.tagUses == s.trackUses == 0
  }

  lemma ResetInv(g: D.Config, s: State)
    requires D.ValidConfig(g) && IsReset(g, s)
    ensures Inv(g, s)
  {
  }

  function After(g: D.Config, s: State, ins: seq<Input>): State
    decreases ins
  {
    if ins == [] then s else After(g, Next(g, s, ins[0]), ins[1..])
  }

  lemma {:induction false} RunInv(g: D.Config, s: State, ins: seq<Input>)
    requires D.ValidConfig(g) && Inv(g, s) && LegalRun(g, s, ins)
    ensures Inv(g, After(g, s, ins))
    decreases ins
  {
    hide Inv, Legal, Next;
    if ins != [] {
      StepInv(g, s, ins[0]);
      RunInv(g, Next(g, s, ins[0]), ins[1..]);
    }
  }

  /** The registers and the TV stage are the same at the end of the command as when it began. */
  lemma {:induction false} PhaseKeeps(g: D.Config, s: State, ins: seq<Input>)
    requires D.ValidConfig(g) && Inv(g, s) && MovesData(s.sys.fsm) && LegalRun(g, s, ins)
    ensures var (e, done) := PhaseEnd(g, s, ins);
            && DmaWay(e) == DmaWay(s) && e.tv == s.tv
            && (done ==> e.sys.fsm.RECOVER? || (s.sys.fsm.SEND_EVICT_DATA? && e.sys.fsm.GET_FILL_DATA?))
    decreases ins
  {
    hide Inv, Legal, Next, DmaIn, D.Decide, MovesData, DmaWay;
    if ins != [] {
      StepKeeps(g, s, ins[0]);
      if !D.Decide(g, s.sys.dma, DmaIn(g, s, ins[0])).done {
        StepInv(g, s, ins[0]);
        StillMoves(s, Next(g, s, ins[0]));
        PhaseKeeps(g, Next(g, s, ins[0]), ins[1..]);
      }
    }
  }

  lemma StepKeeps(g: D.Config, s: State, i: Input)
    requires D.ValidConfig(g) && Inv(g, s) && MovesData(s.sys.fsm)
    ensures DmaWay(Next(g, s, i)) == DmaWay(s) && Next(g, s, i).tv == s.tv
    ensures if D.Decide(g, s.sys.dma, DmaIn(g, s, i)).done then
              || Next(g, s, i).sys.fsm.RECOVER?
              || (s.sys.fsm.SEND_EVICT_DATA? && Next(g, s, i).sys.fsm.GET_FILL_DATA?)
            else Next(g, s, i).sys.fsm == s.sys.fsm
  {
    hide D.Next;
  }

  lemma FirstCycle(g: D.Config, s: State, ins: seq<Input>)
    requires D.ValidConfig(g) && Inv(g, s) && MovesData(s.sys.fsm) && LegalRun(g, s, ins)
    requires ins != [] && s.sys.dma.fsm.IDLE?
    ensures var p := Phase(g, s, ins);
            && p != [] && p[0].cmd == M.Command(s.sys.fsm) && D.Legal(g, s.sys.dma, p[0]) && D.Steady(p[0], OpOf(s))
            && D.SteadyRun(g, D.Next(g, s.sys.dma, p[0]), p[1..], OpOf(s))
            && D.Serve(g, s.sys.dma, p) == D.Serve(g, D.Next(g, s.sys.dma, p[0]), p[1..])
  {
    hide Inv, Legal, Next, OpOf, D.Next, D.Steady, D.Legal;
    PhaseSteady(g, s, ins);
    CommandStands(g, s, ins[0]);
    WireLegal(g, s, ins[0]);
  }

  /** Evictions, in the whole machine: in any run from reset, when the miss unit begins to evict data,
      then however the traffic stalls, by the time it goes on the DMA engine has emitted exactly the
      block of the addressed set in the way the miss unit chose, in order, right wherever a word is
      tracked; the memory and tracking bits are unchanged, and if a fill follows it is into that way. */
  lemma {:induction false} EvictionServed(g: D.Config, r: State, before: seq<Input>, ins: seq<Input>)
    requires D.ValidConfig(g) && IsReset(g, r) && LegalRun(g, r, before)
    requires var s := After(g, r, before);
             s.sys.fsm.SEND_EVICT_DATA? && s.sys.dma.fsm.IDLE? && ins != [] && LegalRun(g, s, ins)
    ensures var s := After(g, r, before);
            var (e, done) := PhaseEnd(g, s, ins);
            var op := D.Op(DmaWay(s), D.Addr(TagOf(s), s.tv.addr.set_, 0, 0), TrackMiss(s.tv));
            && (done ==> D.Evicted(g, e.sys.dma, op, |s.sys.dma.emitted|))
            && (done ==> e.sys.fsm.RECOVER? || e.sys.fsm.GET_FILL_DATA?)
            && e.sys.dma.mem == s.sys.dma.mem && e.sys.dma.track == s.sys.dma.track
            && DmaWay(e) == DmaWay(s) && e.tv == s.tv
  {
    hide Inv, After, LegalRun, Phase, PhaseEnd, D.Next, D.Serve, D.SteadyRun, D.Room, D.Evicted, D.Legal, D.Steady, DmaWay, TagOf,
      IsReset;
    ResetInv(g, r);
    RunInv(g, r, before);
    var s := After(g, r, before);
    var p := Phase(g, s, ins);
    FirstCycle(g, s, ins);
    PhaseSteady(g, s, ins);
    PhaseKeeps(g, s, ins);
    IdleCounter(g, s);
    D.EvictionExact(g, s.sys.dma, p[0], p[1..], OpOf(s));
  }

  lemma IdleCounter(g: D.Config, s: State)
    requires Inv(g, s)
    ensures D.CounterInv(g, s.sys.dma) && D.FifoInv(g, s.sys.dma)
  {
  }

  /** Fills likewise: by the time the miss unit goes on to recover, the oldest burst_len beats that had
      arrived have been written over the block of the addressed set in the chosen way and nothing
      else has been, on a track miss no tracked word; the snoop word is the one TV addresses. */
  lemma {:induction false} FillServed(g: D.Config, r: State, before: seq<Input>, ins: seq<Input>)
    requires D.ValidConfig(g) && IsReset(g, r) && LegalRun(g, r, before)
    requires var s := After(g, r, before);
             s.sys.fsm.GET_FILL_DATA? && s.sys.dma.fsm.IDLE? && ins != [] && LegalRun(g, s, ins)
    ensures var s := After(g, r, before);
            var (e, done) := PhaseEnd(g, s, ins);
            && (done ==> e.sys.fsm.RECOVER?
                         && D.Filled(g, e.sys.dma, D.Op(DmaWay(s), s.tv.addr, TrackMiss(s.tv)),
                                     |s.sys.dma.consumed|, s.sys.dma.mem))
            && e.sys.dma.track == s.sys.dma.track && DmaWay(e) == DmaWay(s) && e.tv == s.tv
  {
    hide Inv, After, LegalRun, Phase, PhaseEnd, D.Next, D.Serve, D.SteadyRun, D.Filled, D.Legal, D.Steady, DmaWay, IsReset;
    ResetInv(g, r);
    RunInv(g, r, before);
    var s := After(g, r, before);
    var p := Phase(g, s, ins);
    FirstCycle(g, s, ins);
    PhaseSteady(g, s, ins);
    PhaseKeeps(g, s, ins);
    IdleCounter(g, s);
    D.FillExact(g, s.sys.dma, p[0], p[1..], OpOf(s));
  }
}
