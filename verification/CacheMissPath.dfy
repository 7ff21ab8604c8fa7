/** What one miss does, whichever path the miss unit takes: which way it is about, what the memory side
    is asked for, what is evicted and what is filled. Stated in terms of the packet in TV and of what
    the tag and stat memories say of its set, not of the state machine. */
module CacheMissPath {
  import P = CachePipeline
  import D = CacheDma
  import M = CacheMiss
  import opened CacheCommand

  // ----- what a miss is about --------------------------------------------------------

  /** Way w holds the addressed block. */
  predicate Holds(t: Tv, w: nat) {
    w < |t.tags| && t.tags[w] == t.addr.tag && w in t.valid
  }

  predicate InCache(t: Tv) {
    exists w :: 0 <= w < |t.tags| && Holds(t, w)
  }

  predicate IsHit(t: Tv, w: nat) {
    Holds(t, w) && forall v :: 0 <= v < w ==> !Holds(t, v)
  }

  /** The addressed block is in the cache and locked. */
  predicate HeldLocked(t: Tv) {
    exists w :: 0 <= w < |t.tags| && IsHit(t, w) && w in t.locked
  }

  predicate Free(t: Tv, w: nat) {
    w < |t.tags| && w !in t.valid && w !in t.locked
  }

  /** The lowest free way; without one, the least recently used. */
  predicate IsVictim(t: Tv, stat: Stat, w: nat) {
    if exists v :: 0 <= v < |t.tags| && Free(t, v) then Free(t, w) && forall v :: 0 <= v < w ==> !Free(t, v)
    else w == stat.lru
  }

  /** An invalidation and the lock operations on a block in the cache move no data. */
  predicate MovesNothing(t: Tv) {
    t.op.AInv? || t.op.AUnlock? || (t.op.ALock? && InCache(t))
  }

  /** Flushes, and with word tracking stores of whole words, need no block from memory. */
  predicate WritesBackOnly(g: D.Config, t: Tv) {
    t.op.TagFl? || t.op.Afl? || t.op.AflInv? || (g.tracking && t.op == St(true))
  }

  predicate Fetches(g: D.Config, t: Tv) {
    !MovesNothing(t) && !WritesBackOnly(g, t)
  }

  /** The way a miss is about: the one a flush names or hits; the one that holds the block but not the
      word; or the one to replace. */
  predicate Target(g: D.Config, t: Tv, stat: Stat, w: nat)
    requires g.ways >= 1
  {
    if t.op.TagFl? then w == t.addr.tag % g.ways
    else if InCache(t) then IsHit(t, w)
    else IsVictim(t, stat, w)
  }

  /** Its block is lost unless it is written back: it is valid and dirty, and is to be flushed or
      replaced rather than completed. */
  predicate MustSave(t: Tv, stat: Stat, w: nat) {
    w in stat.dirty && w in t.valid && (t.op.Ld? || t.op.Amo? || t.op.St? ==> !InCache(t))
  }

  lemma HitIs(t: Tv)
    ensures HitFound(t) <==> InCache(t)
    ensures HitFound(t) ==> IsHit(t, HitWay(t))
  {
    var bits := HitBits(t);
    var k := LowestSet(bits);
    assert forall w :: 0 <= w < |bits| ==> (bits[w] <==> Holds(t, w));
    assert k < |bits| ==> bits[k];
  }

  lemma VictimIs(t: Tv, stat: Stat)
    ensures IsVictim(t, stat, Replaced(t, stat))
  {
    var bits := FreeBits(t);
    var k := LowestSet(bits);
    assert forall w :: 0 <= w < |bits| ==> (bits[w] <==> Free(t, w));
    assert k < |bits| ==> bits[k];
  }

  /** Which packets miss: loads, stores and atomics whose block is not in the cache or, unless a whole
      word is stored, whose word is not tracked; flushes and invalidations of what is in the cache; locks
      that are not held already, unlocks of those that are. */
  lemma MissesWhen(g: D.Config, t: Tv)
    requires g.ways >= 1
    ensures Misses(g, t) <==>
            match t.op
            case Ld => !InCache(t) || !t.tracked
            case Amo => !InCache(t) || !t.tracked
            case St(whole) => !InCache(t) || (!whole && !t.tracked)
            case TagFl => t.addr.tag % g.ways in t.valid
            case Plain => false
            case ALock => !HeldLocked(t)
            case AUnlock => HeldLocked(t)
            case _ => InCache(t)
  {
    hide HitFound, HitWay, InCache, IsHit, HeldLocked;
    HitIs(t);
    HitLocked(t);
  }

  /** What the hit way is, every way that hits is. */
  lemma HitLocked(t: Tv)
    ensures HeldLocked(t) <==> InCache(t) && HitWay(t) in t.locked
  {
    hide HitFound, HitWay, IsHit, InCache;
    HitIs(t);
    HitUnique(t);
    if InCache(t) {
      HitFits(t);
    }
  }

  lemma HitFits(t: Tv)
    requires InCache(t)
    ensures IsHit(t, HitWay(t)) && HitWay(t) < |t.tags|
  {
    hide HitFound, HitWay;
    HitIs(t);
  }

  lemma HitSame(t: Tv, v: nat, w: nat)
    requires IsHit(t, v) && IsHit(t, w)
    ensures v == w
  {
  }

  lemma HitUnique(t: Tv)
    ensures forall v, w :: 0 <= v < |t.tags| && 0 <= w < |t.tags| && IsHit(t, v) && IsHit(t, w) ==> v == w
    ensures (exists w :: 0 <= w < |t.tags| && IsHit(t, w)) <==> InCache(t)
  {
    hide HitFound, HitWay;
    HitIs(t);
    forall v, w | 0 <= v < |t.tags| && 0 <= w < |t.tags| && IsHit(t, v) && IsHit(t, w) ensures v == w {
      HitSame(t, v, w);
    }
    if InCache(t) {
      assert IsHit(t, HitWay(t)) && HitWay(t) < |t.tags|;
    }
  }

  // ----- what has moved ---------------------------------------------------------------

  /** bs is the block of a set and way, each beat right unless none of its words is tracked. */
  ghost predicate IsBlock(
      g: D.Config, mem: map<D.Loc, D.Word>, track: set<D.Bit>, set_: nat, way: nat, bs: seq<D.Beat>)
  {
    && |bs| == g.beats
    && forall b, w :: 0 <= b < g.beats && 0 <= w < g.words && Tracked(g, track, way, b) ==>
         IsWord(mem, set_, way, bs[b], b, w)
  }

  predicate IsWord(mem: map<D.Loc, D.Word>, set_: nat, way: nat, beat: D.Beat, b: nat, w: nat) {
    w < |beat| && beat[w] == D.Read(mem, D.Loc(set_, way, b, w))
  }

  predicate Tracked(g: D.Config, track: set<D.Bit>, way: nat, beat: nat) {
    g.tracking ==> exists w :: 0 <= w < g.words && D.Bit(way, beat, w) in track
  }

  lemma TrackedIs(g: D.Config, track: set<D.Bit>, way: nat, beat: nat)
    ensures Tracked(g, track, way, beat) <==> (g.tracking ==> D.AnyTracked(g, track, way, beat))
  {
  }

  lemma EvictedWord(g: D.Config, d: D.State, op: D.Op, j: nat, b: D.Beat, w: nat)
    requires D.BeatRight(g, d, op, j, b) && Tracked(g, d.track, op.way, j) && w < g.words
    ensures IsWord(d.mem, op.addr.set_, op.way, b, j, w)
  {
    hide Tracked, D.AnyTracked, D.Read;
    TrackedIs(g, d.track, op.way, j);
    assert b == D.ReadBeat(g, d.mem, op.addr.set_, op.way, j);
  }

  lemma EvictedBlock(g: D.Config, d: D.State, op: D.Op, start: nat)
    requires D.Evicted(g, d, op, start)
    ensures IsBlock(g, d.mem, d.track, op.addr.set_, op.way, d.emitted[start..])
  {
    hide Tracked, IsWord, D.BeatRight;
    var bs := d.emitted[start..];
    forall b, w | 0 <= b < g.beats && 0 <= w < g.words && Tracked(g, d.track, op.way, b)
      ensures IsWord(d.mem, op.addr.set_, op.way, bs[b], b, w)
    {
      assert D.BeatRight(g, d, op, b, bs[b]);
      EvictedWord(g, d, op, b, bs[b], w);
    }
  }

  predicate NothingEvicted(s0: State, s: State) {
    s.sys.dma.emitted == s0.sys.dma.emitted
  }

  predicate NothingFilled(s0: State, s: State) {
    s.sys.dma.consumed == s0.sys.dma.consumed && s.sys.dma.mem == s0.sys.dma.mem
  }

  function ReadRequest(g: D.Config, t: Tv): seq<Request> {
    if Fetches(g, t) then [Request(false, D.Addr(t.addr.tag, t.addr.set_, 0, 0))] else []
  }

  function WriteRequest(t: Tv, w: nat): seq<Request> {
    if w < |t.tags| then [Request(true, D.Addr(t.tags[w], t.addr.set_, 0, 0))] else []
  }

  /** The way stands, and its block has been written back if and only if it would be lost. */
  ghost predicate Settled(g: D.Config, s0: State, s: State)
    requires g.ways >= 1
  {
    var w := DmaWay(s);
    && Target(g, s.tv, s.stat, w)
    && if MustSave(s.tv, s.stat, w) then
         && s0.sys.dma.emitted <= s.sys.dma.emitted
         && IsBlock(g, s0.sys.dma.mem, s.sys.dma.track, s.tv.addr.set_, w, s.sys.dma.emitted[|s0.sys.dma.emitted|..])
         && s.requests == s0.requests + ReadRequest(g, s.tv) + WriteRequest(s.tv, w)
       else NothingEvicted(s0, s) && s.requests == s0.requests + ReadRequest(g, s.tv)
  }

  function FillOp(s: State): D.Op {
    D.Op(DmaWay(s), s.tv.addr, InCache(s.tv))
  }

  function EvictOp(s: State): D.Op {
    D.Op(DmaWay(s), D.Addr(TagOf(s), s.tv.addr.set_, 0, 0), TrackMiss(s.tv))
  }

  /** The whole of it, once the miss unit recovers. */
  ghost predicate Outcome(g: D.Config, s0: State, s: State)
    requires g.ways >= 1
  {
    if MovesNothing(s.tv) then NothingEvicted(s0, s) && NothingFilled(s0, s) && s.requests == s0.requests
    else
      && Settled(g, s0, s)
      && if Fetches(g, s.tv) then D.Filled(g, s.sys.dma, FillOp(s), |s0.sys.dma.consumed|, s0.sys.dma.mem)
         else NothingFilled(s0, s)
  }

  predicate Quiet(s0: State, s: State) {
    NothingEvicted(s0, s) && NothingFilled(s0, s) && s.sys.dma.fsm.IDLE?
  }

  /** Accesses to the tag and track memories since the miss was taken up: the tags have been written
      or not; with word tracking the track memory has been read, and has been written or not. */
  predicate Marked(g: D.Config, s0: State, s: State, tags: bool, track: bool) {
    && s.tagUses == s0.tagUses + (if tags then 1 else 0)
    && s.trackUses == s0.trackUses + (if g.tracking then 1 else 0) + (if g.tracking && track then 1 else 0)
  }

  /** The block's words change their tracking: it has been fetched, or given to a store. */
  predicate Retracks(g: D.Config, t: Tv) {
    Fetches(g, t) || t.op == St(true)
  }

  /** The evict route is taken for a block that would be lost. */
  predicate Saving(g: D.Config, s0: State, s: State)
    requires g.ways >= 1
  {
    && !MovesNothing(s.tv) && Target(g, s.tv, s.stat, DmaWay(s)) && MustSave(s.tv, s.stat, DmaWay(s))
    && NothingFilled(s0, s)
  }

  /** s0 is where the miss was taken up; s, later, is still at it. */
  ghost predicate Progress(g: D.Config, s0: State, s: State)
    requires g.ways >= 1
  {
    match s.sys.fsm
    case START => false
    case FLUSH_OP => GotoFlush(s.tv) && Quiet(s0, s) && s.requests == s0.requests
    case LOCK_OP => MovesNothing(s.tv) && !GotoFlush(s.tv) && Quiet(s0, s) && s.requests == s0.requests
    case STORE_TAG_MISS => g.tracking && s.tv.op == St(true) && Quiet(s0, s) && s.requests == s0.requests
    case SEND_FILL_ADDR => Fetches(g, s.tv) && Quiet(s0, s) && s.requests == s0.requests
    case SEND_EVICT_ADDR => Saving(g, s0, s) && Quiet(s0, s) && s.requests == s0.requests + ReadRequest(g, s.tv)
    case SEND_EVICT_DATA =>
      && Saving(g, s0, s) && s.requests == s0.requests + ReadRequest(g, s.tv) + WriteRequest(s.tv, DmaWay(s))
      && s0.sys.dma.emitted <= s.sys.dma.emitted
      && if s.sys.dma.fsm.IDLE? then NothingEvicted(s0, s)
         else D.Evicting(g, s.sys.dma, EvictOp(s), |s0.sys.dma.emitted|)
    case GET_FILL_DATA =>
      && Fetches(g, s.tv) && Settled(g, s0, s)
      && if s.sys.dma.fsm.IDLE? then NothingFilled(s0, s)
         else D.Filling(g, s.sys.dma, FillOp(s), |s0.sys.dma.consumed|, s0.sys.dma.mem)
    case STORE_TAG_MISS_ALLOCATE => g.tracking && s.tv.op == St(true) && Settled(g, s0, s) && Quiet(s0, s)
    case RECOVER => Outcome(g, s0, s)
    case DONE => Outcome(g, s0, s)
  }

  ghost predicate Underway(g: D.Config, s0: State, s: State)
    requires g.ways >= 1
  {
    && s.tv == s0.tv && s.sys.missing && s.sys.pipe.retired == s0.sys.pipe.retired
    && Progress(g, s0, s)
    && (if s.sys.fsm.RECOVER? || s.sys.fsm.DONE? then Marked(g, s0, s, true, Retracks(g, s.tv))
        else Marked(g, s0, s, GotoFlush(s.tv) && !s.sys.fsm.FLUSH_OP?, false))
  }

  // ----- steps --------------------------------------------------------------------------

  /** While a miss is worked on the packet stays, until the miss unit is done and it retires. */
  lemma Stays(g: D.Config, s: State, i: Input)
    requires D.ValidConfig(g) && Inv(g, s) && s.sys.missing
    ensures var e := Next(g, s, i);
            || (s.sys.fsm.DONE? && |e.sys.pipe.retired| == |s.sys.pipe.retired| + 1)
            || (e.tv == s.tv && e.sys.missing && e.sys.pipe.retired == s.sys.pipe.retired
                && (s.sys.fsm.DONE? ==> e.sys.fsm.DONE?))
    ensures Next(g, s, i).stat == if M.TakesUp(s.sys) then i.stat else s.stat
  {
    hide D.Next, D.FifoInv, M.DmaControl, Misses, TrackMiss, NextChosen, NextFlush, DmaWay, DmaAddr, BranchOf,
      P.SbufIn, P.TbufIn, P.SbufYumi, P.TbufYumi, P.Accepts, P.TlWe, P.SbufHazard;
  }

  /** What the DMA engine does in a cycle, by its own state and command. */
  lemma DmaStep(g: D.Config, s: State, i: Input)
    ensures var d, e := s.sys.dma, Next(g, s, i).sys.dma;
            && e == D.Next(g, d, DmaIn(g, s, i))
            && (!d.fsm.SEND_EVICT_DATA? ==> e.emitted == d.emitted)
            && (!d.fsm.GET_FILL_DATA? ==> e.consumed == d.consumed && e.mem == d.mem)
            && (!s.trackWe ==> e.track == d.track)
            && (d.fsm.IDLE? && !MovesData(s.sys.fsm) ==> e.fsm.IDLE? && e.counter == d.counter && e.snoop == d.snoop)
  {
    hide D.WriteBeat, D.ReadRow, D.Pick, D.Shift, D.WorthReading, DmaWay, DmaAddr, TrackMiss, BranchOf, Misses,
      M.PipeCycle, M.NextFsm, NextChosen, NextFlush, P.NextState, P.VWe, M.TrackV;
  }

  /** The address commands, and no others, make requests, each when it is taken. */
  lemma Requested(g: D.Config, s: State, i: Input)
    requires Inv(g, s)
    ensures var e := Next(g, s, i);
            var done := D.Decide(g, s.sys.dma, DmaIn(g, s, i)).done;
            e.requests == s.requests
              + if s.sys.fsm.SEND_FILL_ADDR? && done then [Request(false, D.Addr(s.tv.addr.tag, s.tv.addr.set_, 0, 0))]
                else if s.sys.fsm.SEND_EVICT_ADDR? && done then [Request(true, D.Addr(TagOf(s), s.tv.addr.set_, 0, 0))]
                else []
  {
    hide D.Next, M.Next, TagOf, DmaWay, Misses, TrackMiss, BranchOf, NextChosen, NextFlush, D.WorthReading;
  }

  /** The accesses to the tag and track memories, by state. */
  lemma Marks(g: D.Config, s: State, i: Input)
    requires Inv(g, s)
    ensures var e, w := Next(g, s, i), Wire(g, s, i);
            var done := D.Decide(g, s.sys.dma, DmaIn(g, s, i)).done;
            var placed := s.sys.fsm.STORE_TAG_MISS_ALLOCATE?
                          || (s.sys.fsm.SEND_EVICT_DATA? && done && g.tracking && s.tv.op == St(true) && !InCache(s.tv));
            var filled := s.sys.fsm.GET_FILL_DATA? && done;
            && e.tagUses == s.tagUses + (if s.sys.fsm.FLUSH_OP? || s.sys.fsm.LOCK_OP? || placed || filled then 1 else 0)
            && e.trackUses == s.trackUses
                 + (if (M.TakesUp(s.sys) && g.tracking) || placed || (filled && g.tracking) then 1 else 0)
  {
    hide D.Next, M.Next, D.Decide, TagOf, DmaWay, DmaAddr, Misses, TrackMiss, HitFound, InCache, NextChosen, NextFlush, EvictFirst;
    HitIs(s.tv);
  }

  /** The state machine's next state, and the way it then names, in the terms above. */
  lemma Turns(g: D.Config, s: State, i: Input)
    requires D.ValidConfig(g) && Inv(g, s) && s.sys.missing && (s.sys.fsm.START? ==> M.TakesUp(s.sys))
    ensures var e, t := Next(g, s, i), s.tv;
            var done := D.Decide(g, s.sys.dma, DmaIn(g, s, i)).done;
            match s.sys.fsm
            case START =>
              e.sys.fsm == if GotoFlush(t) then M.FLUSH_OP else if MovesNothing(t) then M.LOCK_OP
                           else if WritesBackOnly(g, t) then M.STORE_TAG_MISS else M.SEND_FILL_ADDR
            case FLUSH_OP =>
              e.sys.fsm == if !t.op.AInv? && e.flush in s.stat.dirty && e.flush in t.valid then M.SEND_EVICT_ADDR
                           else M.RECOVER
            case LOCK_OP => e.sys.fsm == M.RECOVER
            case STORE_TAG_MISS =>
              e.sys.fsm == if e.chosen in s.stat.dirty && e.chosen in t.valid then M.SEND_EVICT_ADDR
                           else M.STORE_TAG_MISS_ALLOCATE
            case SEND_FILL_ADDR =>
              e.sys.fsm == if !done then M.SEND_FILL_ADDR
                           else if !TrackMiss(t) && e.chosen in s.stat.dirty && e.chosen in t.valid then M.SEND_EVICT_ADDR
                           else M.GET_FILL_DATA
            case SEND_EVICT_ADDR => e.sys.fsm == if done then M.SEND_EVICT_DATA else M.SEND_EVICT_ADDR
            case SEND_EVICT_DATA =>
              e.sys.fsm == if !done then M.SEND_EVICT_DATA
                           else if WritesBackOnly(g, t) then M.RECOVER
                           else M.GET_FILL_DATA
            case GET_FILL_DATA => e.sys.fsm == if done then M.RECOVER else M.GET_FILL_DATA
            case STORE_TAG_MISS_ALLOCATE => e.sys.fsm == M.RECOVER
            case RECOVER => e.sys.fsm == M.DONE
            case DONE => true
  {
    hide D.Next, P.NextState, P.VWe, M.TrackV, M.TagV, InCache, HitFound, NextChosen, NextFlush, DmaWay, DmaAddr,
      P.Retires, D.Decide;
    HitIs(s.tv);
  }

  lemma Names(g: D.Config, s: State, i: Input)
    requires D.ValidConfig(g) && Inv(g, s) && s.sys.missing
    ensures var e, t := Next(g, s, i), s.tv;
            && (s.sys.fsm.FLUSH_OP? && GotoFlush(t) ==> Target(g, t, s.stat, e.flush))
            && (s.sys.fsm.SEND_FILL_ADDR? && Fetches(g, t) ==> Target(g, t, s.stat, e.chosen))
            && (s.sys.fsm.STORE_TAG_MISS? && t.op == St(true) ==> Target(g, t, s.stat, e.chosen))
            && (!s.sys.fsm.FLUSH_OP? ==> e.flush == s.flush)
            && (!s.sys.fsm.SEND_FILL_ADDR? && !s.sys.fsm.STORE_TAG_MISS? ==> e.chosen == s.chosen)
            && (TrackMiss(t) <==> (t.op.Ld? || t.op.Amo? || t.op == St(false)) && InCache(t))
            && (t.op.St? && t.op.whole ==> !InCache(t))
  {
    hide D.Next, M.Next, InCache, HitFound, HitWay, Replaced, IsHit, IsVictim;
    HitIs(s.tv);
    VictimIs(s.tv, s.stat);
  }

  lemma NoPhase(g: D.Config, s: State)
    requires Inv(g, s)
    ensures (s.sys.dma.fsm.SEND_EVICT_DATA? ==> s.sys.fsm.SEND_EVICT_DATA?)
    ensures (s.sys.dma.fsm.GET_FILL_DATA? ==> s.sys.fsm.GET_FILL_DATA?)
    ensures s.trackWe ==> !MovesData(s.sys.fsm) && !s.sys.fsm.SEND_EVICT_ADDR?
    ensures s.trackWe ==> !s.sys.fsm.STORE_TAG_MISS_ALLOCATE? && !s.sys.fsm.RECOVER? && !s.sys.fsm.DONE?
    ensures s.sys.dma.fsm.IDLE? ==> s.sys.dma.counter == 0
    ensures s.sys.missing ==> Misses(g, s.tv)
  {
  }

  lemma TakenUp(g: D.Config, s: State, i: Input)
    requires D.ValidConfig(g) && Inv(g, s) && M.TakesUp(s.sys)
    ensures Underway(g, s, Next(g, s, i)) && Next(g, s, i).stat == i.stat
  {
    hide Next, Inv, InCache, DmaIn, D.Next, D.Decide, Misses, TrackMiss, TagOf, D.Evicting, D.Filling, IsBlock;
    Stays(g, s, i);
    DmaStep(g, s, i);
    Requested(g, s, i);
    Marks(g, s, i);
    Turns(g, s, i);
    NoPhase(g, s);
  }

  /** The three states that choose a path; the rest of the miss's way is as before. */
  lemma Decides(g: D.Config, s0: State, s: State, i: Input)
    requires D.ValidConfig(g) && Inv(g, s) && Underway(g, s0, s)
    requires s.sys.fsm in {M.FLUSH_OP, M.LOCK_OP, M.STORE_TAG_MISS}
    ensures Underway(g, s0, Next(g, s, i)) && Next(g, s, i).stat == s.stat
  {
    hide Next, Inv, InCache, DmaIn, D.Next, D.Decide, Misses, TrackMiss, TagOf, D.Evicting, D.Filling, D.Filled, IsBlock,
      Target, WriteRequest;
    Stays(g, s, i);
    DmaStep(g, s, i);
    Requested(g, s, i);
    Marks(g, s, i);
    Turns(g, s, i);
    Names(g, s, i);
    NoPhase(g, s);
  }

  lemma SameWay(s: State, e: State)
    requires e.tv == s.tv && e.chosen == s.chosen && e.flush == s.flush
    ensures DmaWay(e) == DmaWay(s) && TagOf(e) == TagOf(s) && EvictOp(e) == EvictOp(s) && FillOp(e) == FillOp(s)
  {
    hide TrackMiss, InCache;
  }

  /** The two address commands. */
  lemma Asks(g: D.Config, s0: State, s: State, i: Input)
    requires D.ValidConfig(g) && Inv(g, s) && Underway(g, s0, s)
    requires s.sys.fsm.SEND_FILL_ADDR? || s.sys.fsm.SEND_EVICT_ADDR?
    ensures Underway(g, s0, Next(g, s, i)) && Next(g, s, i).stat == s.stat
  {
    hide Next, Inv, InCache, DmaIn, D.Next, D.Decide, Misses, TrackMiss, D.Evicting, D.Filling, D.Filled, IsBlock,
      Target;
    Stays(g, s, i);
    DmaStep(g, s, i);
    Requested(g, s, i);
    Marks(g, s, i);
    Turns(g, s, i);
    Names(g, s, i);
    NoPhase(g, s);
    TargetFits(g, s);
  }

  lemma TargetFits(g: D.Config, s: State)
    requires Inv(g, s)
    ensures DmaWay(s) < |s.tv.tags|
  {
    hide M.Inv, D.FifoInv, Misses;
  }

  /** The DMA engine's own step, for the miss unit's command. */
  lemma EvictsOne(g: D.Config, s: State, i: Input, start: nat)
    requires D.ValidConfig(g) && Inv(g, s) && Legal(g, s, i) && s.sys.fsm.SEND_EVICT_DATA?
    requires if s.sys.dma.fsm.IDLE? then |s.sys.dma.emitted| == start else D.Evicting(g, s.sys.dma, EvictOp(s), start)
    ensures var d, e := s.sys.dma, D.Next(g, s.sys.dma, DmaIn(g, s, i));
            && (if D.Decide(g, d, DmaIn(g, s, i)).done then D.Evicted(g, e, EvictOp(s), start)
                else D.Evicting(g, e, EvictOp(s), start))
            && d.emitted <= e.emitted && e.mem == d.mem && e.track == d.track && e.consumed == d.consumed
  {
    hide D.Next, D.Decide, D.Evicting, D.Evicted, Inv, Legal, Next, DmaIn, TagOf, DmaWay, D.Legal;
    NoPhase(g, s);
    WireLegal(g, s, i);
    CommandStands(g, s, i);
    DmaStep(g, s, i);
    if s.sys.dma.fsm.IDLE? {
      D.EvictStarts(g, s.sys.dma, DmaIn(g, s, i), EvictOp(s));
    } else {
      D.EvictStep(g, s.sys.dma, DmaIn(g, s, i), EvictOp(s), start);
    }
  }

  lemma Evicts(g: D.Config, s0: State, s: State, i: Input)
    requires D.ValidConfig(g) && Inv(g, s) && Legal(g, s, i) && Underway(g, s0, s) && s.sys.fsm.SEND_EVICT_DATA?
    ensures Underway(g, s0, Next(g, s, i)) && Next(g, s, i).stat == s.stat
  {
    hide Next, Inv, Legal, InCache, DmaIn, D.Next, D.Decide, Misses, TrackMiss, D.Evicting, D.Evicted, D.Filling, D.Filled,
      IsBlock, Target, MustSave, DmaWay, TagOf;
    var e := Next(g, s, i);
    Stays(g, s, i);
    DmaStep(g, s, i);
    Requested(g, s, i);
    Marks(g, s, i);
    Turns(g, s, i);
    Names(g, s, i);
    NoPhase(g, s);
    SameWay(s, e);
    EvictsOne(g, s, i, |s0.sys.dma.emitted|);
    if D.Decide(g, s.sys.dma, DmaIn(g, s, i)).done {
      EvictedBlock(g, e.sys.dma, EvictOp(s), |s0.sys.dma.emitted|);
      DoneIdle(g, e.sys.dma, EvictOp(s), |s0.sys.dma.emitted|);
    } else {
      NotIdle(g, e.sys.dma, EvictOp(s), |s0.sys.dma.emitted|);
    }
  }

  lemma NotIdle(g: D.Config, d: D.State, op: D.Op, start: nat)
    requires D.Evicting(g, d, op, start)
    ensures !d.fsm.IDLE?
  {
  }

  lemma DoneIdle(g: D.Config, d: D.State, op: D.Op, start: nat)
    requires D.Evicted(g, d, op, start)
    ensures d.fsm.IDLE?
  {
  }

  lemma FillsOne(g: D.Config, s: State, i: Input, start: nat, mem0: map<D.Loc, D.Word>)
    requires D.ValidConfig(g) && Inv(g, s) && Legal(g, s, i) && s.sys.fsm.GET_FILL_DATA? && TrackMiss(s.tv) == InCache(s.tv)
    requires if s.sys.dma.fsm.IDLE? then |s.sys.dma.consumed| == start && s.sys.dma.mem == mem0
             else D.Filling(g, s.sys.dma, FillOp(s), start, mem0)
    ensures var d, e := s.sys.dma, D.Next(g, s.sys.dma, DmaIn(g, s, i));
            && (if D.Decide(g, d, DmaIn(g, s, i)).done then D.Filled(g, e, FillOp(s), start, mem0)
                else D.Filling(g, e, FillOp(s), start, mem0) && !e.fsm.IDLE?)
            && e.emitted == d.emitted && e.track == d.track
  {
    hide D.Next, D.Decide, D.Filled, D.Wrote, D.FilledSoFar, Inv, Legal, Next, DmaIn, TagOf, DmaWay, D.Legal, TrackMiss, InCache, D.FifoInv;
    NoPhase(g, s);
    WireLegal(g, s, i);
    CommandStands(g, s, i);
    DmaStep(g, s, i);
    assert OpOf(s) == FillOp(s) by { DmaNames(s); }
    if s.sys.dma.fsm.IDLE? {
      D.FillStarts(g, s.sys.dma, DmaIn(g, s, i), FillOp(s));
    } else {
      IdleCounter(g, s);
      D.FillStep(g, s.sys.dma, DmaIn(g, s, i), FillOp(s), start, mem0);
    }
  }

  lemma DmaNames(s: State)
    requires s.sys.fsm.GET_FILL_DATA?
    ensures DmaAddr(s) == s.tv.addr
  {
  }

  lemma Fills(g: D.Config, s0: State, s: State, i: Input)
    requires D.ValidConfig(g) && Inv(g, s) && Legal(g, s, i) && Underway(g, s0, s) && s.sys.fsm.GET_FILL_DATA?
    ensures Underway(g, s0, Next(g, s, i)) && Next(g, s, i).stat == s.stat
  {
    hide Next, Inv, Legal, InCache, DmaIn, D.Next, D.Decide, TrackMiss, D.Evicting, D.Evicted, D.Filling, D.Filled,
      IsBlock, Target, MustSave, DmaWay, TagOf, Misses;
    var e := Next(g, s, i);
    Stays(g, s, i);
    DmaStep(g, s, i);
    Requested(g, s, i);
    Marks(g, s, i);
    Turns(g, s, i);
    Names(g, s, i);
    NoPhase(g, s);
    SameWay(s, e);
    FetchTracks(g, s.tv);
    FillsOne(g, s, i, |s0.sys.dma.consumed|, s0.sys.dma.mem);
  }

  /** A miss that fetches a block already in the cache is one for an untracked word. */
  lemma FetchTracks(g: D.Config, t: Tv)
    requires Fetches(g, t) && Misses(g, t)
    ensures TrackMiss(t) == InCache(t)
  {
    hide HitFound, InCache;
    HitIs(t);
  }

  lemma Allocates(g: D.Config, s0: State, s: State, i: Input)
    requires D.ValidConfig(g) && Inv(g, s) && Underway(g, s0, s)
    requires s.sys.fsm.STORE_TAG_MISS_ALLOCATE?
    ensures Underway(g, s0, Next(g, s, i)) && Next(g, s, i).stat == s.stat
  {
    hide Next, Inv, Legal, InCache, DmaIn, D.Next, D.Decide, TrackMiss, D.Evicting, D.Filling, D.Filled,
      IsBlock, Target, MustSave, DmaWay, TagOf, Misses;
    var e := Next(g, s, i);
    Stays(g, s, i);
    DmaStep(g, s, i);
    Requested(g, s, i);
    Marks(g, s, i);
    Turns(g, s, i);
    Names(g, s, i);
    NoPhase(g, s);
    SameWay(s, e);
  }

  lemma Finishes(g: D.Config, s0: State, s: State, i: Input)
    requires D.ValidConfig(g) && Inv(g, s) && Underway(g, s0, s)
    requires s.sys.fsm.RECOVER? || s.sys.fsm.DONE?
    requires Next(g, s, i).sys.pipe.retired == s.sys.pipe.retired
    ensures Underway(g, s0, Next(g, s, i)) && Next(g, s, i).stat == s.stat
  {
    hide Next, Inv, Legal, InCache, DmaIn, D.Next, D.Decide, TrackMiss, D.Evicting, D.Filling, D.Wrote,
      IsBlock, Target, MustSave, DmaWay, TagOf, Misses, Retracks, MovesNothing, Fetches, WritesBackOnly;
    var e := Next(g, s, i);
    Stays(g, s, i);
    DmaStep(g, s, i);
    Requested(g, s, i);
    Marks(g, s, i);
    Turns(g, s, i);
    Names(g, s, i);
    NoPhase(g, s);
    SameWay(s, e);
  }

  /** From cycle to cycle, until the packet retires. */
  lemma StepUnderway(g: D.Config, s0: State, s: State, i: Input)
    requires D.ValidConfig(g) && Inv(g, s) && Legal(g, s, i) && Underway(g, s0, s)
    ensures |Next(g, s, i).sys.pipe.retired| > |s.sys.pipe.retired| ||
            (Underway(g, s0, Next(g, s, i)) && Next(g, s, i).stat == s.stat)
  {
    hide Next, Inv, Legal, Progress;
    Stays(g, s, i);
    match s.sys.fsm
    case START => ProgressNot(g, s0, s);
    case FLUSH_OP => Decides(g, s0, s, i);
    case LOCK_OP => Decides(g, s0, s, i);
    case STORE_TAG_MISS => Decides(g, s0, s, i);
    case SEND_FILL_ADDR => Asks(g, s0, s, i);
    case SEND_EVICT_ADDR => Asks(g, s0, s, i);
    case SEND_EVICT_DATA => Evicts(g, s0, s, i);
    case GET_FILL_DATA => Fills(g, s0, s, i);
    case STORE_TAG_MISS_ALLOCATE => Allocates(g, s0, s, i);
    case RECOVER => Finishes(g, s0, s, i);
    case DONE => if |Next(g, s, i).sys.pipe.retired| == |s.sys.pipe.retired| { Finishes(g, s0, s, i); }
  }

  lemma ProgressNot(g: D.Config, s0: State, s: State)
    requires g.ways >= 1 && Progress(g, s0, s)
    ensures !s.sys.fsm.START?
  {
  }

  // ----- runs -----------------------------------------------------------------------------

  lemma RetiredGrows(g: D.Config, s: State, i: Input)
    ensures |Next(g, s, i).sys.pipe.retired| >= |s.sys.pipe.retired|
  {
    hide M.NextFsm, D.Next, NextChosen, NextFlush, Taken, Wire, P.NextTl, P.NextTv, P.Accepts, P.SbufIn, P.TbufIn,
      P.SbufYumi, P.TbufYumi, P.VWe;
  }

  lemma {:induction false} RunUnderway(g: D.Config, s0: State, s: State, ins: seq<Input>)
    requires D.ValidConfig(g) && Inv(g, s) && LegalRun(g, s, ins) && Underway(g, s0, s)
    ensures var e := After(g, s, ins);
            e.sys.pipe.retired == s0.sys.pipe.retired ==> Underway(g, s0, e) && Inv(g, e) && e.stat == s.stat
    decreases ins
  {
    hide Inv, Legal, Next, Progress;
    if ins != [] {
      StepUnderway(g, s0, s, ins[0]);
      StepInv(g, s, ins[0]);
      if |Next(g, s, ins[0]).sys.pipe.retired| > |s.sys.pipe.retired| {
        RunRetires(g, Next(g, s, ins[0]), ins[1..]);
      } else {
        RunUnderway(g, s0, Next(g, s, ins[0]), ins[1..]);
      }
    }
  }

  lemma {:induction false} RunRetires(g: D.Config, s: State, ins: seq<Input>)
    ensures |After(g, s, ins).sys.pipe.retired| >= |s.sys.pipe.retired|
    decreases ins
  {
    hide Next;
    if ins != [] {
      RetiredGrows(g, s, ins[0]);
      RunRetires(g, Next(g, s, ins[0]), ins[1..]);
    }
  }

  /** s is in a run from reset and takes up a miss; e comes later, before the packet has retired. */
  ghost predicate Serving(g: D.Config, r: State, before: seq<Input>, ins: seq<Input>) {
    && D.ValidConfig(g) && IsReset(g, r) && LegalRun(g, r, before) && ins != []
    && LegalRun(g, After(g, r, before), ins) && M.TakesUp(After(g, r, before).sys)
    && After(g, After(g, r, before), ins).sys.pipe.retired == After(g, r, before).sys.pipe.retired
  }

  lemma {:induction false} ServingUnderway(g: D.Config, r: State, before: seq<Input>, ins: seq<Input>)
    requires Serving(g, r, before, ins)
    ensures var s := After(g, r, before);
            var e := After(g, s, ins);
            Underway(g, s, e) && Misses(g, e.tv) && e.stat == ins[0].stat
  {
    hide Inv, Legal, Next, Progress, After, LegalRun, IsReset, Misses, M.TakesUp;
    ResetInv(g, r);
    RunInv(g, r, before);
    var s := After(g, r, before);
    FirstStep(g, s, ins);
    TakenUp(g, s, ins[0]);
    StepInv(g, s, ins[0]);
    RunUnderway(g, s, Next(g, s, ins[0]), ins[1..]);
    NoPhase(g, After(g, s, ins));
  }

  lemma FirstStep(g: D.Config, s: State, ins: seq<Input>)
    requires ins != [] && LegalRun(g, s, ins)
    ensures Legal(g, s, ins[0]) && LegalRun(g, Next(g, s, ins[0]), ins[1..])
    ensures After(g, s, ins) == After(g, Next(g, s, ins[0]), ins[1..])
  {
    hide Legal, Next;
  }

  lemma TrackStep(g: D.Config, s: State, i: Input)
    ensures Next(g, s, i).trackWe <==> g.tracking && M.TakesUp(s.sys)
    ensures Next(g, s, i).sys.dma.track == if s.trackWe then i.trackBits else s.sys.dma.track
  {
    hide D.NextMem, D.NextLatch, D.NextSnoop, D.Decide, D.Shift, M.NextFsm, P.NextState, P.VWe, Misses, TrackMiss, BranchOf,
      NextChosen, NextFlush, DmaWay, DmaAddr, Taken, M.TagV;
  }

  lemma {:induction false} RunTracks(g: D.Config, s0: State, s: State, ins: seq<Input>)
    requires D.ValidConfig(g) && Inv(g, s) && LegalRun(g, s, ins) && Underway(g, s0, s) && !s.trackWe
    requires After(g, s, ins).sys.pipe.retired == s0.sys.pipe.retired
    ensures After(g, s, ins).sys.dma.track == s.sys.dma.track
    decreases ins
  {
    hide Inv, Legal, Next, Progress;
    if ins != [] {
      StepUnderway(g, s0, s, ins[0]);
      StepInv(g, s, ins[0]);
      TrackStep(g, s, ins[0]);
      RunRetires(g, Next(g, s, ins[0]), ins[1..]);
      ProgressNot(g, s0, s);
      RunTracks(g, s0, Next(g, s, ins[0]), ins[1..]);
    }
  }

  /** With word tracking, the tracking bits that the DMA engine works with are the ones the track memory
      gives for the set in the cycle after the miss is taken up. */
  lemma {:induction false} TrackServed(g: D.Config, r: State, before: seq<Input>, ins: seq<Input>)
    requires Serving(g, r, before, ins) && |ins| >= 2 && g.tracking
    ensures After(g, After(g, r, before), ins).sys.dma.track == ins[1].trackBits
  {
    hide Inv, Legal, Next, Progress, After, LegalRun, IsReset, Misses;
    ResetInv(g, r);
    RunInv(g, r, before);
    var s := After(g, r, before);
    var s1 := Next(g, s, ins[0]);
    var s2 := Next(g, s1, ins[1]);
    FirstStep(g, s, ins);
    FirstStep(g, s1, ins[1..]);
    TakenUp(g, s, ins[0]);
    StepInv(g, s, ins[0]);
    StepInv(g, s1, ins[1]);
    TrackStep(g, s, ins[0]);
    TrackStep(g, s1, ins[1]);
    StepUnderway(g, s, s1, ins[1]);
    ProgressNot(g, s, s1);
    RunRetires(g, s2, ins[1..][1..]);
    RunTracks(g, s, s2, ins[1..][1..]);
  }

  /** No dirty block is lost: in any run from reset, once the miss unit fills a way or gives it to a new
      block without filling it, the way is the one that holds the block, on a miss for an untracked
      word, and otherwise the one to replace, and the block that was in it has been emitted if and
      only if it is valid, dirty and to be replaced. */
  lemma {:induction false} VictimSaved(g: D.Config, r: State, before: seq<Input>, ins: seq<Input>)
    requires Serving(g, r, before, ins)
    requires var f := After(g, After(g, r, before), ins).sys.fsm; f.GET_FILL_DATA? || f.STORE_TAG_MISS_ALLOCATE?
    ensures var s := After(g, r, before);
            var e := After(g, s, ins);
            var w, out := DmaWay(e), e.sys.dma.emitted;
            && (if InCache(s.tv) then IsHit(s.tv, w) else IsVictim(s.tv, ins[0].stat, w))
            && (if !InCache(s.tv) && w in ins[0].stat.dirty && w in s.tv.valid then
                  && s.sys.dma.emitted <= out
                  && IsBlock(g, s.sys.dma.mem, e.sys.dma.track, s.tv.addr.set_, w, out[|s.sys.dma.emitted|..])
                else out == s.sys.dma.emitted)
  {
    hide After, Serving, IsBlock, IsHit, IsVictim, InCache, D.Filling, DmaWay, HitFound;
    ServingUnderway(g, r, before, ins);
    var e := After(g, After(g, r, before), ins);
    HitIs(e.tv);
  }

  /** A block is evicted only if it would be lost: whenever the miss unit evicts, the way it names is
      valid and dirty, and is the one the flush names or hits or, on a tag miss, the one to replace. */
  lemma {:induction false} EvictsVictim(g: D.Config, r: State, before: seq<Input>, ins: seq<Input>)
    requires Serving(g, r, before, ins)
    requires var f := After(g, After(g, r, before), ins).sys.fsm; f.SEND_EVICT_ADDR? || f.SEND_EVICT_DATA?
    ensures var s := After(g, r, before);
            var w := DmaWay(After(g, s, ins));
            && w in ins[0].stat.dirty && w in s.tv.valid
            && (if s.tv.op.TagFl? then w == s.tv.addr.tag % g.ways
                else if s.tv.op.Afl? || s.tv.op.AflInv? then IsHit(s.tv, w)
                else !InCache(s.tv) && IsVictim(s.tv, ins[0].stat, w))
  {
    hide After, Serving, IsBlock, IsHit, IsVictim, InCache, D.Evicting, DmaWay, HitFound;
    ServingUnderway(g, r, before, ins);
    var e := After(g, After(g, r, before), ins);
    HitIs(e.tv);
  }

  /** What a miss has done by the time it recovers, in any run from reset, for every opcode.
      An invalidation, an unlock, or a lock of a block in the cache: nothing. */
  lemma {:induction false} NothingServed(g: D.Config, r: State, before: seq<Input>, ins: seq<Input>)
    requires Serving(g, r, before, ins)
    requires var s := After(g, r, before);
             && After(g, s, ins).sys.fsm.RECOVER?
             && (s.tv.op.AInv? || s.tv.op.AUnlock? || (s.tv.op.ALock? && InCache(s.tv)))
    ensures var s := After(g, r, before);
            var e := After(g, s, ins);
            && e.requests == s.requests && e.sys.dma.emitted == s.sys.dma.emitted
            && e.sys.dma.consumed == s.sys.dma.consumed && e.sys.dma.mem == s.sys.dma.mem
  {
    hide After, Serving, IsBlock, IsHit, IsVictim, InCache, D.Filled, DmaWay, HitFound;
    ServingUnderway(g, r, before, ins);
  }

  /** A flush: the way it names, or the one it hits, is written back if and only if it is valid and
      dirty, to the address its tag gives, and nothing is fetched. */
  lemma {:induction false} FlushServed(g: D.Config, r: State, before: seq<Input>, ins: seq<Input>)
    requires Serving(g, r, before, ins)
    requires var s := After(g, r, before);
             After(g, s, ins).sys.fsm.RECOVER? && (s.tv.op.TagFl? || s.tv.op.Afl? || s.tv.op.AflInv?)
    ensures var s := After(g, r, before);
            var e := After(g, s, ins);
            var t, w, out := s.tv, DmaWay(e), e.sys.dma.emitted;
            && w < |t.tags| && (if t.op.TagFl? then w == t.addr.tag % g.ways else IsHit(t, w))
            && e.sys.dma.consumed == s.sys.dma.consumed && e.sys.dma.mem == s.sys.dma.mem
            && (if w in ins[0].stat.dirty && w in t.valid then
                  && e.requests == s.requests + [Request(true, D.Addr(t.tags[w], t.addr.set_, 0, 0))]
                  && s.sys.dma.emitted <= out
                  && IsBlock(g, s.sys.dma.mem, e.sys.dma.track, t.addr.set_, w, out[|s.sys.dma.emitted|..])
                else e.requests == s.requests && out == s.sys.dma.emitted)
  {
    hide After, Serving, IsBlock, IsHit, IsVictim, InCache, D.Filled, DmaWay, HitFound;
    ServingUnderway(g, r, before, ins);
    var e := After(g, After(g, r, before), ins);
    HitIs(e.tv);
    ServingFits(g, r, before, ins);
  }

  lemma {:induction false} ServingFits(g: D.Config, r: State, before: seq<Input>, ins: seq<Input>)
    requires Serving(g, r, before, ins)
    ensures DmaWay(After(g, After(g, r, before), ins)) < |After(g, r, before).tv.tags|
  {
    hide After, LegalRun, IsReset, DmaWay, Progress, Inv;
    ServingUnderway(g, r, before, ins);
    ResetInv(g, r);
    RunInv(g, r, before);
    RunInv(g, After(g, r, before), ins);
    TargetFits(g, After(g, After(g, r, before), ins));
  }

  /** With word tracking, a store of a whole word that misses: the block it replaces is written back if
      and only if it is valid and dirty, and nothing is fetched. */
  lemma {:induction false} StoreServed(g: D.Config, r: State, before: seq<Input>, ins: seq<Input>)
    requires Serving(g, r, before, ins)
    requires var s := After(g, r, before); After(g, s, ins).sys.fsm.RECOVER? && s.tv.op == St(true) && g.tracking
    ensures var s := After(g, r, before);
            var e := After(g, s, ins);
            var t, w, out := s.tv, e.chosen, e.sys.dma.emitted;
            && w < |t.tags| && IsVictim(t, ins[0].stat, w)
            && e.sys.dma.consumed == s.sys.dma.consumed && e.sys.dma.mem == s.sys.dma.mem
            && (if w in ins[0].stat.dirty && w in t.valid then
                  && e.requests == s.requests + [Request(true, D.Addr(t.tags[w], t.addr.set_, 0, 0))]
                  && s.sys.dma.emitted <= out
                  && IsBlock(g, s.sys.dma.mem, e.sys.dma.track, t.addr.set_, w, out[|s.sys.dma.emitted|..])
                else e.requests == s.requests && out == s.sys.dma.emitted)
  {
    hide After, Serving, IsBlock, IsHit, IsVictim, InCache, D.Filled, HitFound;
    ServingUnderway(g, r, before, ins);
    var e := After(g, After(g, r, before), ins);
    HitIs(e.tv);
    ServingFits(g, r, before, ins);
  }

  /** Every other miss: the block is asked for; if its way is to be replaced and what it holds is
      valid and dirty, that is written back; then the block that arrives is written over the way, or on
      a miss for an untracked word over its untracked words. */
  lemma {:induction false} FetchServed(g: D.Config, r: State, before: seq<Input>, ins: seq<Input>)
    requires Serving(g, r, before, ins)
    requires var s := After(g, r, before);
             && After(g, s, ins).sys.fsm.RECOVER?
             && (s.tv.op.Ld? || s.tv.op.Amo? || (s.tv.op.St? && (s.tv.op.whole ==> !g.tracking))
                 || (s.tv.op.ALock? && !InCache(s.tv)))
    ensures var s := After(g, r, before);
            var e := After(g, s, ins);
            var t, w, out, fetch := s.tv, e.chosen, e.sys.dma.emitted, Request(false, D.Addr(s.tv.addr.tag, s.tv.addr.set_, 0, 0));
            && w < |t.tags| && (if InCache(t) then IsHit(t, w) else IsVictim(t, ins[0].stat, w))
            && D.Filled(g, e.sys.dma, D.Op(w, t.addr, InCache(t)), |s.sys.dma.consumed|, s.sys.dma.mem)
            && (if !InCache(t) && w in ins[0].stat.dirty && w in t.valid then
                  && e.requests == s.requests + [fetch, Request(true, D.Addr(t.tags[w], t.addr.set_, 0, 0))]
                  && s.sys.dma.emitted <= out
                  && IsBlock(g, s.sys.dma.mem, e.sys.dma.track, t.addr.set_, w, out[|s.sys.dma.emitted|..])
                else e.requests == s.requests + [fetch] && out == s.sys.dma.emitted)
  {
    hide After, Serving, IsBlock, IsHit, IsVictim, InCache, D.Filled, HitFound;
    ServingUnderway(g, r, before, ins);
    var e := After(g, After(g, r, before), ins);
    HitIs(e.tv);
    ServingFits(g, r, before, ins);
  }

  /** Whatever the miss, by the time it recovers the tags have been written once; with word tracking,
      the track memory has been read once, and written once if the block was fetched or given to a
      store of a whole word; without, it has been left alone. */
  lemma {:induction false} MemoriesServed(g: D.Config, r: State, before: seq<Input>, ins: seq<Input>)
    requires Serving(g, r, before, ins) && After(g, After(g, r, before), ins).sys.fsm.RECOVER?
    ensures var s := After(g, r, before);
            var e, op := After(g, s, ins), s.tv.op;
            && e.tagUses == s.tagUses + 1
            && e.trackUses == s.trackUses +
               if !g.tracking then 0
               else if op.Ld? || op.St? || op.Amo? || (op.ALock? && !InCache(s.tv)) then 2 else 1
  {
    hide After, Serving, Outcome, IsHit, IsVictim, InCache, DmaWay, HitFound;
    ServingUnderway(g, r, before, ins);
    PlainServes(g, After(g, After(g, r, before), ins).tv);
  }

  lemma PlainServes(g: D.Config, t: Tv)
    requires Misses(g, t)
    ensures !t.op.Plain?
  {
  }

  /** Between misses, and while one waits to be taken up or for its result to be taken, nothing is
      asked for and no block moves. */
  lemma NothingBetween(g: D.Config, s: State, i: Input)
    requires D.ValidConfig(g) && Inv(g, s) && (s.sys.fsm.START? || s.sys.fsm.DONE?)
    ensures var e := Next(g, s, i);
            && e.requests == s.requests && e.sys.dma.emitted == s.sys.dma.emitted
            && e.sys.dma.consumed == s.sys.dma.consumed && e.sys.dma.mem == s.sys.dma.mem
  {
    hide Next, Inv, DmaIn, D.Next, D.Decide;
    DmaStep(g, s, i);
    Requested(g, s, i);
    NoPhase(g, s);
  }
}
