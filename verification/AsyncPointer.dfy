/** bsg_async_ptr_gray and bsg_launch_sync_sync: a counter that one clock domain
    advances and another clock domain watches through its Gray code. */
module AsyncPointer {
  import opened GrayCode

  /** All registers of one pointer. bin, binPlus1 and launch belong to the sending
      clock; sync1 and sync2 belong to the watching clock. */
  datatype Pointer = Pointer(bin: Bits, binPlus1: Bits, launch: Bits, sync1: Bits, sync2: Bits)

  /** The state that the documented reset sequence leaves behind. */
  function ResetPointer(w: nat): Pointer {
    Pointer(ToBits(0, w), ToBits(1, w), ToBits(0, w), ToBits(0, w), ToBits(0, w))
  }

  /** Input of the launch flop: the precomputed successor is coded only when the pointer moves. */
  function LaunchData(p: Pointer, inc: bool): Bits {
    if inc then Gray(p.binPlus1) else p.launch
  }

  /** Clock edge in the sending domain. */
  function LaunchEdge(p: Pointer, inc: bool): Pointer {
    p.(bin := if inc then p.binPlus1 else p.bin,
    binPlus1 := if inc then Increment(p.binPlus1) else p.binPlus1,
    launch := LaunchData(p, inc))
  }

  /** Clock edge in the watching domain, the first flop capturing sample. */
  function SyncEdge(p: Pointer, sample: Bits): Pointer {
    p.(sync1 := sample, sync2 := p.sync1)
  }

  /** Clock edges of the two domains: apart, or so close that the first
      synchroniser flop captures each bit before or after the launch. */
  datatype Edge =
    | Launch(inc: bool)
    | Sync
    | Coincident(inc: bool, sample: Bits)

  predicate Possible(p: Pointer, e: Edge) {
    e.Coincident? ==> IsSample(e.sample, p.launch, LaunchData(p, e.inc))
  }

  function Step(p: Pointer, e: Edge): Pointer {
    match e
    case Launch(inc) => LaunchEdge(p, inc)
    case Sync => SyncEdge(p, p.launch)
    case Coincident(inc, sample) => SyncEdge(LaunchEdge(p, inc), sample)
  }

  function Run(p: Pointer, es: seq<Edge>): Pointer
    decreases es
  {
    if es == [] then p else Run(Step(p, es[0]), es[1..])
  }

  predicate PossibleRun(p: Pointer, es: seq<Edge>)
    decreases es
  {
    es == [] || (Possible(p, es[0]) && PossibleRun(Step(p, es[0]), es[1..]))
  }

  /** The unbounded counts behind the registers: how often the pointer was advanced,
      and which of those counts the two synchroniser flops hold. */
  datatype Counts = Counts(sent: nat, sync1: nat, sync2: nat)

  predicate Tracks(p: Pointer, w: nat, c: Counts) {
    && p.bin == ToBits(c.sent, w)
    && p.binPlus1 == ToBits(c.sent + 1, w)
    && p.launch == GrayOf(c.sent, w)
    && p.sync1 == GrayOf(c.sync1, w)
    && p.sync2 == GrayOf(c.sync2, w)
    && c.sync2 <= c.sync1 <= c.sent
  }

  /** c2 is a possible successor of c1 when edge e happens: the second flop takes the
      first one's count and the first takes the count just before or just after the launch. */
  predicate Follows(c1: Counts, e: Edge, c2: Counts) {
    && c2.sent == c1.sent + (if !e.Sync? && e.inc then 1 else 0)
    && (e.Launch? ==> c2.sync1 == c1.sync1 && c2.sync2 == c1.sync2)
    && (!e.Launch? ==> c2.sync2 == c1.sync1 && (c2.sync1 == c1.sent || c2.sync1 == c2.sent))
  }

  lemma {:induction false} ResetTracks(w: nat)
    ensures Tracks(ResetPointer(w), w, Counts(0, 0, 0))
  {
    var z := ToBits(0, w);
    ZeroBits(w);
    assert Gray(z) == z by {
      forall i | 0 <= i < w ensures Gray(z)[i] == z[i] {
        assert !ShiftRight(z)[i];
      }
    }
  }

  lemma {:induction false} ZeroBits(w: nat)
    ensures forall i :: 0 <= i < w ==> !ToBits(0, w)[i]
  {
    if w > 0 {
      ZeroBits(w - 1);
    }
  }

  lemma LaunchTracks(p: Pointer, w: nat, c: Counts, inc: bool)
    requires Tracks(p, w, c)
    ensures Tracks(LaunchEdge(p, inc), w, c.(sent := if inc then c.sent + 1 else c.sent))
  {
    hide ToBits, Gray, Increment;
    IncrementCounts(c.sent + 1, w);
  }

  /** The metastable capture of a launch in progress is the count before or after it. */
  lemma CaptureTracks(p: Pointer, w: nat, c: Counts, inc: bool, sample: Bits) returns (caught: nat)
    requires Tracks(p, w, c) && IsSample(sample, p.launch, LaunchData(p, inc))
    ensures sample == GrayOf(caught, w)
    ensures caught == c.sent || caught == (if inc then c.sent + 1 else c.sent)
  {
    hide ToBits, Gray, Increment, IsSample;
    SampleIsOldOrNew(sample, c.sent, inc, w);
    caught := if sample == GrayOf(c.sent, w) then c.sent else c.sent + 1;
  }

  /** One edge, in any of its metastable outcomes, moves the registers along the counts. */
  lemma StepTracks(p: Pointer, w: nat, c: Counts, e: Edge) returns (c': Counts)
    requires Tracks(p, w, c) && Possible(p, e)
    ensures Tracks(Step(p, e), w, c') && Follows(c, e, c')
  {
    hide ToBits, Gray, GrayOf, LaunchEdge, LaunchData, IsSample;
    match e
    case Launch(inc) =>
      c' := c.(sent := if inc then c.sent + 1 else c.sent);
      LaunchTracks(p, w, c, inc);
    case Sync =>
      c' := Counts(c.sent, c.sent, c.sync1);
    case Coincident(inc, sample) =>
      LaunchTracks(p, w, c, inc);
      var caught := CaptureTracks(p, w, c, inc, sample);
      c' := Counts(if inc then c.sent + 1 else c.sent, caught, c.sync1);
  }

  function Increments(es: seq<Edge>): nat {
    if es == [] then 0 else (if !es[0].Sync? && es[0].inc then 1 else 0) + Increments(es[1..])
  }

  function SyncEdges(es: seq<Edge>): nat {
    if es == [] then 0 else (if es[0].Launch? then 0 else 1) + SyncEdges(es[1..])
  }

  /** Over any interleaving the synchronised counts only move forwards, never pass the
      sender, and after two watching-side edges have caught up with where the sender was. */
  lemma {:induction false} RunTracks(p: Pointer, w: nat, c: Counts, es: seq<Edge>) returns (c': Counts)
    requires Tracks(p, w, c) && PossibleRun(p, es)
    ensures Tracks(Run(p, es), w, c')
    ensures c'.sent == c.sent + Increments(es)
    ensures c.sync1 <= c'.sync1 && c.sync2 <= c'.sync2
    ensures SyncEdges(es) >= 1 ==> c'.sync1 >= c.sent && c'.sync2 >= c.sync1
    ensures SyncEdges(es) >= 2 ==> c'.sync2 >= c.sent
    decreases es
  {
    if es == [] {
      c' := c;
    } else {
      var d := StepTracks(p, w, c, es[0]);
      c' := RunTracks(Step(p, es[0]), w, d, es[1..]);
    }
  }

  /** From reset, what the watching domain sees after any run is the Gray code of a count
      that the sending domain has already reached. */
  lemma SynchronisedPointerIsPast(w: nat, es: seq<Edge>)
    requires PossibleRun(ResetPointer(w), es)
    ensures exists c :: Tracks(Run(ResetPointer(w), es), w, c) && c.sent == Increments(es)
  {
    ResetTracks(w);
    var c := RunTracks(ResetPointer(w), w, Counts(0, 0, 0), es);
  }

  const MAX_BLOCK: nat := 8

  /** bsg_launch_sync_sync: the three flops, built from 8-bit units and one trailer unit. */
  class LaunchSyncSync {
    const width: nat
    var launch: Bits
    var sync1: Bits
    var sync2: Bits

    predicate Valid()
      reads this
    {
      |launch| == |sync1| == |sync2| == width
    }

    constructor (width: nat)
      ensures this.width == width && Valid()
      ensures launch == sync1 == sync2 == ToBits(0, width)
    {
      this.width := width;
      launch, sync1, sync2 := ToBits(0, width), ToBits(0, width), ToBits(0, width);
    }

    /** Every bit of data goes through exactly one unit, in place. */
    method ThroughUnits(data: Bits) returns (out: Bits)
      requires |data| == width
      ensures out == data
    {
      out := [];
      for i := 0 to width / MAX_BLOCK
        invariant out == data[..i * MAX_BLOCK]
      {
        out := out + data[i * MAX_BLOCK..i * MAX_BLOCK + MAX_BLOCK];
      }
      var trailer := width % MAX_BLOCK;
      if trailer != 0 {
        out := out + data[width - trailer..];
      }
    }

    method LaunchClock(data: Bits)
      requires Valid() && |data| == width
      modifies this`launch
      ensures Valid() && launch == data
    {
      launch := ThroughUnits(data);
    }

    method SyncClock(sample: Bits)
      requires Valid() && |sample| == width
      modifies this`sync1, this`sync2
      ensures Valid() && sync1 == sample && sync2 == old(sync1)
    {
      var first := ThroughUnits(sample);
      var second := ThroughUnits(sync1);
      sync1, sync2 := first, second;
    }
  }

  /** bsg_async_ptr_gray. */
  class PtrGray {
    const width: nat
    const flops: LaunchSyncSync
    var ptr: Bits
    var ptrPlus1: Bits

    predicate Valid()
      reads this, flops
    {
      flops.width == width && flops.Valid() && |ptr| == |ptrPlus1| == width
    }

    function Registers(): Pointer
      reads this, flops
    {
      Pointer(ptr, ptrPlus1, flops.launch, flops.sync1, flops.sync2)
    }

    constructor (width: nat)
      ensures Valid() && this.width == width && fresh(flops)
      ensures Registers() == ResetPointer(width)
    {
      this.width := width;
      flops := new LaunchSyncSync(width);
      ptr, ptrPlus1 := ToBits(0, width), ToBits(1, width);
    }

    /** Sending-domain edge; the launch flop loads before the counter registers are replaced. */
    method LaunchClock(inc: bool)
      requires Valid()
      modifies this, flops`launch
      ensures Valid() && Registers() == LaunchEdge(old(Registers()), inc)
    {
      var ptrPlus2 := Increment(ptrPlus1);
      var grayNext := if inc then Xor(ShiftRight(ptrPlus1), ptrPlus1) else flops.launch;
      flops.LaunchClock(grayNext);
      ptr := if inc then ptrPlus1 else ptr;
      ptrPlus1 := if inc then ptrPlus2 else ptrPlus1;
    }

    /** Watching-domain edge. */
    method SyncClock(sample: Bits)
      requires Valid() && |sample| == width
      modifies flops`sync1, flops`sync2
      ensures Valid() && Registers() == SyncEdge(old(Registers()), sample)
    {
      flops.SyncClock(sample);
    }

    /** Coincident edges of the two clocks. */
    method BothClocks(inc: bool, sample: Bits)
      requires Valid() && |sample| == width
      modifies this, flops
      ensures Valid() && Registers() == Step(old(Registers()), Coincident(inc, sample))
    {
      LaunchClock(inc);
      SyncClock(sample);
    }
  }
}
