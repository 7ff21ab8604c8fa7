/** bsg_rp_dly_line_v3: a one-hot register walks up and down to pick a tap of a delay chain, one step
    every four clock cycles. */
module DelayLine {
  import opened Powers

  // ----- the generated control registers ----------------------------------------

  /** The two shift nets: the synchronised phase sample and its complement. */
  datatype Net = ShiftLeft | ShiftRight

  /** One bsg_rp_dly_line_ctl_reg: the nets wired to its shift_right and shift_left ports, the
      registers wired to ctl_m1 and ctl_p1, and whether reset sets it. */
  datatype CtlReg = CtlReg(rightPort: Net, leftPort: Net, m1: nat, p1: nat, resetTo: bool)

  function RegAt(n: nat, i: nat): CtlReg
    requires i < n && n >= 2
  {
    if i == 0 then CtlReg(ShiftLeft, ShiftLeft, 0, 1, false)
    else if i < n - 1 then CtlReg(ShiftRight, ShiftLeft, i - 1, i + 1, false)
    else CtlReg(ShiftRight, ShiftRight, n - 2, n - 1, true)
  }

  /** The script's three pieces: register 0, the loop, and the last register. */
  method GenerateCtl(n: nat) returns (regs: seq<CtlReg>)
    requires n >= 2
    ensures |regs| == n && forall i :: 0 <= i < n ==> regs[i] == RegAt(n, i)
  {
    regs := [CtlReg(ShiftLeft, ShiftLeft, 0, 1, false)];
    for i := 1 to n - 1
      invariant |regs| == i && forall k :: 0 <= k < i ==> regs[k] == RegAt(n, k)
    {
      regs := regs + [CtlReg(ShiftRight, ShiftLeft, i - 1, i + 1, false)];
    }
    regs := regs + [CtlReg(ShiftRight, ShiftRight, n - 2, n - 1, true)];
  }

  /** A net's value when left is meta_sync_sync. */
  predicate NetValue(net: Net, left: bool) {
    if net.ShiftLeft? then left else !left
  }

  /** The register's gates and its flop's next value. */
  predicate NextBit(r: CtlReg, ctl: seq<bool>, i: nat, left: bool, counterEn: bool)
    requires i < |ctl| && r.m1 < |ctl| && r.p1 < |ctl|
  {
    if counterEn then (NetValue(r.rightPort, left) && ctl[r.m1]) || (NetValue(r.leftPort, left) && ctl[r.p1])
    else ctl[i]
  }

  function NextCtl(ctl: seq<bool>, left: bool, counterEn: bool): (r: seq<bool>)
    requires |ctl| >= 2
    ensures |r| == |ctl|
  {
    seq(|ctl|, i requires 0 <= i < |ctl| => NextBit(RegAt(|ctl|, i), ctl, i, left, counterEn))
  }

  function ResetCtl(n: nat): (r: seq<bool>)
    requires n >= 2
    ensures |r| == n
  {
    seq(n, i requires 0 <= i < n => RegAt(n, i).resetTo)
  }

  /** Exactly register p is set. */
  predicate OneHot(ctl: seq<bool>, p: nat) {
    p < |ctl| && forall i :: 0 <= i < |ctl| ==> ctl[i] == (i == p)
  }

  /** One place down or up, stopping at the ends. */
  function Walk(n: nat, p: nat, left: bool): nat {
    if left then if p == 0 then 0 else p - 1 else if p + 1 >= n then p else p + 1
  }

  /** A position is what the register holds, and a step with the counter enabled walks it. */
  lemma StepWalks(ctl: seq<bool>, p: nat, left: bool, counterEn: bool)
    requires |ctl| >= 2 && OneHot(ctl, p)
    ensures OneHot(NextCtl(ctl, left, counterEn), if counterEn then Walk(|ctl|, p, left) else p)
  {
    var n, q := |ctl|, if counterEn then Walk(|ctl|, p, left) else p;
    forall i | 0 <= i < n ensures NextCtl(ctl, left, counterEn)[i] == (i == q) {
      var r := RegAt(n, i);
      assert NextCtl(ctl, left, counterEn)[i] == NextBit(r, ctl, i, left, counterEn);
    }
  }

  // ----- the tap chain ------------------------------------------------------------

  predicate Nand(a: bool, b: bool) { !(a && b) }

  /** bsg_rp_clk_gen_osc_v3_row: three nand gates. */
  predicate RowOut(clkdly: bool, clkfb: bool, ctl: bool) {
    Nand(Nand(clkfb, true), Nand(clkdly, ctl))
  }

  /** The first k rows of a column, whose clkdly pin is inverted inside. */
  predicate ColumnOut(clkdly: bool, clkfb: bool, ctl: seq<bool>, k: nat)
    requires k <= |ctl|
  {
    if k == 0 then clkfb else RowOut(!clkdly, ColumnOut(clkdly, clkfb, ctl, k - 1), ctl[k - 1])
  }

  /** The taps of column i. */
  function Column(rows: nat, taps: seq<bool>, i: nat): (c: seq<bool>)
    requires (i + 1) * rows <= |taps|
    ensures |c| == rows
  {
    Distribute(i, 1, rows);
    taps[i * rows..i * rows + rows]
  }

  /** fb_col[k]: the first k columns, fed with the inverted clock and started from 0. */
  predicate ChainOut(rows: nat, taps: seq<bool>, clk: bool, k: nat)
    requires k * rows <= |taps|
  {
    if k == 0 then false
    else
      MulMonotone(k - 1, k, rows);
      ColumnOut(!clk, ChainOut(rows, taps, clk, k - 1), Column(rows, taps, k - 1), rows)
  }

  predicate AnySet(taps: seq<bool>, k: nat)
    requires k <= |taps|
  {
    exists i :: 0 <= i < k && taps[i]
  }

  lemma {:induction false} ColumnIsOr(clk: bool, clkfb: bool, ctl: seq<bool>, k: nat)
    requires k <= |ctl|
    ensures ColumnOut(!clk, clkfb, ctl, k) <==> clkfb || (clk && AnySet(ctl, k))
  {
    if k > 0 {
      ColumnIsOr(clk, clkfb, ctl, k - 1);
    }
  }

  lemma AnySetSplit(taps: seq<bool>, base: nat, rows: nat)
    requires base + rows <= |taps|
    ensures AnySet(taps, base + rows) <==> AnySet(taps, base) || AnySet(taps[base..base + rows], rows)
  {
    var col := taps[base..base + rows];
    if AnySet(taps, base + rows) {
      var i :| 0 <= i < base + rows && taps[i];
      assert i >= base ==> col[i - base];
    }
    if AnySet(col, rows) {
      var i :| 0 <= i < rows && col[i];
      assert taps[base + i];
    }
  }

  lemma {:induction false} ChainIsOr(rows: nat, taps: seq<bool>, clk: bool, k: nat)
    requires k * rows <= |taps|
    ensures ChainOut(rows, taps, clk, k) <==> clk && AnySet(taps, k * rows)
  {
    hide ColumnOut, AnySet;
    if k > 0 {
      MulMonotone(k - 1, k, rows);
      Distribute(k - 1, 1, rows);
      ChainIsOr(rows, taps, clk, k - 1);
      ColumnIsOr(clk, ChainOut(rows, taps, clk, k - 1), Column(rows, taps, k - 1), rows);
      AnySetSplit(taps, (k - 1) * rows, rows);
    } else {
      NoneSet(taps);
    }
  }

  lemma NoneSet(taps: seq<bool>)
    ensures !AnySet(taps, 0)
  {
  }

  /** The signal through the generated chain, column by column and row by row. */
  method Propagate(rows: nat, cols: nat, taps: seq<bool>, clk: bool) returns (clkO: bool)
    requires cols * rows == |taps|
    ensures clkO == ChainOut(rows, taps, clk, cols)
    ensures clkO <==> clk && AnySet(taps, |taps|)
  {
    hide AnySet, ChainOut, ColumnOut, Column;
    clkO := false;
    ChainIsOr(rows, taps, clk, cols);
    ChainStep(rows, taps, clk, 0, cols);
    for i := 0 to cols
      invariant i * rows <= |taps| && clkO == ChainOut(rows, taps, clk, i)
    {
      ChainStep(rows, taps, clk, i, cols);
      var column := Column(rows, taps, i);
      var clkfb := clkO;
      ColumnStep(!clk, clkfb, column, 0);
      for r := 0 to rows
        invariant clkO == ColumnOut(!clk, clkfb, column, r)
      {
        ColumnStep(!clk, clkfb, column, r);
        clkO := RowOut(clk, clkO, column[r]);
      }
    }
  }

  lemma ChainStep(rows: nat, taps: seq<bool>, clk: bool, i: nat, cols: nat)
    requires i <= cols && cols * rows == |taps|
    ensures i * rows <= |taps|
    ensures i == 0 ==> !ChainOut(rows, taps, clk, i)
    ensures i < cols ==> (i + 1) * rows <= |taps|
    ensures i < cols ==>
              ChainOut(rows, taps, clk, i + 1) ==
              ColumnOut(!clk, ChainOut(rows, taps, clk, i), Column(rows, taps, i), rows)
  {
    MulMonotone(i, cols, rows);
    if i < cols {
      MulMonotone(i + 1, cols, rows);
    }
  }

  lemma ColumnStep(clkdly: bool, clkfb: bool, ctl: seq<bool>, r: nat)
    requires r <= |ctl|
    ensures r == 0 ==> ColumnOut(clkdly, clkfb, ctl, r) == clkfb
    ensures r < |ctl| ==>
              ColumnOut(clkdly, clkfb, ctl, r + 1) == RowOut(!clkdly, ColumnOut(clkdly, clkfb, ctl, r), ctl[r])
  {
  }

  // ----- the whole line ---------------------------------------------------------------

  /** The four phases, the two synchronising flops of the phase sample, the control registers, and
      one delay unit: its trigger synchroniser and the flops in its taps. */
  datatype State = State(
    triggerOff: bool, counterEn: bool, pause: bool, triggerOn: bool,
    metaSync: bool, metaSyncSync: bool, ctl: seq<bool>,
    gateSync1: bool, gateSync2: bool, taps: seq<bool>)

  /** Asynchronous reset: the trigger synchroniser is not reset; the first tap of every column is set. */
  predicate IsReset(rows: nat, cols: nat, s: State) {
    && s.triggerOff && !s.counterEn && !s.pause && !s.triggerOn && !s.metaSync && !s.metaSyncSync
    && rows >= 1 && cols >= 1 && rows * cols >= 2
    && s.ctl == ResetCtl(rows * cols)
    && |s.taps| == rows * cols && forall i :: 0 <= i < rows * cols ==> s.taps[i] == (i % rows == 0)
  }

  /** One clock cycle. meta is what the falling-edge flop last sampled of the delayed clock. The taps
      are loaded half a cycle after the edge, by a pulse of the gated clock, if the gate was open
      before it. */
  function Next(s: State, meta: bool): State
    requires |s.ctl| >= 2
  {
    var ctl := NextCtl(s.ctl, s.metaSyncSync, s.counterEn);
    State(
      s.triggerOn, s.triggerOff, s.counterEn, s.pause,
      meta, s.metaSync, ctl,
      s.triggerOn, s.gateSync1, if s.gateSync2 then ctl else s.taps)
  }

  ghost predicate Live(rows: nat, cols: nat, s: State) {
    && rows >= 1 && cols >= 1 && rows * cols >= 2 && |s.ctl| == |s.taps| == rows * cols
    && (exists p :: OneHot(s.ctl, p))
    && AnySet(s.taps, |s.taps|)
  }

  function After(s: State, metas: seq<bool>): (e: State)
    requires |s.ctl| >= 2
    ensures |e.ctl| == |s.ctl|
    decreases metas
  {
    if metas == [] then s else After(Next(s, metas[0]), metas[1..])
  }

  /** Which of the four phases is active, and that no other is. */
  predicate Phase(s: State, k: nat) {
    s.triggerOff == (k == 0) && s.counterEn == (k == 1) && s.pause == (k == 2) && s.triggerOn == (k == 3)
  }

  function NextPhase(k: nat): nat {
    if k == 3 then 0 else k + 1
  }

  lemma StepLive(rows: nat, cols: nat, s: State, meta: bool)
    requires Live(rows, cols, s)
    ensures Live(rows, cols, Next(s, meta))
  {
    hide NextCtl;
    var p :| OneHot(s.ctl, p);
    StepWalks(s.ctl, p, s.metaSyncSync, s.counterEn);
    var s' := Next(s, meta);
    var q := if s.counterEn then Walk(|s.ctl|, p, s.metaSyncSync) else p;
    assert OneHot(s'.ctl, q) && s'.ctl[q];
  }

  lemma ResetOneHot(n: nat)
    requires n >= 2
    ensures OneHot(ResetCtl(n), n - 1)
  {
    forall i | 0 <= i < n ensures ResetCtl(n)[i] == (i == n - 1) {
      assert ResetCtl(n)[i] == RegAt(n, i).resetTo;
    }
  }

  lemma ResetLive(rows: nat, cols: nat, s: State)
    requires IsReset(rows, cols, s)
    ensures Live(rows, cols, s) && OneHot(s.ctl, rows * cols - 1) && Phase(s, 0)
  {
    var n := rows * cols;
    assert 0 % rows == 0;
    assert s.taps[0];
    ResetOneHot(n);
  }

  lemma {:induction false} RunLive(rows: nat, cols: nat, s: State, metas: seq<bool>, k: nat)
    requires Live(rows, cols, s) && Phase(s, k) && k < 4
    ensures Live(rows, cols, After(s, metas)) && exists j :: j < 4 && Phase(After(s, metas), j)
    decreases metas
  {
    hide Live;
    LiveSized(rows, cols, s);
    if metas != [] {
      StepLive(rows, cols, s, metas[0]);
      RunLive(rows, cols, Next(s, metas[0]), metas[1..], NextPhase(k));
    }
  }

  lemma LiveSized(rows: nat, cols: nat, s: State)
    requires Live(rows, cols, s)
    ensures |s.ctl| >= 2 && cols * rows == |s.taps|
  {
    assert cols * rows == rows * cols;
  }

  /** In every run from reset the control register stays one-hot, exactly one of the four phases is
      active, and the chain's output is its input clock. */
  lemma AlwaysClocked(rows: nat, cols: nat, s: State, metas: seq<bool>, clk: bool)
    requires IsReset(rows, cols, s)
    ensures var e := After(s, metas);
            && (exists p :: OneHot(e.ctl, p)) && (exists k :: k < 4 && Phase(e, k))
            && cols * rows == |e.taps| && ChainOut(rows, e.taps, clk, cols) == clk
  {
    hide After, ChainOut, OneHot, Phase;
    ResetLive(rows, cols, s);
    RunLive(rows, cols, s, metas, 0);
    LiveSized(rows, cols, After(s, metas));
    ChainIsOr(rows, After(s, metas).taps, clk, cols);
  }

  /** The walk a run makes: one step each time the counter phase ends, in the direction the phase
      sample had two cycles before. */
  function Position(n: nat, s: State, metas: seq<bool>, p: nat): nat
    requires |s.ctl| >= 2
    decreases metas
  {
    if metas == [] then p
    else Position(n, Next(s, metas[0]), metas[1..], if s.counterEn then Walk(n, p, s.metaSyncSync) else p)
  }

  lemma {:induction false} ControlWalks(s: State, metas: seq<bool>, p: nat)
    requires |s.ctl| >= 2 && OneHot(s.ctl, p)
    ensures OneHot(After(s, metas).ctl, Position(|s.ctl|, s, metas, p))
    decreases metas
  {
    hide OneHot, NextCtl;
    if metas != [] {
      StepWalks(s.ctl, p, s.metaSyncSync, s.counterEn);
      ControlWalks(Next(s, metas[0]), metas[1..], if s.counterEn then Walk(|s.ctl|, p, s.metaSyncSync) else p);
    }
  }

  /** The direction of a step is the phase sample taken two cycles before. */
  lemma DirectionIsOlderSample(s: State, first: bool, second: bool)
    requires |s.ctl| >= 2
    ensures Next(Next(s, first), second).metaSyncSync == first
  {
  }

  /** The control register changes only on the edge that ends the counter phase, so it is stable in
      the trigger phase and on both edges of it. */
  lemma StableOutsideCounter(s: State, meta: bool, k: nat)
    requires |s.ctl| >= 2 && Phase(s, k) && k < 4
    ensures k != 1 ==> Next(s, meta).ctl == s.ctl
    ensures Phase(Next(s, meta), NextPhase(k))
    ensures k == 3 ==> Next(Next(s, meta), meta).ctl == s.ctl
  {
  }

  /** From the third cycle on the taps are loaded once in four cycles, half a cycle after the edge on
      which the control register moved, and so with a value that has settled. */
  lemma {:induction false} LoadsAfterMove(s: State, metas: seq<bool>, k: nat)
    requires |s.ctl| >= 2 && Phase(s, k) && k < 4 && |metas| >= 2
    ensures After(s, metas).gateSync2 == After(s, metas).counterEn
    ensures After(s, metas).gateSync1 == After(s, metas).triggerOff
    decreases metas
  {
    hide NextCtl;
    var s1 := Next(s, metas[0]);
    if |metas| == 2 {
      AfterOne(s1, metas[1..]);
    } else {
      LoadsAfterMove(s1, metas[1..], NextPhase(k));
    }
  }

  lemma AfterOne(s: State, metas: seq<bool>)
    requires |s.ctl| >= 2 && |metas| == 1
    ensures After(s, metas) == Next(s, metas[0])
  {
    assert metas[1..] == [];
  }

  // ----- the registers --------------------------------------------------------------------

  class DlyLine {
    const regs: seq<CtlReg>
    var triggerOff: bool
    var counterEn: bool
    var pause: bool
    var triggerOn: bool
    var metaSync: bool
    var metaSyncSync: bool
    var ctl: seq<bool>
    var gateSync1: bool
    var gateSync2: bool
    var taps: seq<bool>

    ghost function Snapshot(): State
      reads this
    {
      State(triggerOff, counterEn, pause, triggerOn, metaSync, metaSyncSync, ctl, gateSync1, gateSync2, taps)
    }

    ghost predicate Valid()
      reads this
    {
      |ctl| == |regs| >= 2 && forall i :: 0 <= i < |regs| ==> regs[i] == RegAt(|regs|, i)
    }

    /** The state reset leaves, whatever the two flops it does not reach hold. */
    constructor (rows: nat, cols: nat, gateSync1: bool, gateSync2: bool)
      requires rows >= 1 && cols >= 1 && rows * cols >= 2
      ensures Valid() && IsReset(rows, cols, Snapshot())
    {
      hide RegAt;
      var n := rows * cols;
      var emitted := GenerateCtl(n);
      regs := emitted;
      triggerOff, counterEn, pause, triggerOn := true, false, false, false;
      metaSync, metaSyncSync := false, false;
      ctl := seq(n, i requires 0 <= i < |emitted| => emitted[i].resetTo);
      this.gateSync1, this.gateSync2 := gateSync1, gateSync2;
      taps := seq(n, i requires 0 <= i < n => i % rows == 0);
    }

    /** The gates of every control register. */
    method NextControl() returns (next: seq<bool>)
      requires Valid()
      ensures next == NextCtl(ctl, metaSyncSync, counterEn)
    {
      hide RegAt;
      next := [];
      for i := 0 to |regs|
        invariant |next| == i
        invariant forall k :: 0 <= k < i ==> next[k] == NextCtl(ctl, metaSyncSync, counterEn)[k]
      {
        WiredInside(|regs|, i);
        var right, left := NetValue(regs[i].rightPort, metaSyncSync), NetValue(regs[i].leftPort, metaSyncSync);
        var set_ := (right && ctl[regs[i].m1]) || (left && ctl[regs[i].p1]);
        next := next + [if counterEn then set_ else ctl[i]];
      }
    }

    /** The control registers, and the tap registers behind their gating flops. */
    method ClockTaps(next: seq<bool>)
      modifies this`ctl, this`taps, this`gateSync1, this`gateSync2
      ensures ctl == next && taps == if old(gateSync2) then next else old(taps)
      ensures gateSync1 == triggerOn && gateSync2 == old(gateSync1)
    {
      taps := if gateSync2 then next else taps;
      gateSync1, gateSync2 := triggerOn, gateSync1;
      ctl := next;
    }

    /** The phase ring and the phase detector's synchroniser. */
    method ClockPhases(meta: bool)
      modifies this`metaSync, this`metaSyncSync, this`triggerOff, this`counterEn, this`pause, this`triggerOn
      ensures metaSync == meta && metaSyncSync == old(metaSync)
      ensures triggerOff == old(triggerOn) && counterEn == old(triggerOff) && pause == old(counterEn) && triggerOn == old(pause)
    {
      metaSync, metaSyncSync := meta, metaSync;
      triggerOff, counterEn, pause, triggerOn := triggerOn, triggerOff, counterEn, pause;
    }

    method Clock(meta: bool)
      requires Valid()
      modifies this
      ensures Valid() && Snapshot() == Next(old(Snapshot()), meta)
    {
      hide RegAt, NextCtl;
      var next := NextControl();
      ClockTaps(next);
      ClockPhases(meta);
    }
  }

  lemma WiredInside(n: nat, i: nat)
    requires n >= 2 && i < n
    ensures RegAt(n, i).m1 < n && RegAt(n, i).p1 < n
  {
  }
}
