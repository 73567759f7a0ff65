/** The clocked process of VHDL/wishbone/wb_sdram.vhd. */
module SdramController {
  import opened SdramTypes

  datatype State =
    | StInitWait | StInitPrecharge | StInitPrechargeWait | StInitRefresh | StInitRefreshWait
    | StInitMode | StInitModeWait
    | StIdle | StDrain | StPrecharge | StPrechargeWait | StActivate | StActivateWait
    | StCas0 | StCas1 | StRefresh | StRefreshWait

  /** refresh_timer, refresh_due, refresh_pending. */
  datatype Refresh = Refresh(timer: nat, due: bool, pending: bool)

  /** The latched request: req_we, req_sel, req_dat, {req_bank, req_row, req_col}, req_row_hit. */
  datatype Request = Request(we: bool, sel: Sel, dat: Word, loc: Loc, hit: bool)

  /** row_open, open_bank, open_row. */
  datatype Row = Row(open: bool, bank: nat, row: nat)

  /** rd_pipe, rd_half, read_low; index 0 of the pipes is the youngest entry. */
  datatype ReadPipe = ReadPipe(pipe: seq<bool>, half: seq<bool>, low: Half)

  /** All registers of the controller. */
  datatype Regs = Regs(
    state: State, wait: nat, initLeft: nat, refresh: Refresh, req: Request, row: Row,
    rasTimer: nat, wrTimer: nat, rd: ReadPipe, data: Word, ack: bool)

  function ResetRegs(c: Config): Regs
    requires c.Valid()
  {
    Regs(StInitWait, c.initCycles - 1, c.initRefreshCount - 1, Refresh(0, false, false),
         Request(false, Sel(false, false, false, false), ZERO_WORD, Loc(0, 0, 0), false), Row(false, 0, 0), 0, 0,
         ReadPipe(seq(c.casLatency + 1, i => false), seq(c.casLatency + 1, i => false), ZERO_HALF), ZERO_WORD, false)
  }

  // ---------------------------------------------------------------- combinational signals

  predicate AllLow(p: seq<bool>) {
    forall i | 0 <= i < |p| :: !p[i]
  }

  predicate Ready(s: Regs) {
    (s.state == StIdle || s.state == StCas1) && !s.refresh.due && !s.refresh.pending
  }

  predicate Accept(s: Regs, b: BusIn) {
    Ready(s) && b.cyc && b.stb
  }

  predicate RowHit(c: Config, s: Regs, b: BusIn)
    requires c.Valid()
  {
    s.row.open && Decode(c, b.adr).bank == s.row.bank && Decode(c, b.adr).row == s.row.row
  }

  /** The Moore output decode: pins depend on the state and the latched request only. */
  function Outputs(c: Config, s: Regs): Pins {
    var nop := Pins(false, true, true, true, 0, 0, false, false, false, ZERO_HALF);
    match s.state
    case StInitPrecharge | StPrecharge => nop.(rasN := false, weN := false, addr := 1024)
    case StInitRefresh | StRefresh => nop.(rasN := false, casN := false)
    case StInitMode => nop.(rasN := false, casN := false, weN := false, addr := 16 * c.casLatency)
    case StActivate => nop.(rasN := false, ba := s.req.loc.bank, addr := s.req.loc.row)
    case StCas0 =>
      var cas := nop.(casN := false, weN := !s.req.we, ba := s.req.loc.bank, addr := 2 * s.req.loc.col);
      if s.req.we
      then cas.(dqOe := true, dqOut := s.req.dat.lo, dqmLo := !s.req.sel.s0, dqmHi := !s.req.sel.s1)
      else cas
    case StCas1 =>
      var cas := nop.(casN := false, weN := !s.req.we, ba := s.req.loc.bank, addr := 2 * s.req.loc.col + 1);
      if s.req.we
      then cas.(dqOe := true, dqOut := s.req.dat.hi, dqmLo := !s.req.sel.s2, dqmHi := !s.req.sel.s3)
      else cas
    case _ => nop
  }

  // ---------------------------------------------------------------- next value of each register

  function AfterPrecharge(s: Regs): State {
    if s.refresh.pending then StRefresh else StActivate
  }

  /** A column command may follow the accepting cycle directly. */
  predicate StartsColumn(c: Config, s: Regs, b: BusIn)
    requires c.Valid()
  {
    RowHit(c, s, b) && (!b.we || AllLow(s.rd.pipe))
  }

  /** No read data in flight and both row timers run out: the open row may be closed. */
  predicate Quiet(s: Regs) {
    AllLow(s.rd.pipe) && s.wrTimer == 0 && s.rasTimer == 0
  }

  function NextState(c: Config, s: Regs, b: BusIn): State
    requires c.Valid()
  {
    match s.state
    case StInitWait => if s.wait == 0 then StInitPrecharge else StInitWait
    case StInitPrecharge => StInitPrechargeWait
    case StInitPrechargeWait => if s.wait == 0 then StInitRefresh else StInitPrechargeWait
    case StInitRefresh => StInitRefreshWait
    case StInitRefreshWait =>
      if s.wait != 0 then StInitRefreshWait else if s.initLeft == 0 then StInitMode else StInitRefresh
    case StInitMode => StInitModeWait
    case StInitModeWait => if s.wait == 0 then StIdle else StInitModeWait
    case StIdle =>
      if s.refresh.due then StDrain
      else if !Accept(s, b) then StIdle
      else if StartsColumn(c, s, b) then StCas0 else StDrain
    case StDrain =>
      if s.refresh.pending then
        if !Quiet(s) then StDrain else if s.row.open then StPrecharge else StRefresh
      else if s.req.hit then
        if !s.req.we || AllLow(s.rd.pipe) then StCas0 else StDrain
      else if !Quiet(s) then StDrain
      else if s.row.open then StPrecharge else StActivate
    case StPrecharge => if c.rpCycles > 1 then StPrechargeWait else AfterPrecharge(s)
    case StPrechargeWait => if s.wait == 0 then AfterPrecharge(s) else StPrechargeWait
    case StActivate => if c.rcdCycles > 1 then StActivateWait else StCas0
    case StActivateWait => if s.wait == 0 then StCas0 else StActivateWait
    case StCas0 => StCas1
    case StCas1 =>
      if !Accept(s, b) then StIdle
      else if StartsColumn(c, s, b) then StCas0 else StDrain
    case StRefresh => StRefreshWait
    case StRefreshWait => if s.wait == 0 then StIdle else StRefreshWait
  }

  function NextWait(c: Config, s: Regs): nat
    requires c.Valid()
  {
    match s.state
    case StInitPrecharge => c.rpCycles - 1
    case StInitRefresh => c.rfcCycles - 1
    case StInitMode => c.mrdCycles - 1
    case StPrecharge => if c.rpCycles > 1 then SubClip(c.rpCycles, 2) else s.wait
    case StActivate => if c.rcdCycles > 1 then SubClip(c.rcdCycles, 2) else s.wait
    case StRefresh => SubClip(c.rfcCycles, 2)
    case StIdle | StDrain | StCas0 | StCas1 => s.wait
    case _ => SubClip(s.wait, 1)
  }

  function NextInitLeft(s: Regs): nat {
    if s.state == StInitRefreshWait && s.wait == 0 then SubClip(s.initLeft, 1) else s.initLeft
  }

  /** The refresh timer wraps: one more refresh is due. */
  predicate Wraps(c: Config, s: Regs)
    requires c.Valid()
  {
    s.refresh.timer == c.refreshCycles - 1
  }

  /** Idle takes a due refresh; a wrap in that same cycle is lost. */
  function NextRefresh(c: Config, s: Regs): Refresh
    requires c.Valid()
  {
    var takes := s.state == StIdle && s.refresh.due;
    Refresh(if Wraps(c, s) then 0 else s.refresh.timer + 1,
            !takes && (s.refresh.due || Wraps(c, s)),
            takes || (s.refresh.pending && !(s.state == StRefreshWait && s.wait == 0)))
  }

  function NextRequest(c: Config, s: Regs, b: BusIn): Request
    requires c.Valid()
  {
    if Accept(s, b) then Request(b.we, b.sel, b.dat, Decode(c, b.adr), RowHit(c, s, b))
    else if s.state == StActivate then s.req.(hit := true)
    else s.req
  }

  function NextRow(s: Regs): Row {
    if s.state == StPrecharge then s.row.(open := false)
    else if s.state == StActivate then Row(true, s.req.loc.bank, s.req.loc.row)
    else s.row
  }

  function NextRasTimer(c: Config, s: Regs): nat {
    if s.state == StActivate then SubClip(c.rasCycles, 1) else SubClip(s.rasTimer, 1)
  }

  predicate WritesColumn(s: Regs) {
    (s.state == StCas0 || s.state == StCas1) && s.req.we
  }

  predicate ReadsColumn(s: Regs) {
    (s.state == StCas0 || s.state == StCas1) && !s.req.we
  }

  function NextWrTimer(c: Config, s: Regs): nat {
    if WritesColumn(s) then SubClip(c.wrCycles, 1) else SubClip(s.wrTimer, 1)
  }

  /** The controller takes data from the bus at this clock edge. */
  predicate Captures(c: Config, s: Regs)
    requires c.Valid()
  {
    c.casLatency < |s.rd.pipe| && s.rd.pipe[c.casLatency - 1]
  }

  /** ... and that data is the high half of a word. */
  predicate CapturesHigh(c: Config, s: Regs)
    requires c.Valid()
  {
    Captures(c, s) && c.casLatency < |s.rd.half| && s.rd.half[c.casLatency - 1]
  }

  /** Shifts `first` in at index 0; the oldest entry falls out. */
  function Shift<T>(p: seq<T>, first: T): (r: seq<T>)
    ensures |r| == |p|
  {
    if |p| == 0 then p else [first] + p[..|p| - 1]
  }

  function NextReadPipe(c: Config, s: Regs, dq: Half): ReadPipe
    requires c.Valid()
  {
    ReadPipe(Shift(s.rd.pipe, ReadsColumn(s)),
             Shift(s.rd.half, ReadsColumn(s) && s.state == StCas1),
             if Captures(c, s) && !CapturesHigh(c, s) then dq else s.rd.low)
  }

  /** One clock edge: the next value of every register, `dq` being the value on the data bus. */
  function Next(c: Config, s: Regs, b: BusIn, dq: Half): Regs
    requires c.Valid()
  {
    Regs(NextState(c, s, b), NextWait(c, s), NextInitLeft(s), NextRefresh(c, s), NextRequest(c, s, b), NextRow(s),
         NextRasTimer(c, s), NextWrTimer(c, s), NextReadPipe(c, s, dq),
         if CapturesHigh(c, s) then Word(s.rd.low, dq) else s.data,
         CapturesHigh(c, s) || (s.state == StCas1 && s.req.we))
  }

  // ---------------------------------------------------------------- the process itself

  /** Every register is in its declared range. */
  predicate InRange(c: Config, s: Regs)
    requires c.Valid()
  {
    && |s.rd.pipe| == |s.rd.half| == c.casLatency + 1
    && s.wait < c.initCycles
    && s.initLeft < c.initRefreshCount
    && s.refresh.timer < c.refreshCycles
    && s.rasTimer <= c.rasCycles
    && s.wrTimer <= c.wrCycles
  }

  /**
   * The clocked process. As with VHDL signals, everything is read from the registers as they were before the
   * edge (`r`) while assignments go to their next values (`n`), the last assignment winning.
   */
  class Controller {
    const c: Config
    var r: Regs

    ghost predicate Valid()
      reads this
    {
      c.Valid() && InRange(c, r)
    }

    /** Asynchronous reset. */
    constructor (c: Config)
      requires c.Valid()
      ensures this.c == c && Valid() && r == ResetRegs(c)
    {
      this.c := c;
      r := ResetRegs(c);
    }

    /** One rising clock edge. */
    method Clock(b: BusIn, dq: Half)
      requires Valid()
      modifies this
      ensures Valid()
      ensures r == Next(c, old(r), b, dq)
    {
      var n := r.(ack := false);
      n := CountTimers(n);
      n := ShiftReadPipe(n, dq);
      var accept := (r.state == StIdle || r.state == StCas1) && !r.refresh.due && !r.refresh.pending && b.cyc && b.stb;
      var loc := Decode(c, b.adr);
      var rowHit := r.row.open && loc.bank == r.row.bank && loc.row == r.row.row;
      if accept {
        n := n.(req := Request(b.we, b.sel, b.dat, loc, rowHit));
      }
      n := StateMachine(n, b, accept, rowHit);
      r := n;
    }

    /** The case statement over the state. */
    method StateMachine(m: Regs, b: BusIn, accept: bool, rowHit: bool) returns (n: Regs)
      requires Valid()
      requires accept == Accept(r, b) && rowHit == RowHit(c, r, b)
      requires m.state == r.state && m.wait == r.wait && m.initLeft == r.initLeft && m.row == r.row
      requires m.refresh.pending == r.refresh.pending
      requires m.req == if accept then NextRequest(c, r, b) else r.req
      ensures n == m.(
        state := NextState(c, r, b), wait := NextWait(c, r), initLeft := NextInitLeft(r),
        req := NextRequest(c, r, b), row := NextRow(r),
        refresh := Refresh(m.refresh.timer,
                           m.refresh.due && !(r.state == StIdle && r.refresh.due), NextRefresh(c, r).pending),
        rasTimer := if r.state == StActivate then SubClip(c.rasCycles, 1) else m.rasTimer,
        wrTimer := if WritesColumn(r) then SubClip(c.wrCycles, 1) else m.wrTimer,
        ack := m.ack || (r.state == StCas1 && r.req.we))
      ensures n.wait < c.initCycles
    {
      if r.state in {StIdle, StDrain, StCas0, StCas1} {
        n := Serve(m, b, accept, rowHit);
      } else if r.state in {StPrecharge, StPrechargeWait, StActivate, StActivateWait, StRefresh, StRefreshWait} {
        n := ChangeRow(m, b);
      } else {
        n := PowerUp(m, b);
      }
    }

    /** refresh_timer, ras_timer and wr_timer count on. */
    method CountTimers(m: Regs) returns (n: Regs)
      requires Valid()
      requires m.refresh == r.refresh && m.rasTimer == r.rasTimer && m.wrTimer == r.wrTimer
      ensures n == m.(
        refresh := Refresh(if Wraps(c, r) then 0 else r.refresh.timer + 1, r.refresh.due || Wraps(c, r),
                           r.refresh.pending),
        rasTimer := SubClip(r.rasTimer, 1), wrTimer := SubClip(r.wrTimer, 1))
    {
      n := m;
      if r.refresh.timer == c.refreshCycles - 1 {
        n := n.(refresh := n.refresh.(timer := 0, due := true));
      } else {
        n := n.(refresh := n.refresh.(timer := r.refresh.timer + 1));
      }
      if r.rasTimer != 0 { n := n.(rasTimer := r.rasTimer - 1); }
      if r.wrTimer != 0 { n := n.(wrTimer := r.wrTimer - 1); }
    }

    /** Shifts in a marker for the column read of this cycle and captures the data that is due. */
    method ShiftReadPipe(m: Regs, dq: Half) returns (n: Regs)
      requires Valid() && !m.ack && m.data == r.data
      ensures n == m.(
        rd := NextReadPipe(c, r, dq),
        data := if CapturesHigh(c, r) then Word(r.rd.low, dq) else r.data,
        ack := CapturesHigh(c, r))
    {
      var column := (r.state == StCas0 || r.state == StCas1) && !r.req.we;
      n := m.(rd := ReadPipe(Shift(r.rd.pipe, column), Shift(r.rd.half, column && r.state == StCas1), r.rd.low));
      if r.rd.pipe[c.casLatency - 1] {
        if r.rd.half[c.casLatency - 1] {
          n := n.(data := Word(r.rd.low, dq), ack := true);
        } else {
          n := n.(rd := n.rd.(low := dq));
        }
      }
    }

    /** The states that accept a request, wait for the bus, or issue its column commands. */
    method Serve(m: Regs, b: BusIn, accept: bool, rowHit: bool) returns (n: Regs)
      requires Valid() && r.state in {StIdle, StDrain, StCas0, StCas1}
      requires accept == Accept(r, b) && rowHit == RowHit(c, r, b)
      requires m.state == r.state && m.refresh.pending == r.refresh.pending
      ensures n == m.(
        state := NextState(c, r, b),
        refresh := if r.state == StIdle && r.refresh.due then m.refresh.(due := false, pending := true) else m.refresh,
        wrTimer := if WritesColumn(r) then SubClip(c.wrCycles, 1) else m.wrTimer,
        ack := m.ack || (r.state == StCas1 && r.req.we))
    {
      n := m;
      var rdIdle := forall i | 0 <= i < |r.rd.pipe| :: !r.rd.pipe[i];
      if r.state == StIdle {
        if r.refresh.due {
          n := n.(refresh := n.refresh.(due := false, pending := true), state := StDrain);
        } else if accept {
          n := n.(state := if rowHit && (!b.we || rdIdle) then StCas0 else StDrain);
        }
      } else if r.state == StDrain {
        if r.refresh.pending {
          if rdIdle && r.wrTimer == 0 && r.rasTimer == 0 {
            n := n.(state := if r.row.open then StPrecharge else StRefresh);
          }
        } else if r.req.hit {
          if !r.req.we || rdIdle { n := n.(state := StCas0); }
        } else if rdIdle && r.wrTimer == 0 && r.rasTimer == 0 {
          // start_request; its row-hit branch was just excluded
          n := n.(state := if r.req.hit then StCas0 else if r.row.open then StPrecharge else StActivate);
        }
      } else if r.state == StCas0 {
        if r.req.we { n := n.(wrTimer := SubClip(c.wrCycles, 1)); }
        n := n.(state := StCas1);
      } else {
        if r.req.we { n := n.(wrTimer := SubClip(c.wrCycles, 1), ack := true); }
        if accept {
          n := n.(state := if rowHit && (!b.we || rdIdle) then StCas0 else StDrain);
        } else {
          n := n.(state := StIdle);
        }
      }
    }

    /** Row commands, refresh and their waits. */
    method ChangeRow(m: Regs, b: BusIn) returns (n: Regs)
      requires Valid()
      requires r.state in {StPrecharge, StPrechargeWait, StActivate, StActivateWait, StRefresh, StRefreshWait}
      requires m.state == r.state && m.wait == r.wait && m.refresh.pending == r.refresh.pending
      requires m.row == r.row && m.req == r.req
      ensures n == m.(
        state := NextState(c, r, b),
        wait := NextWait(c, r),
        refresh := m.refresh.(pending := r.refresh.pending && !(r.state == StRefreshWait && r.wait == 0)),
        req := NextRequest(c, r, b),
        row := NextRow(r),
        rasTimer := if r.state == StActivate then SubClip(c.rasCycles, 1) else m.rasTimer)
      ensures n.wait < c.initCycles
    {
      n := m;
      if r.state == StPrecharge {
        n := n.(row := n.row.(open := false));
        if c.rpCycles > 1 {
          n := n.(state := StPrechargeWait, wait := SubClip(c.rpCycles, 2));
        } else {
          n := n.(state := if r.refresh.pending then StRefresh else StActivate);
        }
      } else if r.state == StActivate {
        n := n.(row := Row(true, r.req.loc.bank, r.req.loc.row), req := n.req.(hit := true),
                rasTimer := SubClip(c.rasCycles, 1));
        if c.rcdCycles > 1 {
          n := n.(state := StActivateWait, wait := SubClip(c.rcdCycles, 2));
        } else {
          n := n.(state := StCas0);
        }
      } else if r.state == StRefresh {
        n := n.(state := StRefreshWait, wait := SubClip(c.rfcCycles, 2));
      } else if r.wait != 0 {
        n := n.(wait := r.wait - 1);
      } else if r.state == StPrechargeWait {
        n := n.(state := if r.refresh.pending then StRefresh else StActivate);
      } else if r.state == StActivateWait {
        n := n.(state := StCas0);
      } else {
        n := n.(refresh := n.refresh.(pending := false), state := StIdle);
      }
    }

    /** The power-up sequence: wait, precharge, refreshes, mode register. */
    method PowerUp(m: Regs, b: BusIn) returns (n: Regs)
      requires Valid()
      requires r.state in {StInitWait, StInitPrecharge, StInitPrechargeWait, StInitRefresh, StInitRefreshWait,
                           StInitMode, StInitModeWait}
      requires m.state == r.state && m.wait == r.wait && m.initLeft == r.initLeft
      ensures n == m.(state := NextState(c, r, b), wait := NextWait(c, r), initLeft := NextInitLeft(r))
      ensures n.wait < c.initCycles
    {
      n := m;
      if r.state == StInitPrecharge {
        n := n.(state := StInitPrechargeWait, wait := c.rpCycles - 1);
      } else if r.state == StInitRefresh {
        n := n.(state := StInitRefreshWait, wait := c.rfcCycles - 1);
      } else if r.state == StInitMode {
        n := n.(state := StInitModeWait, wait := c.mrdCycles - 1);
      } else if r.wait != 0 {
        n := n.(wait := r.wait - 1);
      } else if r.state == StInitWait {
        n := n.(state := StInitPrecharge);
      } else if r.state == StInitPrechargeWait {
        n := n.(state := StInitRefresh);
      } else if r.state == StInitModeWait {
        n := n.(state := StIdle);
      } else if r.initLeft == 0 {
        n := n.(state := StInitMode);
      } else {
        n := n.(initLeft := r.initLeft - 1, state := StInitRefresh);
      }
    }
  }
}
