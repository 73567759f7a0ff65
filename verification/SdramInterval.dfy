/** When a refresh interval is long enough for no refresh to be lost, whatever the master requests. */
module SdramInterval {
  import opened SdramControl
  import opened SdramController
  import opened SdramFlatMemory
  import opened SdramLatency
  import opened SdramPowerUp
  import opened SdramRefresh
  import opened SdramSystem
  import opened SdramTypes

  // ---------------------------------------------------------------- how long things take

  /** The longest drain after a column command: read data in flight, write recovery, or the rest of the row's time. */
  function SettleMax(c: Config): nat {
    Max(c.casLatency + 1, Max(SubClip(c.wrCycles, 1), SubClip(c.rasCycles, ActivateLength(c) + 2)))
  }

  /** What the column commands of a request leave to be waited for. */
  function ColumnSettle(c: Config, we: bool): nat {
    if we then SubClip(c.wrCycles, 1) else c.casLatency + 1
  }

  /** Cycles until the idle state, in which a due refresh is taken up, if no further request is accepted. */
  function ToTake(c: Config, s: Regs): nat {
    match s.state
    case StDrain =>
      if s.req.hit then PipeLeft(s.rd.pipe) + 3
      else DrainLeft(s) + 1 + (if s.row.open then c.rpCycles else 0) + ActivateLength(c) + 2
    case StPrecharge => c.rpCycles + ActivateLength(c) + 2
    case StPrechargeWait => s.wait + 1 + ActivateLength(c) + 2
    case StActivate => ActivateLength(c) + 2
    case StActivateWait => s.wait + 3
    case StCas0 => 2
    case StCas1 => 1
    case _ => 0
  }

  predicate WillActivate(s: Regs) {
    s.state in {StPrecharge, StPrechargeWait, StActivate} || (s.state == StDrain && !s.req.hit)
  }

  /** What is left to be waited for when the idle state is reached. */
  function Settle(c: Config, s: Regs): nat {
    var rest := SubClip(DrainLeft(s), ToTake(c, s));
    if s.state == StIdle then rest
    else
      Max(ColumnSettle(c, s.req.we),
          Max(if WillActivate(s) then SubClip(c.rasCycles, ActivateLength(c) + 2) else 0, rest))
  }

  /** From the cycle behind the idle state, with so much to be waited for, through the refresh to the idle state. */
  function Refreshing(c: Config, settle: nat, open: bool): nat {
    SubClip(settle, 1) + 1 + (if open then c.rpCycles else 0) + RefreshLength(c)
  }

  /** Cycles until the idle state is reached again after a due refresh. */
  function ToServed(c: Config, s: Regs): nat {
    ToTake(c, s) + 1 + Refreshing(c, Settle(c, s), s.state != StIdle || s.row.open)
  }

  /** Cycles until the idle state is reached, a refresh having been taken up. */
  function ToIdle(c: Config, s: Regs): nat {
    match s.state
    case StDrain => DrainLeft(s) + 1 + (if s.row.open then c.rpCycles else 0) + RefreshLength(c)
    case StPrecharge => c.rpCycles + RefreshLength(c)
    case StPrechargeWait => s.wait + 1 + RefreshLength(c)
    case StRefresh => RefreshLength(c)
    case StRefreshWait => s.wait + 1
    case _ => 0
  }

  // ---------------------------------------------------------------- the condition

  /** All addresses are in one row. */
  predicate OneRow(c: Config) {
    c.rowBits == 0 && c.bankBits == 0
  }

  /**
   * Where the timer stands at the earliest when the controller is idle and no refresh is due. Normally a refresh taken
   * up as soon as it is due lies before that; one taken up in the first idle cycle may have been one wrap late.
   */
  function FreeFrom(c: Config): nat
    requires c.Valid()
  {
    if c.refreshCycles <= PowerUpCycles(c) && PowerUpCycles(c) % c.refreshCycles == c.refreshCycles - 1
    then RefreshLength(c) + 1 else RefreshLength(c) + 2
  }

  /**
   * A refresh may be taken up `late` cycles after it is due, with `settle` cycles to be waited for then: neither it
   * nor the next one is lost.
   */
  predicate Bears(c: Config, late: nat, settle: nat) {
    late + 2 <= c.refreshCycles && late + settle + c.rpCycles + RefreshLength(c) + 3 <= 2 * c.refreshCycles
  }

  /** One request is accepted in the cycle of the wrap, after a refresh. */
  predicate BearsOne(c: Config) {
    Bears(c, ActivateLength(c) + 3, SettleMax(c))
  }

  /** A second request is, behind the columns of the first: a row miss, or with one row a write hit behind a read. */
  predicate BearsTwo(c: Config) {
    if OneRow(c) then Bears(c, c.casLatency + 4, Max(1, SubClip(c.wrCycles, 1)))
    else Bears(c, SettleMax(c) + c.rpCycles + ActivateLength(c) + 3, SettleMax(c))
  }

  /** There is time for a second request between a refresh and the next wrap. */
  predicate TimeForTwo(c: Config)
    requires c.Valid()
  {
    FreeFrom(c) + ActivateLength(c) + 3 < c.refreshCycles
  }

  predicate KeepsUp(c: Config)
    requires c.Valid()
  {
    && RefreshLength(c) + 2 <= c.refreshCycles
    && (FreeFrom(c) < c.refreshCycles ==> BearsOne(c))
    && (TimeForTwo(c) ==> BearsTwo(c))
  }

  // ---------------------------------------------------------------- registers while no refresh is lost

  /** What the row timers can still hold. */
  predicate TimerInv(c: Config, s: Regs) {
    && s.wrTimer <= SubClip(c.wrCycles, 1)
    && match s.state
       case StActivate => true
       case StActivateWait => s.rasTimer <= SubClip(c.rasCycles + s.wait + 1, ActivateLength(c))
       case StCas0 => s.rasTimer <= SubClip(c.rasCycles, ActivateLength(c))
       case StCas1 => s.rasTimer <= SubClip(c.rasCycles, ActivateLength(c) + 1)
       case _ => s.rasTimer <= SubClip(c.rasCycles, ActivateLength(c) + 2)
  }

  /** With no row open nothing is left to be waited for; a hit waits only to write. */
  predicate RestInv(s: Regs) {
    && (s.state in {StIdle, StDrain} && !s.row.open ==> Quiet(s))
    && (s.state in {StPrecharge, StPrechargeWait, StActivate, StRefresh, StRefreshWait} ==> Quiet(s))
    && (s.state == StDrain && !s.refresh.pending && s.req.hit ==> s.req.we)
  }

  /** With only one row, an open row is always hit. */
  predicate OneRowInv(c: Config, s: Regs) {
    OneRow(c) ==>
      && (s.row.open ==> s.row.bank == 0 && s.row.row == 0)
      && (Issuing(s) ==> s.req.loc.bank == 0 && s.req.loc.row == 0)
      && (s.state in {StPrecharge, StPrechargeWait} ==> s.refresh.pending)
      && (s.state == StDrain && !s.refresh.pending && s.row.open ==> s.req.hit)
  }

  lemma TimerStep(c: Config, s: Regs, b: BusIn, dq: Half)
    requires c.Valid() && WaitInv(c, s) && TimerInv(c, s) && !Booting(s)
    ensures TimerInv(c, Next(c, s, b, dq))
  {
    hide NextReadPipe, NextRequest, NextRefresh;
  }

  lemma QuietIs(s: Regs)
    ensures DrainLeft(s) == 0 <==> Quiet(s)
  {
    PipeLeftZero(s.rd.pipe);
  }

  /** What is quiet stays quiet as long as no command is issued that has to be waited for. */
  lemma QuietStep(c: Config, s: Regs, b: BusIn, dq: Half)
    requires c.Valid() && InRange(c, s) && Quiet(s) && s.state !in {StCas0, StCas1, StActivate}
    ensures Quiet(Next(c, s, b, dq))
  {
    hide Next;
    QuietIs(s);
    DrainStep(c, s, b, dq);
    QuietIs(Next(c, s, b, dq));
  }

  lemma RestStep(c: Config, s: Regs, b: BusIn, dq: Half)
    requires c.Valid() && ControlInv(c, s) && RestInv(s) && !Booting(s)
    ensures RestInv(Next(c, s, b, dq))
  {
    hide NextReadPipe, NextRasTimer, NextWrTimer, NextWait;
    if Quiet(s) && s.state !in {StCas0, StCas1, StActivate} {
      QuietStep(c, s, b, dq);
    }
    hide RowHit, Quiet;
  }

  lemma OneRowStep(c: Config, s: Regs, b: BusIn, dq: Half)
    requires c.Valid() && ControlInv(c, s) && OneRowInv(c, s) && !Booting(s)
    ensures OneRowInv(c, Next(c, s, b, dq))
  {
    hide NextReadPipe;
    if OneRow(c) {
      assert c.Banks() == 1 && c.Rows() == 1;
      assert Decode(c, b.adr).bank == 0 && Decode(c, b.adr).row == 0;
    }
  }

  // ---------------------------------------------------------------- one cycle

  /** The registers a waiting controller counts down with. */
  predicate Waits(c: Config, s: Regs)
    requires c.Valid()
  {
    && ControlInv(c, s) && !Booting(s) && TimerInv(c, s) && RestInv(s) && OneRowInv(c, s)
  }

  lemma WaitsStep(c: Config, s: Regs, b: BusIn, dq: Half)
    requires c.Valid() && Waits(c, s)
    ensures Waits(c, Next(c, s, b, dq))
  {
    hide Next, TimerInv, RestInv, OneRowInv, ControlInv;
    ControlStep(c, s, b, dq);
    StaysUp(c, s, b, dq);
    WaitOf(c, s);
    TimerStep(c, s, b, dq);
    RestStep(c, s, b, dq);
    OneRowStep(c, s, b, dq);
  }

  lemma WaitOf(c: Config, s: Regs)
    requires c.Valid() && ControlInv(c, s)
    ensures WaitInv(c, s)
  {
  }

  lemma StaysUp(c: Config, s: Regs, b: BusIn, dq: Half)
    requires c.Valid() && !Booting(s)
    ensures !Booting(Next(c, s, b, dq))
  {
    hide NextReadPipe, NextRefresh, NextRasTimer, NextWrTimer, NextWait;
  }

  /** Read data, write recovery and row time of the next cycle. */
  lemma PartsStep(c: Config, s: Regs, b: BusIn, dq: Half)
    requires c.Valid() && InRange(c, s)
    ensures var n := Next(c, s, b, dq);
            && PipeLeft(n.rd.pipe) == (if ReadsColumn(s) then c.casLatency + 1 else SubClip(PipeLeft(s.rd.pipe), 1))
            && n.wrTimer == NextWrTimer(c, s) && n.rasTimer == NextRasTimer(c, s)
  {
    if !ReadsColumn(s) {
      PipeLeftShift(s.rd.pipe);
    }
  }

  /** While a refresh is due the idle state comes nearer by one in every cycle. */
  lemma {:induction false} TakeCounts(c: Config, s: Regs, b: BusIn, dq: Half)
    requires c.Valid() && Waits(c, s) && !s.refresh.pending && s.state != StIdle && !Accept(s, b)
    ensures ToTake(c, Next(c, s, b, dq)) + 1 == ToTake(c, s)
  {
    hide NextReadPipe, NextRefresh, NextRasTimer, NextWrTimer;
    PartsStep(c, s, b, dq);
    QuietIs(s);
    PipeLeftZero(s.rd.pipe);
    if s.state == StDrain {
      DrainStep(c, s, b, dq);
    }
  }

  lemma {:induction false} ColumnKept(c: Config, s: Regs, b: BusIn, dq: Half)
    requires c.Valid() && Waits(c, s) && s.state in {StCas0, StCas1} && !Accept(s, b)
    ensures Settle(c, Next(c, s, b, dq)) == Settle(c, s)
  {
    hide NextReadPipe, NextRefresh;
    PartsStep(c, s, b, dq);
    PipeLeftZero(s.rd.pipe);
  }

  lemma {:induction false} ActivateKept(c: Config, s: Regs, b: BusIn, dq: Half)
    requires c.Valid() && Waits(c, s) && s.state == StActivate
    ensures Settle(c, Next(c, s, b, dq)) == Settle(c, s)
  {
    hide NextReadPipe, NextRefresh;
    PartsStep(c, s, b, dq);
    QuietIs(s);
  }

  /** ... and what will be left to be waited for stays the same. */
  lemma {:induction false} SettleKept(c: Config, s: Regs, b: BusIn, dq: Half)
    requires c.Valid() && Waits(c, s) && !s.refresh.pending && s.state != StIdle && !Accept(s, b)
    ensures Settle(c, Next(c, s, b, dq)) == Settle(c, s)
  {
    hide NextReadPipe, NextRefresh, NextRasTimer, NextWrTimer;
    if s.state in {StCas0, StCas1} {
      ColumnKept(c, s, b, dq);
    } else if s.state == StActivate {
      ActivateKept(c, s, b, dq);
    } else {
      hide DrainLeft;
      TakeCounts(c, s, b, dq);
      DrainStep(c, s, b, dq);
    }
  }

  lemma {:induction false} ServedCounts(c: Config, s: Regs, b: BusIn, dq: Half)
    requires c.Valid() && Waits(c, s) && !s.refresh.pending && s.state != StIdle && !Accept(s, b)
    ensures ToServed(c, Next(c, s, b, dq)) + 1 == ToServed(c, s)
  {
    hide Next, ToTake, Settle, Waits;
    TakeCounts(c, s, b, dq);
    SettleKept(c, s, b, dq);
    OpenAtTake(c, s, b, dq);
  }

  lemma OpenAtTake(c: Config, s: Regs, b: BusIn, dq: Half)
    requires c.Valid() && Waits(c, s) && !s.refresh.pending && s.state != StIdle && !Accept(s, b)
    ensures var n := Next(c, s, b, dq); n.state == StIdle ==> n.row.open
  {
    hide NextReadPipe, NextRasTimer, NextWrTimer;
  }

  /** The idle state takes a due refresh up; what is left to be waited for was counted on. */
  lemma {:induction false} TakesUp(c: Config, s: Regs, b: BusIn, dq: Half)
    requires c.Valid() && Waits(c, s) && s.state == StIdle && s.refresh.due
    ensures var n := Next(c, s, b, dq);
            n.state == StDrain && n.refresh.pending && !n.refresh.due && ToIdle(c, n) + 1 == ToServed(c, s)
  {
    hide NextReadPipe, NextRasTimer, NextWrTimer, NextWait, DrainLeft;
    DrainStep(c, s, b, dq);
  }

  /** A refresh that has been taken up comes nearer to its end by one in every cycle. */
  lemma {:induction false} IdleCounts(c: Config, s: Regs, b: BusIn, dq: Half)
    requires c.Valid() && Waits(c, s) && s.refresh.pending
    ensures var n := Next(c, s, b, dq);
            && ToIdle(c, n) + 1 == ToIdle(c, s)
            && (n.state == StIdle <==> ToIdle(c, s) == 1) && (n.refresh.pending <==> n.state != StIdle)
            && (n.state == StIdle ==> !n.row.open)
  {
    hide NextReadPipe, NextRasTimer, NextWrTimer;
    QuietIs(s);
    if s.state == StDrain {
      DrainStep(c, s, b, dq);
    }
  }

  lemma {:induction false} DrainAtMost(c: Config, s: Regs)
    requires c.Valid() && Waits(c, s) && s.state != StActivate
    ensures SubClip(DrainLeft(s), ToTake(c, s)) <= SettleMax(c)
    ensures s.state in {StIdle, StDrain} ==> DrainLeft(s) <= SettleMax(c)
  {
    PipeLeftZero(s.rd.pipe);
  }

  lemma {:induction false} SettleAtMost(c: Config, s: Regs)
    requires c.Valid() && Waits(c, s)
    ensures Settle(c, s) <= SettleMax(c)
  {
    if s.state == StActivate {
      QuietIs(s);
    } else {
      DrainAtMost(c, s);
    }
  }

  // ---------------------------------------------------------------- no refresh is lost

  /** No request since the last refresh, or only a first one, not yet issued: the timer stands so far already. */
  predicate FirstOnly(c: Config, s: Regs)
    requires c.Valid()
  {
    var t := s.refresh.timer;
    match s.state
    case StIdle => !s.row.open && FreeFrom(c) <= t
    case StDrain => !s.row.open && !s.req.hit && FreeFrom(c) + 1 <= t
    case StActivate => FreeFrom(c) + 2 <= t
    case StActivateWait => FreeFrom(c) + ActivateLength(c) + 1 <= t + s.wait
    case StCas0 => FreeFrom(c) + ActivateLength(c) + 2 <= t
    case _ => false
  }

  /** Before the timer wraps, or, once it has, again, the refresh due will have been taken up; or it already is. */
  predicate InHand(c: Config, s: Regs)
    requires c.Valid()
  {
    var t, interval := s.refresh.timer, c.refreshCycles;
    if s.refresh.pending then
      && t + ToIdle(c, s) + 2 <= (if s.refresh.due then interval else 2 * interval)
      && (!s.refresh.due ==> FreeFrom(c) <= t + ToIdle(c, s))
    else if s.refresh.due then t + ToTake(c, s) + 2 <= interval && t + ToServed(c, s) + 2 <= 2 * interval
    else !TimeForTwo(c) ==> FirstOnly(c, s)
  }

  lemma InHandLosesNothing(c: Config, s: Regs)
    requires c.Valid() && InHand(c, s)
    ensures !Loses(c, s)
  {
  }

  /** The timer one cycle later. */
  lemma TimerNext(c: Config, s: Regs, b: BusIn, dq: Half)
    requires c.Valid()
    ensures var n := Next(c, s, b, dq).refresh;
            && n.timer == (if Wraps(c, s) then 0 else s.refresh.timer + 1)
            && n.due == (!(s.state == StIdle && s.refresh.due) && (s.refresh.due || Wraps(c, s)))
    ensures c.Valid() && InRange(c, s) ==> s.refresh.timer < c.refreshCycles
  {
  }

  lemma {:induction false} PendingInHand(c: Config, s: Regs, b: BusIn, dq: Half)
    requires c.Valid() && Waits(c, s) && KeepsUp(c) && InHand(c, s) && s.refresh.pending
    ensures InHand(c, Next(c, s, b, dq))
  {
    hide Next, Waits, ToIdle, ToServed, ToTake;
    IdleCounts(c, s, b, dq);
    NotTaking(c, s);
    TimerNext(c, s, b, dq);
    var n := Next(c, s, b, dq);
    if n.state == StIdle {
      WaitsStep(c, s, b, dq);
      ServedFromRest(c, n);
    }
  }

  lemma NotTaking(c: Config, s: Regs)
    requires c.Valid() && Waits(c, s)
    ensures InRange(c, s) && (s.refresh.pending ==> s.state != StIdle && ToIdle(c, s) > 0)
  {
  }

  /** A refresh due while nothing is open or to be waited for. */
  lemma ServedFromRest(c: Config, s: Regs)
    requires c.Valid() && Waits(c, s) && s.state == StIdle && !s.row.open
    ensures ToTake(c, s) == 0 && ToServed(c, s) == RefreshLength(c) + 2
  {
    QuietIs(s);
  }

  lemma {:induction false} DueInHand(c: Config, s: Regs, b: BusIn, dq: Half)
    requires c.Valid() && Waits(c, s) && KeepsUp(c) && InHand(c, s) && !s.refresh.pending && s.refresh.due
    ensures InHand(c, Next(c, s, b, dq))
  {
    hide Next, Waits, ToIdle, ToServed, ToTake;
    TimerNext(c, s, b, dq);
    NotTaking(c, s);
    if s.state == StIdle {
      TakesUp(c, s, b, dq);
      ServedLeast(c, s);
    } else {
      TakeCounts(c, s, b, dq);
      ServedCounts(c, s, b, dq);
      StaysDue(c, s, b, dq);
    }
  }

  lemma ServedLeast(c: Config, s: Regs)
    requires c.Valid() && Waits(c, s)
    ensures ToServed(c, s) >= RefreshLength(c) + 2
  {
  }

  lemma StaysDue(c: Config, s: Regs, b: BusIn, dq: Half)
    requires c.Valid() && s.state != StIdle && !s.refresh.pending
    ensures !Next(c, s, b, dq).refresh.pending
  {
  }

  /** A first request goes on as it should, and the second column command comes too late for another one. */
  lemma {:induction false} FirstStep(c: Config, s: Regs, b: BusIn, dq: Half)
    requires c.Valid() && Waits(c, s) && !s.refresh.pending && !s.refresh.due
    requires FirstOnly(c, s) && !TimeForTwo(c) && !Wraps(c, s)
    ensures FirstOnly(c, Next(c, s, b, dq))
  {
    hide NextReadPipe, NextRasTimer, NextWrTimer, FreeFrom;
  }

  /** Where the first request stands when the timer wraps. */
  lemma {:induction false} FirstAtWrap(c: Config, s: Regs, b: BusIn, dq: Half)
    requires c.Valid() && Waits(c, s) && !s.refresh.pending && !s.refresh.due && FirstOnly(c, s)
    ensures ToTake(c, Next(c, s, b, dq)) <= ActivateLength(c) + 3
  {
    hide NextReadPipe, NextRasTimer, NextWrTimer, NextRefresh, FreeFrom, PipeLeft;
    if s.state == StIdle {
      QuietStep(c, s, b, dq);
      QuietIs(Next(c, s, b, dq));
    }
  }

  lemma {:induction false} AnyTake(c: Config, s: Regs)
    requires c.Valid() && Waits(c, s)
    ensures ToTake(c, s) <= SettleMax(c) + c.rpCycles + ActivateLength(c) + 3
  {
    PipeLeftZero(s.rd.pipe);
    if s.state == StDrain {
      DrainAtMost(c, s);
    }
  }

  /** With one row only a write hit behind a read waits in the drain state with the row open. */
  lemma {:induction false} OneRowTake(c: Config, s: Regs)
    requires c.Valid() && Waits(c, s) && OneRow(c) && !s.refresh.pending
    ensures if s.state == StDrain && s.req.hit then ToTake(c, s) <= c.casLatency + 4 && s.req.we
            else ToTake(c, s) <= ActivateLength(c) + 3
  {
    PipeLeftZero(s.rd.pipe);
    QuietIs(s);
  }

  lemma ServedAtMost(c: Config, s: Regs, late: nat, settle: nat)
    requires c.Valid() && Bears(c, late, settle) && settle > 0
    requires ToTake(c, s) <= late && ToTake(c, s) + Settle(c, s) <= late + settle && ToTake(c, s) + 1 <= late + settle
    ensures ToTake(c, s) + 2 <= c.refreshCycles && ToServed(c, s) + 2 <= 2 * c.refreshCycles
  {
    hide ToTake, Settle;
  }

  /** However a request stands when the timer wraps, the refresh is in hand. */
  lemma {:induction false} WrapInHand(c: Config, s: Regs)
    requires c.Valid() && Waits(c, s) && !s.refresh.pending && KeepsUp(c) && FreeFrom(c) < c.refreshCycles
    requires TimeForTwo(c) || ToTake(c, s) <= ActivateLength(c) + 3
    ensures ToTake(c, s) + 2 <= c.refreshCycles && ToServed(c, s) + 2 <= 2 * c.refreshCycles
  {
    hide ToTake, Settle, ToServed, Bears, Waits, FreeFrom;
    SettleAtMost(c, s);
    if ToTake(c, s) <= ActivateLength(c) + 3 {
      ServedAtMost(c, s, ActivateLength(c) + 3, SettleMax(c));
    } else if OneRow(c) {
      OneRowTake(c, s);
      OneRowWrap(c, s);
    } else {
      AnyTake(c, s);
      ServedAtMost(c, s, SettleMax(c) + c.rpCycles + ActivateLength(c) + 3, SettleMax(c));
    }
  }

  lemma {:induction false} OneRowWrap(c: Config, s: Regs)
    requires c.Valid() && Waits(c, s) && s.state == StDrain && s.req.hit && s.req.we
    requires BearsOne(c) && Bears(c, c.casLatency + 4, Max(1, SubClip(c.wrCycles, 1)))
    requires ToTake(c, s) <= c.casLatency + 4
    ensures ToTake(c, s) + 2 <= c.refreshCycles && ToServed(c, s) + 2 <= 2 * c.refreshCycles
  {
    hide PipeLeft, FreeFrom;
    DrainAtMost(c, s);
    hide DrainLeft, Waits;
  }

  lemma {:induction false} FreeInHand(c: Config, s: Regs, b: BusIn, dq: Half)
    requires c.Valid() && Waits(c, s) && KeepsUp(c) && InHand(c, s) && !s.refresh.pending && !s.refresh.due
    ensures InHand(c, Next(c, s, b, dq))
  {
    hide Next, Waits, ToTake, ToServed, ToIdle, FirstOnly, FreeFrom, KeepsUp, TimeForTwo;
    NotTaking(c, s);
    TimerNext(c, s, b, dq);
    StaysFree(c, s, b, dq);
    if !Wraps(c, s) {
      if !TimeForTwo(c) {
        FirstStep(c, s, b, dq);
      }
    } else {
      if !TimeForTwo(c) {
        FirstAtWrap(c, s, b, dq);
      }
      FreeBefore(c, s);
      WaitsStep(c, s, b, dq);
      WrapInHand(c, Next(c, s, b, dq));
    }
  }

  lemma StaysFree(c: Config, s: Regs, b: BusIn, dq: Half)
    requires c.Valid() && !s.refresh.pending && !s.refresh.due
    ensures !Next(c, s, b, dq).refresh.pending
  {
  }

  lemma FreeBefore(c: Config, s: Regs)
    requires c.Valid() && Waits(c, s) && (TimeForTwo(c) || FirstOnly(c, s))
    ensures FreeFrom(c) < c.refreshCycles
  {
    hide FreeFrom;
  }

  /** A refresh in hand stays in hand, whatever is requested. */
  lemma InHandStep(c: Config, s: Regs, b: BusIn, dq: Half)
    requires c.Valid() && Waits(c, s) && KeepsUp(c) && InHand(c, s)
    ensures Waits(c, Next(c, s, b, dq)) && InHand(c, Next(c, s, b, dq))
  {
    hide Next, Waits, InHand, KeepsUp;
    WaitsStep(c, s, b, dq);
    if s.refresh.pending {
      PendingInHand(c, s, b, dq);
    } else if s.refresh.due {
      DueInHand(c, s, b, dq);
    } else {
      FreeInHand(c, s, b, dq);
    }
  }

  // ---------------------------------------------------------------- from power-up on

  lemma {:induction false} CountsOn(n: nat, m: nat)
    requires m > 0
    ensures (n + 1) % m == if n % m == m - 1 then 0 else n % m + 1
  {
    var k := n / m;
    assert n == k * m + n % m;
    if n % m == m - 1 {
      assert n + 1 == (k + 1) * m;
      DivMod(k + 1, 0, m);
    } else {
      DivMod(k, n % m + 1, m);
    }
  }

  /** During power-up no refresh is taken up. */
  lemma BootTimer(c: Config, s: Regs, b: BusIn, dq: Half)
    requires c.Valid() && Booting(s)
    ensures var n := Next(c, s, b, dq).refresh;
            n.timer == (if Wraps(c, s) then 0 else s.refresh.timer + 1) && n.due == (s.refresh.due || Wraps(c, s))
  {
    TimerNext(c, s, b, dq);
  }

  lemma BootQuiet(c: Config, s: Regs, b: BusIn, dq: Half)
    requires c.Valid() && ControlInv(c, s) && Booting(s)
    ensures Quiet(Next(c, s, b, dq))
  {
    hide Next;
    QuietStep(c, s, b, dq);
  }

  lemma RunOn(c: Config, ins: seq<Input>, i: Input)
    requires c.Valid()
    ensures Run(c, ins + [i]) == Step(c, Run(c, ins), i)
  {
    hide Step;
    assert (ins + [i])[..|ins|] == ins;
  }

  /** Up to the first idle cycle the timer counts. */
  lemma {:induction false} PowerUpTimer(c: Config, ins: seq<Input>)
    requires c.Valid() && |ins| <= PowerUpCycles(c)
    ensures var s := Run(c, ins).ctl;
            s.refresh.timer == |ins| % c.refreshCycles && (s.refresh.due <==> c.refreshCycles <= |ins|)
  {
    hide Next, Step, Run, BootLeft, PowerUpCycles, Booting;
    if ins == [] {
      ResetTimer(c);
    } else {
      var before, i := ins[..|ins| - 1], ins[|ins| - 1];
      var s := Run(c, before);
      assert before + [i] == ins;
      PowerUpTimer(c, before);
      BootingSoFar(c, before);
      RunOn(c, before, i);
      StepIs(c, s, i);
      BootTimer(c, s.ctl, i.bus, DataBus(c, s, i.noise));
      CountsOn(|before|, c.refreshCycles);
      WrapsFirst(|before|, c.refreshCycles);
    }
  }

  lemma WrapsFirst(n: nat, m: nat)
    requires m > 0
    ensures n + 1 == m ==> n % m == m - 1
    ensures n + 1 < m ==> n % m == n
  {
  }

  lemma ResetTimer(c: Config)
    requires c.Valid()
    ensures Run(c, []).ctl.refresh == Refresh(0, false, false) && 0 % c.refreshCycles == 0
  {
  }

  /** The first idle cycle. */
  lemma {:induction false} FirstIdle(c: Config, ins: seq<Input>)
    requires c.Valid() && |ins| == PowerUpCycles(c)
    ensures var s := Run(c, ins).ctl;
            && Waits(c, s) && AtRest(s)
            && s.refresh.timer == PowerUpCycles(c) % c.refreshCycles
            && (s.refresh.due <==> c.refreshCycles <= PowerUpCycles(c))
  {
    hide Step, Next, Quiet, BootLeft, ControlInv, Waits;
    PowerUpTimer(c, ins);
    BootingSoFar(c, ins);
    RunControl(c, ins);
    var before, i := ins[..|ins| - 1], ins[|ins| - 1];
    var s := Run(c, before);
    BootingSoFar(c, before);
    RunControl(c, before);
    StepIs(c, s, i);
    BootQuiet(c, s.ctl, i.bus, DataBus(c, s, i.noise));
    RestWaits(c, Run(c, ins).ctl);
  }

  /** Idle, with no row open and nothing to be waited for. */
  predicate AtRest(s: Regs) {
    s.state == StIdle && !s.row.open && Quiet(s) && !s.refresh.pending
  }

  lemma RestWaits(c: Config, s: Regs)
    requires c.Valid() && ControlInv(c, s) && s.state == StIdle && !s.row.open && Quiet(s)
    ensures Waits(c, s) && !s.refresh.pending
  {
  }

  lemma PowerUpLong(c: Config)
    requires c.Valid()
    ensures RefreshLength(c) + 2 <= PowerUpCycles(c)
    ensures PowerUpCycles(c) < c.refreshCycles ==> PowerUpCycles(c) % c.refreshCycles == PowerUpCycles(c)
  {
    hide AfterRefreshes;
    assert AfterRefreshes(c, c.initRefreshCount - 1) > 0;
    assert RefreshLength(c) <= c.rfcCycles + 1;
    assert PowerUpCycles(c) > 2 * c.rfcCycles + 2;
    hide PowerUpCycles, RefreshLength;
  }

  lemma {:induction false} FirstTaken(c: Config, s: Regs, b: BusIn, dq: Half)
    requires c.Valid() && Waits(c, s) && AtRest(s) && KeepsUp(c) && s.refresh.due
    requires c.refreshCycles <= PowerUpCycles(c) && s.refresh.timer == PowerUpCycles(c) % c.refreshCycles
    ensures InHand(c, Next(c, s, b, dq))
  {
    hide Next, ToIdle, ToServed, ToTake, Waits;
    TakesUp(c, s, b, dq);
    ServedFromRest(c, s);
    TimerNext(c, s, b, dq);
  }

  lemma {:induction false} RunInHand(c: Config, ins: seq<Input>)
    requires c.Valid() && KeepsUp(c) && PowerUpCycles(c) < |ins|
    ensures Waits(c, Run(c, ins).ctl) && InHand(c, Run(c, ins).ctl)
  {
    hide Next, Waits, InHand, KeepsUp, AtRest, PowerUpCycles;
    var before, i := ins[..|ins| - 1], ins[|ins| - 1];
    var s := Run(c, before);
    StepIs(c, s, i);
    if PowerUpCycles(c) < |before| {
      RunInHand(c, before);
      InHandStep(c, s.ctl, i.bus, DataBus(c, s, i.noise));
    } else {
      FirstIdle(c, before);
      WaitsStep(c, s.ctl, i.bus, DataBus(c, s, i.noise));
      if s.ctl.refresh.due {
        FirstTaken(c, s.ctl, i.bus, DataBus(c, s, i.noise));
      } else {
        FirstInHand(c, s.ctl);
        InHandStep(c, s.ctl, i.bus, DataBus(c, s, i.noise));
      }
    }
  }

  lemma FirstInHand(c: Config, s: Regs)
    requires c.Valid() && AtRest(s) && !s.refresh.due && PowerUpCycles(c) < c.refreshCycles
    requires s.refresh.timer == PowerUpCycles(c) % c.refreshCycles
    ensures InHand(c, s)
  {
    PowerUpLong(c);
  }

  /** No run loses a refresh after its first idle cycle. */
  ghost predicate NeverLoses(c: Config)
    requires c.Valid()
  {
    forall ins: seq<Input> | PowerUpCycles(c) < |ins| :: !Loses(c, Run(c, ins).ctl)
  }

  /**
   * With an interval that keeps up, no refresh is ever lost after the first idle cycle, or any other one, whatever the
   * master requests.
   */
  lemma {:induction false} NoRefreshLost(c: Config, ins: seq<Input>, t: nat)
    requires c.Valid() && KeepsUp(c)
    requires t < |ins| && Run(c, ins[..t]).ctl.state == StIdle
    ensures !Loses(c, Run(c, ins).ctl)
    ensures LossCount(c, ins, t + 1) == 0
    decreases |ins|
  {
    hide Run, Waits, KeepsUp, InHand, PowerUpCycles, Loses;
    IdleIsUp(c, ins[..t]);
    RunInHand(c, ins);
    InHandLosesNothing(c, Run(c, ins).ctl);
    if t + 1 < |ins| {
      assert ins[..|ins| - 1][..t] == ins[..t];
      NoRefreshLost(c, ins[..|ins| - 1], t);
    }
  }

  lemma IdleIsUp(c: Config, ins: seq<Input>)
    requires c.Valid() && Run(c, ins).ctl.state == StIdle
    ensures PowerUpCycles(c) <= |ins|
  {
    hide Run, PowerUpCycles;
    if |ins| < PowerUpCycles(c) {
      BootingSoFar(c, ins);
    }
  }

  /** An interval that leaves time for any request before a refresh is taken up keeps up. */
  lemma RoomyKeepsUp(c: Config)
    requires c.Valid() && TakeMax(c) + 1 < c.refreshCycles
    ensures KeepsUp(c)
  {
  }

  /**
   * A longer interval may lose what a shorter one does not: with 13 cycles there is no time for a second request
   * before the wrap, with 14 there is, and 16 are enough for it.
   */
  lemma LongerLoses(c: Config)
    requires c.(refreshCycles := 13) == Config(13, 9, 2, 3, 20, 4, 2, 7, 4, 6, 2, 13, 2)
    ensures c.refreshCycles == 13 || c.refreshCycles == 16 ==> c.Valid() && KeepsUp(c)
    ensures c.refreshCycles == 14 || c.refreshCycles == 15 ==> c.Valid() && !KeepsUp(c)
  {
    if c.refreshCycles > 0 {
      assert PowerUpCycles(c) == 36 by {
        assert AfterRefreshes(c, 0) == 3 && AfterRefreshes(c, 1) == 8;
      }
    }
  }
}
