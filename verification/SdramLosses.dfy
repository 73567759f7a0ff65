/** Runs that lose a refresh, and so exactly which refresh intervals lose none. */
module SdramLosses {
  import opened SdramControl
  import opened SdramController
  import opened SdramFlatMemory
  import opened SdramInterval
  import opened SdramLatency
  import opened SdramPowerUp
  import opened SdramRefresh
  import opened SdramSystem
  import opened SdramTypes

  // ---------------------------------------------------------------- runs that lose a refresh

  const NOTHING := Input(BusIn(0, ZERO_WORD, false, Sel(false, false, false, false), false, false), ZERO_HALF)

  function Asks(adr: nat, we: bool): Input {
    Input(BusIn(adr, ZERO_WORD, we, Sel(true, true, true, true), true, true), ZERO_HALF)
  }

  /** The run can go on so that a refresh is lost. */
  ghost predicate LossAhead(c: Config, ins: seq<Input>)
    requires c.Valid()
  {
    exists more: seq<Input> :: Loses(c, Run(c, ins + more).ctl)
  }

  lemma LosesNow(c: Config, ins: seq<Input>)
    requires c.Valid() && Loses(c, Run(c, ins).ctl)
    ensures LossAhead(c, ins)
  {
    assert ins + [] == ins;
  }

  lemma {:induction false} Ahead(c: Config, ins: seq<Input>, i: Input)
    requires c.Valid() && LossAhead(c, ins + [i])
    ensures LossAhead(c, ins)
  {
    hide Run, Loses;
    var more: seq<Input> :| Loses(c, Run(c, (ins + [i]) + more).ctl);
    assert (ins + [i]) + more == ins + ([i] + more);
  }

  /** One more cycle of a run. */
  lemma {:induction false} GoOn(c: Config, ins: seq<Input>, i: Input) returns (dq: Half)
    requires c.Valid()
    ensures Run(c, ins + [i]).ctl == Next(c, Run(c, ins).ctl, i.bus, dq)
    ensures LossAhead(c, ins + [i]) ==> LossAhead(c, ins)
  {
    hide Next, Step, Run, LossAhead;
    RunOn(c, ins, i);
    StepIs(c, Run(c, ins), i);
    dq := DataBus(c, Run(c, ins), i.noise);
    if LossAhead(c, ins + [i]) {
      Ahead(c, ins, i);
    }
  }

  /** A due refresh that cannot be taken up before the timer wraps is lost. */
  lemma {:induction false} LateTakeLoses(c: Config, ins: seq<Input>)
    requires c.Valid() && Waits(c, Run(c, ins).ctl)
    requires var s := Run(c, ins).ctl;
             s.refresh.due && !s.refresh.pending && c.refreshCycles <= s.refresh.timer + ToTake(c, s) + 1
    ensures LossAhead(c, ins)
    decreases c.refreshCycles - Run(c, ins).ctl.refresh.timer
  {
    hide Next, Run, Waits, ToTake, LossAhead;
    var s := Run(c, ins).ctl;
    NotTaking(c, s);
    if Wraps(c, s) {
      LosesNow(c, ins);
    } else {
      var dq := GoOn(c, ins, NOTHING);
      BusyBefore(c, s);
      TimerNext(c, s, NOTHING.bus, dq);
      StaysDue(c, s, NOTHING.bus, dq);
      TakeCounts(c, s, NOTHING.bus, dq);
      WaitsStep(c, s, NOTHING.bus, dq);
      LateTakeLoses(c, ins + [NOTHING]);
    }
  }

  lemma BusyBefore(c: Config, s: Regs)
    requires c.Valid() && Waits(c, s)
    ensures ToTake(c, s) > 0 ==> s.state != StIdle
    ensures s.refresh.timer < c.refreshCycles
  {
  }

  /** So is the next one, if the first is not done by then; here it has come due already. */
  lemma {:induction false} LateNextLoses(c: Config, ins: seq<Input>)
    requires c.Valid() && Waits(c, Run(c, ins).ctl)
    requires var s := Run(c, ins).ctl;
             s.refresh.due && s.refresh.pending && c.refreshCycles <= s.refresh.timer + ToIdle(c, s) + 1
    ensures LossAhead(c, ins)
    decreases c.refreshCycles - Run(c, ins).ctl.refresh.timer
  {
    hide Next, Run, Waits, ToIdle, ToTake, LossAhead;
    var s := Run(c, ins).ctl;
    NotTaking(c, s);
    if Wraps(c, s) {
      LosesNow(c, ins);
    } else {
      var dq := GoOn(c, ins, NOTHING);
      TimerNext(c, s, NOTHING.bus, dq);
      IdleCounts(c, s, NOTHING.bus, dq);
      WaitsStep(c, s, NOTHING.bus, dq);
      if Run(c, ins + [NOTHING]).ctl.state == StIdle {
        LateTakeLoses(c, ins + [NOTHING]);
      } else {
        LateNextLoses(c, ins + [NOTHING]);
      }
    }
  }

  /** ... and here it has not. */
  lemma {:induction false} LateIdleLoses(c: Config, ins: seq<Input>)
    requires c.Valid() && Waits(c, Run(c, ins).ctl)
    requires var s := Run(c, ins).ctl;
             !s.refresh.due && s.refresh.pending && 2 * c.refreshCycles <= s.refresh.timer + ToIdle(c, s) + 1
    ensures LossAhead(c, ins)
    decreases c.refreshCycles - Run(c, ins).ctl.refresh.timer
  {
    hide Next, Run, Waits, ToIdle, ToTake, LossAhead;
    var s := Run(c, ins).ctl;
    NotTaking(c, s);
    BusyBefore(c, s);
    var dq := GoOn(c, ins, NOTHING);
    TimerNext(c, s, NOTHING.bus, dq);
    IdleCounts(c, s, NOTHING.bus, dq);
    WaitsStep(c, s, NOTHING.bus, dq);
    if !Wraps(c, s) {
      LateIdleLoses(c, ins + [NOTHING]);
    } else if Run(c, ins + [NOTHING]).ctl.state == StIdle {
      LateTakeLoses(c, ins + [NOTHING]);
    } else {
      LateNextLoses(c, ins + [NOTHING]);
    }
  }

  /** So a due refresh that is not done before the second wrap costs a refresh. */
  lemma {:induction false} LateServedLoses(c: Config, ins: seq<Input>)
    requires c.Valid() && Waits(c, Run(c, ins).ctl)
    requires var s := Run(c, ins).ctl;
             s.refresh.due && !s.refresh.pending && 2 * c.refreshCycles <= s.refresh.timer + ToServed(c, s) + 1
    ensures LossAhead(c, ins)
    decreases c.refreshCycles - Run(c, ins).ctl.refresh.timer
  {
    hide Next, Run, Waits, ToIdle, ToTake, ToServed, LossAhead;
    var s := Run(c, ins).ctl;
    NotTaking(c, s);
    if Wraps(c, s) {
      LosesNow(c, ins);
    } else {
      var dq := GoOn(c, ins, NOTHING);
      TimerNext(c, s, NOTHING.bus, dq);
      WaitsStep(c, s, NOTHING.bus, dq);
      if s.state == StIdle {
        TakesUp(c, s, NOTHING.bus, dq);
        LateIdleLoses(c, ins + [NOTHING]);
      } else {
        StaysDue(c, s, NOTHING.bus, dq);
        ServedCounts(c, s, NOTHING.bus, dq);
        LateServedLoses(c, ins + [NOTHING]);
      }
    }
  }

  /** Writing leaves more to be waited for than reading. */
  predicate WritesSettle(c: Config) {
    c.casLatency + 1 < SubClip(c.wrCycles, 1)
  }

  /** A request accepted at rest opens a row. */
  lemma {:induction false} AskedAtRest(c: Config, s: Regs, b: BusIn, dq: Half)
    requires c.Valid() && Waits(c, s) && AtRest(s) && !s.refresh.due && b.cyc && b.stb
    ensures var n := Next(c, s, b, dq);
            && n.state == StDrain && !n.row.open && !n.req.hit && n.req.we == b.we && !n.refresh.pending
            && n.req.loc == Decode(c, b.adr)
            && ToTake(c, n) == ActivateLength(c) + 3
            && (b.we == WritesSettle(c) ==> Settle(c, n) == SettleMax(c))
            && ToServed(c, n) == ActivateLength(c) + 4 + Refreshing(c, Settle(c, n), true)
  {
    hide NextReadPipe, NextRasTimer, NextWrTimer, PipeLeft;
    QuietStep(c, s, b, dq);
    QuietIs(Next(c, s, b, dq));
  }

  /** A request accepted at rest in the cycle of the wrap. */
  lemma {:induction false} OneLoses(c: Config, ins: seq<Input>)
    requires c.Valid() && !BearsOne(c)
    requires var s := Run(c, ins).ctl; Waits(c, s) && AtRest(s) && !s.refresh.due && Wraps(c, s)
    ensures LossAhead(c, ins)
  {
    hide Next, Run, Waits, AtRest, ToTake, ToServed, Settle, LossAhead;
    var s, i := Run(c, ins).ctl, Asks(0, WritesSettle(c));
    var dq := GoOn(c, ins, i);
    TimerNext(c, s, i.bus, dq);
    WaitsStep(c, s, i.bus, dq);
    AskedAtRest(c, s, i.bus, dq);
    RestIsIdle(s);
    if ActivateLength(c) + 3 + 2 > c.refreshCycles {
      LateTakeLoses(c, ins + [i]);
    } else {
      LateServedLoses(c, ins + [i]);
    }
  }

  lemma RestIsIdle(s: Regs)
    requires AtRest(s)
    ensures s.state == StIdle && !s.refresh.pending && !s.row.open
  {
  }

  /** A first request, asking for address 0, on its way to its second column command in the cycle of the wrap. */
  predicate OnTheWay(c: Config, s: Regs, we: bool)
    requires c.Valid()
  {
    && Waits(c, s) && !s.refresh.pending && !s.refresh.due && s.refresh.timer + ToTake(c, s) == c.refreshCycles
    && s.state in {StDrain, StActivate, StActivateWait, StCas0, StCas1}
    && (s.state == StDrain ==> !s.row.open && !s.req.hit)
    && s.req.we == we && s.req.loc == Decode(c, 0)
    && (!OneRow(c) && we == WritesSettle(c) ==> Settle(c, s) == SettleMax(c))
  }

  lemma {:induction false} WayStep(c: Config, s: Regs, we: bool, dq: Half)
    requires c.Valid() && OnTheWay(c, s, we) && s.state != StCas1
    ensures OnTheWay(c, Next(c, s, NOTHING.bus, dq), we) && ToTake(c, Next(c, s, NOTHING.bus, dq)) < ToTake(c, s)
  {
    hide Waits, ToTake, Settle, Next;
    WaitsStep(c, s, NOTHING.bus, dq);
    NotTaking(c, s);
    TimerNext(c, s, NOTHING.bus, dq);
    StaysFree(c, s, NOTHING.bus, dq);
    TakeCounts(c, s, NOTHING.bus, dq);
    SettleKept(c, s, NOTHING.bus, dq);
    WayStates(c, s, dq);
    TakeLeast(c, s);
  }

  lemma TakeLeast(c: Config, s: Regs)
    requires s.state in {StDrain, StActivate, StActivateWait, StCas0}
    ensures ToTake(c, s) > 1
  {
  }

  lemma WayStates(c: Config, s: Regs, dq: Half)
    requires c.Valid() && Waits(c, s) && !s.refresh.pending && s.state in {StDrain, StActivate, StActivateWait, StCas0}
    requires s.state == StDrain ==> !s.row.open && !s.req.hit
    ensures var n := Next(c, s, NOTHING.bus, dq);
            && n.state in {StDrain, StActivate, StActivateWait, StCas0, StCas1}
            && (n.state == StDrain ==> !n.row.open && !n.req.hit)
            && n.req.we == s.req.we && n.req.loc == s.req.loc
  {
    hide NextReadPipe, NextRasTimer, NextWrTimer, NextRefresh, PipeLeft;
  }

  /** What is left to be waited for behind the second column command, whatever comes next. */
  lemma {:induction false} BehindColumns(c: Config, s: Regs, b: BusIn, dq: Half)
    requires c.Valid() && Waits(c, s) && s.state == StCas1
    ensures DrainLeft(Next(c, s, b, dq)) == Settle(c, s)
    ensures !s.req.we ==> PipeLeft(Next(c, s, b, dq).rd.pipe) == c.casLatency + 1
  {
    hide NextReadPipe, NextRefresh;
    PartsStep(c, s, b, dq);
    PipeLeftZero(s.rd.pipe);
  }

  /** A row miss is accepted with the second column command. */
  lemma {:induction false} MissAccepted(c: Config, s: Regs, b: BusIn, dq: Half)
    requires c.Valid() && Waits(c, s) && s.state == StCas1 && Accept(s, b) && !RowHit(c, s, b)
    requires b.we == WritesSettle(c) && Settle(c, s) == SettleMax(c)
    ensures var n := Next(c, s, b, dq);
            && !n.refresh.pending
            && ToTake(c, n) == SettleMax(c) + c.rpCycles + ActivateLength(c) + 3
            && ToServed(c, n) == ToTake(c, n) + 1 + SettleMax(c) + c.rpCycles + RefreshLength(c)
  {
    BehindColumns(c, s, b, dq);
    hide NextReadPipe, NextRasTimer, NextWrTimer, PipeLeft, DrainLeft, RowHit;
  }

  /** A write hit is accepted with the second column command of a read. */
  lemma {:induction false} HitAccepted(c: Config, s: Regs, b: BusIn, dq: Half)
    requires c.Valid() && Waits(c, s) && s.state == StCas1 && Accept(s, b) && RowHit(c, s, b) && b.we && !s.req.we
    ensures var n := Next(c, s, b, dq);
            && !n.refresh.pending && ToTake(c, n) == c.casLatency + 4
            && ToServed(c, n) >= c.casLatency + 5 + Refreshing(c, SubClip(c.wrCycles, 1), true)
  {
    BehindColumns(c, s, b, dq);
    hide NextReadPipe, NextRasTimer, NextWrTimer, PipeLeft, DrainLeft, RowHit;
  }

  /** The second request comes in the cycle of the wrap. */
  lemma {:induction false} SecondLoses(c: Config, ins: seq<Input>)
    requires c.Valid() && !BearsTwo(c)
    requires OnTheWay(c, Run(c, ins).ctl, !OneRow(c) && WritesSettle(c))
    ensures LossAhead(c, ins)
    decreases ToTake(c, Run(c, ins).ctl)
  {
    hide Next, Run, LossAhead;
    var s := Run(c, ins).ctl;
    if s.state != StCas1 {
      hide OnTheWay, ToTake;
      var dq := GoOn(c, ins, NOTHING);
      WayStep(c, s, !OneRow(c) && WritesSettle(c), dq);
      SecondLoses(c, ins + [NOTHING]);
    } else {
      var i := if OneRow(c) then Asks(0, true) else Asks(c.RowWords(), WritesSettle(c));
      var dq := GoOn(c, ins, i);
      ColumnRow(c, s, i.bus);
      TimerNext(c, s, i.bus, dq);
      hide Waits, Settle, ToServed, RowHit, Decode;
      WaitsStep(c, s, i.bus, dq);
      if OneRow(c) {
        HitAccepted(c, s, i.bus, dq);
      } else {
        MissAccepted(c, s, i.bus, dq);
      }
      hide ToTake;
      LateLoses(c, ins + [i]);
    }
  }

  /** A refresh just due that is taken up or done too late. */
  lemma LateLoses(c: Config, ins: seq<Input>)
    requires c.Valid() && Waits(c, Run(c, ins).ctl)
    requires var s := Run(c, ins).ctl;
             && s.refresh.due && !s.refresh.pending && s.refresh.timer == 0
             && (c.refreshCycles < ToTake(c, s) + 2 || 2 * c.refreshCycles < ToServed(c, s) + 2)
    ensures LossAhead(c, ins)
  {
    hide Run, Waits, ToTake, ToServed, LossAhead;
    if c.refreshCycles < ToTake(c, Run(c, ins).ctl) + 2 {
      LateTakeLoses(c, ins);
    } else {
      LateServedLoses(c, ins);
    }
  }

  lemma OneMod(n: nat)
    requires n > 1
    ensures 1 % n == 1
  {
  }

  lemma EvenPower(n: nat)
    requires n > 0
    ensures 1 % Pow2(n) == 1
  {
    var p := Pow2(n);
    assert p > 1 by { assert Pow2(n - 1) > 0; }
    hide Pow2;
    OneMod(p);
  }

  lemma {:induction false} OtherRow(c: Config)
    requires c.Valid()
    ensures Decode(c, 0).bank == 0 && Decode(c, 0).row == 0
    ensures !OneRow(c) ==> Decode(c, c.RowWords()).bank != 0 || Decode(c, c.RowWords()).row != 0
  {
    hide Pow2;
    var w := c.RowWords();
    DivMod(0, 0, w);
    DivMod(0, 0, c.Banks());
    DivMod(0, 0, c.Rows());
    DivMod(1, 0, w);
    assert w / w == 1;
    if c.bankBits > 0 {
      EvenPower(c.bankBits);
    } else if c.rowBits > 0 {
      OneBank(c);
      EvenPower(c.rowBits);
    }
  }

  lemma OneBank(c: Config)
    requires c.bankBits == 0
    ensures c.Banks() == 1
  {
  }

  /** The row of address 0 is open; the first address behind its columns is in another row, if there is one. */
  lemma {:induction false} ColumnRow(c: Config, s: Regs, b: BusIn)
    requires c.Valid() && Waits(c, s) && s.state == StCas1 && s.req.loc == Decode(c, 0)
    ensures b.adr == 0 ==> RowHit(c, s, b)
    ensures b.adr == c.RowWords() && !OneRow(c) ==> !RowHit(c, s, b)
  {
    hide Decode;
    OtherRow(c);
    assert RowMatches(s);
  }

  /** At rest with the timer at u, a request or two lose a refresh. */
  predicate Breaks(c: Config, u: nat)
    requires c.Valid()
  {
    && FreeFrom(c) <= u < c.refreshCycles
    && ((u + 1 == c.refreshCycles && !BearsOne(c)) || (u + ActivateLength(c) + 4 == c.refreshCycles && !BearsTwo(c)))
  }

  lemma {:induction false} SpotLoses(c: Config, ins: seq<Input>, u: nat)
    requires c.Valid() && Breaks(c, u)
    requires var s := Run(c, ins).ctl; Waits(c, s) && AtRest(s) && !s.refresh.due && s.refresh.timer == u
    ensures LossAhead(c, ins)
  {
    hide Next, Run, Waits, AtRest, LossAhead, BearsOne, BearsTwo, ToTake, ToServed, Settle, FreeFrom;
    var s := Run(c, ins).ctl;
    if Wraps(c, s) && !BearsOne(c) {
      OneLoses(c, ins);
    } else {
      var i := Asks(0, !OneRow(c) && WritesSettle(c));
      var dq := GoOn(c, ins, i);
      TimerNext(c, s, i.bus, dq);
      WaitsStep(c, s, i.bus, dq);
      RestIsIdle(s);
      AskedAtRest(c, s, i.bus, dq);
      SecondLoses(c, ins + [i]);
    }
  }

  /**
   * Without requests the controller is at rest between refreshes. The timer is at u at some time if it is not beyond
   * it at the next rest, or if a refresh taken up as soon as it is due is done by then.
   */
  predicate Resting(c: Config, u: nat, s: Regs)
    requires c.Valid()
  {
    var t, prompt := s.refresh.timer, RefreshLength(c) + 2;
    && Waits(c, s) && (prompt <= u || (!s.refresh.due && t + ToIdle(c, s) <= u))
    && if s.refresh.pending
       then t + ToIdle(c, s) < (if s.refresh.due then c.refreshCycles else c.refreshCycles + prompt)
       else AtRest(s)
  }

  /** How late the next refresh will be taken up, and how far things are from there. */
  function Lateness(c: Config, u: nat, s: Regs): nat {
    var t, prompt := s.refresh.timer, RefreshLength(c) + 2;
    if s.refresh.pending then
      if s.refresh.due then 2 * (t + ToIdle(c, s)) + 1 else 2 * SubClip(t + ToIdle(c, s), prompt)
    else if s.refresh.due then 2 * t
    else if t <= u then 0 else 1
  }

  function Phase(s: Regs): nat {
    if s.refresh.pending then 1 else if s.refresh.due then 2 else 0
  }

  function PhaseLeft(c: Config, u: nat, s: Regs): int {
    if s.refresh.pending then ToIdle(c, s)
    else if s.refresh.timer <= u then u - s.refresh.timer else c.refreshCycles - s.refresh.timer
  }

  lemma {:induction false} RestStaysQuiet(c: Config, s: Regs, dq: Half)
    requires c.Valid() && Waits(c, s) && AtRest(s) && !s.refresh.due
    ensures AtRest(Next(c, s, NOTHING.bus, dq))
  {
    hide NextReadPipe, NextRasTimer, NextWrTimer, Quiet;
    QuietStep(c, s, NOTHING.bus, dq);
  }

  lemma DoneRests(c: Config, s: Regs)
    requires c.Valid() && Waits(c, s) && s.state == StIdle && !s.row.open && !s.refresh.pending
    ensures AtRest(s) && ToIdle(c, s) == 0
  {
  }

  /** One step nearer, unless the timer is at u already or a refresh is lost now. */
  lemma {:induction false} RestingFree(c: Config, u: nat, s: Regs, dq: Half)
    requires c.Valid() && Breaks(c, u) && Resting(c, u, s)
    requires !s.refresh.pending && !s.refresh.due && s.refresh.timer != u
    ensures var n := Next(c, s, NOTHING.bus, dq);
            && Resting(c, u, n)
            && (Lateness(c, u, n) < Lateness(c, u, s)
                || (Lateness(c, u, n) == Lateness(c, u, s)
                    && Phase(n) == Phase(s) && PhaseLeft(c, u, n) < PhaseLeft(c, u, s)))
  {
    hide Next, Waits, AtRest, BearsOne, BearsTwo, FreeFrom;
    NotTaking(c, s);
    RestIsIdle(s);
    TimerNext(c, s, NOTHING.bus, dq);
    WaitsStep(c, s, NOTHING.bus, dq);
    RestStaysQuiet(c, s, dq);
    RestIsIdle(Next(c, s, NOTHING.bus, dq));
  }

  lemma {:induction false} RestingDue(c: Config, u: nat, s: Regs, dq: Half)
    requires c.Valid() && Breaks(c, u) && Resting(c, u, s) && !s.refresh.pending && s.refresh.due && !Wraps(c, s)
    ensures var n := Next(c, s, NOTHING.bus, dq);
            Resting(c, u, n) && Lateness(c, u, n) == Lateness(c, u, s) && Phase(n) < Phase(s)
  {
    hide Next, Waits, AtRest, BearsOne, BearsTwo, FreeFrom, ToIdle, ToServed, ToTake;
    NotTaking(c, s);
    RestIsIdle(s);
    TakesUp(c, s, NOTHING.bus, dq);
    ServedFromRest(c, s);
    TimerNext(c, s, NOTHING.bus, dq);
    WaitsStep(c, s, NOTHING.bus, dq);
  }

  lemma {:induction false} RestingPending(c: Config, u: nat, s: Regs, dq: Half)
    requires c.Valid() && Breaks(c, u) && Resting(c, u, s)
    requires s.refresh.pending && RefreshLength(c) + 2 <= c.refreshCycles
    ensures var n := Next(c, s, NOTHING.bus, dq);
            && Resting(c, u, n)
            && (Lateness(c, u, n) < Lateness(c, u, s)
                || (Lateness(c, u, n) == Lateness(c, u, s)
                    && (Phase(n) < Phase(s) || (Phase(n) == Phase(s) && PhaseLeft(c, u, n) < PhaseLeft(c, u, s)))))
  {
    hide Next, Waits, AtRest, BearsOne, BearsTwo, FreeFrom, ToIdle, ToServed, ToTake;
    NotTaking(c, s);
    IdleCounts(c, s, NOTHING.bus, dq);
    TimerNext(c, s, NOTHING.bus, dq);
    WaitsStep(c, s, NOTHING.bus, dq);
    var n := Next(c, s, NOTHING.bus, dq);
    if n.state == StIdle {
      DoneRests(c, n);
    }
  }

  lemma PhaseLeftNat(c: Config, u: nat, s: Regs)
    requires c.Valid() && Resting(c, u, s)
    ensures PhaseLeft(c, u, s) >= 0
  {
    hide AtRest;
  }

  lemma {:induction false} RestingLoses(c: Config, ins: seq<Input>, u: nat)
    requires c.Valid() && Breaks(c, u) && RefreshLength(c) + 2 <= c.refreshCycles && Resting(c, u, Run(c, ins).ctl)
    ensures LossAhead(c, ins)
    decreases Lateness(c, u, Run(c, ins).ctl), Phase(Run(c, ins).ctl), PhaseLeft(c, u, Run(c, ins).ctl)
  {
    hide Next, Run, AtRest, LossAhead, Breaks, Lateness, PhaseLeft, ToIdle, Waits;
    var s := Run(c, ins).ctl;
    PhaseLeftNat(c, u, s);
    if !s.refresh.pending && !s.refresh.due && s.refresh.timer == u {
      SpotLoses(c, ins, u);
    } else if s.refresh.due && Wraps(c, s) {
      LosesNow(c, ins);
    } else {
      var dq := GoOn(c, ins, NOTHING);
      if s.refresh.pending {
        RestingPending(c, u, s, dq);
      } else if s.refresh.due {
        RestingDue(c, u, s, dq);
      } else {
        RestingFree(c, u, s, dq);
      }
      RestingLoses(c, ins + [NOTHING], u);
    }
  }

  // ---------------------------------------------------------------- exactly when

  /** A loss counted is a loss in some cycle. */
  lemma {:induction false} SomeLoss(c: Config, ins: seq<Input>, t: nat)
    requires c.Valid() && t <= |ins| && LossCount(c, ins, t) > 0
    ensures exists k :: t <= k < |ins| && Loses(c, Run(c, ins[..k]).ctl)
  {
    hide Run, Loses;
    var before := ins[..|ins| - 1];
    if Loses(c, Run(c, before).ctl) {
      assert ins[..|ins| - 1] == before;
    } else {
      SomeLoss(c, before, t);
      var k :| t <= k < |before| && Loses(c, Run(c, before[..k]).ctl);
      assert before[..k] == ins[..k];
    }
  }

  lemma {:induction false} ShortLoses(c: Config)
    requires c.Valid() && c.refreshCycles < RefreshLength(c) + 2
    ensures !NeverLoses(c)
  {
    hide Run, LossCount, Loses, PowerUpCycles, Booting;
    var t, n := PowerUpCycles(c) + 1, 4 * (c.refreshCycles * RefreshPeriod(c)) + 1;
    var ins := seq(t + n, k => NOTHING);
    UpBehind(c, ins[..t]);
    Scaled(n, RefreshPeriod(c) - c.refreshCycles);
    ShortIntervalLoses(c, ins, t);
    SomeLoss(c, ins, t);
    var k :| t <= k < |ins| && Loses(c, Run(c, ins[..k]).ctl);
    assert PowerUpCycles(c) < |ins[..k]|;
  }

  lemma Scaled(n: nat, k: int)
    requires k >= 1
    ensures n * k >= n
  {
  }

  lemma {:induction false} UpBehind(c: Config, ins: seq<Input>)
    requires c.Valid() && |ins| == PowerUpCycles(c) + 1
    ensures !Booting(Run(c, ins).ctl)
  {
    hide Next, Step, PowerUpCycles;
    var before, i := ins[..|ins| - 1], ins[|ins| - 1];
    FirstIdle(c, before);
    StepIs(c, Run(c, before), i);
    StaysUp(c, Run(c, before).ctl, i.bus, DataBus(c, Run(c, before), i.noise));
  }

  /** Where the timer has to stand for a request or two to lose a refresh. */
  lemma {:induction false} BreaksAt(c: Config) returns (u: nat)
    requires c.Valid() && !KeepsUp(c) && RefreshLength(c) + 2 <= c.refreshCycles
    ensures Breaks(c, u)
  {
    hide FreeFrom, BearsOne, BearsTwo;
    if FreeFrom(c) < c.refreshCycles && !BearsOne(c) {
      u := c.refreshCycles - 1;
    } else {
      u := c.refreshCycles - ActivateLength(c) - 4;
    }
  }

  lemma {:induction false} LongLoses(c: Config)
    requires c.Valid() && !KeepsUp(c) && RefreshLength(c) + 2 <= c.refreshCycles
    ensures !NeverLoses(c)
  {
    hide Run, Loses, PowerUpCycles, Waits, AtRest, Breaks, KeepsUp, Resting, LossAhead;
    var u := BreaksAt(c);
    var ins := seq(PowerUpCycles(c), k => NOTHING);
    FirstIdle(c, ins);
    if Run(c, ins).ctl.refresh.due {
      var dq := GoOn(c, ins, NOTHING);
      FirstDueRests(c, u, Run(c, ins).ctl, dq);
      RestingLoses(c, ins + [NOTHING], u);
      AheadLoses(c, ins + [NOTHING]);
    } else {
      FirstFreeRests(c, u, Run(c, ins).ctl);
      RestingLoses(c, ins, u);
      AheadLoses(c, ins);
    }
  }

  lemma AheadLoses(c: Config, ins: seq<Input>)
    requires c.Valid() && LossAhead(c, ins) && PowerUpCycles(c) <= |ins|
    requires PowerUpCycles(c) < |ins| || !Run(c, ins).ctl.refresh.due
    ensures !NeverLoses(c)
  {
    hide Run, PowerUpCycles;
    var more: seq<Input> :| Loses(c, Run(c, ins + more).ctl);
    assert more == [] ==> ins + more == ins;
    assert PowerUpCycles(c) < |ins + more|;
  }

  lemma {:induction false} FirstDueRests(c: Config, u: nat, s: Regs, dq: Half)
    requires c.Valid() && Waits(c, s) && AtRest(s) && s.refresh.due && Breaks(c, u)
    requires c.refreshCycles <= PowerUpCycles(c)
    requires s.refresh.timer == PowerUpCycles(c) % c.refreshCycles
    ensures Resting(c, u, Next(c, s, NOTHING.bus, dq))
  {
    hide Next, Waits, BearsOne, BearsTwo, ToIdle, ToServed, ToTake, Quiet;
    TakesUp(c, s, NOTHING.bus, dq);
    ServedFromRest(c, s);
    NotTaking(c, s);
    TimerNext(c, s, NOTHING.bus, dq);
    WaitsStep(c, s, NOTHING.bus, dq);
  }

  lemma {:induction false} FirstFreeRests(c: Config, u: nat, s: Regs)
    requires c.Valid() && Waits(c, s) && AtRest(s) && !s.refresh.due && Breaks(c, u)
    requires PowerUpCycles(c) < c.refreshCycles
    ensures Resting(c, u, s)
  {
    hide Waits, BearsOne, BearsTwo, Quiet, PowerUpCycles;
  }

  /**
   * No run loses a refresh after its first idle cycle, whatever the master requests, if and only if the interval
   * keeps up.
   */
  lemma {:induction false} NeverLosesExactly(c: Config)
    requires c.Valid()
    ensures NeverLoses(c) <==> KeepsUp(c)
  {
    hide KeepsUp, Loses, Run, PowerUpCycles;
    if KeepsUp(c) {
      forall ins: seq<Input> | PowerUpCycles(c) < |ins| ensures !Loses(c, Run(c, ins).ctl) {
        RunInHand(c, ins);
        InHandLosesNothing(c, Run(c, ins).ctl);
      }
    } else if c.refreshCycles < RefreshLength(c) + 2 {
      ShortLoses(c);
    } else {
      LongLoses(c);
    }
  }
}
