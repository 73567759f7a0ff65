/** Refreshes: none is invented, none is forgotten, and none comes late, whatever the master requests. */
module SdramRefresh {
  import opened SdramTypes
  import opened SdramController
  import opened SdramControl
  import opened SdramSystem
  import opened SdramRefinement
  import opened SdramLatency
  import opened SdramPowerUp

  /** A refresh has been taken up by the idle state and its REFRESH command is still to come. */
  predicate Waiting(s: Regs) {
    s.refresh.pending && s.state in {StDrain, StPrecharge, StPrechargeWait, StRefresh}
  }

  /** Refreshes that have come due and have not been issued. */
  function Debt(s: Regs): nat {
    Bit(s.refresh.due) + Bit(Waiting(s))
  }

  /** The timer wraps while an earlier wrap has not even been taken up: one refresh is dropped. */
  predicate Loses(c: Config, s: Regs)
    requires c.Valid()
  {
    Wraps(c, s) && s.refresh.due
  }

  /** Conservation over one cycle: a wrap adds a refresh unless it is lost, a REFRESH command pays one. */
  lemma DebtStep(c: Config, s: Regs, b: BusIn, dq: Half)
    requires c.Valid() && ControlInv(c, s) && !Booting(s)
    ensures !Booting(Next(c, s, b, dq))
    ensures Debt(Next(c, s, b, dq)) + Bit(CommandOf(Outputs(c, s)) == CmdRefresh) + Bit(Loses(c, s)) ==
            Debt(s) + Bit(Wraps(c, s))
  {
  }

  /** Cycles with a timer wrap, from cycle t on. */
  function WrapCount(c: Config, ins: seq<Input>, t: nat): nat
    requires c.Valid()
  {
    if |ins| <= t then 0
    else WrapCount(c, ins[..|ins| - 1], t) + Bit(Wraps(c, Run(c, ins[..|ins| - 1]).ctl))
  }

  function LossCount(c: Config, ins: seq<Input>, t: nat): nat
    requires c.Valid()
  {
    if |ins| <= t then 0
    else LossCount(c, ins[..|ins| - 1], t) + Bit(Loses(c, Run(c, ins[..|ins| - 1]).ctl))
  }

  /** Cycles with a REFRESH command on the pins, from cycle t on. */
  function RefreshCount(c: Config, ins: seq<Input>, t: nat): nat
    requires c.Valid()
  {
    if |ins| <= t then 0
    else RefreshCount(c, ins[..|ins| - 1], t) + Bit(CommandOf(Outputs(c, Run(c, ins[..|ins| - 1]).ctl)) == CmdRefresh)
  }

  /**
   * In every run, from any cycle t after power-up: REFRESH commands, refreshes still due and refreshes lost add up
   * to exactly the timer wraps and what was due at t.
   */
  lemma {:induction false} RefreshConservation(c: Config, ins: seq<Input>, t: nat)
    requires c.Valid() && t <= |ins| && !Booting(Run(c, ins[..t]).ctl)
    ensures !Booting(Run(c, ins).ctl)
    ensures RefreshCount(c, ins, t) + Debt(Run(c, ins).ctl) + LossCount(c, ins, t)
            == WrapCount(c, ins, t) + Debt(Run(c, ins[..t]).ctl)
  {
    if t < |ins| {
      var before, i := ins[..|ins| - 1], ins[|ins| - 1];
      var s := Run(c, before);
      assert before[..t] == ins[..t];
      RefreshConservation(c, before, t);
      RunControl(c, before);
      DebtStep(c, s.ctl, i.bus, DataBus(c, s, i.noise));
    } else {
      assert ins[..t] == ins;
    }
  }

  // ---------------------------------------------------------------- in time

  /** Cycles of REFRESH and its wait. */
  function RefreshLength(c: Config): nat { SubClip(c.rfcCycles, 2) + 2 }

  /** With a refresh due: at most this many cycles until the idle state takes it up. */
  function TakeLeft(c: Config, s: Regs): nat {
    if Issuing(s) then IssueLeft(c, s)
    else if s.state == StDrain then DrainLeft(s) + 1 + c.rpCycles + RefreshLength(c)
    else if s.state == StPrecharge then c.rpCycles + RefreshLength(c)
    else if s.state == StPrechargeWait then s.wait + 1 + RefreshLength(c)
    else if s.state == StRefresh then RefreshLength(c)
    else if s.state == StRefreshWait then s.wait + 1
    else 0
  }

  function TakeMax(c: Config): nat {
    DrainMax(c) + 1 + c.rpCycles + Max(ActivateLength(c) + 2, RefreshLength(c))
  }

  lemma TakeBound(c: Config, s: Regs)
    requires c.Valid() && ControlInv(c, s)
    ensures TakeLeft(c, s) <= TakeMax(c)
  {
    DrainBound(c, s);
  }

  /** While the controller is busy the idle state, or readiness behind a last column, comes nearer in every cycle. */
  lemma {:induction false} BusyStep(c: Config, s: Regs, b: BusIn, dq: Half)
    requires c.Valid() && ControlInv(c, s) && !Booting(s) && !Ready(s) && s.state != StIdle
    ensures !Booting(Next(c, s, b, dq)) && TakeLeft(c, Next(c, s, b, dq)) + 1 <= TakeLeft(c, s)
  {
    hide NextReadPipe;
    assert !Accept(s, b);
    LatchStep(c, s, b, dq);
    if StillIssuing(s) {
      IssueStep(c, s, b, dq);
    } else if s.state == StDrain {
      DrainStep(c, s, b, dq);
    }
  }

  /** While a refresh is due nothing new is accepted, so the idle state comes nearer in every cycle. */
  lemma {:induction false} TakeStep(c: Config, s: Regs, b: BusIn, dq: Half)
    requires c.Valid() && ControlInv(c, s) && !Booting(s) && s.refresh.due && s.state != StIdle
    ensures Next(c, s, b, dq).refresh.due
    ensures TakeLeft(c, Next(c, s, b, dq)) + 1 <= TakeLeft(c, s)
  {
    BusyStep(c, s, b, dq);
  }

  /** Once taken up: at most this many cycles until the REFRESH command. */
  function WaitLeft(c: Config, s: Regs): nat {
    match s.state
    case StDrain => DrainLeft(s) + 1 + c.rpCycles
    case StPrecharge => c.rpCycles
    case StPrechargeWait => s.wait + 1
    case _ => 0
  }

  function WaitMax(c: Config): nat {
    DrainMax(c) + 1 + c.rpCycles
  }

  lemma WaitLeftStep(c: Config, s: Regs, b: BusIn, dq: Half)
    requires c.Valid() && ControlInv(c, s) && Waiting(s) && s.state != StRefresh
    ensures Waiting(Next(c, s, b, dq))
    ensures WaitLeft(c, Next(c, s, b, dq)) + 1 <= WaitLeft(c, s)
  {
    if s.state == StDrain {
      DrainStep(c, s, b, dq);
    }
  }

  /** The idle state takes a due refresh up in one cycle. */
  lemma Taken(c: Config, s: Regs, b: BusIn, dq: Half)
    requires c.Valid() && ControlInv(c, s) && s.state == StIdle && s.refresh.due
    ensures Waiting(Next(c, s, b, dq)) && WaitLeft(c, Next(c, s, b, dq)) <= WaitMax(c)
  {
    ControlStep(c, s, b, dq);
    DrainBound(c, Next(c, s, b, dq));
  }

  /** The timer leaves enough time to take up the refresh that is due. */
  predicate InTime(c: Config, s: Regs)
    requires c.Valid()
  {
    s.refresh.due ==> s.refresh.timer + TakeLeft(c, s) <= TakeMax(c)
  }

  /** In time stays in time, and one idle cycle is enough to get there. */
  lemma {:induction false} InTimeStep(c: Config, s: Regs, b: BusIn, dq: Half)
    requires c.Valid() && ControlInv(c, s) && !Booting(s) && TakeMax(c) + 1 < c.refreshCycles
    requires InTime(c, s) || s.state == StIdle
    ensures InTime(c, Next(c, s, b, dq))
  {
    ControlStep(c, s, b, dq);
    TakeBound(c, Next(c, s, b, dq));
    if s.refresh.due && s.state != StIdle {
      TakeStep(c, s, b, dq);
    }
  }

  lemma {:induction false} RunInTime(c: Config, ins: seq<Input>, t: nat)
    requires c.Valid() && TakeMax(c) + 1 < c.refreshCycles
    requires t < |ins| && !Booting(Run(c, ins[..t]).ctl) && Run(c, ins[..t]).ctl.state == StIdle
    ensures !Booting(Run(c, ins).ctl) && InTime(c, Run(c, ins).ctl)
  {
    hide Next, InTime, TakeMax, Debt, CommandOf, ControlInv;
    var before, i := ins[..|ins| - 1], ins[|ins| - 1];
    var s := Run(c, before);
    assert before[..t] == ins[..t];
    if t < |before| {
      RunInTime(c, before, t);
    } else {
      assert before[..t] == before;
    }
    RunControl(c, before);
    DebtStep(c, s.ctl, i.bus, DataBus(c, s, i.noise));
    InTimeStep(c, s.ctl, i.bus, DataBus(c, s, i.noise));
  }

  /** With the shortest interval the timer wraps in every cycle, so from the second cycle on a refresh is due. */
  lemma {:induction false} AlwaysDue(c: Config, ins: seq<Input>)
    requires c.Valid() && c.refreshCycles == 1 && |ins| <= PowerUpCycles(c)
    ensures Wraps(c, Run(c, ins).ctl) && (ins != [] ==> Run(c, ins).ctl.refresh.due)
  {
    if ins != [] {
      var before, i := ins[..|ins| - 1], ins[|ins| - 1];
      AlwaysDue(c, before);
      BootingSoFar(c, before);
      NextIs(c, Run(c, before).ctl, i.bus, DataBus(c, Run(c, before), i.noise));
    }
  }

  lemma NextIs(c: Config, s: Regs, b: BusIn, dq: Half)
    requires c.Valid()
    ensures Next(c, s, b, dq).refresh == NextRefresh(c, s)
  {
  }

  /** The bound on the interval is needed: in such a run the very first idle cycle loses a refresh. */
  lemma {:induction false} RefreshLost(c: Config, ins: seq<Input>)
    requires c.Valid() && c.refreshCycles == 1 && |ins| == PowerUpCycles(c) + 1
    ensures Run(c, ins[..|ins| - 1]).ctl.state == StIdle && LossCount(c, ins, |ins| - 1) == 1
  {
    var before := ins[..|ins| - 1];
    AlwaysDue(c, before);
    BootingSoFar(c, before);
    assert LossCount(c, before, |ins| - 1) == 0;
  }

  /** From one REFRESH command to the next after power-up, at least: the refresh, one idle cycle and the drain state. */
  function RefreshPeriod(c: Config): nat {
    RefreshLength(c) + 2
  }

  /** After power-up: at least this many cycles until the next REFRESH command. */
  function RefreshAway(s: Regs): nat {
    if s.state == StRefresh then 0
    else if s.state == StRefreshWait then s.wait + 3
    else if s.state == StIdle then 2
    else 1
  }

  lemma AwayStep(c: Config, s: Regs, b: BusIn, dq: Half)
    requires c.Valid() && ControlInv(c, s) && !Booting(s)
    ensures RefreshAway(s) < RefreshPeriod(c)
    ensures var refresh := CommandOf(Outputs(c, s)) == CmdRefresh;
            RefreshAway(s) + (if refresh then RefreshPeriod(c) else 0) <= RefreshAway(Next(c, s, b, dq)) + 1
  {
  }

  /** The REFRESH commands from cycle t on are a period apart. */
  lemma {:induction false} CommandPace(c: Config, ins: seq<Input>, t: nat)
    requires c.Valid() && t <= |ins| && !Booting(Run(c, ins[..t]).ctl)
    ensures RefreshCount(c, ins, t) * RefreshPeriod(c) <= |ins| - t + RefreshAway(Run(c, ins).ctl)
  {
    hide Step, Next, RefreshAway, RefreshPeriod, Outputs, CommandOf;
    if t < |ins| {
      var before, i := ins[..|ins| - 1], ins[|ins| - 1];
      var s := Run(c, before);
      assert before[..t] == ins[..t];
      CommandPace(c, before, t);
      RefreshConservation(c, before, t);
      RunControl(c, before);
      StepIs(c, s, i);
      AwayStep(c, s.ctl, i.bus, DataBus(c, s, i.noise));
      MulNext(RefreshCount(c, before, t), RefreshPeriod(c));
    }
  }

  /** The timer wraps are an interval apart. */
  lemma {:induction false} WrapPace(c: Config, ins: seq<Input>, t: nat)
    requires c.Valid() && t <= |ins|
    ensures WrapCount(c, ins, t) * c.refreshCycles + Run(c, ins).ctl.refresh.timer ==
            |ins| - t + Run(c, ins[..t]).ctl.refresh.timer
  {
    hide Step, Next;
    if t < |ins| {
      var before, i := ins[..|ins| - 1], ins[|ins| - 1];
      var s := Run(c, before);
      assert before[..t] == ins[..t];
      WrapPace(c, before, t);
      StepIs(c, s, i);
      NextIs(c, s.ctl, i.bus, DataBus(c, s, i.noise));
      MulNext(WrapCount(c, before, t), c.refreshCycles);
    } else {
      assert ins[..t] == ins;
    }
  }

  lemma StepIs(c: Config, s: System, i: Input)
    requires c.Valid()
    ensures Step(c, s, i).ctl == Next(c, s.ctl, i.bus, DataBus(c, s, i.noise))
  {
  }

  lemma MulNext(k: nat, m: nat)
    ensures (k + 1) * m == k * m + m
  {
  }

  /**
   * An interval shorter than that period loses refreshes in every run that is long enough, whatever the master
   * requests, even if it requests nothing.
   */
  lemma {:induction false} ShortIntervalLoses(c: Config, ins: seq<Input>, t: nat)
    requires c.Valid() && t <= |ins| && !Booting(Run(c, ins[..t]).ctl)
    requires (|ins| - t) * (RefreshPeriod(c) - c.refreshCycles) > 4 * (c.refreshCycles * RefreshPeriod(c))
    ensures LossCount(c, ins, t) > 0
  {
    hide Run, RefreshCount, WrapCount, LossCount, RefreshPeriod, Next;
    CommandPace(c, ins, t);
    WrapPace(c, ins, t);
    RefreshConservation(c, ins, t);
    RunControl(c, ins);
    AwayStep(c, Run(c, ins).ctl, BusIn(0, ZERO_WORD, false, Sel(false, false, false, false), false, false), ZERO_HALF);
    PaceGap(|ins| - t, RefreshPeriod(c), c.refreshCycles, RefreshCount(c, ins, t), WrapCount(c, ins, t));
  }

  lemma Scale(a: int, b: int, m: nat)
    requires a <= b
    ensures a * m <= b * m
  {
  }

  lemma Exchange(x: int, y: int, z: int)
    ensures x * y * z == y * (x * z)
  {
  }

  lemma Spread(x: int, y: int, m: int)
    ensures m * (x + y) == m * x + m * y && m * (x - y) == m * x - m * y
  {
  }

  /** The commands fall behind the wraps. */
  lemma {:induction false} PaceGap(n: nat, period: nat, interval: nat, commands: nat, wraps: nat)
    requires commands * period < n + period && n < wraps * interval + interval
    requires n * (period - interval) > 4 * (interval * period)
    ensures wraps > commands + 2
  {
    if wraps <= commands + 2 {
      Scale(wraps + 1, commands + 3, interval);
      MulNext(wraps, interval);
      Scale(n, (commands + 3) * interval, period);
      Exchange(commands + 3, interval, period);
      FallsBehind(n, period, interval, commands);
    }
  }

  lemma {:induction false} FallsBehind(n: nat, period: nat, interval: nat, commands: nat)
    requires commands * period < n + period && n * period <= interval * ((commands + 3) * period)
    ensures n * (period - interval) <= 4 * (interval * period)
  {
    MulNext(commands, period);
    MulNext(commands + 1, period);
    MulNext(commands + 2, period);
    Scale((commands + 3) * period, n + 4 * period, interval);
    Spread(n, 4 * period, interval);
    Spread(period, interval, n);
    assert interval * (4 * period) == 4 * (interval * period);
  }

  // ---------------------------------------------------------------- every wrap is answered

  /** In cycle t1 the idle state takes the due refresh up, in cycle t2 its REFRESH command is on the pins. */
  predicate Answered(c: Config, ins: seq<Input>, t1: nat, t2: nat)
    requires c.Valid() && t1 <= |ins| && t2 <= |ins|
  {
    && Run(c, ins[..t1]).ctl.state == StIdle && Run(c, ins[..t1]).ctl.refresh.due
    && CommandOf(Outputs(c, Run(c, ins[..t2]).ctl)) == CmdRefresh
  }

  lemma {:induction false} RunStep(c: Config, ins: seq<Input>, t: nat)
    requires c.Valid() && t < |ins|
    ensures Run(c, ins[..t + 1]) == Step(c, Run(c, ins[..t]), ins[t])
  {
    assert ins[..t + 1][..t] == ins[..t];
  }

  lemma {:induction false} TakenUp(c: Config, ins: seq<Input>, t: nat) returns (t1: nat)
    requires c.Valid() && t <= |ins|
    requires var s := Run(c, ins[..t]).ctl; !Booting(s) && s.refresh.due && t + TakeLeft(c, s) <= |ins|
    ensures t <= t1 <= t + TakeLeft(c, Run(c, ins[..t]).ctl)
    ensures var s := Run(c, ins[..t1]).ctl; s.state == StIdle && s.refresh.due
    decreases |ins| - t
  {
    var s := Run(c, ins[..t]);
    RunControl(c, ins[..t]);
    if s.ctl.state == StIdle {
      t1 := t;
    } else {
      TakeStep(c, s.ctl, ins[t].bus, DataBus(c, s, ins[t].noise));
      DebtStep(c, s.ctl, ins[t].bus, DataBus(c, s, ins[t].noise));
      RunStep(c, ins, t);
      t1 := TakenUp(c, ins, t + 1);
    }
  }

  lemma {:induction false} GetsIssued(c: Config, ins: seq<Input>, t: nat) returns (t2: nat)
    requires c.Valid() && t <= |ins|
    requires var s := Run(c, ins[..t]).ctl; Waiting(s) && t + WaitLeft(c, s) <= |ins|
    ensures t <= t2 <= t + WaitLeft(c, Run(c, ins[..t]).ctl)
    ensures CommandOf(Outputs(c, Run(c, ins[..t2]).ctl)) == CmdRefresh
    decreases |ins| - t
  {
    var s := Run(c, ins[..t]);
    RunControl(c, ins[..t]);
    if s.ctl.state == StRefresh {
      t2 := t;
    } else {
      WaitLeftStep(c, s.ctl, ins[t].bus, DataBus(c, s, ins[t].noise));
      RunStep(c, ins, t);
      t2 := GetsIssued(c, ins, t + 1);
    }
  }

  /** From a wrap to its REFRESH command, at most. */
  function RefreshBound(c: Config): nat {
    TakeMax(c) + 1 + WaitMax(c)
  }

  /** The cycle after the idle state takes a refresh up. */
  lemma {:induction false} AfterTaken(c: Config, ins: seq<Input>, t: nat)
    requires c.Valid() && t < |ins|
    requires Run(c, ins[..t]).ctl.state == StIdle && Run(c, ins[..t]).ctl.refresh.due
    ensures Waiting(Run(c, ins[..t + 1]).ctl) && WaitLeft(c, Run(c, ins[..t + 1]).ctl) <= WaitMax(c)
  {
    var s := Run(c, ins[..t]);
    RunControl(c, ins[..t]);
    RunStep(c, ins, t);
    Taken(c, s.ctl, ins[t].bus, DataBus(c, s, ins[t].noise));
  }

  /** A refresh that is due after power-up is taken up and issued within the bound, whatever the master requests. */
  lemma {:induction false} RefreshFollows(c: Config, ins: seq<Input>, t: nat) returns (t1: nat, t2: nat)
    requires c.Valid() && t + RefreshBound(c) <= |ins|
    requires !Booting(Run(c, ins[..t]).ctl) && Run(c, ins[..t]).ctl.refresh.due
    ensures t <= t1 < t2 <= t + RefreshBound(c) && Answered(c, ins, t1, t2)
  {
    hide Run, TakeLeft, WaitLeft, TakeMax, WaitMax, Waiting;
    RunControl(c, ins[..t]);
    TakeBound(c, Run(c, ins[..t]).ctl);
    t1 := TakenUp(c, ins, t);
    AfterTaken(c, ins, t1);
    t2 := GetsIssued(c, ins, t1 + 1);
  }

  /** After every wrap behind power-up, even one that is lost, a REFRESH command comes within the bound. */
  lemma {:induction false} WrapIsFollowed(c: Config, ins: seq<Input>, t: nat) returns (t2: nat)
    requires c.Valid() && t + 1 + RefreshBound(c) <= |ins|
    requires !Booting(Run(c, ins[..t]).ctl) && Wraps(c, Run(c, ins[..t]).ctl)
    ensures t < t2 <= t + 1 + RefreshBound(c) && CommandOf(Outputs(c, Run(c, ins[..t2]).ctl)) == CmdRefresh
  {
    hide Run, RefreshBound, Next;
    var s := Run(c, ins[..t]);
    var t1: nat;
    if s.ctl.refresh.due {
      t1, t2 := RefreshFollows(c, ins, t);
    } else {
      RunControl(c, ins[..t]);
      RunStep(c, ins, t);
      DebtStep(c, s.ctl, ins[t].bus, DataBus(c, s, ins[t].noise));
      NextIs(c, s.ctl, ins[t].bus, DataBus(c, s, ins[t].noise));
      t1, t2 := RefreshFollows(c, ins, t + 1);
    }
  }
}
