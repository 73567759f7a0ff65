/** The power-up sequence ends after a fixed number of cycles, with no row open. */
module SdramPowerUp {
  import opened SdramTypes
  import opened SdramController
  import opened SdramControl
  import opened SdramSystem

  /** Cycles from the end of a refresh wait to the idle state, `left` refreshes being still to come. */
  function AfterRefreshes(c: Config, left: nat): (n: nat)
    ensures n > 0
  {
    if left == 0 then c.mrdCycles + 1 else c.rfcCycles + 1 + AfterRefreshes(c, left - 1)
  }

  /** Cycles from a state of the power-up sequence to the idle state. */
  function BootLeft(c: Config, s: Regs): nat {
    var refreshes := c.rfcCycles + 1 + AfterRefreshes(c, s.initLeft);
    if s.state == StInitWait then s.wait + 1 + c.rpCycles + 1 + refreshes
    else if s.state == StInitPrecharge then c.rpCycles + 1 + refreshes
    else if s.state == StInitPrechargeWait then s.wait + 1 + refreshes
    else if s.state == StInitRefresh then refreshes
    else if s.state == StInitRefreshWait then s.wait + 1 + AfterRefreshes(c, s.initLeft)
    else if s.state == StInitMode then c.mrdCycles + 1
    else if s.state == StInitModeWait then s.wait + 1
    else 0
  }

  lemma {:induction false} BootStep(c: Config, s: Regs, b: BusIn, dq: Half)
    requires c.Valid() && Booting(s)
    ensures var n := Next(c, s, b, dq);
            BootLeft(c, n) + 1 == BootLeft(c, s) && (if BootLeft(c, n) == 0 then n.state == StIdle else Booting(n))
  {
    hide Accept, RowHit, NextReadPipe;
  }

  /** The length of the whole sequence. */
  function PowerUpCycles(c: Config): nat
    requires c.Valid()
  {
    c.initCycles + c.rpCycles + 1 + c.rfcCycles + 1 + AfterRefreshes(c, c.initRefreshCount - 1)
  }

  lemma {:induction false} BootingSoFar(c: Config, ins: seq<Input>)
    requires c.Valid() && |ins| <= PowerUpCycles(c)
    ensures var s := Run(c, ins).ctl;
            && BootLeft(c, s) == PowerUpCycles(c) - |ins|
            && (if |ins| < PowerUpCycles(c) then Booting(s) else s.state == StIdle)
            && !s.row.open
  {
    if ins != [] {
      var before, i := ins[..|ins| - 1], ins[|ins| - 1];
      var s := Run(c, before);
      BootingSoFar(c, before);
      BootStep(c, s.ctl, i.bus, DataBus(c, s, i.noise));
    }
  }

  /** Whatever the master requests, the controller is first idle after exactly PowerUpCycles; then no row is open. */
  lemma {:induction false} PowerUpEnds(c: Config, ins: seq<Input>, t: nat)
    requires c.Valid() && t <= PowerUpCycles(c) <= |ins|
    ensures Run(c, ins[..t]).ctl.state == StIdle <==> t == PowerUpCycles(c)
    ensures !Run(c, ins[..t]).ctl.row.open
  {
    BootingSoFar(c, ins[..t]);
  }

  // ---------------------------------------------------------------- the commands of the sequence

  /** How often the command occurs. */
  function Count(ps: seq<Pins>, cmd: Command): nat {
    if ps == [] then 0 else Count(ps[..|ps| - 1], cmd) + if CommandOf(ps[|ps| - 1]) == cmd then 1 else 0
  }

  /** REFRESH commands still to come. */
  function RefreshesLeft(s: Regs): nat {
    if s.state in {StInitWait, StInitPrecharge, StInitPrechargeWait, StInitRefresh} then s.initLeft + 1
    else if s.state == StInitRefreshWait then s.initLeft
    else 0
  }

  /** Burst length 1, sequential, with the CAS latency; everything else zero. */
  predicate SetsMode(c: Config, p: Pins) {
    p.ba == 0 && p.addr == 16 * c.casLatency
  }

  /** What has been commanded in the power-up sequence so far. */
  predicate Commanded(c: Config, s: Regs, ps: seq<Pins>) {
    && Count(ps, CmdActivate) == Count(ps, CmdRead) == Count(ps, CmdWrite) == 0
    && Count(ps, CmdPrecharge) == (if s.state in {StInitWait, StInitPrecharge} then 0 else 1)
    && Count(ps, CmdRefresh) + RefreshesLeft(s) == c.initRefreshCount
    && Count(ps, CmdModeReg) == (if s.state in {StInitModeWait, StIdle} then 1 else 0)
  }

  /** One cycle of the sequence. */
  lemma {:induction false} CommandedStep(c: Config, s: Regs, b: BusIn, dq: Half, ps: seq<Pins>)
    requires c.Valid() && Booting(s) && Commanded(c, s, ps)
    ensures Commanded(c, Next(c, s, b, dq), ps + [Outputs(c, s)])
  {
    hide Accept, RowHit, NextReadPipe, NextRequest, NextRefresh, NextRow, NextRasTimer, NextWrTimer;
    assert (ps + [Outputs(c, s)])[..|ps|] == ps;
    forall cmd ensures Count(ps + [Outputs(c, s)], cmd) ==
                       Count(ps, cmd) + if CommandOf(Outputs(c, s)) == cmd then 1 else 0 {
    }
  }

  lemma {:induction false} CommandedSoFar(c: Config, ins: seq<Input>)
    requires c.Valid() && |ins| <= PowerUpCycles(c)
    ensures Commanded(c, Run(c, ins).ctl, Issued(c, ins))
  {
    hide Commanded, PowerUpCycles, Next;
    if ins == [] {
      CommandedFirst(c);
    } else {
      var before, i := ins[..|ins| - 1], ins[|ins| - 1];
      var s := Run(c, before);
      CommandedSoFar(c, before);
      BootingSoFar(c, before);
      CommandedStep(c, s.ctl, i.bus, DataBus(c, s, i.noise), Issued(c, before));
      assert Issued(c, ins) == Issued(c, before) + [Outputs(c, s.ctl)];
    }
  }

  lemma CommandedFirst(c: Config)
    requires c.Valid()
    ensures Commanded(c, ResetRegs(c), [])
  {
  }

  /** Every MODE REGISTER command of any run sets the mode the controller works with. */
  lemma ModeIsSet(c: Config, ins: seq<Input>)
    requires c.Valid() && CommandOf(Outputs(c, Run(c, ins).ctl)) == CmdModeReg
    ensures SetsMode(c, Outputs(c, Run(c, ins).ctl))
  {
    hide Step;
  }

  /**
   * When the controller is first idle it has issued one PRECHARGE, as many REFRESH commands as configured and one MODE
   * REGISTER command, after the last REFRESH, and nothing else.
   */
  lemma {:induction false} PowerUpCommands(c: Config, ins: seq<Input>)
    requires c.Valid() && |ins| <= PowerUpCycles(c)
    ensures var ps := Issued(c, ins);
            && Count(ps, CmdActivate) == Count(ps, CmdRead) == Count(ps, CmdWrite) == 0
            && (CommandOf(Outputs(c, Run(c, ins).ctl)) == CmdModeReg ==> Count(ps, CmdRefresh) == c.initRefreshCount)
            && (|ins| == PowerUpCycles(c) ==>
                  && Count(ps, CmdPrecharge) == 1 && Count(ps, CmdModeReg) == 1
                  && Count(ps, CmdRefresh) == c.initRefreshCount)
  {
    CommandedSoFar(c, ins);
    BootingSoFar(c, ins);
  }
}
