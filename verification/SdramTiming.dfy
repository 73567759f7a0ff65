/** The command spacing the SDRAM asks for, over every run of the system. */
module SdramTiming {
  import opened SdramTypes
  import opened SdramController
  import opened SdramControl
  import opened SdramSystem

  /** A spacing rule: a command that starts it must be Limit cycles older than one that ends it. */
  datatype Rule = ActivateToColumn | ActivateToPrecharge | WriteToPrecharge | PrechargeToRow | RefreshToRow | ModeToAny

  predicate Starts(rule: Rule, cmd: Command) {
    match rule
    case ActivateToColumn | ActivateToPrecharge => cmd == CmdActivate
    case WriteToPrecharge => cmd == CmdWrite
    case PrechargeToRow => cmd == CmdPrecharge
    case RefreshToRow => cmd == CmdRefresh
    case ModeToAny => cmd == CmdModeReg
  }

  predicate Ends(rule: Rule, cmd: Command) {
    match rule
    case ActivateToColumn => cmd in {CmdRead, CmdWrite}
    case ActivateToPrecharge | WriteToPrecharge => cmd == CmdPrecharge
    case PrechargeToRow | RefreshToRow => cmd in {CmdActivate, CmdRefresh, CmdModeReg}
    case ModeToAny => cmd != CmdNop
  }

  function Limit(c: Config, rule: Rule): nat {
    match rule
    case ActivateToColumn => c.rcdCycles
    case ActivateToPrecharge => c.rasCycles
    case WriteToPrecharge => c.wrCycles
    case PrechargeToRow => c.rpCycles
    case RefreshToRow => c.rfcCycles
    case ModeToAny => c.mrdCycles
  }

  /** How many more cycles the controller itself is sure to let pass before a command that ends the rule. */
  function Gap(s: Regs, rule: Rule): nat {
    match rule
    case ActivateToColumn => if s.state == StActivateWait then s.wait + 1 else 0
    case ActivateToPrecharge => s.rasTimer
    case WriteToPrecharge => s.wrTimer
    case PrechargeToRow => if s.state in {StPrechargeWait, StInitPrechargeWait} then s.wait + 1 else 0
    case RefreshToRow => if s.state in {StRefreshWait, StInitRefreshWait} then s.wait + 1 else 0
    case ModeToAny => if s.state == StInitModeWait then s.wait + 1 else 0
  }

  /** A cycle shortens a gap by at most one, and a starting command opens the full gap. */
  lemma GapStep(c: Config, s: Regs, b: BusIn, dq: Half, rule: Rule)
    requires c.Valid() && InRange(c, s)
    ensures Gap(Next(c, s, b, dq), rule) + 1 >= Gap(s, rule)
    ensures Starts(rule, CommandOf(Outputs(c, s))) ==> Gap(Next(c, s, b, dq), rule) + 1 >= Limit(c, rule)
  {
  }

  /** No command is issued into a gap that forbids it. */
  lemma GapClosed(c: Config, s: Regs, rule: Rule)
    requires c.Valid() && ControlInv(c, s)
    requires Ends(rule, CommandOf(Outputs(c, s)))
    ensures Gap(s, rule) == 0
  {
  }

  lemma {:induction false} GapHolds(c: Config, ins: seq<Input>, i: nat, rule: Rule)
    requires c.Valid() && i < |ins|
    requires Starts(rule, CommandOf(Trace(c, ins)[i]))
    ensures |ins| - i + Gap(Run(c, ins).ctl, rule) >= Limit(c, rule)
  {
    var before := ins[..|ins| - 1];
    var s := Run(c, before);
    RunControl(c, before);
    GapStep(c, s.ctl, ins[|ins| - 1].bus, DataBus(c, s, ins[|ins| - 1].noise), rule);
    assert Trace(c, ins)[i] == Trace(c, before)[i];
    if i < |before| {
      GapHolds(c, before, i, rule);
    } else {
      assert Trace(c, before)[i] == Outputs(c, s.ctl);
    }
  }

  /** Every pair of commands in every run keeps every spacing rule, for all timing constants. */
  lemma {:induction false} CommandSpacing(c: Config, ins: seq<Input>, i: nat, j: nat, rule: Rule)
    requires c.Valid() && i < j <= |ins|
    requires Starts(rule, CommandOf(Trace(c, ins)[i])) && Ends(rule, CommandOf(Trace(c, ins)[j]))
    ensures j - i >= Limit(c, rule)
  {
    TracePrefix(c, ins, j);
    assert Trace(c, ins)[..j + 1][i] == Trace(c, ins)[i] && Trace(c, ins)[..j + 1][j] == Trace(c, ins)[j];
    GapHolds(c, ins[..j], i, rule);
    RunControl(c, ins[..j]);
    GapClosed(c, Run(c, ins[..j]).ctl, rule);
  }

  // ---------------------------------------------------------------- open and closed rows

  /** Address bit 10: PRECHARGE means all banks, a column command closes its row afterwards. */
  predicate Bit10(p: Pins) {
    p.addr / 1024 % 2 == 1
  }

  /** What the chip does to an open row of this bank. */
  predicate Closes(p: Pins, bank: nat) {
    match CommandOf(p)
    case CmdPrecharge => Bit10(p) || p.ba == bank
    case CmdRead | CmdWrite => Bit10(p) && p.ba == bank
    case _ => false
  }

  predicate Opens(p: Pins, bank: nat) {
    CommandOf(p) == CmdActivate && p.ba == bank
  }

  /** In cycle i this row of the bank was activated; up to the end of the trace nothing has closed it. */
  predicate OpenedAt(ps: seq<Pins>, i: nat, bank: nat, row: nat) {
    && i < |ps| && Opens(ps[i], bank) && ps[i].addr == row
    && forall m | i < m < |ps| :: !Opens(ps[m], bank) && !Closes(ps[m], bank)
  }

  /** In cycle i the bank was closed, and no row of it was activated up to the end of the trace. */
  predicate ClosedAt(ps: seq<Pins>, i: nat, bank: nat) {
    && i < |ps| && Closes(ps[i], bank)
    && forall m | i < m < |ps| :: !Opens(ps[m], bank)
  }

  /** The row the commands so far have opened and not closed. */
  predicate RowIsOpen(ps: seq<Pins>, bank: nat, row: nat) {
    exists i | 0 <= i < |ps| :: OpenedAt(ps, i, bank, row)
  }

  predicate BankIsClosed(ps: seq<Pins>, bank: nat) {
    exists i | 0 <= i < |ps| :: ClosedAt(ps, i, bank)
  }

  /** The commands so far have closed every bank, whatever was open when the chip was powered up. */
  ghost predicate RowsAreClosed(ps: seq<Pins>) {
    forall bank: nat :: BankIsClosed(ps, bank)
  }

  /** A latched column address has at most nine bits. */
  predicate NarrowColumn(s: Regs) {
    s.req.loc.col < 512
  }

  lemma {:induction false} Pow2AtMost(n: nat, m: nat)
    requires n <= m
    ensures Pow2(n) <= Pow2(m)
    decreases m
  {
    if n < m {
      Pow2AtMost(n, m - 1);
    }
  }

  lemma NarrowStep(c: Config, s: Regs, b: BusIn, dq: Half)
    requires c.Valid() && NarrowColumn(s)
    ensures NarrowColumn(Next(c, s, b, dq))
  {
    ColumnIsNarrow(c, b.adr);
    RequestOf(c, s, b, dq);
    hide Decode, Next, RowHit;
  }

  lemma ColumnIsNarrow(c: Config, adr: nat)
    requires c.Valid()
    ensures Decode(c, adr).col < 512
  {
    Pow2AtMost(c.colBits - 1, 9);
    assert Pow2(9) == 512;
    var n := c.RowWords();
    hide Pow2;
    ModBound(adr, n);
  }

  lemma ModBound(a: nat, n: nat)
    requires n > 0
    ensures a % n < n
  {
  }

  lemma RequestOf(c: Config, s: Regs, b: BusIn, dq: Half)
    requires c.Valid()
    ensures Next(c, s, b, dq).req == NextRequest(c, s, b)
  {
    hide Decode, NextRequest, NextState, NextReadPipe;
  }

  lemma {:induction false} RunNarrow(c: Config, ins: seq<Input>)
    requires c.Valid()
    ensures NarrowColumn(Run(c, ins).ctl)
  {
    if ins != [] {
      var before, i := ins[..|ins| - 1], ins[|ins| - 1];
      RunNarrow(c, before);
      NarrowStep(c, Run(c, before).ctl, i.bus, DataBus(c, Run(c, before), i.noise));
    }
  }

  /** What each command does to the banks, and to the row registers. */
  lemma RowEffect(c: Config, s: Regs, b: BusIn, dq: Half)
    requires c.Valid() && ControlInv(c, s) && NarrowColumn(s)
    ensures var p, n := Outputs(c, s), Next(c, s, b, dq).row;
            match CommandOf(p)
            case CmdActivate => !s.row.open && n == Row(true, p.ba, p.addr)
            case CmdPrecharge => !n.open && forall bank: nat :: Closes(p, bank)
            case _ => n == s.row && forall bank: nat :: !Closes(p, bank)
    ensures CommandOf(Outputs(c, s)) in {CmdRefresh, CmdModeReg} ==> !s.row.open
  {
  }

  lemma StaysOpen(ps: seq<Pins>, p: Pins, bank: nat, row: nat)
    requires RowIsOpen(ps, bank, row) && !Opens(p, bank) && !Closes(p, bank)
    ensures RowIsOpen(ps + [p], bank, row)
  {
    var i :| 0 <= i < |ps| && OpenedAt(ps, i, bank, row);
    assert OpenedAt(ps + [p], i, bank, row);
  }

  lemma GetsClosed(ps: seq<Pins>, p: Pins, bank: nat)
    requires Closes(p, bank) || (BankIsClosed(ps, bank) && !Opens(p, bank))
    ensures BankIsClosed(ps + [p], bank)
  {
    if Closes(p, bank) {
      assert ClosedAt(ps + [p], |ps|, bank);
    } else {
      var i :| 0 <= i < |ps| && ClosedAt(ps, i, bank);
      assert ClosedAt(ps + [p], i, bank);
    }
  }


  /** Power-up has not come to its PRECHARGE yet. */
  predicate Unprepared(s: Regs) {
    s.state in {StInitWait, StInitPrecharge}
  }

  /** row_open, open_bank and open_row tell the truth about the chip: the commands have closed all other banks. */
  ghost predicate RowsAsRegistered(ps: seq<Pins>, r: Row) {
    && (r.open ==> RowIsOpen(ps, r.bank, r.row))
    && forall bank: nat | r.open ==> bank != r.bank :: BankIsClosed(ps, bank)
  }

  lemma {:induction false} RowHistory(c: Config, ins: seq<Input>)
    requires c.Valid()
    ensures Unprepared(Run(c, ins).ctl) || RowsAsRegistered(Issued(c, ins), Run(c, ins).ctl.row)
  {
    if ins != [] {
      var before, i := ins[..|ins| - 1], ins[|ins| - 1];
      var s := Run(c, before);
      RowHistory(c, before);
      RunControl(c, before);
      RunNarrow(c, before);
      RowEffect(c, s.ctl, i.bus, DataBus(c, s, i.noise));
      StaysPrepared(c, s.ctl, i.bus, DataBus(c, s, i.noise));
      assert Issued(c, ins) == Issued(c, before) + [Outputs(c, s.ctl)];
      if !Unprepared(Run(c, ins).ctl) {
        HistoryStep(Issued(c, before), Outputs(c, s.ctl), s.ctl.row, Run(c, ins).ctl.row);
      }
    }
  }

  lemma StaysPrepared(c: Config, s: Regs, b: BusIn, dq: Half)
    requires c.Valid()
    ensures Unprepared(s) && !Unprepared(Next(c, s, b, dq)) ==> CommandOf(Outputs(c, s)) == CmdPrecharge
    ensures !Unprepared(s) ==> !Unprepared(Next(c, s, b, dq))
  {
  }

  /** One command more. */
  lemma HistoryStep(ps: seq<Pins>, p: Pins, r: Row, r': Row)
    requires RowsAsRegistered(ps, r) || CommandOf(p) == CmdPrecharge
    requires match CommandOf(p)
             case CmdActivate => !r.open && r' == Row(true, p.ba, p.addr)
             case CmdPrecharge => !r'.open && forall bank: nat :: Closes(p, bank)
             case _ => r' == r && forall bank: nat :: !Closes(p, bank)
    ensures RowsAsRegistered(ps + [p], r')
  {
    if r'.open {
      if CommandOf(p) == CmdActivate {
        assert OpenedAt(ps + [p], |ps|, p.ba, p.addr);
      } else {
        StaysOpen(ps, p, r.bank, r.row);
      }
    }
    forall bank: nat | r'.open ==> bank != r'.bank ensures BankIsClosed(ps + [p], bank) {
      GetsClosed(ps, p, bank);
    }
  }

  /**
   * Byte lanes are masked only by WRITE commands, and the controller drives the data bus only with them. On other
   * commands than column commands and ACTIVATE the bank pins are low.
   */
  lemma {:induction false} PinsAtRest(c: Config, ins: seq<Input>)
    requires c.Valid()
    ensures var p := Outputs(c, Run(c, ins).ctl);
            && !p.csN
            && (CommandOf(p) != CmdWrite ==> !p.dqmLo && !p.dqmHi && !p.dqOe)
            && (CommandOf(p) == CmdWrite ==> p.dqOe)
            && (CommandOf(p) !in {CmdActivate, CmdRead, CmdWrite} ==> p.ba == 0)
  {
    hide Step;
  }

  /** Columns are commanded only in the row the request asked for, row commands only with every bank closed. */
  lemma {:induction false} RowDiscipline(c: Config, ins: seq<Input>)
    requires c.Valid()
    ensures var s := Run(c, ins).ctl;
            var p := Outputs(c, s);
            && (CommandOf(p) in {CmdRead, CmdWrite} ==>
                  p.ba == s.req.loc.bank && RowIsOpen(Issued(c, ins), s.req.loc.bank, s.req.loc.row))
            && (CommandOf(p) in {CmdActivate, CmdRefresh, CmdModeReg} ==> RowsAreClosed(Issued(c, ins)))
  {
    hide Step, RowIsOpen, BankIsClosed;
    RowHistory(c, ins);
    RunControl(c, ins);
    RunNarrow(c, ins);
    CommandsFitRow(c, Run(c, ins).ctl);
  }

  lemma CommandsFitRow(c: Config, s: Regs)
    requires c.Valid() && ControlInv(c, s)
    ensures CommandOf(Outputs(c, s)) in {CmdRead, CmdWrite} ==>
              !Unprepared(s) && Outputs(c, s).ba == s.req.loc.bank && s.row == Row(true, s.req.loc.bank, s.req.loc.row)
    ensures CommandOf(Outputs(c, s)) in {CmdActivate, CmdRefresh, CmdModeReg} ==> !Unprepared(s) && !s.row.open
  {
  }
}
