/** What every reachable state of the controller satisfies, whatever the master and the data bus do. */
module SdramControl {
  import opened SdramTypes
  import opened SdramController

  predicate Booting(s: Regs) {
    s.state in {StInitWait, StInitPrecharge, StInitPrechargeWait, StInitRefresh, StInitRefreshWait,
                StInitMode, StInitModeWait}
  }

  /** A request is latched whose column commands have not all been issued. */
  predicate Issuing(s: Regs) {
    || s.state in {StActivate, StActivateWait, StCas0, StCas1}
    || (s.state in {StDrain, StPrecharge, StPrechargeWait} && !s.refresh.pending)
  }

  /** The open row is the one the latched request needs. */
  predicate RowMatches(s: Regs) {
    s.row == Row(true, s.req.loc.bank, s.req.loc.row)
  }

  /** Which row is open, and when a latched row hit may be trusted. */
  predicate RowInv(s: Regs) {
    && (Booting(s) ==> !s.row.open)
    && (s.state in {StPrechargeWait, StActivate, StRefresh, StRefreshWait} ==> !s.row.open)
    && (Issuing(s) && s.req.hit ==> RowMatches(s))
    && (s.state in {StActivateWait, StCas0, StCas1} ==> s.req.hit)
    && (s.state == StPrecharge ==> s.refresh.pending || !s.req.hit)
  }

  /** Where a refresh may be pending. */
  predicate RefreshInv(s: Regs) {
    && (Booting(s) ==> !s.refresh.pending)
    && (s.state in {StIdle, StActivate, StActivateWait, StCas0, StCas1} ==> !s.refresh.pending)
    && (s.state in {StRefresh, StRefreshWait} ==> s.refresh.pending)
  }

  /** Where read data may be in flight. */
  predicate PipeInv(s: Regs) {
    && (Booting(s) ==> AllLow(s.rd.pipe) && s.wrTimer == 0 && s.rasTimer == 0)
    && (s.state in {StPrecharge, StPrechargeWait, StActivate, StActivateWait, StRefresh, StRefreshWait} ==>
          AllLow(s.rd.pipe))
    && (WritesColumn(s) ==> AllLow(s.rd.pipe))
    && (s.state == StCas1 && !s.req.we ==> |s.rd.pipe| > 0 && s.rd.pipe[0])
    && (Booting(s) ==> !s.ack)
    && (s.state == StPrecharge ==> s.wrTimer == 0 && s.rasTimer == 0)
  }

  /** What is left to wait for after a row command. */
  predicate WaitInv(c: Config, s: Regs) {
    && (s.state == StPrechargeWait ==> s.wait + 2 <= c.rpCycles)
    && (s.state == StActivateWait ==> s.wait + 2 <= c.rcdCycles)
    && (s.state == StRefreshWait ==> s.wait <= SubClip(c.rfcCycles, 2))
  }

  predicate ControlInv(c: Config, s: Regs)
    requires c.Valid()
  {
    InRange(c, s) && RowInv(s) && RefreshInv(s) && PipeInv(s) && WaitInv(c, s)
  }

  lemma ResetControl(c: Config)
    requires c.Valid()
    ensures ControlInv(c, ResetRegs(c))
  {
  }

  lemma RangeStep(c: Config, s: Regs, b: BusIn, dq: Half)
    requires c.Valid() && InRange(c, s)
    ensures InRange(c, Next(c, s, b, dq))
  {
  }

  lemma RowStep(c: Config, s: Regs, b: BusIn, dq: Half)
    requires c.Valid() && RowInv(s) && RefreshInv(s)
    ensures RowInv(Next(c, s, b, dq))
  {
  }

  lemma RefreshStep(c: Config, s: Regs, b: BusIn, dq: Half)
    requires c.Valid() && RefreshInv(s)
    ensures RefreshInv(Next(c, s, b, dq))
  {
  }

  lemma WaitStep(c: Config, s: Regs, b: BusIn, dq: Half)
    requires c.Valid() && WaitInv(c, s)
    ensures WaitInv(c, Next(c, s, b, dq))
  {
  }

  /** An empty pipe stays empty unless a column is read. */
  lemma ShiftLow(p: seq<bool>, first: bool)
    requires AllLow(p)
    ensures !first ==> AllLow(Shift(p, first))
  {
  }

  lemma {:induction false} PipeStep(c: Config, s: Regs, b: BusIn, dq: Half)
    requires c.Valid() && |s.rd.pipe| > 0 && PipeInv(s)
    ensures PipeInv(Next(c, s, b, dq))
  {
    if AllLow(s.rd.pipe) {
      ShiftLow(s.rd.pipe, ReadsColumn(s));
    }
  }

  /** Every clock edge keeps the control invariant. */
  lemma {:induction false} ControlStep(c: Config, s: Regs, b: BusIn, dq: Half)
    requires c.Valid() && ControlInv(c, s)
    ensures ControlInv(c, Next(c, s, b, dq))
  {
    RangeStep(c, s, b, dq);
    RowStep(c, s, b, dq);
    RefreshStep(c, s, b, dq);
    PipeStep(c, s, b, dq);
    WaitStep(c, s, b, dq);
  }
}
