/** Words, bus signals, command pins and generics shared by the SDRAM controller and the SDRAM device. */
module SdramTypes {
  import opened Options

  type Byte = b: int | 0 <= b < 256

  /** One x16 column of the SDRAM, as its two byte lanes. */
  datatype Half = Half(lo: Byte, hi: Byte)

  /** A 32-bit Wishbone word: columns 2c (lo) and 2c+1 (hi). */
  datatype Word = Word(lo: Half, hi: Half)

  /** Wishbone byte selects, sel(0) to sel(3). */
  datatype Sel = Sel(s0: bool, s1: bool, s2: bool, s3: bool)

  const ZERO_HALF := Half(0, 0)
  const ZERO_WORD := Word(ZERO_HALF, ZERO_HALF)

  /** The lanes of d that are selected, the lanes of prev that are not. */
  function MergeHalf(prev: Half, d: Half, lo: bool, hi: bool): Half {
    Half(if lo then d.lo else prev.lo, if hi then d.hi else prev.hi)
  }

  function MergeWord(prev: Word, d: Word, sel: Sel): Word {
    Word(MergeHalf(prev.lo, d.lo, sel.s0, sel.s1), MergeHalf(prev.hi, d.hi, sel.s2, sel.s3))
  }

  function Pow2(n: nat): (p: nat)
    ensures p > 0
  {
    if n == 0 then 1 else 2 * Pow2(n - 1)
  }

  function SubClip(a: nat, b: nat): nat {
    if a > b then a - b else 0
  }

  function Max(a: int, b: int): int {
    if a > b then a else b
  }

  /** The generics of the controller; every duration is already a number of clock cycles. */
  datatype Config = Config(
    rowBits: nat, colBits: nat, bankBits: nat, casLatency: nat,
    initCycles: nat, rcdCycles: nat, rpCycles: nat, rasCycles: nat, rfcCycles: nat, wrCycles: nat,
    mrdCycles: nat, refreshCycles: nat, initRefreshCount: nat)
  {
    /**
     * What the VHDL asserts and what its ranges need: a column address leaves bit 10 alone, every range is non-empty
     * and every value written to wait_count fits.
     */
    predicate Valid() {
      && 1 <= colBits <= 10
      && 2 <= casLatency <= 3
      && 1 <= rpCycles <= initCycles
      && 1 <= rfcCycles <= initCycles
      && 1 <= mrdCycles <= initCycles
      && rcdCycles <= initCycles + 1
      && 1 <= refreshCycles
      && 1 <= initRefreshCount
    }

    /** 32-bit words in one open row. */
    function RowWords(): (n: nat)
      requires 1 <= colBits
      ensures n > 0
    {
      Pow2(colBits - 1)
    }

    function Banks(): (n: nat) ensures n > 0 { Pow2(bankBits) }

    function Rows(): (n: nat) ensures n > 0 { Pow2(rowBits) }
  }

  /** Where a 32-bit word lives: bank, row, and column pair. */
  datatype Loc = Loc(bank: nat, row: nat, col: nat)

  /** The address slices of the controller: column pair in the low bits, then bank, then row. */
  function Decode(c: Config, adr: nat): Loc
    requires c.Valid()
  {
    Loc(adr / c.RowWords() % c.Banks(), adr / c.RowWords() / c.Banks() % c.Rows(), adr % c.RowWords())
  }

  /** wb_slave_ifc_in_t, as driven by the master in one clock cycle. */
  datatype BusIn = BusIn(adr: nat, dat: Word, we: bool, sel: Sel, stb: bool, cyc: bool)

  /** The SDRAM command pins; `true` is a high level. `dqLo`/`dqHi` mask a byte lane when high. */
  datatype Pins = Pins(
    csN: bool, rasN: bool, casN: bool, weN: bool, ba: nat, addr: nat,
    dqmLo: bool, dqmHi: bool, dqOe: bool, dqOut: Half)

  /** The commands of an SDR SDRAM. */
  datatype Command = CmdNop | CmdActivate | CmdRead | CmdWrite | CmdPrecharge | CmdRefresh | CmdModeReg

  function CommandOf(p: Pins): Command {
    if p.csN then CmdNop
    else if !p.rasN && p.casN && p.weN then CmdActivate
    else if p.rasN && !p.casN && p.weN then CmdRead
    else if p.rasN && !p.casN && !p.weN then CmdWrite
    else if !p.rasN && p.casN && !p.weN then CmdPrecharge
    else if !p.rasN && !p.casN && p.weN then CmdRefresh
    else if !p.rasN && !p.casN && !p.weN then CmdModeReg
    else CmdNop
  }

  /** What a sampler sees on the shared data bus. A floating or contended bus yields arbitrary `noise`. */
  function BusValue(a: Option<Half>, b: Option<Half>, noise: Half): Half {
    match (a, b)
    case (Some(x), None) => x
    case (None, Some(y)) => y
    case _ => noise
  }
}
