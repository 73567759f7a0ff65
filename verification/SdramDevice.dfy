/** The SDR SDRAM of VHDL/cocotb/sdram_model.py: one x16 chip answering the commands on its pins. */
module SdramDevice {
  import opened Options
  import opened SdramTypes

  /** Key of one stored column. */
  datatype Cell = Cell(bank: nat, row: nat, col: nat)

  /** Read data to be driven in the clock cycle after edge `at`. */
  datatype Pending = Pending(at: nat, value: Half)

  /** `drive` is what the chip puts on the data bus in the current cycle. */
  datatype Device = Device(
    mem: map<Cell, Half>, bank: nat, row: nat, cycle: nat, pending: seq<Pending>, cas: nat, drive: Option<Half>)

  const POWER_UP_DEVICE := Device(map[], 0, 0, 0, [], 3, None)

  /** Cells never written read as zero. */
  function Fetch(mem: map<Cell, Half>, x: Cell): Half {
    if x in mem then mem[x] else ZERO_HALF
  }

  /** The value of the last entry due in this cycle. */
  function Due(p: seq<Pending>, cycle: nat): Option<Half> {
    if p == [] then None
    else if p[|p| - 1].at == cycle then Some(p[|p| - 1].value)
    else Due(p[..|p| - 1], cycle)
  }

  function NotDue(p: seq<Pending>, cycle: nat): seq<Pending> {
    if p == [] then []
    else NotDue(p[..|p| - 1], cycle) + if p[|p| - 1].at == cycle then [] else [p[|p| - 1]]
  }

  /** The column a column command addresses in the row that was activated last. */
  function Addressed(c: Config, d: Device, pins: Pins): Cell {
    Cell(d.bank, d.row, pins.addr % Pow2(c.colBits))
  }

  function NextMem(c: Config, d: Device, pins: Pins, dq: Half): map<Cell, Half> {
    if CommandOf(pins) == CmdWrite then
      var x := Addressed(c, d, pins);
      d.mem[x := MergeHalf(Fetch(d.mem, x), dq, !pins.dqmLo, !pins.dqmHi)]
    else d.mem
  }

  /** One clock edge, `dq` being the value on the data bus. PRECHARGE and REFRESH change nothing. */
  function NextDevice(c: Config, d: Device, pins: Pins, dq: Half): Device {
    var now := d.cycle + 1;
    var waiting := NotDue(d.pending, now);
    var cmd := CommandOf(pins);
    Device(
      NextMem(c, d, pins, dq),
      if cmd == CmdActivate then pins.ba else d.bank,
      if cmd == CmdActivate then pins.addr else d.row,
      now,
      if cmd == CmdRead then waiting + [Pending(SubClip(now + d.cas, 1), Fetch(d.mem, Addressed(c, d, pins)))]
      else waiting,
      if cmd == CmdModeReg then pins.addr / 16 % 8 else d.cas,
      Due(d.pending, now))
  }

  /** The endless loop of the model; one call of Edge is one iteration. */
  class Chip {
    const c: Config
    var d: Device

    constructor (c: Config)
      ensures this.c == c && d == POWER_UP_DEVICE
    {
      this.c := c;
      d := POWER_UP_DEVICE;
    }

    method Edge(pins: Pins, dq: Half)
      modifies this
      ensures d == NextDevice(c, old(d), pins, dq)
    {
      var cycle := d.cycle + 1;
      var delivered: Option<Half> := None;
      var still: seq<Pending> := [];
      for i := 0 to |d.pending|
        invariant d == old(d)
        invariant delivered == Due(d.pending[..i], cycle)
        invariant still == NotDue(d.pending[..i], cycle)
      {
        assert d.pending[..i + 1][..i] == d.pending[..i];
        if d.pending[i].at == cycle {
          delivered := Some(d.pending[i].value);
        } else {
          still := still + [d.pending[i]];
        }
      }
      assert d.pending[..|d.pending|] == d.pending;
      d := d.(cycle := cycle, pending := still, drive := delivered);
      var cmd := CommandOf(pins);
      if cmd == CmdActivate {
        d := d.(bank := pins.ba, row := pins.addr);
      } else if cmd == CmdModeReg {
        d := d.(cas := pins.addr / 16 % 8);
      } else if cmd == CmdRead {
        var x := Addressed(c, d, pins);
        d := d.(pending := d.pending + [Pending(SubClip(cycle + d.cas, 1), Fetch(d.mem, x))]);
      } else if cmd == CmdWrite {
        var x := Addressed(c, d, pins);
        d := d.(mem := d.mem[x := MergeHalf(Fetch(d.mem, x), dq, !pins.dqmLo, !pins.dqmHi)]);
      }
    }
  }
}
