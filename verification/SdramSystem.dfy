/** Controller and SDRAM chip on one bus, clocked together, and the runs of that system. */
module SdramSystem {
  import opened Options
  import opened SdramTypes
  import opened SdramControl
  import opened SdramController
  import opened SdramDevice

  datatype System = System(ctl: Regs, dev: Device)

  /** What the environment chooses in one cycle: the master's signals, and what an undriven bus reads as. */
  datatype Input = Input(bus: BusIn, noise: Half)

  function Initial(c: Config): System
    requires c.Valid()
  {
    System(ResetRegs(c), POWER_UP_DEVICE)
  }

  function Driven(p: Pins): Option<Half> {
    if p.dqOe then Some(p.dqOut) else None
  }

  /** The value on the shared data bus in the current cycle. */
  function DataBus(c: Config, s: System, noise: Half): Half {
    BusValue(s.dev.drive, Driven(Outputs(c, s.ctl)), noise)
  }

  /** One clock edge of the whole system. */
  function Step(c: Config, s: System, i: Input): System
    requires c.Valid()
  {
    var dq := DataBus(c, s, i.noise);
    System(Next(c, s.ctl, i.bus, dq), NextDevice(c, s.dev, Outputs(c, s.ctl), dq))
  }

  /** The state after the given inputs, one per clock cycle, starting at reset. */
  function Run(c: Config, ins: seq<Input>): System
    requires c.Valid()
  {
    if ins == [] then Initial(c) else Step(c, Run(c, ins[..|ins| - 1]), ins[|ins| - 1])
  }

  lemma {:induction false} RunControl(c: Config, ins: seq<Input>)
    requires c.Valid()
    ensures ControlInv(c, Run(c, ins).ctl)
  {
    if ins == [] {
      ResetControl(c);
    } else {
      var before := Run(c, ins[..|ins| - 1]);
      var i := ins[|ins| - 1];
      RunControl(c, ins[..|ins| - 1]);
      ControlStep(c, before.ctl, i.bus, DataBus(c, before, i.noise));
    }
  }

  /** The command pins in cycles 0 to |ins| of a run. */
  function Trace(c: Config, ins: seq<Input>): (ps: seq<Pins>)
    requires c.Valid()
    ensures |ps| == |ins| + 1
  {
    (if ins == [] then [] else Trace(c, ins[..|ins| - 1])) + [Outputs(c, Run(c, ins).ctl)]
  }

  /** The commands before the current cycle of a run. */
  function Issued(c: Config, ins: seq<Input>): seq<Pins>
    requires c.Valid()
  {
    Trace(c, ins)[..|ins|]
  }

  lemma {:induction false} TracePrefix(c: Config, ins: seq<Input>, t: nat)
    requires c.Valid() && t <= |ins|
    ensures Trace(c, ins)[..t + 1] == Trace(c, ins[..t])
  {
    if t < |ins| {
      var before := ins[..|ins| - 1];
      TracePrefix(c, before, t);
      assert before[..t] == ins[..t];
      assert Trace(c, ins)[..t + 1] == Trace(c, before)[..t + 1];
    } else {
      assert ins[..t] == ins;
    }
  }

  /** The requests accepted in a run, oldest first. */
  function Accepted(c: Config, ins: seq<Input>): (r: seq<BusIn>)
    requires c.Valid()
  {
    if ins == [] then []
    else
      var before := ins[..|ins| - 1];
      var i := ins[|ins| - 1];
      Accepted(c, before) + if Accept(Run(c, before).ctl, i.bus) then [i.bus] else []
  }

  /** The data words acknowledged in a run, oldest first, one for each cycle with ack high. */
  function Acked(c: Config, ins: seq<Input>): (r: seq<Word>)
    requires c.Valid()
  {
    if ins == [] then []
    else
      var now := Run(c, ins[..|ins| - 1]).ctl;
      Acked(c, ins[..|ins| - 1]) + if now.ack then [now.data] else []
  }

  /** One clock edge of the two clocked objects is one Step of their states. */
  method ClockSystem(ctl: Controller, chip: Chip, i: Input)
    requires ctl.Valid() && ctl.c == chip.c
    modifies ctl, chip
    ensures ctl.Valid()
    ensures System(ctl.r, chip.d) == Step(ctl.c, System(old(ctl.r), old(chip.d)), i)
  {
    var pins := Outputs(ctl.c, ctl.r);
    var dq := BusValue(chip.d.drive, Driven(pins), i.noise);
    chip.Edge(pins, dq);
    ctl.Clock(i.bus, dq);
  }
}
