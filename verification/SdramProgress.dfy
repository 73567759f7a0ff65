/** The controller gets ready again and again, so held requests are accepted and bursts end. */
module SdramProgress {
  import opened SdramTypes
  import opened SdramController
  import opened SdramControl
  import opened SdramSystem
  import opened SdramTracking
  import opened SdramFlatMemory
  import opened SdramLatency
  import opened SdramRefresh
  import opened SdramBurst
  import opened WbMaster

  // ---------------------------------------------------------------- the controller gets ready

  lemma BusyLeft(c: Config, s: Regs)
    requires c.Valid() && ControlInv(c, s) && !Booting(s) && !Ready(s) && s.state != StIdle
    ensures TakeLeft(c, s) > 0
  {
  }

  /** Ready, or idle with a refresh to take up first. */
  predicate Settled(s: Regs) {
    Ready(s) || (s.state == StIdle && s.refresh.due)
  }

  lemma {:induction false} Settles(c: Config, ins: seq<Input>, t: nat) returns (t1: nat)
    requires c.Valid() && t <= |ins| && !Booting(Run(c, ins[..t]).ctl) && t + TakeLeft(c, Run(c, ins[..t]).ctl) <= |ins|
    ensures t <= t1 <= t + TakeLeft(c, Run(c, ins[..t]).ctl)
    ensures Settled(Run(c, ins[..t1]).ctl) && !Booting(Run(c, ins[..t1]).ctl)
    decreases |ins| - t
  {
    hide Step, TakeLeft;
    var s := Run(c, ins[..t]);
    RunControl(c, ins[..t]);
    if Ready(s.ctl) || s.ctl.state == StIdle {
      t1 := t;
    } else {
      BusyLeft(c, s.ctl);
      StepControl(c, s, ins[t]);
      BusyStep(c, s.ctl, ins[t].bus, DataBus(c, s, ins[t].noise));
      RunStep(c, ins, t);
      t1 := Settles(c, ins, t + 1);
    }
  }

  lemma StepControl(c: Config, s: System, i: Input)
    requires c.Valid()
    ensures Step(c, s, i).ctl == Next(c, s.ctl, i.bus, DataBus(c, s, i.noise))
  {
  }

  lemma TimerStep(c: Config, s: Regs, b: BusIn, dq: Half)
    requires c.Valid() && s.refresh.timer + 1 < c.refreshCycles
    ensures var n := Next(c, s, b, dq);
            n.refresh.timer == s.refresh.timer + 1 && (!s.refresh.due || s.state == StIdle ==> !n.refresh.due)
  {
  }

  /** No refresh falls due before the timer wraps. */
  lemma {:induction false} StaysUndue(c: Config, ins: seq<Input>, t: nat, u: nat)
    requires c.Valid() && t <= u <= |ins|
    requires var r := Run(c, ins[..t]).ctl.refresh; !r.due && r.timer + (u - t) < c.refreshCycles
    ensures var r := Run(c, ins[..u]).ctl.refresh;
            !r.due && r.timer == Run(c, ins[..t]).ctl.refresh.timer + (u - t)
    decreases u
  {
    hide Step, Run, Next;
    if t < u {
      StaysUndue(c, ins, t, u - 1);
      var s := Run(c, ins[..u - 1]);
      RunStep(c, ins, u - 1);
      StepControl(c, s, ins[u - 1]);
      TimerStep(c, s.ctl, ins[u - 1].bus, DataBus(c, s, ins[u - 1].noise));
    }
  }

  function ReadyBound(c: Config): nat {
    2 * TakeMax(c) + 1
  }

  /** The refresh interval leaves room for requests. */
  predicate Roomy(c: Config) {
    ReadyBound(c) < c.refreshCycles
  }

  /** The controller has been idle in cycle i0, so power-up is over. */
  predicate Started(c: Config, ins: seq<Input>, i0: nat)
    requires c.Valid()
  {
    i0 < |ins| && Run(c, ins[..i0]).ctl.state == StIdle
  }

  /** With a refresh interval that leaves room, the controller is ready within a bound, whatever is requested. */
  lemma {:induction false} ReadyInTime(c: Config, ins: seq<Input>, i0: nat, t: nat) returns (t1: nat)
    requires c.Valid() && Roomy(c) && Started(c, ins, i0) && i0 < t && t + ReadyBound(c) <= |ins|
    ensures t <= t1 <= t + ReadyBound(c) && Ready(Run(c, ins[..t1]).ctl)
  {
    hide Run, TakeLeft, TakeMax, InTime;
    assert ins[..t][..i0] == ins[..i0];
    InTimeAt(c, ins, i0, t);
    t1 := Settles(c, ins, t);
    if !Ready(Run(c, ins[..t1]).ctl) {
      InTimeAt(c, ins, i0, t1);
      var s := Run(c, ins[..t1]);
      AfterIdle(c, ins, t1);
      InTimeAt(c, ins, i0, t1 + 1);
      var t2 := Settles(c, ins, t1 + 1);
      StaysUndue(c, ins, t1 + 1, t2);
      t1 := t2;
    }
  }

  /** Facts about a cycle after power-up. */
  lemma {:induction false} InTimeAt(c: Config, ins: seq<Input>, i0: nat, t: nat)
    requires c.Valid() && Roomy(c) && Started(c, ins, i0) && i0 < t <= |ins|
    ensures var s := Run(c, ins[..t]).ctl;
            && !Booting(s) && TakeLeft(c, s) <= TakeMax(c)
            && (s.state == StIdle && s.refresh.due ==> s.refresh.timer <= TakeMax(c))
  {
    hide Run;
    assert ins[..t][..i0] == ins[..i0];
    RunInTime(c, ins[..t], i0);
    RunControl(c, ins[..t]);
    TakeBound(c, Run(c, ins[..t]).ctl);
  }

  lemma {:induction false} AfterIdle(c: Config, ins: seq<Input>, t: nat)
    requires c.Valid() && Roomy(c) && t < |ins|
    requires var s := Run(c, ins[..t]).ctl; s.state == StIdle && s.refresh.timer <= TakeMax(c)
    ensures var r := Run(c, ins[..t + 1]).ctl.refresh; !r.due && r.timer <= TakeMax(c) + 1
  {
    hide Run, Step, TakeMax;
    var s := Run(c, ins[..t]);
    RunStep(c, ins, t);
    StepControl(c, s, ins[t]);
    TimerStep(c, s.ctl, ins[t].bus, DataBus(c, s, ins[t].noise));
  }

  /** A request held for that long is accepted. */
  lemma {:induction false} HeldIsAccepted(c: Config, ins: seq<Input>, i0: nat, t: nat)
    requires c.Valid() && Roomy(c) && Started(c, ins, i0) && i0 < t && t + ReadyBound(c) < |ins|
    requires forall u | t <= u <= t + ReadyBound(c) :: ins[u].bus.cyc && ins[u].bus.stb
    ensures |Accepted(c, ins[..t + ReadyBound(c) + 1])| > |Accepted(c, ins[..t])|
  {
    hide Run, ReadyBound, Accepted;
    var t1 := ReadyInTime(c, ins, i0, t);
    AcceptedNow(c, ins, t1);
    assert ins[..t1][..t] == ins[..t];
    AcceptedGrows(c, ins[..t1], t);
    var last := ins[..t + ReadyBound(c) + 1];
    assert last[..t1 + 1] == ins[..t1 + 1];
    AcceptedGrows(c, last, t1 + 1);
  }

  lemma AcceptedNow(c: Config, ins: seq<Input>, t: nat)
    requires c.Valid() && t < |ins| && Accept(Run(c, ins[..t]).ctl, ins[t].bus)
    ensures |Accepted(c, ins[..t + 1])| == |Accepted(c, ins[..t])| + 1
  {
    assert ins[..t + 1][..t] == ins[..t];
  }

  // ---------------------------------------------------------------- bursts end

  lemma {:induction false} InputsPrefix(c: Config, k0: Count, us: seq<UserInput>, t: nat)
    requires c.Valid() && t <= |us|
    ensures Inputs(c, k0, us)[..t] == Inputs(c, k0, us[..t])
  {
    if t < |us| {
      InputsPrefix(c, k0, us[..|us| - 1], t);
      assert us[..|us| - 1][..t] == us[..t];
      InputsStep(c, k0, us);
      assert Inputs(c, k0, us)[..t] == Inputs(c, k0, us)[..|us| - 1][..t];
    } else {
      assert us[..t] == us;
    }
  }

  /** The latest cycle by which k beats of a burst started in cycle t0 are accepted. */
  function Deadline(c: Config, t0: nat, k: nat): nat {
    if k == 0 then t0 + 1 else Deadline(c, t0, k - 1) + ReadyBound(c) + 1
  }

  lemma {:induction false} DeadlineGrows(c: Config, t0: nat, k: nat)
    ensures Deadline(c, t0, k) >= t0 + 1
  {
    if k > 0 { DeadlineGrows(c, t0, k - 1); }
  }

  /** The burst has been pending in every cycle up to |us|. */
  predicate Pending(c: Config, k0: Count, us: seq<UserInput>, t0: nat, x: Burst)
    requires c.Valid()
  {
    Busy(c, k0, us, t0, x) && MasterAt(c, k0, us).state == MPending
  }

  lemma {:induction false} PendingPrefix(c: Config, k0: Count, us: seq<UserInput>, t0: nat, x: Burst, t: nat)
    requires c.Valid() && Pending(c, k0, us, t0, x) && t0 < t <= |us|
    ensures Pending(c, k0, us[..t], t0, x)
  {
    hide MasterAt, SystemAt, Inputs, Run, Starts;
    assert us[..t][..t0] == us[..t0];
    assert t < |us| ==> MasterAt(c, k0, us[..t]).state == MPending;
    assert us[..|us|] == us;
    forall u | t0 < u < t ensures MasterAt(c, k0, us[..t][..u]).state == MPending {
      assert us[..t][..u] == us[..u];
    }
  }

  /** How many beats have been accepted by cycle t. */
  function BeatsBy(c: Config, k0: Count, us: seq<UserInput>, t0: nat, t: nat): nat
    requires c.Valid() && t <= |us|
  {
    |AcceptedSince(c, k0, us[..t], t0)|
  }

  /** Beats and accepted requests count alike; a burst with beats to come holds its request. */
  lemma {:induction false} BeatsAt(c: Config, k0: Count, us: seq<UserInput>, t0: nat, x: Burst, t: nat)
    requires c.Valid() && Pending(c, k0, us, t0, x) && t0 < t <= |us|
    ensures |Accepted(c, Inputs(c, k0, us)[..t])| == |Accepted(c, Inputs(c, k0, us[..t0]))| + BeatsBy(c, k0, us, t0, t)
    ensures BeatsBy(c, k0, us, t0, t) <= x.Words()
    ensures BeatsBy(c, k0, us, t0, t) < x.Words() <==> MasterAt(c, k0, us[..t]).out.stb
    ensures MasterAt(c, k0, us[..t]).out.cyc && MasterAt(c, k0, us[..t]).state == MPending
    ensures t < |us| ==> Inputs(c, k0, us)[t].bus == BusOf(MasterAt(c, k0, us[..t]))
  {
    hide Run, MasterAt, Accepted, AcceptedSince, Inputs;
    PendingPrefix(c, k0, us, t0, x, t);
    BusyBurst(c, k0, us[..t], t0, x);
    AcceptedIsRest(c, k0, us[..t], t0);
    assert us[..t][..t0] == us[..t0];
    InputsPrefix(c, k0, us, t);
    if t < |us| {
      InputsPrefix(c, k0, us, t + 1);
      InputsStep(c, k0, us[..t + 1]);
      assert us[..t + 1][..t] == us[..t];
    }
  }

  lemma {:induction false} BeatsGrowBy(c: Config, k0: Count, us: seq<UserInput>, t0: nat, x: Burst, t: nat, u: nat)
    requires c.Valid() && Pending(c, k0, us, t0, x) && t0 < t <= u <= |us|
    ensures BeatsBy(c, k0, us, t0, t) <= BeatsBy(c, k0, us, t0, u)
  {
    hide Run, MasterAt, Accepted, AcceptedSince, Inputs, BeatsBy;
    BeatsAt(c, k0, us, t0, x, t);
    BeatsAt(c, k0, us, t0, x, u);
    var ins := Inputs(c, k0, us)[..u];
    assert ins[..t] == Inputs(c, k0, us)[..t];
    AcceptedGrows(c, ins, t);
  }

  lemma {:induction false} BeatsInTime(c: Config, k0: Count, us: seq<UserInput>, i0: nat, t0: nat, x: Burst, k: nat)
    requires c.Valid() && Roomy(c) && Pending(c, k0, us, t0, x) && i0 <= t0 && Started(c, Inputs(c, k0, us), i0)
    requires k <= x.Words() && Deadline(c, t0, k) <= |us|
    ensures BeatsBy(c, k0, us, t0, Deadline(c, t0, k)) >= k
  {
    hide Run, MasterAt, Accepted, AcceptedSince, Inputs, BeatsBy, ReadyBound;
    if k > 0 {
      var t, n := Deadline(c, t0, k - 1), ReadyBound(c);
      DeadlineGrows(c, t0, k - 1);
      BeatsInTime(c, k0, us, i0, t0, x, k - 1);
      BeatsGrowBy(c, k0, us, t0, x, t, t + n + 1);
      if BeatsBy(c, k0, us, t0, t + n + 1) < k {
        var ins := Inputs(c, k0, us);
        forall u | t <= u <= t + n ensures ins[u].bus.cyc && ins[u].bus.stb {
          BeatsGrowBy(c, k0, us, t0, x, u, t + n + 1);
          BeatsAt(c, k0, us, t0, x, u);
        }
        HeldIsAccepted(c, ins, i0, t);
        BeatsAt(c, k0, us, t0, x, t);
        BeatsAt(c, k0, us, t0, x, t + n + 1);
      }
    }
  }

  /** A burst is finished at the latest this many cycles after its start. */
  function BurstBound(c: Config, x: Burst): nat {
    Deadline(c, 0, x.Words()) + AckBound(c)
  }

  lemma {:induction false} DeadlineShift(c: Config, t0: nat, k: nat)
    ensures Deadline(c, t0, k) == t0 + Deadline(c, 0, k)
  {
    if k > 0 { DeadlineShift(c, t0, k - 1); }
  }

  /** Every burst ends within a bound computed from its length and the timing constants. */
  lemma {:induction false} BurstEnds(c: Config, k0: Count, us: seq<UserInput>, i0: nat, t0: nat, x: Burst)
    requires c.Valid() && Roomy(c) && Pending(c, k0, us, t0, x) && i0 <= t0 && Started(c, Inputs(c, k0, us), i0)
    ensures |us| <= t0 + BurstBound(c, x)
  {
    hide Run, RunTrack, MasterAt, Accepted, AcceptedSince, Inputs, BeatsBy, Acked, AckBound, Deadline;
    var ins, t := Inputs(c, k0, us), Deadline(c, t0, x.Words());
    DeadlineShift(c, t0, x.Words());
    if |us| > t + AckBound(c) {
      DeadlineGrows(c, t0, x.Words());
      BeatsInTime(c, k0, us, i0, t0, x, x.Words());
      BeatsGrowBy(c, k0, us, t0, x, t, |us|);
      BeatsAt(c, k0, us, t0, x, t);
      BeatsAt(c, k0, us, t0, x, |us|);
      assert us[..|us|] == us && ins[..|us|] == ins;
      AckedInTime(c, ins, t - 1);
      RunAccounted(c, ins);
      RunWaits(c, k0, us);
      assert false;
    }
  }
}
