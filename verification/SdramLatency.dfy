/** How long a request can take: every accepted request is acknowledged within a bound computed from the timing. */
module SdramLatency {
  import opened SdramTypes
  import opened SdramController
  import opened SdramControl
  import opened SdramSystem
  import opened SdramTracking
  import opened SdramRefinement
  import opened SdramFlatMemory

  /** Cycles until no marker is left in a pipe into which none is shifted. */
  function PipeLeft(p: seq<bool>): nat {
    if p == [] then 0 else if p[0] then |p| else PipeLeft(p[1..])
  }

  lemma {:induction false} PipeLeftDrop(p: seq<bool>)
    requires p != []
    ensures PipeLeft(p[..|p| - 1]) == SubClip(PipeLeft(p), 1)
  {
    if !p[0] && |p| > 1 {
      PipeLeftDrop(p[1..]);
      assert p[1..][..|p| - 2] == p[..|p| - 1][1..];
    }
  }

  lemma {:induction false} PipeLeftZero(p: seq<bool>)
    ensures PipeLeft(p) == 0 <==> AllLow(p)
    ensures PipeLeft(p) <= |p|
  {
    if p != [] && !p[0] {
      PipeLeftZero(p[1..]);
      assert AllLow(p) <==> AllLow(p[1..]) by {
        assert forall i | 1 <= i < |p| :: p[i] == p[1..][i - 1];
      }
    }
  }

  lemma PipeLeftShift(p: seq<bool>)
    requires p != []
    ensures PipeLeft(Shift(p, false)) == SubClip(PipeLeft(p), 1)
  {
    PipeLeftDrop(p);
    assert Shift(p, false)[1..] == p[..|p| - 1];
  }

  /** Cycles until Quiet in a state that reads and writes nothing. */
  function DrainLeft(s: Regs): nat {
    Max(PipeLeft(s.rd.pipe), Max(s.wrTimer, s.rasTimer))
  }

  function DrainMax(c: Config): nat {
    Max(c.casLatency + 1, Max(c.wrCycles, c.rasCycles))
  }

  lemma DrainStep(c: Config, s: Regs, b: BusIn, dq: Half)
    requires c.Valid() && InRange(c, s) && s.state !in {StCas0, StCas1, StActivate}
    ensures DrainLeft(Next(c, s, b, dq)) == SubClip(DrainLeft(s), 1)
    ensures DrainLeft(s) == 0 <==> Quiet(s)
  {
    PipeLeftShift(s.rd.pipe);
    PipeLeftZero(s.rd.pipe);
  }

  lemma DrainBound(c: Config, s: Regs)
    requires c.Valid() && InRange(c, s)
    ensures DrainLeft(s) <= DrainMax(c)
  {
    PipeLeftZero(s.rd.pipe);
  }

  /** Cycles an ACTIVATE takes up to the first column command. */
  function ActivateLength(c: Config): nat { Max(c.rcdCycles, 1) }

  /** At most this many cycles until the latched request has issued its second column command. */
  function IssueLeft(c: Config, s: Regs): nat {
    var activate := ActivateLength(c) + 2;
    match s.state
    case StCas1 => 1
    case StCas0 => 2
    case StActivateWait => s.wait + 3
    case StActivate => activate
    case StPrechargeWait => s.wait + 1 + activate
    case StPrecharge => c.rpCycles + activate
    case StDrain => DrainLeft(s) + 1 + if s.req.hit then 2 else c.rpCycles + activate
    case _ => 0
  }

  function IssueMax(c: Config): nat {
    DrainMax(c) + 1 + c.rpCycles + ActivateLength(c) + 2
  }

  /** A request being issued makes progress in every cycle. */
  lemma IssueStep(c: Config, s: Regs, b: BusIn, dq: Half)
    requires c.Valid() && ControlInv(c, s) && StillIssuing(s)
    ensures IssueLeft(c, Next(c, s, b, dq)) + 1 <= IssueLeft(c, s)
  {
    if s.state == StDrain {
      DrainStep(c, s, b, dq);
      PipeLeftZero(s.rd.pipe);
    }
  }

  lemma IssueStart(c: Config, s: Regs, b: BusIn, dq: Half)
    requires c.Valid() && ControlInv(c, s) && Accept(s, b)
    ensures IssueLeft(c, Next(c, s, b, dq)) <= IssueMax(c)
  {
    RangeStep(c, s, b, dq);
    DrainBound(c, Next(c, s, b, dq));
  }

  // ---------------------------------------------------------------- acks in time

  /** Cycles from acceptance to the ack, at most. */
  function AckBound(c: Config): nat {
    1 + IssueMax(c) + c.casLatency
  }

  /** No owed ack is, or will be, later than its bound. */
  predicate OnTime(c: Config, s: System, k: Track)
    requires c.Valid()
  {
    && |k.slots| == c.casLatency + 1
    && (Issuing(s.ctl) ==> s.dev.cycle + IssueLeft(c, s.ctl) + c.casLatency <= Current(k).born + AckBound(c))
    && (forall i | 0 <= i <= c.casLatency :: k.slots[i].Hi? ==>
          s.dev.cycle + c.casLatency - i <= k.slots[i].e.born + AckBound(c))
    && (s.ctl.ack && k.owed != [] ==> s.dev.cycle <= k.owed[0].born + AckBound(c))
  }

  lemma {:induction false} OnTimeSlots(c: Config, s: System, k: Track, i: Input)
    requires c.Valid() && OnTime(c, s, k)
    ensures forall j | 0 <= j <= c.casLatency :: NextTrack(c, s, k, i).slots[j].Hi? ==>
              s.dev.cycle + 1 + c.casLatency - j <= NextTrack(c, s, k, i).slots[j].e.born + AckBound(c)
  {
    var n := NextTrack(c, s, k, i).slots;
    forall j | 0 <= j <= c.casLatency && n[j].Hi?
      ensures s.dev.cycle + 1 + c.casLatency - j <= n[j].e.born + AckBound(c)
    {
      if j > 0 {
        assert n[j] == k.slots[j - 1];
      }
    }
  }

  lemma {:induction false} OnTimeIssue(c: Config, s: System, k: Track, i: Input)
    requires c.Valid() && RefinementInv(c, s, k) && OnTime(c, s, k)
    ensures var s', k' := Step(c, s, i), NextTrack(c, s, k, i);
            Issuing(s'.ctl) ==> s'.dev.cycle + IssueLeft(c, s'.ctl) + c.casLatency <= Current(k').born + AckBound(c)
  {
    var dq := DataBus(c, s, i.noise);
    LatchStep(c, s.ctl, i.bus, dq);
    if Accept(s.ctl, i.bus) {
      IssueStart(c, s.ctl, i.bus, dq);
    } else if StillIssuing(s.ctl) {
      CurrentStays(c, s, k, i);
      IssueStep(c, s.ctl, i.bus, dq);
    }
  }

  lemma {:induction false} OnTimeAck(c: Config, s: System, k: Track, i: Input)
    requires c.Valid() && RefinementInv(c, s, k) && OnTime(c, s, k)
    ensures var s', k' := Step(c, s, i), NextTrack(c, s, k, i);
            s'.ctl.ack && k'.owed != [] ==> s'.dev.cycle <= k'.owed[0].born + AckBound(c)
  {
    WordComplete(c, s, k, i);
    if k.slots[c.casLatency - 1].Hi? {
      LeavingIsNext(c, s, k, i);
    } else if Finishes(s.ctl, true) {
      WriteAlone(c, s, k);
      assert k.owed[Bit(s.ctl.ack)..|k.owed| - 1] == [];
    }
  }

  lemma {:induction false} RunOnTime(c: Config, ins: seq<Input>)
    requires c.Valid()
    ensures OnTime(c, Run(c, ins), RunTrack(c, ins))
  {
    if ins != [] {
      var before, i := ins[..|ins| - 1], ins[|ins| - 1];
      var s, k := Run(c, before), RunTrack(c, before);
      RunOnTime(c, before);
      RunRefinement(c, before);
      OnTimeSlots(c, s, k, i);
      OnTimeIssue(c, s, k, i);
      OnTimeAck(c, s, k, i);
    }
  }

  lemma {:induction false} CycleCount(c: Config, ins: seq<Input>)
    requires c.Valid()
    ensures Run(c, ins).dev.cycle == |ins|
  {
    if ins != [] {
      CycleCount(c, ins[..|ins| - 1]);
    }
  }

  lemma {:induction false} FirstRead(g: seq<Slot>) returns (i: nat)
    requires Reads(g) != []
    ensures i < |g| && g[i].Hi? && g[i].e == Reads(g)[0]
  {
    if g[|g| - 1].Hi? {
      i := |g| - 1;
    } else {
      i := FirstRead(g[..|g| - 1]);
    }
  }

  /** The oldest ack owed is not late. */
  lemma HeadOnTime(c: Config, s: System, k: Track)
    requires c.Valid() && OwedInv(c, s, k) && OnTime(c, s, k) && k.owed != []
    ensures s.dev.cycle <= k.owed[0].born + AckBound(c)
  {
    var q := k.owed[Bit(s.ctl.ack)..|k.owed| - Bit(Issuing(s.ctl))];
    if !s.ctl.ack && q != [] {
      var i := FirstRead(k.slots[..c.casLatency]);
      assert k.owed[0] == q[0];
    }
  }

  /** No request is older than its recorded acceptance. */
  predicate BornInv(c: Config, ins: seq<Input>, acked: nat, owed: seq<Expect>)
    requires c.Valid()
  {
    forall j | 0 <= j < |owed| :: owed[j].born < |ins| && |Accepted(c, ins[..owed[j].born])| <= acked + j
  }

  lemma {:induction false} BornStep(c: Config, ins: seq<Input>, i: Input, s: System, k: Track, acked: nat)
    requires c.Valid() && BornInv(c, ins, acked, k.owed)
    requires s.dev.cycle == |ins| && |Accepted(c, ins)| == acked + |k.owed|
    requires s.ctl.ack ==> k.owed != []
    ensures BornInv(c, ins + [i], acked + Bit(s.ctl.ack), NextOwed(c, s, k, i))
  {
    hide Step, StoredAt, Decode, Run, Accept;
    assert (ins + [i])[..|ins|] == ins;
    forall j | 0 <= j < |k.owed| ensures (ins + [i])[..k.owed[j].born] == ins[..k.owed[j].born] {
    }
  }

  lemma {:induction false} RunBorn(c: Config, ins: seq<Input>)
    requires c.Valid()
    ensures BornInv(c, ins, |Acked(c, ins)|, RunTrack(c, ins).owed)
  {
    if ins != [] {
      var before, i := ins[..|ins| - 1], ins[|ins| - 1];
      var s, k := Run(c, before), RunTrack(c, before);
      RunBorn(c, before);
      RunAccounted(c, before);
      RunAckIsOwed(c, before);
      CycleCount(c, before);
      assert ins == before + [i];
      BornStep(c, before, i, s, k, |Acked(c, before)|);
    }
  }

  lemma {:induction false} AcceptedGrows(c: Config, ins: seq<Input>, t: nat)
    requires c.Valid() && t <= |ins|
    ensures |Accepted(c, ins[..t])| <= |Accepted(c, ins)|
  {
    if t < |ins| {
      AcceptedGrows(c, ins[..|ins| - 1], t);
      assert ins[..|ins| - 1][..t] == ins[..t];
    } else {
      assert ins[..t] == ins;
    }
  }

  /**
   * Every request accepted in cycles 0 to t has been acknowledged by cycle t + AckBound. With the answers of
   * AnswersLikeFlatMemory this makes every accepted request acknowledged exactly once, in order and in time.
   */
  lemma {:induction false} AckedInTime(c: Config, ins: seq<Input>, t: nat)
    requires c.Valid() && t + AckBound(c) < |ins|
    ensures |Acked(c, ins)| >= |Accepted(c, ins[..t + 1])|
  {
    hide Step, NextTrack;
    var s, k := Run(c, ins), RunTrack(c, ins);
    RunAccounted(c, ins);
    RunRefinement(c, ins);
    RunOnTime(c, ins);
    RunBorn(c, ins);
    CycleCount(c, ins);
    if k.owed == [] {
      AcceptedGrows(c, ins, t + 1);
    } else {
      HeadOnTime(c, s, k);
      var born := k.owed[0].born;
      assert ins[..born][..t + 1] == ins[..t + 1];
      AcceptedGrows(c, ins[..born], t + 1);
    }
  }
}
