/** Bursts of the bus master through the SDRAM controller. */
module SdramBurst {
  import opened SdramTypes
  import opened SdramController
  import opened SdramSystem
  import opened SdramTracking
  import opened SdramRefinement
  import opened SdramFlatMemory
  import opened M = WbMaster

  /** What the environment of master, controller and chip chooses in one cycle. */
  datatype UserInput = UserInput(user: User, noise: Half)

  /** The controller's answer; it never reports an error. */
  function SlaveOf(s: Regs): SlaveOut {
    SlaveOut(s.data, s.ack, false, !Ready(s))
  }

  /** The inputs of the controller in a run behind the master, cycle by cycle. */
  function Inputs(c: Config, k0: Count, us: seq<UserInput>): (ins: seq<Input>)
    requires c.Valid()
    ensures |ins| == |us|
    decreases |us|, 0
  {
    if us == [] then []
    else
      var before := us[..|us| - 1];
      Inputs(c, k0, before) + [Input(BusOf(MasterAt(c, k0, before)), us[|us| - 1].noise)]
  }

  /** The state of controller and chip behind the master. */
  function SystemAt(c: Config, k0: Count, us: seq<UserInput>): System
    requires c.Valid()
    decreases |us|, 1
  {
    Run(c, Inputs(c, k0, us))
  }

  function MasterAt(c: Config, k0: Count, us: seq<UserInput>): Master
    requires c.Valid()
    decreases |us|, 2
  {
    if us == [] then ResetMaster(k0)
    else
      var before := us[..|us| - 1];
      NextMaster(MasterAt(c, k0, before), us[|us| - 1].user, SlaveOf(SystemAt(c, k0, before).ctl))
  }

  // ---------------------------------------------------------------- outstanding beats

  /** The master waits for exactly the acks the controller owes it. */
  predicate Waits(m: Master, owed: nat) {
    && (m.state == MIdle ==> owed == 0 && !m.out.stb)
    && (m.state == MPending ==>
          && m.out.cyc && (!m.out.stb ==> m.count == 0)
          && owed + (if m.out.stb then m.count + 1 else 0) == m.countAck + 1
          && (m.out.we ==> !m.dready))
  }

  /** One edge of the master, `accept` being what the controller does with its request. */
  lemma WaitsStep(m: Master, u: User, s: SlaveOut, owed: nat, owed': nat)
    requires Waits(m, owed) && !s.err && (s.ack ==> owed > 0)
    requires owed' + Bit(s.ack) == owed + Bit(m.out.stb && m.out.cyc && !s.stall)
    ensures Waits(NextMaster(m, u, s), owed')
  {
  }

  lemma {:induction false} RunWaits(c: Config, k0: Count, us: seq<UserInput>)
    requires c.Valid()
    ensures Waits(MasterAt(c, k0, us), |RunTrack(c, Inputs(c, k0, us)).owed|)
  {
    if us != [] {
      var before, u := us[..|us| - 1], us[|us| - 1];
      var m, ins := MasterAt(c, k0, before), Inputs(c, k0, before);
      RunWaits(c, k0, before);
      RunAckIsOwed(c, ins);
      InputsStep(c, k0, us);
      WaitsStep(m, u.user, SlaveOf(Run(c, ins).ctl), |RunTrack(c, ins).owed|, |RunTrack(c, Inputs(c, k0, us)).owed|);
    }
  }

  lemma InputsStep(c: Config, k0: Count, us: seq<UserInput>)
    requires c.Valid() && us != []
    ensures var ins := Inputs(c, k0, us);
            ins[..|ins| - 1] == Inputs(c, k0, us[..|us| - 1])
            && ins[|ins| - 1].bus == BusOf(MasterAt(c, k0, us[..|us| - 1]))
  {
  }

  // ---------------------------------------------------------------- one burst

  /** A burst: the word address it starts at, the burst value, and its direction. */
  datatype Burst = Burst(hi: nat, lo: bv6, mask: bv6, we: bool)
  {
    function Words(): nat { mask as nat + 1 }

    /** The word address of beat i. */
    function Address(i: nat): nat { 64 * hi + BeatLo(lo, mask, i) as nat }
  }

  function BurstOf(u: User): Burst {
    Burst(u.adrHi, u.adrLo, u.burst, u.we)
  }

  /** These requests are the first beats of the burst, writing the words sampled from the user. */
  predicate Beats(x: Burst, acc: seq<BusIn>, words: seq<Word>) {
    && |acc| <= x.Words()
    && (x.we ==> |acc| <= |words|)
    && forall i | 0 <= i < |acc| ::
         acc[i].adr == x.Address(i) && acc[i].we == x.we && acc[i].sel == ALL_LANES && (x.we ==> acc[i].dat == words[i])
  }

  /** A burst in progress: what was accepted, what is presented next, what was sampled. */
  predicate InBurst(m: Master, x: Burst, acc: seq<BusIn>, words: seq<Word>) {
    && m.state == MPending && m.mask == x.mask
    && m.out.we == x.we && m.out.adrHi == x.hi && m.out.sel == ALL_LANES && m.out.cyc
    && Beats(x, acc, words)
    && (m.out.stb ==> |acc| + m.count + 1 == x.Words() && m.out.adrLo == BeatLo(x.lo, x.mask, |acc|))
    && (m.out.stb && x.we ==> |words| == |acc| + 1 && m.out.dat == words[|acc|])
    && (!m.out.stb ==> |acc| == x.Words() && m.count == 0 && (x.we ==> |words| == |acc|))
  }

  /** All beats of the burst were accepted, all words to be written were sampled. */
  predicate Complete(x: Burst, acc: seq<BusIn>, words: seq<Word>) {
    Beats(x, acc, words) && |acc| == x.Words() && (x.we ==> |words| == x.Words())
  }

  lemma BurstStart(m: Master, u: User, s: SlaveOut)
    requires Starts(m, u)
    ensures InBurst(NextMaster(m, u, s), BurstOf(u), [], if DataReady(m, u, s) then [u.din] else [])
  {
  }

  /** The requests the controller takes in this cycle, the words the master samples in it. */
  function Taken(m: Master, s: SlaveOut): seq<BusIn> {
    if m.out.stb && m.out.cyc && !s.stall then [BusOf(m)] else []
  }

  function Sampled(m: Master, u: User, s: SlaveOut): seq<Word> {
    if DataReady(m, u, s) then [u.din] else []
  }

  /** The ack, if any, of one cycle. */
  function Given(s: SlaveOut): seq<Word> {
    if s.ack then [s.dat] else []
  }

  lemma BeatsGrow(x: Burst, acc: seq<BusIn>, words: seq<Word>, b: BusIn, more: seq<Word>)
    requires Beats(x, acc, words) && |acc| < x.Words()
    requires b.adr == x.Address(|acc|) && b.we == x.we && b.sel == ALL_LANES
    requires x.we ==> |acc| < |words| && b.dat == words[|acc|]
    ensures Beats(x, acc + [b], words + more)
  {
  }

  lemma {:induction false} BurstStep(m: Master, u: User, s: SlaveOut, x: Burst, acc: seq<BusIn>, words: seq<Word>,
                                     owed: nat)
    requires InBurst(m, x, acc, words) && Waits(m, owed) && !s.err && (s.ack ==> owed > 0)
    ensures var n := NextMaster(m, u, s);
            var acc', words' := acc + Taken(m, s), words + Sampled(m, u, s);
            if n.state == MPending then InBurst(n, x, acc', words') else Complete(x, acc', words')
    ensures var n := NextMaster(m, u, s);
            !x.we ==> (n.dready <==> s.ack) && (s.ack ==> n.dout == s.dat)
  {
    if Taken(m, s) != [] {
      BeatsGrow(x, acc, words, BusOf(m), Sampled(m, u, s));
    }
  }

  // ---------------------------------------------------------------- one burst in a run

  /** The master, the user and the controller's answer in cycle |us| - 1. */
  function LastMaster(c: Config, k0: Count, us: seq<UserInput>): Master
    requires c.Valid() && us != []
  {
    MasterAt(c, k0, us[..|us| - 1])
  }

  function LastSlave(c: Config, k0: Count, us: seq<UserInput>): SlaveOut
    requires c.Valid() && us != []
  {
    SlaveOf(SystemAt(c, k0, us[..|us| - 1]).ctl)
  }

  /** Requests accepted from cycle t on. */
  function AcceptedSince(c: Config, k0: Count, us: seq<UserInput>, t: nat): seq<BusIn>
    requires c.Valid()
  {
    if |us| <= t then []
    else AcceptedSince(c, k0, us[..|us| - 1], t) + Taken(LastMaster(c, k0, us), LastSlave(c, k0, us))
  }

  /** Words the user supplied at dready pulses from cycle t on. */
  function SampledSince(c: Config, k0: Count, us: seq<UserInput>, t: nat): seq<Word>
    requires c.Valid()
  {
    if |us| <= t then []
    else SampledSince(c, k0, us[..|us| - 1], t)
         + Sampled(LastMaster(c, k0, us), us[|us| - 1].user, LastSlave(c, k0, us))
  }

  /** Words acknowledged from cycle t on. */
  function AckedSince(c: Config, k0: Count, us: seq<UserInput>, t: nat): seq<Word>
    requires c.Valid()
  {
    if |us| <= t then []
    else AckedSince(c, k0, us[..|us| - 1], t) + Given(LastSlave(c, k0, us))
  }

  /** Words that went through the register behind dready_o, one cycle after their acks. */
  function HandedSince(c: Config, k0: Count, us: seq<UserInput>, t: nat): seq<Word>
    requires c.Valid()
  {
    if |us| <= t then []
    else HandedSince(c, k0, us[..|us| - 1], t) + if MasterAt(c, k0, us).dready then [MasterAt(c, k0, us).dout] else []
  }

  /** The word on dout_o if dready_o pulses in one cycle. */
  function Pulsed(m: Master, u: User, s: SlaveOut): seq<Word> {
    if DataReady(m, u, s) then [m.dout] else []
  }

  /** Words on dout_o at the dready_o pulses from cycle t on. */
  function DeliveredSince(c: Config, k0: Count, us: seq<UserInput>, t: nat): seq<Word>
    requires c.Valid()
  {
    if |us| <= t then []
    else DeliveredSince(c, k0, us[..|us| - 1], t)
         + Pulsed(LastMaster(c, k0, us), us[|us| - 1].user, LastSlave(c, k0, us))
  }

  /** The controller accepts what the master has taken off its hands, and acknowledges what the master sees. */
  lemma {:induction false} LastCycle(c: Config, k0: Count, us: seq<UserInput>)
    requires c.Valid() && us != []
    ensures var ins, before := Inputs(c, k0, us), Inputs(c, k0, us[..|us| - 1]);
            && Accepted(c, ins) == Accepted(c, before) + Taken(LastMaster(c, k0, us), LastSlave(c, k0, us))
            && Acked(c, ins) == Acked(c, before) + Given(LastSlave(c, k0, us))
  {
    InputsStep(c, k0, us);
  }

  lemma Chain<T>(whole: seq<T>, before: seq<T>, last: seq<T>, start: seq<T>, since: seq<T>)
    requires whole == before + last && before == start + since
    ensures whole == start + (since + last)
  {
  }

  lemma {:induction false} AcceptedIsRest(c: Config, k0: Count, us: seq<UserInput>, t: nat)
    requires c.Valid() && t <= |us|
    ensures Accepted(c, Inputs(c, k0, us)) == Accepted(c, Inputs(c, k0, us[..t])) + AcceptedSince(c, k0, us, t)
  {
    hide Step, NextTrack, NextMaster, Run;
    if t == |us| {
      assert us[..t] == us;
    } else {
      var before := us[..|us| - 1];
      AcceptedIsRest(c, k0, before, t);
      assert before[..t] == us[..t];
      LastCycle(c, k0, us);
      Chain(Accepted(c, Inputs(c, k0, us)), Accepted(c, Inputs(c, k0, before)),
            Taken(LastMaster(c, k0, us), LastSlave(c, k0, us)),
            Accepted(c, Inputs(c, k0, us[..t])), AcceptedSince(c, k0, before, t));
    }
  }

  lemma {:induction false} AckedIsRest(c: Config, k0: Count, us: seq<UserInput>, t: nat)
    requires c.Valid() && t <= |us|
    ensures Acked(c, Inputs(c, k0, us)) == Acked(c, Inputs(c, k0, us[..t])) + AckedSince(c, k0, us, t)
  {
    hide Step, NextTrack, NextMaster, Run;
    if t == |us| {
      assert us[..t] == us;
    } else {
      var before := us[..|us| - 1];
      AckedIsRest(c, k0, before, t);
      assert before[..t] == us[..t];
      LastCycle(c, k0, us);
      Chain(Acked(c, Inputs(c, k0, us)), Acked(c, Inputs(c, k0, before)),
            Given(LastSlave(c, k0, us)),
            Acked(c, Inputs(c, k0, us[..t])), AckedSince(c, k0, before, t));
    }
  }

  /** The user starts burst x in cycle t0 and the master is busy with it until cycle |us|. */
  predicate Busy(c: Config, k0: Count, us: seq<UserInput>, t0: nat, x: Burst)
    requires c.Valid()
  {
    && t0 < |us|
    && Starts(MasterAt(c, k0, us[..t0]), us[t0].user) && x == BurstOf(us[t0].user)
    && forall t | t0 < t < |us| :: MasterAt(c, k0, us[..t]).state == MPending
  }

  /** A whole burst: busy from t0 on, and idle again in cycle |us|. */
  predicate Transaction(c: Config, k0: Count, us: seq<UserInput>, t0: nat, x: Burst)
    requires c.Valid()
  {
    Busy(c, k0, us, t0, x) && MasterAt(c, k0, us).state == MIdle
  }

  lemma {:induction false} BusyPrefix(c: Config, k0: Count, us: seq<UserInput>, t0: nat, x: Burst)
    requires c.Valid() && Busy(c, k0, us, t0, x) && t0 + 1 < |us|
    ensures Busy(c, k0, us[..|us| - 1], t0, x) && MasterAt(c, k0, us[..|us| - 1]).state == MPending
  {
    var before := us[..|us| - 1];
    assert before[..t0] == us[..t0] && before[t0] == us[t0];
    forall t | t0 < t < |before| ensures MasterAt(c, k0, before[..t]).state == MPending {
      assert before[..t] == us[..t];
    }
  }

  /** Nothing is owed to an idle master, and it has no request on the bus. */
  lemma {:induction false} IdleOwesNothing(c: Config, k0: Count, us: seq<UserInput>)
    requires c.Valid() && MasterAt(c, k0, us).state == MIdle
    ensures |Acked(c, Inputs(c, k0, us))| == |Accepted(c, Inputs(c, k0, us))|
    ensures !MasterAt(c, k0, us).out.stb && !SystemAt(c, k0, us).ctl.ack
  {
    RunWaits(c, k0, us);
    RunAccounted(c, Inputs(c, k0, us));
    RunAckIsOwed(c, Inputs(c, k0, us));
  }

  /** While busy the burst is in progress; when idle again it is complete; read data was handed on as acknowledged. */
  lemma {:induction false} BusyBurst(c: Config, k0: Count, us: seq<UserInput>, t0: nat, x: Burst)
    requires c.Valid() && Busy(c, k0, us, t0, x)
    ensures var acc, words := AcceptedSince(c, k0, us, t0), SampledSince(c, k0, us, t0);
            if MasterAt(c, k0, us).state == MPending then InBurst(MasterAt(c, k0, us), x, acc, words)
            else Complete(x, acc, words)
    ensures !x.we ==> HandedSince(c, k0, us, t0) == AckedSince(c, k0, us, t0)
  {
    var before := us[..|us| - 1];
    var m, s := MasterAt(c, k0, before), LastSlave(c, k0, us);
    if t0 + 1 == |us| {
      IdleOwesNothing(c, k0, before);
      BurstStart(m, us[t0].user, s);
    } else {
      BusyPrefix(c, k0, us, t0, x);
      BusyBurst(c, k0, before, t0, x);
      RunWaits(c, k0, before);
      RunAckIsOwed(c, Inputs(c, k0, before));
      BurstStep(m, us[|us| - 1].user, s, x, AcceptedSince(c, k0, before, t0), SampledSince(c, k0, before, t0),
                |RunTrack(c, Inputs(c, k0, before)).owed|);
    }
  }

  // ---------------------------------------------------------------- write burst, then read burst

  /** Reads leave the flat memory as it is. */
  lemma {:induction false} ReadsKeep(c: Config, reqs: seq<BusIn>, rd: seq<BusIn>, adr: nat)
    requires c.Valid() && forall i | 0 <= i < |rd| :: !rd[i].we
    ensures FlatRead(c, reqs + rd, adr) == FlatRead(c, reqs, adr)
  {
    if rd == [] {
      assert reqs + rd == reqs;
    } else {
      assert (reqs + rd)[..|reqs + rd| - 1] == reqs + rd[..|rd| - 1];
      ReadsKeep(c, reqs, rd[..|rd| - 1], adr);
    }
  }

  /** Two addresses less than a memory apart are the same word only if they are equal. */
  lemma {:induction false} CloseAddresses(a: nat, b: nat, n: nat)
    requires 0 < n && a < b + n && b < a + n && a % n == b % n
    ensures a == b
  {
    var p, q := a / n, b / n;
    assert a == p * n + a % n && b == q * n + b % n;
    if p > q { MulLe(q + 1, p, n); }
    if q > p { MulLe(p + 1, q, n); }
  }

  /** Distinct beats of a burst no longer than the memory are distinct words of the memory. */
  lemma {:induction false} BeatWords(c: Config, x: Burst, i: nat, j: nat)
    requires c.Valid() && PowerBurst(x.mask) && x.mask as nat < TotalWords(c)
    requires i < x.Words() && j < x.Words() && x.Address(i) % TotalWords(c) == x.Address(j) % TotalWords(c)
    ensures i == j
  {
    BeatsClose(x.lo, x.mask, i, j);
    BeatsClose(x.lo, x.mask, j, i);
    CloseAddresses(x.Address(i), x.Address(j), TotalWords(c));
    BeatsDistinct(x.lo, x.mask, i, j);
  }

  lemma FullMerge(prev: Word, d: Word)
    ensures MergeWord(prev, d, ALL_LANES) == d
  {
  }

  /** After the beats of a write burst the flat memory holds each word at its beat's address. */
  lemma {:induction false} BurstStored(c: Config, reqs: seq<BusIn>, x: Burst, acc: seq<BusIn>, words: seq<Word>, i: nat)
    requires c.Valid() && PowerBurst(x.mask) && x.mask as nat < TotalWords(c)
    requires x.we && Beats(x, acc, words) && i < |acc|
    ensures FlatRead(c, reqs + acc, x.Address(i)) == words[i]
  {
    var k := |acc| - 1;
    assert (reqs + acc)[..|reqs + acc| - 1] == reqs + acc[..k];
    if i == k {
      FullMerge(FlatRead(c, reqs + acc[..k], x.Address(i)), acc[k].dat);
    } else {
      if x.Address(k) % TotalWords(c) == x.Address(i) % TotalWords(c) {
        BeatWords(c, x, k, i);
      }
      BurstStored(c, reqs, x, acc[..k], words, i);
    }
  }

  /** The flat memory at beat j of a read burst is still that of the burst's start. */
  lemma {:induction false} BurstFetched(c: Config, reqs: seq<BusIn>, x: Burst, acc: seq<BusIn>, j: nat)
    requires c.Valid() && !x.we && Beats(x, acc, []) && j < |acc|
    ensures (reqs + acc)[|reqs| + j].adr == x.Address(j) && !(reqs + acc)[|reqs| + j].we
    ensures FlatRead(c, (reqs + acc)[..|reqs| + j], x.Address(j)) == FlatRead(c, reqs, x.Address(j))
  {
    assert (reqs + acc)[..|reqs| + j] == reqs + acc[..j];
    ReadsKeep(c, reqs, acc[..j], x.Address(j));
  }

  lemma {:induction false} AnswerAt(c: Config, ins: seq<Input>, reqs: seq<BusIn>, acks: seq<Word>, k: nat)
    requires c.Valid() && reqs == Accepted(c, ins) && acks == Acked(c, ins)
    requires k < |acks| && k < |reqs| && !reqs[k].we
    ensures acks[k] == FlatRead(c, reqs[..k], reqs[k].adr)
  {
    AnswersLikeFlatMemory(c, ins);
  }

  /** A finished write burst has stored the word of each dready pulse at the address of its beat. */
  lemma {:induction false} WriteBurstStores(c: Config, k0: Count, us: seq<UserInput>, t0: nat, x: Burst, i: nat)
    requires c.Valid() && Transaction(c, k0, us, t0, x) && x.we && i < x.Words()
    requires PowerBurst(x.mask) && x.mask as nat < TotalWords(c)
    ensures |SampledSince(c, k0, us, t0)| == x.Words()
    ensures FlatRead(c, Accepted(c, Inputs(c, k0, us)), x.Address(i)) == SampledSince(c, k0, us, t0)[i]
  {
    BusyBurst(c, k0, us, t0, x);
    AcceptedIsRest(c, k0, us, t0);
    BurstStored(c, Accepted(c, Inputs(c, k0, us[..t0])), x, AcceptedSince(c, k0, us, t0), SampledSince(c, k0, us,
        t0), i);
  }

  /** At its end a read burst has handed on exactly the acknowledgements since its start. */
  lemma {:induction false} ReadBurstAcks(c: Config, k0: Count, us: seq<UserInput>, t0: nat, x: Burst)
    requires c.Valid() && Transaction(c, k0, us, t0, x) && !x.we
    ensures var reqs, acks := Accepted(c, Inputs(c, k0, us[..t0])), Acked(c, Inputs(c, k0, us));
            && |reqs| + x.Words() == |acks|
            && acks[|reqs|..] == HandedSince(c, k0, us, t0)
  {
    BusyBurst(c, k0, us, t0, x);
    AcceptedIsRest(c, k0, us, t0);
    AckedIsRest(c, k0, us, t0);
    IdleOwesNothing(c, k0, us[..t0]);
    IdleOwesNothing(c, k0, us);
  }

  /**
   * What a finished read burst has handed on are the flat memory's words at the addresses of its beats, in their
   * order.
   */
  lemma {:induction false} ReadBurstHands(c: Config, k0: Count, us: seq<UserInput>, t0: nat, x: Burst, j: nat)
    requires c.Valid() && Transaction(c, k0, us, t0, x) && !x.we && j < x.Words()
    ensures |HandedSince(c, k0, us, t0)| == x.Words()
    ensures HandedSince(c, k0, us, t0)[j] == FlatRead(c, Accepted(c, Inputs(c, k0, us[..t0])), x.Address(j))
  {
    BusyBurst(c, k0, us, t0, x);
    AcceptedIsRest(c, k0, us, t0);
    ReadBurstAcks(c, k0, us, t0, x);
    var reqs, acc := Accepted(c, Inputs(c, k0, us[..t0])), AcceptedSince(c, k0, us, t0);
    BurstFetched(c, reqs, x, acc, j);
    AnswerAt(c, Inputs(c, k0, us), reqs + acc, Acked(c, Inputs(c, k0, us)), |reqs| + j);
  }

  /** The direction of a busy master is that of its burst. */
  lemma BusyDirection(c: Config, k0: Count, us: seq<UserInput>, t0: nat, x: Burst)
    requires c.Valid() && Busy(c, k0, us, t0, x) && MasterAt(c, k0, us).state == MPending
    ensures MasterAt(c, k0, us).out.we == x.we
  {
    BusyBurst(c, k0, us, t0, x);
  }

  /** While a read burst is in progress, dready_o shows the register behind it. */
  lemma {:induction false} BusyDelivers(c: Config, k0: Count, us: seq<UserInput>, t0: nat, x: Burst)
    requires c.Valid() && Busy(c, k0, us, t0, x) && !x.we
    ensures DeliveredSince(c, k0, us, t0 + 1) == HandedSince(c, k0, us[..|us| - 1], t0)
  {
    hide Step, NextMaster, Run, MasterAt, SystemAt;
    var before := us[..|us| - 1];
    if t0 + 1 < |us| {
      BusyPrefix(c, k0, us, t0, x);
      BusyDirection(c, k0, before, t0, x);
      BusyDelivers(c, k0, before, t0, x);
    }
  }

  /** The last word goes through the register at the end of the burst. */
  lemma LastHanded(c: Config, k0: Count, us: seq<UserInput>, t0: nat, x: Burst)
    requires c.Valid() && Transaction(c, k0, us, t0, x) && !x.we && t0 + 1 < |us|
    ensures MasterAt(c, k0, us).dready
    ensures HandedSince(c, k0, us, t0) == HandedSince(c, k0, us[..|us| - 1], t0) + [MasterAt(c, k0, us).dout]
  {
    var before := us[..|us| - 1];
    BusyPrefix(c, k0, us, t0, x);
    BusyDirection(c, k0, before, t0, x);
  }

  /** A started burst is not over before the next cycle. */
  lemma {:induction false} BurstTakesTime(c: Config, k0: Count, us: seq<UserInput>, t0: nat, x: Burst)
    requires c.Valid() && Transaction(c, k0, us, t0, x)
    ensures t0 + 1 < |us|
  {
    assert us[..t0 + 1][..t0] == us[..t0];
  }

  /** What user and controller do in the cycles of a run. */
  function Cycles(c: Config, k0: Count, us: seq<UserInput>): (cs: seq<M.Cycle>)
    requires c.Valid()
    ensures |cs| == |us|
  {
    if us == [] then []
    else Cycles(c, k0, us[..|us| - 1]) + [M.Cycle(us[|us| - 1].user, LastSlave(c, k0, us))]
  }

  lemma {:induction false} RunsAsMaster(c: Config, k0: Count, us: seq<UserInput>, t: nat)
    requires c.Valid() && t <= |us|
    ensures MasterAt(c, k0, us[..t]) == RunMaster(k0, Cycles(c, k0, us)[..t])
    decreases |us|, t
  {
    hide NextMaster, SystemAt;
    if t < |us| {
      var before := us[..|us| - 1];
      RunsAsMaster(c, k0, before, t);
      assert before[..t] == us[..t] && Cycles(c, k0, before)[..t] == Cycles(c, k0, us)[..t];
    } else if us != [] {
      RunsAsMaster(c, k0, us, t - 1);
      assert us[..t] == us && Cycles(c, k0, us)[..t] == Cycles(c, k0, us);
      assert Cycles(c, k0, us)[..t - 1] == Cycles(c, k0, us[..t - 1]);
    }
  }

  /** complete_o pulses once for each burst: not while it is in progress, but in the cycle in which it has ended. */
  lemma {:induction false} BurstCompletes(c: Config, k0: Count, us: seq<UserInput>, t0: nat, x: Burst, t: nat)
    requires c.Valid() && Busy(c, k0, us, t0, x) && t0 < t <= |us|
    ensures MasterAt(c, k0, us[..t]).complete <==> t == |us| && Transaction(c, k0, us, t0, x)
  {
    hide NextMaster, SystemAt;
    var cs := Cycles(c, k0, us);
    assert us[..|us|] == us;
    RunsAsMaster(c, k0, us, t);
    RunsAsMaster(c, k0, us, t - 1);
    CompletesExactly(k0, cs[..t]);
    assert cs[..t][..t - 1] == cs[..t - 1] && cs[..t][..t] == cs[..t];
    if Transaction(c, k0, us, t0, x) {
      BurstTakesTime(c, k0, us, t0, x);
    }
  }

  /** The user side in the cycle after a read burst leaves the pulse for its last word alone. */
  predicate LetsPass(u: User) {
    !u.we || u.en
  }

  /**
   * A finished read burst has delivered the flat memory's words at the addresses of its beats, in their order, at
   * pulses of dready_o up to the cycle after its end: all of them, if in that cycle we_i is low or en_i high;
   * otherwise all but the last.
   */
  lemma {:induction false} ReadBurstReturns(c: Config, k0: Count, us: seq<UserInput>, t0: nat, x: Burst, j: nat)
    requires c.Valid() && us != [] && Transaction(c, k0, us[..|us| - 1], t0, x) && !x.we
    ensures var delivered := DeliveredSince(c, k0, us, t0 + 1);
            && |delivered| == (if LetsPass(us[|us| - 1].user) then x.Words() else x.mask as nat)
            && (j < |delivered| ==>
                  delivered[j] == FlatRead(c, Accepted(c, Inputs(c, k0, us[..t0])), x.Address(j)))
  {
    hide Step, NextMaster, Run, MasterAt, SystemAt, Inputs, FlatRead;
    var before := us[..|us| - 1];
    assert before[..t0] == us[..t0];
    BurstTakesTime(c, k0, before, t0, x);
    BusyDelivers(c, k0, before, t0, x);
    LastHanded(c, k0, before, t0, x);
    ReadBurstHands(c, k0, before, t0, x, if j < x.Words() then j else 0);
  }

  /**
   * So the pulse for the last word is missing if the user holds we_i high, but not en_i, in the cycle after the burst:
   * the word is on dout_o and the register behind dready_o is set, but the pin is low.
   */
  lemma {:induction false} LastPulseLost(c: Config, k0: Count, us: seq<UserInput>, t0: nat, x: Burst)
    requires c.Valid() && us != [] && Transaction(c, k0, us[..|us| - 1], t0, x) && !x.we
    requires us[|us| - 1].user.we && !us[|us| - 1].user.en
    ensures LastMaster(c, k0, us).dready && !DataReady(LastMaster(c, k0, us), us[|us| - 1].user, LastSlave(c, k0, us))
    ensures LastMaster(c, k0, us).dout == FlatRead(c, Accepted(c, Inputs(c, k0, us[..t0])), x.Address(x.mask as nat))
    ensures |DeliveredSince(c, k0, us, t0 + 1)| == x.Words() - 1
  {
    hide Step, NextMaster, Run, MasterAt, SystemAt, Inputs, FlatRead;
    var before := us[..|us| - 1];
    assert before[..t0] == us[..t0];
    BurstTakesTime(c, k0, before, t0, x);
    LastHanded(c, k0, before, t0, x);
    ReadBurstHands(c, k0, before, t0, x, x.mask as nat);
    ReadBurstReturns(c, k0, us, t0, x, 0);
  }

  /** While the master idles nothing is accepted. */
  lemma {:induction false} IdleAccepts(c: Config, k0: Count, us: seq<UserInput>, t: nat)
    requires c.Valid() && t <= |us|
    requires forall i | t <= i < |us| :: MasterAt(c, k0, us[..i]).state == MIdle
    ensures Accepted(c, Inputs(c, k0, us)) == Accepted(c, Inputs(c, k0, us[..t]))
  {
    if t == |us| {
      assert us[..t] == us;
    } else {
      var before := us[..|us| - 1];
      forall i | t <= i < |before| ensures MasterAt(c, k0, before[..i]).state == MIdle {
        assert before[..i] == us[..i];
      }
      IdleAccepts(c, k0, before, t);
      assert before[..t] == us[..t];
      IdleOwesNothing(c, k0, before);
      LastCycle(c, k0, us);
    }
  }

  /** The pattern of a write followed, after a pause, by a read. */
  predicate WriteThenRead(c: Config, k0: Count, us: seq<UserInput>, t0: nat, t1: nat, t2: nat, w: Burst, r: Burst)
    requires c.Valid()
  {
    && t0 < t1 <= t2 < |us|
    && w.we && Transaction(c, k0, us[..t1], t0, w)
    && !r.we && Transaction(c, k0, us, t2, r)
    && forall i | t1 <= i < t2 :: MasterAt(c, k0, us[..i]).state == MIdle
  }

  /** Where a beat of the read meets a beat of the write, the word of the write comes back. */
  lemma {:induction false} BeatsMeet(c: Config, k0: Count, us: seq<UserInput>, t0: nat, t1: nat, t2: nat, w: Burst,
                                     r: Burst, i: nat, j: nat)
    requires c.Valid() && us != [] && WriteThenRead(c, k0, us[..|us| - 1], t0, t1, t2, w, r)
    requires i < w.Words() && j < r.Words() && w.Address(i) == r.Address(j)
    requires PowerBurst(w.mask) && w.mask as nat < TotalWords(c)
    ensures var stored, delivered := SampledSince(c, k0, us[..t1], t0), DeliveredSince(c, k0, us, t2 + 1);
            && |stored| == w.Words()
            && |delivered| == (if LetsPass(us[|us| - 1].user) then r.Words() else r.mask as nat)
            && (j < |delivered| ==> delivered[j] == stored[i])
  {
    hide Step, NextTrack, NextMaster, Run, BeatLo;
    var u1, u2 := us[..t1], us[..t2];
    assert us[..|us| - 1][..t1] == u1 && us[..|us| - 1][..t2] == u2;
    assert u2[..t1] == u1;
    forall i | t1 <= i < |u2| ensures MasterAt(c, k0, u2[..i]).state == MIdle {
      assert u2[..i] == us[..|us| - 1][..i];
    }
    IdleAccepts(c, k0, u2, t1);
    WriteBurstStores(c, k0, u1, t0, w, i);
    ReadBurstReturns(c, k0, us, t2, r, j);
  }

  lemma BlocksMeet(w: Burst, r: Burst, j: bv6)
    requires w.hi == r.hi && w.mask == r.mask && w.lo & !w.mask == r.lo & !w.mask && PowerBurst(w.mask)
    ensures var i := Meeting(w.lo, r.lo, w.mask, j) as nat;
            i < w.Words() == r.Words() && w.Address(i) == r.Address(j as nat)
  {
    SameBlock(w.lo, r.lo, w.mask, j);
  }

  /**
   * A write burst from cycle t0 to t1 stores the words sampled at its dready pulses; a read burst of the same
   * length, started at t2 at any word of the same aligned block and finished in cycle |us| - 1, delivers them at its
   * dready pulses in its own wrapped order; the last one exactly if the user lets its pulse pass. The master idles in
   * between; stalls, refreshes and row changes may fall anywhere.
   */
  lemma {:induction false} BurstRoundTrip(c: Config, k0: Count, us: seq<UserInput>, t0: nat, t1: nat, t2: nat,
                                          w: Burst, r: Burst, j: bv6)
    requires c.Valid() && us != [] && WriteThenRead(c, k0, us[..|us| - 1], t0, t1, t2, w, r)
    requires w.hi == r.hi && w.mask == r.mask && w.lo & !w.mask == r.lo & !w.mask
    requires PowerBurst(w.mask) && w.mask as nat < TotalWords(c) && j as nat < w.Words()
    ensures var stored, delivered := SampledSince(c, k0, us[..t1], t0), DeliveredSince(c, k0, us, t2 + 1);
            var i := Meeting(w.lo, r.lo, w.mask, j) as nat;
            && i < |stored| == w.Words()
            && |delivered| == (if LetsPass(us[|us| - 1].user) then w.Words() else w.Words() - 1)
            && (j as nat < |delivered| ==> delivered[j as nat] == stored[i])
  {
    BlocksMeet(w, r, j);
    BeatsMeet(c, k0, us, t0, t1, t2, w, r, Meeting(w.lo, r.lo, w.mask, j) as nat, j as nat);
  }
}
