/** The burst master of VHDL/wishbone/wb_master.vhd. */
module WbMaster {
  import opened SdramTypes

  datatype MasterState = MIdle | MPending

  /** A 6-bit counter. */
  type Count = n: nat | n < 64

  /** Counting a 6-bit register down; zero wraps around. */
  function Down(n: Count): Count {
    if n == 0 then 63 else n - 1
  }

  /** master_out. The address is split as the code treats it: the six low bits wrap, the rest stays. */
  datatype MasterOut = MasterOut(adrHi: nat, adrLo: bv6, dat: Word, sel: Sel, we: bool, stb: bool, cyc: bool)

  datatype Master = Master(
    state: MasterState, out: MasterOut, count: Count, countAck: Count, mask: bv6,
    dready: bool, dout: Word, complete: bool, err: bool)

  /** The user side in one clock cycle. */
  datatype User = User(adrHi: nat, adrLo: bv6, din: Word, en: bool, burst: bv6, we: bool, hold: bool)

  /** wb_master_ifc_in_t, what the slave answers in one clock cycle. */
  datatype SlaveOut = SlaveOut(dat: Word, ack: bool, err: bool, stall: bool)

  const ALL_LANES := Sel(true, true, true, true)

  /** count_ack has no reset value; `unknown` stands for whatever it powers up with. */
  function ResetMaster(unknown: Count): Master {
    Master(MIdle, MasterOut(0, 0, ZERO_WORD, Sel(false, false, false, false), false, false, false),
           0, unknown, 0, false, ZERO_WORD, false, false)
  }

  function BusOf(m: Master): BusIn {
    BusIn(64 * m.out.adrHi + m.out.adrLo as nat, m.out.dat, m.out.we, m.out.sel, m.out.stb, m.out.cyc)
  }

  /** The next beat's low address bits: those under the mask count, the others stay. */
  function Wrap(lo: bv6, mask: bv6): bv6 {
    (lo & !mask) | ((lo + 1) & mask)
  }

  /** dready_o: combinational for write data, registered for read data. */
  predicate DataReady(m: Master, u: User, s: SlaveOut) {
    if u.we && m.state == MIdle then u.en
    else if m.out.we && m.state == MPending && m.count != 0 then !s.stall
    else m.dready
  }

  predicate Starts(m: Master, u: User) {
    u.en && m.state == MIdle
  }

  predicate Finishes(m: Master, s: SlaveOut) {
    m.state == MPending && ((s.ack && m.countAck == 0) || s.err)
  }

  /** What every edge does first: the one-cycle outputs fall back. */
  function Settle(m: Master, s: SlaveOut): Master {
    m.(complete := false, err := s.err, dready := false)
  }

  function Begin(m: Master, u: User): Master {
    m.(state := MPending, count := u.burst as nat, countAck := u.burst as nat, mask := u.burst,
       out := MasterOut(u.adrHi, u.adrLo, u.din, ALL_LANES, u.we, true, true))
  }

  /** The slave did not stall: present the next beat, or stop after the last one. */
  function Beat(m: Master, u: User): Master {
    m.(out := m.out.(dat := u.din, adrLo := Wrap(m.out.adrLo, m.mask), stb := m.out.stb && m.count != 0),
       count := if m.count == 0 then 0 else Down(m.count))
  }

  function TakeAck(m: Master, s: SlaveOut): Master {
    m.(countAck := Down(m.countAck), dready := !m.out.we, dout := s.dat)
  }

  function Finish(m: Master, u: User): Master {
    m.(state := MIdle, out := m.out.(stb := false, cyc := u.hold, we := false), complete := true, dready := !m.out.we)
  }

  /** The registers after one clock edge. */
  function NextMaster(m: Master, u: User, s: SlaveOut): Master {
    var n := Settle(m, s);
    if Starts(m, u) then Begin(n, u)
    else if m.state == MIdle then n.(out := n.out.(cyc := n.out.cyc && u.hold))
    else
      var beat := if s.stall then n else Beat(n, u);
      var acked := if s.ack then TakeAck(beat, s) else beat;
      if Finishes(m, s) then Finish(acked, u) else acked
  }

  /** The clocked process; `m` holds the registers before the edge until all next values are known. */
  class MasterProcess {
    var m: Master

    constructor (unknown: Count)
      ensures m == ResetMaster(unknown)
    {
      m := ResetMaster(unknown);
    }

    method Clock(u: User, s: SlaveOut)
      modifies this
      ensures m == NextMaster(old(m), u, s)
    {
      var n := m.(complete := false, err := s.err, dready := false);
      if u.en && m.state == MIdle {
        n := n.(state := MPending, count := u.burst as nat, countAck := u.burst as nat, mask := u.burst);
        n := n.(out := MasterOut(u.adrHi, u.adrLo, u.din, ALL_LANES, u.we, true, true));
      } else if m.state == MPending {
        n := Transfer(n, u, s);
      } else if m.state == MIdle && !u.hold {
        n := n.(out := n.out.(cyc := false));
      }
      m := n;
    }

    method Transfer(k: Master, u: User, s: SlaveOut) returns (n: Master)
      requires m.state == MPending && k == Settle(m, s)
      ensures n == NextMaster(m, u, s)
    {
      n := k;
      if !s.stall {
        n := Present(k, u);
      }
      if s.ack {
        n := n.(countAck := Down(m.countAck));
        if !m.out.we { n := n.(dready := true); }
        n := n.(dout := s.dat);
      }
      if (s.ack && m.countAck == 0) || s.err {
        n := n.(state := MIdle, out := n.out.(stb := false, cyc := u.hold, we := false), complete := true,
                dready := !m.out.we);
      }
    }

    method Present(k: Master, u: User) returns (n: Master)
      requires k.out == m.out && k.mask == m.mask && k.count == m.count
      ensures n == Beat(k, u)
    {
      n := k.(out := k.out.(dat := u.din, adrLo := (m.out.adrLo & !m.mask) | ((m.out.adrLo + 1) & m.mask)));
      if m.count == 0 {
        n := n.(out := n.out.(stb := false));
      } else {
        n := n.(count := Down(m.count));
      }
    }
  }

  // ---------------------------------------------------------------- any run, behind any slave

  /** What user and slave do in one clock cycle. */
  datatype Cycle = Cycle(user: User, slave: SlaveOut)

  function RunMaster(k0: Count, cs: seq<Cycle>): Master {
    if cs == [] then ResetMaster(k0)
    else NextMaster(RunMaster(k0, cs[..|cs| - 1]), cs[|cs| - 1].user, cs[|cs| - 1].slave)
  }

  predicate PendingAt(k0: Count, cs: seq<Cycle>, t: nat)
    requires t <= |cs|
  {
    RunMaster(k0, cs[..t]).state == MPending
  }

  /** A burst ends with cycle t. */
  predicate EndsIn(k0: Count, cs: seq<Cycle>, t: nat)
    requires t < |cs|
  {
    PendingAt(k0, cs, t) && !PendingAt(k0, cs, t + 1)
  }

  /**
   * Which burst the master works on: it is pending from the cycle behind an enable in the idle state on, and until
   * behind the last ack or an error.
   */
  lemma {:induction false} PendingExactly(k0: Count, cs: seq<Cycle>)
    requires cs != []
    ensures var before, now := RunMaster(k0, cs[..|cs| - 1]), cs[|cs| - 1];
            PendingAt(k0, cs, |cs|) <==>
              if before.state == MIdle then now.user.en
              else !now.slave.err && (now.slave.ack ==> before.countAck != 0)
  {
    assert cs[..|cs|] == cs;
  }

  /** complete_o is high for exactly the cycle behind the end of a burst, err_o for the one behind each error. */
  lemma {:induction false} CompletesExactly(k0: Count, cs: seq<Cycle>)
    ensures RunMaster(k0, cs).complete <==> cs != [] && EndsIn(k0, cs, |cs| - 1)
    ensures RunMaster(k0, cs).err <==> cs != [] && cs[|cs| - 1].slave.err
  {
    assert cs[..|cs|] == cs;
  }

  /** The register behind dready_o is set by each ack of a read burst and by an error in one, and by nothing else. */
  lemma {:induction false} ReadPulses(k0: Count, cs: seq<Cycle>)
    ensures RunMaster(k0, cs).dready <==>
              && cs != [] && PendingAt(k0, cs, |cs| - 1) && !RunMaster(k0, cs[..|cs| - 1]).out.we
              && (cs[|cs| - 1].slave.ack || cs[|cs| - 1].slave.err)
    ensures RunMaster(k0, cs).dready && cs[|cs| - 1].slave.ack ==> RunMaster(k0, cs).dout == cs[|cs| - 1].slave.dat
  {
  }

  predicate HeldIn(k0: Count, cs: seq<Cycle>, v: nat)
    requires v < |cs|
  {
    cs[v].user.hold && !PendingAt(k0, cs, v + 1)
  }

  /** Since the end of a burst in cycle t no other one was started, and hold_i has been high all the time. */
  predicate HeldSince(k0: Count, cs: seq<Cycle>, t: nat) {
    && t < |cs| && EndsIn(k0, cs, t)
    && forall v | t <= v < |cs| :: HeldIn(k0, cs, v)
  }

  lemma {:induction false} HeldOn(k0: Count, cs: seq<Cycle>, t: nat)
    requires t + 1 < |cs| && !PendingAt(k0, cs, |cs|)
    ensures HeldSince(k0, cs, t) <==> HeldSince(k0, cs[..|cs| - 1], t) && cs[|cs| - 1].user.hold
  {
    hide NextMaster;
    var before := cs[..|cs| - 1];
    forall v: nat | v <= |before| ensures PendingAt(k0, before, v) <==> PendingAt(k0, cs, v) {
      assert before[..v] == cs[..v];
    }
    forall v | 0 <= v < |before| ensures HeldIn(k0, before, v) <==> HeldIn(k0, cs, v) {
    }
    assert HeldIn(k0, cs, |before|) <==> cs[|before|].user.hold;
  }

  /**
   * The master holds the bus during a burst, and after its end exactly as long as hold_i has been high ever since; it
   * then drives neither strobe nor write enable.
   */
  lemma {:induction false} BusHeldExactly(k0: Count, cs: seq<Cycle>)
    ensures var m := RunMaster(k0, cs);
            && (m.out.cyc <==> PendingAt(k0, cs, |cs|) || HeldByUser(k0, cs))
            && (!PendingAt(k0, cs, |cs|) ==> !m.out.stb && !m.out.we)
  {
    hide NextMaster;
    assert cs[..|cs|] == cs;
    if cs != [] {
      var before := cs[..|cs| - 1];
      BusHeldExactly(k0, before);
      assert before[..|before|] == before;
      BusStep(RunMaster(k0, before), cs[|before|].user, cs[|before|].slave);
      hide RunMaster;
      if !PendingAt(k0, cs, |cs|) {
        HeldStep(k0, cs);
      }
    }
  }

  ghost predicate HeldByUser(k0: Count, cs: seq<Cycle>) {
    exists t | 0 <= t < |cs| :: HeldSince(k0, cs, t)
  }

  /** What becomes of the bus signals in one cycle. */
  lemma BusStep(m: Master, u: User, s: SlaveOut)
    requires m.state == MPending ==> m.out.cyc
    requires m.state == MIdle ==> !m.out.stb && !m.out.we
    ensures var n := NextMaster(m, u, s);
            && (n.state == MPending ==> n.out.cyc)
            && (n.state == MIdle ==> !n.out.stb && !n.out.we && (n.out.cyc <==> m.out.cyc && u.hold))
  {
  }

  /** The bus is held on by an idle master exactly if hold_i is high and it was held, or in use, before. */
  lemma {:induction false} HeldStep(k0: Count, cs: seq<Cycle>)
    requires cs != [] && !PendingAt(k0, cs, |cs|)
    ensures var before := cs[..|cs| - 1];
            HeldByUser(k0, cs) <==>
              cs[|cs| - 1].user.hold && (PendingAt(k0, before, |before|) || HeldByUser(k0, before))
  {
    hide RunMaster, NextMaster;
    var before, n := cs[..|cs| - 1], |cs| - 1;
    assert before[..n] == cs[..n] == before;
    assert HeldIn(k0, cs, n) <==> cs[n].user.hold;
    assert HeldSince(k0, cs, n) <==> PendingAt(k0, cs, n) && cs[n].user.hold;
    if PendingAt(k0, cs, n) {
      NotHeldBefore(k0, cs);
    } else {
      forall t: nat | t + 1 < |cs| ensures HeldSince(k0, cs, t) <==> HeldSince(k0, before, t) && cs[n].user.hold {
        HeldOn(k0, cs, t);
      }
      if HeldByUser(k0, before) && cs[n].user.hold {
        var t :| 0 <= t < |before| && HeldSince(k0, before, t);
        assert HeldSince(k0, cs, t);
      }
      if HeldByUser(k0, cs) {
        var t :| 0 <= t < |cs| && HeldSince(k0, cs, t);
        assert HeldSince(k0, before, t);
      }
    }
  }

  /** A burst that ends in the last cycle is the only one after which the bus can be held. */
  lemma NotHeldBefore(k0: Count, cs: seq<Cycle>)
    requires cs != [] && PendingAt(k0, cs, |cs| - 1)
    ensures forall t | 0 <= t < |cs| - 1 :: !HeldSince(k0, cs, t)
  {
    forall t | 0 <= t < |cs| - 1 ensures !HeldSince(k0, cs, t) {
      assert !HeldIn(k0, cs, |cs| - 2);
    }
  }

  // ---------------------------------------------------------------- wrapped addresses

  /** The low address bits of beat i. */
  function BeatLo(lo: bv6, mask: bv6, i: nat): bv6 {
    if i == 0 then lo else Wrap(BeatLo(lo, mask, i - 1), mask)
  }

  /** A burst of 2^k words has this burst value. */
  predicate PowerBurst(mask: bv6) {
    mask == 0 || mask == 1 || mask == 3 || mask == 7 || mask == 15 || mask == 31 || mask == 63
  }

  function Offset(lo: bv6, mask: bv6, i: bv6): bv6 {
    (lo & !mask) | ((lo + i) & mask)
  }

  lemma OffsetStep(lo: bv6, mask: bv6, i: bv6)
    requires PowerBurst(mask)
    ensures Wrap(Offset(lo, mask, i), mask) == Offset(lo, mask, i + 1)
    ensures Offset(lo, mask, 0) == lo
  {
  }

  lemma SmallBv(i: nat, mask: bv6)
    requires i <= mask as nat
    ensures (i as bv6) as nat == i && i as bv6 <= mask
  {
  }

  /** Beat i is i words further on, modulo the burst length, in the aligned block of the start address. */
  lemma {:induction false} BeatOffset(lo: bv6, mask: bv6, i: nat)
    requires PowerBurst(mask) && i < 64
    ensures BeatLo(lo, mask, i) == Offset(lo, mask, i as bv6)
  {
    if i == 0 {
      OffsetStep(lo, mask, 0);
    } else {
      BeatOffset(lo, mask, i - 1);
      OffsetStep(lo, mask, (i - 1) as bv6);
      NextBv(i);
    }
  }

  lemma {:induction false} NextBv(i: nat)
    requires 0 < i < 64
    ensures (i - 1) as bv6 + 1 == i as bv6
  {
    AsNat(i - 1);
    AsNat(i);
    PlusOne((i - 1) as bv6);
    SameBv((i - 1) as bv6 + 1, i as bv6);
  }

  lemma AsNat(i: nat)
    requires i < 64
    ensures (i as bv6) as nat == i
  {
  }

  lemma {:induction false} SameBv(x: bv6, y: bv6)
    requires x as nat == y as nat
    ensures x == y
  {
    assert x as nat as bv6 == x && y as nat as bv6 == y;
  }

  lemma PlusOne(x: bv6)
    requires x as nat < 63
    ensures (x + 1) as nat == x as nat + 1
  {
  }

  /** The beats of a burst of 2^k words are 2^k distinct words. */
  lemma BeatsDistinct(lo: bv6, mask: bv6, i: nat, j: nat)
    requires PowerBurst(mask) && i <= mask as nat && j <= mask as nat
    requires BeatLo(lo, mask, i) == BeatLo(lo, mask, j)
    ensures i == j
  {
    BeatOffset(lo, mask, i);
    BeatOffset(lo, mask, j);
    SmallBv(i, mask);
    SmallBv(j, mask);
    OffsetInjective(lo, mask, i as bv6, j as bv6);
  }

  lemma OffsetInjective(lo: bv6, mask: bv6, i: bv6, j: bv6)
    requires PowerBurst(mask) && i <= mask && j <= mask && Offset(lo, mask, i) == Offset(lo, mask, j)
    ensures i == j
  {
  }

  /** Which beat of a burst from lo meets beat j of a burst from another word of the same aligned block. */
  function Meeting(lo: bv6, lo': bv6, mask: bv6, j: bv6): bv6 {
    (lo' - lo + j) & mask
  }

  lemma BvBeat(lo: bv6, mask: bv6, i: bv6)
    requires PowerBurst(mask)
    ensures BeatLo(lo, mask, i as nat) == Offset(lo, mask, i)
  {
    BeatOffset(lo, mask, i as nat);
    assert (i as nat) as bv6 == i;
  }

  lemma OffsetMeets(lo: bv6, lo': bv6, mask: bv6, j: bv6)
    requires PowerBurst(mask) && lo & !mask == lo' & !mask
    ensures Meeting(lo, lo', mask, j) <= mask
    ensures Offset(lo', mask, j) == Offset(lo, mask, Meeting(lo, lo', mask, j))
  {
  }

  /** Two bursts in one aligned block visit the same words, each in its own wrapped order. */
  lemma SameBlock(lo: bv6, lo': bv6, mask: bv6, j: bv6)
    requires PowerBurst(mask) && lo & !mask == lo' & !mask
    ensures Meeting(lo, lo', mask, j) as nat <= mask as nat
    ensures BeatLo(lo', mask, j as nat) == BeatLo(lo, mask, Meeting(lo, lo', mask, j) as nat)
  {
    OffsetMeets(lo, lo', mask, j);
    BvBeat(lo', mask, j);
    BvBeat(lo, mask, Meeting(lo, lo', mask, j));
  }

  /** All beats lie in one aligned block, so they are less than a block apart. */
  lemma BeatsClose(lo: bv6, mask: bv6, i: nat, j: nat)
    requires PowerBurst(mask) && i < 64 && j < 64
    ensures BeatLo(lo, mask, i) as nat <= BeatLo(lo, mask, j) as nat + mask as nat
  {
    BeatOffset(lo, mask, i);
    BeatOffset(lo, mask, j);
    OffsetsClose(lo, mask, i as bv6, j as bv6);
  }

  lemma {:induction false} OffsetsClose(lo: bv6, mask: bv6, i: bv6, j: bv6)
    requires PowerBurst(mask)
    ensures Offset(lo, mask, i) as nat <= Offset(lo, mask, j) as nat + mask as nat
  {
    var a, b := Offset(lo, mask, i), Offset(lo, mask, j);
    if b < a {
      assert a - b <= mask;
      BvDifference(a, b);
    }
  }

  lemma BvDifference(a: bv6, b: bv6)
    requires b <= a
    ensures (a - b) as nat == a as nat - b as nat
  {
  }
}
