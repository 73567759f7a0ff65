/** Controller plus SDRAM chip behave as a flat word memory, in every run. */
module SdramRefinement {
  import opened Options
  import opened SdramTypes
  import opened SdramController
  import opened SdramControl
  import opened SdramDevice
  import opened SdramSystem
  import opened SdramTracking

  /** The 32-bit word the chip holds at a location. */
  function ChipWord(mem: map<Cell, Half>, loc: Loc): Word {
    Word(Fetch(mem, Cell(loc.bank, loc.row, 2 * loc.col)), Fetch(mem, Cell(loc.bank, loc.row, 2 * loc.col + 1)))
  }

  /** The chip was told the CAS latency and the open row; the latched column exists. */
  predicate ChipInv(c: Config, s: System)
    requires c.Valid()
  {
    && (!Booting(s.ctl) || s.ctl.state == StInitModeWait ==> s.dev.cas == c.casLatency)
    && (s.ctl.row.open ==> s.dev.bank == s.ctl.row.bank && s.dev.row == s.ctl.row.row)
    && s.ctl.req.loc.col < c.RowWords()
  }

  /** The markers of the controller say what the slots carry. */
  predicate MarkerInv(c: Config, s: Regs, k: Track)
    requires c.Valid()
  {
    && |k.slots| == |s.rd.pipe| == |s.rd.half| == c.casLatency + 1
    && (forall i | 0 <= i <= c.casLatency :: s.rd.pipe[i] == !k.slots[i].Empty? && s.rd.half[i] == k.slots[i].Hi?)
  }

  /** The two halves of a word travel together, the low one ahead. */
  predicate Paired(g: seq<Slot>) {
    && (forall i | 0 <= i < |g| - 1 :: g[i].Hi? ==> g[i + 1] == Lo(g[i].e))
    && (forall i | 0 <= i < |g| - 1 :: g[i + 1].Lo? ==> g[i] == Hi(g[i + 1].e))
  }

  /** ... and only the word being issued may still lack its high half. */
  predicate PairInv(c: Config, s: Regs, k: Track)
    requires c.Valid()
  {
    && |k.slots| == c.casLatency + 1
    && Paired(k.slots)
    && (k.slots[0].Lo? <==> s.state == StCas1 && !s.req.we)
    && (k.slots[0].Lo? ==> k.slots[0].e == Current(k))
  }

  /** What has passed the capture point was captured. */
  predicate CaptureInv(c: Config, s: Regs, k: Track)
    requires c.Valid()
  {
    && |k.slots| == c.casLatency + 1
    && (k.slots[c.casLatency].Lo? ==> s.rd.low == k.slots[c.casLatency].e.word.lo)
    && (k.slots[c.casLatency].Hi? ==> s.ack && s.data == k.slots[c.casLatency].e.word)
  }

  predicate SlotInv(c: Config, s: Regs, k: Track)
    requires c.Valid()
  {
    MarkerInv(c, s, k) && PairInv(c, s, k) && CaptureInv(c, s, k)
  }

  /** The chip holds exactly the read data of the slots that have not been captured. */
  predicate FlightInv(c: Config, d: Device, k: Track)
    requires c.Valid()
  {
    var l := c.casLatency;
    && |k.slots| == l + 1
    && d.pending == Pendings(k.slots[..l - 1], d.cycle + 1)
    && d.drive == if k.slots[l - 1].Empty? then None else Some(Part(k.slots[l - 1]))
  }

  function Bit(b: bool): nat { if b then 1 else 0 }

  /** Owed acks, oldest first: the one on the bus now, the reads in the pipe, the request being issued. */
  predicate OwedInv(c: Config, s: System, k: Track)
    requires c.Valid()
  {
    |k.slots| == c.casLatency + 1 &&
    var h, t := Bit(s.ctl.ack), Bit(Issuing(s.ctl));
    && |k.owed| >= h + t
    && k.owed[h..|k.owed| - t] == Reads(k.slots[..c.casLatency])
    && (s.ctl.ack && k.owed[0].read ==> s.ctl.data == k.owed[0].word)
    && (Issuing(s.ctl) ==> k.owed[|k.owed| - 1].read == !s.ctl.req.we)
    && (Issuing(s.ctl) && !s.ctl.req.we ==> Current(k).word == ChipWord(s.dev.mem, s.ctl.req.loc))
  }

  /** The chip holds what was accepted, except for what a latched write still has to store. */
  ghost predicate MemInv(c: Config, s: System, k: Track)
    requires c.Valid()
  {
    var r := s.ctl.req;
    && (forall loc: Loc :: StoredAt(c, k.reqs, loc) ==
          if Issuing(s.ctl) && r.we && loc == r.loc then MergeWord(ChipWord(s.dev.mem, loc), r.dat, r.sel)
          else ChipWord(s.dev.mem, loc))
    && (s.ctl.state == StCas1 && r.we ==>
          MergeHalf(ChipWord(s.dev.mem, r.loc).lo, r.dat.lo, r.sel.s0, r.sel.s1) == ChipWord(s.dev.mem, r.loc).lo)
  }

  ghost predicate RefinementInv(c: Config, s: System, k: Track)
    requires c.Valid()
  {
    && ControlInv(c, s.ctl) && ChipInv(c, s) && SlotInv(c, s.ctl, k) && FlightInv(c, s.dev, k)
    && OwedInv(c, s, k) && MemInv(c, s, k)
  }

  // ---------------------------------------------------------------- the bus

  /** The controller never drives the data bus while the chip does, nor while any read data is in flight. */
  lemma NoContention(c: Config, s: System, k: Track)
    requires c.Valid() && ControlInv(c, s.ctl) && SlotInv(c, s.ctl, k) && FlightInv(c, s.dev, k)
    requires Outputs(c, s.ctl).dqOe
    ensures s.dev.drive == None && s.dev.pending == []
  {
    var l := c.casLatency;
    assert WritesColumn(s.ctl) && AllLow(s.ctl.rd.pipe);
    NoPendings(k.slots[..l - 1], s.dev.cycle + 1);
  }

  lemma {:induction false} NoPendings(g: seq<Slot>, base: nat)
    requires forall i | 0 <= i < |g| :: g[i].Empty?
    ensures Pendings(g, base) == [] && Reads(g) == []
  {
    if g != [] {
      NoPendings(g[..|g| - 1], base + 1);
    }
  }

  /** What the controller captures is what the chip sends, what the chip stores is what the controller sends. */
  lemma {:induction false} BusCarries(c: Config, s: System, k: Track, noise: Half)
    requires c.Valid() && ControlInv(c, s.ctl) && SlotInv(c, s.ctl, k) && FlightInv(c, s.dev, k)
    ensures var x := k.slots[c.casLatency - 1];
            !x.Empty? ==> DataBus(c, s, noise) == Part(x)
    ensures Outputs(c, s.ctl).dqOe ==> DataBus(c, s, noise) == Outputs(c, s.ctl).dqOut
  {
    if Outputs(c, s.ctl).dqOe {
      NoContention(c, s, k);
    }
  }

  // ---------------------------------------------------------------- one clock edge

  lemma ChipStep(c: Config, s: System, i: Input)
    requires c.Valid() && ControlInv(c, s.ctl) && ChipInv(c, s)
    ensures ChipInv(c, Step(c, s, i))
  {
  }

  lemma {:induction false} MarkerStep(c: Config, s: System, k: Track, i: Input)
    requires c.Valid() && MarkerInv(c, s.ctl, k)
    ensures MarkerInv(c, Step(c, s, i).ctl, NextTrack(c, s, k, i))
  {
    hide NextDevice, StoredAt, NextOwed, DataBus, Accept, Current;
  }

  /** While a request is being issued it is the last one owed, and nothing is accepted after it. */
  lemma CurrentStays(c: Config, s: System, k: Track, i: Input)
    requires c.Valid() && OwedInv(c, s, k) && Issuing(s.ctl) && !Accept(s.ctl, i.bus)
    ensures Current(NextTrack(c, s, k, i)) == Current(k)
  {
  }

  lemma {:induction false} PairShift(g: seq<Slot>, x: Slot)
    requires g != [] && Paired(g)
    requires x.Hi? ==> g[0] == Lo(x.e)
    requires g[0].Lo? ==> x == Hi(g[0].e)
    ensures Paired(Shift(g, x))
  {
    var n := Shift(g, x);
    forall i | 0 <= i < |n| - 1
      ensures (n[i].Hi? ==> n[i + 1] == Lo(n[i].e)) && (n[i + 1].Lo? ==> n[i] == Hi(n[i + 1].e))
    {
      if i > 0 { assert n[i] == g[i - 1] && n[i + 1] == g[i - 1 + 1]; }
    }
  }

  lemma {:induction false} PairStep(c: Config, s: System, k: Track, i: Input)
    requires c.Valid() && PairInv(c, s.ctl, k) && OwedInv(c, s, k)
    ensures PairInv(c, Step(c, s, i).ctl, NextTrack(c, s, k, i))
  {
    hide NextDevice, Reads, Pendings, DataBus, StoredAt, Decode, MergeWord, ChipWord;
    hide NextWait, NextInitLeft, NextRefresh, NextRow, NextRasTimer, NextWrTimer;
    PairShift(k.slots, NewSlot(s.ctl, k));
    if s.ctl.state == StCas0 {
      CurrentStays(c, s, k, i);
    }
  }

  lemma {:induction false} CaptureStep(c: Config, s: System, k: Track, i: Input)
    requires c.Valid() && ControlInv(c, s.ctl) && SlotInv(c, s.ctl, k) && FlightInv(c, s.dev, k)
    ensures CaptureInv(c, Step(c, s, i).ctl, NextTrack(c, s, k, i))
  {
    BusCarries(c, s, k, i.noise);
    assert NextTrack(c, s, k, i).slots[c.casLatency] == k.slots[c.casLatency - 1];
  }

  lemma SmallMod(a: nat, m: nat)
    requires a < m
    ensures a % m == a
  {
  }

  /** A column command addresses one half of the latched location. */
  lemma {:induction false} ColumnAddress(c: Config, s: System)
    requires c.Valid() && ControlInv(c, s.ctl) && ChipInv(c, s)
    requires s.ctl.state in {StCas0, StCas1}
    ensures Addressed(c, s.dev, Outputs(c, s.ctl)) ==
            Cell(s.ctl.req.loc.bank, s.ctl.req.loc.row, 2 * s.ctl.req.loc.col + Bit(s.ctl.state == StCas1))
  {
    assert Pow2(c.colBits) == 2 * c.RowWords();
    SmallMod(2 * s.ctl.req.loc.col + Bit(s.ctl.state == StCas1), Pow2(c.colBits));
  }

  /** The column a read command fetches is the half of the awaited word that enters the pipe. */
  lemma {:induction false} ReadFetches(c: Config, s: System, k: Track)
    requires c.Valid() && ControlInv(c, s.ctl) && ChipInv(c, s) && OwedInv(c, s, k) && ReadsColumn(s.ctl)
    ensures Fetch(s.dev.mem, Addressed(c, s.dev, Outputs(c, s.ctl))) == Part(NewSlot(s.ctl, k))
  {
    ColumnAddress(c, s);
    assert Current(k).word == ChipWord(s.dev.mem, s.ctl.req.loc);
  }

  /** The part of a chip step that concerns read data. */
  lemma {:induction false} ChipReads(c: Config, s: System, k: Track, i: Input)
    requires c.Valid() && ControlInv(c, s.ctl) && ChipInv(c, s) && OwedInv(c, s, k)
    ensures var d := Step(c, s, i).dev;
            && d.cycle == s.dev.cycle + 1
            && d.drive == Due(s.dev.pending, d.cycle)
            && d.pending == NotDue(s.dev.pending, d.cycle)
                            + if NewSlot(s.ctl, k).Empty? then []
                              else [Pending(d.cycle + c.casLatency - 1, Part(NewSlot(s.ctl, k)))]
  {
    hide Next, NextMem, Due, NotDue, StoredAt, Reads, Pendings, MergeWord, NextOwed, DataBus, Accept, Decode, MergeHalf;
    if ReadsColumn(s.ctl) {
      ReadFetches(c, s, k);
    }
  }

  /** A chip that takes the due slot off its list and appends the new one keeps step with the pipe. */
  lemma FlightShift(c: Config, d: Device, k: Track, x: Slot, d': Device, k': Track)
    requires c.Valid() && FlightInv(c, d, k) && k'.slots == Shift(k.slots, x)
    requires d'.cycle == d.cycle + 1 && d'.drive == Due(d.pending, d'.cycle)
    requires d'.pending == NotDue(d.pending, d'.cycle)
                           + if x.Empty? then [] else [Pending(d'.cycle + c.casLatency - 1, Part(x))]
    ensures FlightInv(c, d', k')
  {
    hide Due, NotDue, Pendings;
    var l := c.casLatency;
    var g := k.slots[..l - 1];
    PendingsDue(g, d'.cycle);
    PendingsMove(x, g, d'.cycle);
    assert k'.slots[..l - 1] == [x] + g[..l - 2];
  }

  lemma {:induction false} FlightStep(c: Config, s: System, k: Track, i: Input)
    requires c.Valid() && ControlInv(c, s.ctl) && ChipInv(c, s) && FlightInv(c, s.dev, k) && OwedInv(c, s, k)
    ensures FlightInv(c, Step(c, s, i).dev, NextTrack(c, s, k, i))
  {
    hide Next, NextMem, Due, NotDue, Pendings, Reads, Outputs, NextOwed;
    ChipReads(c, s, k, i);
    FlightShift(c, s.dev, k, NewSlot(s.ctl, k), Step(c, s, i).dev, NextTrack(c, s, k, i));
  }

  /** What one cycle stores, seen as words: the half being written, at the latched location. */
  lemma {:induction false} StoreEffect(c: Config, s: System, k: Track, i: Input, loc: Loc)
    requires c.Valid() && ControlInv(c, s.ctl) && ChipInv(c, s) && SlotInv(c, s.ctl, k) && FlightInv(c, s.dev, k)
    ensures var r := s.ctl.req;
            var w := ChipWord(s.dev.mem, loc);
            ChipWord(Step(c, s, i).dev.mem, loc) ==
              if !WritesColumn(s.ctl) || loc != r.loc then w
              else if s.ctl.state == StCas0 then w.(lo := MergeHalf(w.lo, r.dat.lo, r.sel.s0, r.sel.s1))
              else w.(hi := MergeHalf(w.hi, r.dat.hi, r.sel.s2, r.sel.s3))
  {
    hide Next, NextOwed, Due, NotDue, Reads, Pendings, StoredAt, DataBus, Accept, Decode, MergeHalf;
    if WritesColumn(s.ctl) {
      ColumnAddress(c, s);
      BusCarries(c, s, k, i.noise);
    }
  }

  /** A latched request that keeps being issued. */
  predicate StillIssuing(s: Regs) {
    Issuing(s) && s.state != StCas1
  }

  /** After the edge the chip holds what had been accepted before it, but for a write still being issued. */
  lemma {:induction false} Settled(c: Config, s: System, k: Track, i: Input, loc: Loc)
    requires c.Valid() && RefinementInv(c, s, k)
    ensures var r := s.ctl.req;
            var w := ChipWord(Step(c, s, i).dev.mem, loc);
            StoredAt(c, k.reqs, loc) ==
              if StillIssuing(s.ctl) && r.we && loc == r.loc then MergeWord(w, r.dat, r.sel) else w
  {
    StoreEffect(c, s, k, i, loc);
  }

  /** Which request is latched after the edge. */
  lemma LatchStep(c: Config, s: Regs, b: BusIn, dq: Half)
    requires c.Valid() && ControlInv(c, s)
    ensures var n := Next(c, s, b, dq);
            && Issuing(n) == (Accept(s, b) || StillIssuing(s))
            && (Accept(s, b) ==> !StillIssuing(s))
            && n.req.(hit := true) == (if Accept(s, b) then Request(b.we, b.sel, b.dat, Decode(c, b.adr), true)
                                       else s.req.(hit := true))
            && (n.state == StCas1 <==> s.state == StCas0)
  {
  }

  lemma {:induction false} MemStep(c: Config, s: System, k: Track, i: Input)
    requires c.Valid() && RefinementInv(c, s, k)
    ensures MemInv(c, Step(c, s, i), NextTrack(c, s, k, i))
  {
    var s', k' := Step(c, s, i), NextTrack(c, s, k, i);
    LatchStep(c, s.ctl, i.bus, DataBus(c, s, i.noise));
    forall loc: Loc
      ensures StoredAt(c, k'.reqs, loc) ==
                if Issuing(s'.ctl) && s'.ctl.req.we && loc == s'.ctl.req.loc
                then MergeWord(ChipWord(s'.dev.mem, loc), s'.ctl.req.dat, s'.ctl.req.sel)
                else ChipWord(s'.dev.mem, loc)
    {
      Settled(c, s, k, i, loc);
      if Accept(s.ctl, i.bus) {
        assert k'.reqs[..|k'.reqs| - 1] == k.reqs;
      } else {
        assert k'.reqs == k.reqs;
      }
    }
    StoreEffect(c, s, k, i, s.ctl.req.loc);
  }

  // ---------------------------------------------------------------- the acks owed

  /** Reading words off the pipe: the oldest leaves, the newest enters. */
  lemma ReadsShift(c: Config, k: Track, x: Slot)
    requires c.Valid() && |k.slots| == c.casLatency + 1
    ensures var l := c.casLatency;
            var leaving := if k.slots[l - 1].Hi? then [k.slots[l - 1].e] else [];
            var rest := Reads(k.slots[..l - 1]);
            && Reads(k.slots[..l]) == leaving + rest
            && Reads(Shift(k.slots, x)[..l]) == rest + if x.Hi? then [x.e] else []
  {
    var l := c.casLatency;
    assert k.slots[..l][..l - 1] == k.slots[..l - 1];
    ReadsCons(x, k.slots[..l - 1]);
    assert Shift(k.slots, x)[..l] == [x] + k.slots[..l - 1];
  }

  /** When the high half arrives, the word is complete. */
  lemma {:induction false} WordComplete(c: Config, s: System, k: Track, i: Input)
    requires c.Valid() && ControlInv(c, s.ctl) && SlotInv(c, s.ctl, k) && FlightInv(c, s.dev, k)
    ensures var x := k.slots[c.casLatency - 1];
            var n := Step(c, s, i).ctl;
            && (x.Hi? <==> CapturesHigh(c, s.ctl))
            && (x.Hi? ==> n.ack && n.data == x.e.word)
            && (n.ack <==> x.Hi? || (s.ctl.state == StCas1 && s.ctl.req.we))
  {
    BusCarries(c, s, k, i.noise);
    assert k.slots[c.casLatency - 1].Hi? ==> k.slots[c.casLatency] == Lo(k.slots[c.casLatency - 1].e);
  }

  /** A write issuing its last column has the queue to itself. */
  lemma WriteAlone(c: Config, s: System, k: Track)
    requires c.Valid() && PipeInv(s.ctl) && MarkerInv(c, s.ctl, k) && WritesColumn(s.ctl)
    ensures Reads(k.slots[..c.casLatency]) == [] && k.slots[c.casLatency - 1].Empty?
  {
    assert forall i | 0 <= i <= c.casLatency :: !s.ctl.rd.pipe[i];
    NoPendings(k.slots[..c.casLatency], 0);
  }

  /**
   * The queue over one edge, as sequences: h acks go out now, t requests are being issued, `accepted` joins. When
   * a request has finished (`done`) its read enters the pipe, or its write (w = 1) is acknowledged next.
   */
  lemma QueueMove(owed: seq<Expect>, h: nat, t: nat, leaving: seq<Expect>, rest: seq<Expect>, entering: seq<Expect>,
                  accepted: seq<Expect>, done: nat, w: nat)
    requires |owed| >= h + t && owed[h..|owed| - t] == leaving + rest
    requires done <= t <= 1 && |entering| + w == done
    requires |entering| == 1 ==> entering[0] == owed[|owed| - 1]
    requires w == 1 ==> leaving + rest == []
    ensures var next := owed[h..] + accepted;
            var h', t' := |leaving| + w, t - done + |accepted|;
            |next| >= h' + t' && next[h'..|next| - t'] == rest + entering
  {
    var next := owed[h..] + accepted;
    var h', t' := |leaving| + w, t - done + |accepted|;
    assert next[h'..|next| - t'] == owed[h..|owed| - t][|leaving|..] + entering;
  }

  /** A write, or a read, whose last column command is in this cycle. */
  predicate Finishes(s: Regs, we: bool) {
    s.state == StCas1 && s.req.we == we
  }

  /** The read, if any, at this position of the pipe whose high half is there. */
  function ReadAt(x: Slot): seq<Expect> {
    if x.Hi? then [x.e] else []
  }

  /** The queue before the edge: acks going out, reads in the pipe, the request being issued. */
  lemma QueueBefore(c: Config, s: System, k: Track)
    requires c.Valid() && OwedInv(c, s, k)
    ensures var h, t := Bit(s.ctl.ack), Bit(Issuing(s.ctl));
            && |k.owed| >= h + t
            && k.owed[h..|k.owed| - t]
               == ReadAt(k.slots[c.casLatency - 1]) + Reads(k.slots[..c.casLatency - 1])
  {
    hide StoredAt, ChipWord, Issuing;
    ReadsShift(c, k, Empty);
  }

  lemma EnteringKind(c: Config, s: System, k: Track, i: Input)
    requires c.Valid() && |k.owed| >= Bit(Issuing(s.ctl))
    ensures var x := NewSlot(s.ctl, k);
            && |ReadAt(x)| == Bit(Finishes(s.ctl, false))
            && (x.Hi? ==> k.owed != [] && ReadAt(x)[0] == k.owed[|k.owed| - 1])
    ensures |Joining(c, s, k, i)| == Bit(Accept(s.ctl, i.bus))
    ensures Bit(s.ctl.state == StCas1) <= Bit(Issuing(s.ctl))
    ensures Bit(StillIssuing(s.ctl)) == Bit(Issuing(s.ctl)) - Bit(s.ctl.state == StCas1)
    ensures Bit(Finishes(s.ctl, false)) + Bit(Finishes(s.ctl, true)) == Bit(s.ctl.state == StCas1)
  {
  }

  lemma {:induction false} QueueAfter(c: Config, s: System, k: Track, i: Input)
    requires c.Valid() && |k.owed| >= Bit(s.ctl.ack)
    ensures NextOwed(c, s, k, i) == k.owed[Bit(s.ctl.ack)..] + Joining(c, s, k, i)
  {
    assert k.owed[0..] == k.owed;
  }

  /** The queue after the edge, in terms of what happens in this cycle. */
  lemma OwedQueue(c: Config, s: System, k: Track, i: Input)
    requires c.Valid() && |k.slots| == c.casLatency + 1 && OwedInv(c, s, k)
    requires Finishes(s.ctl, true) ==> Reads(k.slots[..c.casLatency]) == []
    ensures var next := NextOwed(c, s, k, i);
            var h := Bit(k.slots[c.casLatency - 1].Hi?) + Bit(Finishes(s.ctl, true));
            var t := Bit(StillIssuing(s.ctl)) + Bit(Accept(s.ctl, i.bus));
            && |next| >= h + t
            && next[h..|next| - t] == Reads(Shift(k.slots, NewSlot(s.ctl, k))[..c.casLatency])
  {
    hide Next, NextDevice, Reads, StoredAt, Decode, Shift, DataBus, Joining, NewSlot, Accept, ChipWord, Issuing,
         Finishes, StillIssuing, Current, NextOwed, OwedInv;
    var x, last, rest := NewSlot(s.ctl, k), k.slots[c.casLatency - 1], Reads(k.slots[..c.casLatency - 1]);
    QueueBefore(c, s, k);
    EnteringKind(c, s, k, i);
    ReadsShift(c, k, x);
    QueueAfter(c, s, k, i);
    QueueMove(k.owed, Bit(s.ctl.ack), Bit(Issuing(s.ctl)), ReadAt(last), rest, ReadAt(x), Joining(c, s, k, i),
              Bit(s.ctl.state == StCas1), Bit(Finishes(s.ctl, true)));
    assert |ReadAt(last)| == Bit(last.Hi?);
  }

  /** The read leaving the pipe is the oldest ack owed after this cycle's. */
  lemma {:induction false} LeavingIsNext(c: Config, s: System, k: Track, i: Input)
    requires c.Valid() && OwedInv(c, s, k) && k.slots[c.casLatency - 1].Hi?
    ensures NextOwed(c, s, k, i) != [] && NextOwed(c, s, k, i)[0] == k.slots[c.casLatency - 1].e
  {
    hide Next, NextDevice, StoredAt, Decode, DataBus, Accept;
    var l, h := c.casLatency, Bit(s.ctl.ack);
    assert k.slots[..l][l - 1] == k.slots[l - 1];
    assert Reads(k.slots[..l])[0] == k.slots[l - 1].e;
    assert k.owed[h..|k.owed| - Bit(Issuing(s.ctl))][0] == k.owed[h];
  }

  /** The ack that goes out next carries the data it is owed. */
  lemma {:induction false} OwedData(c: Config, s: System, k: Track, i: Input)
    requires c.Valid() && RefinementInv(c, s, k)
    ensures var s', k' := Step(c, s, i), NextTrack(c, s, k, i);
            && (s'.ctl.ack && k'.owed != [] && k'.owed[0].read ==> s'.ctl.data == k'.owed[0].word)
  {
    hide Next, NextDevice, StoredAt, Decode, DataBus, Accept, NewSlot;
    WordComplete(c, s, k, i);
    if k.slots[c.casLatency - 1].Hi? {
      LeavingIsNext(c, s, k, i);
    } else if Finishes(s.ctl, true) {
      WriteAlone(c, s, k);
      assert k.owed[Bit(s.ctl.ack)..|k.owed| - 1] == [];
    }
  }

  /** The last ack owed is that of the request being issued, and a read among them awaits what the chip holds. */
  lemma {:induction false} OwedIssue(c: Config, s: System, k: Track, i: Input)
    requires c.Valid() && RefinementInv(c, s, k)
    ensures var s', k' := Step(c, s, i), NextTrack(c, s, k, i);
            Issuing(s'.ctl) && k'.owed != [] ==>
              && k'.owed[|k'.owed| - 1].read == !s'.ctl.req.we
              && (!s'.ctl.req.we ==> Current(k').word == ChipWord(s'.dev.mem, s'.ctl.req.loc))
  {
    hide Next, NextDevice, Reads, Pendings, Accept, DataBus, MergeWord;
    LatchStep(c, s.ctl, i.bus, DataBus(c, s, i.noise));
    if Accept(s.ctl, i.bus) {
      Settled(c, s, k, i, Decode(c, i.bus.adr));
    } else if Issuing(s.ctl) {
      StoreEffect(c, s, k, i, s.ctl.req.loc);
    }
  }

  lemma {:induction false} OwedStep(c: Config, s: System, k: Track, i: Input)
    requires c.Valid() && RefinementInv(c, s, k)
    ensures OwedInv(c, Step(c, s, i), NextTrack(c, s, k, i))
  {
    hide Next, NextDevice, StoredAt, Decode, DataBus, Accept, Reads, Shift, NextOwed, ChipWord, Joining, NewSlot;
    hide MergeWord;
    if Finishes(s.ctl, true) {
      WriteAlone(c, s, k);
    }
    OwedQueue(c, s, k, i);
    WordComplete(c, s, k, i);
    LatchStep(c, s.ctl, i.bus, DataBus(c, s, i.noise));
    OwedData(c, s, k, i);
    OwedIssue(c, s, k, i);
  }
}
