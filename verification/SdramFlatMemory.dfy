/** The main results about data: every run of controller and chip answers like a flat word memory. */
module SdramFlatMemory {
  import opened Options
  import opened SdramTypes
  import opened SdramController
  import opened SdramControl
  import opened SdramSystem
  import opened SdramTracking
  import opened SdramRefinement

  lemma InitialRefinement(c: Config)
    requires c.Valid()
    ensures RefinementInv(c, Initial(c), StartTrack(c))
  {
    var k := StartTrack(c);
    NoPendings(k.slots[..c.casLatency], 0);
    NoPendings(k.slots[..c.casLatency - 1], 1);
    ResetControl(c);
  }

  /** Every reachable state satisfies the refinement invariant. */
  lemma {:induction false} RunRefinement(c: Config, ins: seq<Input>)
    requires c.Valid()
    ensures RefinementInv(c, Run(c, ins), RunTrack(c, ins))
  {
    if ins == [] {
      InitialRefinement(c);
    } else {
      var before, i := ins[..|ins| - 1], ins[|ins| - 1];
      RunRefinement(c, before);
      RefinementStep(c, Run(c, before), RunTrack(c, before), i);
    }
  }

  /** One clock edge keeps the refinement invariant. */
  lemma {:induction false} RefinementStep(c: Config, s: System, k: Track, i: Input)
    requires c.Valid() && RefinementInv(c, s, k)
    ensures RefinementInv(c, Step(c, s, i), NextTrack(c, s, k, i))
  {
    ControlStep(c, s.ctl, i.bus, DataBus(c, s, i.noise));
    ChipStep(c, s, i);
    MarkerStep(c, s, k, i);
    PairStep(c, s, k, i);
    CaptureStep(c, s, k, i);
    FlightStep(c, s, k, i);
    OwedStep(c, s, k, i);
    MemStep(c, s, k, i);
  }

  /** The chip and the controller never drive the data bus in the same cycle of any run. */
  lemma {:induction false} BusNeverContended(c: Config, ins: seq<Input>)
    requires c.Valid()
    ensures var s := Run(c, ins);
            Outputs(c, s.ctl).dqOe ==> s.dev.drive == None && s.dev.pending == []
  {
    RunRefinement(c, ins);
    if Outputs(c, Run(c, ins).ctl).dqOe {
      NoContention(c, Run(c, ins), RunTrack(c, ins));
    }
  }

  // ---------------------------------------------------------------- accepted = acknowledged + owed

  /** What request j of a list must be answered with, if it is a read. */
  function Answer(c: Config, reqs: seq<BusIn>, j: nat): Word
    requires c.Valid() && j < |reqs|
  {
    StoredAt(c, reqs[..j], Decode(c, reqs[j].adr))
  }

  /** The acks given answer the oldest requests in order; the acks owed are for all later ones. */
  predicate Accounted(c: Config, reqs: seq<BusIn>, acked: seq<Word>, owed: seq<Expect>)
    requires c.Valid()
  {
    && |acked| + |owed| == |reqs|
    && (forall j | 0 <= j < |acked| :: !reqs[j].we ==> acked[j] == Answer(c, reqs, j))
    && (forall j | |acked| <= j < |reqs| ::
          owed[j - |acked|].read == !reqs[j].we && owed[j - |acked|].word == Answer(c, reqs, j))
  }

  lemma AnswerPrefix(c: Config, reqs: seq<BusIn>, b: BusIn, j: nat)
    requires c.Valid() && j < |reqs|
    ensures Answer(c, reqs + [b], j) == Answer(c, reqs, j)
  {
    assert (reqs + [b])[..j] == reqs[..j];
  }

  lemma {:induction false} AccountAccept(c: Config, reqs: seq<BusIn>, acked: seq<Word>, owed: seq<Expect>,
                                         b: BusIn, e: Expect)
    requires c.Valid() && Accounted(c, reqs, acked, owed)
    requires e.read == !b.we && e.word == StoredAt(c, reqs, Decode(c, b.adr))
    ensures Accounted(c, reqs + [b], acked, owed + [e])
  {
    assert (reqs + [b])[..|reqs|] == reqs;
    forall j | 0 <= j < |reqs| ensures Answer(c, reqs + [b], j) == Answer(c, reqs, j) {
      AnswerPrefix(c, reqs, b, j);
    }
  }

  lemma {:induction false} AccountAck(c: Config, reqs: seq<BusIn>, acked: seq<Word>, owed: seq<Expect>, w: Word)
    requires c.Valid() && Accounted(c, reqs, acked, owed) && owed != []
    requires owed[0].read ==> w == owed[0].word
    ensures Accounted(c, reqs, acked + [w], owed[1..])
  {
    assert owed[0] == owed[|acked| - |acked|];
  }

  /** One cycle of the account: perhaps an ack, then perhaps a new request. */
  lemma AccountStep(c: Config, s: System, k: Track, acked: seq<Word>, i: Input)
    requires c.Valid() && Accounted(c, k.reqs, acked, k.owed)
    requires s.ctl.ack ==> k.owed != [] && (k.owed[0].read ==> s.ctl.data == k.owed[0].word)
    ensures Accounted(c, k.reqs + (if Accept(s.ctl, i.bus) then [i.bus] else []),
                      acked + (if s.ctl.ack then [s.ctl.data] else []), NextOwed(c, s, k, i))
  {
    var acked', owed' := acked, k.owed;
    if s.ctl.ack {
      AccountAck(c, k.reqs, acked, k.owed, s.ctl.data);
      acked', owed' := acked + [s.ctl.data], k.owed[1..];
    } else {
      assert acked + [] == acked;
    }
    if Accept(s.ctl, i.bus) {
      var e := Expect(!i.bus.we, StoredAt(c, k.reqs, Decode(c, i.bus.adr)), s.dev.cycle);
      AccountAccept(c, k.reqs, acked', owed', i.bus, e);
    } else {
      assert owed' + [] == owed' && k.reqs + [] == k.reqs;
    }
  }

  lemma AckIsOwed(c: Config, s: System, k: Track)
    requires c.Valid() && OwedInv(c, s, k) && s.ctl.ack
    ensures k.owed != [] && (k.owed[0].read ==> s.ctl.data == k.owed[0].word)
  {
  }

  lemma {:induction false} RunAckIsOwed(c: Config, ins: seq<Input>)
    requires c.Valid()
    ensures Run(c, ins).ctl.ack ==> RunTrack(c, ins).owed != []
  {
    RunRefinement(c, ins);
  }

  lemma {:induction false} RunAccounted(c: Config, ins: seq<Input>)
    requires c.Valid()
    ensures RunTrack(c, ins).reqs == Accepted(c, ins)
    ensures Accounted(c, Accepted(c, ins), Acked(c, ins), RunTrack(c, ins).owed)
  {
    if ins != [] {
      var before, i := ins[..|ins| - 1], ins[|ins| - 1];
      var s, k := Run(c, before), RunTrack(c, before);
      RunAccounted(c, before);
      RunRefinement(c, before);
      if s.ctl.ack {
        AckIsOwed(c, s, k);
      }
      AccountStep(c, s, k, Acked(c, before), i);
    }
  }

  // ---------------------------------------------------------------- the flat memory

  /** The number of 32-bit words; address bits above it are ignored. */
  function TotalWords(c: Config): (n: nat)
    requires c.Valid()
    ensures n > 0
  {
    MulPositive(c.RowWords(), c.Banks());
    MulPositive(c.RowWords() * c.Banks(), c.Rows());
    c.RowWords() * c.Banks() * c.Rows()
  }

  lemma MulPositive(a: nat, b: nat)
    requires a > 0 && b > 0
    ensures a * b > 0
  {
  }

  /** A flat memory of words: each write merges its selected lanes into the word at its address. */
  function FlatRead(c: Config, reqs: seq<BusIn>, adr: nat): Word
    requires c.Valid()
  {
    if reqs == [] then ZERO_WORD
    else
      var r := reqs[|reqs| - 1];
      var before := FlatRead(c, reqs[..|reqs| - 1], adr);
      if r.we && r.adr % TotalWords(c) == adr % TotalWords(c) then MergeWord(before, r.dat, r.sel) else before
  }

  /** Division with remainder is unique. */
  lemma {:induction false} DivMod(q: int, r: int, m: int)
    requires m > 0 && 0 <= r < m
    ensures (q * m + r) / m == q && (q * m + r) % m == r
  {
    var a := q * m + r;
    assert a == (a / m) * m + a % m;
    if a / m > q {
      MulLe(q + 1, a / m, m);
    } else if a / m < q {
      MulLe(a / m + 1, q, m);
    }
  }

  lemma MulLe(a: int, b: int, m: int)
    requires a <= b && m > 0
    ensures a * m <= b * m
  {
  }

  /** One mixed-radix digit: the residue modulo m * n is the low digit and the residue of the rest modulo n. */
  lemma {:induction false} SplitMod(a: nat, m: nat, n: nat)
    requires m > 0 && n > 0
    ensures m * n > 0
    ensures a % (m * n) == (a / m % n) * m + a % m
  {
    MulPositive(m, n);
    var q, r := a / m, a % m;
    var q', r' := q / n, q % n;
    MulLe(r' + 1, n, m);
    assert a == q' * (m * n) + (r' * m + r) by {
      assert a == q * m + r && q == q' * n + r';
      Regroup(q', n, r', m);
    }
    DivMod(q', r' * m + r, m * n);
  }

  lemma {:induction false} Regroup(x: int, n: int, y: int, m: int)
    ensures (x * n + y) * m == x * (m * n) + y * m
  {
    assert (x * n + y) * m == x * n * m + y * m;
    MulAssoc(x, n, m);
  }

  /** Three mixed-radix digits of a residue. */
  lemma {:induction false} ThreeDigits(a: nat, w: nat, n: nat, r: nat)
    requires w > 0 && n > 0 && r > 0
    ensures w * n * r > 0
    ensures a % (w * n * r) == ((a / w / n % r) * n + a / w % n) * w + a % w
  {
    MulPositive(w, n);
    MulPositive(w * n, r);
    MulPositive(n, r);
    SplitMod(a, w, n * r);
    SplitMod(a / w, n, r);
    MulAssoc(w, n, r);
  }

  lemma MulAssoc(a: int, b: int, c: int)
    ensures a * (b * c) == a * b * c
  {
  }

  /** Two numbers have the same three digits exactly if they agree modulo the product. */
  lemma {:induction false} SameDigits(a: nat, b: nat, w: nat, n: nat, r: nat)
    requires w > 0 && n > 0 && r > 0
    ensures w * n * r > 0
    ensures a % w == b % w && a / w % n == b / w % n && a / w / n % r == b / w / n % r <==>
            a % (w * n * r) == b % (w * n * r)
  {
    ThreeDigits(a, w, n, r);
    ThreeDigits(b, w, n, r);
    var a1, a2, b1, b2 := a / w % n, a / w / n % r, b / w % n, b / w / n % r;
    Digits(a2, a1, b2, b1, n);
    Digits(a2 * n + a1, a % w, b2 * n + b1, b % w, w);
  }

  /** Two addresses name the same location exactly if they agree modulo the size of the memory. */
  lemma {:induction false} SameLocation(c: Config, a: nat, b: nat)
    requires c.Valid()
    ensures Decode(c, a) == Decode(c, b) <==> a % TotalWords(c) == b % TotalWords(c)
  {
    SameDigits(a, b, c.RowWords(), c.Banks(), c.Rows());
  }

  /**
   * Where a word lives: the words of an aligned block of one row's length are the columns of a row, the next blocks
   * the same row of the next banks, and then the next row.
   */
  lemma {:induction false} LocationOf(c: Config, a: nat)
    requires c.Valid()
    ensures var loc := Decode(c, a);
            && loc.bank < c.Banks() && loc.row < c.Rows() && loc.col < c.RowWords()
            && a % TotalWords(c) == (loc.row * c.Banks() + loc.bank) * c.RowWords() + loc.col
  {
    ThreeDigits(a, c.RowWords(), c.Banks(), c.Rows());
  }

  lemma {:induction false} Digits(q: nat, r: nat, q': nat, r': nat, m: nat)
    requires m > 0 && r < m && r' < m
    ensures q * m + r == q' * m + r' <==> q == q' && r == r'
  {
    DivMod(q, r, m);
    DivMod(q', r', m);
  }

  lemma {:induction false} StoredIsFlat(c: Config, reqs: seq<BusIn>, adr: nat)
    requires c.Valid()
    ensures StoredAt(c, reqs, Decode(c, adr)) == FlatRead(c, reqs, adr)
  {
    if reqs != [] {
      StoredIsFlat(c, reqs[..|reqs| - 1], adr);
      SameLocation(c, reqs[|reqs| - 1].adr, adr);
    }
  }

  /**
   * In every run, for every pattern of requests, stalls and refreshes and whatever an undriven bus reads as: acks
   * come in the order of acceptance, at most one per accepted request, and the ack of a read carries what a flat
   * memory holds at its address after the requests accepted before it.
   */
  lemma {:induction false} AnswersLikeFlatMemory(c: Config, ins: seq<Input>)
    requires c.Valid()
    ensures |Acked(c, ins)| <= |Accepted(c, ins)|
    ensures forall j | 0 <= j < |Acked(c, ins)| ::
              !Accepted(c, ins)[j].we ==>
                Acked(c, ins)[j] == FlatRead(c, Accepted(c, ins)[..j], Accepted(c, ins)[j].adr)
  {
    RunAccounted(c, ins);
    var reqs := Accepted(c, ins);
    forall j | 0 <= j < |Acked(c, ins)| && !reqs[j].we
      ensures Acked(c, ins)[j] == FlatRead(c, reqs[..j], reqs[j].adr)
    {
      StoredIsFlat(c, reqs[..j], reqs[j].adr);
    }
  }

  // ---------------------------------------------------------------- lane by lane

  function Lane(w: Word, n: nat): Byte
    requires n < 4
  {
    if n == 0 then w.lo.lo else if n == 1 then w.lo.hi else if n == 2 then w.hi.lo else w.hi.hi
  }

  predicate Selects(sel: Sel, n: nat)
    requires n < 4
  {
    if n == 0 then sel.s0 else if n == 1 then sel.s1 else if n == 2 then sel.s2 else sel.s3
  }

  /** Request j writes lane n of the word at adr. */
  predicate WritesLane(c: Config, r: BusIn, adr: nat, n: nat)
    requires c.Valid() && n < 4
  {
    r.we && r.adr % TotalWords(c) == adr % TotalWords(c) && Selects(r.sel, n)
  }

  /** No request from index j on writes the lane. */
  predicate NoLaterWrite(c: Config, reqs: seq<BusIn>, j: nat, adr: nat, n: nat)
    requires c.Valid() && n < 4
  {
    forall m | j <= m < |reqs| :: !WritesLane(c, reqs[m], adr, n)
  }

  /** A byte lane of a flat read is that of the latest request that writes the lane. */
  lemma {:induction false} LatestWriteWins(c: Config, reqs: seq<BusIn>, j: nat, adr: nat, n: nat)
    requires c.Valid() && n < 4 && j < |reqs|
    requires WritesLane(c, reqs[j], adr, n) && NoLaterWrite(c, reqs, j + 1, adr, n)
    ensures Lane(FlatRead(c, reqs, adr), n) == Lane(reqs[j].dat, n)
  {
    var last := |reqs| - 1;
    if j < last {
      assert !WritesLane(c, reqs[last], adr, n);
      LatestWriteWins(c, reqs[..last], j, adr, n);
    }
  }

  /** A byte lane that no request writes reads as zero. */
  lemma {:induction false} UnwrittenIsZero(c: Config, reqs: seq<BusIn>, adr: nat, n: nat)
    requires c.Valid() && n < 4 && NoLaterWrite(c, reqs, 0, adr, n)
    ensures Lane(FlatRead(c, reqs, adr), n) == 0
  {
    if reqs != [] {
      var last := |reqs| - 1;
      assert !WritesLane(c, reqs[last], adr, n);
      UnwrittenIsZero(c, reqs[..last], adr, n);
    }
  }
}
