/** The bookkeeping that relates the system to a flat word memory: what was accepted, what is still owed, and
    what travels in the read pipe. */
module SdramTracking {
  import opened Options
  import opened SdramTypes
  import opened SdramController
  import opened SdramDevice
  import opened SdramSystem

  /** The word at a location after the given requests, starting from a zeroed memory. */
  function StoredAt(c: Config, reqs: seq<BusIn>, loc: Loc): Word
    requires c.Valid()
  {
    if reqs == [] then ZERO_WORD
    else
      var r := reqs[|reqs| - 1];
      var before := StoredAt(c, reqs[..|reqs| - 1], loc);
      if r.we && Decode(c, r.adr) == loc then MergeWord(before, r.dat, r.sel) else before
  }

  /** The ack owed for one accepted request; `born` is the cycle of its acceptance. */
  datatype Expect = Expect(read: bool, word: Word, born: nat)

  /** What one position of the read pipe carries: nothing, or one half of the word that answers `e`. */
  datatype Slot = Empty | Lo(e: Expect) | Hi(e: Expect)

  datatype Track = Track(reqs: seq<BusIn>, owed: seq<Expect>, slots: seq<Slot>)

  function StartTrack(c: Config): Track {
    Track([], [], seq(c.casLatency + 1, i => Empty))
  }

  /** The ack owed for the request being issued. */
  function Current(k: Track): Expect {
    if k.owed == [] then Expect(false, ZERO_WORD, 0) else k.owed[|k.owed| - 1]
  }

  function NewSlot(s: Regs, k: Track): Slot {
    if !ReadsColumn(s) then Empty else if s.state == StCas0 then Lo(Current(k)) else Hi(Current(k))
  }

  /** The ack that becomes owed in this cycle, if a request is accepted. */
  function Joining(c: Config, s: System, k: Track, i: Input): seq<Expect>
    requires c.Valid()
  {
    if Accept(s.ctl, i.bus)
    then [Expect(!i.bus.we, StoredAt(c, k.reqs, Decode(c, i.bus.adr)), s.dev.cycle)] else []
  }

  function NextOwed(c: Config, s: System, k: Track, i: Input): seq<Expect>
    requires c.Valid()
  {
    (if s.ctl.ack && k.owed != [] then k.owed[1..] else k.owed) + Joining(c, s, k, i)
  }

  function NextTrack(c: Config, s: System, k: Track, i: Input): Track
    requires c.Valid()
  {
    Track(k.reqs + if Accept(s.ctl, i.bus) then [i.bus] else [],
          NextOwed(c, s, k, i),
          Shift(k.slots, NewSlot(s.ctl, k)))
  }

  function RunTrack(c: Config, ins: seq<Input>): Track
    requires c.Valid()
  {
    if ins == [] then StartTrack(c)
    else NextTrack(c, Run(c, ins[..|ins| - 1]), RunTrack(c, ins[..|ins| - 1]), ins[|ins| - 1])
  }

  // ---------------------------------------------------------------- the pipe as sequences

  function Part(x: Slot): Half
    requires !x.Empty?
  {
    if x.Lo? then x.e.word.lo else x.e.word.hi
  }

  /** The reads whose high half is in these slots, oldest (highest index) first. */
  function Reads(g: seq<Slot>): seq<Expect> {
    if g == [] then []
    else (if g[|g| - 1].Hi? then [g[|g| - 1].e] else []) + Reads(g[..|g| - 1])
  }

  /** The chip's list of pending reads that these slots stand for, the oldest being due at `base`. */
  function Pendings(g: seq<Slot>, base: nat): seq<Pending> {
    if g == [] then []
    else (if g[|g| - 1].Empty? then [] else [Pending(base, Part(g[|g| - 1]))]) + Pendings(g[..|g| - 1], base + 1)
  }

  lemma {:induction false} ReadsCons(x: Slot, g: seq<Slot>)
    ensures Reads([x] + g) == Reads(g) + if x.Hi? then [x.e] else []
  {
    if g != [] {
      ReadsCons(x, g[..|g| - 1]);
      assert ([x] + g)[..|g|] == [x] + g[..|g| - 1];
    }
  }

  lemma {:induction false} PendingsCons(x: Slot, g: seq<Slot>, base: nat)
    ensures Pendings([x] + g, base) == Pendings(g, base) + if x.Empty? then [] else [Pending(base + |g|, Part(x))]
  {
    if g != [] {
      PendingsCons(x, g[..|g| - 1], base + 1);
      assert ([x] + g)[..|g|] == [x] + g[..|g| - 1];
    }
  }

  lemma {:induction false} PendingsLater(g: seq<Slot>, base: nat)
    ensures forall i | 0 <= i < |Pendings(g, base)| :: Pendings(g, base)[i].at >= base
  {
    if g != [] {
      PendingsLater(g[..|g| - 1], base + 1);
    }
  }

  lemma {:induction false} NoneDue(p: seq<Pending>, n: nat)
    requires forall i | 0 <= i < |p| :: p[i].at != n
    ensures Due(p, n) == None && NotDue(p, n) == p
  {
    if p != [] {
      NoneDue(p[..|p| - 1], n);
    }
  }

  lemma {:induction false} OneDue(x: Pending, p: seq<Pending>, n: nat)
    requires x.at == n && forall i | 0 <= i < |p| :: p[i].at != n
    ensures Due([x] + p, n) == Some(x.value) && NotDue([x] + p, n) == p
  {
    if p == [] {
      assert [x] + p == [x];
    } else {
      OneDue(x, p[..|p| - 1], n);
      assert ([x] + p)[..|p|] == [x] + p[..|p| - 1];
    }
  }

  /** At edge `base` the chip takes exactly the oldest slot off its list. */
  lemma PendingsDue(g: seq<Slot>, base: nat)
    requires g != []
    ensures var last := g[|g| - 1];
            Due(Pendings(g, base), base) == if last.Empty? then None else Some(Part(last))
    ensures NotDue(Pendings(g, base), base) == Pendings(g[..|g| - 1], base + 1)
  {
    var rest := g[..|g| - 1];
    PendingsLater(rest, base + 1);
    if g[|g| - 1].Empty? {
      assert Pendings(g, base) == Pendings(rest, base + 1);
      NoneDue(Pendings(rest, base + 1), base);
    } else {
      OneDue(Pending(base, Part(g[|g| - 1])), Pendings(rest, base + 1), base);
    }
  }

  /** Taking the due slot off the list and appending the new one is one shift of the slots. */
  lemma PendingsMove(x: Slot, g: seq<Slot>, base: nat)
    requires g != []
    ensures NotDue(Pendings(g, base), base) + (if x.Empty? then [] else [Pending(base + |g|, Part(x))])
            == Pendings([x] + g[..|g| - 1], base + 1)
  {
    PendingsDue(g, base);
    PendingsCons(x, g[..|g| - 1], base + 1);
  }
}
