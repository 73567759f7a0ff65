/** The bitmap allocator of storage cells, with its search hints. */
module Alloc {
  import opened AllocBits
  import opened AllocSearch

  // ---------------------------------------------------------------- what the bitmap stands for

  /** Cell x belongs to the live allocation that starts at a. */
  predicate InRun(live: map<nat, nat>, a: nat, x: nat) {
    a in live && a <= x < a + live[a]
  }

  ghost predicate Owned(live: map<nat, nat>, x: nat) {
    exists a :: InRun(live, a, x)
  }

  ghost predicate Disjoint(live: map<nat, nat>) {
    forall a, b, x | InRun(live, a, x) && InRun(live, b, x) :: a == b
  }

  /** The marked cells are exactly those of the live allocations, which overlap nowhere. */
  ghost predicate Refines(bs: seq<bv8>, live: map<nat, nat>) {
    && (forall a | a in live :: live[a] > 0)
    && Disjoint(live)
    && (forall x: nat :: Used(bs, x) <==> Owned(live, x))
  }

  function UsedBelow(bs: seq<bv8>, n: nat): nat {
    if n == 0 then 0 else UsedBelow(bs, n - 1) + if Used(bs, n - 1) then 1 else 0
  }

  /** The sizes of the live allocations that start below n. */
  function LiveBelow(live: map<nat, nat>, n: nat): nat {
    if n == 0 then 0 else LiveBelow(live, n - 1) + if n - 1 in live then live[n - 1] else 0
  }

  lemma {:induction false} CountMarked(bs: seq<bv8>, bs': seq<bv8>, a: nat, n: nat, m: nat)
    requires Marked(bs, bs', a, n) && forall x | a <= x < a + n :: !Used(bs, x)
    ensures UsedBelow(bs', m) == UsedBelow(bs, m) + if m <= a then 0 else if m <= a + n then m - a else n
  {
    if m > 0 {
      CountMarked(bs, bs', a, n, m - 1);
    }
  }

  lemma {:induction false} CountCleared(bs: seq<bv8>, bs': seq<bv8>, a: nat, n: nat, m: nat)
    requires Cleared(bs, bs', a, n) && forall x | a <= x < a + n :: Used(bs, x)
    ensures UsedBelow(bs, m) == UsedBelow(bs', m) + if m <= a then 0 else if m <= a + n then m - a else n
  {
    if m > 0 {
      CountCleared(bs, bs', a, n, m - 1);
    }
  }

  lemma {:induction false} SumAdded(live: map<nat, nat>, a: nat, n: nat, m: nat)
    requires a !in live
    ensures LiveBelow(live[a := n], m) == LiveBelow(live, m) + if a < m then n else 0
  {
    if m > 0 {
      SumAdded(live, a, n, m - 1);
    }
  }

  // ---------------------------------------------------------------- the hints

  /** The run that starts at a began before cell x and reaches it. */
  predicate Reaches(live: map<nat, nat>, a: nat, x: nat) {
    a < x && InRun(live, a, x)
  }

  ghost predicate Crossed(live: map<nat, nat>, x: nat) {
    exists a: nat :: Reaches(live, a, x)
  }

  /** No allocation can start in block b: it is full, or its candidate start is taken by a run that began before. */
  ghost predicate Skippable(bs: seq<bv8>, live: map<nat, nat>, b: nat)
    requires b < |bs|
  {
    bs[b] == 0xFF || (Used(bs, 8 * b + 7) && Crossed(live, 8 * b + 8))
  }

  ghost predicate FirstHint(bs: seq<bv8>, live: map<nat, nat>, first: nat) {
    first <= |bs| && forall b | 0 <= b < first :: Skippable(bs, live, b)
  }

  /** All blocks above the hint are empty. */
  predicate LastHint(bs: seq<bv8>, last: nat) {
    (last == 0 || last < |bs|) && forall b | last < b < |bs| :: bs[b] == 0
  }

  function SkipFull(bs: seq<bv8>, i: nat): (j: nat)
    ensures j >= i && (i <= |bs| ==> j <= |bs|)
    ensures forall b | i <= b < j :: b < |bs| && bs[b] == 0xFF
    decreases |bs| - i
  {
    if i < |bs| && bs[i] == 0xFF then SkipFull(bs, i + 1) else i
  }

  function SkipUsed(bs: seq<bv8>, i: nat): (j: nat)
    ensures j >= i
    decreases |bs| - i
  {
    if i < |bs| && bs[i] != 0 then SkipUsed(bs, i + 1) else i
  }

  function DropEmpty(bs: seq<bv8>, i: nat): (j: nat)
    requires i == 0 || i < |bs|
    ensures j <= i && forall b | j < b <= i :: bs[b] == 0
  {
    if i > 0 && bs[i] == 0 then DropEmpty(bs, i - 1) else i
  }

  /** The three walks over the bitmap stop at the first block that is not full, is empty, or is in use. */
  lemma {:induction false} WalksStop(bs: seq<bv8>, i: nat)
    ensures SkipFull(bs, i) < |bs| ==> bs[SkipFull(bs, i)] != 0xFF
    ensures SkipUsed(bs, i) < |bs| ==> bs[SkipUsed(bs, i)] == 0
    ensures forall b | i <= b < SkipUsed(bs, i) && b < |bs| :: bs[b] != 0
    ensures i >= |bs| ==> SkipUsed(bs, i) == i == SkipFull(bs, i)
    decreases |bs| - i
  {
    if i < |bs| {
      WalksStop(bs, i + 1);
    }
  }

  lemma {:induction false} DropStops(bs: seq<bv8>, i: nat)
    requires i == 0 || i < |bs|
    ensures DropEmpty(bs, i) == 0 || bs[DropEmpty(bs, i)] != 0
  {
    if i > 0 {
      DropStops(bs, i - 1);
    }
  }

  /** The first hint behind an allocation: a run that starts in the block of the hint may fill it and more. */
  function FirstAfter(bs: seq<bv8>, first: nat, addr: nat, size: nat): nat {
    if addr / 8 == first then SkipFull(bs, first + size / 8) else first
  }

  /** A search from the first hint on finds what a search of the whole bitmap finds. */
  lemma {:induction false} HintFindsSame(bs: seq<bv8>, live: map<nat, nat>, first: nat, size: nat)
    requires Refines(bs, live) && FirstHint(bs, live, first) && size > 0
    ensures Search(bs, first, size) == Search(bs, 0, size)
  {
    if first > 0 {
      HintFindsSame(bs, live, first - 1, size);
      SkippedInfeasible(bs, live, first - 1, size);
    }
  }

  lemma SkippedInfeasible(bs: seq<bv8>, live: map<nat, nat>, b: nat, size: nat)
    requires Refines(bs, live) && b < |bs| && Skippable(bs, live, b) && size > 0
    ensures !Feasible(bs, b, size)
  {
    hide Bit, Log2;
    CandidateCells(bs, b);
    if bs[b] != 0xFF {
      var a: nat :| Reaches(live, a, 8 * b + 8);
      assert Owned(live, 8 * b + 8);
      assert Candidate(bs, b) == 8 * b + 8 by {
        assert Used(bs, 8 * b + 7);
        CandidateBound(bs, b);
      }
    }
  }

  lemma CandidateBound(bs: seq<bv8>, b: nat)
    requires b < |bs|
    ensures Candidate(bs, b) <= 8 * b + 8
  {
  }

  /** Nothing is found before the block the search starts from. */
  lemma {:induction false} SearchBehind(bs: seq<bv8>, i: nat, size: nat)
    ensures Search(bs, i, size) != NONE ==> Search(bs, i, size) >= 8 * i
    decreases |bs| - i
  {
    if i < |bs| {
      SearchBehind(bs, i + 1, size);
    }
  }

  // ---------------------------------------------------------------- one allocation, one release

  lemma AllocatedRefines(bs: seq<bv8>, bs': seq<bv8>, live: map<nat, nat>, a: nat, n: nat)
    requires Refines(bs, live) && Free(bs, a, n) && n > 0 && Marked(bs, bs', a, n)
    ensures a !in live && Refines(bs', live[a := n])
  {
    var live' := live[a := n];
    assert a in live ==> InRun(live, a, a) && Owned(live, a);
    assert !Used(bs, a);
    forall b, x | InRun(live', b, x) ensures b == a || InRun(live, b, x) {
    }
    forall x: nat ensures Used(bs', x) <==> Owned(live', x) {
      if Used(bs, x) {
        var b :| InRun(live, b, x);
        assert InRun(live', b, x);
      }
      if a <= x < a + n { assert InRun(live', a, x); }
    }
    forall b, c, x | InRun(live', b, x) && InRun(live', c, x) ensures b == c {
      if b != a && c == a { assert Owned(live, x); }
      if b == a && c != a { assert Owned(live, x); }
    }
  }

  lemma ReleasedRefines(bs: seq<bv8>, bs': seq<bv8>, live: map<nat, nat>, a: nat)
    requires Refines(bs, live) && a in live && Cleared(bs, bs', a, live[a])
    ensures Refines(bs', live - {a})
  {
    var live' := live - {a};
    forall x: nat ensures Used(bs', x) <==> Owned(live', x) {
      if Used(bs', x) {
        var b :| InRun(live, b, x);
        assert InRun(live', b, x);
      }
      if Owned(live', x) {
        var b :| InRun(live', b, x);
        assert InRun(live, b, x);
        assert InRun(live, a, x) <==> a <= x < a + live[a];
      }
    }
    forall b, c, x | InRun(live', b, x) && InRun(live', c, x) ensures b == c {
      assert InRun(live, b, x) && InRun(live, c, x);
    }
  }

  /** Marking more cells keeps a block skippable. */
  lemma StaysSkippable(bs: seq<bv8>, bs': seq<bv8>, live: map<nat, nat>, a: nat, n: nat, b: nat)
    requires b < |bs| && Skippable(bs, live, b) && Marked(bs, bs', a, n) && a !in live
    ensures Skippable(bs', live[a := n], b)
  {
    hide Bit;
    BlockCells(bs, b);
    BlockCells(bs', b);
    if bs[b] != 0xFF {
      var c: nat :| Reaches(live, c, 8 * b + 8);
      assert Reaches(live[a := n], c, 8 * b + 8);
    }
  }

  /** Blocks the new run reaches across are skippable. */
  lemma CoveredSkippable(bs': seq<bv8>, live: map<nat, nat>, a: nat, n: nat, b: nat)
    requires b < |bs'| && a in live && live[a] == n && forall x | a <= x < a + n :: Used(bs', x)
    requires a / 8 <= b < a / 8 + n / 8
    ensures Skippable(bs', live, b)
  {
    hide Bit;
    BlockCells(bs', b);
    if b > a / 8 || a % 8 == 0 {
      assert a <= 8 * b && 8 * b + 8 <= a + n;
    } else {
      assert Reaches(live, a, 8 * b + 8) && Used(bs', 8 * b + 7);
    }
  }

  lemma AllocatedHint(bs: seq<bv8>, bs': seq<bv8>, live: map<nat, nat>, first: nat, a: nat, n: nat)
    requires FirstHint(bs, live, first) && a !in live && Marked(bs, bs', a, n) && a + n <= 8 * |bs|
    ensures FirstHint(bs', live[a := n], FirstAfter(bs', first, a, n))
  {
    var live' := live[a := n];
    forall b | 0 <= b < first ensures Skippable(bs', live', b) {
      StaysSkippable(bs, bs', live, a, n, b);
    }
    if a / 8 == first {
      assert first + n / 8 <= |bs|;
      forall b | first <= b < first + n / 8 ensures Skippable(bs', live', b) {
        CoveredSkippable(bs', live', a, n, b);
      }
    }
  }

  lemma ReleasedHint(bs: seq<bv8>, bs': seq<bv8>, live: map<nat, nat>, first: nat, a: nat)
    requires FirstHint(bs, live, first) && a in live && Cleared(bs, bs', a, live[a])
    ensures FirstHint(bs', live - {a}, Min(a / 8, first))
  {
    hide Bit;
    forall b | 0 <= b < Min(a / 8, first) ensures Skippable(bs', live - {a}, b) {
      assert Skippable(bs, live, b) && 8 * b + 8 <= a;
      BlockCells(bs, b);
      BlockCells(bs', b);
      if bs[b] != 0xFF {
        var c: nat :| Reaches(live, c, 8 * b + 8);
        assert Reaches(live - {a}, c, 8 * b + 8);
      }
    }
  }

  lemma LastHintMarked(bs: seq<bv8>, bs': seq<bv8>, last: nat, a: nat, n: nat)
    requires LastHint(bs, last) && Marked(bs, bs', a, n) && n > 0 && a + n <= 8 * |bs|
    ensures LastHint(bs', if (a + n - 1) / 8 > last then (a + n - 1) / 8 else last)
  {
    hide Bit;
    var last' := if (a + n - 1) / 8 > last then (a + n - 1) / 8 else last;
    forall b | last' < b < |bs'| ensures bs'[b] == 0 {
      BlockCells(bs, b);
      BlockCells(bs', b);
    }
  }

  lemma LastHintCleared(bs: seq<bv8>, bs': seq<bv8>, last: nat, a: nat, n: nat)
    requires LastHint(bs, last) && Cleared(bs, bs', a, n)
    ensures LastHint(bs', last) && LastHint(bs', DropEmpty(bs', last))
  {
    hide Bit;
    forall b | last < b < |bs'| ensures bs'[b] == 0 {
      BlockCells(bs, b);
      BlockCells(bs', b);
    }
  }

  /** When nothing is live any more the bitmap is empty. */
  lemma AllReleased(bs: seq<bv8>, live: map<nat, nat>)
    requires Refines(bs, live) && live == map[]
    ensures forall b | 0 <= b < |bs| :: bs[b] == 0
  {
    hide Bit;
    forall b | 0 <= b < |bs| ensures bs[b] == 0 {
      BlockCells(bs, b);
      forall x | 8 * b <= x < 8 * b + 8 ensures !Used(bs, x) {
        assert !Owned(live, x);
      }
    }
  }

  // ---------------------------------------------------------------- the allocator

  class Allocator {
    const blocks: array<bv8>
    var firstFreeBlock: nat
    var lastUsedBlock: nat
    /** The live allocations: size by start address. */
    ghost var live: map<nat, nat>

    ghost function Bitmap(): seq<bv8>
      reads this, blocks
    {
      blocks[..]
    }

    ghost predicate Valid()
      reads this, blocks
    {
      && 8 * blocks.Length + 8 < NONE
      && Refines(Bitmap(), live)
      && FirstHint(Bitmap(), live, firstFreeBlock)
      && UsedBelow(Bitmap(), 8 * blocks.Length) == LiveBelow(live, 8 * blocks.Length)
    }

    constructor (size: nat)
      requires size < NONE - 16
      ensures Valid() && live == map[] && LastHint(Bitmap(), lastUsedBlock)
      ensures blocks.Length == (size + 7) / 8 && fresh(blocks)
    {
      var n := (size + 7) / 8;
      blocks := new bv8[n](i => 0);
      firstFreeBlock, lastUsedBlock, live := 0, 0, map[];
      new;
      forall x: nat ensures !Used(Bitmap(), x) && !Owned(live, x) {
        if x / 8 < n { Whole(x % 8); }
      }
      NothingUsed(Bitmap(), 8 * n);
    }

    /** The first free run from block firstBlock on is marked, if there is one. */
    method AllocateFrom(firstBlock: nat, size: nat) returns (addr: nat)
      requires 8 * blocks.Length < NONE && size > 0
      modifies blocks
      ensures addr == Search(old(Bitmap()), firstBlock, size)
      ensures addr == NONE ==> Bitmap() == old(Bitmap())
      ensures addr != NONE ==> Free(old(Bitmap()), addr, size) && Marked(old(Bitmap()), Bitmap(), addr, size)
    {
      hide Bit, Log2, Low, Up, Used, Marked, Search, Feasible, Free;
      ghost var bs := Bitmap();
      var i := firstBlock;
      while i < blocks.Length
        invariant Bitmap() == bs && Search(bs, i, size) == Search(bs, firstBlock, size)
        decreases blocks.Length - i
      {
        SearchSteps(bs, i, size);
        if blocks[i] == 0xFF {
          i := i + 1;
          continue;
        }
        var pos := Log2(blocks[i]);
        var remaining := size - Min(8 - pos, size);
        var fullBlocks := remaining / 8;
        var j := i + 1;
        while j < Min(blocks.Length, i + 1 + fullBlocks) && blocks[j] == 0
          invariant i < j <= Min(blocks.Length, i + 1 + fullBlocks) || j == i + 1
          invariant Bitmap() == bs && forall k | i < k < j :: bs[k] == 0
        {
          j := j + 1;
        }
        if j < i + 1 + fullBlocks {
          TooFewBlocks(bs, i, j, size);
          i := j;
          continue;
        }
        remaining := remaining - 8 * fullBlocks;
        if remaining != 0 && (j >= blocks.Length || blocks[j] & Low(remaining) != 0) {
          TooFewCells(bs, i, j, size);
          i := j;
          continue;
        }
        RunFits(bs, i, j, size);
        RunLength(bs, i, size);
        MarkRun(i, pos, j, remaining, size);
        return 8 * i + pos;
      }
      SearchSteps(bs, i, size);
      addr := NONE;
    }

    /** Marks a run that starts in block i, covers the blocks up to j and the first `remaining` cells of block j. */
    method MarkRun(i: nat, pos: nat, j: nat, remaining: nat, size: nat)
      requires i < j <= blocks.Length && pos <= 8 && remaining < 8 && (remaining > 0 ==> j < blocks.Length)
      requires var a := 8 * i + pos;
               if j == i + 1 && remaining == 0 then a + size <= 8 * j else a + size == 8 * j + remaining
      modifies blocks
      ensures Marked(old(Bitmap()), Bitmap(), 8 * i + pos, size)
    {
      hide Bit, Low, Up;
      ghost var bs, a := Bitmap(), 8 * i + pos;
      ghost var first := bs[i] | Up(Low(Min(size, 8)), pos);
      blocks[i] := blocks[i] | Up(Low(Min(size, 8)), pos);
      MarkedBlock(bs[i], i, pos, Min(size, 8), a, size);
      for k := i + 1 to j
        invariant forall b | 0 <= b < blocks.Length ::
            blocks[b] == if b == i then first else if i < b < k then 0xFF else bs[b]
      {
        blocks[k] := 0xFF;
      }
      if remaining > 0 {
        blocks[j] := blocks[j] | Low(remaining);
      }
      forall b | 0 <= b < |bs| ensures BlockMarked(bs[b], Bitmap()[b], b, a, size) {
        if b != i { MarkedBlock(bs[b], b, 0, remaining, a, size); }
      }
      BlocksMarked(bs, Bitmap(), a, size);
    }

    /** Where the search starts. */
    function Start(highestAddr: bool, alignBlock: bool): nat
      reads this, blocks
    {
      var start := if highestAddr then lastUsedBlock else firstFreeBlock;
      if alignBlock then SkipUsed(blocks[..], start) else start
    }

    /**
     * Allocates `size` cells. The hints are updated as the code does it, with 32-bit addresses, even on failure.
     */
    method Allocate(size: nat, highestAddr: bool, alignBlock: bool) returns (addr: nat)
      requires Valid() && size < WORDS
      modifies this, blocks
      ensures Valid()
      ensures size == 0 ==> addr == NONE && lastUsedBlock == old(lastUsedBlock)
      ensures size > 0 ==> addr == Search(old(Bitmap()), old(Start(highestAddr, alignBlock)), size)
      ensures size > 0 && !highestAddr && !alignBlock ==> addr == Search(old(Bitmap()), 0, size)
      ensures addr == NONE ==> Bitmap() == old(Bitmap()) && live == old(live)
      ensures addr != NONE ==> Free(old(Bitmap()), addr, size) && Marked(old(Bitmap()), Bitmap(), addr, size)
      ensures addr != NONE ==> addr !in old(live) && live == old(live)[addr := size]
      ensures addr != NONE && highestAddr ==> addr >= 8 * old(lastUsedBlock)
      ensures size > 0 ==> lastUsedBlock == Larger(old(lastUsedBlock), (addr + size - 1) % WORDS / 8)
      ensures size > 0 ==> firstFreeBlock == FirstAfter(Bitmap(), old(firstFreeBlock), addr, size)
      ensures size == 0 ==> firstFreeBlock == old(firstFreeBlock)
      ensures addr != NONE && LastHint(old(Bitmap()), old(lastUsedBlock)) ==> LastHint(Bitmap(), lastUsedBlock)
    {
      hide Refines, LastHint, UsedBelow, LiveBelow, Search, FirstAfter, SkipUsed, Used, Marked, FirstHint;
      if size == 0 {
        return NONE;
      }
      var startBlock := firstFreeBlock;
      if highestAddr {
        startBlock := lastUsedBlock;
      }
      if alignBlock {
        startBlock := FindEmpty(startBlock);
      }
      HintFindsSame(Bitmap(), live, firstFreeBlock, size);
      SearchBehind(Bitmap(), startBlock, size);
      ghost var bs := Bitmap();
      addr := TakeRun(startBlock, size);
      PassFirst(addr, size);
      var lastAllocBlock := (addr + size - 1) % WORDS / 8;
      if addr != NONE && LastHint(bs, lastUsedBlock) {
        LastHintMarked(bs, Bitmap(), lastUsedBlock, addr, size);
        assert addr + size - 1 < WORDS;
      }
      if lastAllocBlock > lastUsedBlock {
        lastUsedBlock := lastAllocBlock;
      }
    }

    /** The search, and what its success means for the live allocations and the first hint. */
    method TakeRun(startBlock: nat, size: nat) returns (addr: nat)
      requires Valid() && size > 0
      modifies blocks, `live
      ensures addr == Search(old(Bitmap()), startBlock, size)
      ensures addr == NONE ==> Bitmap() == old(Bitmap()) && live == old(live)
      ensures addr != NONE ==> Free(old(Bitmap()), addr, size) && Marked(old(Bitmap()), Bitmap(), addr, size)
      ensures addr != NONE ==> addr !in old(live) && live == old(live)[addr := size]
      ensures Refines(Bitmap(), live) && UsedBelow(Bitmap(), 8 * blocks.Length) == LiveBelow(live, 8 * blocks.Length)
      ensures addr / 8 == firstFreeBlock ==> addr != NONE
      ensures FirstHint(Bitmap(), live, FirstAfter(Bitmap(), firstFreeBlock, addr, size))
    {
      assert firstFreeBlock <= blocks.Length;
      hide Refines, FirstHint, UsedBelow, LiveBelow, Search, SkipFull, Used, Marked;
      ghost var bs := Bitmap();
      addr := AllocateFrom(startBlock, size);
      if addr != NONE {
        AllocatedRefines(bs, Bitmap(), live, addr, size);
        AllocatedHint(bs, Bitmap(), live, firstFreeBlock, addr, size);
        CountMarked(bs, Bitmap(), addr, size, 8 * blocks.Length);
        SumAdded(live, addr, size, 8 * blocks.Length);
        live := live[addr := size];
      }
    }

    method FindEmpty(start: nat) returns (i: nat)
      ensures i == SkipUsed(Bitmap(), start)
    {
      i := start;
      while i < blocks.Length && blocks[i] != 0
        invariant SkipUsed(Bitmap(), i) == SkipUsed(Bitmap(), start)
      {
        i := i + 1;
      }
    }

    method PassFirst(addr: nat, size: nat)
      modifies `firstFreeBlock
      ensures firstFreeBlock == FirstAfter(Bitmap(), old(firstFreeBlock), addr, size)
    {
      if addr / 8 == firstFreeBlock {
        firstFreeBlock := firstFreeBlock + size / 8;
        AdvanceFirst();
      }
    }

    method AdvanceFirst()
      modifies `firstFreeBlock
      ensures firstFreeBlock == SkipFull(Bitmap(), old(firstFreeBlock))
    {
      while firstFreeBlock < blocks.Length && blocks[firstFreeBlock] == 0xFF
        invariant SkipFull(Bitmap(), firstFreeBlock) == SkipFull(Bitmap(), old(firstFreeBlock))
      {
        firstFreeBlock := firstFreeBlock + 1;
      }
    }

    /** Releases an allocation; at an address that is not in use nothing happens. */
    method Release(addr: nat, size: nat)
      requires Valid() && LastHint(Bitmap(), lastUsedBlock)
      requires (addr in live && live[addr] == size) || !Used(Bitmap(), addr)
      modifies this, blocks
      ensures Valid() && LastHint(Bitmap(), lastUsedBlock)
      ensures addr !in old(live) ==> Bitmap() == old(Bitmap()) && live == old(live)
      ensures addr in old(live) ==> Cleared(old(Bitmap()), Bitmap(), addr, size) && live == old(live) - {addr}
      ensures addr !in old(live) ==> firstFreeBlock == old(firstFreeBlock) && lastUsedBlock == old(lastUsedBlock)
      ensures addr in old(live) ==> firstFreeBlock == Min(addr / 8, old(firstFreeBlock))
                                    && lastUsedBlock == DropEmpty(Bitmap(), old(lastUsedBlock))
    {
      hide Bit, Low, Up, Log2;
      ghost var bs := Bitmap();
      assert addr in live ==> InRun(live, addr, addr) && Owned(live, addr);
      if addr / 8 >= blocks.Length || !Bit(blocks[addr / 8], addr % 8) {
        return;
      }
      assert Used(bs, addr);
      forall x | addr <= x < addr + size ensures Used(bs, x) {
        assert InRun(live, addr, x) && Owned(live, x);
      }
      assert addr + size <= 8 * blocks.Length by { assert Used(bs, addr + size - 1); }
      ClearRun(addr, size);
      ReleasedRefines(bs, Bitmap(), live, addr);
      ReleasedHint(bs, Bitmap(), live, firstFreeBlock, addr);
      CountCleared(bs, Bitmap(), addr, size, 8 * blocks.Length);
      LastHintCleared(bs, Bitmap(), lastUsedBlock, addr, size);
      ghost var left := live - {addr};
      SumAdded(left, addr, size, 8 * blocks.Length);
      assert left[addr := size] == live;
      live := left;
      if addr / 8 < firstFreeBlock {
        firstFreeBlock := addr / 8;
      }
      LowerLast();
    }

    method LowerLast()
      requires lastUsedBlock == 0 || lastUsedBlock < blocks.Length
      modifies `lastUsedBlock
      ensures lastUsedBlock == DropEmpty(Bitmap(), old(lastUsedBlock))
    {
      while lastUsedBlock > 0 && blocks[lastUsedBlock] == 0
        invariant lastUsedBlock == 0 || lastUsedBlock < blocks.Length
        invariant DropEmpty(Bitmap(), lastUsedBlock) == DropEmpty(Bitmap(), old(lastUsedBlock))
      {
        lastUsedBlock := lastUsedBlock - 1;
      }
    }

    method ClearRun(addr: nat, size: nat)
      requires size > 0 && addr + size <= 8 * blocks.Length
      modifies blocks
      ensures Cleared(old(Bitmap()), Bitmap(), addr, size)
    {
      var sizeInFirst := Min(8 - addr % 8, size);
      var rest := size - sizeInFirst;
      ClearBlocks(addr / 8, addr % 8, sizeInFirst, addr / 8 + 1 + rest / 8, rest - 8 * (rest / 8), size);
    }

    /** Clears a run: its part of block i, the blocks up to j and the first `remaining` cells of block j. */
    method ClearBlocks(i: nat, pos: nat, sizeInFirst: nat, j: nat, remaining: nat, size: nat)
      requires i < j <= blocks.Length && pos < 8 && remaining < 8 && (remaining > 0 ==> j < blocks.Length)
      requires sizeInFirst == Min(8 - pos, size)
      requires var a := 8 * i + pos;
               if j == i + 1 && remaining == 0 then a + size <= 8 * j else a + size == 8 * j + remaining
      modifies blocks
      ensures Cleared(old(Bitmap()), Bitmap(), 8 * i + pos, size)
    {
      hide Bit, Low, Up, Without;
      ghost var bs, a := Bitmap(), 8 * i + pos;
      ghost var first := Without(bs[i], Up(Low(sizeInFirst), pos));
      blocks[i] := Without(blocks[i], Up(Low(sizeInFirst), pos));
      ClearedBlock(bs[i], i, pos, sizeInFirst, a, size);
      for k := i + 1 to j
        invariant forall b | 0 <= b < blocks.Length ::
            blocks[b] == if b == i then first else if i < b < k then 0 else bs[b]
      {
        blocks[k] := 0;
      }
      if remaining > 0 {
        blocks[j] := Without(blocks[j], Low(remaining));
      }
      forall b | 0 <= b < |bs| ensures BlockCleared(bs[b], Bitmap()[b], b, a, size) {
        if b != i { ClearedBlock(bs[b], b, 0, remaining, a, size); }
      }
      BlocksCleared(bs, Bitmap(), a, size);
    }
  }

  function Larger(a: nat, b: nat): nat { if a > b then a else b }

  lemma {:induction false} NothingUsed(bs: seq<bv8>, n: nat)
    requires forall x: nat :: !Used(bs, x)
    ensures UsedBelow(bs, n) == 0 == LiveBelow(map[], n)
  {
    if n > 0 {
      NothingUsed(bs, n - 1);
    }
  }

  // ---------------------------------------------------------------- what the search and the hints promise

  /** The address found is the first feasible candidate; NONE is returned only if there is no feasible one. */
  lemma {:induction false} SearchIsLowest(bs: seq<bv8>, i: nat, size: nat)
    requires 8 * |bs| + 8 < NONE
    ensures var addr := Search(bs, i, size);
            if addr == NONE then forall b | i <= b < |bs| :: !Feasible(bs, b, size)
            else exists b :: i <= b < |bs| && Feasible(bs, b, size) && addr == Candidate(bs, b)
                             && forall e | i <= e < b :: !Feasible(bs, e, size)
    decreases |bs| - i
  {
    hide Feasible;
    if i < |bs| {
      CandidateBound(bs, i);
      if !Feasible(bs, i, size) {
        SearchIsLowest(bs, i + 1, size);
      }
    }
  }

  /** A failed allocation leaves a correct upper hint exactly if its wrapped end address stays inside the bitmap. */
  lemma {:induction false} FailureAndHint(bs: seq<bv8>, last: nat, size: nat)
    requires LastHint(bs, last) && 0 < size < WORDS && 8 * |bs| + 8 < NONE
    ensures LastHint(bs, Larger(last, (NONE + size - 1) % WORDS / 8))
       <==> size > 1 && ((size - 2) / 8 <= last || (size - 2) / 8 < |bs|)
  {
    assert (NONE + size - 1) % WORDS == if size == 1 then NONE else size - 2;
  }
}
