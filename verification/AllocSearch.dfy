/** The search of the storage allocator on its bitmap. */
module AllocSearch {
  import opened AllocBits

  /** The address that stands for failure. */
  const NONE: nat := 0xFFFF_FFFF

  const WORDS: nat := 0x1_0000_0000

  function Min(a: nat, b: nat): nat { if a < b then a else b }

  /** Cell x is marked in the bitmap. */
  predicate Used(bs: seq<bv8>, x: nat) {
    x / 8 < |bs| && Bit(bs[x / 8], x % 8)
  }

  /** The n cells from a on exist and are not marked. */
  predicate Free(bs: seq<bv8>, a: nat, n: nat) {
    a + n <= 8 * |bs| && forall x | a <= x < a + n :: !Used(bs, x)
  }

  /** The only cell of block i, or the one behind it, from which an allocation is tried: behind the highest used one. */
  function Candidate(bs: seq<bv8>, i: nat): nat
    requires i < |bs|
  {
    8 * i + Log2(bs[i])
  }

  predicate Feasible(bs: seq<bv8>, i: nat, size: nat)
    requires i < |bs|
  {
    bs[i] != 0xFF && Free(bs, Candidate(bs, i), size)
  }

  /** The plain search: the first block from i on whose candidate start has a free run behind it. */
  function Search(bs: seq<bv8>, i: nat, size: nat): nat
    decreases |bs| - i
  {
    if i >= |bs| then NONE
    else if Feasible(bs, i, size) then Candidate(bs, i)
    else Search(bs, i + 1, size)
  }

  // ---------------------------------------------------------------- cells and blocks

  lemma CellOf(i: nat, k: nat)
    requires k < 8
    ensures (8 * i + k) / 8 == i && (8 * i + k) % 8 == k
  {
  }

  lemma {:induction false} UsedAt(bs: seq<bv8>, i: nat, k: nat)
    requires i < |bs| && k < 8
    ensures Used(bs, 8 * i + k) == Bit(bs[i], k)
  {
    CellOf(i, k);
  }

  /** The cells of an empty block are free, those of a full one used, and some cell of any other is used. */
  lemma BlockCells(bs: seq<bv8>, i: nat)
    requires i < |bs|
    ensures bs[i] == 0 <==> forall x | 8 * i <= x < 8 * i + 8 :: !Used(bs, x)
    ensures bs[i] == 0xFF <==> forall x | 8 * i <= x < 8 * i + 8 :: Used(bs, x)
  {
    hide Bit;
    Empty(bs[i]);
    Full(bs[i]);
    forall k | 0 <= k < 8 ensures Used(bs, 8 * i + k) == Bit(bs[i], k) {
      UsedAt(bs, i, k);
    }
    forall x | 8 * i <= x < 8 * i + 8 ensures Used(bs, x) == Bit(bs[i], x - 8 * i) {
      assert x == 8 * i + (x - 8 * i);
    }
    assert (forall x | 8 * i <= x < 8 * i + 8 :: !Used(bs, x)) ==> forall k | 0 <= k < 8 :: !Bit(bs[i], k) by {
      if forall x | 8 * i <= x < 8 * i + 8 :: !Used(bs, x) {
        forall k | 0 <= k < 8 ensures !Bit(bs[i], k) { assert !Used(bs, 8 * i + k); }
      }
    }
    assert (forall x | 8 * i <= x < 8 * i + 8 :: Used(bs, x)) ==> forall k | 0 <= k < 8 :: Bit(bs[i], k) by {
      if forall x | 8 * i <= x < 8 * i + 8 :: Used(bs, x) {
        forall k | 0 <= k < 8 ensures Bit(bs[i], k) { assert Used(bs, 8 * i + k); }
      }
    }
  }

  /** Behind the candidate start the block is free; the cell before it, if in the block, is used. */
  lemma {:induction false} CandidateCells(bs: seq<bv8>, i: nat)
    requires i < |bs|
    ensures forall x | Candidate(bs, i) <= x < 8 * i + 8 :: !Used(bs, x)
    ensures Candidate(bs, i) > 8 * i ==> Used(bs, Candidate(bs, i) - 1)
    ensures bs[i] == 0 ==> Candidate(bs, i) == 8 * i
  {
    hide Bit;
    forall k | 0 <= k < 8 ensures Used(bs, 8 * i + k) == Bit(bs[i], k)
    ensures k >= Log2(bs[i]) ==> !Bit(bs[i], k)
    ensures k + 1 == Log2(bs[i]) ==> Bit(bs[i], k) {
      UsedAt(bs, i, k);
      Log2Bit(bs[i], k);
    }
    forall x | Candidate(bs, i) <= x < 8 * i + 8 ensures !Used(bs, x) {
      assert x == 8 * i + (x - 8 * i);
    }
    if Candidate(bs, i) > 8 * i {
      assert Used(bs, 8 * i + (Log2(bs[i]) - 1));
    }
  }

  /**
   * A cell x from block j on that is used, or does not exist, and that the run of block i would need: then no block
   * from i up to j has a free run, provided those in between are empty.
   */
  lemma NoneUpTo(bs: seq<bv8>, i: nat, j: nat, x: nat, size: nat)
    requires i < j <= |bs| && 8 * j <= x < Candidate(bs, i) + size
    requires Used(bs, x) || x >= 8 * |bs|
    requires forall k | i < k < j :: bs[k] == 0
    ensures Search(bs, i, size) == Search(bs, j, size)
    decreases j - i
  {
    CandidateCells(bs, i);
    assert !Feasible(bs, i, size);
    if i + 1 < j {
      CandidateCells(bs, i + 1);
      NoneUpTo(bs, i + 1, j, x, size);
    }
  }

  // ---------------------------------------------------------------- marking and clearing runs

  /** Exactly the n cells from a on have been marked, and nothing else has changed. */
  ghost predicate Marked(bs: seq<bv8>, bs': seq<bv8>, a: nat, n: nat) {
    |bs'| == |bs| && forall x: nat :: Used(bs', x) <==> Used(bs, x) || a <= x < a + n
  }

  /** Exactly the n cells from a on have been cleared. */
  ghost predicate Cleared(bs: seq<bv8>, bs': seq<bv8>, a: nat, n: nat) {
    |bs'| == |bs| && forall x: nat :: Used(bs', x) <==> Used(bs, x) && !(a <= x < a + n)
  }

  /** What marking a run does to block k. */
  predicate BlockMarked(b: bv8, b': bv8, k: nat, a: nat, n: nat) {
    forall p | 0 <= p < 8 :: Bit(b', p) <==> Bit(b, p) || a <= 8 * k + p < a + n
  }

  predicate BlockCleared(b: bv8, b': bv8, k: nat, a: nat, n: nat) {
    forall p | 0 <= p < 8 :: Bit(b', p) <==> Bit(b, p) && !(a <= 8 * k + p < a + n)
  }

  lemma {:induction false} BlocksMarked(bs: seq<bv8>, bs': seq<bv8>, a: nat, n: nat)
    requires |bs'| == |bs| && a + n <= 8 * |bs|
    requires forall k | 0 <= k < |bs| :: BlockMarked(bs[k], bs'[k], k, a, n)
    ensures Marked(bs, bs', a, n)
  {
    hide Bit;
    forall x: nat ensures Used(bs', x) <==> Used(bs, x) || a <= x < a + n {
      if x / 8 < |bs| { assert BlockMarked(bs[x / 8], bs'[x / 8], x / 8, a, n); }
    }
  }

  lemma {:induction false} BlocksCleared(bs: seq<bv8>, bs': seq<bv8>, a: nat, n: nat)
    requires |bs'| == |bs|
    requires forall k | 0 <= k < |bs| :: BlockCleared(bs[k], bs'[k], k, a, n)
    ensures Cleared(bs, bs', a, n)
  {
    hide Bit;
    forall x: nat ensures Used(bs', x) <==> Used(bs, x) && !(a <= x < a + n) {
      if x / 8 < |bs| { assert BlockCleared(bs[x / 8], bs'[x / 8], x / 8, a, n); }
    }
  }

  /** The first block of a run that starts at bit p, its whole blocks, the rest of the run, and what lies outside. */
  lemma {:induction false} MarkedBlock(b: bv8, k: nat, p: nat, n: nat, a: nat, size: nat)
    requires p <= 8 && n <= 8
    ensures a == 8 * k + p && n == Min(size, 8) ==> BlockMarked(b, b | Up(Low(n), p), k, a, size)
    ensures a <= 8 * k && 8 * k + 8 <= a + size ==> BlockMarked(b, 0xFF, k, a, size)
    ensures p == 0 && a <= 8 * k && 8 * k + n == a + size ==> BlockMarked(b, b | Low(n), k, a, size)
    ensures a >= 8 * k + 8 || a + size <= 8 * k ==> BlockMarked(b, b, k, a, size)
  {
    hide Bit, Up, Low;
    assert p == 0 ==> Up(Low(n), p) == Low(n) by { UpZero(n); }
    var marked := b | Up(Low(n), p);
    forall q | 0 <= q < 8
      ensures Bit(marked, q) <==> Bit(b, q) || p <= q < p + n
      ensures Bit(0xFF, q)
    {
      MarkBits(b, n, p, q);
      Whole(q);
    }
  }

  lemma {:induction false} ClearedBlock(b: bv8, k: nat, p: nat, n: nat, a: nat, size: nat)
    requires p <= 8 && n <= 8
    ensures a == 8 * k + p && n == Min(8 - p, size) ==> BlockCleared(b, Without(b, Up(Low(n), p)), k, a, size)
    ensures a <= 8 * k && 8 * k + 8 <= a + size ==> BlockCleared(b, 0, k, a, size)
    ensures p == 0 && a <= 8 * k && 8 * k + n == a + size ==> BlockCleared(b, Without(b, Low(n)), k, a, size)
    ensures a >= 8 * k + 8 || a + size <= 8 * k ==> BlockCleared(b, b, k, a, size)
  {
    hide Bit, Up, Low, Without;
    assert p == 0 ==> Up(Low(n), p) == Low(n) by { UpZero(n); }
    var cleared := Without(b, Up(Low(n), p));
    forall q | 0 <= q < 8
      ensures Bit(cleared, q) <==> Bit(b, q) && !(p <= q < p + n)
      ensures !Bit(0, q)
    {
      MarkBits(b, n, p, q);
      Whole(q);
    }
  }

  lemma UpZero(n: nat)
    requires n <= 8
    ensures Up(Low(n), 0) == Low(n)
  {
  }

  // ---------------------------------------------------------------- one try of the search

  /** How many cells of a run behind block i's candidate start lie beyond block i. */
  function Beyond(bs: seq<bv8>, i: nat, size: nat): nat
    requires i < |bs|
  {
    size - Min(8 - Log2(bs[i]), size)
  }

  lemma RunLength(bs: seq<bv8>, i: nat, size: nat)
    requires i < |bs|
    ensures Beyond(bs, i, size) > 0 ==> Candidate(bs, i) + size == 8 * i + 8 + Beyond(bs, i, size)
    ensures Beyond(bs, i, size) == 0 ==> Candidate(bs, i) + size <= 8 * i + 8
  {
  }

  /** Block j, needed whole by the run of block i, is in use or does not exist: the search goes on at j. */
  lemma TooFewBlocks(bs: seq<bv8>, i: nat, j: nat, size: nat)
    requires i < j <= |bs| && j < i + 1 + Beyond(bs, i, size) / 8
    requires forall k | i < k < j :: bs[k] == 0
    requires j < |bs| ==> bs[j] != 0
    ensures Search(bs, i, size) == Search(bs, j, size)
  {
    RunLength(bs, i, size);
    if j == |bs| {
      NoneUpTo(bs, i, j, 8 * j, size);
    } else {
      BlockCells(bs, j);
      var x :| 8 * j <= x < 8 * j + 8 && Used(bs, x);
      NoneUpTo(bs, i, j, x, size);
    }
  }

  /** The last, partly needed block j is in use there or does not exist: the search goes on at j. */
  lemma TooFewCells(bs: seq<bv8>, i: nat, j: nat, size: nat)
    requires i < j <= |bs| && j == i + 1 + Beyond(bs, i, size) / 8 && Beyond(bs, i, size) % 8 != 0
    requires forall k | i < k < j :: bs[k] == 0
    requires j < |bs| ==> bs[j] & Low(Beyond(bs, i, size) % 8) != 0
    ensures Search(bs, i, size) == Search(bs, j, size)
  {
    RunLength(bs, i, size);
    if j == |bs| {
      NoneUpTo(bs, i, j, 8 * j, size);
    } else {
      var k := SomeLow(bs[j], Beyond(bs, i, size) % 8);
      UsedAt(bs, j, k);
      NoneUpTo(bs, i, j, 8 * j + k, size);
    }
  }

  /** Otherwise the run is free. */
  lemma {:induction false} RunFits(bs: seq<bv8>, i: nat, j: nat, size: nat)
    requires i < |bs| && bs[i] != 0xFF && j == i + 1 + Beyond(bs, i, size) / 8 <= |bs|
    requires forall k | i < k < j :: bs[k] == 0
    requires var rest := Beyond(bs, i, size) % 8; rest != 0 ==> j < |bs| && bs[j] & Low(rest) == 0
    ensures Feasible(bs, i, size)
  {
    hide Bit, Low;
    var rest := Beyond(bs, i, size) % 8;
    RunLength(bs, i, size);
    CandidateCells(bs, i);
    forall x | Candidate(bs, i) <= x < Candidate(bs, i) + size ensures x < 8 * |bs| && !Used(bs, x) {
      if 8 * i + 8 <= x < 8 * j {
        BlockCells(bs, x / 8);
      } else if x >= 8 * j {
        LowFree(bs[j], rest);
        UsedAt(bs, j, x - 8 * j);
      }
    }
  }

  lemma SearchSteps(bs: seq<bv8>, i: nat, size: nat)
    ensures i >= |bs| ==> Search(bs, i, size) == NONE
    ensures i < |bs| && bs[i] == 0xFF ==> Search(bs, i, size) == Search(bs, i + 1, size)
    ensures i < |bs| && Feasible(bs, i, size) ==>
              Search(bs, i, size) == Candidate(bs, i) && Free(bs, Candidate(bs, i), size)
  {
  }
}
