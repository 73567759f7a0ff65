/** The storage allocation pass: a linear scan over the code that gives symbols cells for their live ranges. */
module StoragePass {
  import opened AllocSearch
  import opened Alloc

  datatype Kind = CellAccess | LoadAddress | Other

  /** An instruction with the symbol it refers to, if any: its number plus one, or 0. */
  datatype Instr = Instr(kind: Kind, ref: nat, offset: nat)

  /** `last` is the symbol's last access; `stay` symbols are never released. */
  datatype Symbol = Symbol(size: nat, high: bool, isArray: bool, stay: bool, last: nat, placed: bool, addr: nat)

  /** An array has to be allocated before the instruction at this position. */
  datatype ArrayDecl = ArrayDecl(at: nat, sym: nat)

  const OFFSETS := 512

  function Patched(i: Instr, addr: nat): Instr {
    Instr(i.kind, 0,
          match i.kind
          case CellAccess => (i.offset + addr) % OFFSETS
          case LoadAddress => addr
          case Other => i.offset)
  }

  // ---------------------------------------------------------------- a run of the pass, seen from outside

  /** The symbols the pass has placed, with their base addresses. */
  function Homes(pre: seq<bool>, syms: seq<Symbol>): map<nat, nat>
    requires |pre| == |syms|
  {
    map s: nat | s < |syms| && !pre[s] && syms[s].placed :: syms[s].addr
  }

  /** Everything but where a symbol is. */
  predicate SameDeclarations(syms: seq<Symbol>, syms': seq<Symbol>) {
    |syms'| == |syms| && forall s | 0 <= s < |syms| ::
        syms'[s].(placed := syms[s].placed, addr := syms[s].addr) == syms[s]
  }

  predicate RefersTo(code: seq<Instr>, k: nat, s: nat) {
    k < |code| && code[k].ref == s + 1
  }

  /** Every reference to a symbol lies within its last access, unless it stays. */
  ghost predicate Bounded(code: seq<Instr>, syms: seq<Symbol>) {
    forall k: nat, s: nat | RefersTo(code, k, s) && s < |syms| :: syms[s].stay || k <= syms[s].last
  }

  /** Arrays are declared, each once and in order of position, before they are used. */
  ghost predicate Declared(code: seq<Instr>, start: nat, arrays: seq<ArrayDecl>, syms: seq<Symbol>) {
    && (forall d | 0 <= d < |arrays| :: arrays[d].at >= start && arrays[d].sym < |syms|)
    && (forall d, e | 0 <= d < e < |arrays| :: arrays[d].at <= arrays[e].at && arrays[d].sym != arrays[e].sym)
    && (forall d, k: nat | 0 <= d < |arrays| && RefersTo(code, k, arrays[d].sym) :: arrays[d].at <= k)
  }

  /** The cells of symbol s at base address b. */
  predicate InHome(syms: seq<Symbol>, s: nat, b: nat, x: nat) {
    s < |syms| && b <= x < b + syms[s].size
  }

  /** At no instruction do two placed symbols share a cell; each lies between the reserved cells and the limit. */
  ghost predicate Apart(homes: seq<map<nat, nat>>, syms: seq<Symbol>, reserved: nat, limit: nat) {
    forall m, s, t, x: nat | 0 <= m < |homes| && s in homes[m] && t in homes[m]
                        && InHome(syms, s, homes[m][s], x) && InHome(syms, t, homes[m][t], x) ::
      s == t && reserved <= x < limit
  }

  /** A symbol has one base address wherever it is placed. */
  ghost predicate OneBase(homes: seq<map<nat, nat>>, base: map<nat, nat>) {
    forall m, s | 0 <= m < |homes| && s in homes[m] :: s in base && base[s] == homes[m][s]
  }

  /** A symbol is placed at all instructions between any two that refer to it, and at these. */
  ghost predicate Throughout(code: seq<Instr>, start: nat, homes: seq<map<nat, nat>>, pre: seq<bool>) {
    forall s: nat, k: nat, m: nat, j: nat | RefersTo(code, k, s) && RefersTo(code, j, s) && s < |pre| && !pre[s]
                                            && start <= k <= m <= j < |homes| ::
      s in homes[m]
  }

  /** Behind a reference that is its last access a symbol holds no cells any more, unless it stays. */
  ghost predicate Freed(code: seq<Instr>, start: nat, homes: seq<map<nat, nat>>, pre: seq<bool>, syms: seq<Symbol>)
    requires |pre| == |syms|
  {
    forall s: nat, m: nat | LastUse(code, start, pre, syms, s) && syms[s].last < m < |homes| :: s !in homes[m]
  }

  /** Symbol s, placed by the pass and not staying, is last accessed by a reference. */
  predicate LastUse(code: seq<Instr>, start: nat, pre: seq<bool>, syms: seq<Symbol>, s: nat)
    requires |pre| == |syms|
  {
    s < |syms| && !pre[s] && !syms[s].stay && start <= syms[s].last && RefersTo(code, syms[s].last, s)
  }

  /** An instruction that referred to a symbol refers to cells by number now; offsets of accesses have nine bits. */
  predicate PointsTo(c: Instr, c': Instr, addr: nat) {
    && c'.kind == c.kind && c'.ref == 0
    && (c.kind.CellAccess? ==> c'.offset == (addr + c.offset) % 512)
    && (c.kind.LoadAddress? ==> c'.offset == addr)
    && (c.kind.Other? ==> c'.offset == c.offset)
  }

  /** A reference has been patched with its symbol's base address, or with the fixed one the symbol always had. */
  predicate PatchedAt(c: Instr, c': Instr, pre: seq<bool>, syms: seq<Symbol>, base: map<nat, nat>)
    requires |pre| == |syms|
  {
    if c.ref == 0 || c.ref > |syms| then c' == c
    else if pre[c.ref - 1] then PointsTo(c, c', syms[c.ref - 1].addr)
    else c.ref - 1 in base && PointsTo(c, c', base[c.ref - 1])
  }

  /** ... all of them from `start` up to n. */
  ghost predicate AllPatched(code: seq<Instr>, code': seq<Instr>, start: nat, n: nat, pre: seq<bool>, syms: seq<Symbol>,
                             base: map<nat, nat>)
    requires |pre| == |syms|
  {
    && |code'| == |code|
    && (forall k | start <= k < n && k < |code| :: PatchedAt(code[k], code'[k], pre, syms, base))
    && (forall k | 0 <= k < |code| && !(start <= k < n) :: code'[k] == code[k])
  }

  // ---------------------------------------------------------------- the cells accessed

  /** An access to one of the cells of symbol s, which the pass has placed, and whose address fits nine bits. */
  ghost predicate AccessInside(code: seq<Instr>, start: nat, k: nat, s: nat, pre: seq<bool>, syms: seq<Symbol>,
                               base: map<nat, nat>)
    requires |pre| == |syms|
  {
    && start <= k && RefersTo(code, k, s) && code[k].kind.CellAccess?
    && s < |syms| && !pre[s] && code[k].offset < syms[s].size
    && (s in base ==> base[s] + code[k].offset < 512)
  }

  /**
   * Instructions that access a symbol name the cell at their offset behind its base address; that is one of the
   * symbol's own cells, and not a reserved one. Instructions that load its address load the base address.
   */
  ghost predicate AccessesOwn(code: seq<Instr>, code': seq<Instr>, start: nat, pre: seq<bool>, syms: seq<Symbol>,
                              base: map<nat, nat>, reserved: nat, limit: nat)
    requires |pre| == |syms| && |code'| == |code|
  {
    && (forall k: nat, s: nat | AccessInside(code, start, k, s, pre, syms, base) ::
          && s in base && code'[k].offset == base[s] + code[k].offset
          && InHome(syms, s, base[s], code'[k].offset) && reserved <= code'[k].offset < limit)
    && (forall k: nat, s: nat | start <= k && RefersTo(code, k, s) && s < |syms| && !pre[s] ::
          s in base && (code[k].kind.LoadAddress? ==> code'[k].offset == base[s]))
  }

  /** Accesses to two symbols that are placed at the same instruction name different cells. */
  ghost predicate AccessesApart(code: seq<Instr>, code': seq<Instr>, start: nat, pre: seq<bool>, syms: seq<Symbol>,
                                base: map<nat, nat>, homes: seq<map<nat, nat>>)
    requires |pre| == |syms| && |code'| == |code|
  {
    forall j: nat, k: nat, s: nat, t: nat, m: nat |
        && AccessInside(code, start, j, s, pre, syms, base) && AccessInside(code, start, k, t, pre, syms, base)
        && s != t && m < |homes| && s in homes[m] && t in homes[m] ::
      code'[j].offset != code'[k].offset
  }

  lemma NotShared(homes: seq<map<nat, nat>>, syms: seq<Symbol>, reserved: nat, limit: nat, m: nat, s: nat, t: nat,
                  x: nat, y: nat)
    requires Apart(homes, syms, reserved, limit) && m < |homes| && s in homes[m] && t in homes[m] && s != t
    requires InHome(syms, s, homes[m][s], x) && InHome(syms, t, homes[m][t], y)
    ensures x != y
  {
  }

  /** This is what the patches and the homes come to. */
  lemma {:induction false} PatchedAccesses(code: seq<Instr>, code': seq<Instr>, start: nat, pre: seq<bool>,
                                           syms: seq<Symbol>, base: map<nat, nat>, homes: seq<map<nat, nat>>,
                                           reserved: nat, limit: nat)
    requires |pre| == |syms| && |homes| == |code|
    requires AllPatched(code, code', start, |code|, pre, syms, base)
    requires OneBase(homes, base) && Throughout(code, start, homes, pre) && Apart(homes, syms, reserved, limit)
    ensures AccessesOwn(code, code', start, pre, syms, base, reserved, limit)
    ensures AccessesApart(code, code', start, pre, syms, base, homes)
  {
    forall k: nat, s: nat | AccessInside(code, start, k, s, pre, syms, base)
      ensures s in base && code'[k].offset == base[s] + code[k].offset && InHome(syms, s, base[s], code'[k].offset)
      ensures reserved <= code'[k].offset < limit
    {
      assert PatchedAt(code[k], code'[k], pre, syms, base);
      assert s in homes[k] && homes[k][s] == base[s];
      assert InHome(syms, s, homes[k][s], code'[k].offset);
    }
    forall k: nat, s: nat | start <= k && RefersTo(code, k, s) && s < |syms| && !pre[s]
      ensures s in base && (code[k].kind.LoadAddress? ==> code'[k].offset == base[s])
    {
      assert PatchedAt(code[k], code'[k], pre, syms, base);
    }
    forall j: nat, k: nat, s: nat, t: nat, m: nat |
        && AccessInside(code, start, j, s, pre, syms, base) && AccessInside(code, start, k, t, pre, syms, base)
        && s != t && m < |homes| && s in homes[m] && t in homes[m]
      ensures code'[j].offset != code'[k].offset
    {
      assert homes[m][s] == base[s] && homes[m][t] == base[t];
      NotShared(homes, syms, reserved, limit, m, s, t, code'[j].offset, code'[k].offset);
    }
  }

  // ---------------------------------------------------------------- the invariant of the scan

  /** What is allocated agrees with the allocator; the call frame's cells are its first allocation. */
  ghost predicate Consistent(pre: seq<bool>, syms: seq<Symbol>, live: map<nat, nat>, reserved: nat)
    requires |pre| == |syms|
  {
    && 0 in live && live[0] == reserved
    && (forall s | 0 <= s < |syms| && !pre[s] && syms[s].placed ::
          syms[s].addr != 0 && syms[s].addr in live && live[syms[s].addr] == syms[s].size)
    && (forall s, t | 0 <= s < t < |syms| && !pre[s] && !pre[t] && syms[s].placed && syms[t].placed ::
          syms[s].addr != syms[t].addr)
  }

  /** Sizes are positive 32-bit numbers. */
  predicate Sized(syms: seq<Symbol>) {
    forall s | 0 <= s < |syms| :: 0 < syms[s].size < WORDS
  }

  lemma SizedStill(syms: seq<Symbol>, s: nat, sym: Symbol)
    requires Sized(syms) && s < |syms| && sym.size == syms[s].size
    ensures Sized(syms[s := sym])
  {
  }

  /** The pass has placed symbol s, and it holds cells now. */
  predicate Held(pre: seq<bool>, syms: seq<Symbol>, s: nat)
    requires |pre| == |syms|
  {
    s < |syms| && !pre[s] && syms[s].placed
  }

  /** Nothing is allocated but the reserved cells and what placed symbols hold. */
  ghost predicate Backed(pre: seq<bool>, syms: seq<Symbol>, live: map<nat, nat>)
    requires |pre| == |syms|
  {
    forall a | a in live && a != 0 :: exists s: nat :: Held(pre, syms, s) && syms[s].addr == a
  }

  /** The cells marked in the bitmap are exactly the reserved ones and those held by placed symbols. */
  ghost predicate Occupied(bs: seq<bv8>, pre: seq<bool>, syms: seq<Symbol>, reserved: nat)
    requires |pre| == |syms|
  {
    forall x: nat :: Used(bs, x) <==>
                       x < reserved || exists s: nat :: Held(pre, syms, s) && InHome(syms, s, syms[s].addr, x)
  }

  lemma OccupiedBy(bs: seq<bv8>, live: map<nat, nat>, pre: seq<bool>, syms: seq<Symbol>, reserved: nat)
    requires |pre| == |syms| && Refines(bs, live) && Consistent(pre, syms, live, reserved) && Backed(pre, syms, live)
    ensures Occupied(bs, pre, syms, reserved)
  {
    forall x: nat
      ensures Used(bs, x) <==> x < reserved || exists s: nat :: Held(pre, syms, s) && InHome(syms, s, syms[s].addr, x)
    {
      if Used(bs, x) {
        var a :| InRun(live, a, x);
        if a != 0 {
          var s: nat :| Held(pre, syms, s) && syms[s].addr == a;
          assert InHome(syms, s, syms[s].addr, x);
        }
      }
      if x < reserved {
        assert InRun(live, 0, x);
      }
      if s: nat :| Held(pre, syms, s) && InHome(syms, s, syms[s].addr, x) {
        assert InRun(live, syms[s].addr, x);
      }
    }
  }

  /** The allocator finds no place for the symbol, from wherever it searches for symbols of its kind. */
  ghost predicate NoRoom(bs: seq<bv8>, sym: Symbol) {
    exists last: nat :: LastHint(bs, last) && SearchFor(bs, sym, last) == NONE
  }

  /** High symbols are searched for from the last block in use, arrays from the next empty block. */
  function SearchFor(bs: seq<bv8>, sym: Symbol, last: nat): nat {
    var start := if sym.high then last else 0;
    Search(bs, if sym.isArray then SkipUsed(bs, start) else start, sym.size)
  }

  lemma {:induction false} SkipFrom(bs: seq<bv8>, i: nat, j: nat)
    requires i <= j <= |bs| && forall b | i <= b < j :: bs[b] != 0
    ensures SkipUsed(bs, i) == SkipUsed(bs, j)
    decreases j - i
  {
    if i < j {
      SkipFrom(bs, i + 1, j);
    }
  }

  /** With nothing allocated the search finds the first cells, if there are enough. */
  lemma EmptySearch(bs: seq<bv8>, live: map<nat, nat>, n: nat)
    requires Refines(bs, live) && live == map[] && 0 < n
    ensures n <= 8 * |bs| ==> Search(bs, 0, n) == 0
  {
    if n <= 8 * |bs| {
      BlockCells(bs, 0);
      CandidateCells(bs, 0);
      assert forall x: nat :: !Owned(live, x);
      assert Feasible(bs, 0, n);
    }
  }

  /** The hint for the first free block does not change the outcome. */
  lemma SearchedFrom(bs: seq<bv8>, live: map<nat, nat>, first: nat, last: nat, sym: Symbol)
    requires Refines(bs, live) && FirstHint(bs, live, first) && 8 * |bs| < NONE && sym.size > 0
    ensures var start := if sym.high then last else first;
            Search(bs, if sym.isArray then SkipUsed(bs, start) else start, sym.size) == SearchFor(bs, sym, last)
  {
    if !sym.high && sym.isArray {
      forall b | 0 <= b < first ensures bs[b] != 0 {
        assert Skippable(bs, live, b);
        BlockCells(bs, b);
      }
      SkipFrom(bs, 0, first);
    } else if !sym.high {
      HintFindsSame(bs, live, first, sym.size);
    }
  }

  lemma HeldIsLive(pre: seq<bool>, syms: seq<Symbol>, live: map<nat, nat>, reserved: nat, s: nat)
    requires |pre| == |syms| && Consistent(pre, syms, live, reserved) && s < |syms| && !pre[s] && syms[s].placed
    ensures syms[s].addr in live && live[syms[s].addr] == syms[s].size
  {
  }

  lemma PlaceBacked(pre: seq<bool>, syms: seq<Symbol>, live: map<nat, nat>, s: nat, addr: nat)
    requires |pre| == |syms| && s < |syms| && !pre[s] && !syms[s].placed && Backed(pre, syms, live)
    ensures Backed(pre, syms[s := syms[s].(placed := true, addr := addr)], live[addr := syms[s].size])
  {
    var syms' := syms[s := syms[s].(placed := true, addr := addr)];
    var live' := live[addr := syms[s].size];
    forall a | a in live' && a != 0 ensures exists t: nat :: Held(pre, syms', t) && syms'[t].addr == a {
      if a == addr {
        assert Held(pre, syms', s);
      } else {
        var t: nat :| Held(pre, syms, t) && syms[t].addr == a;
        assert Held(pre, syms', t);
      }
    }
  }

  lemma ReleaseBacked(pre: seq<bool>, syms: seq<Symbol>, live: map<nat, nat>, s: nat)
    requires |pre| == |syms| && s < |syms| && Backed(pre, syms, live)
    ensures Backed(pre, syms[s := syms[s].(placed := false)], live - {syms[s].addr})
  {
    var syms' := syms[s := syms[s].(placed := false)];
    var live' := live - {syms[s].addr};
    forall a | a in live' && a != 0 ensures exists t: nat :: Held(pre, syms', t) && syms'[t].addr == a {
      var t: nat :| Held(pre, syms, t) && syms[t].addr == a;
      assert Held(pre, syms', t);
    }
  }

  /** `since` says at which instruction each symbol was placed; it stays placed up to its last access. */
  ghost predicate History(i: nat, pre: seq<bool>, syms: seq<Symbol>, base: map<nat, nat>, since: map<nat, nat>,
                          homes: seq<map<nat, nat>>)
    requires |pre| == |syms|
  {
    && since.Keys == base.Keys && |homes| == i && (forall s | s in since :: since[s] <= i)
    && (forall s | s in base :: s < |syms| && !pre[s])
    && (forall s | 0 <= s < |syms| && !pre[s] && syms[s].placed :: s in base && base[s] == syms[s].addr)
    && (forall s | s in base && !syms[s].placed :: !syms[s].stay && syms[s].last < i)
    && OneBase(homes, base)
    && (forall s, m | s in base && since[s] <= m < i && (syms[s].stay || m <= syms[s].last) :: s in homes[m])
  }

  /** The symbols whose address is fixed from the outset. */
  function Fixed(syms: seq<Symbol>): (pre: seq<bool>)
    ensures |pre| == |syms|
  {
    seq(|syms|, s requires 0 <= s < |syms| => syms[s].placed)
  }

  /** Symbol s has been placed at `addr` before instruction i. */
  lemma PlaceStep(i: nat, pre: seq<bool>, syms: seq<Symbol>, base: map<nat, nat>, since: map<nat, nat>,
                  homes: seq<map<nat, nat>>, live: map<nat, nat>, reserved: nat, s: nat, addr: nat)
    requires |pre| == |syms| && s < |syms| && !pre[s] && !syms[s].placed && s !in base && addr !in live
    requires Consistent(pre, syms, live, reserved) && History(i, pre, syms, base, since, homes)
    ensures var syms' := syms[s := syms[s].(placed := true, addr := addr)];
            && SameDeclarations(syms, syms')
            && Consistent(pre, syms', live[addr := syms[s].size], reserved)
            && History(i, pre, syms', base[s := addr], since[s := i], homes)
  {
  }

  /** Symbol s is released behind instruction i, its last access. */
  lemma ReleaseStep(i: nat, pre: seq<bool>, syms: seq<Symbol>, base: map<nat, nat>, since: map<nat, nat>,
                    homes: seq<map<nat, nat>>, live: map<nat, nat>, reserved: nat, s: nat)
    requires |pre| == |syms| && s < |syms| && !pre[s] && syms[s].placed && !syms[s].stay && syms[s].last < i
    requires Consistent(pre, syms, live, reserved) && History(i, pre, syms, base, since, homes)
    ensures var syms' := syms[s := syms[s].(placed := false)];
            && SameDeclarations(syms, syms')
            && Consistent(pre, syms', live - {syms[s].addr}, reserved)
            && History(i, pre, syms', base, since, homes)
  {
  }

  /** The homes of instruction i are recorded. */
  lemma RecordStep(i: nat, pre: seq<bool>, syms: seq<Symbol>, base: map<nat, nat>, since: map<nat, nat>,
                   homes: seq<map<nat, nat>>)
    requires |pre| == |syms| && History(i, pre, syms, base, since, homes)
    ensures History(i + 1, pre, syms, base, since, homes + [Homes(pre, syms)])
  {
  }

  lemma ApartStep(bs: seq<bv8>, live: map<nat, nat>, pre: seq<bool>, syms: seq<Symbol>, homes: seq<map<nat, nat>>,
                  reserved: nat)
    requires |pre| == |syms| && Refines(bs, live) && Consistent(pre, syms, live, reserved)
        && Apart(homes, syms, reserved, 8 * |bs|)
    ensures Apart(homes + [Homes(pre, syms)], syms, reserved, 8 * |bs|)
  {
    var home := Homes(pre, syms);
    forall s, t, x: nat | s in home && t in home && InHome(syms, s, home[s], x) && InHome(syms, t, home[t], x)
      ensures s == t && reserved <= x < 8 * |bs|
    {
      assert InRun(live, home[s], x) && InRun(live, home[t], x);
      assert Owned(live, x) && Used(bs, x);
      if x < reserved { assert InRun(live, 0, x); }
    }
  }

  // ---------------------------------------------------------------- the pass

  /** References seen so far were made after their symbols were placed. */
  ghost predicate SeenAfter(code: seq<Instr>, start: nat, i: nat, pre: seq<bool>, since: map<nat, nat>) {
    forall s: nat, k: nat | RefersTo(code, k, s) && start <= k < i && s < |pre| && !pre[s] :: s in since
        && since[s] <= k
  }

  lemma HistoryThroughout(code: seq<Instr>, start: nat, i: nat, pre: seq<bool>, syms: seq<Symbol>, base: map<nat, nat>,
                          since: map<nat, nat>, homes: seq<map<nat, nat>>)
    requires |pre| == |syms| && History(i, pre, syms, base, since, homes) && SeenAfter(code, start, i, pre, since)
    requires Bounded(code, syms)
    ensures Throughout(code, start, homes, pre)
  {
  }

  /** What the pass works on: code, symbols (and which of them had a fixed address), arrays, reserved cells. */
  datatype Work = Work(code: seq<Instr>, start: nat, syms: seq<Symbol>, pre: seq<bool>, arrays: seq<ArrayDecl>,
      reserved: nat)

  /** Instruction k refers to symbol s, or declares it as an array. */
  ghost predicate Wanted(w: Work, k: nat, s: nat) {
    RefersTo(w.code, k, s) || ArrayDecl(k, s) in w.arrays
  }

  /** Whatever holds cells has been referred to or declared. */
  ghost predicate Needed(w: Work, i: nat, symbols: seq<Symbol>) {
    && |w.pre| == |symbols|
    && forall s: nat | Held(w.pre, symbols, s) :: exists k: nat :: w.start <= k <= i && Wanted(w, k, s)
  }

  /** Instruction i wants a symbol that has no cells, and among those in use there is no room for it. */
  ghost predicate Stuck(w: Work, i: nat, symbols: seq<Symbol>, blocks: nat) {
    |w.pre| == |symbols| && exists s: nat, bs: seq<bv8> :: StuckOn(w, i, symbols, blocks, s, bs)
  }

  ghost predicate StuckOn(w: Work, i: nat, symbols: seq<Symbol>, blocks: nat, s: nat, bs: seq<bv8>)
    requires |w.pre| == |symbols|
  {
    && Wanted(w, i, s) && s < |symbols| && !symbols[s].placed
    && |bs| == blocks && Occupied(bs, w.pre, symbols, w.reserved) && NoRoom(bs, symbols[s])
  }

  /** The array declared at instruction i has a fixed address. */
  ghost predicate Twice(w: Work, i: nat) {
    exists s: nat :: s < |w.pre| && w.pre[s] && ArrayDecl(i, s) in w.arrays
  }

  lemma StuckHere(w: Work, i: nat, symbols: seq<Symbol>, bs: seq<bv8>, live: map<nat, nat>, last: nat, s: nat)
    requires |w.pre| == |symbols| && Refines(bs, live) && LastHint(bs, last)
    requires Consistent(w.pre, symbols, live, w.reserved) && Backed(w.pre, symbols, live)
    requires Wanted(w, i, s) && s < |symbols| && !symbols[s].placed && SearchFor(bs, symbols[s], last) == NONE
    ensures Stuck(w, i, symbols, |bs|)
  {
    hide Refines, Consistent, Backed, Occupied, SearchFor, Wanted;
    OccupiedBy(bs, live, w.pre, symbols, w.reserved);
    assert NoRoom(bs, symbols[s]);
    assert StuckOn(w, i, symbols, |bs|, s, bs);
  }

  lemma PlaceNeeded(w: Work, i: nat, symbols: seq<Symbol>, s: nat, addr: nat)
    requires Needed(w, i, symbols) && s < |symbols| && Wanted(w, i, s) && w.start <= i
    ensures Needed(w, i, symbols[s := symbols[s].(placed := true, addr := addr)])
  {
    var symbols' := symbols[s := symbols[s].(placed := true, addr := addr)];
    forall t: nat | Held(w.pre, symbols', t) ensures exists k: nat :: w.start <= k <= i && Wanted(w, k, t) {
      if t != s {
        assert Held(w.pre, symbols, t);
      }
    }
  }

  /** Later instructions and releases change nothing about that. */
  lemma StillNeeded(w: Work, i: nat, symbols: seq<Symbol>, after: seq<Symbol>)
    requires Needed(w, i, symbols) && |after| == |symbols|
    requires forall s | 0 <= s < |symbols| :: after[s] == symbols[s] || after[s] == symbols[s].(placed := false)
    ensures Needed(w, i + 1, after)
  {
    forall s: nat | Held(w.pre, after, s) ensures exists k: nat :: w.start <= k <= i + 1 && Wanted(w, k, s) {
      assert Held(w.pre, symbols, s);
      var k: nat :| w.start <= k <= i && Wanted(w, k, s);
    }
  }

  /** What has been done before instruction i, the first `d` array declarations included. */
  ghost predicate Progress(w: Work, i: nat, d: nat, instrs: seq<Instr>, symbols: seq<Symbol>, left: seq<ArrayDecl>,
                           base: map<nat, nat>, since: map<nat, nat>)
  {
    && |w.pre| == |w.syms| && w.start <= i && SameDeclarations(w.syms, symbols)
    && (forall s | 0 <= s < |w.syms| && w.pre[s] :: symbols[s] == w.syms[s] && w.syms[s].placed && w.syms[s].stay)
    && SeenAfter(w.code, w.start, i, w.pre, since)
    && AllPatched(w.code, instrs, w.start, i, w.pre, w.syms, base)
    && d <= |w.arrays| && left == w.arrays[d..]
    && (forall e | d <= e < |w.arrays| :: w.arrays[e].at >= i && w.arrays[e].sym !in base)
  }

  lemma NextArray(w: Work, i: nat, d: nat, instrs: seq<Instr>, symbols: seq<Symbol>, left: seq<ArrayDecl>,
                  base: map<nat, nat>, since: map<nat, nat>)
    requires Progress(w, i, d, instrs, symbols, left, base, since) && Declared(w.code, w.start, w.arrays, w.syms)
    ensures left != [] ==> && d < |w.arrays| && left[0] == w.arrays[d] && left[1..] == w.arrays[d + 1..]
                           && left[0].sym < |symbols| && left[0].sym !in base
                           && (LastUse(w.code, w.start, w.pre, w.syms, left[0].sym) ==>
                               left[0].at <= w.syms[left[0].sym].last)
                           && (left[0].at == i ==> Wanted(w, i, left[0].sym))
                           && forall e | d < e < |w.arrays| :: w.arrays[e].sym != left[0].sym
    ensures left == [] || left[0].at != i ==> forall e | d <= e < |w.arrays| :: w.arrays[e].at > i
  {
  }

  /** An array that already has cells had them from the outset. */
  lemma FixedArray(w: Work, i: nat, d: nat, instrs: seq<Instr>, symbols: seq<Symbol>, left: seq<ArrayDecl>,
                   base: map<nat, nat>, since: map<nat, nat>, homes: seq<map<nat, nat>>)
    requires Progress(w, i, d, instrs, symbols, left, base, since) && left != [] && left[0].at == i
    requires |w.pre| == |symbols| && History(i, w.pre, symbols, base, since, homes)
    requires left[0].sym < |symbols| && left[0].sym !in base && symbols[left[0].sym].placed
    ensures Twice(w, i)
  {
    assert w.arrays[d] == ArrayDecl(i, left[0].sym);
    assert w.arrays[d] in w.arrays;
  }

  lemma NotFixed(w: Work, i: nat, d: nat, instrs: seq<Instr>, symbols: seq<Symbol>, left: seq<ArrayDecl>,
                 base: map<nat, nat>, since: map<nat, nat>, s: nat)
    requires Progress(w, i, d, instrs, symbols, left, base, since) && s < |symbols| && !symbols[s].placed
    ensures s < |w.pre| && !w.pre[s]
  {
  }

  lemma PlaceProgress(w: Work, i: nat, d: nat, instrs: seq<Instr>, symbols: seq<Symbol>, symbols': seq<Symbol>,
                      base: map<nat, nat>, base': map<nat, nat>, since: map<nat, nat>, since': map<nat, nat>, s: nat)
    requires d <= |w.arrays| && Progress(w, i, d, instrs, symbols, w.arrays[d..], base, since)
    requires s < |symbols| && !symbols[s].placed && s !in base && since.Keys == base.Keys
    requires exists addr :: symbols' == symbols[s := symbols[s].(placed := true, addr := addr)]
                            && base' == base[s := addr] && since' == since[s := i]
    ensures var d' := if d < |w.arrays| && w.arrays[d].sym == s then d + 1 else d;
            (forall e | d' <= e < |w.arrays| :: w.arrays[e].sym != s) ==>
              Progress(w, i, d', instrs, symbols', w.arrays[d'..], base', since')
  {
  }

  lemma VisitStart(w: Work, i: nat, d: nat, instrs: seq<Instr>, symbols: seq<Symbol>, left: seq<ArrayDecl>,
                   base: map<nat, nat>, since: map<nat, nat>, homes: seq<map<nat, nat>>)
    requires Progress(w, i, d, instrs, symbols, left, base, since) && i < |instrs|
    requires |w.pre| == |symbols| && History(i, w.pre, symbols, base, since, homes)
    requires Declared(w.code, w.start, w.arrays, w.syms) && Bounded(w.code, w.syms)
    requires forall e | d <= e < |w.arrays| :: w.arrays[e].at > i
    ensures d <= |w.arrays| && left == w.arrays[d..] && i < |w.code| && |w.pre| == |w.syms| == |symbols|
    ensures var c := instrs[i];
            && c == w.code[i]
            && (0 < c.ref <= |symbols| ==>
                  && (forall e | d <= e < |w.arrays| :: w.arrays[e].sym != c.ref - 1)
                  && (!symbols[c.ref - 1].placed ==> c.ref - 1 !in base)
                  && Wanted(w, i, c.ref - 1)
                  && (LastUse(w.code, w.start, w.pre, w.syms, c.ref - 1) ==> i <= w.syms[c.ref - 1].last))
  {
    var c := instrs[i];
    assert c == w.code[i];
    if 0 < c.ref <= |symbols| {
      assert RefersTo(w.code, i, c.ref - 1);
    }
  }

  lemma PatchProgress(w: Work, i: nat, d: nat, instrs: seq<Instr>, symbols: seq<Symbol>, left: seq<ArrayDecl>,
                      base: map<nat, nat>, since: map<nat, nat>, homes: seq<map<nat, nat>>)
    requires Progress(w, i, d, instrs, symbols, left, base, since) && i < |instrs|
    requires |w.pre| == |symbols| && History(i, w.pre, symbols, base, since, homes)
    requires forall e | d <= e < |w.arrays| :: w.arrays[e].at > i
    requires 0 < instrs[i].ref <= |symbols| ==> symbols[instrs[i].ref - 1].placed
    ensures var c := instrs[i];
            var patched := if 0 < c.ref <= |symbols| then instrs[i := Patched(c, symbols[c.ref - 1].addr)] else instrs;
            Progress(w, i + 1, d, patched, symbols, left, base, since)
  {
  }

  lemma ReleaseProgress(w: Work, i: nat, d: nat, instrs: seq<Instr>, symbols: seq<Symbol>, left: seq<ArrayDecl>,
                        base: map<nat, nat>, since: map<nat, nat>, s: nat)
    requires Progress(w, i, d, instrs, symbols, left, base, since) && s < |symbols| && !symbols[s].stay
    ensures !w.pre[s] && Progress(w, i, d, instrs, symbols[s := symbols[s].(placed := false)], left, base, since)
  {
  }

  /** So far everything behind its last use has been released. */
  ghost predicate FreedSoFar(w: Work, i: nat, symbols: seq<Symbol>, homes: seq<map<nat, nat>>) {
    && |w.pre| == |w.syms| == |symbols| && |homes| == i
    && Freed(w.code, w.start, homes, w.pre, w.syms)
    && forall s: nat | LastUse(w.code, w.start, w.pre, w.syms, s) && w.syms[s].last < i :: !symbols[s].placed
  }

  /** Placing a symbol that is still to be used. */
  lemma PlaceFreed(w: Work, i: nat, symbols: seq<Symbol>, symbols': seq<Symbol>, homes: seq<map<nat, nat>>, s: nat,
                   addr: nat)
    requires FreedSoFar(w, i, symbols, homes) && s < |symbols|
    requires symbols' == symbols[s := symbols[s].(placed := true, addr := addr)]
    requires LastUse(w.code, w.start, w.pre, w.syms, s) ==> i <= w.syms[s].last
    ensures FreedSoFar(w, i, symbols', homes)
  {
  }

  /** Instruction i has been visited: `after` differs from what was recorded at most by a release. */
  lemma VisitFreed(w: Work, i: nat, symbols: seq<Symbol>, after: seq<Symbol>, homes: seq<map<nat, nat>>)
    requires FreedSoFar(w, i, symbols, homes) && |after| == |symbols| && SameDeclarations(w.syms, symbols)
    requires forall s | 0 <= s < |symbols| :: after[s] == symbols[s] || after[s] == symbols[s].(placed := false)
    requires forall s: nat | LastUse(w.code, w.start, w.pre, w.syms, s) && w.syms[s].last == i :: !after[s].placed
    ensures FreedSoFar(w, i + 1, after, homes + [Homes(w.pre, symbols)])
  {
  }

  /** Which symbols have their last use at instruction i: at most the one it refers to. */
  lemma UsesAt(w: Work, i: nat, d: nat, instrs: seq<Instr>, symbols: seq<Symbol>, left: seq<ArrayDecl>,
               base: map<nat, nat>, since: map<nat, nat>, c: Instr)
    requires Progress(w, i + 1, d, instrs, symbols, left, base, since) && i < |w.code| && c == w.code[i]
    ensures |w.pre| == |w.syms| == |symbols| && SameDeclarations(w.syms, symbols)
    ensures forall s: nat | LastUse(w.code, w.start, w.pre, w.syms, s) && w.syms[s].last == i ::
              c.ref == s + 1 && symbols[s].last == i && !symbols[s].stay
  {
    forall s: nat | LastUse(w.code, w.start, w.pre, w.syms, s) && w.syms[s].last == i
      ensures c.ref == s + 1 && symbols[s].last == i && !symbols[s].stay
    {
      assert symbols[s].(placed := w.syms[s].placed, addr := w.syms[s].addr) == w.syms[s];
    }
  }

  /** The parts of the scan invariant when symbol s has been placed. */
  lemma PlaceParts(i: nat, pre: seq<bool>, syms: seq<Symbol>, base: map<nat, nat>, since: map<nat, nat>,
                   homes: seq<map<nat, nat>>, live: map<nat, nat>, reserved: nat, s: nat, addr: nat, limit: nat)
    requires |pre| == |syms| && s < |syms| && !pre[s] && !syms[s].placed && s !in base && addr !in live
    requires Consistent(pre, syms, live, reserved) && History(i, pre, syms, base, since, homes)
    requires Backed(pre, syms, live) && Sized(syms) && Apart(homes, syms, reserved, limit)
    ensures var syms' := syms[s := syms[s].(placed := true, addr := addr)];
            && Sized(syms') && Consistent(pre, syms', live[addr := syms[s].size], reserved)
            && Backed(pre, syms', live[addr := syms[s].size])
            && History(i, pre, syms', base[s := addr], since[s := i], homes) && Apart(homes, syms', reserved, limit)
  {
    hide Consistent, Backed, History, Apart, Sized, SameDeclarations;
    var sym := syms[s].(placed := true, addr := addr);
    PlaceStep(i, pre, syms, base, since, homes, live, reserved, s, addr);
    PlaceBacked(pre, syms, live, s, addr);
    SizedStill(syms, s, sym);
    SameApart(homes, syms, syms[s := sym], reserved, limit);
  }

  /** The parts of the scan invariant when symbol s has been released. */
  lemma ReleaseParts(i: nat, pre: seq<bool>, syms: seq<Symbol>, base: map<nat, nat>, since: map<nat, nat>,
                     homes: seq<map<nat, nat>>, live: map<nat, nat>, reserved: nat, s: nat, limit: nat)
    requires |pre| == |syms| && s < |syms| && !pre[s] && syms[s].placed && !syms[s].stay && syms[s].last < i
    requires Consistent(pre, syms, live, reserved) && History(i, pre, syms, base, since, homes)
    requires Backed(pre, syms, live) && Sized(syms) && Apart(homes, syms, reserved, limit)
    ensures var syms' := syms[s := syms[s].(placed := false)];
            && Sized(syms') && Consistent(pre, syms', live - {syms[s].addr}, reserved)
            && Backed(pre, syms', live - {syms[s].addr})
            && History(i, pre, syms', base, since, homes) && Apart(homes, syms', reserved, limit)
  {
    hide Consistent, Backed, History, Apart, Sized, SameDeclarations;
    ReleaseStep(i, pre, syms, base, since, homes, live, reserved, s);
    ReleaseBacked(pre, syms, live, s);
    SizedStill(syms, s, syms[s].(placed := false));
    SameApart(homes, syms, syms[s := syms[s].(placed := false)], reserved, limit);
  }

  class Placer {
    var instrs: seq<Instr>
    var symbols: seq<Symbol>
    var arrayAllocInfo: seq<ArrayDecl>
    ghost var base: map<nat, nat>
    ghost var since: map<nat, nat>
    ghost var homes: seq<map<nat, nat>>

    constructor (instrs: seq<Instr>, symbols: seq<Symbol>, arrays: seq<ArrayDecl>)
      ensures this.instrs == instrs && this.symbols == symbols && arrayAllocInfo == arrays
    {
      this.instrs, this.symbols, arrayAllocInfo := instrs, symbols, arrays;
      base, since, homes := map[], map[], [];
    }

    ghost predicate ScanInv(i: nat, al: Allocator, pre: seq<bool>, reserved: nat)
      reads `symbols, `base, `since, `homes, al, al.blocks
    {
      && |pre| == |symbols| && al.Valid() && LastHint(al.Bitmap(), al.lastUsedBlock)
      && Sized(symbols)
      && Consistent(pre, symbols, al.live, reserved) && Backed(pre, symbols, al.live)
      && History(i, pre, symbols, base, since, homes)
      && Apart(homes, symbols, reserved, 8 * al.blocks.Length)
    }

    lemma ScanParts(i: nat, al: Allocator, pre: seq<bool>, reserved: nat)
      requires ScanInv(i, al, pre, reserved)
      ensures |pre| == |symbols| && al.Valid() && LastHint(al.Bitmap(), al.lastUsedBlock) && Sized(symbols)
      ensures Consistent(pre, symbols, al.live, reserved) && Backed(pre, symbols, al.live)
      ensures History(i, pre, symbols, base, since, homes) && Apart(homes, symbols, reserved, 8 * al.blocks.Length)
    {
    }

    lemma ScanAgain(i: nat, al: Allocator, pre: seq<bool>, reserved: nat)
      requires |pre| == |symbols| && al.Valid() && LastHint(al.Bitmap(), al.lastUsedBlock) && Sized(symbols)
      requires Consistent(pre, symbols, al.live, reserved) && Backed(pre, symbols, al.live)
      requires History(i, pre, symbols, base, since, homes) && Apart(homes, symbols, reserved, 8 * al.blocks.Length)
      ensures ScanInv(i, al, pre, reserved)
    {
    }

    /** Gives symbol s cells before instruction i. */
    method PlaceSymbol(al: Allocator, s: nat, ghost i: nat, ghost pre: seq<bool>,
                       ghost reserved: nat) returns (ok: bool)
      requires ScanInv(i, al, pre, reserved) && s < |symbols| && !pre[s] && !symbols[s].placed && s !in base
      modifies `symbols, `base, `since, al, al.blocks
      ensures ok <==> SearchFor(old(al.Bitmap()), old(symbols[s]), old(al.lastUsedBlock)) != NONE
      ensures ok ==> ScanInv(i, al, pre, reserved)
      ensures |symbols| == |old(symbols)|
      ensures ok ==> symbols[s].addr == SearchFor(old(al.Bitmap()), old(symbols[s]), old(al.lastUsedBlock))
      ensures ok ==> exists addr :: symbols == old(symbols)[s := old(symbols)[s].(placed := true, addr := addr)]
                                    && base == old(base)[s := addr] && since == old(since)[s := i]
      ensures !ok ==> symbols == old(symbols) && base == old(base) && since == old(since)
    {
      ScanParts(i, al, pre, reserved);
      SearchedFrom(al.Bitmap(), al.live, al.firstFreeBlock, al.lastUsedBlock, symbols[s]);
      hide ScanInv, Sized, Refines, LastHint, Consistent, Backed, History, Apart, Search, SearchFor;
      hide FirstHint, UsedBelow, LiveBelow;
      hide Marked, Free, Used, SameDeclarations, Disjoint, Larger, SkipUsed;
      var addr := al.Allocate(symbols[s].size, symbols[s].high, symbols[s].isArray);
      if addr == NONE {
        return false;
      }
      PlaceParts(i, pre, symbols, base, since, homes, old(al.live), reserved, s, addr, 8 * al.blocks.Length);
      symbols := symbols[s := symbols[s].(placed := true, addr := addr)];
      base, since := base[s := addr], since[s := i];
      ScanAgain(i, al, pre, reserved);
      ok := true;
    }

    /** Takes the cells of symbol s back behind instruction i. */
    method ReleaseSymbol(al: Allocator, s: nat, ghost i: nat, ghost pre: seq<bool>, ghost reserved: nat)
      requires ScanInv(i, al, pre, reserved) && s < |symbols| && !pre[s] && symbols[s].placed
      requires !symbols[s].stay && symbols[s].last < i
      modifies `symbols, al, al.blocks
      ensures ScanInv(i, al, pre, reserved)
      ensures symbols == old(symbols)[s := old(symbols)[s].(placed := false)]
    {
      ScanParts(i, al, pre, reserved);
      hide ScanInv, Consistent, Backed, History, Apart, Sized, Refines, LastHint, FirstHint, UsedBelow, LiveBelow;
      hide Cleared, Used, SameDeclarations;
      HeldIsLive(pre, symbols, al.live, reserved, s);
      ReleaseParts(i, pre, symbols, base, since, homes, al.live, reserved, s, 8 * al.blocks.Length);
      var addr := symbols[s].addr;
      symbols := symbols[s := symbols[s].(placed := false)];
      al.Release(addr, symbols[s].size);
      ScanAgain(i, al, pre, reserved);
    }

    ghost method Record(i: nat, al: Allocator, pre: seq<bool>, reserved: nat)
      requires ScanInv(i, al, pre, reserved)
      modifies `homes
      ensures ScanInv(i + 1, al, pre, reserved) && homes == old(homes) + [Homes(pre, symbols)]
    {
      RecordStep(i, pre, symbols, base, since, homes);
      ApartStep(al.Bitmap(), al.live, pre, symbols, homes, reserved);
      homes := homes + [Homes(pre, symbols)];
    }

    /** The scan before instruction i; `d` array declarations have been dealt with. */
    ghost predicate PassInv(w: Work, i: nat, d: nat, al: Allocator)
      reads this, al, al.blocks
    {
      && ScanInv(i, al, w.pre, w.reserved) && Progress(w, i, d, instrs, symbols, arrayAllocInfo, base, since)
      && FreedSoFar(w, i, symbols, homes) && Needed(w, i, symbols)
    }

    /** The scan has stopped at instruction i, all before it being done, for want of room or at a fixed array. */
    ghost predicate Halted(w: Work, i: nat, blocks: nat)
      reads `symbols, `base, `since, `homes
    {
      && SameDeclarations(w.syms, symbols) && Needed(w, i, symbols) && History(i, w.pre, symbols, base, since, homes)
      && Apart(homes, symbols, w.reserved, 8 * blocks) && FreedSoFar(w, i, symbols, homes)
      && (Stuck(w, i, symbols, blocks) || Twice(w, i))
    }

    ghost predicate HaltsSomewhere(w: Work, blocks: nat)
      reads `symbols, `base, `since, `homes
    {
      exists i: nat :: w.start <= i < |w.code| && Halted(w, i, blocks)
    }

    lemma HaltsAt(w: Work, i: nat, d: nat, al: Allocator)
      requires PassInv(w, i, d, al) && (Stuck(w, i, symbols, al.blocks.Length) || Twice(w, i))
      ensures Halted(w, i, al.blocks.Length)
    {
      hide Consistent, Backed, History, Apart, FreedSoFar, Needed, SameDeclarations, Stuck, Twice, Refines;
      hide LastHint, FirstHint;
      assert al.blocks.Length == |al.Bitmap()|;
    }

    /** Arrays declared at this position get their cells now. */
    method PlaceArrays(ghost w: Work, al: Allocator, i: nat, ghost d0: nat) returns (ok: bool, ghost d: nat)
      requires PassInv(w, i, d0, al) && Declared(w.code, w.start, w.arrays, w.syms)
      modifies `symbols, `base, `since, `arrayAllocInfo, al, al.blocks
      ensures ok ==> PassInv(w, i, d, al) && forall e | d <= e < |w.arrays| :: w.arrays[e].at > i
      ensures !ok ==> Halted(w, i, al.blocks.Length)
    {
      hide ScanInv, Progress, Halted, Wanted, Needed;
      d := d0;
      while true
        invariant PassInv(w, i, d, al)
        decreases |arrayAllocInfo|
      {
        NextArray(w, i, d, instrs, symbols, arrayAllocInfo, base, since);
        if arrayAllocInfo == [] || arrayAllocInfo[0].at != i {
          break;
        }
        var s := arrayAllocInfo[0].sym;
        if symbols[s].placed {
          ArrayHalts(w, i, d, al);
          return false, d;
        }
        ok := Place(w, al, i, d, s);
        if !ok {
          return;
        }
        arrayAllocInfo := arrayAllocInfo[1..];
        d := d + 1;
      }
      ok := true;
    }

    lemma ArrayHalts(w: Work, i: nat, d: nat, al: Allocator)
      requires PassInv(w, i, d, al) && arrayAllocInfo != [] && arrayAllocInfo[0].at == i
      requires arrayAllocInfo[0].sym < |symbols| && arrayAllocInfo[0].sym !in base
          && symbols[arrayAllocInfo[0].sym].placed
      ensures Halted(w, i, al.blocks.Length)
    {
      hide Consistent, Backed, History, Apart, FreedSoFar, Progress, Halted, Twice, Refines, LastHint, FirstHint;
      FixedArray(w, i, d, instrs, symbols, arrayAllocInfo, base, since, homes);
      HaltsAt(w, i, d, al);
    }

    /** Gives a symbol cells that has none, at its first reference or its declaration. */
    method Place(ghost w: Work, al: Allocator, i: nat, ghost d: nat, s: nat) returns (ok: bool)
      requires PassInv(w, i, d, al) && s < |symbols| && !symbols[s].placed && s !in base && |w.pre| == |w.syms|
      requires Wanted(w, i, s) && (LastUse(w.code, w.start, w.pre, w.syms, s) ==> i <= w.syms[s].last)
      modifies `symbols, `base, `since, al, al.blocks
      ensures ok ==> FreedSoFar(w, i, symbols, homes)
      ensures ok ==> |w.pre| == |symbols| && History(i, w.pre, symbols, base, since, homes)
      ensures ok ==> ScanInv(i, al, w.pre, w.reserved) && symbols[s].placed && |symbols| == |old(symbols)|
      ensures ok ==> Needed(w, i, symbols)
      ensures ok ==> var d' := if d < |w.arrays| && w.arrays[d].sym == s then d + 1 else d;
                     (forall e | d' <= e < |w.arrays| :: w.arrays[e].sym != s) ==>
                       Progress(w, i, d', instrs, symbols, w.arrays[d'..], base, since)
      ensures !ok ==> Halted(w, i, al.blocks.Length)
    {
      hide Consistent, Backed, Apart, Needed, Stuck, Halted, SearchFor, Refines, LastHint, FirstHint, Wanted;
      NotFixed(w, i, d, instrs, symbols, arrayAllocInfo, base, since, s);
      Halts(w, i, d, al, s);
      ok := PlaceSymbol(al, s, i, w.pre, w.reserved);
      if ok {
        PlaceProgress(w, i, d, instrs, old(symbols), symbols, old(base), base, old(since), since, s);
        PlaceFreed(w, i, old(symbols), symbols, homes, s, symbols[s].addr);
        PlaceNeeded(w, i, old(symbols), s, symbols[s].addr);
      }
    }

    lemma Halts(w: Work, i: nat, d: nat, al: Allocator, s: nat)
      requires PassInv(w, i, d, al) && s < |symbols| && !symbols[s].placed && Wanted(w, i, s)
      ensures SearchFor(al.Bitmap(), symbols[s], al.lastUsedBlock) == NONE ==> Halted(w, i, al.blocks.Length)
    {
      hide Consistent, Backed, History, Apart, FreedSoFar, Progress, Halted, Stuck, SearchFor, Refines;
      hide LastHint, FirstHint, Wanted;
      if SearchFor(al.Bitmap(), symbols[s], al.lastUsedBlock) == NONE {
        StuckHere(w, i, symbols, al.Bitmap(), al.live, al.lastUsedBlock, s);
        HaltsAt(w, i, d, al);
      }
    }

    /** Instruction i: its symbol gets cells if it has none, the reference is patched, a last access releases. */
    method Visit(ghost w: Work, al: Allocator, i: nat, ghost d: nat) returns (ok: bool)
      requires PassInv(w, i, d, al) && i < |instrs| && Declared(w.code, w.start, w.arrays, w.syms)
          && Bounded(w.code, w.syms)
      requires forall e | d <= e < |w.arrays| :: w.arrays[e].at > i
      modifies `instrs, `symbols, `base, `since, `homes, al, al.blocks
      ensures ok ==> PassInv(w, i + 1, d, al) && |instrs| == |old(instrs)|
      ensures !ok ==> Halted(w, i, al.blocks.Length)
    {
      hide Progress, Consistent, Backed, History, Apart, FreedSoFar, Homes, Refines, LastHint, FirstHint;
      hide Needed, Halted, Wanted;
      hide Sized, Declared, Bounded, Patched;
      var c := instrs[i];
      VisitStart(w, i, d, instrs, symbols, arrayAllocInfo, base, since, homes);
      hide ScanInv;
      if 0 < c.ref <= |symbols| {
        var s := c.ref - 1;
        if !symbols[s].placed {
          ok := Place(w, al, i, d, s);
          if !ok {
            return;
          }
        }
        PatchProgress(w, i, d, instrs, symbols, arrayAllocInfo, base, since, homes);
        instrs := instrs[i := Patched(c, symbols[s].addr)];
        UsesAt(w, i, d, instrs, symbols, arrayAllocInfo, base, since, c);
        ghost var recorded, before := symbols, homes;
        Record(i, al, w.pre, w.reserved);
        if symbols[s].last == i && symbols[s].placed && !symbols[s].stay {
          ReleaseProgress(w, i + 1, d, instrs, symbols, arrayAllocInfo, base, since, s);
          ReleaseSymbol(al, s, i + 1, w.pre, w.reserved);
        }
        VisitFreed(w, i, recorded, symbols, before);
        StillNeeded(w, i, recorded, symbols);
      } else {
        PatchProgress(w, i, d, instrs, symbols, arrayAllocInfo, base, since, homes);
        UsesAt(w, i, d, instrs, symbols, arrayAllocInfo, base, since, c);
        VisitFreed(w, i, symbols, symbols, homes);
        StillNeeded(w, i, symbols, symbols);
        Record(i, al, w.pre, w.reserved);
      }
      ok := true;
    }

    /**
     * The pass over the code from `start` on, with `size` cells of which the first 4 + numParams are reserved for
     * the call frame. If every allocation succeeds then there is, for each instruction, an assignment of base
     * addresses (`homes`) in which each symbol has one base for its whole live range and none behind its last use,
     * no two symbols overlap, none reaches the reserved cells, and with which every reference has been patched: each
     * access names one of its symbol's own cells.
     * It only fails if the reserved cells do not fit, or at an instruction that wants a symbol for which the allocator
     * finds no room among the cells held so far, or that declares an array with a fixed address.
     */
    method StorageAllocationPass(start: nat, size: nat, numParams: nat) returns (ok: bool)
      requires start <= |instrs| && size < NONE - 16 && 4 + numParams < WORDS
      requires forall s | 0 <= s < |symbols| :: 0 < symbols[s].size < WORDS && (symbols[s].placed ==> symbols[s].stay)
      requires Bounded(instrs, symbols) && Declared(instrs, start, arrayAllocInfo, symbols)
      modifies this
      ensures ok ==>
        var code, syms, pre := old(instrs), old(symbols), Fixed(old(symbols));
        && |homes| == |code|
        && OneBase(homes, base) && Throughout(code, start, homes, pre) && Freed(code, start, homes, pre, syms)
        && Apart(homes, syms, 4 + numParams, 8 * ((size + 7) / 8))
        && AllPatched(code, instrs, start, |code|, pre, syms, base)
        && AccessesOwn(code, instrs, start, pre, syms, base, 4 + numParams, 8 * ((size + 7) / 8))
        && AccessesApart(code, instrs, start, pre, syms, base, homes)
      ensures !ok ==>
        var w := Work(old(instrs), start, old(symbols), Fixed(old(symbols)), old(arrayAllocInfo), 4 + numParams);
        || 4 + numParams > 8 * ((size + 7) / 8)
        || HaltsSomewhere(w, (size + 7) / 8)
    {
      ghost var w := Work(instrs, start, symbols, Fixed(symbols), arrayAllocInfo, 4 + numParams);
      base, since, homes := map[], map[], seq(start, k => map[]);
      var al;
      ok, al := Reserve(size, 4 + numParams);
      if !ok {
        return;
      }
      PassStarts(w, al);
      hide PassInv, OneBase, Throughout, Freed, Apart, AllPatched, Bounded, Declared, Fixed, HaltsSomewhere;
      ghost var d;
      ok, d := Scan(w, al, start);
      if ok {
        PassEnds(w, d, al);
        hide PassInv, OneBase, Throughout, Apart, AllPatched, AccessesOwn, AccessesApart;
        PatchedAccesses(w.code, instrs, start, w.pre, w.syms, base, homes, w.reserved, 8 * al.blocks.Length);
      }
    }

    method Scan(ghost w: Work, al: Allocator, start: nat) returns (ok: bool, ghost d: nat)
      requires PassInv(w, start, 0, al) && w.start == start <= |instrs| == |w.code|
      requires Declared(w.code, w.start, w.arrays, w.syms) && Bounded(w.code, w.syms)
      modifies this, al, al.blocks
      ensures ok ==> PassInv(w, |w.code|, d, al)
      ensures !ok ==> HaltsSomewhere(w, al.blocks.Length)
    {
      hide PassInv, Bounded, Declared, Halted;
      ok, d := true, 0;
      var i := start;
      while i < |instrs|
        invariant ok && start <= i <= |instrs| == |w.code| && PassInv(w, i, d, al)
      {
        ok, d := PlaceArrays(w, al, i, d);
        if !ok {
          return;
        }
        ok := Visit(w, al, i, d);
        if !ok {
          return;
        }
        i := i + 1;
      }
    }

    /** A new allocator with the first cells reserved. */
    method Reserve(size: nat, reserved: nat) returns (ok: bool, al: Allocator)
      requires size < NONE - 16 && 0 < reserved < WORDS
      ensures fresh(al) && fresh(al.blocks) && al.blocks.Length == (size + 7) / 8
      ensures ok ==> al.Valid() && LastHint(al.Bitmap(), al.lastUsedBlock) && al.live == map[0 := reserved]
      ensures ok <==> reserved <= 8 * al.blocks.Length
    {
      al := new Allocator(size);
      EmptySearch(al.Bitmap(), al.live, reserved);
      hide Refines, FirstHint, LastHint, UsedBelow, LiveBelow, Search, Marked;
      var x := al.Allocate(reserved, false, false);
      ok := x == 0;
    }

    lemma PassEnds(w: Work, d: nat, al: Allocator)
      requires PassInv(w, |w.code|, d, al) && Bounded(w.code, w.syms)
      ensures |homes| == |w.code| && OneBase(homes, base) && Throughout(w.code, w.start, homes, w.pre)
      ensures Apart(homes, w.syms, w.reserved, 8 * al.blocks.Length)
      ensures |w.pre| == |w.syms| && AllPatched(w.code, instrs, w.start, |w.code|, w.pre, w.syms, base)
      ensures Freed(w.code, w.start, homes, w.pre, w.syms)
    {
      hide Refines, FirstHint, LastHint;
      assert SameDeclarations(symbols, w.syms) && Bounded(w.code, symbols);
      HistoryThroughout(w.code, w.start, |w.code|, w.pre, symbols, base, since, homes);
      SameApart(homes, symbols, w.syms, w.reserved, 8 * al.blocks.Length);
    }

    /** The scan is about to start: only the call frame's cells are allocated. */
    lemma {:induction false} PassStarts(w: Work, al: Allocator)
      requires al.Valid() && LastHint(al.Bitmap(), al.lastUsedBlock) && al.live == map[0 := w.reserved]
      requires w == Work(instrs, w.start, symbols, Fixed(symbols), arrayAllocInfo, w.reserved) && w.start <= |instrs|
      requires forall s | 0 <= s < |symbols| :: 0 < symbols[s].size < WORDS && (symbols[s].placed ==> symbols[s].stay)
      requires Declared(w.code, w.start, w.arrays, w.syms)
      requires base == map[] && since == map[] && homes == seq(w.start, k => map[])
      ensures PassInv(w, w.start, 0, al)
    {
      hide Refines, FirstHint, LastHint, UsedBelow, LiveBelow;
    }
  }

  lemma SameApart(homes: seq<map<nat, nat>>, syms: seq<Symbol>, syms': seq<Symbol>, reserved: nat, limit: nat)
    requires Apart(homes, syms, reserved, limit) && SameDeclarations(syms, syms')
    ensures Apart(homes, syms', reserved, limit)
  {
    forall m, s, t, x: nat | 0 <= m < |homes| && s in homes[m] && t in homes[m]
                             && InHome(syms', s, homes[m][s], x) && InHome(syms', t, homes[m][t], x)
      ensures s == t && reserved <= x < limit
    {
      assert syms'[s].size == syms[s].size && syms'[t].size == syms[t].size;
      assert InHome(syms, s, homes[m][s], x) && InHome(syms, t, homes[m][t], x);
    }
  }
}
