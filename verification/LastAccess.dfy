/** The last accesses recorded while code is emitted and moved and loops are opened and closed. */
module LastAccess {
  import opened CodeMotion
  import opened Options

  const CAPACITY := 4096
  const MAX_LOOP_DEPTH := 6
  /** Recorded for a symbol whose address is taken: it is never to be released. */
  const NEVER := 0xFFFF

  /** The loop depth at which each symbol is created, and whether symbols are always kept until their loop ends. */
  datatype Config = Config(scope: nat -> nat, safe: bool)

  /** The code, the last access of each symbol, and for each active loop the symbols to be kept until it ends. */
  datatype Gen = Gen(code: seq<Instr>, last: map<nat, nat>, frames: seq<set<nat>>)

  const START := Gen([], map[], [])

  /** The instruction reads or writes symbol s. */
  predicate Accesses(i: Instr, s: nat) {
    i.kind.Plain? && i.sym == Some(s)
  }

  /** The instruction takes the address of symbol s. */
  predicate Loads(i: Instr, s: nat) {
    i.kind.Load? && i.sym == Some(s)
  }

  // ---------------------------------------------------------------- emitting code and closing loops

  /** An access to s is recorded only when a loop ends. */
  predicate Deferred(g: Gen, cfg: Config, s: nat) {
    |g.frames| > 0 && (cfg.scope(s) < |g.frames| || cfg.safe)
  }

  /** The loop at whose end it is. */
  function Keeper(g: Gen, cfg: Config, s: nat): nat
    requires Deferred(g, cfg, s)
  {
    if cfg.scope(s) > |g.frames| - 1 then |g.frames| - 1 else cfg.scope(s)
  }

  function Written(g: Gen, cfg: Config, i: Instr): Gen {
    var code := g.code + [i];
    if i.sym.None? || i.kind.Jump? then Gen(code, g.last, g.frames)
    else
      var s := i.sym.value;
      if i.kind.Load? then Gen(code, g.last[s := NEVER], g.frames)
      else if Deferred(g, cfg, s)
      then var f := Keeper(g, cfg, s); Gen(code, g.last, g.frames[f := g.frames[f] + {s}])
      else Gen(code, g.last[s := |g.code|], g.frames)
  }

  function Opened(g: Gen): Gen {
    g.(frames := g.frames + [{}])
  }

  /** The innermost loop ends: whatever it kept, and nothing else, is last accessed here. */
  function Closed(g: Gen): Gen
    requires g.frames != []
  {
    var top := g.frames[|g.frames| - 1];
    Gen(g.code,
        map s | s in g.last.Keys + top :: if s in top then |g.code| else g.last[s],
        g.frames[..|g.frames| - 1])
  }

  // ---------------------------------------------------------------- moving code

  /** The last accesses after a walk over the instructions from lo up to hi. */
  function LastAfter(c: seq<Instr>, lo: nat, hi: nat, last: map<nat, nat>): map<nat, nat>
    requires hi <= |c|
    decreases hi
  {
    if hi <= lo then last
    else
      var m, i := LastAfter(c, lo, hi - 1, last), c[hi - 1];
      if i.kind.Plain? && i.sym.Some? then m[i.sym.value := hi - 1] else m
  }

  /** The code from `start` on goes to the earlier address `target`. */
  function MovedBack(g: Gen, start: nat, target: nat): Gen
    requires target <= start <= |g.code|
  {
    if start == target || start == |g.code| then g
    else
      var code := Moved(g.code, target, start - target, |g.code| - start);
      Gen(code, LastAfter(code, target, |code|, g.last), g.frames)
  }

  lemma {:induction false} LastAfterIs(c: seq<Instr>, lo: nat, hi: nat, last: map<nat, nat>, s: nat)
    requires hi <= |c|
    ensures var m := LastAfter(c, lo, hi, last);
            && (forall k | lo <= k < hi && Accesses(c[k], s) :: s in m && k <= m[s])
            && (s in m ==> (lo <= m[s] < hi && Accesses(c[m[s]], s))
                           || (s in last && m[s] == last[s] && forall k | lo <= k < hi :: !Accesses(c[k], s)))
            && (s in last ==> s in m)
            && ((forall k | lo <= k < hi :: !Accesses(c[k], s)) ==> (s in m <==> s in last))
    decreases hi
  {
    if lo < hi {
      LastAfterIs(c, lo, hi - 1, last, s);
    }
  }

  lemma {:induction false} LastAfterAlike(c: seq<Instr>, d: seq<Instr>, lo: nat, hi: nat, last: map<nat, nat>)
    requires hi <= |c| == |d| && forall k | lo <= k < hi :: SameInstr(c[k], d[k])
    ensures LastAfter(c, lo, hi, last) == LastAfter(d, lo, hi, last)
    decreases hi
  {
    if lo < hi {
      LastAfterAlike(c, d, lo, hi - 1, last);
    }
  }

  lemma {:induction false} LastAfterJoin(c: seq<Instr>, lo: nat, mid: nat, hi: nat, last: map<nat, nat>)
    requires lo <= mid <= hi <= |c|
    ensures LastAfter(c, mid, hi, LastAfter(c, lo, mid, last)) == LastAfter(c, lo, hi, last)
    decreases hi
  {
    if mid < hi {
      LastAfterJoin(c, lo, mid, hi - 1, last);
    }
  }

  lemma {:induction false} SwapAccesses(c: seq<Instr>, a: nat, p: nat, q: nat, s: nat)
    requires a + p + q == |c| && p > 0 && q > 0
    ensures var d := Moved(c, a, p, q);
            && d[..a] == c[..a]
            && forall k | 0 <= k < |c| :: 0 <= NewPlace(k, a, p, q) < |c|
                                          && (a <= k <==> a <= NewPlace(k, a, p, q))
                                          && (Accesses(c[k], s) <==> Accesses(d[NewPlace(k, a, p, q)], s))
  {
    hide ReadBack, Encode, Moved;
    var d := Moved(c, a, p, q);
    forall k | 0 <= k < |c| ensures NewPlace(k, a, p, q) < |c| && SameInstr(c[k], d[NewPlace(k, a, p, q)]) {
      MovedAt(c, a, p, q, k);
    }
    forall k | 0 <= k < a ensures d[k] == c[k] {
      MovedAt(c, a, p, q, k);
      assert NewPlace(k, a, p, q) == k;
    }
  }

  /** The same, seen from the new place. */
  lemma SwapAccessesBack(c: seq<Instr>, a: nat, p: nat, q: nat, s: nat, k: nat)
    requires a + p + q == |c| && p > 0 && q > 0 && k < |c|
    ensures var j := NewPlace(k, a, q, p);
            && j < |c| && NewPlace(j, a, p, q) == k && (a <= k <==> a <= j)
            && (Accesses(c[j], s) <==> Accesses(Moved(c, a, p, q)[k], s))
  {
    hide Moved;
    PlacesPermute(a, q, p, k);
    SwapAccesses(c, a, p, q, s);
    var j := NewPlace(k, a, q, p);
    assert 0 <= j < |c|;
    assert NewPlace(j, a, p, q) == k;
  }

  // ---------------------------------------------------------------- what is recorded

  ghost predicate Accessed(c: seq<Instr>, s: nat) {
    exists k :: 0 <= k < |c| && Accesses(c[k], s)
  }

  ghost predicate InFrames(frames: seq<set<nat>>, s: nat) {
    exists f :: 0 <= f < |frames| && s in frames[f]
  }

  /**
   * Every access is at or before the symbol's last access, or a loop still to end will move the latter behind itself.
   */
  ghost predicate Covered(g: Gen) {
    forall k, s | 0 <= k < |g.code| && Accesses(g.code[k], s) ::
      (s in g.last && k <= g.last[s]) || InFrames(g.frames, s)
  }

  /**
   * The last access recorded for s is the largest address of an access to it, and there is none if it is not
   * accessed.
   */
  ghost predicate Largest(c: seq<Instr>, last: map<nat, nat>, s: nat) {
    && (s in last <==> Accessed(c, s))
    && (s in last ==> last[s] < |c| && Accesses(c[last[s]], s))
    && (s in last ==> forall k | 0 <= k < |c| && Accesses(c[k], s) :: k <= last[s])
  }

  lemma WrittenCovers(g: Gen, cfg: Config, i: Instr)
    requires Covered(g) && |g.code| <= NEVER
    ensures Covered(Written(g, cfg, i))
  {
    var n := Written(g, cfg, i);
    forall k, s | 0 <= k < |n.code| && Accesses(n.code[k], s)
        ensures (s in n.last && k <= n.last[s]) || InFrames(n.frames, s) {
      if k < |g.code| {
        assert Accesses(g.code[k], s);
        if InFrames(g.frames, s) {
          var f :| 0 <= f < |g.frames| && s in g.frames[f];
          assert s in n.frames[f];
        }
      } else if Deferred(g, cfg, s) {
        assert s in n.frames[Keeper(g, cfg, s)];
      }
    }
  }

  lemma OpenedCovers(g: Gen)
    requires Covered(g)
    ensures Covered(Opened(g))
  {
    var n := Opened(g);
    forall k, s | 0 <= k < |n.code| && Accesses(n.code[k], s)
        ensures (s in n.last && k <= n.last[s]) || InFrames(n.frames, s) {
      if InFrames(g.frames, s) {
        var f :| 0 <= f < |g.frames| && s in g.frames[f];
        assert s in n.frames[f];
      }
    }
  }

  lemma ClosedCovers(g: Gen)
    requires Covered(g) && g.frames != []
    ensures Covered(Closed(g))
  {
    var n := Closed(g);
    forall k, s | 0 <= k < |n.code| && Accesses(n.code[k], s)
        ensures (s in n.last && k <= n.last[s]) || InFrames(n.frames, s) {
      assert Accesses(g.code[k], s);
      if InFrames(g.frames, s) && s !in g.frames[|g.frames| - 1] {
        var f :| 0 <= f < |g.frames| && s in g.frames[f];
        assert s in n.frames[f];
      }
    }
  }

  lemma {:induction false} MovedCovers(g: Gen, start: nat, target: nat)
    requires Covered(g) && target <= start <= |g.code|
    ensures Covered(MovedBack(g, start, target))
  {
    if start == target || start == |g.code| {
      return;
    }
    hide Moved, LastAfter;
    var c, a, p, q := g.code, target, start - target, |g.code| - start;
    var n := MovedBack(g, start, target);
    forall k, s | 0 <= k < |n.code| && Accesses(n.code[k], s)
        ensures (s in n.last && k <= n.last[s]) || InFrames(n.frames, s) {
      LastAfterIs(n.code, a, |n.code|, g.last, s);
      SwapAccessesBack(c, a, p, q, s, k);
      if k < a {
        SwapAccesses(c, a, p, q, s);
        assert n.code[..a][k] == c[..a][k];
      }
    }
  }

  /** Before the moved code nothing changes; from there on accesses go to new places. */
  lemma {:induction false} MovedAccesses(c: seq<Instr>, a: nat, p: nat, q: nat, s: nat)
    requires a + p + q == |c| && p > 0 && q > 0
    ensures var d := Moved(c, a, p, q);
            && (forall k | 0 <= k < a :: Accesses(c[k], s) <==> Accesses(d[k], s))
            && ((exists k :: a <= k < |c| && Accesses(c[k], s)) <==> exists k :: a <= k < |d| && Accesses(d[k], s))
  {
    hide Moved;
    var d := Moved(c, a, p, q);
    SwapAccesses(c, a, p, q, s);
    forall k | 0 <= k < a ensures Accesses(c[k], s) <==> Accesses(d[k], s) {
      assert d[..a][k] == c[..a][k];
    }
    if k :| a <= k < |c| && Accesses(c[k], s) {
      assert Accesses(d[NewPlace(k, a, p, q)], s);
    }
    if k :| a <= k < |d| && Accesses(d[k], s) {
      SwapAccessesBack(c, a, p, q, s, k);
    }
  }

  /** Code from `a` on has been rearranged and walked over. */
  lemma WalkLargest(c: seq<Instr>, d: seq<Instr>, a: nat, last: map<nat, nat>, s: nat)
    requires a <= |c| == |d| && Largest(c, last, s)
    requires forall k | 0 <= k < a :: Accesses(c[k], s) <==> Accesses(d[k], s)
    requires (exists k :: a <= k < |c| && Accesses(c[k], s)) <==> exists k :: a <= k < |d| && Accesses(d[k], s)
    ensures Largest(d, LastAfter(d, a, |d|, last), s)
  {
    hide LastAfter, Accesses;
    LastAfterIs(d, a, |d|, last, s);
  }

  lemma MovedLargest(g: Gen, start: nat, target: nat, s: nat)
    requires Largest(g.code, g.last, s) && target <= start <= |g.code|
    ensures var n := MovedBack(g, start, target); Largest(n.code, n.last, s)
  {
    hide Moved, LastAfter, Largest;
    if start != target && start != |g.code| {
      MovedAccesses(g.code, target, start - target, |g.code| - start, s);
      WalkLargest(g.code, Moved(g.code, target, start - target, |g.code| - start), target, g.last, s);
    }
  }

  // ---------------------------------------------------------------- all runs

  datatype Op = Write(i: Instr) | MoveBack(start: nat, target: nat) | Open | Close

  /** What the generator accepts; anything else is a fatal error and changes nothing. */
  predicate Possible(g: Gen, op: Op) {
    match op
    case Write(_) => |g.code| < CAPACITY
    case MoveBack(start, target) =>
      && target <= start <= |g.code|
      && (start == target || |g.code| - start <= CAPACITY - |g.code|)
    case Open => |g.frames| < MAX_LOOP_DEPTH
    case Close => g.frames != []
  }

  function Apply(g: Gen, cfg: Config, op: Op): Gen {
    if !Possible(g, op) then g
    else match op
      case Write(i) => Written(g, cfg, i)
      case MoveBack(start, target) => MovedBack(g, start, target)
      case Open => Opened(g)
      case Close => Closed(g)
  }

  function Run(cfg: Config, ops: seq<Op>): Gen {
    if ops == [] then START else Apply(Run(cfg, ops[..|ops| - 1]), cfg, ops[|ops| - 1])
  }

  lemma ApplyCovers(g: Gen, cfg: Config, op: Op)
    requires Covered(g) && |g.code| <= CAPACITY
    ensures Covered(Apply(g, cfg, op)) && |Apply(g, cfg, op).code| <= CAPACITY
  {
    hide Covered, Moved, LastAfter;
    if Possible(g, op) {
      match op
      case Write(i) => WrittenCovers(g, cfg, i);
      case MoveBack(start, target) => MovedCovers(g, start, target);
      case Open => OpenedCovers(g);
      case Close => ClosedCovers(g);
    }
  }

  /** In every run, whatever is emitted, moved, opened and closed, the last accesses bound the accesses. */
  lemma {:induction false} AlwaysCovered(cfg: Config, ops: seq<Op>)
    ensures Covered(Run(cfg, ops)) && |Run(cfg, ops).code| <= CAPACITY
  {
    hide Apply;
    if ops != [] {
      AlwaysCovered(cfg, ops[..|ops| - 1]);
      ApplyCovers(Run(cfg, ops[..|ops| - 1]), cfg, ops[|ops| - 1]);
    }
  }

  /** Once all loops have ended, no symbol is accessed behind its last access. */
  lemma BoundedOutsideLoops(cfg: Config, ops: seq<Op>, k: nat, s: nat)
    requires Run(cfg, ops).frames == [] && k < |Run(cfg, ops).code| && Accesses(Run(cfg, ops).code[k], s)
    ensures s in Run(cfg, ops).last && k <= Run(cfg, ops).last[s]
  {
    hide Run;
    AlwaysCovered(cfg, ops);
  }

  /**
   * s is accessed outside of all loops, or in loops it was created in and need not be kept to the end of. Its address
   * is never taken.
   */
  ghost predicate Direct(cfg: Config, ops: seq<Op>, s: nat) {
    forall u | 0 <= u < |ops| && ops[u].Write? :: DirectAt(cfg, ops, u, s)
  }

  predicate DirectAt(cfg: Config, ops: seq<Op>, u: nat, s: nat)
    requires u < |ops| && ops[u].Write?
  {
    var depth := |Run(cfg, ops[..u]).frames|;
    !Loads(ops[u].i, s) && (Accesses(ops[u].i, s) ==> depth == 0 || (depth <= cfg.scope(s) && !cfg.safe))
  }

  lemma {:induction false} WrittenLargest(g: Gen, cfg: Config, i: Instr, s: nat)
    requires Largest(g.code, g.last, s) && !InFrames(g.frames, s)
    requires !Loads(i, s) && (Accesses(i, s) ==> !Deferred(g, cfg, s))
    ensures var n := Written(g, cfg, i); Largest(n.code, n.last, s) && !InFrames(n.frames, s)
  {
    var n := Written(g, cfg, i);
    assert n.code[|g.code|] == i && forall k | 0 <= k < |g.code| :: n.code[k] == g.code[k];
    forall f | 0 <= f < |n.frames| ensures s !in n.frames[f] {
      assert s !in g.frames[f];
    }
    assert Accessed(n.code, s) <==> Accessed(g.code, s) || Accesses(i, s);
  }

  lemma ApplyLargest(g: Gen, cfg: Config, op: Op, s: nat)
    requires Largest(g.code, g.last, s) && !InFrames(g.frames, s)
    requires op.Write? ==> !Loads(op.i, s) && (Accesses(op.i, s) ==> !Deferred(g, cfg, s))
    ensures var n := Apply(g, cfg, op); Largest(n.code, n.last, s) && !InFrames(n.frames, s)
  {
    hide Moved, LastAfter;
    if Possible(g, op) {
      match op
      case Write(i) => WrittenLargest(g, cfg, i, s);
      case MoveBack(start, target) => MovedLargest(g, start, target, s);
      case Open =>
      case Close =>
        var top := g.frames[|g.frames| - 1];
        assert s !in top;
    }
  }

  /**
   * In every run, a symbol not accessed in a loop that is to keep it has the address of its last access recorded,
   * and one that is not accessed has nothing recorded.
   */
  lemma {:induction false} OutsideLoopsLargest(cfg: Config, ops: seq<Op>, s: nat)
    requires Direct(cfg, ops, s)
    ensures var g := Run(cfg, ops); Largest(g.code, g.last, s) && !InFrames(g.frames, s)
  {
    hide Apply;
    if ops != [] {
      var before, t := ops[..|ops| - 1], |ops| - 1;
      forall u | 0 <= u < |before| && before[u].Write? ensures DirectAt(cfg, before, u, s) {
        assert DirectAt(cfg, ops, u, s) && before[..u] == ops[..u];
      }
      OutsideLoopsLargest(cfg, before, s);
      assert ops[t].Write? ==> DirectAt(cfg, ops, t, s);
      hide Largest, InFrames;
      ApplyLargest(Run(cfg, before), cfg, ops[t], s);
    }
  }

  // ---------------------------------------------------------------- the ends of loops

  /** Where the end of the code before address e goes: behind its last instruction. */
  function NewEnd(e: nat, a: nat, p: nat, q: nat): nat
    requires e > 0
  {
    NewPlace(e - 1, a, p, q) + 1
  }

  /**
   * A symbol kept to the end `e` of a loop, which is its last access or before that, is still kept to that end after
   * a move exactly if an access to it goes behind the end, or no access to it is in the code moved and passed.
   */
  lemma {:induction false} LoopEndKept(g: Gen, start: nat, target: nat, s: nat, e: nat)
    requires target < start < |g.code| && s in g.last && 0 < e <= g.last[s] && e <= |g.code|
    ensures var n, p, q := MovedBack(g, start, target), start - target, |g.code| - start;
            var e' := NewEnd(e, target, p, q);
            s in n.last &&
            (n.last[s] >= e' <==>
               || (exists k :: target <= k < |g.code| && Accesses(g.code[k], s) && NewPlace(k, target, p, q) >= e')
               || ((forall k | target <= k < |g.code| :: !Accesses(g.code[k], s)) && g.last[s] >= e'))
  {
    hide Moved, LastAfter;
    var n, p, q := MovedBack(g, start, target), start - target, |g.code| - start;
    var c, d := g.code, n.code;
    LastAfterIs(d, target, |d|, g.last, s);
    SwapAccesses(c, target, p, q, s);
    if target <= n.last[s] < |d| && Accesses(d[n.last[s]], s) {
      SwapAccessesBack(c, target, p, q, s, n.last[s]);
      var k := NewPlace(n.last[s], target, q, p);
      assert Accesses(c[k], s) && NewPlace(k, target, p, q) == n.last[s];
    } else {
      forall k | target <= k < |c| ensures !Accesses(c[k], s) {
        assert Accesses(c[k], s) <==> Accesses(d[NewPlace(k, target, p, q)], s);
      }
    }
  }

  lemma RunStep(cfg: Config, ops: seq<Op>, op: Op)
    ensures Run(cfg, ops + [op]) == Apply(Run(cfg, ops), cfg, op)
  {
    assert (ops + [op])[..|ops|] == ops;
  }

  /** An outer loop with an inner one of three instructions, the second of which accesses symbol 7. */
  function InnerLoop(other: Instr, use: Instr): seq<Op> {
    [Open] + [Write(other)] + [Open] + [Write(other)] + [Write(use)] + [Write(other)] + [Close]
  }

  /** An instruction without a symbol is just appended. */
  lemma OtherWritten(cfg: Config, ops: seq<Op>, other: Instr)
    requires other.sym == None && |Run(cfg, ops).code| < CAPACITY
    ensures Run(cfg, ops + [Write(other)]) == Run(cfg, ops).(code := Run(cfg, ops).code + [other])
  {
    RunStep(cfg, ops, Write(other));
  }

  lemma InnerLoopBegins(cfg: Config, other: Instr)
    requires other == Instr(Plain(0), None)
    ensures Run(cfg, [Open] + [Write(other)] + [Open] + [Write(other)]) == Gen([other, other], map[], [{}, {}])
  {
    hide Run, Written;
    RunStart(cfg);
    RunStep(cfg, [], Open);
    assert [] + [Open] == [Open];
    OtherWritten(cfg, [Open], other);
    RunStep(cfg, [Open] + [Write(other)], Open);
    assert Run(cfg, [Open] + [Write(other)] + [Open]) == Gen([other], map[], [{}, {}]);
    OtherWritten(cfg, [Open] + [Write(other)] + [Open], other);
  }

  lemma {:induction false} InnerLoopRun(cfg: Config, other: Instr, use: Instr)
    requires cfg.scope(7) == 1 && other == Instr(Plain(0), None) && use == Instr(Plain(1), Some(7))
    ensures Run(cfg, InnerLoop(other, use)) == Gen([other, other, use, other], map[7 := 4], [{}])
  {
    hide Run, Written;
    var ops := [Open] + [Write(other)] + [Open] + [Write(other)];
    InnerLoopBegins(cfg, other);
    RunStep(cfg, ops, Write(use));
    KeptInner(cfg, Gen([other, other], map[], [{}, {}]), use);
    OtherWritten(cfg, ops + [Write(use)], other);
    RunStep(cfg, ops + [Write(use)] + [Write(other)], Close);
    var g := Gen([other, other, use, other], map[], [{}, {7}]);
    assert Run(cfg, ops + [Write(use)] + [Write(other)]) == g;
    assert Closed(g) == Gen(g.code, map[7 := 4], [{}]);
  }

  lemma KeptInner(cfg: Config, g: Gen, use: Instr)
    requires cfg.scope(7) == 1 && use == Instr(Plain(1), Some(7)) && g.last == map[] && g.frames == [{}, {}]
    ensures Written(g, cfg, use) == Gen(g.code + [use], map[], [{}, {7}])
  {
    var kept: set<nat> := {7};
    assert Keeper(g, cfg, 7) == 1 && g.frames[1] + kept == kept;
  }

  /**
   * So it fails for a symbol created in an outer loop and read only in an inner one: it is kept to the end of the
   * inner loop until the code that sets up the outer loop goes before its body. Then it seems to be needed no longer
   * behind address 3, and the inner loop still has the instruction at address 4 and goes back to the one at 2.
   */
  lemma {:induction false} LoopEndLost(cfg: Config, other: Instr, use: Instr)
    requires cfg.scope(7) == 1 && other == Instr(Plain(0), None) && use == Instr(Plain(1), Some(7))
    ensures Run(cfg, InnerLoop(other, use)) == Gen([other, other, use, other], map[7 := 4], [{}])
    ensures Run(cfg, InnerLoop(other, use) + [Write(other)] + [MoveBack(4, 0)]) ==
            Gen([other, other, other, use, other], map[7 := 3], [{}])
    ensures NewEnd(4, 0, 4, 1) == 5
  {
    hide Run, Moved, LastAfter, InnerLoop;
    InnerLoopRun(cfg, other, use);
    var ops := InnerLoop(other, use);
    RunStep(cfg, ops, Write(other));
    var g := Gen([other, other, use, other, other], map[7 := 4], [{}]);
    assert Run(cfg, ops + [Write(other)]) == g;
    RunStep(cfg, ops + [Write(other)], MoveBack(4, 0));
    LastMove(g, other, use);
  }

  lemma RunStart(cfg: Config)
    ensures Run(cfg, []) == START
  {
  }

  lemma {:induction false} LastMove(g: Gen, other: Instr, use: Instr)
    requires other == Instr(Plain(0), None) && use == Instr(Plain(1), Some(7))
    requires g == Gen([other, other, use, other, other], map[7 := 4], [{}])
    ensures MovedBack(g, 4, 0) == Gen([other, other, other, use, other], map[7 := 3], [{}])
  {
    var d := Moved(g.code, 0, 4, 1);
    assert d == [other, other, other, use, other] by {
      hide Moved;
      forall k | 0 <= k < 5 ensures NewPlace(k, 0, 4, 1) < 5 && d[NewPlace(k, 0, 4, 1)] == g.code[k] {
        MovedAt(g.code, 0, 4, 1, k);
      }
      assert d[1] == g.code[0] && d[2] == g.code[1] && d[3] == g.code[2] && d[4] == g.code[3] && d[0] == g.code[4] by {
        assert NewPlace(0, 0, 4, 1) == 1 && NewPlace(1, 0, 4, 1) == 2 && NewPlace(2, 0, 4, 1) == 3
            && NewPlace(3, 0, 4, 1) == 4 && NewPlace(4, 0, 4, 1) == 0;
      }
    }
    hide Moved;
    var last := g.last;
    assert LastAfter(d, 0, 3, last) == last by {
      assert LastAfter(d, 0, 0, last) == last && LastAfter(d, 0, 1, last) == last && LastAfter(d, 0, 2, last) == last;
    }
    assert LastAfter(d, 0, 4, last) == map[7 := 3];
  }
}
