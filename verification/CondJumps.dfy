/** Short-circuit jump code for conditions: emission with labels, and what the code reaches. */
module CondJumps {
  import opened CondSyntax

  datatype Target = Ref(id: nat) | Rel(offset: int)

  /** Compare runs the next instruction exactly when the comparison, or its negation, holds. */
  datatype Instr = Compare(a: Atom, negate: bool) | Goto(t: Target)

  /** Where a goto is to lead: to a label not placed yet, or to a code address. */
  datatype Aim = Label(id: nat) | Address(p: nat)

  function Jump(aim: Aim, i: nat): Instr {
    match aim
    case Label(id) => Goto(Ref(id))
    case Address(p) => Goto(Rel(p - i))
  }

  // ---------------------------------------------------------------- labels

  const MAX_LABELS := 31

  /** Code so far and the label ids not in use. */
  datatype Gen = Gen(code: seq<Instr>, free: set<nat>)
  {
    predicate Ids() {
      forall x | x in free :: x < MAX_LABELS
    }

    predicate Valid() {
      Ids() && forall i | 0 <= i < |code| :: Settled(code[i])
    }

    /** A goto refers to a label in use, if to any. */
    predicate Settled(i: Instr) {
      i.Goto? && i.t.Ref? ==> i.t.id !in free
    }

    function Emit(i: Instr): Gen { this.(code := code + [i]) }
  }

  /** The label id that is handed out: the highest free one. */
  function Highest(free: set<nat>, n: nat): (x: nat)
    ensures (exists k :: k in free && k < n) ==> x in free && x < n
    ensures forall k | k in free && k < n :: k <= x
  {
    if n == 0 then 0 else if n - 1 in free then n - 1 else Highest(free, n - 1)
  }

  /** Instruction i once label x is known to aim there. */
  function ResolveAt(c: Instr, i: nat, x: nat, aim: Aim): Instr {
    if c == Goto(Ref(x)) then Jump(aim, i) else c
  }

  /** All gotos of a piece of code, starting at address `at`, resolved. */
  function Resolve(code: seq<Instr>, at: nat, x: nat, aim: Aim): (r: seq<Instr>)
    ensures |r| == |code|
  {
    seq(|code|, i requires 0 <= i < |code| => ResolveAt(code[i], at + i, x, aim))
  }

  /** The code from address `start` on resolved, as the label was created there. */
  function ResolveFrom(g: Gen, start: nat, x: nat, aim: Aim): Gen
    requires start <= |g.code|
  {
    Gen(g.code[..start] + Resolve(g.code[start..], start, x, aim), g.free + {x})
  }

  class JumpEmitter {
    var code: seq<Instr>
    var free: set<nat>

    function Contents(): Gen
      reads this
    {
      Gen(code, free)
    }

    constructor (g: Gen)
      ensures Contents() == g
    {
      code, free := g.code, g.free;
    }

    method WriteCode(i: Instr)
      modifies this
      ensures Contents() == old(Contents()).Emit(i)
    {
      code := code + [i];
    }

    /** Hands out a label id, if there is one left. */
    method GetLabelId() returns (ok: bool, x: nat)
      requires Contents().Ids()
      modifies this
      ensures ok == (old(free) != {})
      ensures code == old(code) && (ok ==> x == Highest(old(free), MAX_LABELS) && free == old(free) - {x})
      ensures !ok ==> free == old(free)
    {
      ok, x := false, MAX_LABELS;
      while x > 0 && !ok
        invariant x <= MAX_LABELS && free == old(free) && code == old(code)
        invariant forall k | k in free :: k < MAX_LABELS
        invariant forall k | k in free :: k <= x
        invariant ok ==> x in free
        invariant !ok ==> x !in free && forall k | k in free :: k < x
        decreases x, !ok
      {
        x := x - 1;
        ok := x in free;
      }
      if ok {
        free := free - {x};
        HighestIs(old(free), MAX_LABELS, x);
      }
    }

    /** Makes every goto of label x one of label y, and gives x back. */
    method ReplaceLabel(x: nat, start: nat, y: nat)
      requires start <= |code|
      modifies this
      ensures Contents() == ResolveFrom(old(Contents()), start, x, Label(y))
    {
      for i := start to |code|
        invariant |code| == |old(code)| && free == old(free)
        invariant code[..start] == old(code)[..start]
        invariant forall j | start <= j < |code| ::
          code[j] == if j < i then ResolveAt(old(code)[j], j, x, Label(y)) else old(code)[j]
      {
        if code[i].Goto? && code[i].t == Ref(x) {
          code := code[i := Goto(Ref(y))];
        }
      }
      free := free + {x};
      ResolvedPointwise(old(Contents()), start, x, Label(y), code);
    }

    /** Points every goto of label x at address p, and gives x back. */
    method DeleteLabel(x: nat, start: nat, p: nat)
      requires start <= |code|
      modifies this
      ensures Contents() == ResolveFrom(old(Contents()), start, x, Address(p))
    {
      for i := start to |code|
        invariant |code| == |old(code)| && free == old(free)
        invariant code[..start] == old(code)[..start]
        invariant forall j | start <= j < |code| ::
          code[j] == if j < i then ResolveAt(old(code)[j], j, x, Address(p)) else old(code)[j]
      {
        if code[i].Goto? && code[i].t == Ref(x) {
          code := code[i := Goto(Rel(p - i))];
        }
      }
      free := free + {x};
      ResolvedPointwise(old(Contents()), start, x, Address(p), code);
    }
  }

  lemma {:induction false} HighestIs(free: set<nat>, n: nat, x: nat)
    requires x in free && x < n && forall k | k in free && k < n :: k <= x
    ensures Highest(free, n) == x
  {
    if n - 1 !in free {
      HighestIs(free, n - 1, x);
    }
  }

  lemma {:induction false} ResolvedPointwise(g: Gen, start: nat, x: nat, aim: Aim, code: seq<Instr>)
    requires start <= |g.code| == |code| && code[..start] == g.code[..start]
    requires forall j | start <= j < |code| :: code[j] == ResolveAt(g.code[j], j, x, aim)
    ensures code == ResolveFrom(g, start, x, aim).code
  {
    var r := ResolveFrom(g, start, x, aim).code;
    forall j | 0 <= j < |code| ensures code[j] == r[j] {
      if j < start { assert code[j] == code[..start][j]; }
    }
  }

  // ---------------------------------------------------------------- the parser

  datatype Outcome = Parsed(g: Gen, rest: seq<Token>) | Failed

  /** The operator behind an element: a closing bracket ends the level. */
  predicate EndsLevel(toks: seq<Token>) {
    toks != [] && toks[0].Close?
  }

  predicate Joins(toks: seq<Token>, mode: set<Join>) {
    toks != [] && toks[0].Junction? && mode <= {toks[0].op}
  }

  /** Emits a comparison and the goto it gates. */
  function EmitTest(g: Gen, a: Atom, negate: bool, aim: nat): Gen {
    g.Emit(Compare(a, negate)).Emit(Goto(Ref(aim)))
  }

  /** Reads one comparison: its text, and what follows. Operands without matching brackets are errors in themselves. */
  function ReadAtom(toks: seq<Token>): (r: (Atom, seq<Token>, bool))
    ensures r.2 ==> |r.1| < |toks|
  {
    var n := OperandLength(toks, 0);
    if n == 0 || n == |toks| || !toks[n].Relation? then (Atom([], 0, []), [], false)
    else
      var more := toks[n + 1..];
      var m := OperandLength(more, 0);
      (Atom(toks[..n], toks[n].r, more[..m]), more[m..], Operand(toks[..n]) && Operand(more[..m]))
  }

  /** Places the labels of a bracketed element whose code has just been emitted. */
  function PlaceGroup(g: Gen, start: nat, x: nat, y: nat, orBehind: bool, labelThen: nat, labelElse: nat): (r: Gen)
    requires start <= |g.code|
    ensures r.free == g.free + {x, y} && |g.code| <= |r.code|
  {
    if orBehind then
      var g1 := ResolveFrom(g, start, x, Label(labelThen)).Emit(Goto(Ref(labelThen)));
      ResolveFrom(g1, start, y, Address(|g1.code|))
    else
      var g1 := ResolveFrom(g, start, y, Label(labelElse));
      ResolveFrom(g1, start, x, Address(|g1.code|))
  }

  /** Takes the two labels of a bracketed element out of the free ones. */
  function TakeTwo(g: Gen): (nat, nat, Gen) {
    var x := Highest(g.free, MAX_LABELS);
    var y := Highest(g.free - {x}, MAX_LABELS);
    (x, y, g.(free := g.free - {x} - {y}))
  }

  /** Parses the elements of one bracket level up to its closing bracket, emitting jumps to the two labels. */
  function ParseLevel(g: Gen, toks: seq<Token>, mode: set<Join>, labelThen: nat, labelElse: nat): (r: Outcome)
    ensures r.Parsed? ==> |g.code| <= |r.g.code| && |r.rest| < |toks| && (g.Ids() ==> r.g.Ids())
    decreases |toks|
  {
    if StartsGroup(toks) then
      if |g.free| < 2 then Failed
      else
        var two := TakeTwo(g);
        var inner := ParseLevel(two.2, toks[1..], {}, two.0, two.1);
        if inner.Failed? || !EndsLevel(inner.rest) then Failed
        else
          var rest := inner.rest[1..];
          if EndsLevel(rest) then
            Parsed(PlaceGroup(inner.g, |g.code|, two.0, two.1, false, labelThen, labelElse), rest)
          else if !Joins(rest, mode) then Failed
          else
            ParseLevel(PlaceGroup(inner.g, |g.code|, two.0, two.1, rest[0].op == Or, labelThen, labelElse),
                       rest[1..], {rest[0].op}, labelThen, labelElse)
    else
      var atom := ReadAtom(toks);
      if !atom.2 then Failed
      else if EndsLevel(atom.1) then Parsed(EmitTest(g, atom.0, true, labelElse), atom.1)
      else if !Joins(atom.1, mode) then Failed
      else if atom.1[0].op == Or then
        ParseLevel(EmitTest(g, atom.0, false, labelThen), atom.1[1..], {Or}, labelThen, labelElse)
      else
        ParseLevel(EmitTest(g, atom.0, true, labelElse), atom.1[1..], {And}, labelThen, labelElse)
  }

  /** The parser as it runs: a loop over the elements of one level, recursive in bracketed ones. */
  method ParseIfExp(gen: JumpEmitter, toks: seq<Token>, labelThen: nat, labelElse: nat)
    returns (ok: bool, rest: seq<Token>)
    requires gen.Contents().Ids()
    modifies gen
    ensures var r := ParseLevel(old(gen.Contents()), toks, {}, labelThen, labelElse);
            if ok then r == Parsed(gen.Contents(), rest) else r.Failed?
    decreases |toks|, 1
  {
    rest := toks;
    var mode: set<Join>, last := {}, false;
    while !last
      invariant |rest| <= |toks| && gen.Contents().Ids()
      invariant var r := ParseLevel(old(gen.Contents()), toks, {}, labelThen, labelElse);
                if last then r == Parsed(gen.Contents(), rest)
                else r == ParseLevel(gen.Contents(), rest, mode, labelThen, labelElse)
      decreases !last, |rest|
    {
      if StartsGroup(rest) {
        ok, last, mode, rest := ParseGroup(gen, rest, mode, labelThen, labelElse);
      } else {
        ok, last, mode, rest := ParseComparison(gen, rest, mode, labelThen, labelElse);
      }
      if !ok {
        return;
      }
    }
    ok := true;
  }

  /** One turn of the loop did what the parser does first. */
  predicate OneElement(g: Gen, toks: seq<Token>, mode: set<Join>, labelThen: nat, labelElse: nat,
                       g': Gen, ok: bool, last: bool, mode': set<Join>, rest: seq<Token>)
  {
    var r := ParseLevel(g, toks, mode, labelThen, labelElse);
    if !ok then r.Failed?
    else if last then r == Parsed(g', rest)
    else |rest| < |toks| && r == ParseLevel(g', rest, mode', labelThen, labelElse)
  }

  method ParseComparison(gen: JumpEmitter, toks: seq<Token>, mode0: set<Join>, labelThen: nat, labelElse: nat)
    returns (ok: bool, last: bool, mode: set<Join>, rest: seq<Token>)
    requires gen.Contents().Ids() && !StartsGroup(toks)
    modifies gen
    ensures gen.Contents().Ids() && |rest| <= |toks|
    ensures OneElement(old(gen.Contents()), toks, mode0, labelThen, labelElse, gen.Contents(), ok, last, mode, rest)
  {
    var atom := ReadAtom(toks);
    ok, last, mode, rest := atom.2, true, mode0, atom.1;
    if !ok {
      return;
    }
    last := EndsLevel(rest);
    if !last {
      if !Joins(rest, mode) {
        ok := false;
        return;
      }
      mode := {rest[0].op};
      rest := rest[1..];
    }
    if mode == {Or} && !last {
      gen.WriteCode(Compare(atom.0, false));
      gen.WriteCode(Goto(Ref(labelThen)));
    } else {
      gen.WriteCode(Compare(atom.0, true));
      gen.WriteCode(Goto(Ref(labelElse)));
    }
  }

  lemma FewLabels(g: Gen, toks: seq<Token>, mode: set<Join>, labelThen: nat, labelElse: nat)
    requires StartsGroup(toks) && |g.free| < 2
    ensures ParseLevel(g, toks, mode, labelThen, labelElse).Failed?
  {
  }

  method ParseGroup(gen: JumpEmitter, toks: seq<Token>, mode0: set<Join>, labelThen: nat, labelElse: nat)
    returns (ok: bool, last: bool, mode: set<Join>, rest: seq<Token>)
    requires gen.Contents().Ids() && StartsGroup(toks)
    modifies gen
    ensures ok ==> gen.Contents().Ids() && |rest| <= |toks|
    ensures OneElement(old(gen.Contents()), toks, mode0, labelThen, labelElse, gen.Contents(), ok, last, mode, rest)
    decreases |toks|, 0
  {
    hide PlaceGroup, ReadAtom, Highest;
    last, mode, rest := true, mode0, toks;
    ghost var g := gen.Contents();
    var start := |gen.code|;
    var x, y;
    ok, x := gen.GetLabelId();
    if !ok {
      FewLabels(g, toks, mode0, labelThen, labelElse);
      return;
    }
    ok, y := gen.GetLabelId();
    if !ok {
      assert g.free == {x};
      FewLabels(g, toks, mode0, labelThen, labelElse);
      return;
    }
    ok, rest := ParseIfExp(gen, toks[1..], x, y);
    if !ok || !EndsLevel(rest) {
      return false, last, mode, toks;
    }
    rest := rest[1..];
    last := EndsLevel(rest);
    if !last {
      if !Joins(rest, mode) {
        return false, last, mode, toks;
      }
      mode := {rest[0].op};
      rest := rest[1..];
    }
    PlaceLabels(gen, start, x, y, !last && mode == {Or}, labelThen, labelElse);
  }

  method PlaceLabels(gen: JumpEmitter, start: nat, x: nat, y: nat, orBehind: bool, labelThen: nat, labelElse: nat)
    requires start <= |gen.code|
    modifies gen
    ensures gen.Contents() == PlaceGroup(old(gen.Contents()), start, x, y, orBehind, labelThen, labelElse)
  {
    if orBehind {
      gen.ReplaceLabel(x, start, labelThen);
      gen.WriteCode(Goto(Ref(labelThen)));
      gen.DeleteLabel(y, start, |gen.code|);
    } else {
      gen.ReplaceLabel(y, start, labelElse);
      gen.DeleteLabel(x, start, |gen.code|);
    }
  }
}
