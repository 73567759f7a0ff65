/** The jump code of a condition takes the branch its truth value demands, evaluating what short-circuiting demands. */
module CondCorrect {
  import opened CondSyntax
  import opened CondJumps

  // ---------------------------------------------------------------- the code as a whole

  function Length(l: Level): nat
    decreases l, 0
  {
    match l
    case Last(e) => ElemLength(e)
    case More(e, op, rest) => FirstLength(e, op) + Length(rest)
  }

  function ElemLength(e: Elem): nat
    decreases e, 0
  {
    match e
    case Single(_) => 2
    case Group(l) => Length(l)
  }

  function FirstLength(e: Elem, op: Join): nat
    decreases e, 1
  {
    ElemLength(e) + if e.Group? && op == Or then 1 else 0
  }

  /** The jump code of a level placed at address i, with its two ways out. */
  function Code(l: Level, i: nat, yes: Aim, no: Aim): (r: seq<Instr>)
    ensures |r| == Length(l)
    decreases l, 1
  {
    match l
    case Last(Single(a)) => [Compare(a, true), Jump(no, i + 1)]
    case Last(Group(g)) => Code(g, i, Address(i + Length(g)), no)
    case More(e, op, rest) => FirstCode(e, op, i, yes, no) + Code(rest, i + FirstLength(e, op), yes, no)
  }

  /** ... of an element that is not the last one. */
  function FirstCode(e: Elem, op: Join, i: nat, yes: Aim, no: Aim): (r: seq<Instr>)
    ensures |r| == FirstLength(e, op)
    decreases e, 0
  {
    match e
    case Single(a) => [Compare(a, op == And), Jump(if op == Or then yes else no, i + 1)]
    case Group(g) =>
      if op == And then Code(g, i, Address(i + Length(g)), no)
      else Code(g, i, yes, Address(i + Length(g) + 1)) + [Jump(yes, i + Length(g))]
  }

  function Renamed(aim: Aim, x: nat, to: Aim): Aim {
    if aim == Label(x) then to else aim
  }

  lemma {:induction false} ResolveJoin(a: seq<Instr>, b: seq<Instr>, i: nat, x: nat, to: Aim)
    ensures Resolve(a + b, i, x, to) == Resolve(a, i, x, to) + Resolve(b, i + |a|, x, to)
  {
    var l, r := Resolve(a + b, i, x, to), Resolve(a, i, x, to) + Resolve(b, i + |a|, x, to);
    forall k | 0 <= k < |l| ensures l[k] == r[k] {
    }
  }

  lemma ResolvePair(c: Instr, aim: Aim, i: nat, x: nat, to: Aim)
    requires c.Compare?
    ensures Resolve([c, Jump(aim, i + 1)], i, x, to) == [c, Jump(Renamed(aim, x, to), i + 1)]
    ensures Resolve([Jump(aim, i)], i, x, to) == [Jump(Renamed(aim, x, to), i)]
  {
  }

  /** Resolving a label in the code of a level gives the code with that way out resolved. */
  lemma {:induction false} ResolveCode(l: Level, i: nat, yes: Aim, no: Aim, x: nat, to: Aim)
    ensures Resolve(Code(l, i, yes, no), i, x, to) == Code(l, i, Renamed(yes, x, to), Renamed(no, x, to))
    decreases l, 1
  {
    hide Resolve, Jump, FirstCode;
    if l.More? {
      ResolveFirst(l.e, l.op, i, yes, no, x, to);
      ResolveCode(l.rest, i + FirstLength(l.e, l.op), yes, no, x, to);
      ResolveJoin(FirstCode(l.e, l.op, i, yes, no), Code(l.rest, i + FirstLength(l.e, l.op), yes, no), i, x, to);
    } else if l.e.Single? {
      ResolvePair(Compare(l.e.a, true), no, i, x, to);
    } else {
      ResolveCode(l.e.l, i, Address(i + Length(l.e.l)), no, x, to);
    }
  }

  lemma {:induction false} ResolveFirst(e: Elem, op: Join, i: nat, yes: Aim, no: Aim, x: nat, to: Aim)
    ensures Resolve(FirstCode(e, op, i, yes, no), i, x, to) ==
            FirstCode(e, op, i, Renamed(yes, x, to), Renamed(no, x, to))
    decreases e, 0
  {
    hide Resolve, Jump, Code;
    if e.Single? {
      ResolvePair(Compare(e.a, op == And), if op == Or then yes else no, i, x, to);
    } else if op == And {
      ResolveCode(e.l, i, Address(i + Length(e.l)), no, x, to);
    } else {
      var n := Length(e.l);
      ResolveCode(e.l, i, yes, Address(i + n + 1), x, to);
      ResolvePair(Compare(Atom([], 0, []), true), yes, i + n, x, to);
      ResolveJoin(Code(e.l, i, yes, Address(i + n + 1)), [Jump(yes, i + n)], i, x, to);
    }
  }

  // ---------------------------------------------------------------- the parser emits that code

  lemma {:induction false} ResolveSuffix(code: seq<Instr>, c: seq<Instr>, free: set<nat>, x: nat, to: Aim)
    ensures ResolveFrom(Gen(code + c, free), |code|, x, to) == Gen(code + Resolve(c, |code|, x, to), free + {x})
  {
    assert (code + c)[..|code|] == code && (code + c)[|code|..] == c;
  }

  /** Placing the labels of a bracketed element that is the last of its level or has an "and" behind it. */
  lemma {:induction false} PlacedInline(code: seq<Instr>, free: set<nat>, g: Level, x: nat, y: nat, t: nat, e: nat)
    requires x != y && {t, e} !! {x, y}
    ensures var start := |code|;
            PlaceGroup(Gen(code + Code(g, start, Label(x), Label(y)), free), start, x, y, false, t, e)
            == Gen(code + Code(g, start, Address(start + Length(g)), Label(e)), free + {x, y})
  {
    hide Code, Resolve, ResolveFrom;
    var start := |code|;
    ResolveCode(g, start, Label(x), Label(y), y, Label(e));
    ResolveSuffix(code, Code(g, start, Label(x), Label(y)), free, y, Label(e));
    ResolveCode(g, start, Label(x), Label(e), x, Address(start + Length(g)));
    ResolveSuffix(code, Code(g, start, Label(x), Label(e)), free + {y}, x, Address(start + Length(g)));
    assert free + {y} + {x} == free + {x, y};
  }

  /** ... and of one with an "or" behind it. */
  lemma {:induction false} PlacedBeforeOr(code: seq<Instr>, free: set<nat>, g: Level, x: nat, y: nat, t: nat, e: nat)
    requires x != y && {t, e} !! {x, y}
    ensures var start, n := |code|, Length(g);
            PlaceGroup(Gen(code + Code(g, start, Label(x), Label(y)), free), start, x, y, true, t, e)
            == Gen(code + (Code(g, start, Label(t), Address(start + n + 1)) + [Jump(Label(t), start + n)]),
                   free + {x, y})
  {
    hide Code, Resolve, ResolveFrom;
    var start, n := |code|, Length(g);
    ResolveCode(g, start, Label(x), Label(y), x, Label(t));
    ResolveSuffix(code, Code(g, start, Label(x), Label(y)), free, x, Label(t));
    var c1, behind := Code(g, start, Label(t), Label(y)), Address(start + n + 1);
    assert code + c1 + [Goto(Ref(t))] == code + (c1 + [Jump(Label(t), start + n)]);
    ResolveCode(g, start, Label(t), Label(y), y, behind);
    ResolvePair(Compare(Atom([], 0, []), true), Label(t), start + n, y, behind);
    ResolveJoin(c1, [Jump(Label(t), start + n)], start, y, behind);
    ResolveSuffix(code, c1 + [Jump(Label(t), start + n)], free + {x}, y, behind);
    assert free + {x} + {y} == free + {x, y};
  }

  /** Emitting a level element by element. */
  lemma {:induction false} CodeGrows(code: seq<Instr>, l: Level, yes: Aim, no: Aim)
    requires l.More?
    ensures var i, first := |code|, FirstCode(l.e, l.op, |code|, yes, no);
            (code + first) + Code(l.rest, i + |first|, yes, no) == code + Code(l, i, yes, no)
  {
    hide FirstCode;
  }

  /** The two labels of a bracketed element are fresh, distinct and given back later. */
  lemma TwoLabels(g: Gen, t: nat, e: nat)
    requires g.Ids() && |g.free| >= 2 && t !in g.free && e !in g.free
    ensures var two := TakeTwo(g);
            && two.0 != two.1 && {t, e} !! {two.0, two.1}
            && two.0 !in two.2.free && two.1 !in two.2.free
            && two.2.code == g.code && two.2.Ids() && |two.2.free| == |g.free| - 2
            && two.2.free + {two.0, two.1} == g.free
  {
    var x := Highest(g.free, MAX_LABELS);
    var k :| k in g.free;
    assert k < MAX_LABELS && x in g.free;
    var left := g.free - {x};
    assert |left| == |g.free| - 1;
    var j :| j in left;
    assert j < MAX_LABELS;
    var y := Highest(left, MAX_LABELS);
    assert y in left;
  }

  /** Enough labels are free for the nesting of brackets. */
  predicate Enough(g: Gen, l: Level) {
    |g.free| >= 2 * Depth(l)
  }

  /** Parsing a printed level succeeds exactly when it is uniform and labels suffice; then it emits the level's code. */
  ghost predicate ParsedAs(r: Outcome, g: Gen, l: Level, mode: set<Join>, t: nat, e: nat, rest: seq<Token>) {
    if Uniform(l, mode) && Enough(g, l)
    then r == Parsed(Gen(g.code + Code(l, |g.code|, Label(t), Label(e)), g.free), [Close] + rest)
    else r.Failed?
  }

  lemma AtomRead(a: Atom, rest: seq<Token>)
    requires ElemWritten(Single(a)) && EndsOperand(rest)
    ensures ReadAtom(PrintElem(Single(a)) + rest) == (a, rest, true)
    ensures !StartsGroup(PrintElem(Single(a)) + rest)
  {
    hide OperandLength, Balanced, StartsGroup;
    var toks, more := PrintElem(Single(a)) + rest, a.right + rest;
    assert toks == a.left + ([Relation(a.rel)] + more);
    OperandRead(a.left, 0, [Relation(a.rel)] + more);
    assert toks[..|a.left|] == a.left && toks[|a.left| + 1..] == more;
    OperandRead(a.right, 0, rest);
    assert more[..|a.right|] == a.right && more[|a.right|..] == rest;
    GroupRecognised(Single(a), rest);
  }

  // single moves of the parser

  lemma TakeLast(g: Gen, a: Atom, mode: set<Join>, t: nat, e: nat, rest: seq<Token>)
    requires ElemWritten(Single(a))
    ensures ParseLevel(g, PrintElem(Single(a)) + ([Close] + rest), mode, t, e)
         == Parsed(EmitTest(g, a, true, e), [Close] + rest)
  {
    hide PrintElem, ReadAtom, StartsGroup;
    AtomRead(a, [Close] + rest);
  }

  lemma TakeSingle(g: Gen, a: Atom, op: Join, mode: set<Join>, t: nat, e: nat, more: seq<Token>)
    requires ElemWritten(Single(a))
    ensures ParseLevel(g, PrintElem(Single(a)) + ([Junction(op)] + more), mode, t, e)
         == if mode <= {op}
            then ParseLevel(EmitTest(g, a, op == And, if op == Or then t else e), more, {op}, t, e) else Failed
  {
    hide PrintElem, ReadAtom, StartsGroup, EmitTest;
    AtomRead(a, [Junction(op)] + more);
    assert ([Junction(op)] + more)[1..] == more;
  }

  lemma GroupText(g: Level, tail: seq<Token>)
    requires Written(g)
    ensures StartsGroup(PrintElem(Group(g)) + tail)
    ensures (PrintElem(Group(g)) + tail)[1..] == Print(g) + ([Close] + tail)
  {
    GroupRecognised(Group(g), tail);
    assert PrintElem(Group(g)) + tail == [Open] + (Print(g) + ([Close] + tail));
  }

  /** A bracketed element: its level is parsed with two new labels, which are then placed. */
  lemma {:induction false} TakeGroup(g: Gen, gl: Level, mode: set<Join>, t: nat, e: nat, tail: seq<Token>)
    requires Written(gl) && (EndsLevel(tail) || (tail != [] && tail[0].Junction?))
    ensures var two := TakeTwo(g);
            var inner := ParseLevel(two.2, Print(gl) + ([Close] + tail), {}, two.0, two.1);
            && (|g.free| < 2 || inner.Failed? ==>
                  ParseLevel(g, PrintElem(Group(gl)) + tail, mode, t, e) == Failed)
            && (|g.free| >= 2 && inner.Parsed? && inner.rest == [Close] + tail ==>
                  ParseLevel(g, PrintElem(Group(gl)) + tail, mode, t, e)
                  == if EndsLevel(tail) then Parsed(PlaceGroup(inner.g, |g.code|, two.0, two.1, false, t, e), tail)
                     else if mode <= {tail[0].op}
                     then ParseLevel(PlaceGroup(inner.g, |g.code|, two.0, two.1, tail[0].op == Or, t, e),
                                     tail[1..], {tail[0].op}, t, e)
                     else Failed)
  {
    hide PrintElem, Print, StartsGroup, PlaceGroup, ReadAtom;
    GroupText(gl, tail);
    assert ([Close] + tail)[1..] == tail;
  }

  // whole levels

  /** What uniformity and depth of a level are made of. */
  lemma LevelParts(g: Gen, l: Level, mode: set<Join>)
    ensures Uniform(l, mode) <==> ElemUniform(l.e) && (l.More? ==> mode <= {l.op} && Uniform(l.rest, {l.op}))
    ensures Enough(g, l) <==> |g.free| >= 2 * ElemDepth(l.e) && (l.More? ==> Enough(g, l.rest))
    ensures l.e.Group? ==> ElemDepth(l.e) == 1 + Depth(l.e.l) && (ElemUniform(l.e) <==> Uniform(l.e.l, {}))
    ensures l.e.Single? ==> ElemDepth(l.e) == 0 && ElemUniform(l.e)
    ensures l.Last? ==> Print(l) == PrintElem(l.e)
    ensures Written(l) <==> ElemWritten(l.e) && (l.More? ==> Written(l.rest))
    ensures l.e.Group? ==> (ElemWritten(l.e) <==> Written(l.e.l))
  {
  }

  lemma {:induction false} ParsesLevel(g: Gen, l: Level, mode: set<Join>, t: nat, e: nat, rest: seq<Token>)
    requires Written(l) && g.Ids() && t !in g.free && e !in g.free
    ensures ParsedAs(ParseLevel(g, Print(l) + ([Close] + rest), mode, t, e), g, l, mode, t, e, rest)
    decreases l, 1
  {
    hide ParseLevel;
    if l.e.Single? {
      ParsesSingle(g, l, mode, t, e, rest);
    } else {
      ParsesGroup(g, l, mode, t, e, rest);
    }
  }

  lemma {:induction false} ParsesSingle(g: Gen, l: Level, mode: set<Join>, t: nat, e: nat, rest: seq<Token>)
    requires Written(l) && l.e.Single? && g.Ids() && t !in g.free && e !in g.free
    ensures ParsedAs(ParseLevel(g, Print(l) + ([Close] + rest), mode, t, e), g, l, mode, t, e, rest)
    decreases l, 0
  {
    hide ParseLevel, PrintElem;
    LevelParts(g, l, mode);
    var a := l.e.a;
    if l.Last? {
      TakeLast(g, a, mode, t, e, rest);
      assert EmitTest(g, a, true, e).code == g.code + Code(l, |g.code|, Label(t), Label(e));
    } else {
      var more := Print(l.rest) + ([Close] + rest);
      assert Print(l) + ([Close] + rest) == PrintElem(l.e) + ([Junction(l.op)] + more);
      TakeSingle(g, a, l.op, mode, t, e, more);
      var aim := if l.op == Or then t else e;
      var g1 := EmitTest(g, a, l.op == And, aim);
      ParsesLevel(g1, l.rest, {l.op}, t, e, rest);
      assert g1.code == g.code + [Compare(a, l.op == And), Jump(Label(aim), |g.code| + 1)];
      CodeGrows(g.code, l, Label(t), Label(e));
    }
  }

  lemma {:induction false} ParsesGroup(g: Gen, l: Level, mode: set<Join>, t: nat, e: nat, rest: seq<Token>)
    requires Written(l) && l.e.Group? && g.Ids() && t !in g.free && e !in g.free
    ensures ParsedAs(ParseLevel(g, Print(l) + ([Close] + rest), mode, t, e), g, l, mode, t, e, rest)
    decreases l, 0
  {
    hide ParseLevel, PrintElem, Code, TakeTwo, PlaceGroup, Length, Uniform, Depth, ElemDepth, ElemUniform;
    hide Written, ElemWritten;
    LevelParts(g, l, mode);
    var more := if l.Last? then [] else Print(l.rest) + ([Close] + rest);
    var tail := if l.Last? then [Close] + rest else [Junction(l.op)] + more;
    assert Print(l) + ([Close] + rest) == PrintElem(l.e) + tail;
    assert l.More? ==> tail[1..] == more;
    TakeGroup(g, l.e.l, mode, t, e, tail);
    if |g.free| >= 2 {
      TwoLabels(g, t, e);
      var two := TakeTwo(g);
      ParsesLevel(two.2, l.e.l, {}, two.0, two.1, tail);
      if Uniform(l.e.l, {}) && Enough(two.2, l.e.l) {
        if l.Last? || l.op == And {
          PlacedInline(g.code, two.2.free, l.e.l, two.0, two.1, t, e);
        } else {
          PlacedBeforeOr(g.code, two.2.free, l.e.l, two.0, two.1, t, e);
        }
        if l.More? {
          var placed := PlaceGroup(Gen(g.code + Code(l.e.l, |g.code|, Label(two.0), Label(two.1)), two.2.free),
                                   |g.code|, two.0, two.1, l.op == Or, t, e);
          ParsesLevel(placed, l.rest, {l.op}, t, e, rest);
          CodeGrows(g.code, l, Label(t), Label(e));
        } else {
          LastGroupCode(l, |g.code|, Label(t), Label(e));
        }
      }
    }
  }

  lemma LastGroupCode(l: Level, i: nat, yes: Aim, no: Aim)
    requires l.Last? && l.e.Group?
    ensures Code(l, i, yes, no) == Code(l.e.l, i, Address(i + Length(l.e.l)), no)
  {
  }

  // ---------------------------------------------------------------- running the code

  /**
   * Runs the code from `pc` until it leaves the range below `end`: where it arrives, and the comparisons evaluated
   * on the way. A comparison runs the next instruction exactly when it holds (or, negated, fails). Conditions only
   * jump forward; at anything else the run stops inside the range.
   */
  function Walk(code: seq<Instr>, v: Atom -> bool, pc: nat, end: nat): (nat, seq<Atom>)
    requires end <= |code|
    decreases end - pc
  {
    if pc >= end then (pc, [])
    else match code[pc]
      case Compare(a, negate) =>
        var r := Walk(code, v, if v(a) != negate then pc + 1 else pc + 2, end);
        (r.0, [a] + r.1)
      case Goto(t) => if t.Rel? && t.offset > 0 then Walk(code, v, pc + t.offset, end) else (pc, [])
  }

  /** The code of a level, all labels resolved to addresses behind it. */
  predicate Placed(code: seq<Instr>, l: Level, i: nat, yes: nat, no: nat, end: nat) {
    && i + Length(l) <= end <= |code|
    && code[i..i + Length(l)] == Code(l, i, Address(yes), Address(no))
    && yes >= i + Length(l) && no >= i + Length(l)
  }

  /** A comparison and its gated goto go one way or the other. */
  lemma WalkTest(code: seq<Instr>, v: Atom -> bool, a: Atom, negate: bool, i: nat, to: nat, end: nat)
    requires i + 2 <= end <= |code| && to >= i + 2
    requires code[i] == Compare(a, negate) && code[i + 1] == Jump(Address(to), i + 1)
    ensures var next := if v(a) != negate then to else i + 2;
            Walk(code, v, i, end) == (Walk(code, v, next, end).0, [a] + Walk(code, v, next, end).1)
  {
  }

  /** From then on the code behaves as if started at `next`, after the given comparisons. */
  predicate Leads(code: seq<Instr>, v: Atom -> bool, i: nat, next: nat, seen: seq<Atom>, end: nat)
    requires end <= |code|
  {
    Walk(code, v, i, end) == (Walk(code, v, next, end).0, seen + Walk(code, v, next, end).1)
  }

  lemma LeadsOn(code: seq<Instr>, v: Atom -> bool, i: nat, j: nat, next: nat, a: seq<Atom>, b: seq<Atom>, end: nat)
    requires end <= |code| && Leads(code, v, i, j, a, end) && Leads(code, v, j, next, b, end)
    ensures Leads(code, v, i, next, a + b, end)
  {
    hide Walk;
    var w := Walk(code, v, next, end);
    assert a + (b + w.1) == (a + b) + w.1;
  }

  /** Falling out of a level's code is as good as jumping to its way out for true. */
  predicate FallsTo(code: seq<Instr>, v: Atom -> bool, l: Level, i: nat, yes: nat, end: nat)
    requires end <= |code|
  {
    Walk(code, v, i + Length(l), end) == Walk(code, v, yes, end)
  }

  lemma {:induction false} LevelLeads(code: seq<Instr>, v: Atom -> bool, l: Level, i: nat, yes: nat, no: nat, end: nat)
    requires Placed(code, l, i, yes, no, end) && FallsTo(code, v, l, i, yes, end)
    ensures Leads(code, v, i, if Truth(l, v) then yes else no, Evaluated(l, v), end)
    decreases l, 1
  {
    if l.e.Single? {
      SingleLeads(code, v, l, i, yes, no, end);
    } else {
      GroupLeads(code, v, l, i, yes, no, end);
    }
  }

  /** The first element of a level and the rest behind it. */
  lemma RestPlaced(code: seq<Instr>, l: Level, i: nat, yes: nat, no: nat, end: nat)
    requires Placed(code, l, i, yes, no, end) && l.More?
    ensures var j := i + FirstLength(l.e, l.op);
            && code[i..j] == FirstCode(l.e, l.op, i, Address(yes), Address(no))
            && Placed(code, l.rest, j, yes, no, end) && j + Length(l.rest) == i + Length(l)
  {
    hide Jump, FirstCode;
    var n, whole := FirstLength(l.e, l.op), code[i..i + Length(l)];
    assert whole == FirstCode(l.e, l.op, i, Address(yes), Address(no)) + Code(l.rest, i + n, Address(yes), Address(no));
    assert code[i..i + n] == whole[..n] && code[i + n..i + n + Length(l.rest)] == whole[n..];
  }

  /** Truth and evaluation of a level: its first element decides, or the rest does. */
  lemma Meaning(l: Level, v: Atom -> bool)
    ensures var goesOn := l.More? && ElemTruth(l.e, v) == (l.op == And);
            && Truth(l, v) == (if goesOn then Truth(l.rest, v) else ElemTruth(l.e, v))
            && Evaluated(l, v) ==
               (if goesOn then ElemEvaluated(l.e, v) + Evaluated(l.rest, v) else ElemEvaluated(l.e, v))
    ensures l.e.Single? ==> ElemTruth(l.e, v) == v(l.e.a) && ElemEvaluated(l.e, v) == [l.e.a]
    ensures l.e.Group? ==> ElemTruth(l.e, v) == Truth(l.e.l, v) && ElemEvaluated(l.e, v) == Evaluated(l.e.l, v)
  {
  }

  lemma {:induction false} SingleLeads(code: seq<Instr>, v: Atom -> bool, l: Level, i: nat, yes: nat, no: nat, end: nat)
    requires Placed(code, l, i, yes, no, end) && FallsTo(code, v, l, i, yes, end) && l.e.Single?
    ensures Leads(code, v, i, if Truth(l, v) then yes else no, Evaluated(l, v), end)
    decreases l, 0
  {
    hide Walk, Truth, Evaluated, ElemTruth, ElemEvaluated;
    Meaning(l, v);
    var a := l.e.a;
    if l.Last? {
      assert code[i..i + 2][0] == code[i] && code[i..i + 2][1] == code[i + 1];
      WalkTest(code, v, a, true, i, no, end);
    } else {
      RestPlaced(code, l, i, yes, no, end);
      assert code[i..i + 2][0] == code[i] && code[i..i + 2][1] == code[i + 1];
      WalkTest(code, v, a, l.op == And, i, if l.op == And then no else yes, end);
      if v(a) == (l.op == And) {
        LevelLeads(code, v, l.rest, i + 2, yes, no, end);
        LeadsOn(code, v, i, i + 2, if Truth(l.rest, v) then yes else no, [a], Evaluated(l.rest, v), end);
      }
    }
  }

  lemma {:induction false} GroupLeads(code: seq<Instr>, v: Atom -> bool, l: Level, i: nat, yes: nat, no: nat, end: nat)
    requires Placed(code, l, i, yes, no, end) && FallsTo(code, v, l, i, yes, end) && l.e.Group?
    ensures Leads(code, v, i, if Truth(l, v) then yes else no, Evaluated(l, v), end)
    decreases l, 0
  {
    hide Walk, Truth, Evaluated, ElemTruth, ElemEvaluated, Leads, Jump, Code;
    Meaning(l, v);
    var g, n := l.e.l, Length(l.e.l);
    if l.Last? {
      LastGroupCode(l, i, Address(yes), Address(no));
      LevelLeads(code, v, g, i, i + n, no, end);
      LeadsSame(code, v, i, i + n, yes, Evaluated(g, v), end);
    } else {
      var rest := if Truth(l.rest, v) then yes else no;
      RestPlaced(code, l, i, yes, no, end);
      assert code[i..i + n] == code[i..i + FirstLength(l.e, l.op)][..n];
      if l.op == And {
        LevelLeads(code, v, g, i, i + n, no, end);
        if Truth(g, v) {
          LevelLeads(code, v, l.rest, i + n, yes, no, end);
          LeadsOn(code, v, i, i + n, rest, Evaluated(g, v), Evaluated(l.rest, v), end);
        }
      } else {
        assert code[i + n] == code[i..i + n + 1][n] == Jump(Address(yes), i + n);
        GotoWalks(code, v, i + n, yes, end);
        LevelLeads(code, v, g, i, yes, i + n + 1, end);
        if !Truth(g, v) {
          LevelLeads(code, v, l.rest, i + n + 1, yes, no, end);
          LeadsOn(code, v, i, i + n + 1, rest, Evaluated(g, v), Evaluated(l.rest, v), end);
        }
      }
    }
  }

  lemma LeadsSame(code: seq<Instr>, v: Atom -> bool, i: nat, next: nat, next': nat, seen: seq<Atom>, end: nat)
    requires end <= |code| && Walk(code, v, next, end) == Walk(code, v, next', end)
    ensures Leads(code, v, i, next, seen, end) <==> Leads(code, v, i, next', seen, end)
  {
  }

  lemma GotoWalks(code: seq<Instr>, v: Atom -> bool, i: nat, to: nat, end: nat)
    requires i < end <= |code| && to > i && code[i] == Jump(Address(to), i)
    ensures Walk(code, v, i, end) == Walk(code, v, to, end)
  {
  }

  // ---------------------------------------------------------------- the theorem

  /**
   * A condition with one operator per bracket level, not nested too deeply for the labels: it is parsed, and once
   * the then-label is placed right behind its code and the else-label anywhere from there on, its code arrives at
   * the then-position exactly when the condition is true and at the else-label exactly when it is false, having
   * evaluated just the comparisons that short-circuit evaluation makes, in the same order. Any other condition is
   * rejected.
   */
  lemma ConditionCompiled(g: Gen, l: Level, t: nat, e: nat, rest: seq<Token>, v: Atom -> bool, behind: seq<Instr>,
                          no: nat)
    requires Written(l) && g.Valid() && t < MAX_LABELS && e < MAX_LABELS && t != e && {t, e} !! g.free
    requires forall i | 0 <= i < |g.code| :: g.code[i] != Goto(Ref(t)) && g.code[i] != Goto(Ref(e))
    ensures var r := ParseLevel(g, Print(l) + ([Close] + rest), {}, t, e);
            && (r.Parsed? <==> Uniform(l, {}) && Enough(g, l))
            && (r.Parsed? ==> r.rest == [Close] + rest)
            && (r.Parsed? && no >= |r.g.code| ==>
                  var start, end := |g.code|, |r.g.code|;
                  var placed := ResolveFrom(ResolveFrom(r.g, start, t, Address(end)), start, e, Address(no)).code;
                  Walk(placed + behind, v, start, end) == (if Truth(l, v) then end else no, Evaluated(l, v)))
  {
    hide ParseLevel, Code, Walk, Resolve, Truth, Evaluated, Uniform, Depth, Written;
    var r := ParseLevel(g, Print(l) + ([Close] + rest), {}, t, e);
    ParsesLevel(g, l, {}, t, e, rest);
    if r.Parsed? && no >= |r.g.code| {
      RunsPlaced(g.code, g.free, l, t, e, v, behind, no);
    }
  }

  lemma RunsPlaced(code: seq<Instr>, free: set<nat>, l: Level, t: nat, e: nat, v: Atom -> bool, behind: seq<Instr>,
                   no: nat)
    requires t != e && no >= |code| + Length(l)
    ensures var start, end := |code|, |code| + Length(l);
            var g := Gen(code + Code(l, start, Label(t), Label(e)), free);
            var placed := ResolveFrom(ResolveFrom(g, start, t, Address(end)), start, e, Address(no)).code;
            Walk(placed + behind, v, start, end) == (if Truth(l, v) then end else no, Evaluated(l, v))
  {
    hide Code, Resolve, ResolveFrom, Truth, Evaluated;
    var start, end := |code|, |code| + Length(l);
    ResolveCode(l, start, Label(t), Label(e), t, Address(end));
    ResolveSuffix(code, Code(l, start, Label(t), Label(e)), free, t, Address(end));
    ResolveCode(l, start, Address(end), Label(e), e, Address(no));
    ResolveSuffix(code, Code(l, start, Address(end), Label(e)), free + {t}, e, Address(no));
    var all := code + Code(l, start, Address(end), Address(no)) + behind;
    assert all[start..end] == Code(l, start, Address(end), Address(no));
    LevelLeads(all, v, l, start, end, no, end);
    assert Evaluated(l, v) + [] == Evaluated(l, v);
  }
}
