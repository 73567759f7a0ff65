/** Comparisons between two expressions: when the compare instruction sees their values. */
module ExprCompare {
  import opened ExprMachine
  import opened ExprCodeGen
  import opened ExprParser
  import opened ExprTree
  import opened ExprCorrect
  import opened Options

  // ---------------------------------------------------------------- what a comparison means

  /** The compare instruction lets the next instruction run. */
  predicate Passes(less: (Word, Word) -> bool, mode: Mode, x: Word, y: Word) {
    match mode
    case Equal => x == y
    case Unequal => x != y
    case Less => less(x, y)
    case LessEqual => less(x, y) || x == y
  }

  /** The comparison holds between the values of the left and the right operand. */
  predicate Related(less: (Word, Word) -> bool, rel: Relation, left: Word, right: Word) {
    if rel.swapped then Passes(less, rel.mode, right, left) else Passes(less, rel.mode, left, right)
  }

  ghost predicate Ordered(less: (Word, Word) -> bool) {
    forall x, y :: less(x, y) <==> !(less(y, x) || x == y)
  }

  // ---------------------------------------------------------------- comparison operators

  datatype Operator = IsEqual | IsUnequal | IsLess | IsLessEqual | IsGreater | IsGreaterEqual

  function Spelling(op: Operator): string {
    match op
    case IsEqual => "=="
    case IsUnequal => "!="
    case IsLess => "<"
    case IsLessEqual => "<="
    case IsGreater => ">"
    case IsGreaterEqual => ">="
  }

  predicate OperatorHolds(less: (Word, Word) -> bool, op: Operator, left: Word, right: Word) {
    match op
    case IsEqual => left == right
    case IsUnequal => left != right
    case IsLess => less(left, right)
    case IsLessEqual => less(left, right) || left == right
    case IsGreater => less(right, left)
    case IsGreaterEqual => less(right, left) || left == right
  }

  /** Reads a comparison operator: how the operands are to compare, and the text behind it. */
  function ReadRelation(text: string): Option<(Relation, string)> {
    if text == "" then None
    else
      var equal := |text| > 1 && text[1] == '=';
      match text[0]
      case '<' =>
        Some(if equal then (Relation(LessEqual, false), text[2..]) else (Relation(Less, false), text[1..]))
      case '>' =>
        Some(if equal then (Relation(LessEqual, true), text[2..]) else (Relation(Less, true), text[1..]))
      case '!' => if equal then Some((Relation(Unequal, false), text[2..])) else None
      case '=' => if equal then Some((Relation(Equal, false), text[2..])) else None
      case _ => None
  }

  /** Every operator is read as a relation that means the same. */
  lemma {:induction false} OperatorRead(less: (Word, Word) -> bool, op: Operator, rest: string, left: Word, right: Word)
    requires op in {IsLess, IsGreater} ==> rest == "" || rest[0] != '='
    ensures var r := ReadRelation(Spelling(op) + rest);
            && r.Some? && r.value.1 == rest
            && (Related(less, r.value.0, left, right) <==> OperatorHolds(less, op, left, right))
  {
    var text := Spelling(op) + rest;
    assert text[|Spelling(op)|..] == rest;
  }

  /** Nothing else is read. */
  lemma {:induction false} OnlyOperators(text: string)
    ensures var r := ReadRelation(text); r.Some? ==> exists op :: text == Spelling(op) + r.value.1
  {
    var r := ReadRelation(text);
    if r.Some? {
      var op := if r.value.0.mode == Equal then IsEqual else if r.value.0.mode == Unequal then IsUnequal
                else if r.value.0 == Relation(Less, false) then IsLess
                else if r.value.0 == Relation(LessEqual, false) then IsLessEqual
                else if r.value.0 == Relation(Less, true) then IsGreater else IsGreaterEqual;
      assert text == Spelling(op) + r.value.1;
    }
  }

  // ---------------------------------------------------------------- the code of a comparison

  lemma {:induction false} ToResultRuns(q: Arith, g: Gen, o: Operand, s: State)
    requires !o.Symbol?
    ensures var t := Run(q, g.code, s); Run(q, ToResult(g, o).code, s) == t.(res := Read(t, o))
  {
    hide Run;
    if o.Value? {
      RunOne(q, g.code, Load(o.v), s);
    } else if !o.Result? {
      RunOne(q, g.code, Fetch(o), s);
    }
  }

  lemma {:induction false} SpillRuns(q: Arith, g: Gen, o: Operand, s: State)
    requires !o.Symbol?
    ensures var t := Run(q, g.code, s);
            Run(q, Spill(g, o).g.code, s) == t.(res := Read(t, o), cells := t.cells[Tmp(g.size) := Read(t, o)])
  {
    hide Run;
    var g1 := Allocate(g).g;
    ToResultRuns(q, g1, o, s);
    RunOne(q, ToResult(g1, o).code, Save(g.size), s);
  }

  /** RESULT and the cell hold the two operands, unless the way of `b` into its cell overwrites `a` in RESULT. */
  lemma {:induction false} CompareRuns(q: Arith, g: Gen, mode: Mode, a: Operand, b: Operand, s: State)
    requires !a.Symbol? && !b.Symbol? && Below(a, g.size) && Below(b, g.size)
    ensures var c, t := CompareCode(g, mode, a, b), Run(q, g.code, s);
            var u := Run(q, c.g.code, s);
            && Read(u, c.cell) == Read(t, b)
            && u.res == if a.Result? && !b.Stored? then Read(t, b) else Read(t, a)
  {
    hide Run;
    if b.Stored? {
      ToResultRuns(q, g, a, s);
    } else {
      SpillRuns(q, g, b, s);
      ToResultRuns(q, Spill(g, b).g, a, s);
    }
  }

  // ---------------------------------------------------------------- two expressions, one after the other

  /** A new expression begins behind the code so far. */
  function Restarted(g: Gen): Gen {
    g.(blockBegin := |g.code|)
  }

  /** The tree, in brackets or not, is a variable. */
  predicate InCell(scope: Scope, e: Tree) {
    match e
    case Leaf(o) => Resolve(scope, o).Stored?
    case Paren(x) => InCell(scope, x)
    case _ => false
  }

  lemma {:induction false} InCellIs(q: Arith, scope: Scope, e: Tree, w: Work)
    requires Sound(w) && LeavesOnly(e)
    ensures Resolve(scope, Compile(q, scope, e, w).1).Stored? <==> InCell(scope, e)
  {
    match e
    case Leaf(_) =>
    case Paren(x) => InCellIs(q, scope, x, w);
    case Neg(x) => CompileShape(q, scope, e, w);
    case Node(_, _, _) => CompileShape(q, scope, e, w);
  }

  /** A tree not computed in RESULT needs no code. */
  lemma {:induction false} NeedsNoCode(q: Arith, scope: Scope, e: Tree, w: Work)
    requires Sound(w) && LeavesOnly(e) && !LeavesResult(e) && !ResultOnTop(w)
    ensures Compile(q, scope, e, w).0 == w
  {
    hide Operate, NegateOperand;
    match e
    case Leaf(_) =>
    case Paren(x) => NeedsNoCode(q, scope, x, w);
    case Neg(x) =>
      CompileShape(q, scope, x, w);
      FoldsNoResult(x);
      NeedsNoCode(q, scope, x, w);
    case Node(op, l, r) =>
      FoldsNoResult(l);
      FoldsNoResult(r);
      NeedsNoCode(q, scope, l, w);
      CompileShape(q, scope, l, w);
      var v := Compile(q, scope, l, w).1;
      var w' := Push(w, v);
      assert w'.operands == w.operands + [v] && w'.g == w.g;
      NeedsNoCode(q, scope, r, w');
      CompileShape(q, scope, r, w');
      assert (w.operands + [v])[..|w.operands|] == w.operands;
  }

  lemma {:induction false} FoldsNoResult(e: Tree)
    requires Folds(e)
    ensures !LeavesResult(e)
  {
    match e
    case Leaf(_) =>
    case Paren(x) => FoldsNoResult(x);
    case Neg(_) =>
    case Node(_, _, _) =>
  }

  lemma {:induction false} GrownSelf(q: Arith, g: Gen, s: State)
    requires CodeInv(g)
    ensures Grown(q, g, g, s)
  {
  }

  lemma {:induction false} PushGrown(q: Arith, scope: Scope, w: Work, es: seq<Tree>, x: Operand, s: State)
    requires StackInv(q, scope, w, es, s)
    ensures Grown(q, w.g, Push(w, x).g, s)
  {
    hide Run;
    if ResultOnTop(w) {
      assert Holds(q, scope, w.g, w.operands[|es| - 1], es[|es| - 1], s);
      SpillCorrect(q, w.g, Result, s);
    }
  }

  lemma {:induction false} ReduceGrown(q: Arith, scope: Scope, w: Work, es: seq<Tree>, op: Op, y: Operand, e: Tree,
                                       s: State)
    requires StackInv(q, scope, w, es, s) && es != [] && Holds(q, scope, w.g, y, e, s) && q.Commutes()
    ensures Grown(q, w.g, Reduce(q, scope, w, op, y).0.g, s)
  {
    hide Run, Operate;
    var a := w.operands[|es| - 1];
    assert Holds(q, scope, w.g, a, es[|es| - 1], s);
    if a.Value? && y.Value? {
      GrownSelf(q, w.g, s);
    } else {
      OperateCorrect(q, w.g, Resolve(scope, a), Resolve(scope, y), op, s);
    }
  }

  lemma {:induction false} MinusGrown(q: Arith, scope: Scope, w: Work, y: Operand, e: Tree, s: State)
    requires CodeInv(w.g) && Holds(q, scope, w.g, y, e, s)
    ensures Grown(q, w.g, Minus(q, scope, w, y).0.g, s)
  {
    hide Run, NegateOperand;
    if y.Value? {
      GrownSelf(q, w.g, s);
    } else {
      NegateCorrect(q, w.g, Resolve(scope, y), s);
    }
  }

  /** Compiling an expression changes nothing but RESULT and fresh spill cells. */
  lemma {:induction false} CompileGrown(q: Arith, scope: Scope, e: Tree, w: Work, es: seq<Tree>, s: State)
    requires StackInv(q, scope, w, es, s) && LeavesOnly(e) && q.Commutes() && (HasNeg(e) ==> q.SignLaws())
    ensures Grown(q, w.g, Compile(q, scope, e, w).0.g, s)
    decreases e, 1
  {
    hide Operate, Reduce, Push, Minus, Run, Spill, Holds, Grown, StackInv, CodeInv;
    StackParts(q, scope, w, es, s);
    match e
    case Leaf(_) =>
      GrownSelf(q, w.g, s);
    case Paren(x) =>
      CompileGrown(q, scope, x, w, es, s);
    case Neg(x) =>
      CompileGrown(q, scope, x, w, es, s);
      CompileCorrect(q, scope, x, w, es, s);
      var c := Compile(q, scope, x, w);
      StackParts(q, scope, c.0, Struck(w, es, x), s);
      MinusGrown(q, scope, c.0, c.1, Effective(x), s);
      GrownTrans(q, w.g, c.0.g, Minus(q, scope, c.0, c.1).0.g, s);
    case Node(op, l, r) =>
      NodeGrown(q, scope, op, l, r, w, es, s);
  }

  lemma StackParts(q: Arith, scope: Scope, w: Work, es: seq<Tree>, s: State)
    requires StackInv(q, scope, w, es, s)
    ensures CodeInv(w.g) && Sound(w) && |w.operands| == |es|
  {
  }

  lemma {:induction false} NodeGrown(q: Arith, scope: Scope, op: Op, l: Tree, r: Tree, w: Work, es: seq<Tree>, s: State)
    requires StackInv(q, scope, w, es, s) && LeavesOnly(Node(op, l, r)) && q.Commutes()
    requires HasNeg(Node(op, l, r)) ==> q.SignLaws()
    ensures Grown(q, w.g, Compile(q, scope, Node(op, l, r), w).0.g, s)
    decreases Node(op, l, r), 0
  {
    hide Operate, Reduce, Push, Minus, Run, Spill, CodeInv, Usable, StackInv, Holds, Read, Eval, Grown;
    StackParts(q, scope, w, es, s);
    CompileGrown(q, scope, l, w, es, s);
    CompileCorrect(q, scope, l, w, es, s);
    var cl, below := Compile(q, scope, l, w), Struck(w, es, l);
    StackParts(q, scope, cl.0, below, s);
    PushGrown(q, scope, cl.0, below, cl.1, s);
    PushCorrect(q, scope, cl.0, below, cl.1, Effective(l), s);
    var wp, stacked := Push(cl.0, cl.1), below + [Effective(l)];
    CompileGrown(q, scope, r, wp, stacked, s);
    CompileCorrect(q, scope, r, wp, stacked, s);
    var cr, es' := Compile(q, scope, r, wp), Struck(wp, stacked, r);
    StackParts(q, scope, cr.0, es', s);
    ReduceGrown(q, scope, cr.0, es', op, cr.1, Effective(r), s);
    GrownTrans(q, w.g, cl.0.g, wp.g, s);
    GrownTrans(q, w.g, wp.g, cr.0.g, s);
    GrownTrans(q, w.g, cr.0.g, Reduce(q, scope, cr.0, op, cr.1).0.g, s);
  }

  // ---------------------------------------------------------------- the comparison of two expressions

  /** The second of two expressions has been compiled behind the first. */
  function Second(q: Arith, scope: Scope, t1: Tree, t2: Tree): (Work, Operand) {
    Compile(q, scope, t2, Work([], Restarted(Compile(q, scope, t1, START).0.g)))
  }

  /** What reading both operands yields then: the first value is lost if both are computed in RESULT. */
  lemma {:induction false} SecondCorrect(q: Arith, scope: Scope, t1: Tree, t2: Tree, s: State)
    requires LeavesOnly(t1) && LeavesOnly(t2) && q.Commutes() && (HasNeg(t1) || HasNeg(t2) ==> q.SignLaws())
    ensures var x, c := Resolve(scope, Compile(q, scope, t1, START).1), Second(q, scope, t1, t2);
            var y, u := Resolve(scope, c.1), Run(q, c.0.g.code, s);
            && !x.Symbol? && !y.Symbol? && Below(x, c.0.g.size) && Below(y, c.0.g.size)
            && Read(u, y) == Eval(q, scope, Effective(t2), s)
            && Read(u, x) == Eval(q, scope, Effective(if LeavesResult(t1) && LeavesResult(t2) then t2 else t1), s)
  {
    hide Run, Compile, Eval, Effective, LeavesOnly;
    var c1 := Compile(q, scope, t1, START);
    CompileCorrect(q, scope, t1, START, [], s);
    CompileShape(q, scope, t1, START);
    var w := Work([], Restarted(c1.0.g));
    assert CodeInv(w.g);
    CompileCorrect(q, scope, t2, w, [], s);
    CompileShape(q, scope, t2, w);
    CompileGrown(q, scope, t2, w, [], s);
    if !LeavesResult(t2) {
      NeedsNoCode(q, scope, t2, w);
    }
  }

  /**
   * The values of both operands reach the compare instruction. `swapped` says that the right one goes to RESULT. An
   * operand that has to go to a cell overwrites the other one in RESULT, if it is not in a cell already; and so does
   * the computation of the right operand.
   */
  predicate Comparable(scope: Scope, t1: Tree, t2: Tree, swapped: bool) {
    if LeavesResult(t1) then !LeavesResult(t2) && (swapped || InCell(scope, t2))
    else LeavesResult(t2) ==> !swapped || InCell(scope, t1)
  }

  /** What the compare instruction finds in RESULT and in its cell. */
  lemma {:induction false} ComparesValues(q: Arith, scope: Scope, t1: Tree, t2: Tree, mode: Mode, swapped: bool,
      s: State)
    requires LeavesOnly(t1) && LeavesOnly(t2) && q.Commutes() && (HasNeg(t1) || HasNeg(t2) ==> q.SignLaws())
    ensures var x, c := Resolve(scope, Compile(q, scope, t1, START).1), Second(q, scope, t1, t2);
            var y := Resolve(scope, c.1);
            var k := if swapped then CompareCode(c.0.g, mode, y, x) else CompareCode(c.0.g, mode, x, y);
            var u, v1, v2 := Run(q, k.g.code, s), Eval(q, scope, Effective(t1), s), Eval(q, scope, Effective(t2), s);
            if Comparable(scope, t1, t2, swapped)
            then (if swapped then u.res == v2 && Read(u, k.cell) == v1 else u.res == v1 && Read(u, k.cell) == v2)
            else u.res == Read(u, k.cell)
  {
    hide Run, Compile, Eval, Effective, LeavesOnly, CompareCode, Read;
    var w := START;
    SecondCorrect(q, scope, t1, t2, s);
    CompileShape(q, scope, t1, w);
    InCellIs(q, scope, t1, w);
    var w2 := Work([], Restarted(Compile(q, scope, t1, w).0.g));
    CompileShape(q, scope, t2, w2);
    InCellIs(q, scope, t2, w2);
    var x, c := Resolve(scope, Compile(q, scope, t1, START).1), Second(q, scope, t1, t2);
    ResolvesResult(scope, Compile(q, scope, t1, START).1);
    ResolvesResult(scope, c.1);
    if swapped {
      CompareRuns(q, c.0.g, mode, Resolve(scope, c.1), x, s);
    } else {
      CompareRuns(q, c.0.g, mode, x, Resolve(scope, c.1), s);
    }
  }

  lemma ResolvesResult(scope: Scope, o: Operand)
    ensures Resolve(scope, o).Result? <==> o.Result?
  {
  }

  /** Both operands as written, parsed one after the other, then the comparison of what they left. */
  function CompileComparison(q: Arith, scope: Scope, left: seq<Token>, right: seq<Token>, rel: Relation, negate: bool):
    (r: Option<Comparison>)
  {
    var p1 := ParseExpr(q, scope, left);
    if !p1.Parsed? || p1.g.blockBegin > |p1.g.code| then None
    else
      var p2 := ParseOperand(q, scope, [], Work([], Restarted(p1.g)), right);
      if !p2.Parsed? then None
      else Some(Compare(p2.g, Resolve(scope, p1.o), Resolve(scope, p2.o), rel, negate))
  }

  lemma {:induction false} ParsesBoth(q: Arith, scope: Scope, e1: Tree, e2: Tree, rest1: seq<Token>, rest2: seq<Token>,
                                      rel: Relation, negate: bool)
    requires Bracketed(e1) && Bracketed(e2) && Ends(rest1) && Ends(rest2)
    ensures var c1, c2 := Compile(q, scope, Reading(e1), START), Second(q, scope, Reading(e1), Reading(e2));
            CompileComparison(q, scope, Print(e1) + rest1, Print(e2) + rest2, rel, negate) ==
            Some(Compare(c2.0.g, Resolve(scope, c1.1), Resolve(scope, c2.1), rel, negate))
  {
    hide Compile, Reading, Print, Compare, ParseOperand, Bracketed;
    ParsesTree(q, scope, e1, [], START, rest1);
    var c1 := Compile(q, scope, Reading(e1), START);
    FinishesParse(q, scope, c1.0, c1.1, rest1);
    var w := Work([], Restarted(c1.0.g));
    ParsesTree(q, scope, e2, [], w, rest2);
    var c2 := Compile(q, scope, Reading(e2), w);
    FinishesParse(q, scope, c2.0, c2.1, rest2);
  }

  lemma FinishesParse(q: Arith, scope: Scope, w: Work, x: Operand, rest: seq<Token>)
    requires Sound(w) && w.operands == [] && Ends(rest)
    ensures Combine(q, scope, [], w, x, rest) == Parsed(x, rest, w.g)
  {
  }

  /** The next instruction runs when the code of a comparison and its compare instruction have run. */
  predicate Decides(q: Arith, less: (Word, Word) -> bool, k: Comparison, s: State) {
    var u := Run(q, k.g.code, s);
    Passes(less, k.mode, u.res, Read(u, k.cell))
  }

  /**
   * Whether the instruction behind a comparison of two written expressions runs: exactly if the comparison, or its
   * negation if that was asked for, holds between the values computed for them, provided the values reach the
   * compare instruction. Otherwise some value is compared with itself, so it runs exactly for == and <=, whatever the
   * values are.
   */
  lemma {:induction false} ComparisonCompiled(q: Arith, scope: Scope, less: (Word, Word) -> bool, e1: Tree, e2: Tree,
                                              rest1: seq<Token>, rest2: seq<Token>, rel: Relation, negate: bool,
                                                  s: State)
    requires Bracketed(e1) && Bracketed(e2) && Ends(rest1) && Ends(rest2) && Ordered(less)
    requires q.Commutes() && (HasNeg(e1) || HasNeg(e2) ==> q.SignLaws())
    ensures var k := CompileComparison(q, scope, Print(e1) + rest1, Print(e2) + rest2, rel, negate);
            var t1, t2 := Reading(e1), Reading(e2);
            k.Some? &&
            (Decides(q, less, k.value, s) <==>
               if Comparable(scope, t1, t2, rel.swapped != negate)
               then Related(less, rel, Eval(q, scope, Effective(t1), s), Eval(q, scope, Effective(t2), s)) != negate
               else k.value.mode in {Equal, LessEqual})
  {
    hide Run, Compile, Eval, Effective, Reading, Print, Bracketed, LeavesOnly, CompileComparison, CompareCode;
    hide Comparable;
    hide HasNeg, Read, Passes, Related, Ordered, Compare;
    ParsesBoth(q, scope, e1, e2, rest1, rest2, rel, negate);
    ReadingShape(e1);
    ReadingShape(e2);
    var mode := if negate then Opposite(rel.mode) else rel.mode;
    ComparesValues(q, scope, Reading(e1), Reading(e2), mode, rel.swapped != negate, s);
    var k := CompileComparison(q, scope, Print(e1) + rest1, Print(e2) + rest2, rel, negate).value;
    ComparisonMode(k, q, scope, Reading(e1), Reading(e2), rel, negate);
    var u := Run(q, k.g.code, s);
    if Comparable(scope, Reading(e1), Reading(e2), rel.swapped != negate) {
      Negated(less, rel, negate, Eval(q, scope, Effective(Reading(e1)), s), Eval(q, scope, Effective(Reading(e2)), s));
    } else {
      WithItself(less, k.mode, Read(u, k.cell));
    }
  }

  lemma ComparisonMode(k: Comparison, q: Arith, scope: Scope, t1: Tree, t2: Tree, rel: Relation, negate: bool)
    requires var c1, c2 := Compile(q, scope, t1, START), Second(q, scope, t1, t2);
             k == Compare(c2.0.g, Resolve(scope, c1.1), Resolve(scope, c2.1), rel, negate)
    ensures k.mode == if negate then Opposite(rel.mode) else rel.mode
    ensures var c1, c2 := Compile(q, scope, t1, START), Second(q, scope, t1, t2);
            var x, y := Resolve(scope, c1.1), Resolve(scope, c2.1);
            k == if rel.swapped != negate then CompareCode(c2.0.g, k.mode, y, x) else CompareCode(c2.0.g, k.mode, x, y)
  {
    hide Compile, Spill, ToResult;
  }

  /** Negation turns the mode around and swaps the operands. */
  lemma Negated(less: (Word, Word) -> bool, rel: Relation, negate: bool, left: Word, right: Word)
    requires Ordered(less)
    ensures var mode := if negate then Opposite(rel.mode) else rel.mode;
            (if rel.swapped != negate then Passes(less, mode, right, left) else Passes(less, mode, left, right))
            <==> Related(less, rel, left, right) != negate
  {
    assert less(left, right) <==> !(less(right, left) || left == right);
  }

  lemma WithItself(less: (Word, Word) -> bool, mode: Mode, v: Word)
    requires Ordered(less)
    ensures Passes(less, mode, v, v) <==> mode in {Equal, LessEqual}
  {
    assert less(v, v) <==> !(less(v, v) || v == v);
  }

  lemma {:induction false} ReadingShape(e: Tree)
    requires Bracketed(e)
    ensures LeavesOnly(Reading(e)) && (HasNeg(Reading(e)) ==> HasNeg(e))
  {
    BracketedLeaves(e);
    ReadingLeaves(e);
    if !HasNeg(e) {
      PlainReading(e);
    }
  }

  /**
   * So a condition like a + b > 5 never holds: asked for its negation, to jump to the else part, the code loads the
   * constant over the sum and compares it with itself.
   */
  lemma {:induction false} GreaterThanConstant(q: Arith, scope: Scope, less: (Word, Word) -> bool, e: Tree, v: Word,
                                               rest1: seq<Token>, rest2: seq<Token>, s: State)
    requires Bracketed(e) && LeavesResult(Reading(e)) && Ends(rest1) && Ends(rest2) && Ordered(less)
    requires q.Commutes() && (HasNeg(e) ==> q.SignLaws())
    ensures var c, rel := Leaf(Value(v)), Relation(Less, true);
            var k := CompileComparison(q, scope, Print(e) + rest1, Print(c) + rest2, rel, true);
            k.Some? && Decides(q, less, k.value, s)
  {
    hide Run, Reading, Print, CompileComparison, LeavesResult, HasNeg;
    var c, rel := Leaf(Value(v)), Relation(Less, true);
    assert Bracketed(c) && !HasNeg(c) && Reading(c) == c by { LeafReading(v); }
    assert !InCell(scope, c);
    ComparisonCompiled(q, scope, less, e, c, rest1, rest2, rel, true, s);
    var k := CompileComparison(q, scope, Print(e) + rest1, Print(c) + rest2, rel, true);
    ParsesBoth(q, scope, e, c, rest1, rest2, rel, true);
    ComparisonMode(k.value, q, scope, Reading(e), Reading(c), rel, true);
  }

  lemma LeafReading(v: Word)
    ensures Bracketed(Leaf(Value(v))) && !HasNeg(Leaf(Value(v))) && Reading(Leaf(Value(v))) == Leaf(Value(v))
  {
  }

  // ---------------------------------------------------------------- code in sequence

  /** The first k instructions, and that nothing will be hoisted before them, are left as they are. */
  predicate KeepsFront(g: Gen, g': Gen, k: nat) {
    && k <= g.blockBegin <= |g.code| && k <= g'.blockBegin <= |g'.code|
    && g'.code[..k] == g.code[..k]
  }

  lemma EmitFront(g: Gen, i: Instr, k: nat)
    requires k <= g.blockBegin <= |g.code|
    ensures KeepsFront(g, g.Emit(i), k)
  {
  }

  lemma ToResultFront(g: Gen, o: Operand, k: nat)
    requires k <= g.blockBegin <= |g.code|
    ensures KeepsFront(g, ToResult(g, o), k) && KeepsFront(g, Spill(g, o).g, k)
  {
    assert KeepsFront(g, ToResult(g, o), k);
    var g1 := Allocate(g).g;
    assert KeepsFront(g1, ToResult(g1, o), k);
    EmitFront(ToResult(g1, o), Save(g.size), k);
  }

  lemma PreloadFront(g: Gen, v: Word, k: nat)
    requires k <= g.blockBegin <= |g.code|
    ensures KeepsFront(g, Preload(g, v).g, k)
  {
  }

  lemma ArrangeFront(g: Gen, a: Operand, b: Operand, op: Op, k: nat)
    requires k <= g.blockBegin <= |g.code|
    ensures KeepsFront(g, Arrange(g, a, b, op), k)
  {
    hide ToResult, Spill;
    var g1 := if InResult(b) then Spill(g, b).g else g;
    var b1 := if InResult(b) then Spill(g, b).o else b;
    ToResultFront(g, b, k);
    assert KeepsFront(g, g1, k);
    ToResultFront(g1, a, k);
    EmitFront(ToResult(g1, a), Alu(op, Result, b1), k);
    EmitFront(g1, Alu(op, a, b1), k);
  }

  lemma OperateFront(g: Gen, a: Operand, b: Operand, op: Op, k: nat)
    requires k <= g.blockBegin <= |g.code|
    ensures KeepsFront(g, Operate(g, a, b, op), k)
  {
    hide Preload, Arrange;
    var pb := PreloadSecond(g, a, b);
    if b.Value? {
      PreloadFront(g, b.v, k);
    }
    var pa := PreloadFirst(pb.g, a, pb.o, op);
    if a.Value? {
      PreloadFront(pb.g, a.v, k);
    }
    ArrangeFront(pa.g, pa.o, pb.o, op, k);
    ArrangeFront(pa.g, pb.o, pa.o, op, k);
  }

  lemma MovesFront(q: Arith, scope: Scope, w: Work, op: Op, y: Operand, k: nat)
    requires Sound(w) && k <= w.g.blockBegin
    ensures w.operands != [] ==> KeepsFront(w.g, Reduce(q, scope, w, op, y).0.g, k)
    ensures KeepsFront(w.g, Minus(q, scope, w, y).0.g, k) && KeepsFront(w.g, Push(w, y).g, k)
  {
    hide Operate, ToResult, Spill;
    if w.operands != [] {
      OperateFront(w.g, Resolve(scope, w.operands[|w.operands| - 1]), Resolve(scope, y), op, k);
    }
    ToResultFront(w.g, Resolve(scope, y), k);
    EmitFront(ToResult(w.g, Resolve(scope, y)), Negate, k);
    ToResultFront(w.g, Result, k);
  }

  lemma {:induction false} CompileFront(q: Arith, scope: Scope, e: Tree, w: Work, k: nat)
    requires Sound(w) && k <= w.g.blockBegin
    ensures KeepsFront(w.g, Compile(q, scope, e, w).0.g, k)
  {
    hide Reduce, Minus, Push;
    match e
    case Leaf(_) =>
    case Paren(x) => CompileFront(q, scope, x, w, k);
    case Neg(x) =>
      CompileFront(q, scope, x, w, k);
      var c := Compile(q, scope, x, w);
      MovesFront(q, scope, c.0, Add, c.1, k);
    case Node(op, l, r) =>
      CompileFront(q, scope, l, w, k);
      var cl := Compile(q, scope, l, w);
      MovesFront(q, scope, cl.0, op, cl.1, k);
      var wp := Push(cl.0, cl.1);
      CompileFront(q, scope, r, wp, k);
      var cr := Compile(q, scope, r, wp);
      MovesFront(q, scope, cr.0, op, cr.1, k);
  }

  /** The code of a comparison begins with that of its left operand: nothing of the right one is put before it. */
  lemma {:induction false} LeftOperandFirst(q: Arith, scope: Scope, e1: Tree, e2: Tree, rest1: seq<Token>,
                                            rest2: seq<Token>, rel: Relation, negate: bool)
    requires Bracketed(e1) && Bracketed(e2) && Ends(rest1) && Ends(rest2)
    ensures var p := ParseExpr(q, scope, Print(e1) + rest1);
            var k := CompileComparison(q, scope, Print(e1) + rest1, Print(e2) + rest2, rel, negate);
            p.Parsed? && k.Some? && p.g.code <= k.value.g.code
  {
    hide Compile, Reading, Print, ParseOperand, Bracketed, Compare, Combine, CompileComparison, Resolve;
    ParsesBoth(q, scope, e1, e2, rest1, rest2, rel, negate);
    LeftParsed(q, scope, e1, rest1);
    var c1 := Compile(q, scope, Reading(e1), START);
    var n := |c1.0.g.code|;
    var c2 := Second(q, scope, Reading(e1), Reading(e2));
    CompileFront(q, scope, Reading(e2), Work([], Restarted(c1.0.g)), n);
    CompareFront(c2.0.g, Resolve(scope, c1.1), Resolve(scope, c2.1), rel, negate, n);
  }

  lemma LeftParsed(q: Arith, scope: Scope, e: Tree, rest: seq<Token>)
    requires Bracketed(e) && Ends(rest)
    ensures var c := Compile(q, scope, Reading(e), START);
            ParseExpr(q, scope, Print(e) + rest) == Parsed(c.1, rest, c.0.g)
  {
    hide Compile, Reading, Print, ParseOperand, Bracketed;
    ParsesTree(q, scope, e, [], START, rest);
    var c := Compile(q, scope, Reading(e), START);
    FinishesParse(q, scope, c.0, c.1, rest);
  }

  lemma CompareFront(g: Gen, a: Operand, b: Operand, rel: Relation, negate: bool, k: nat)
    requires k <= g.blockBegin <= |g.code|
    ensures KeepsFront(g, Compare(g, a, b, rel, negate).g, k)
  {
    hide ToResult, Spill;
    ToResultFront(g, a, k);
    ToResultFront(g, b, k);
    ToResultFront(Spill(g, a).g, b, k);
    ToResultFront(Spill(g, b).g, a, k);
  }
}
