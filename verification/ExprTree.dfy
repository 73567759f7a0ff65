/** Expression trees, how they are written, what they mean, and how the parser compiles them. */
module ExprTree {
  import opened ExprMachine
  import opened ExprCodeGen
  import opened ExprParser

  datatype Tree = Leaf(o: Operand) | Node(op: Op, l: Tree, r: Tree) | Neg(e: Tree) | Paren(e: Tree)

  /** The value of an operand as written: names stand for what they were declared as. */
  function Meaning(scope: Scope, o: Operand, s: State): Word {
    match o
    case Value(v) => v
    case Symbol(name, index) =>
      (match scope(name)
       case Constant(v) => v
       case Scalar => CellValue(s, Var(name, 0))
       case Array => CellValue(s, Var(name, index)))
    case Memory(a1) => if a1 then s.at1 else s.at0
    case Stored(c) => CellValue(s, c)
    case Result => s.res
  }

  /** Cells that were never written hold zero. */
  function CellValue(s: State, c: Cell): Word {
    if c in s.cells then s.cells[c] else Qfp(0)
  }

  lemma MeaningIsRead(scope: Scope, o: Operand, s: State)
    ensures Read(s, Resolve(scope, o)) == Meaning(scope, o, s)
  {
  }

  function Eval(q: Arith, scope: Scope, e: Tree, s: State): Word {
    match e
    case Leaf(o) => Meaning(scope, o, s)
    case Node(Add, l, r) => q.add(Eval(q, scope, l, s), Eval(q, scope, r, s))
    case Node(Sub, l, r) => q.sub(Eval(q, scope, l, s), Eval(q, scope, r, s))
    case Node(Mul, l, r) => q.mul(Eval(q, scope, l, s), Eval(q, scope, r, s))
    case Node(Div, l, r) => q.div(Eval(q, scope, l, s), Eval(q, scope, r, s))
    case Neg(x) => q.neg(Eval(q, scope, x, s))
    case Paren(x) => Eval(q, scope, x, s)
  }

  function Print(e: Tree): (toks: seq<Token>)
    ensures toks != []
  {
    match e
    case Leaf(o) => [Atom(o)]
    case Node(op, l, r) => Print(l) + [Sign(op)] + Print(r)
    case Neg(x) => [Sign(Sub)] + Print(x)
    case Paren(x) => [Open] + Print(x) + [Close]
  }

  function TreePrecedence(e: Tree): nat {
    match e
    case Leaf(_) => 50
    case Node(op, _, _) => OpPrecedence(op)
    case Neg(_) => 40
    case Paren(_) => 50
  }

  /** Printing the tree needs no further brackets: operators associate to the left and respect precedence. */
  predicate Bracketed(e: Tree) {
    match e
    case Leaf(o) => Spelled(o)
    case Node(op, l, r) =>
      Bracketed(l) && Bracketed(r) && TreePrecedence(l) >= OpPrecedence(op) && TreePrecedence(r) > OpPrecedence(op)
    case Neg(x) => Bracketed(x) && TreePrecedence(x) > 40
    case Paren(x) => Bracketed(x)
  }

  /** The printed tree starts with a minus sign. */
  predicate LeadsWithMinus(e: Tree) {
    match e
    case Leaf(_) => false
    case Node(_, l, _) => LeadsWithMinus(l)
    case Neg(_) => true
    case Paren(_) => false
  }

  predicate Signs(op: Op) {
    op == Add || op == Sub
  }

  // ---------------------------------------------------------------- how minus signs are read

  /** The tree the parser builds: a minus sign right behind + or - is merged with it before anything else binds. */
  function Reading(e: Tree): Tree
    decreases e
  {
    match e
    case Leaf(_) => e
    case Node(op, l, r) =>
      if Signs(op) && LeadsWithMinus(r) then Graft(op, Reading(l), r) else Node(op, Reading(l), Reading(r))
    case Neg(x) => Neg(Reading(x))
    case Paren(x) => Paren(Reading(x))
  }

  /** `left op r`, where r starts with a minus sign: the first operand of r goes to `left`. */
  function Graft(op: Op, left: Tree, r: Tree): Tree
    decreases r
  {
    match r
    case Neg(x) => Node(Flip(op), left, Reading(x))
    case Node(op2, l2, r2) => Node(op2, Graft(op, left, l2), Reading(r2))
    case _ => Node(op, left, r)
  }

  /** Behind a + or - a minus sign applies to the whole right operand. */
  predicate MinusPlaced(e: Tree) {
    match e
    case Leaf(_) => true
    case Node(op, l, r) => MinusPlaced(l) && MinusPlaced(r) && (Signs(op) && !r.Neg? ==> !LeadsWithMinus(r))
    case Neg(x) => MinusPlaced(x)
    case Paren(x) => MinusPlaced(x)
  }

  /** Then the parser's reading means what was written. */
  lemma {:induction false} ReadingMeans(q: Arith, scope: Scope, e: Tree, s: State)
    requires MinusPlaced(e) && q.SignLaws()
    ensures Eval(q, scope, Reading(e), s) == Eval(q, scope, e, s)
  {
    match e
    case Leaf(_) =>
    case Paren(x) => ReadingMeans(q, scope, x, s);
    case Neg(x) => ReadingMeans(q, scope, x, s);
    case Node(op, l, r) =>
      ReadingMeans(q, scope, l, s);
      if Signs(op) && r.Neg? {
        ReadingMeans(q, scope, r.e, s);
        assert Reading(e) == Node(Flip(op), Reading(l), Reading(r.e));
      } else {
        ReadingMeans(q, scope, r, s);
      }
  }

  predicate HasNeg(e: Tree) {
    match e
    case Leaf(_) => false
    case Node(_, l, r) => HasNeg(l) || HasNeg(r)
    case Neg(_) => true
    case Paren(x) => HasNeg(x)
  }

  lemma {:induction false} PlainReading(e: Tree)
    requires !HasNeg(e)
    ensures Reading(e) == e && !LeadsWithMinus(e)
  {
    match e
    case Leaf(_) =>
    case Paren(x) => PlainReading(x);
    case Neg(x) =>
    case Node(op, l, r) =>
      PlainReading(l);
      PlainReading(r);
  }

  /** The leaves are constants, names and memory accesses. */
  predicate LeavesOnly(e: Tree) {
    match e
    case Leaf(o) => Spelled(o)
    case Node(_, l, r) => LeavesOnly(l) && LeavesOnly(r)
    case Neg(x) => LeavesOnly(x)
    case Paren(x) => LeavesOnly(x)
  }

  lemma {:induction false} ReadingLeaves(e: Tree)
    requires LeavesOnly(e)
    ensures LeavesOnly(Reading(e))
    decreases e, 1
  {
    match e
    case Leaf(_) =>
    case Paren(x) => ReadingLeaves(x);
    case Neg(x) => ReadingLeaves(x);
    case Node(op, l, r) =>
      ReadingLeaves(l);
      if Signs(op) && LeadsWithMinus(r) {
        GraftLeaves(op, Reading(l), r);
      } else {
        ReadingLeaves(r);
      }
  }

  lemma {:induction false} GraftLeaves(op: Op, left: Tree, r: Tree)
    requires LeavesOnly(left) && LeavesOnly(r)
    ensures LeavesOnly(Graft(op, left, r))
    decreases r, 0
  {
    if r.Neg? {
      ReadingLeaves(r.e);
    } else if r.Node? {
      GraftLeaves(op, left, r.l);
      ReadingLeaves(r.r);
    }
  }

  // ---------------------------------------------------------------- compiling a tree

  /** The compiler's work on a tree: the stack and code behind it, and the operand that holds its value. */
  function Compile(q: Arith, scope: Scope, e: Tree, w: Work): (Work, Operand)
    requires Sound(w)
    ensures Sound(Compile(q, scope, e, w).0) && |Compile(q, scope, e, w).0.operands| == |w.operands|
  {
    match e
    case Leaf(o) => (w, o)
    case Paren(x) => Compile(q, scope, x, w)
    case Neg(x) =>
      var c := Compile(q, scope, x, w);
      Minus(q, scope, c.0, c.1)
    case Node(op, l, r) =>
      var cl := Compile(q, scope, l, w);
      var cr := Compile(q, scope, r, Push(cl.0, cl.1));
      Reduce(q, scope, cr.0, op, cr.1)
  }

  // ---------------------------------------------------------------- single moves of the parser

  lemma {:induction false} TakeSign(q: Arith, scope: Scope, ops: seq<Pending>, w: Work, x: Operand, op: Op,
                                    toks: seq<Token>)
    requires Sound(w) && (ops != [] ==> PendingPrecedence(ops[|ops| - 1]) < OpPrecedence(op))
    ensures Combine(q, scope, ops, w, x, [Sign(op)] + toks)
         == ParseOperand(q, scope, ops + [Binary(op)], Push(w, x), toks)
  {
    hide Operate, Spill;
    assert ([Sign(op)] + toks)[1..] == toks;
  }

  lemma {:induction false} TakeReduce(q: Arith, scope: Scope, ops: seq<Pending>, w: Work, x: Operand, op: Op,
                                      toks: seq<Token>)
    requires Sound(w) && w.operands != [] && Precedence(toks) <= OpPrecedence(op)
    ensures var r := Reduce(q, scope, w, op, x);
            Combine(q, scope, ops + [Binary(op)], w, x, toks) == Combine(q, scope, ops, r.0, r.1, toks)
  {
    hide Operate, Spill;
    assert (ops + [Binary(op)])[..|ops|] == ops;
  }

  lemma {:induction false} TakeMinusSign(q: Arith, scope: Scope, ops: seq<Pending>, w: Work, toks: seq<Token>)
    requires Sound(w) && (ops != [] ==> PendingPrecedence(ops[|ops| - 1]) < 40)
    ensures ParseOperand(q, scope, ops, w, [Sign(Sub)] + toks) == ParseOperand(q, scope, ops + [UnaryMinus], w, toks)
  {
    hide Operate, Spill;
    assert ([Sign(Sub)] + toks)[1..] == toks;
  }

  lemma {:induction false} TakeMinus(q: Arith, scope: Scope, ops: seq<Pending>, w: Work, x: Operand, toks: seq<Token>)
    requires Sound(w) && Precedence(toks) <= 40 && !Additive(ops)
    ensures var r := Minus(q, scope, w, x);
            Combine(q, scope, ops + [UnaryMinus], w, x, toks) == Combine(q, scope, ops, r.0, r.1, toks)
  {
    hide Operate, Spill;
    assert (ops + [UnaryMinus])[..|ops|] == ops;
  }

  /** A minus sign behind + or - turns it into the other operator. */
  lemma {:induction false} TakeMerge(q: Arith, scope: Scope, ops: seq<Pending>, w: Work, x: Operand, op: Op,
                                     toks: seq<Token>)
    requires Sound(w) && w.operands != [] && Signs(op) && Precedence(toks) <= 40
    ensures var r := Reduce(q, scope, w, Flip(op), x);
            Combine(q, scope, ops + [Binary(op)] + [UnaryMinus], w, x, toks) == Combine(q, scope, ops, r.0, r.1, toks)
  {
    hide Operate, Spill;
    var inner := ops + [Binary(op)];
    assert (inner + [UnaryMinus])[..|inner|] == inner && inner[..|ops|] == ops;
  }

  lemma {:induction false} TakeOpen(q: Arith, scope: Scope, ops: seq<Pending>, w: Work, toks: seq<Token>)
    requires Sound(w)
    ensures ParseOperand(q, scope, ops, w, [Open] + toks) == ParseOperand(q, scope, ops + [Bracket], w, toks)
  {
    hide Operate, Spill;
    assert ([Open] + toks)[1..] == toks;
  }

  lemma {:induction false} TakeClose(q: Arith, scope: Scope, ops: seq<Pending>, w: Work, x: Operand, toks: seq<Token>)
    requires Sound(w)
    ensures Combine(q, scope, ops + [Bracket], w, x, [Close] + toks) == Combine(q, scope, ops, w, x, toks)
  {
    hide Operate, Spill;
    assert ([Close] + toks)[1..] == toks && (ops + [Bracket])[..|ops|] == ops;
  }

  lemma {:induction false} TakeAtom(q: Arith, scope: Scope, ops: seq<Pending>, w: Work, o: Operand, toks: seq<Token>)
    requires Sound(w) && Spelled(o)
    ensures ParseOperand(q, scope, ops, w, [Atom(o)] + toks) == Combine(q, scope, ops, w, o, toks)
  {
    hide Operate, Spill;
    assert ([Atom(o)] + toks)[1..] == toks;
  }

  // ---------------------------------------------------------------- the parser compiles the reading

  /** The tree may stand behind these pending operators. */
  predicate Fits(ops: seq<Pending>, e: Tree) {
    && (ops != [] ==> PendingPrecedence(ops[|ops| - 1]) < TreePrecedence(e))
    && (LeadsWithMinus(e) ==> !Additive(ops))
  }

  /** Parsing a printed tree is compiling its reading, whatever is pending before it and follows it. */
  lemma {:induction false} ParsesTree(q: Arith, scope: Scope, e: Tree, ops: seq<Pending>, w: Work, rest: seq<Token>)
    requires Sound(w) && Bracketed(e) && Fits(ops, e) && Precedence(rest) <= TreePrecedence(e)
    ensures var c := Compile(q, scope, Reading(e), w);
            ParseOperand(q, scope, ops, w, Print(e) + rest) == Combine(q, scope, ops, c.0, c.1, rest)
    decreases e, 1
  {
    hide ParseOperand, Combine, Push, Reduce, Minus;
    match e
    case Leaf(o) =>
      TakeAtom(q, scope, ops, w, o, rest);
    case Paren(x) =>
      var c := Compile(q, scope, Reading(x), w);
      assert Print(e) + rest == [Open] + (Print(x) + ([Close] + rest));
      TakeOpen(q, scope, ops, w, Print(x) + ([Close] + rest));
      ParsesTree(q, scope, x, ops + [Bracket], w, [Close] + rest);
      TakeClose(q, scope, ops, c.0, c.1, rest);
    case Neg(x) =>
      var c := Compile(q, scope, Reading(x), w);
      assert Print(e) + rest == [Sign(Sub)] + (Print(x) + rest);
      TakeMinusSign(q, scope, ops, w, Print(x) + rest);
      ParsesTree(q, scope, x, ops + [UnaryMinus], w, rest);
      TakeMinus(q, scope, ops, c.0, c.1, rest);
    case Node(op, l, r) =>
      ParsesNode(q, scope, op, l, r, ops, w, rest);
  }

  lemma {:induction false} ParsesNode(q: Arith, scope: Scope, op: Op, l: Tree, r: Tree, ops: seq<Pending>, w: Work,
                                      rest: seq<Token>)
    requires Sound(w) && Bracketed(Node(op, l, r)) && Fits(ops, Node(op, l, r)) && Precedence(rest) <= OpPrecedence(op)
    ensures var c := Compile(q, scope, Reading(Node(op, l, r)), w);
            ParseOperand(q, scope, ops, w, Print(Node(op, l, r)) + rest) == Combine(q, scope, ops, c.0, c.1, rest)
    decreases Node(op, l, r), 0
  {
    hide ParseOperand, Combine, Push, Reduce, Minus;
    var more := [Sign(op)] + (Print(r) + rest);
    assert Print(Node(op, l, r)) + rest == Print(l) + more;
    ParsesTree(q, scope, l, ops, w, more);
    var cl := Compile(q, scope, Reading(l), w);
    TakeSign(q, scope, ops, cl.0, cl.1, op, Print(r) + rest);
    if Signs(op) && LeadsWithMinus(r) {
      ParsesGraft(q, scope, op, Reading(l), r, ops, w, rest);
    } else {
      ParsesTree(q, scope, r, ops + [Binary(op)], Push(cl.0, cl.1), rest);
      var cr := Compile(q, scope, Reading(r), Push(cl.0, cl.1));
      TakeReduce(q, scope, ops, cr.0, cr.1, op, rest);
    }
  }

  /** Behind + or -, a right operand that starts with a minus sign is grafted onto the left one. */
  lemma {:induction false} ParsesGraft(q: Arith, scope: Scope, op: Op, left: Tree, r: Tree, ops: seq<Pending>,
                                       w: Work, rest: seq<Token>)
    requires Sound(w) && Bracketed(r) && LeadsWithMinus(r) && Signs(op)
    requires TreePrecedence(r) > 20 && Precedence(rest) <= TreePrecedence(r)
    requires ops != [] ==> PendingPrecedence(ops[|ops| - 1]) < 20
    ensures var cl, c := Compile(q, scope, left, w), Compile(q, scope, Graft(op, left, r), w);
            ParseOperand(q, scope, ops + [Binary(op)], Push(cl.0, cl.1), Print(r) + rest)
            == Combine(q, scope, ops, c.0, c.1, rest)
    decreases r, 0
  {
    hide ParseOperand, Combine, Push, Reduce, Minus;
    var cl := Compile(q, scope, left, w);
    if r.Neg? {
      GraftsNeg(q, scope, op, left, r.e, ops, w, rest);
    } else {
      var more := [Sign(r.op)] + (Print(r.r) + rest);
      assert Print(r) + rest == Print(r.l) + more;
      ParsesGraft(q, scope, op, left, r.l, ops, w, more);
      var cg := Compile(q, scope, Graft(op, left, r.l), w);
      TakeSign(q, scope, ops, cg.0, cg.1, r.op, Print(r.r) + rest);
      ParsesTree(q, scope, r.r, ops + [Binary(r.op)], Push(cg.0, cg.1), rest);
      var cr := Compile(q, scope, Reading(r.r), Push(cg.0, cg.1));
      TakeReduce(q, scope, ops, cr.0, cr.1, r.op, rest);
    }
  }

  lemma {:induction false} GraftsNeg(q: Arith, scope: Scope, op: Op, left: Tree, x: Tree, ops: seq<Pending>,
                                     w: Work, rest: seq<Token>)
    requires Sound(w) && Bracketed(Neg(x)) && Signs(op) && Precedence(rest) <= 40
    ensures var cl, c := Compile(q, scope, left, w), Compile(q, scope, Graft(op, left, Neg(x)), w);
            ParseOperand(q, scope, ops + [Binary(op)], Push(cl.0, cl.1), Print(Neg(x)) + rest)
            == Combine(q, scope, ops, c.0, c.1, rest)
    decreases x, 2
  {
    hide ParseOperand, Combine, Push, Reduce, Minus;
    var cl, inner := Compile(q, scope, left, w), ops + [Binary(op)];
    assert Print(Neg(x)) + rest == [Sign(Sub)] + (Print(x) + rest);
    TakeMinusSign(q, scope, inner, Push(cl.0, cl.1), Print(x) + rest);
    ParsesTree(q, scope, x, inner + [UnaryMinus], Push(cl.0, cl.1), rest);
    var cx := Compile(q, scope, Reading(x), Push(cl.0, cl.1));
    TakeMerge(q, scope, ops, cx.0, cx.1, op, rest);
  }
}
