/** Compiled expressions compute the value of their trees. */
module ExprCorrect {
  import opened ExprMachine
  import opened ExprCodeGen
  import opened ExprParser
  import opened ExprTree

  // ---------------------------------------------------------------- code under construction

  /** Code names only spill cells in use, and behind the hoisted loads RESULT is written before it is read. */
  predicate CodeInv(g: Gen) {
    && g.blockBegin <= |g.code|
    && CodeBounded(g.code, g.size)
    && (g.Rest() != [] ==> !ReadsResult(g.Rest()[0]))
  }

  /** A resolved operand of the code: RESULT counts only once the code has computed something into it. */
  predicate Usable(g: Gen, o: Operand)
    requires g.blockBegin <= |g.code|
  {
    !o.Symbol? && Below(o, g.size) && (o.Result? ==> g.Rest() != [])
  }

  /** Everything but RESULT and the spill cells from n on is as before. */
  ghost predicate Agree(t: State, t': State, n: nat) {
    forall o: Operand | Below(o, n) && !o.Result? :: Read(t', o) == Read(t, o)
  }

  lemma {:induction false} EmitInv(q: Arith, g: Gen, i: Instr, s: State)
    requires CodeInv(g) && Bounded(i, g.size) && (g.Rest() == [] ==> !ReadsResult(i))
    ensures CodeInv(g.Emit(i)) && g.Emit(i).Rest() == g.Rest() + [i]
    ensures Run(q, g.Emit(i).code, s) == Exec(q, i, Run(q, g.code, s))
  {
    assert g.Emit(i).Rest() == g.Rest() + [i];
    RunOne(q, g.code, i, s);
  }

  lemma {:induction false} AllocateInv(g: Gen)
    requires CodeInv(g)
    ensures CodeInv(Allocate(g).g)
  {
    forall k | 0 <= k < |g.code| ensures Bounded(g.code[k], g.size + 1) {
      assert Bounded(g.code[k], g.size);
    }
  }

  lemma {:induction false} ToResultCorrect(q: Arith, g: Gen, o: Operand, s: State)
    requires CodeInv(g) && Usable(g, o)
    ensures var g', t := ToResult(g, o), Run(q, g.code, s);
            && CodeInv(g') && g'.Rest() != [] && g'.size == g.size
            && Run(q, g'.code, s) == t.(res := Read(t, o))
  {
    if o.Value? {
      EmitInv(q, g, Load(o.v), s);
    } else if !o.Result? {
      EmitInv(q, g, Fetch(o), s);
    }
  }

  lemma {:induction false} SpillCorrect(q: Arith, g: Gen, o: Operand, s: State)
    requires CodeInv(g) && Usable(g, o)
    ensures var p, t := Spill(g, o), Run(q, g.code, s);
            && CodeInv(p.g) && p.g.Rest() != [] && p.g.size == g.size + 1 && Usable(p.g, p.o)
            && Run(q, p.g.code, s) == t.(res := Read(t, o), cells := t.cells[Tmp(g.size) := Read(t, o)])
  {
    AllocateInv(g);
    var g1 := Allocate(g).g;
    ToResultCorrect(q, g1, o, s);
    EmitInv(q, ToResult(g1, o), Save(g.size), s);
  }

  lemma LoadAndSave(q: Arith, v: Word, n: nat, t: State)
    ensures Run(q, [Load(v), Save(n)], t) == t.(res := v, cells := t.cells[Tmp(n) := v])
  {
    assert [Load(v), Save(n)][..1] == [Load(v)];
    RunOne(q, [Load(v)], Save(n), t);
    RunOne(q, [], Load(v), t);
  }

  /** Code that does not depend on RESULT and does not touch cell n runs the same behind a load of that cell. */
  lemma RunsBehindLoad(q: Arith, rest: seq<Instr>, t: State, n: nat, v: Word)
    requires CodeBounded(rest, n) && (rest != [] ==> !ReadsResult(rest[0]))
    ensures var u := Run(q, rest, t);
            Run(q, rest, t.(res := v, cells := t.cells[Tmp(n) := v]))
            == u.(res := if rest == [] then v else u.res, cells := u.cells[Tmp(n) := v])
  {
    if rest != [] {
      ResultOverwritten(q, rest, t.(cells := t.cells[Tmp(n) := v]), v);
      FreshCell(q, rest, t, n, v);
    }
  }

  lemma {:induction false} PreloadInv(g: Gen, v: Word)
    requires CodeInv(g)
    ensures CodeInv(Preload(g, v).g) && Preload(g, v).g.Rest() == g.Rest()
  {
    var g' := Preload(g, v).g;
    assert g'.Rest() == g.Rest();
    forall k | 0 <= k < |g'.code| ensures Bounded(g'.code[k], g.size + 1) {
      assert k < g.blockBegin ==> g'.code[k] == g.code[k];
      assert k >= g.blockBegin + 2 ==> g'.code[k] == g.code[k - 2];
    }
  }

  /** A hoisted load changes nothing but its own fresh cell, and RESULT only while nothing has been computed. */
  lemma PreloadCorrect(q: Arith, g: Gen, v: Word, s: State)
    requires CodeInv(g)
    ensures var p, t := Preload(g, v), Run(q, g.code, s);
            && CodeInv(p.g) && p.g.size == g.size + 1 && p.g.Rest() == g.Rest() && Usable(p.g, p.o)
            && Run(q, p.g.code, s)
               == t.(res := if g.Rest() == [] then v else t.res, cells := t.cells[Tmp(g.size) := v])
  {
    hide Run;
    var front, rest, load := g.code[..g.blockBegin], g.Rest(), [Load(v), Save(g.size)];
    PreloadInv(g, v);
    assert g.code == front + rest && Preload(g, v).g.code == front + load + rest;
    RunAppend(q, front, rest, s);
    RunAppend(q, front, load, s);
    RunAppend(q, front + load, rest, s);
    LoadAndSave(q, v, g.size, Run(q, front, s));
    RunsBehindLoad(q, rest, Run(q, front, s), g.size, v);
  }

  // ---------------------------------------------------------------- binary operations

  /** From code g with value states t to code g' with t': everything g could name keeps its value. */
  ghost predicate Grown(q: Arith, g: Gen, g': Gen, s: State) {
    CodeInv(g') && g.size <= g'.size && Agree(Run(q, g.code, s), Run(q, g'.code, s), g.size)
  }

  lemma {:induction false} FinishCorrect(q: Arith, g: Gen, a: Operand, b: Operand, op: Op, s: State)
    requires CodeInv(g) && Usable(g, a) && Usable(g, b) && !InResult(b)
    ensures var g', t := Finish(g, a, b, op), Run(q, g.code, s);
            Grown(q, g, g', s) && g'.Rest() != [] && Run(q, g'.code, s).res == q.Apply(op, Read(t, a), Read(t, b))
  {
    hide Run;
    if a.Memory? && a != Memory(true) {
      EmitInv(q, g, Alu(op, a, b), s);
    } else {
      ToResultCorrect(q, g, a, s);
      EmitInv(q, ToResult(g, a), Alu(op, Result, b), s);
    }
  }

  lemma {:induction false} ArrangeCorrect(q: Arith, g: Gen, a: Operand, b: Operand, op: Op, s: State)
    requires CodeInv(g) && Usable(g, a) && Usable(g, b) && (b.Value? ==> !a.Result?)
    ensures var g', t := Arrange(g, a, b, op), Run(q, g.code, s);
            Grown(q, g, g', s) && g'.Rest() != [] && Run(q, g'.code, s).res == q.Apply(op, Read(t, a), Read(t, b))
  {
    hide Run;
    if InResult(b) {
      SpillCorrect(q, g, b, s);
      var p := Spill(g, b);
      FinishCorrect(q, p.g, a, p.o, op, s);
    } else {
      FinishCorrect(q, g, a, b, op, s);
    }
  }

  /** Replacing operand b by a hoisted copy. */
  lemma PreloadKeeps(q: Arith, g: Gen, v: Word, a: Operand, s: State)
    requires CodeInv(g) && Usable(g, a)
    ensures var p, t := Preload(g, v), Run(q, g.code, s);
            && Grown(q, g, p.g, s) && Usable(p.g, a) && Usable(p.g, p.o) && !InResult(p.o)
            && Read(Run(q, p.g.code, s), a) == Read(t, a) && Read(Run(q, p.g.code, s), p.o) == v
  {
    PreloadCorrect(q, g, v, s);
  }

  lemma {:induction false} GrownTrans(q: Arith, g: Gen, g1: Gen, g2: Gen, s: State)
    requires Grown(q, g, g1, s) && Grown(q, g1, g2, s)
    ensures Grown(q, g, g2, s)
  {
    var t, t1, t2 := Run(q, g.code, s), Run(q, g1.code, s), Run(q, g2.code, s);
    forall o: Operand | Below(o, g.size) && !o.Result? ensures Read(t2, o) == Read(t, o) {
      assert Read(t1, o) == Read(t, o);
    }
  }

  lemma OperateCorrect(q: Arith, g: Gen, a: Operand, b: Operand, op: Op, s: State)
    requires CodeInv(g) && Usable(g, a) && Usable(g, b) && q.Commutes()
    ensures var g', t := Operate(g, a, b, op), Run(q, g.code, s);
            Grown(q, g, g', s) && g'.Rest() != [] && Run(q, g'.code, s).res == q.Apply(op, Read(t, a), Read(t, b))
  {
    var pb := PreloadSecond(g, a, b);
    if pb.o != b {
      PreloadKeeps(q, g, b.v, a, s);
    }
    var pa := PreloadFirst(pb.g, a, pb.o, op);
    if pa.o != a {
      PreloadKeeps(q, pb.g, a.v, pb.o, s);
      GrownTrans(q, g, pb.g, pa.g, s);
    }
    if Swaps(pa.o, pb.o, op) {
      ArrangeCorrect(q, pa.g, pb.o, pa.o, op, s);
    } else {
      ArrangeCorrect(q, pa.g, pa.o, pb.o, op, s);
    }
    GrownTrans(q, g, pa.g, Operate(g, a, b, op), s);
  }

  // ---------------------------------------------------------------- shape of the operand stack

  /** The whole tree is a constant the compiler computes itself. */
  predicate Folds(e: Tree) {
    match e
    case Leaf(o) => o.Value?
    case Node(_, l, r) => Folds(l) && Folds(r)
    case Neg(x) => Folds(x)
    case Paren(x) => Folds(x)
  }

  /** The tree's value ends up in RESULT. */
  predicate LeavesResult(e: Tree) {
    match e
    case Leaf(_) => false
    case Paren(x) => LeavesResult(x)
    case _ => !Folds(e)
  }

  /** Compiling the tree stacks an operand, which moves a value waiting in RESULT to a cell. */
  predicate Stacks(e: Tree) {
    match e
    case Leaf(_) => false
    case Node(_, _, _) => true
    case Neg(x) => Stacks(x)
    case Paren(x) => Stacks(x)
  }

  predicate ResultOnTop(w: Work) {
    w.operands != [] && w.operands[|w.operands| - 1].Result?
  }

  /** The same stack, but a value the top had in RESULT may have been spilled. */
  predicate SameStack(w: Work, w': Work) {
    && |w'.operands| == |w.operands|
    && forall i | 0 <= i < |w.operands| ::
         w'.operands[i] == w.operands[i] || (w.operands[i].Result? && w'.operands[i].Stored?)
  }

  lemma {:induction false} CompileShape(q: Arith, scope: Scope, e: Tree, w: Work)
    requires Sound(w) && LeavesOnly(e)
    ensures var c := Compile(q, scope, e, w);
            && SameStack(w, c.0) && (c.1.Value? <==> Folds(e)) && (c.1.Result? <==> LeavesResult(e))
            && (ResultOnTop(c.0) <==> ResultOnTop(w) && !Stacks(e))
  {
    hide Operate, NegateOperand;
    match e
    case Leaf(_) =>
    case Paren(x) => CompileShape(q, scope, x, w);
    case Neg(x) => CompileShape(q, scope, x, w);
    case Node(op, l, r) =>
      CompileShape(q, scope, l, w);
      var cl := Compile(q, scope, l, w);
      CompileShape(q, scope, r, Push(cl.0, cl.1));
  }

  // ---------------------------------------------------------------- values on the operand stack

  /** The operand, read when the code has run, is the tree's value. */
  predicate Holds(q: Arith, scope: Scope, g: Gen, o: Operand, e: Tree, s: State) {
    && g.blockBegin <= |g.code|
    && Usable(g, Resolve(scope, o))
    && Read(Run(q, g.code, s), Resolve(scope, o)) == Eval(q, scope, e, s)
  }

  /** Every stacked operand holds the value of its tree; only the top one may be in RESULT. */
  predicate StackInv(q: Arith, scope: Scope, w: Work, es: seq<Tree>, s: State) {
    && CodeInv(w.g) && |w.operands| == |es|
    && (forall i | 0 <= i < |es| :: Holds(q, scope, w.g, w.operands[i], es[i], s))
    && (forall i | 0 <= i < |es| - 1 :: !w.operands[i].Result?)
  }

  lemma GrownHolds(q: Arith, scope: Scope, g: Gen, g': Gen, o: Operand, e: Tree, s: State)
    requires CodeInv(g) && Grown(q, g, g', s) && Holds(q, scope, g, o, e, s) && !o.Result?
    ensures Holds(q, scope, g', o, e, s)
  {
  }

  lemma {:induction false} PushCorrect(q: Arith, scope: Scope, w: Work, es: seq<Tree>, x: Operand, e: Tree, s: State)
    requires StackInv(q, scope, w, es, s) && Holds(q, scope, w.g, x, e, s)
    ensures StackInv(q, scope, Push(w, x), es + [e], s)
  {
    hide Run;
    if ResultOnTop(w) {
      var top := |es| - 1;
      SpillCorrect(q, w.g, Result, s);
      var p := Spill(w.g, Result);
      assert Holds(q, scope, w.g, w.operands[top], es[top], s);
      forall i | 0 <= i < top ensures Holds(q, scope, p.g, w.operands[i], es[i], s) {
        GrownHolds(q, scope, w.g, p.g, w.operands[i], es[i], s);
      }
      if !x.Result? {
        GrownHolds(q, scope, w.g, p.g, x, e, s);
      }
    }
  }

  lemma {:induction false} ReduceCorrect(q: Arith, scope: Scope, w: Work, es: seq<Tree>, op: Op, y: Operand,
                                         e: Tree, s: State)
    requires StackInv(q, scope, w, es, s) && es != [] && Holds(q, scope, w.g, y, e, s)
    requires q.Commutes()
    ensures var r, top := Reduce(q, scope, w, op, y), |es| - 1;
            && StackInv(q, scope, r.0, es[..top], s) && !ResultOnTop(r.0)
            && Holds(q, scope, r.0.g, r.1, Node(op, es[top], e), s)
  {
    hide Operate, Run;
    var top := |es| - 1;
    var a := w.operands[top];
    assert Holds(q, scope, w.g, a, es[top], s);
    if !(a.Value? && y.Value?) {
      OperateCorrect(q, w.g, Resolve(scope, a), Resolve(scope, y), op, s);
      var g' := Reduce(q, scope, w, op, y).0.g;
      forall i | 0 <= i < top ensures Holds(q, scope, g', w.operands[i], es[i], s) {
        GrownHolds(q, scope, w.g, g', w.operands[i], es[i], s);
      }
    }
  }

  /** The trees on the stack, the top one replaced by e. */
  function Replaced(es: seq<Tree>, e: Tree): seq<Tree> {
    if es == [] then [] else es[..|es| - 1] + [e]
  }

  lemma NegateCorrect(q: Arith, g: Gen, o: Operand, s: State)
    requires CodeInv(g) && Usable(g, o)
    ensures var g' := NegateOperand(g, o);
            Grown(q, g, g', s) && g'.Rest() != [] && Run(q, g'.code, s).res == q.neg(Read(Run(q, g.code, s), o))
  {
    hide Run;
    ToResultCorrect(q, g, o, s);
    EmitInv(q, ToResult(g, o), Negate, s);
  }

  /** A negation takes place in RESULT; an operand still waiting there gets its value. */
  lemma {:induction false} MinusCorrect(q: Arith, scope: Scope, w: Work, es: seq<Tree>, y: Operand, e: Tree, s: State)
    requires StackInv(q, scope, w, es, s) && Holds(q, scope, w.g, y, e, s) && q.SignLaws()
    ensures var r := Minus(q, scope, w, y);
            && StackInv(q, scope, r.0, if !y.Value? && ResultOnTop(w) then Replaced(es, Neg(e)) else es, s)
            && Holds(q, scope, r.0.g, r.1, Neg(e), s)
  {
    hide Run, NegateOperand, Agree;
    if !y.Value? {
      NegateCorrect(q, w.g, Resolve(scope, y), s);
      var g' := NegateOperand(w.g, Resolve(scope, y));
      forall i | 0 <= i < |es| && !w.operands[i].Result? ensures Holds(q, scope, g', w.operands[i], es[i], s) {
        GrownHolds(q, scope, w.g, g', w.operands[i], es[i], s);
      }
      assert Holds(q, scope, g', Result, Neg(e), s);
    }
  }

  // ---------------------------------------------------------------- negations and a waiting operand

  /** Compiling the tree negates something in RESULT before it stacks an operand. */
  predicate Strikes(e: Tree) {
    match e
    case Leaf(_) => false
    case Paren(x) => Strikes(x)
    case Neg(x) => Strikes(x) || !(Stacks(x) || Folds(x))
    case Node(_, l, _) => Strikes(l)
  }

  /** The part of the tree whose value an operand waiting in RESULT takes on. */
  function Striker(e: Tree): (r: Tree)
    requires Strikes(e)
    ensures !Stacks(r) && HasNeg(r)
  {
    match e
    case Paren(x) => Striker(x)
    case Neg(x) => if Stacks(x) then Striker(x) else e
    case Node(_, l, _) => Striker(l)
  }

  /**
   * What is computed in fact: the left operand of an operator, computed in RESULT, is replaced by the leading negation
   * of the right one.
   */
  function Effective(e: Tree): Tree {
    match e
    case Leaf(_) => e
    case Paren(x) => Paren(Effective(x))
    case Neg(x) => Neg(Effective(x))
    case Node(op, l, r) => Node(op, if LeavesResult(l) && Strikes(r) then Striker(r) else Effective(l), Effective(r))
  }

  lemma {:induction false} ChainEffective(e: Tree)
    requires !Stacks(e)
    ensures Effective(e) == e
  {
    match e
    case Leaf(_) =>
    case Paren(x) => ChainEffective(x);
    case Neg(x) => ChainEffective(x);
  }

  lemma {:induction false} FoldsUnstruck(e: Tree)
    requires Folds(e)
    ensures !Strikes(e)
  {
    match e
    case Leaf(_) =>
    case Paren(x) => FoldsUnstruck(x);
    case Neg(x) => FoldsUnstruck(x);
    case Node(_, l, _) => FoldsUnstruck(l);
  }

  /** The trees on the stack when e has been compiled. */
  function Struck(w: Work, es: seq<Tree>, e: Tree): seq<Tree> {
    if ResultOnTop(w) && Strikes(e) then Replaced(es, Striker(e)) else es
  }

  // ---------------------------------------------------------------- whole trees

  lemma StackSound(q: Arith, scope: Scope, w: Work, es: seq<Tree>, s: State)
    requires StackInv(q, scope, w, es, s)
    ensures Sound(w) && |w.operands| == |es|
  {
  }

  /**
   * Compiling a tree leaves the value that is computed in fact in its operand; the operands below keep their values,
   * but for one waiting in RESULT that a negation strikes.
   */
  lemma {:induction false} CompileCorrect(q: Arith, scope: Scope, e: Tree, w: Work, es: seq<Tree>, s: State)
    requires StackInv(q, scope, w, es, s) && LeavesOnly(e)
    requires q.Commutes() && (HasNeg(e) ==> q.SignLaws())
    ensures var c := Compile(q, scope, e, w);
            StackInv(q, scope, c.0, Struck(w, es, e), s) && Holds(q, scope, c.0.g, c.1, Effective(e), s)
    decreases e, 1
  {
    hide Operate, Reduce, Push, Minus, Run, Spill;
    match e
    case Leaf(o) =>
      EnvironmentKept(q, w.g.code, s, Resolve(scope, o));
    case Paren(x) =>
      CompileCorrect(q, scope, x, w, es, s);
    case Neg(x) =>
      NegCorrect(q, scope, x, w, es, s);
    case Node(op, l, r) =>
      NodeCorrect(q, scope, op, l, r, w, es, s);
  }

  lemma {:induction false} NegCorrect(q: Arith, scope: Scope, x: Tree, w: Work, es: seq<Tree>, s: State)
    requires StackInv(q, scope, w, es, s) && LeavesOnly(x) && q.Commutes() && q.SignLaws()
    ensures var c := Compile(q, scope, Neg(x), w);
            StackInv(q, scope, c.0, Struck(w, es, Neg(x)), s) && Holds(q, scope, c.0.g, c.1, Effective(Neg(x)), s)
    decreases x, 2
  {
    hide Operate, Reduce, Push, Minus, Run, Spill, Holds, StackInv, CodeInv;
    CompileCorrect(q, scope, x, w, es, s);
    StackSound(q, scope, w, es, s);
    CompileShape(q, scope, x, w);
    var c := Compile(q, scope, x, w);
    MinusCorrect(q, scope, c.0, Struck(w, es, x), c.1, Effective(x), s);
    if Folds(x) {
      FoldsUnstruck(x);
    } else if !Stacks(x) {
      ChainEffective(x);
      if ResultOnTop(w) {
        assert Replaced(Struck(w, es, x), Neg(x)) == Replaced(es, Neg(x));
      }
    }
  }

  lemma {:induction false} NodeCorrect(q: Arith, scope: Scope, op: Op, l: Tree, r: Tree, w: Work, es: seq<Tree>,
                                       s: State)
    requires StackInv(q, scope, w, es, s) && LeavesOnly(Node(op, l, r))
    requires q.Commutes() && (HasNeg(Node(op, l, r)) ==> q.SignLaws())
    ensures var c := Compile(q, scope, Node(op, l, r), w);
            && StackInv(q, scope, c.0, Struck(w, es, Node(op, l, r)), s)
            && Holds(q, scope, c.0.g, c.1, Effective(Node(op, l, r)), s)
    decreases Node(op, l, r), 0
  {
    hide Operate, Reduce, Push, Minus, Run, Spill, CodeInv, Usable, StackInv, Holds, Read, Eval;
    StackSound(q, scope, w, es, s);
    CompileCorrect(q, scope, l, w, es, s);
    CompileShape(q, scope, l, w);
    var cl, below := Compile(q, scope, l, w), Struck(w, es, l);
    StackSound(q, scope, cl.0, below, s);
    PushCorrect(q, scope, cl.0, below, cl.1, Effective(l), s);
    var wp, stacked := Push(cl.0, cl.1), below + [Effective(l)];
    CompileCorrect(q, scope, r, wp, stacked, s);
    var cr, es' := Compile(q, scope, r, wp), Struck(wp, stacked, r);
    ReduceCorrect(q, scope, cr.0, es', op, cr.1, Effective(r), s);
    assert ResultOnTop(wp) <==> LeavesResult(l);
    assert es'[..|below|] == below && |es'| == |below| + 1;
  }

  // ---------------------------------------------------------------- the compiler is correct

  /** What may follow an expression. */
  predicate Ends(rest: seq<Token>) {
    rest == [] || rest[0].Close? || rest[0].Other? || rest[0].Atom?
  }

  /**
   * The compiled expression: nothing but the expression was consumed, and its operand holds `v` when the code has
   * run.
   */
  predicate Computes(q: Arith, scope: Scope, r: Outcome, rest: seq<Token>, s: State, v: Word) {
    r.Parsed? && r.rest == rest && Read(Run(q, r.g.code, s), Resolve(scope, r.o)) == v
  }

  /**
   * Every written tree is parsed. From any machine state its code computes the value of the parser's reading, in which
   * negations strike the operands waiting in RESULT.
   */
  lemma ReadingCompiled(q: Arith, scope: Scope, e: Tree, rest: seq<Token>, s: State)
    requires Bracketed(e) && Ends(rest) && q.Commutes() && (HasNeg(e) ==> q.SignLaws())
    ensures Computes(q, scope, ParseExpr(q, scope, Print(e) + rest), rest, s, Eval(q, scope, Effective(Reading(e)), s))
  {
    hide Run, Compile, Operate, Eval, Reading, ParseOperand, Effective;
    BracketedLeaves(e);
    ReadingLeaves(e);
    if !HasNeg(e) {
      PlainReading(e);
    }
    ParsesTree(q, scope, e, [], START, rest);
    CompileCorrect(q, scope, Reading(e), START, [], s);
  }

  /** No operand is replaced by another tree. */
  predicate Unstruck(e: Tree) {
    Effective(e) == e
  }

  /**
   * With every minus sign behind + or - applying to a whole operand, and no operand struck, that is the value of the
   * tree as written.
   */
  lemma ExpressionCompiled(q: Arith, scope: Scope, e: Tree, rest: seq<Token>, s: State)
    requires Bracketed(e) && MinusPlaced(e) && Unstruck(Reading(e)) && Ends(rest)
    requires q.Commutes() && q.SignLaws()
    ensures Computes(q, scope, ParseExpr(q, scope, Print(e) + rest), rest, s, Eval(q, scope, e, s))
  {
    ReadingCompiled(q, scope, e, rest, s);
    ReadingMeans(q, scope, e, s);
  }

  lemma {:induction false} BracketedLeaves(e: Tree)
    requires Bracketed(e)
    ensures LeavesOnly(e)
  {
    match e
    case Leaf(_) =>
    case Paren(x) => BracketedLeaves(x);
    case Neg(x) => BracketedLeaves(x);
    case Node(_, l, r) =>
      BracketedLeaves(l);
      BracketedLeaves(r);
  }

  lemma {:induction false} PlainUnstruck(e: Tree)
    requires !HasNeg(e)
    ensures Unstruck(e) && !Strikes(e)
  {
    match e
    case Leaf(_) =>
    case Paren(x) => PlainUnstruck(x);
    case Neg(x) =>
    case Node(_, l, r) =>
      PlainUnstruck(l);
      PlainUnstruck(r);
  }

  // ---------------------------------------------------------------- needed brackets

  function Guard(e: Tree, least: nat): Tree {
    if TreePrecedence(e) >= least then e else Paren(e)
  }

  /** The tree with the brackets its printing needs. */
  function AddBrackets(e: Tree): Tree {
    match e
    case Leaf(_) => e
    case Paren(x) => Paren(AddBrackets(x))
    case Neg(x) => Neg(Guard(AddBrackets(x), 41))
    case Node(op, l, r) =>
      Node(op, Guard(AddBrackets(l), OpPrecedence(op)), Guard(AddBrackets(r), OpPrecedence(op) + 1))
  }

  lemma {:induction false} BracketsMean(q: Arith, scope: Scope, e: Tree, s: State)
    requires LeavesOnly(e)
    ensures Bracketed(AddBrackets(e)) && (HasNeg(AddBrackets(e)) <==> HasNeg(e))
    ensures Eval(q, scope, AddBrackets(e), s) == Eval(q, scope, e, s)
  {
    match e
    case Leaf(_) =>
    case Paren(x) => BracketsMean(q, scope, x, s);
    case Neg(x) => BracketsMean(q, scope, x, s);
    case Node(_, l, r) =>
      BracketsMean(q, scope, l, s);
      BracketsMean(q, scope, r, s);
  }

  /** Any tree over + - * / and negative constants, printed with the brackets it needs, is compiled to its value. */
  lemma PlainTreeCompiled(q: Arith, scope: Scope, e: Tree, rest: seq<Token>, s: State)
    requires LeavesOnly(e) && !HasNeg(e) && Ends(rest) && q.Commutes()
    ensures Computes(q, scope, ParseExpr(q, scope, Print(AddBrackets(e)) + rest), rest, s, Eval(q, scope, e, s))
  {
    BracketsMean(q, scope, e, s);
    PlainReading(AddBrackets(e));
    PlainUnstruck(AddBrackets(e));
    ReadingCompiled(q, scope, AddBrackets(e), rest, s);
  }

  // ---------------------------------------------------------------- where minus signs go wrong

  /** The two-element field: it satisfies every law the compiler relies on. */
  const BITS := Arith(
    (x: Word, y: Word) => if x == ZERO then y else if y == ZERO then x else ZERO,
    (x: Word, y: Word) => if x == ZERO then y else if y == ZERO then x else ZERO,
    (x: Word, y: Word) => if x == ONE then y else if y == ONE then x else ZERO,
    (x: Word, y: Word) => x, (x: Word) => x, ONE)
  const ZERO := Qfp(0)
  const ONE := Qfp(1)

  /** Two scalars: name 0 holds one, name 1 holds zero. */
  const SCALARS: Scope := (n: nat) => Scalar
  const SAMPLE := State(ZERO, map[Var(0, 0) := ONE, Var(1, 0) := ZERO], ZERO, ZERO)
  const N0 := Leaf(Symbol(0, 0))
  const N1 := Leaf(Symbol(1, 0))

  lemma BitsLawful()
    ensures BITS.Commutes() && BITS.SignLaws()
  {
  }

  lemma Values(op: Op, l: Tree, r: Tree)
    ensures Eval(BITS, SCALARS, N0, SAMPLE) == ONE && Eval(BITS, SCALARS, N1, SAMPLE) == ZERO
    ensures Eval(BITS, SCALARS, Node(op, l, r), SAMPLE)
         == BITS.Apply(op, Eval(BITS, SCALARS, l, SAMPLE), Eval(BITS, SCALARS, r, SAMPLE))
    ensures Eval(BITS, SCALARS, Neg(l), SAMPLE) == Eval(BITS, SCALARS, l, SAMPLE)
    ensures Eval(BITS, SCALARS, Paren(l), SAMPLE) == Eval(BITS, SCALARS, l, SAMPLE)
  {
  }

  lemma ReadsProduct(a: Operand, b: Operand, c: Operand)
    requires a.Symbol? && b.Symbol? && c.Symbol?
    ensures var e := Node(Add, Leaf(a), Node(Mul, Neg(Leaf(b)), Leaf(c)));
            && Bracketed(e) && Reading(e) == Node(Mul, Node(Sub, Leaf(a), Leaf(b)), Leaf(c))
            && Unstruck(Reading(e))
  {
    var x, r := Leaf(b), Node(Mul, Neg(Leaf(b)), Leaf(c));
    var left := Reading(Leaf(a));
    assert LeadsWithMinus(r.l) && LeadsWithMinus(r);
    assert Graft(Add, left, r.l) == Node(Sub, left, Reading(x));
    assert Graft(Add, left, r) == Node(Mul, Graft(Add, left, r.l), Reading(Leaf(c)));
    assert Bracketed(Leaf(a)) && Bracketed(x) && Bracketed(Leaf(c)) && Bracketed(r.l) && Bracketed(r);
    assert !HasNeg(Node(Sub, Leaf(a), Leaf(b))) && !HasNeg(Leaf(c));
    PlainUnstruck(Node(Mul, Node(Sub, Leaf(a), Leaf(b)), Leaf(c)));
  }

  lemma ProductValues()
    ensures Eval(BITS, SCALARS, Node(Add, N0, Node(Mul, Neg(N1), N1)), SAMPLE) == ONE
    ensures Eval(BITS, SCALARS, Node(Mul, Node(Sub, N0, N1), N1), SAMPLE) == ZERO
  {
    hide Eval;
    Values(Sub, N0, N1);
    Values(Mul, Node(Sub, N0, N1), N1);
    Values(Mul, Neg(N1), N1);
    Values(Add, N1, N1);
    Values(Add, N0, Node(Mul, Neg(N1), N1));
  }

  /** a + -b * b is compiled as (a - b) * b: the condition on minus signs cannot be dropped. */
  lemma {:induction false} MinusBeforeProduct()
    ensures var e := Node(Add, N0, Node(Mul, Neg(N1), N1));
            && Bracketed(e) && Unstruck(Reading(e)) && BITS.Commutes() && BITS.SignLaws()
            && Eval(BITS, SCALARS, e, SAMPLE) == ONE
            && Computes(BITS, SCALARS, ParseExpr(BITS, SCALARS, Print(e)), [], SAMPLE, ZERO)
  {
    hide ParseExpr, Run, Eval, Print, Bracketed, Effective, Reading, HasNeg, Read;
    var e := Node(Add, N0, Node(Mul, Neg(N1), N1));
    BitsLawful();
    ReadsProduct(Symbol(0, 0), Symbol(1, 0), Symbol(1, 0));
    ReadingCompiled(BITS, SCALARS, e, [], SAMPLE);
    assert Print(e) + [] == Print(e);
    ProductValues();
  }

  /**
   * Negating a name or memory access as right operand of * or / strikes a left operand computed in RESULT:
   * l * -x is compiled to -x * -x. So the condition on negations cannot be dropped either.
   */
  lemma {:induction false} NegationOverwrites(q: Arith, scope: Scope, op: Op, l: Tree, x: Operand,
                                              rest: seq<Token>, s: State)
    requires !Signs(op) && Bracketed(Node(op, l, Neg(Leaf(x)))) && Ends(rest) && q.Commutes() && q.SignLaws()
    requires LeavesResult(Reading(l)) && !x.Value?
    ensures var minus := q.neg(Read(s, Resolve(scope, x)));
            Computes(q, scope, ParseExpr(q, scope, Print(Node(op, l, Neg(Leaf(x)))) + rest), rest, s,
                     q.Apply(op, minus, minus))
  {
    hide Run, ParseExpr, Print, Read, Bracketed, HasNeg, LeavesResult, Effective, Eval, Reading, Computes;
    var n := Neg(Leaf(x));
    StrikesLeft(op, l, x);
    ReadingCompiled(q, scope, Node(op, l, n), rest, s);
    ValueOfTwice(q, scope, op, x, s);
  }

  /** A negated name or memory access is its own striker. */
  lemma NegatedLeaf(x: Operand)
    requires !x.Value?
    ensures var n := Neg(Leaf(x)); Strikes(n) && Striker(n) == n == Effective(n) && Reading(n) == n && LeavesResult(n)
  {
    assert !Folds(Leaf(x)) && !Stacks(Leaf(x)) && Effective(Leaf(x)) == Leaf(x) && Reading(Leaf(x)) == Leaf(x);
  }

  lemma StrikesLeft(op: Op, l: Tree, x: Operand)
    requires !Signs(op) && !x.Value? && LeavesResult(Reading(l))
    ensures Effective(Reading(Node(op, l, Neg(Leaf(x))))) == Node(op, Neg(Leaf(x)), Neg(Leaf(x)))
  {
    NegatedLeaf(x);
    assert Reading(Node(op, l, Neg(Leaf(x)))) == Node(op, Reading(l), Neg(Leaf(x)));
  }

  lemma ValueOfTwice(q: Arith, scope: Scope, op: Op, x: Operand, s: State)
    ensures var minus := q.neg(Read(s, Resolve(scope, x)));
            Eval(q, scope, Node(op, Neg(Leaf(x)), Neg(Leaf(x))), s) == q.Apply(op, minus, minus)
  {
    assert Eval(q, scope, Leaf(x), s) == Read(s, Resolve(scope, x));
    assert Eval(q, scope, Neg(Leaf(x)), s) == q.neg(Eval(q, scope, Leaf(x), s));
  }

  /** Striking an operand with an equal one does no harm: (-c) * -c is compiled right. */
  lemma {:induction false} StruckByEqual(q: Arith, scope: Scope, op: Op, x: Operand, rest: seq<Token>, s: State)
    requires !Signs(op) && (x.Symbol? || x.Memory?) && Ends(rest) && q.Commutes() && q.SignLaws()
    ensures var e := Node(op, Paren(Neg(Leaf(x))), Neg(Leaf(x)));
            Computes(q, scope, ParseExpr(q, scope, Print(e) + rest), rest, s, Eval(q, scope, e, s))
  {
    hide Run, ParseExpr, Print, Read, HasNeg, Effective, Reading, Computes, Strikes;
    var n := Neg(Leaf(x));
    var e := Node(op, Paren(n), n);
    NegatedLeaf(x);
    assert Reading(Paren(n)) == Paren(n) by { ReadsParen(n); }
    StrikesLeft(op, Paren(n), x);
    assert Bracketed(Leaf(x)) && Bracketed(n) && Bracketed(Paren(n));
    ReadingCompiled(q, scope, e, rest, s);
    assert Eval(q, scope, Paren(n), s) == Eval(q, scope, n, s);
  }

  lemma ReadsParen(e: Tree)
    ensures Reading(Paren(e)) == Paren(Reading(e))
  {
  }
}
