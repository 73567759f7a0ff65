/** Which trees with minus signs are compiled right in every arithmetic: the conditions cannot be relaxed. */
module ExprSigns {
  import opened ExprMachine
  import opened ExprParser
  import opened ExprTree
  import opened ExprCorrect

  // ---------------------------------------------------------------- an arithmetic that weighs trees

  function Size(x: Word): nat {
    if x.raw < 0 then -x.raw else x.raw
  }

  function MinusOne(m: nat): Word {
    Qfp(0 - m)
  }

  /**
   * Signs do not matter, * and / weigh twice as much as + and -, and nothing is ever cancelled. The number -m stands
   * for minus one; as long as no constant is that large, it does not occur.
   */
  function Weighing(m: nat): Arith {
    Arith((x: Word, y: Word) => Qfp(Size(x) + Size(y) + 1),
          (x: Word, y: Word) => Qfp(Size(x) + Size(y) + 1),
          (x: Word, y: Word) => if x == MinusOne(m) then y else if y == MinusOne(m) then x
              else Qfp(2 * (Size(x) + Size(y)) + 1),
          (x: Word, y: Word) => Qfp(2 * (Size(x) + Size(y)) + 1),
          (x: Word) => x, MinusOne(m))
  }

  lemma WeighingLawful(m: nat)
    ensures Weighing(m).Commutes() && Weighing(m).SignLaws()
  {
  }

  const ALL_SCALARS: Scope := (n: nat) => Scalar
  const CLEARED := State(Qfp(0), map[], Qfp(0), Qfp(0))

  /** What the tree weighs with all names and memory at zero. */
  function Weight(e: Tree): nat {
    match e
    case Leaf(o) => if o.Value? then Size(o.v) else 0
    case Paren(x) => Weight(x)
    case Neg(x) => Weight(x)
    case Node(op, l, r) => if Signs(op) then Weight(l) + Weight(r) + 1 else 2 * (Weight(l) + Weight(r)) + 1
  }

  /** All constants are smaller than m. */
  predicate Within(e: Tree, m: nat) {
    match e
    case Leaf(o) => o.Value? ==> Size(o.v) < m
    case Paren(x) => Within(x, m)
    case Neg(x) => Within(x, m)
    case Node(_, l, r) => Within(l, m) && Within(r, m)
  }

  function Larger(a: nat, b: nat): nat {
    if a > b then a else b
  }

  function Limit(e: Tree): (m: nat)
    ensures m > 0
  {
    match e
    case Leaf(o) => if o.Value? then Size(o.v) + 1 else 1
    case Paren(x) => Limit(x)
    case Neg(x) => Limit(x)
    case Node(_, l, r) => Larger(Limit(l), Limit(r))
  }

  lemma {:induction false} WithinLimit(e: Tree, m: nat)
    requires Limit(e) <= m
    ensures Within(e, m)
  {
    match e
    case Leaf(_) =>
    case Paren(x) => WithinLimit(x, m);
    case Neg(x) => WithinLimit(x, m);
    case Node(_, l, r) =>
      WithinLimit(l, m);
      WithinLimit(r, m);
  }

  lemma {:induction false} Weighs(e: Tree, m: nat)
    requires LeavesOnly(e) && Within(e, m) && m > 0
    ensures var v := Eval(Weighing(m), ALL_SCALARS, e, CLEARED); Size(v) == Weight(e) && v != MinusOne(m)
  {
    match e
    case Leaf(o) =>
    case Paren(x) => Weighs(x, m);
    case Neg(x) => Weighs(x, m);
    case Node(_, l, r) =>
      Weighs(l, m);
      Weighs(r, m);
  }

  // ---------------------------------------------------------------- minus signs behind + and -

  lemma {:induction false} ReadingWithin(e: Tree, m: nat)
    requires Within(e, m)
    ensures Within(Reading(e), m)
    decreases e, 1
  {
    match e
    case Leaf(_) =>
    case Paren(x) => ReadingWithin(x, m);
    case Neg(x) => ReadingWithin(x, m);
    case Node(op, l, r) =>
      ReadingWithin(l, m);
      if Signs(op) && LeadsWithMinus(r) {
        GraftWithin(op, Reading(l), r, m);
      } else {
        ReadingWithin(r, m);
      }
  }

  lemma {:induction false} GraftWithin(op: Op, left: Tree, r: Tree, m: nat)
    requires Within(left, m) && Within(r, m)
    ensures Within(Graft(op, left, r), m)
    decreases r, 0
  {
    if r.Neg? {
      ReadingWithin(r.e, m);
    } else if r.Node? {
      GraftWithin(op, left, r.l, m);
      ReadingWithin(r.r, m);
    }
  }

  /** The parser's reading weighs no less than what was written, and more exactly if a minus sign is misplaced. */
  lemma {:induction false} ReadingWeighs(e: Tree)
    requires Bracketed(e)
    ensures Weight(Reading(e)) >= Weight(e) && (Weight(Reading(e)) > Weight(e) <==> !MinusPlaced(e))
    decreases e, 1
  {
    match e
    case Leaf(_) =>
    case Paren(x) => ReadingWeighs(x);
    case Neg(x) => ReadingWeighs(x);
    case Node(op, l, r) =>
      ReadingWeighs(l);
      ReadingWeighs(r);
      if Signs(op) && LeadsWithMinus(r) {
        GraftWeighs(op, Reading(l), r);
      }
  }

  lemma {:induction false} GraftWeighs(op: Op, left: Tree, r: Tree)
    requires Bracketed(r) && LeadsWithMinus(r) && Signs(op) && TreePrecedence(r) > 20
    ensures var g, plain := Weight(Graft(op, left, r)), Weight(left) + Weight(r) + 1;
            g >= plain && (g > plain <==> !r.Neg? || !MinusPlaced(r))
    decreases r, 0
  {
    if r.Neg? {
      ReadingWeighs(r.e);
    } else {
      GraftWeighs(op, left, r.l);
      ReadingWeighs(r.r);
    }
  }

  /** In every lawful arithmetic and machine state the parser's reading has the value of what was written. */
  ghost predicate ReadAsWritten(e: Tree) {
    forall q: Arith, scope: Scope, s: State | q.Commutes() && q.SignLaws() ::
      Eval(q, scope, Reading(e), s) == Eval(q, scope, e, s)
  }

  /** Exactly the trees whose minus signs are well placed are read as written. */
  lemma {:induction false} MinusPlacedExactly(e: Tree)
    requires Bracketed(e)
    ensures ReadAsWritten(e) <==> MinusPlaced(e)
  {
    if MinusPlaced(e) {
      forall q: Arith, scope: Scope, s: State | q.Commutes() && q.SignLaws()
        ensures Eval(q, scope, Reading(e), s) == Eval(q, scope, e, s)
      {
        ReadingMeans(q, scope, e, s);
      }
    } else {
      var m := Limit(e);
      BracketedLeaves(e);
      ReadingLeaves(e);
      WithinLimit(e, m);
      ReadingWithin(e, m);
      Weighs(e, m);
      Weighs(Reading(e), m);
      ReadingWeighs(e);
      WeighingLawful(m);
      var q := Weighing(m);
      assert Eval(q, ALL_SCALARS, Reading(e), CLEARED) != Eval(q, ALL_SCALARS, e, CLEARED);
    }
  }

  // ---------------------------------------------------------------- operands struck by negations

  /** An operator's left operand is struck that contains an operator itself. */
  predicate Loses(e: Tree) {
    match e
    case Leaf(_) => false
    case Paren(x) => Loses(x)
    case Neg(x) => Loses(x)
    case Node(_, l, r) => (LeavesResult(l) && Strikes(r) && Stacks(l)) || Loses(l) || Loses(r)
  }

  lemma {:induction false} StrikerWeighs(e: Tree, m: nat)
    requires Strikes(e) && LeavesOnly(e) && Within(e, m)
    ensures Weight(Striker(e)) == 0 && LeavesOnly(Striker(e)) && Within(Striker(e), m)
  {
    match e
    case Paren(x) => StrikerWeighs(x, m);
    case Neg(x) =>
      if Stacks(x) {
        StrikerWeighs(x, m);
      } else {
        if Folds(x) {
          FoldsUnstruck(x);
        }
        ChainWeighs(x);
      }
    case Node(_, l, _) => StrikerWeighs(l, m);
  }

  /** Without an operator only constants weigh anything. */
  lemma {:induction false} ChainWeighs(e: Tree)
    requires !Stacks(e) && LeavesOnly(e) && !Folds(e)
    ensures Weight(e) == 0
  {
    match e
    case Leaf(_) =>
    case Paren(x) => ChainWeighs(x);
    case Neg(x) => ChainWeighs(x);
  }

  lemma {:induction false} StacksWeighs(e: Tree)
    requires Stacks(e)
    ensures Weight(e) > 0
  {
    match e
    case Paren(x) => StacksWeighs(x);
    case Neg(x) => StacksWeighs(x);
    case Node(_, _, _) =>
  }

  lemma {:induction false} LeavesChain(e: Tree)
    requires LeavesResult(e)
    ensures !Folds(e)
  {
    match e
    case Paren(x) => LeavesChain(x);
    case Neg(_) =>
    case Node(_, _, _) =>
  }

  lemma {:induction false} LosesNothing(e: Tree)
    requires !Stacks(e)
    ensures !Loses(e)
  {
    match e
    case Leaf(_) =>
    case Paren(x) => LosesNothing(x);
    case Neg(x) => LosesNothing(x);
  }

  /** What is computed in fact weighs no more, and less exactly if an operand with an operator is struck. */
  lemma {:induction false} EffectiveWeighs(e: Tree, m: nat)
    requires LeavesOnly(e) && Within(e, m)
    ensures LeavesOnly(Effective(e)) && Within(Effective(e), m)
    ensures Weight(Effective(e)) <= Weight(e) && (Weight(Effective(e)) < Weight(e) <==> Loses(e))
  {
    match e
    case Leaf(_) =>
    case Paren(x) => EffectiveWeighs(x, m);
    case Neg(x) => EffectiveWeighs(x, m);
    case Node(op, l, r) =>
      EffectiveWeighs(l, m);
      EffectiveWeighs(r, m);
      if LeavesResult(l) && Strikes(r) {
        StrikerWeighs(r, m);
        LeavesChain(l);
        if Stacks(l) {
          StacksWeighs(l);
        } else {
          ChainWeighs(l);
          LosesNothing(l);
        }
      }
  }

  /**
   * A tree that loses an operator to a negation is compiled wrong: for some lawful arithmetic the code does not compute
   * the value of the parser's reading; nor that of the tree as written, if its minus signs are well placed.
   */
  lemma {:induction false} StruckIsWrong(e: Tree)
    requires Bracketed(e) && Loses(Reading(e))
    ensures exists m: nat :: WrongIn(Weighing(m), e)
  {
    var t, m := Reading(e), Limit(e);
    BracketedLeaves(e);
    ReadingLeaves(e);
    WithinLimit(e, m);
    ReadingWithin(e, m);
    EffectiveWeighs(t, m);
    Weighs(t, m);
    Weighs(Effective(t), m);
    WeighingLawful(m);
    ReadingCompiled(Weighing(m), ALL_SCALARS, e, [], CLEARED);
    assert Print(e) + [] == Print(e);
    if MinusPlaced(e) {
      ReadingMeans(Weighing(m), ALL_SCALARS, e, CLEARED);
    }
    assert WrongIn(Weighing(m), e);
  }

  /**
   * The arithmetic is lawful, and the code of the printed tree misses the value of its reading, and so that of the tree
   * as written, if its minus signs are well placed.
   */
  ghost predicate WrongIn(q: Arith, e: Tree) {
    && q.Commutes() && q.SignLaws()
    && exists v: Word :: v != Eval(q, ALL_SCALARS, Reading(e), CLEARED)
                         && (MinusPlaced(e) ==> v != Eval(q, ALL_SCALARS, e, CLEARED))
                         && Computes(q, ALL_SCALARS, ParseExpr(q, ALL_SCALARS, Print(e)), [], CLEARED, v)
  }
}
