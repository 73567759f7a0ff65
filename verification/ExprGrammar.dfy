/** The grammar of expressions: sums of terms, terms of factors, each grouped from the left. */
module ExprGrammar {
  import opened ExprMachine
  import opened ExprParser
  import opened ExprTree
  import opened ExprCorrect

  predicate IsSum(e: Tree)
    decreases e, 2
  {
    IsTerm(e) || (e.Node? && e.op in {Add, Sub} && IsSum(e.l) && IsTerm(e.r))
  }

  predicate IsTerm(e: Tree)
    decreases e, 1
  {
    IsFactor(e) || (e.Node? && e.op in {Mul, Div} && IsTerm(e.l) && IsFactor(e.r))
  }

  /** A constant, name or memory access, a sum in brackets, or the negation of one of these. */
  predicate IsFactor(e: Tree)
    decreases e, 0
  {
    match e
    case Leaf(o) => Spelled(o)
    case Paren(x) => IsSum(x)
    case Neg(x) => !x.Neg? && IsFactor(x)
    case Node(_, _, _) => false
  }

  lemma Levels(e: Tree)
    ensures IsFactor(e) ==> IsTerm(e) && !e.Node?
    ensures IsTerm(e) ==> IsSum(e)
    ensures !e.Node? && IsSum(e) ==> IsFactor(e)
    ensures e.Node? ==> (IsTerm(e) <==> e.op in {Mul, Div} && IsTerm(e.l) && IsFactor(e.r))
    ensures e.Node? && e.op in {Add, Sub} ==> (IsSum(e) <==> IsSum(e.l) && IsTerm(e.r))
  {
    assert IsSum(e) <==> IsTerm(e) || (e.Node? && e.op in {Add, Sub} && IsSum(e.l) && IsTerm(e.r));
    assert IsTerm(e) <==> IsFactor(e) || (e.Node? && e.op in {Mul, Div} && IsTerm(e.l) && IsFactor(e.r));
  }

  /** The trees that can be printed without further brackets are the sums of the grammar. */
  lemma {:induction false} BracketedExactly(e: Tree)
    ensures Bracketed(e) <==> IsSum(e)
    ensures Bracketed(e) && (e.Node? ==> e.op in {Mul, Div}) <==> IsTerm(e)
    ensures Bracketed(e) && !e.Node? <==> IsFactor(e)
  {
    Levels(e);
    match e
    case Leaf(_) =>
    case Paren(x) => BracketedExactly(x);
    case Neg(x) => BracketedExactly(x);
    case Node(_, l, r) =>
      BracketedExactly(l);
      BracketedExactly(r);
  }

  // ---------------------------------------------------------------- operands and operators in a row

  /** An operator and the operand behind it. */
  datatype Item = Item(op: Op, e: Tree)

  /** The tokens of x and the items behind it. */
  function Tokens(x: Tree, items: seq<Item>): seq<Token> {
    if items == [] then Print(x)
    else
      var last := items[|items| - 1];
      Tokens(x, items[..|items| - 1]) + [Sign(last.op)] + Print(last.e)
  }

  /** x, with all items applied to it one by one. */
  function FromLeft(x: Tree, items: seq<Item>): Tree {
    if items == [] then x
    else
      var last := items[|items| - 1];
      Node(last.op, FromLeft(x, items[..|items| - 1]), last.e)
  }

  /** How many of the first n items precede the last term: all up to the last + or -. */
  function BeforeLastTerm(items: seq<Item>, n: nat): (k: nat)
    requires n <= |items|
    ensures k <= n && forall i | k <= i < n :: items[i].op.Mul? || items[i].op.Div?
    ensures k > 0 ==> items[k - 1].op in {Add, Sub}
  {
    if n == 0 || items[n - 1].op == Add || items[n - 1].op == Sub then n
    else
      assert items[n - 1].op.Mul? || items[n - 1].op.Div?;
      BeforeLastTerm(items, n - 1)
  }

  /** The sum: the last term is added to or subtracted from the sum of what precedes it. */
  function SumOf(x: Tree, items: seq<Item>): Tree
    decreases |items|
  {
    var k := BeforeLastTerm(items, |items|);
    if k == 0 then FromLeft(x, items)
    else Node(items[k - 1].op, SumOf(x, items[..k - 1]), FromLeft(items[k - 1].e, items[k..]))
  }

  predicate AllFactors(x: Tree, items: seq<Item>) {
    IsFactor(x) && forall i | 0 <= i < |items| :: IsFactor(items[i].e)
  }

  lemma {:induction false} TermFromLeft(x: Tree, items: seq<Item>)
    requires AllFactors(x, items) && forall i | 0 <= i < |items| :: items[i].op.Mul? || items[i].op.Div?
    ensures IsTerm(FromLeft(x, items)) && Print(FromLeft(x, items)) == Tokens(x, items)
  {
    if items != [] {
      TermFromLeft(x, items[..|items| - 1]);
    }
  }

  lemma {:induction false} TokensJoin(x: Tree, items: seq<Item>, k: nat)
    requires 0 < k <= |items|
    ensures Tokens(x, items) ==
            Tokens(x, items[..k - 1]) + [Sign(items[k - 1].op)] + Tokens(items[k - 1].e, items[k..])
    decreases |items|
  {
    var before, last := items[..|items| - 1], items[|items| - 1];
    if k < |items| {
      TokensJoin(x, before, k);
      assert before[..k - 1] == items[..k - 1] && items[k..][..|items| - k - 1] == before[k..];
      var front := Tokens(x, items[..k - 1]) + [Sign(items[k - 1].op)];
      var mid := Tokens(items[k - 1].e, before[k..]);
      assert (front + mid) + [Sign(last.op)] + Print(last.e) == front + (mid + [Sign(last.op)] + Print(last.e));
    } else {
      assert before == items[..k - 1];
    }
  }

  /** The sum is a tree of the grammar, and printing it gives back the tokens. */
  lemma {:induction false} SumPrints(x: Tree, items: seq<Item>)
    requires AllFactors(x, items)
    ensures IsSum(SumOf(x, items)) && Print(SumOf(x, items)) == Tokens(x, items)
    decreases |items|
  {
    var k := BeforeLastTerm(items, |items|);
    if k == 0 {
      TermFromLeft(x, items);
    } else {
      SumPrints(x, items[..k - 1]);
      TermFromLeft(items[k - 1].e, items[k..]);
      TokensJoin(x, items, k);
    }
  }

  predicate NoNegations(x: Tree, items: seq<Item>) {
    !HasNeg(x) && forall i | 0 <= i < |items| :: !HasNeg(items[i].e)
  }

  lemma {:induction false} NoNegationFromLeft(x: Tree, items: seq<Item>)
    requires NoNegations(x, items)
    ensures !HasNeg(FromLeft(x, items))
  {
    if items != [] {
      NoNegationFromLeft(x, items[..|items| - 1]);
    }
  }

  lemma {:induction false} NoNegationSum(x: Tree, items: seq<Item>)
    requires NoNegations(x, items)
    ensures !HasNeg(SumOf(x, items))
    decreases |items|
  {
    var k := BeforeLastTerm(items, |items|);
    if k == 0 {
      NoNegationFromLeft(x, items);
    } else {
      NoNegationSum(x, items[..k - 1]);
      NoNegationFromLeft(items[k - 1].e, items[k..]);
    }
  }

  /**
   * Any row of operands and operators is compiled as a sum of terms: * and / bind more tightly than + and -, and each
   * pair groups from the left.
   */
  lemma TokensCompiled(q: Arith, scope: Scope, x: Tree, items: seq<Item>, rest: seq<Token>, s: State)
    requires AllFactors(x, items) && NoNegations(x, items) && Ends(rest) && q.Commutes()
    ensures Computes(q, scope, ParseExpr(q, scope, Tokens(x, items) + rest), rest, s,
                     Eval(q, scope, SumOf(x, items), s))
  {
    hide ParseExpr, Eval, SumOf, Tokens, AllFactors, Computes, Effective, Reading;
    var e := SumOf(x, items);
    SumPrints(x, items);
    BracketedExactly(e);
    NoNegationSum(x, items);
    PlainReading(e);
    PlainUnstruck(e);
    assert Effective(e) == e;
    ReadingCompiled(q, scope, e, rest, s);
  }

  /** With minus signs before operands as well, the value is that of the reading of the sum, operands struck. */
  lemma SignedTokensCompiled(q: Arith, scope: Scope, x: Tree, items: seq<Item>, rest: seq<Token>, s: State)
    requires AllFactors(x, items) && Ends(rest) && q.Commutes() && q.SignLaws()
    ensures Computes(q, scope, ParseExpr(q, scope, Tokens(x, items) + rest), rest, s,
                     Eval(q, scope, Effective(Reading(SumOf(x, items))), s))
  {
    hide ParseExpr, Eval, SumOf, Tokens, AllFactors, Computes, Effective, Reading;
    SumPrints(x, items);
    BracketedExactly(SumOf(x, items));
    ReadingCompiled(q, scope, SumOf(x, items), rest, s);
  }

  /** Printing a tree that is a sum already adds no bracket. */
  lemma {:induction false} NoNeedlessBrackets(e: Tree)
    requires IsSum(e)
    ensures AddBrackets(e) == e
  {
    BracketedExactly(e);
    match e
    case Leaf(_) =>
    case Paren(x) => NoNeedlessBrackets(x);
    case Neg(x) =>
      BracketedExactly(x);
      NoNeedlessBrackets(x);
    case Node(_, l, r) =>
      BracketedExactly(l);
      BracketedExactly(r);
      NoNeedlessBrackets(l);
      NoNeedlessBrackets(r);
  }
}
