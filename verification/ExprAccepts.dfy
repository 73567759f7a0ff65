/** Which token sequences the expression parser accepts: exactly the sums of the grammar. */
module ExprAccepts {
  import opened ExprMachine
  import opened ExprCodeGen
  import opened ExprParser
  import opened ExprTree
  import opened ExprCorrect
  import opened ExprGrammar

  // ---------------------------------------------------------------- operands left over

  function Binaries(ops: seq<Pending>): nat {
    if ops == [] then 0 else Binaries(ops[..|ops| - 1]) + if ops[|ops| - 1].Binary? then 1 else 0
  }

  /** With more operands stacked than operators wait for, parsing fails: an operand has no operator before it. */
  lemma {:induction false} LeftoverOperand(q: Arith, scope: Scope, ops: seq<Pending>, w: Work, toks: seq<Token>)
    requires Sound(w) && |w.operands| > Binaries(ops)
    ensures ParseOperand(q, scope, ops, w, toks).Failed?
    decreases |toks|, |ops|, 0
  {
    hide Operate, Spill;
    if toks != [] {
      match toks[0]
      case Sign(op) =>
        if op == Sub && (ops == [] || ops[|ops| - 1] != UnaryMinus) {
          Pushed(ops, UnaryMinus);
          LeftoverOperand(q, scope, ops + [UnaryMinus], w, toks[1..]);
        }
      case Open =>
        Pushed(ops, Bracket);
        LeftoverOperand(q, scope, ops + [Bracket], w, toks[1..]);
      case Atom(o) =>
        if Spelled(o) {
          LeftoverBehind(q, scope, ops, w, o, toks[1..]);
        }
      case _ =>
    }
  }

  lemma Pushed(ops: seq<Pending>, p: Pending)
    ensures Binaries(ops + [p]) == Binaries(ops) + if p.Binary? then 1 else 0
  {
    assert (ops + [p])[..|ops|] == ops;
  }

  lemma {:induction false} LeftoverBehind(q: Arith, scope: Scope, ops: seq<Pending>, w: Work, x: Operand,
                                          toks: seq<Token>)
    requires Sound(w) && |w.operands| > Binaries(ops)
    ensures Combine(q, scope, ops, w, x, toks).Failed?
    decreases |toks|, |ops|, 1
  {
    hide Operate, Spill;
    if ops != [] && Precedence(toks) <= PendingPrecedence(ops[|ops| - 1]) {
      var top, below := ops[|ops| - 1], ops[..|ops| - 1];
      match top
      case Bracket =>
        if toks != [] && toks[0].Close? {
          LeftoverBehind(q, scope, below, w, x, toks[1..]);
        }
      case UnaryMinus =>
        if Additive(below) {
          var r := Reduce(q, scope, w, Flip(below[|below| - 1].op), x);
          LeftoverBehind(q, scope, below[..|below| - 1], r.0, r.1, toks);
        } else {
          var r := Minus(q, scope, w, x);
          LeftoverBehind(q, scope, below, r.0, r.1, toks);
        }
      case Binary(op) =>
        var r := Reduce(q, scope, w, op, x);
        LeftoverBehind(q, scope, below, r.0, r.1, toks);
    } else {
      LeftoverPushed(q, scope, ops, w, x, toks);
    }
  }

  lemma {:induction false} LeftoverPushed(q: Arith, scope: Scope, ops: seq<Pending>, w: Work, x: Operand,
                                          toks: seq<Token>)
    requires Sound(w) && |w.operands| > Binaries(ops)
    requires ops == [] || Precedence(toks) > PendingPrecedence(ops[|ops| - 1])
    ensures Combine(q, scope, ops, w, x, toks).Failed?
    decreases |toks|, |ops|, 0
  {
    hide Operate, Spill;
    if toks != [] && toks[0].Sign? {
      Pushed(ops, Binary(toks[0].op));
      LeftoverOperand(q, scope, ops + [Binary(toks[0].op)], Push(w, x), toks[1..]);
    } else if toks != [] && toks[0].Open? {
      Pushed(ops, Bracket);
      LeftoverOperand(q, scope, ops + [Bracket], Push(w, x), toks[1..]);
    }
  }

  // ---------------------------------------------------------------- the text read so far

  /** A factor and the operator behind it. */
  datatype Part = Part(e: Tree, op: Op)

  /** What has been read inside one pair of brackets: factors with their operators, and perhaps a minus sign. */
  datatype Level = Level(parts: seq<Part>, neg: bool)

  function PartsText(parts: seq<Part>): seq<Token> {
    if parts == [] then []
    else
      var last := parts[|parts| - 1];
      PartsText(parts[..|parts| - 1]) + Print(last.e) + [Sign(last.op)]
  }

  function LevelText(l: Level): seq<Token> {
    PartsText(l.parts) + if l.neg then [Sign(Sub)] else []
  }

  /** The outermost level is the first. */
  function Text(ls: seq<Level>): seq<Token>
    requires ls != []
  {
    if |ls| == 1 then LevelText(ls[0])
    else Text(ls[..|ls| - 1]) + [Open] + LevelText(ls[|ls| - 1])
  }

  predicate Factors(parts: seq<Part>) {
    forall i | 0 <= i < |parts| :: IsFactor(parts[i].e)
  }

  predicate AllRead(ls: seq<Level>) {
    ls != [] && forall i | 0 <= i < |ls| :: Factors(ls[i].parts)
  }

  function Top(ls: seq<Level>): Level
    requires ls != []
  {
    ls[|ls| - 1]
  }

  function WithTop(ls: seq<Level>, l: Level): (r: seq<Level>)
    requires ls != []
    ensures |r| == |ls|
  {
    ls[..|ls| - 1] + [l]
  }

  /** The pending operators have a bracket for each inner level, and a minus sign just where one was read. */
  predicate Matches(ops: seq<Pending>, ls: seq<Level>)
    requires ls != []
  {
    if ops == [] then |ls| == 1 && !ls[0].neg
    else
      var below := ops[..|ops| - 1];
      match ops[|ops| - 1]
      case Bracket => |ls| > 1 && !Top(ls).neg && Matches(below, ls[..|ls| - 1])
      case UnaryMinus => Top(ls).neg && Matches(below, WithTop(ls, Top(ls).(neg := false)))
      case Binary(_) => !Top(ls).neg && Matches(below, ls)
  }

  /** Which factors were read does not matter for that. */
  lemma {:induction false} MatchesParts(ops: seq<Pending>, ls: seq<Level>, parts: seq<Part>)
    requires ls != [] && Matches(ops, ls)
    ensures Matches(ops, WithTop(ls, Top(ls).(parts := parts)))
    decreases |ops|
  {
    var ls' := WithTop(ls, Top(ls).(parts := parts));
    if ops != [] {
      var below := ops[..|ops| - 1];
      match ops[|ops| - 1]
      case Bracket => assert ls'[..|ls'| - 1] == ls[..|ls| - 1];
      case UnaryMinus =>
        MatchesParts(below, WithTop(ls, Top(ls).(neg := false)), parts);
        assert WithTop(WithTop(ls, Top(ls).(neg := false)), Top(ls).(neg := false, parts := parts))
            == WithTop(ls', Top(ls').(neg := false));
      case Binary(_) => MatchesParts(below, ls, parts);
    }
  }

  lemma MatchesPush(ops: seq<Pending>, ls: seq<Level>)
    requires ls != [] && Matches(ops, ls)
    ensures !Top(ls).neg ==> Matches(ops + [UnaryMinus], WithTop(ls, Top(ls).(neg := true)))
    ensures !Top(ls).neg ==> forall op :: Matches(ops + [Binary(op)], ls)
    ensures Matches(ops + [Bracket], ls + [Level([], false)])
  {
    var up := WithTop(ls, Top(ls).(neg := true));
    assert !Top(ls).neg ==> WithTop(up, Top(up).(neg := false)) == ls;
    assert (ls + [Level([], false)])[..|ls|] == ls;
    forall p: Pending ensures (ops + [p])[..|ops|] == ops && (ops + [p])[|ops|] == p {
    }
  }

  /** A minus sign has been read last exactly if it is the operator on top. */
  lemma MinusOnTop(ops: seq<Pending>, ls: seq<Level>)
    requires ls != [] && Matches(ops, ls)
    ensures Top(ls).neg <==> ops != [] && ops[|ops| - 1] == UnaryMinus
  {
  }

  // ---------------------------------------------------------------- a level as a sum

  function FirstOf(parts: seq<Part>, e: Tree): Tree {
    if parts == [] then e else FirstOf(parts[..|parts| - 1], parts[|parts| - 1].e)
  }

  function ItemsOf(parts: seq<Part>, e: Tree): seq<Item> {
    if parts == [] then []
    else
      var last := parts[|parts| - 1];
      ItemsOf(parts[..|parts| - 1], last.e) + [Item(last.op, e)]
  }

  /** The sum of the factors read in a level and the one behind them. */
  function LevelSum(parts: seq<Part>, e: Tree): Tree {
    SumOf(FirstOf(parts, e), ItemsOf(parts, e))
  }

  lemma {:induction false} LevelItems(parts: seq<Part>, e: Tree)
    requires Factors(parts) && IsFactor(e)
    ensures AllFactors(FirstOf(parts, e), ItemsOf(parts, e))
    ensures Tokens(FirstOf(parts, e), ItemsOf(parts, e)) == PartsText(parts) + Print(e)
    decreases |parts|
  {
    if parts != [] {
      var before, last := parts[..|parts| - 1], parts[|parts| - 1];
      LevelItems(before, last.e);
      assert ItemsOf(parts, e)[..|ItemsOf(parts, e)| - 1] == ItemsOf(before, last.e);
    } else {
      assert [] + Print(e) == Print(e);
    }
  }

  lemma LevelPrints(parts: seq<Part>, e: Tree)
    requires Factors(parts) && IsFactor(e)
    ensures IsSum(LevelSum(parts, e)) && Print(LevelSum(parts, e)) == PartsText(parts) + Print(e)
  {
    hide SumOf, PartsText, FirstOf, ItemsOf, IsSum;
    LevelItems(parts, e);
    SumPrints(FirstOf(parts, e), ItemsOf(parts, e));
  }

  lemma TopText(ls: seq<Level>, l: Level)
    requires ls != []
    ensures Text(WithTop(ls, l)) == (if |ls| == 1 then [] else Text(ls[..|ls| - 1]) + [Open]) + LevelText(l)
  {
    var r := WithTop(ls, l);
    assert r[..|r| - 1] == ls[..|ls| - 1];
    assert |ls| == 1 ==> [] + LevelText(l) == LevelText(l);
  }

  /** A minus sign, and the factor it negates. */
  lemma MinusText(ls: seq<Level>, e: Tree)
    requires ls != [] && Top(ls).neg
    ensures Text(ls) + Print(e) == Text(WithTop(ls, Top(ls).(neg := false))) + Print(Neg(e))
  {
    hide Print;
    var l := Top(ls);
    assert WithTop(ls, l) == ls;
    TopText(ls, l);
    TopText(ls, l.(neg := false));
    assert Print(Neg(e)) == [Sign(Sub)] + Print(e) by { PrintNeg(e); }
    var front := if |ls| == 1 then [] else Text(ls[..|ls| - 1]) + [Open];
    assert front + (PartsText(l.parts) + [Sign(Sub)]) + Print(e)
        == front + (PartsText(l.parts) + []) + ([Sign(Sub)] + Print(e));
  }

  lemma PrintNeg(e: Tree)
    ensures Print(Neg(e)) == [Sign(Sub)] + Print(e)
    ensures Print(Paren(e)) == [Open] + Print(e) + [Close]
  {
  }

  lemma AddMinus(ls: seq<Level>)
    requires ls != [] && !Top(ls).neg
    ensures Text(WithTop(ls, Top(ls).(neg := true))) == Text(ls) + [Sign(Sub)]
  {
    var l := Top(ls);
    assert WithTop(ls, l) == ls;
    TopText(ls, l);
    TopText(ls, l.(neg := true));
    var front := if |ls| == 1 then [] else Text(ls[..|ls| - 1]) + [Open];
    assert front + (PartsText(l.parts) + [Sign(Sub)]) == front + (PartsText(l.parts) + []) + [Sign(Sub)];
  }

  lemma AddPart(ls: seq<Level>, e: Tree, op: Op)
    requires ls != [] && !Top(ls).neg
    ensures Text(WithTop(ls, Top(ls).(parts := Top(ls).parts + [Part(e, op)]))) == Text(ls) + Print(e) + [Sign(op)]
  {
    hide Print, PartsText, Text;
    var l := Top(ls);
    var parts := l.parts + [Part(e, op)];
    var before, front := PartsText(l.parts), if |ls| == 1 then [] else Text(ls[..|ls| - 1]) + [Open];
    assert WithTop(ls, l) == ls;
    TopText(ls, l);
    TopText(ls, l.(parts := parts));
    PartsMore(l.parts, e, op);
    assert before + [] == before && before + Print(e) + [Sign(op)] + [] == before + Print(e) + [Sign(op)];
    assert front + (before + Print(e) + [Sign(op)]) == front + before + Print(e) + [Sign(op)];
  }

  lemma PartsMore(parts: seq<Part>, e: Tree, op: Op)
    ensures PartsText(parts + [Part(e, op)]) == PartsText(parts) + Print(e) + [Sign(op)]
  {
    assert (parts + [Part(e, op)])[..|parts|] == parts;
  }

  lemma AddOpen(ls: seq<Level>)
    requires ls != []
    ensures Text(ls + [Level([], false)]) == Text(ls) + [Open]
  {
    var more := ls + [Level([], false)];
    assert more[..|more| - 1] == ls && LevelText(Level([], false)) == [];
  }

  /** A closing bracket makes a factor of the innermost level. */
  lemma CloseText(ls: seq<Level>, e: Tree)
    requires |ls| > 1 && !Top(ls).neg && AllRead(ls) && IsFactor(e)
    ensures var f := Paren(LevelSum(Top(ls).parts, e));
            IsFactor(f) && Text(ls) + Print(e) + [Close] == Text(ls[..|ls| - 1]) + Print(f)
  {
    hide Print, LevelSum, IsSum;
    var l := Top(ls);
    LevelPrints(l.parts, e);
    PrintNeg(LevelSum(l.parts, e));
    var front := Text(ls[..|ls| - 1]);
    assert front + [Open] + (PartsText(l.parts) + []) + Print(e) + [Close]
        == front + ([Open] + (PartsText(l.parts) + Print(e)) + [Close]);
  }

  // ---------------------------------------------------------------- what is accepted is a sum

  /** The text is that of a sum and what is left over behind it. */
  ghost predicate IsSumThen(text: seq<Token>, rest: seq<Token>) {
    Ends(rest) && exists e :: IsSum(e) && text == Print(e) + rest
  }

  /** At the start of an operand, `ls` having been read. */
  lemma {:induction false} OperandAccepted(q: Arith, scope: Scope, ops: seq<Pending>, w: Work, toks: seq<Token>,
                                           ls: seq<Level>)
    requires Sound(w) && |w.operands| == Binaries(ops) && AllRead(ls) && Matches(ops, ls)
    ensures var r := ParseOperand(q, scope, ops, w, toks); r.Parsed? ==> IsSumThen(Text(ls) + toks, r.rest)
    decreases |toks|, |ops|, 0
  {
    hide Operate, Spill, Text, Print, Combine, Matches, Binaries, IsSumThen, Push, Reduce, Minus;
    if toks != [] {
      assert toks == [toks[0]] + toks[1..];
      MatchesPush(ops, ls);
      MinusOnTop(ops, ls);
      match toks[0]
      case Sign(op) =>
        if op == Sub && !Top(ls).neg {
          Pushed(ops, UnaryMinus);
          AddMinus(ls);
          var ls' := WithTop(ls, Top(ls).(neg := true));
          OperandAccepted(q, scope, ops + [UnaryMinus], w, toks[1..], ls');
          assert Text(ls') + toks[1..] == Text(ls) + toks;
        }
      case Open =>
        Pushed(ops, Bracket);
        AddOpen(ls);
        OperandAccepted(q, scope, ops + [Bracket], w, toks[1..], ls + [Level([], false)]);
        assert Text(ls + [Level([], false)]) + toks[1..] == Text(ls) + toks;
      case Atom(o) =>
        if Spelled(o) {
          BehindAccepted(q, scope, ops, w, o, toks[1..], ls, Leaf(o));
          assert Print(Leaf(o)) == [Atom(o)] by { PrintLeaf(o); }
          assert Text(ls) + Print(Leaf(o)) + toks[1..] == Text(ls) + toks;
        }
      case _ =>
    }
  }

  lemma PrintLeaf(o: Operand)
    ensures Print(Leaf(o)) == [Atom(o)]
  {
  }

  /** Behind an operand: `ls` and factor e have been read. */
  lemma {:induction false} BehindAccepted(q: Arith, scope: Scope, ops: seq<Pending>, w: Work, x: Operand,
                                          toks: seq<Token>, ls: seq<Level>, e: Tree)
    requires Sound(w) && |w.operands| == Binaries(ops) && AllRead(ls) && Matches(ops, ls)
    requires IsFactor(e) && (e.Neg? ==> !Top(ls).neg)
    ensures var r := Combine(q, scope, ops, w, x, toks); r.Parsed? ==> IsSumThen(Text(ls) + Print(e) + toks, r.rest)
    decreases |toks|, |ops|, 2
  {
    hide Operate, Spill, Text, Print, ParseOperand, IsSumThen, Push, IsFactor, AllRead;
    if ops != [] && Precedence(toks) <= PendingPrecedence(ops[|ops| - 1]) {
      var top, below := ops[|ops| - 1], ops[..|ops| - 1];
      match top
      case Bracket =>
        if toks != [] && toks[0].Close? {
          ClosedAccepted(q, scope, ops, w, x, toks, ls, e);
        }
      case UnaryMinus =>
        MinusAccepted(q, scope, ops, w, x, toks, ls, e);
      case Binary(op) =>
        var r := Reduce(q, scope, w, op, x);
        BehindAccepted(q, scope, below, r.0, r.1, toks, ls, e);
    } else {
      PushedAccepted(q, scope, ops, w, x, toks, ls, e);
    }
  }

  lemma {:induction false} ClosedAccepted(q: Arith, scope: Scope, ops: seq<Pending>, w: Work, x: Operand,
                                          toks: seq<Token>, ls: seq<Level>, e: Tree)
    requires Sound(w) && |w.operands| == Binaries(ops) && AllRead(ls) && Matches(ops, ls)
    requires IsFactor(e) && (e.Neg? ==> !Top(ls).neg)
    requires ops != [] && ops[|ops| - 1] == Bracket && toks != [] && toks[0].Close?
    ensures var r := Combine(q, scope, ops, w, x, toks); r.Parsed? ==> IsSumThen(Text(ls) + Print(e) + toks, r.rest)
    decreases |toks|, |ops|, 0
  {
    hide Operate, Spill, Text, Print, ParseOperand, IsSumThen, Push, IsFactor, Reduce, Minus, LevelSum;
    var below, f := ops[..|ops| - 1], Paren(LevelSum(Top(ls).parts, e));
    CloseText(ls, e);
    BehindAccepted(q, scope, below, w, x, toks[1..], ls[..|ls| - 1], f);
    assert toks == [Close] + toks[1..];
    assert Text(ls) + Print(e) + [Close] + toks[1..] == Text(ls) + Print(e) + toks;
  }

  lemma {:induction false} MinusAccepted(q: Arith, scope: Scope, ops: seq<Pending>, w: Work, x: Operand,
                                         toks: seq<Token>, ls: seq<Level>, e: Tree)
    requires Sound(w) && |w.operands| == Binaries(ops) && AllRead(ls) && Matches(ops, ls)
    requires IsFactor(e) && (e.Neg? ==> !Top(ls).neg)
    requires ops != [] && ops[|ops| - 1] == UnaryMinus && Precedence(toks) <= 40
    ensures var r := Combine(q, scope, ops, w, x, toks); r.Parsed? ==> IsSumThen(Text(ls) + Print(e) + toks, r.rest)
    decreases |toks|, |ops|, 0
  {
    hide Operate, Spill, Text, Print, ParseOperand, IsSumThen, Push;
    var below, ls' := ops[..|ops| - 1], WithTop(ls, Top(ls).(neg := false));
    MinusText(ls, e);
    assert AllRead(ls');
    assert IsFactor(Neg(e));
    if Additive(below) {
      var r := Reduce(q, scope, w, Flip(below[|below| - 1].op), x);
      BehindAccepted(q, scope, below[..|below| - 1], r.0, r.1, toks, ls', Neg(e));
    } else {
      var r := Minus(q, scope, w, x);
      BehindAccepted(q, scope, below, r.0, r.1, toks, ls', Neg(e));
    }
  }

  lemma {:induction false} PushedAccepted(q: Arith, scope: Scope, ops: seq<Pending>, w: Work, x: Operand,
                                          toks: seq<Token>, ls: seq<Level>, e: Tree)
    requires Sound(w) && |w.operands| == Binaries(ops) && AllRead(ls) && Matches(ops, ls) && IsFactor(e)
    requires ops == [] || Precedence(toks) > PendingPrecedence(ops[|ops| - 1])
    ensures var r := Combine(q, scope, ops, w, x, toks); r.Parsed? ==> IsSumThen(Text(ls) + Print(e) + toks, r.rest)
    decreases |toks|, |ops|, 1
  {
    hide Operate, Spill, Text, Print, IsFactor, Reduce, Minus, Matches, Binaries, IsSum, IsSumThen, AllRead;
    if toks != [] && toks[0].Sign? {
      SignAccepted(q, scope, ops, w, x, toks, ls, e);
    } else if toks != [] && toks[0].Open? {
      Pushed(ops, Bracket);
      LeftoverOperand(q, scope, ops + [Bracket], Push(w, x), toks[1..]);
    } else {
      assert ops == [];
      EndAccepted(ls, e, toks);
    }
  }

  /** With no operator pending everything read is one sum. */
  lemma {:induction false} EndAccepted(ls: seq<Level>, e: Tree, rest: seq<Token>)
    requires AllRead(ls) && Matches([], ls) && IsFactor(e) && Ends(rest)
    ensures IsSumThen(Text(ls) + Print(e) + rest, rest)
  {
    hide Print, IsFactor, IsSum, Text;
    OnlyLevel(ls);
    LevelPrints(ls[0].parts, e);
  }

  lemma {:induction false} SignAccepted(q: Arith, scope: Scope, ops: seq<Pending>, w: Work, x: Operand,
                                        toks: seq<Token>, ls: seq<Level>, e: Tree)
    requires Sound(w) && |w.operands| == Binaries(ops) && AllRead(ls) && Matches(ops, ls) && IsFactor(e)
    requires ops == [] || Precedence(toks) > PendingPrecedence(ops[|ops| - 1])
    requires toks != [] && toks[0].Sign?
    ensures var r := ParseOperand(q, scope, ops + [Binary(toks[0].op)], Push(w, x), toks[1..]);
            r.Parsed? ==> IsSumThen(Text(ls) + Print(e) + toks, r.rest)
    decreases |toks|, |ops|, 0
  {
    hide Operate, Spill, Text, Print, IsFactor, Reduce, Minus, Matches, Binaries, IsSum, IsSumThen, ParseOperand;
    hide Combine;
    MinusOnTop(ops, ls);
    var op := toks[0].op;
    var parts := Top(ls).parts + [Part(e, op)];
    var ls' := WithTop(ls, Top(ls).(parts := parts));
    Pushed(ops, Binary(op));
    AddPart(ls, e, op);
    MatchesParts(ops, ls, parts);
    MatchesPush(ops, ls');
    OperandAccepted(q, scope, ops + [Binary(op)], Push(w, x), toks[1..], ls');
    assert toks == [Sign(op)] + toks[1..];
    assert Text(ls') + toks[1..] == Text(ls) + Print(e) + toks;
  }

  lemma OnlyLevel(ls: seq<Level>)
    requires ls != [] && Matches([], ls)
    ensures |ls| == 1 && Text(ls) == PartsText(ls[0].parts)
  {
    assert PartsText(ls[0].parts) + [] == PartsText(ls[0].parts);
  }

  /**
   * The parser accepts a token sequence exactly if it begins with a sum of the grammar behind which neither an
   * operator nor an opening bracket follows; it leaves over what follows.
   */
  lemma {:induction false} AcceptedExactly(q: Arith, scope: Scope, toks: seq<Token>, rest: seq<Token>)
    ensures var r := ParseExpr(q, scope, toks); r.Parsed? && r.rest == rest <==> IsSumThen(toks, rest)
  {
    hide Print, Compile, Reading, IsSum, Bracketed, Operate, Spill;
    var ls := [Level([], false)];
    assert Text(ls) == [];
    OperandAccepted(q, scope, [], START, toks, ls);
    assert [] + toks == toks;
    if IsSumThen(toks, rest) {
      var e :| IsSum(e) && toks == Print(e) + rest;
      BracketedExactly(e);
      ParsesTree(q, scope, e, [], START, rest);
      FinishesStart(q, scope, Compile(q, scope, Reading(e), START).0, Compile(q, scope, Reading(e), START).1, rest);
    }
  }

  lemma FinishesStart(q: Arith, scope: Scope, w: Work, x: Operand, rest: seq<Token>)
    requires Sound(w) && w.operands == [] && Ends(rest)
    ensures Combine(q, scope, [], w, x, rest) == Parsed(x, rest, w.g)
  {
  }
}
