/** Conditions of if and while: comparisons joined by and/or, one operator per bracket level. */
module CondSyntax {

  /** Relation is a comparison operator; Text is anything an operand is made of besides brackets. */
  datatype Token = Open | Close | Relation(r: nat) | Junction(op: Join) | Text(w: nat)

  datatype Join = And | Or

  /** One comparison: the text of both operands and the operator between them. */
  datatype Atom = Atom(left: seq<Token>, rel: nat, right: seq<Token>)

  datatype Elem = Single(a: Atom) | Group(l: Level)

  /** The elements of one bracket level, with the operators between them. */
  datatype Level = Last(e: Elem) | More(e: Elem, op: Join, rest: Level)

  // ---------------------------------------------------------------- meaning

  predicate Truth(l: Level, v: Atom -> bool) {
    match l
    case Last(e) => ElemTruth(e, v)
    case More(e, And, rest) => ElemTruth(e, v) && Truth(rest, v)
    case More(e, Or, rest) => ElemTruth(e, v) || Truth(rest, v)
  }

  predicate ElemTruth(e: Elem, v: Atom -> bool) {
    match e
    case Single(a) => v(a)
    case Group(l) => Truth(l, v)
  }

  /** The comparisons that left-to-right short-circuit evaluation makes, in order. */
  function Evaluated(l: Level, v: Atom -> bool): seq<Atom> {
    match l
    case Last(e) => ElemEvaluated(e, v)
    case More(e, op, rest) => ElemEvaluated(e, v) + if ElemTruth(e, v) == (op == And) then Evaluated(rest, v) else []
  }

  function ElemEvaluated(e: Elem, v: Atom -> bool): seq<Atom> {
    match e
    case Single(a) => [a]
    case Group(l) => Evaluated(l, v)
  }

  /** One operator per bracket level; `mode` is the level's operator if one was already seen. */
  predicate Uniform(l: Level, mode: set<Join>) {
    match l
    case Last(e) => ElemUniform(e)
    case More(e, op, rest) => ElemUniform(e) && mode <= {op} && Uniform(rest, {op})
  }

  predicate ElemUniform(e: Elem) {
    e.Group? ==> Uniform(e.l, {})
  }

  /** How deeply brackets are nested. */
  function Depth(l: Level): nat {
    match l
    case Last(e) => ElemDepth(e)
    case More(e, _, rest) => if ElemDepth(e) > Depth(rest) then ElemDepth(e) else Depth(rest)
  }

  function ElemDepth(e: Elem): nat {
    match e
    case Single(_) => 0
    case Group(l) => 1 + Depth(l)
  }

  // ---------------------------------------------------------------- text

  function Print(l: Level): (toks: seq<Token>)
    ensures toks != []
  {
    match l
    case Last(e) => PrintElem(e)
    case More(e, op, rest) => PrintElem(e) + [Junction(op)] + Print(rest)
  }

  function PrintElem(e: Elem): (toks: seq<Token>)
    ensures toks != []
  {
    match e
    case Single(a) => a.left + [Relation(a.rel)] + a.right
    case Group(l) => [Open] + Print(l) + [Close]
  }

  /** Brackets match, starting from `depth` open ones, and there is nothing but brackets and operand text. */
  predicate Balanced(t: seq<Token>, depth: nat) {
    if t == [] then depth == 0
    else match t[0]
      case Open => Balanced(t[1..], depth + 1)
      case Close => depth > 0 && Balanced(t[1..], depth - 1)
      case Text(_) => Balanced(t[1..], depth)
      case _ => false
  }

  predicate Operand(t: seq<Token>) {
    t != [] && Balanced(t, 0)
  }

  predicate Written(l: Level) {
    match l
    case Last(e) => ElemWritten(e)
    case More(e, _, rest) => ElemWritten(e) && Written(rest)
  }

  predicate ElemWritten(e: Elem) {
    match e
    case Single(a) => Operand(a.left) && Operand(a.right)
    case Group(l) => Written(l)
  }

  // ---------------------------------------------------------------- reading it back

  /** How many tokens an operand takes that starts `depth` brackets deep. */
  function OperandLength(toks: seq<Token>, depth: nat): (n: nat)
    ensures n <= |toks|
  {
    if toks == [] then 0
    else match toks[0]
      case Open => 1 + OperandLength(toks[1..], depth + 1)
      case Close => if depth == 0 then 0 else 1 + OperandLength(toks[1..], depth - 1)
      case Text(_) => 1 + OperandLength(toks[1..], depth)
      case _ => 0
  }

  predicate EndsOperand(rest: seq<Token>) {
    rest == [] || rest[0].Relation? || rest[0].Junction? || rest[0].Close?
  }

  lemma {:induction false} OperandRead(t: seq<Token>, depth: nat, rest: seq<Token>)
    requires Balanced(t, depth) && EndsOperand(rest)
    ensures OperandLength(t + rest, depth) == |t|
  {
    if t == [] {
      assert t + rest == rest;
    } else {
      assert (t + rest)[1..] == t[1..] + rest;
      if t[0].Open? {
        OperandRead(t[1..], depth + 1, rest);
      } else if t[0].Close? {
        OperandRead(t[1..], depth - 1, rest);
      } else {
        OperandRead(t[1..], depth, rest);
      }
    }
  }

  /** Brackets open at the first comparison operator, or at the end of the text. */
  function OpenAtRelation(toks: seq<Token>, count: int): int {
    if toks == [] then count
    else match toks[0]
      case Open => OpenAtRelation(toks[1..], count + 1)
      case Close => OpenAtRelation(toks[1..], count - 1)
      case Relation(_) => count
      case _ => OpenAtRelation(toks[1..], count)
  }

  /** The look-ahead by which an opening bracket is taken for that of a condition, not of an operand. */
  predicate StartsGroup(toks: seq<Token>) {
    toks != [] && toks[0].Open? && OpenAtRelation(toks, 0) > 0
  }

  lemma {:induction false} OperandSkipped(t: seq<Token>, depth: nat, rest: seq<Token>, count: int)
    requires Balanced(t, depth)
    ensures OpenAtRelation(t + rest, count) == OpenAtRelation(rest, count - depth)
  {
    if t == [] {
      assert t + rest == rest;
    } else {
      assert (t + rest)[1..] == t[1..] + rest;
      if t[0].Open? {
        OperandSkipped(t[1..], depth + 1, rest, count + 1);
      } else if t[0].Close? {
        OperandSkipped(t[1..], depth - 1, rest, count - 1);
      } else {
        OperandSkipped(t[1..], depth, rest, count);
      }
    }
  }

  lemma {:induction false} RelationAtDepth(l: Level, rest: seq<Token>, count: int)
    requires Written(l)
    ensures OpenAtRelation(Print(l) + rest, count) >= count
    decreases l, 1
  {
    if l.Last? {
      ElemAtDepth(l.e, rest, count);
    } else {
      assert Print(l) + rest == PrintElem(l.e) + ([Junction(l.op)] + Print(l.rest) + rest);
      ElemAtDepth(l.e, [Junction(l.op)] + Print(l.rest) + rest, count);
    }
  }

  lemma {:induction false} ElemAtDepth(e: Elem, rest: seq<Token>, count: int)
    requires ElemWritten(e)
    ensures OpenAtRelation(PrintElem(e) + rest, count) >= count + if e.Group? then 1 else 0
    ensures e.Single? ==> OpenAtRelation(PrintElem(e) + rest, count) == count
    decreases e, 0
  {
    if e.Single? {
      var more := [Relation(e.a.rel)] + e.a.right + rest;
      assert PrintElem(e) + rest == e.a.left + more;
      OperandSkipped(e.a.left, 0, more, count);
    } else {
      var more := Print(e.l) + ([Close] + rest);
      assert PrintElem(e) + rest == [Open] + more && ([Open] + more)[1..] == more;
      RelationAtDepth(e.l, [Close] + rest, count + 1);
    }
  }

  /** The look-ahead tells a bracketed condition from a comparison whose operand starts with a bracket. */
  lemma GroupRecognised(e: Elem, rest: seq<Token>)
    requires ElemWritten(e)
    ensures StartsGroup(PrintElem(e) + rest) <==> e.Group?
  {
    ElemAtDepth(e, rest, 0);
  }
}
