/** The two-stack expression parser: operands and operators are stacked, code is emitted as operators reduce. */
module ExprParser {
  import opened ExprMachine
  import opened ExprCodeGen

  /** Sign(Sub) is a minus that is not part of a constant; Other is any character an expression cannot contain. */
  datatype Token = Atom(o: Operand) | Sign(op: Op) | Open | Close | Other

  /** Operands that source text can name; the others are made by the compiler. */
  predicate Spelled(o: Operand) {
    o.Value? || o.Symbol? || o.Memory?
  }

  datatype Pending = Binary(op: Op) | UnaryMinus | Bracket

  function OpPrecedence(op: Op): nat {
    if op == Add || op == Sub then 20 else 30
  }

  /** Precedence of the character that follows an operand. */
  function Precedence(toks: seq<Token>): nat {
    if toks == [] then 0
    else match toks[0]
      case Sign(op) => OpPrecedence(op)
      case Open => 10
      case Close => 10
      case _ => 0
  }

  function PendingPrecedence(p: Pending): nat {
    match p
    case Binary(op) => OpPrecedence(op)
    case UnaryMinus => 40
    case Bracket => 10
  }

  /** The operand stack and the code emitted for it. */
  datatype Work = Work(operands: seq<Operand>, g: Gen)

  datatype Outcome = Parsed(o: Operand, rest: seq<Token>, g: Gen) | Failed

  const START := Work([], EMPTY)

  predicate Sound(w: Work) {
    w.g.blockBegin <= |w.g.code|
  }

  function Flip(op: Op): Op {
    if op == Add then Sub else Add
  }

  /** Applies an operator to the top operand and `y`: folded when both are constants, compiled otherwise. */
  function Reduce(q: Arith, scope: Scope, w: Work, op: Op, y: Operand): (Work, Operand)
    requires Sound(w) && w.operands != []
    ensures Sound(Reduce(q, scope, w, op, y).0)
  {
    var a, below := w.operands[|w.operands| - 1], w.operands[..|w.operands| - 1];
    if a.Value? && y.Value? then (Work(below, w.g), Value(q.Apply(op, a.v, y.v)))
    else
      var g := Operate(w.g, Resolve(scope, a), Resolve(scope, y), op);
      OperateSound(w.g, Resolve(scope, a), Resolve(scope, y), op);
      (Work(below, g), Result)
  }

  lemma OperateSound(g: Gen, a: Operand, b: Operand, op: Op)
    requires g.blockBegin <= |g.code|
    ensures Operate(g, a, b, op).blockBegin <= |Operate(g, a, b, op).code|
  {
  }

  /** Negates `y`: folded when constant, compiled otherwise. */
  function Minus(q: Arith, scope: Scope, w: Work, y: Operand): (Work, Operand)
    requires Sound(w)
    ensures Sound(Minus(q, scope, w, y).0)
  {
    if y.Value? then (w, Value(q.mul(y.v, q.minusOne)))
    else (Work(w.operands, NegateOperand(w.g, Resolve(scope, y))), Result)
  }

  /** Pushes an operand; a value the stack top still has in RESULT is moved to a spill cell first. */
  function Push(w: Work, x: Operand): Work
    requires Sound(w)
    ensures Sound(Push(w, x)) && |Push(w, x).operands| == |w.operands| + 1 && Push(w, x).operands[|w.operands|] == x
  {
    var top := |w.operands| - 1;
    if w.operands != [] && w.operands[top].Result? then
      var p := Spill(w.g, Result);
      Work(w.operands[..top] + [p.o, x], p.g)
    else Work(w.operands + [x], w.g)
  }

  predicate Additive(ops: seq<Pending>) {
    ops != [] && ops[|ops| - 1].Binary? && OpPrecedence(ops[|ops| - 1].op) == 20
  }

  /** At the start of an operand. */
  function ParseOperand(q: Arith, scope: Scope, ops: seq<Pending>, w: Work, toks: seq<Token>): Outcome
    requires Sound(w)
    decreases |toks|, |ops|, 0
  {
    if toks == [] then Failed
    else match toks[0]
      case Sign(op) =>
        if op == Sub && (ops == [] || ops[|ops| - 1] != UnaryMinus)
        then ParseOperand(q, scope, ops + [UnaryMinus], w, toks[1..])
        else Failed
      case Open => ParseOperand(q, scope, ops + [Bracket], w, toks[1..])
      case Atom(o) => if !Spelled(o) then Failed else Combine(q, scope, ops, w, o, toks[1..])
      case _ => Failed
  }

  /** Behind an operand: reduces while the stacked operator binds at least as tightly as the next one. */
  function Combine(q: Arith, scope: Scope, ops: seq<Pending>, w: Work, x: Operand, toks: seq<Token>): Outcome
    requires Sound(w)
    decreases |toks|, |ops|, 1
  {
    if ops != [] && Precedence(toks) <= PendingPrecedence(ops[|ops| - 1]) then
      var top, below := ops[|ops| - 1], ops[..|ops| - 1];
      match top
      case Bracket => if toks != [] && toks[0].Close? then Combine(q, scope, below, w, x, toks[1..]) else Failed
      case UnaryMinus =>
        if Additive(below) then
          if w.operands == [] then Failed
          else
            var r := Reduce(q, scope, w, Flip(below[|below| - 1].op), x);
            Combine(q, scope, below[..|below| - 1], r.0, r.1, toks)
        else
          var r := Minus(q, scope, w, x);
          Combine(q, scope, below, r.0, r.1, toks)
      case Binary(op) =>
        if w.operands == [] then Failed
        else
          var r := Reduce(q, scope, w, op, x);
          Combine(q, scope, below, r.0, r.1, toks)
    else
      var w' := Push(w, x);
      if toks != [] && toks[0].Sign? then ParseOperand(q, scope, ops + [Binary(toks[0].op)], w', toks[1..])
      else if toks != [] && toks[0].Open? then ParseOperand(q, scope, ops + [Bracket], w', toks[1..])
      else if |w'.operands| == 1 then Parsed(x, toks, w'.g)
      else Failed
  }

  function ParseExpr(q: Arith, scope: Scope, toks: seq<Token>): Outcome {
    ParseOperand(q, scope, [], START, toks)
  }

  /** The parser as it runs: an outer loop over operands, an inner one that reduces. */
  method Parse(q: Arith, scope: Scope, toks: seq<Token>) returns (r: Outcome)
    ensures r == ParseExpr(q, scope, toks)
  {
    var gen := new Emitter(scope);
    var operands: seq<Operand>, ops: seq<Pending>, rest := [], [], toks;
    while rest != []
      invariant fresh(gen) && gen.scope == scope && gen.blockBegin <= |gen.code|
      invariant ParseOperand(q, scope, ops, Work(operands, gen.Contents()), rest) == ParseExpr(q, scope, toks)
      decreases |rest|
    {
      var tok := rest[0];
      rest := rest[1..];
      if tok == Sign(Sub) && (ops == [] || ops[|ops| - 1] != UnaryMinus) {
        ops := ops + [UnaryMinus];
      } else if tok.Open? {
        ops := ops + [Bracket];
      } else if !tok.Atom? || !Spelled(tok.o) {
        return Failed;
      } else {
        var ok, x;
        ok, operands, ops, x, rest := Reductions(q, gen, operands, ops, tok.o, rest);
        if !ok {
          return Failed;
        }
        operands := PushOperand(gen, operands, x);
        if rest != [] && rest[0].Sign? {
          ops := ops + [Binary(rest[0].op)];
        } else if rest != [] && rest[0].Open? {
          ops := ops + [Bracket];
        } else {
          return if |operands| == 1 then Parsed(x, rest, gen.Contents()) else Failed;
        }
        rest := rest[1..];
      }
    }
    return Failed;
  }

  /** The inner loop: reduces until the next operator binds more tightly than the pending one. */
  method Reductions(q: Arith, gen: Emitter, operands0: seq<Operand>, ops0: seq<Pending>, x0: Operand, rest0: seq<Token>)
    returns (ok: bool, operands: seq<Operand>, ops: seq<Pending>, x: Operand, rest: seq<Token>)
    requires gen.blockBegin <= |gen.code|
    modifies gen
    ensures gen.blockBegin <= |gen.code| && |rest| <= |rest0|
    ensures var r := Combine(q, gen.scope, ops0, Work(operands0, old(gen.Contents())), x0, rest0);
            if ok then Combine(q, gen.scope, ops, Work(operands, gen.Contents()), x, rest) == r else r.Failed?
    ensures ok && ops != [] ==> Precedence(rest) > PendingPrecedence(ops[|ops| - 1])
  {
    ok, operands, ops, x, rest := true, operands0, ops0, x0, rest0;
    while ops != [] && Precedence(rest) <= PendingPrecedence(ops[|ops| - 1])
      invariant gen.blockBegin <= |gen.code| && |rest| <= |rest0|
      invariant Combine(q, gen.scope, ops, Work(operands, gen.Contents()), x, rest)
             == Combine(q, gen.scope, ops0, Work(operands0, old(gen.Contents())), x0, rest0)
      decreases |ops|
    {
      var top := ops[|ops| - 1];
      ops := ops[..|ops| - 1];
      if top.Bracket? {
        if rest == [] || !rest[0].Close? {
          return false, operands, ops, x, rest;
        }
        rest := rest[1..];
      } else if top.UnaryMinus? && !Additive(ops) {
        if x.Value? {
          x := Value(q.mul(x.v, q.minusOne));
        } else {
          gen.InstrUnaryNeg(x);
          x := Result;
        }
      } else {
        if operands == [] {
          return false, operands, ops, x, rest;
        }
        var op;
        if top.UnaryMinus? {
          op := Flip(ops[|ops| - 1].op);
          ops := ops[..|ops| - 1];
        } else {
          op := top.op;
        }
        x := ReduceTop(q, gen, operands, op, x);
        operands := operands[..|operands| - 1];
      }
    }
  }

  method PushOperand(gen: Emitter, operands: seq<Operand>, x: Operand) returns (pushed: seq<Operand>)
    requires gen.blockBegin <= |gen.code|
    modifies gen
    ensures gen.blockBegin <= |gen.code|
    ensures Work(pushed, gen.Contents()) == Push(Work(operands, old(gen.Contents())), x)
  {
    pushed := operands;
    if operands != [] && operands[|operands| - 1].Result? {
      var tmp := gen.AllocateTmp();
      gen.InstrMov(tmp, Result);
      pushed := operands[..|operands| - 1] + [tmp];
    }
    pushed := pushed + [x];
  }

  /** Folds or compiles one operator on the top operand and x. */
  method ReduceTop(q: Arith, gen: Emitter, operands: seq<Operand>, op: Op, x: Operand) returns (y: Operand)
    requires gen.blockBegin <= |gen.code| && operands != []
    modifies gen
    ensures gen.blockBegin <= |gen.code|
    ensures (Work(operands[..|operands| - 1], gen.Contents()), y)
         == Reduce(q, gen.scope, Work(operands, old(gen.Contents())), op, x)
  {
    var a := operands[|operands| - 1];
    if a.Value? && x.Value? {
      y := Value(q.Apply(op, a.v, x.v));
    } else {
      OperateSound(gen.Contents(), Resolve(gen.scope, a), Resolve(gen.scope, x), op);
      gen.InstrOperation(a, x, op);
      y := Result;
    }
  }
}
