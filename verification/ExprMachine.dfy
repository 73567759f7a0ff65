/** The accumulator machine an expression is compiled for: RESULT, storage cells and two address registers. */
module ExprMachine {

  /** A qfp32 number; what the operations do with it is left open. */
  datatype Word = Qfp(raw: int)

  datatype Op = Add | Sub | Mul | Div

  datatype Arith = Arith(
    add: (Word, Word) -> Word, sub: (Word, Word) -> Word, mul: (Word, Word) -> Word, div: (Word, Word) -> Word,
    neg: Word -> Word, minusOne: Word)
  {
    function Apply(op: Op, x: Word, y: Word): Word {
      match op
      case Add => add(x, y)
      case Sub => sub(x, y)
      case Mul => mul(x, y)
      case Div => div(x, y)
    }

    ghost predicate Commutes() {
      forall x, y :: add(x, y) == add(y, x) && mul(x, y) == mul(y, x)
    }

    /** What the compiler takes for granted about signs. */
    ghost predicate SignLaws() {
      && (forall x, y :: add(x, neg(y)) == sub(x, y))
      && (forall x, y :: sub(x, neg(y)) == add(x, y))
      && (forall x :: neg(x) == mul(x, minusOne))
    }
  }

  predicate Commutative(op: Op) {
    op == Add || op == Mul
  }

  /** A storage cell: an element of a declared name, or a spill cell of the expression. */
  datatype Cell = Var(name: nat, index: nat) | Tmp(n: nat)

  datatype Operand = Value(v: Word) | Symbol(name: nat, index: nat) | Stored(c: Cell) | Memory(a1: bool) | Result

  /** What a name was declared as. */
  datatype Binding = Constant(v: Word) | Scalar | Array

  type Scope = nat -> Binding

  function Resolve(scope: Scope, o: Operand): Operand {
    if !o.Symbol? then o
    else match scope(o.name)
      case Constant(v) => Value(v)
      case Scalar => Stored(Var(o.name, 0))
      case Array => Stored(Var(o.name, o.index))
  }

  datatype State = State(res: Word, cells: map<Cell, Word>, at0: Word, at1: Word)

  /** The value of a resolved operand. */
  function Read(s: State, o: Operand): Word {
    match o
    case Value(v) => v
    case Stored(c) => if c in s.cells then s.cells[c] else Qfp(0)
    case Memory(a1) => if a1 then s.at1 else s.at0
    case Result => s.res
    case Symbol(_, _) => Qfp(0)
  }

  datatype Instr =
    | Load(v: Word)                       // RESULT := v
    | Fetch(src: Operand)                 // RESULT := src
    | Save(n: nat)                        // spill cell n := RESULT
    | Alu(op: Op, a: Operand, b: Operand) // RESULT := a op b
    | Negate                              // RESULT := -RESULT

  function Exec(q: Arith, i: Instr, s: State): State {
    match i
    case Load(v) => s.(res := v)
    case Fetch(src) => s.(res := Read(s, src))
    case Save(n) => s.(cells := s.cells[Tmp(n) := s.res])
    case Alu(op, a, b) => s.(res := q.Apply(op, Read(s, a), Read(s, b)))
    case Negate => s.(res := q.neg(s.res))
  }

  function Run(q: Arith, code: seq<Instr>, s: State): State {
    if code == [] then s else Exec(q, code[|code| - 1], Run(q, code[..|code| - 1], s))
  }

  lemma {:induction false} RunAppend(q: Arith, a: seq<Instr>, b: seq<Instr>, s: State)
    ensures Run(q, a + b, s) == Run(q, b, Run(q, a, s))
  {
    if b == [] {
      assert a + b == a;
    } else {
      assert (a + b)[..|a + b| - 1] == a + b[..|b| - 1];
      RunAppend(q, a, b[..|b| - 1], s);
    }
  }

  lemma {:induction false} RunOne(q: Arith, code: seq<Instr>, i: Instr, s: State)
    ensures Run(q, code + [i], s) == Exec(q, i, Run(q, code, s))
  {
    assert (code + [i])[..|code|] == code;
  }

  // ---------------------------------------------------------------- what code touches

  predicate ReadsResult(i: Instr) {
    match i
    case Load(_) => false
    case Fetch(src) => src.Result?
    case Save(_) => true
    case Alu(_, a, b) => a.Result? || b.Result?
    case Negate => true
  }

  /** The operand is no spill cell from n on. */
  predicate Below(o: Operand, n: nat) {
    o.Stored? && o.c.Tmp? ==> o.c.n < n
  }

  predicate Bounded(i: Instr, n: nat) {
    match i
    case Load(_) => true
    case Fetch(src) => Below(src, n)
    case Save(k) => k < n
    case Alu(_, a, b) => Below(a, n) && Below(b, n)
    case Negate => true
  }

  predicate CodeBounded(code: seq<Instr>, n: nat) {
    forall i | 0 <= i < |code| :: Bounded(code[i], n)
  }

  /** Writing a spill cell the code does not touch commutes with the code. */
  lemma {:induction false} FreshCell(q: Arith, code: seq<Instr>, s: State, n: nat, v: Word)
    requires CodeBounded(code, n)
    ensures Run(q, code, s.(cells := s.cells[Tmp(n) := v]))
         == Run(q, code, s).(cells := Run(q, code, s).cells[Tmp(n) := v])
  {
    if code != [] {
      FreshCell(q, code[..|code| - 1], s, n, v);
      FreshCellOne(q, code[|code| - 1], Run(q, code[..|code| - 1], s), n, v);
    }
  }

  lemma {:induction false} FreshCellOne(q: Arith, i: Instr, s: State, n: nat, v: Word)
    requires Bounded(i, n)
    ensures Exec(q, i, s.(cells := s.cells[Tmp(n) := v])) == Exec(q, i, s).(cells := Exec(q, i, s).cells[Tmp(n) := v])
  {
    if i.Save? {
      assert s.cells[Tmp(n) := v][Tmp(i.n) := s.res] == s.cells[Tmp(i.n) := s.res][Tmp(n) := v];
    }
  }

  /** Code whose first instruction does not read RESULT does not depend on it. */
  lemma {:induction false} ResultOverwritten(q: Arith, code: seq<Instr>, s: State, v: Word)
    requires code != [] && !ReadsResult(code[0])
    ensures Run(q, code, s.(res := v)) == Run(q, code, s)
  {
    if |code| == 1 {
      assert code[..0] == [];
    } else {
      ResultOverwritten(q, code[..|code| - 1], s, v);
    }
  }

  /** Code leaves named cells and memory alone. */
  lemma {:induction false} EnvironmentKept(q: Arith, code: seq<Instr>, s: State, o: Operand)
    requires o.Value? || o.Memory? || (o.Stored? && o.c.Var?)
    ensures Read(Run(q, code, s), o) == Read(s, o)
  {
    if code != [] {
      EnvironmentKept(q, code[..|code| - 1], s, o);
    }
  }
}
