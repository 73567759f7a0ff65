/** Code emission for one expression: moves, binary operations, hoisted constant loads. */
module ExprCodeGen {
  import opened ExprMachine

  /** Code of the expression so far, where its hoisted front part ends, and the spill cells in use. */
  datatype Gen = Gen(code: seq<Instr>, blockBegin: nat, size: nat)
  {
    function Emit(i: Instr): Gen { this.(code := code + [i]) }

    /** The part behind the hoisted loads. */
    function Rest(): seq<Instr>
      requires blockBegin <= |code|
    {
      code[blockBegin..]
    }
  }

  const EMPTY := Gen([], 0, 0)

  /** An operand together with the code that makes it available. */
  datatype Placed = Placed(g: Gen, o: Operand)

  function Allocate(g: Gen): Placed {
    Placed(g.(size := g.size + 1), Stored(Tmp(g.size)))
  }

  /** Makes RESULT hold the operand. */
  function ToResult(g: Gen, o: Operand): Gen {
    if o.Result? then g else if o.Value? then g.Emit(Load(o.v)) else g.Emit(Fetch(o))
  }

  /** Moves the operand to spill cell n, by way of RESULT. */
  function ToCell(g: Gen, n: nat, o: Operand): Gen {
    ToResult(g, o).Emit(Save(n))
  }

  function Spill(g: Gen, o: Operand): Placed {
    var p := Allocate(g);
    Placed(ToCell(p.g, g.size, o), p.o)
  }

  /** Loads a constant into a fresh spill cell, at the front of the expression. */
  function Preload(g: Gen, v: Word): Placed
    requires g.blockBegin <= |g.code|
    ensures Preload(g, v).g.blockBegin <= |Preload(g, v).g.code|
  {
    Placed(Gen(g.code[..g.blockBegin] + [Load(v), Save(g.size)] + g.Rest(), g.blockBegin + 2, g.size + 1),
           Stored(Tmp(g.size)))
  }

  function PreloadSecond(g: Gen, a: Operand, b: Operand): Placed
    requires g.blockBegin <= |g.code|
    ensures PreloadSecond(g, a, b).g.blockBegin <= |PreloadSecond(g, a, b).g.code|
  {
    if b.Value? && (a.Value? || a.Result?) then Preload(g, b.v) else Placed(g, b)
  }

  function PreloadFirst(g: Gen, a: Operand, b: Operand, op: Op): Placed
    requires g.blockBegin <= |g.code|
    ensures PreloadFirst(g, a, b, op).g.blockBegin <= |PreloadFirst(g, a, b, op).g.code|
  {
    if a.Value? && b.Result? && Commutative(op) then Preload(g, a.v) else Placed(g, a)
  }

  /** RESULT, or a constant on its way there. */
  predicate InResult(o: Operand) {
    o.Result? || o.Value?
  }

  predicate Swaps(a: Operand, b: Operand, op: Op) {
    ((!InResult(a) && InResult(b)) || (a.Stored? && !b.Stored?)) && Commutative(op)
  }

  /** The final instruction of a binary operation, second operand in a cell or in memory. */
  function Finish(g: Gen, a: Operand, b: Operand, op: Op): Gen {
    if a == Memory(true) then ToResult(g, a).Emit(Alu(op, Result, b))
    else if a.Memory? then g.Emit(Alu(op, a, b))
    else ToResult(g, a).Emit(Alu(op, Result, b))
  }

  /** Spills the second operand if it occupies RESULT, then operates. */
  function Arrange(g: Gen, a: Operand, b: Operand, op: Op): Gen {
    if InResult(b) then
      var p := Spill(g, b);
      Finish(p.g, a, p.o, op)
    else Finish(g, a, b, op)
  }

  /** Code for a op b on resolved operands, leaving the value in RESULT. */
  function Operate(g: Gen, a: Operand, b: Operand, op: Op): Gen
    requires g.blockBegin <= |g.code|
  {
    var pb := PreloadSecond(g, a, b);
    var pa := PreloadFirst(pb.g, a, pb.o, op);
    if Swaps(pa.o, pb.o, op) then Arrange(pa.g, pb.o, pa.o, op) else Arrange(pa.g, pa.o, pb.o, op)
  }

  lemma OperateResult(g: Gen, b: Operand, op: Op)
    requires g.blockBegin <= |g.code| && !InResult(b)
    ensures Operate(g, Result, b, op) == g.Emit(Alu(op, Result, b))
  {
  }

  /** Code for the negation of a resolved operand. */
  function NegateOperand(g: Gen, o: Operand): Gen {
    ToResult(g, o).Emit(Negate)
  }

  // ---------------------------------------------------------------- comparisons

  datatype Mode = Equal | Unequal | Less | LessEqual

  /** How two operands are to compare; > and >= are < and <= with the operands swapped. */
  datatype Relation = Relation(mode: Mode, swapped: bool)

  /** The mode of the opposite comparison, the operands being swapped as well. */
  function Opposite(mode: Mode): Mode {
    match mode
    case Equal => Unequal
    case Unequal => Equal
    case Less => LessEqual
    case LessEqual => Less
  }

  /** The comparison RESULT is put to, code before it included: with which cell, and how. */
  datatype Comparison = Comparison(g: Gen, mode: Mode, cell: Operand)

  /** Code that makes RESULT hold `a` and a cell hold `b`. */
  function CompareCode(g: Gen, mode: Mode, a: Operand, b: Operand): Comparison {
    if b.Stored? then Comparison(ToResult(g, a), mode, b)
    else
      var p := Spill(g, b);
      Comparison(ToResult(p.g, a), mode, p.o)
  }

  /** A comparison of resolved operands, or its negation. */
  function Compare(g: Gen, a: Operand, b: Operand, rel: Relation, negate: bool): Comparison {
    var mode := if negate then Opposite(rel.mode) else rel.mode;
    if rel.swapped != negate then CompareCode(g, mode, b, a) else CompareCode(g, mode, a, b)
  }

  /** The code generator's view of one expression. */
  class Emitter {
    const scope: Scope
    var code: seq<Instr>
    var blockBegin: nat
    var size: nat

    function Contents(): Gen
      reads this
    {
      Gen(code, blockBegin, size)
    }

    constructor (scope: Scope)
      ensures this.scope == scope && Contents() == EMPTY
    {
      this.scope := scope;
      code, blockBegin, size := [], 0, 0;
    }

    method WriteCode(i: Instr)
      modifies this
      ensures Contents() == old(Contents()).Emit(i)
    {
      code := code + [i];
    }

    method AllocateTmp() returns (o: Operand)
      modifies this
      ensures Placed(Contents(), o) == Allocate(old(Contents()))
    {
      size := size + 1;
      o := Stored(Tmp(size - 1));
    }

    /** Moves an operand to RESULT or to a spill cell. */
    method InstrMov(a: Operand, b: Operand)
      requires a.Result? || (a.Stored? && a.c.Tmp?)
      modifies this
      ensures var src := Resolve(scope, b);
              Contents() == if a.Result? then ToResult(old(Contents()), src) else ToCell(old(Contents()), a.c.n, src)
      decreases if a.Result? then 0 else 1
    {
      if a.Result? && b.Result? {
        return;
      }
      var src := Resolve(scope, b);
      if a.Stored? && (src.Stored? || src.Memory?) {
        InstrMov(Result, src);
        src := Result;
      }
      if src.Value? {
        WriteCode(Load(src.v));
        if a.Result? {
          return;
        }
        src := Result;
      }
      if a.Result? {
        WriteCode(Fetch(src));
      } else {
        WriteCode(Save(a.c.n));
      }
    }

    /** Moves the code from `start` on to the earlier address `target`, and what lay in between behind it. */
    method MoveCodeBlock(start: nat, target: nat)
      requires target <= start <= |code|
      modifies this
      ensures code == old(code[..target] + code[start..] + code[target..start])
      ensures blockBegin == old(blockBegin) && size == old(size)
    {
      code := code[..target] + code[start..] + code[target..start];
    }

    method PreloadConstValue(v: Word) returns (o: Operand)
      requires blockBegin <= |code|
      modifies this
      ensures Placed(Contents(), o) == Preload(old(Contents()), v)
    {
      var start := |code|;
      ghost var front, rest := code[..blockBegin], code[blockBegin..];
      o := AllocateTmp();
      InstrMov(o, Value(v));
      assert code == front + rest + [Load(v), Save(o.c.n)];
      MoveCodeBlock(start, blockBegin);
      blockBegin := blockBegin + 2;
    }

    /** Constants that would meet a constant or RESULT are loaded at the front of the expression. */
    method PreloadOperands(a0: Operand, b0: Operand, op: Op) returns (a: Operand, b: Operand)
      requires blockBegin <= |code|
      modifies this
      ensures var second := PreloadSecond(old(Contents()), a0, b0);
              Placed(Contents(), a) == PreloadFirst(second.g, a0, second.o, op) && b == second.o
      ensures (a0.Result? ==> a == a0) && (a == a0 || a.Stored?) && (b == b0 || b.Stored?)
    {
      a, b := a0, b0;
      if b.Value? && (a.Value? || a.Result?) {
        b := PreloadConstValue(b.v);
      }
      if a.Value? && b.Result? && op != Div && op != Sub {
        a := PreloadConstValue(a.v);
      }
    }

    method InstrOperation(opa: Operand, opb: Operand, op: Op)
      requires blockBegin <= |code|
      modifies this
      ensures Contents() == Operate(old(Contents()), Resolve(scope, opa), Resolve(scope, opb), op)
      decreases if opa.Result? then 0 else 1
    {
      hide PreloadFirst, PreloadSecond;
      var a, b := Resolve(scope, opa), Resolve(scope, opb);
      a, b := PreloadOperands(a, b, op);
      if Swaps(a, b, op) {
        a, b := b, a;
      }
      if InResult(b) {
        var tmp := AllocateTmp();
        InstrMov(tmp, b);
        b := tmp;
      }
      if !a.Result? && !a.Memory? {
        InstrMov(Result, a);
        a := Result;
      }
      if a == Memory(true) {
        InstrMov(Result, a);
        OperateResult(Contents(), b, op);
        InstrOperation(Result, b, op);
        return;
      }
      WriteCode(Alu(op, a, b));
    }

    method InstrUnaryNeg(o: Operand)
      modifies this
      ensures Contents() == NegateOperand(old(Contents()), Resolve(scope, o))
    {
      var a := Resolve(scope, o);
      if !a.Result? {
        InstrMov(Result, a);
      }
      WriteCode(Negate);
    }

    /** Puts the operands where the compare instruction, whose mode and cell are returned, expects them. */
    method InstrCompare(opa: Operand, opb: Operand, rel: Relation, negate: bool) returns (mode: Mode, cell: Operand)
      modifies this
      ensures Comparison(Contents(), mode, cell) ==
              Compare(old(Contents()), Resolve(scope, opa), Resolve(scope, opb), rel, negate)
    {
      var a, b := Resolve(scope, opa), Resolve(scope, opb);
      if rel.swapped != negate {
        a, b := b, a;
      }
      mode := rel.mode;
      if negate {
        match mode
        case Equal => mode := Unequal;
        case Unequal => mode := Equal;
        case LessEqual => mode := Less;
        case Less => mode := LessEqual;
      }
      cell := b;
      if !b.Stored? {
        cell := AllocateTmp();
        InstrMov(cell, b);
      }
      if !a.Result? {
        InstrMov(Result, a);
      }
    }
  }
}
