/** The two forms in which a counted loop is compiled, run on the processor's loop register and compare rule. */
module LoopForms {
  import CodeMotion

  /** What instructions compute on: RESULT, the storage cells, and a record of what has been done. */
  datatype Data = Data(result: int, cells: map<nat, int>, trace: seq<nat>)

  /**
   * `Other` stands for any instruction that only computes. `Test` and `CompareLess` let the next instruction run only
   * if the test passes, or RESULT is below the cell. `SetLoop` starts the loop register with RESULT.
   */
  datatype Instr =
    | Other(effect: Data -> Data)
    | Test(passes: Data -> bool)
    | SetResult(value: int)
    | Fetch(cell: nat)
    | Store(cell: nat)
    | AddCell(cell: nat)
    | CompareLess(cell: nat)
    | SetLoop
    | Jump(distance: int)

  datatype State = State(pc: int, data: Data, register: nat)

  const COUNTS := 0x2000_0000
  const MARK := 0x8000_0000
  const WORDS := 0x1_0000_0000

  function Cell(d: Data, c: nat): int {
    if c in d.cells then d.cells[c] else 0
  }

  function Put(d: Data, c: nat): Data {
    d.(cells := d.cells[c := d.result])
  }

  /** The loop register says that this is the last round of a hardware loop: no jump is taken. */
  predicate LastRound(register: nat) {
    register % COUNTS / 2 == 0 && (register / MARK % 2 == 1 || register % 2 == 1)
  }

  /** The loop register after a backward jump, taken or not. */
  function CountDown(register: nat): nat {
    if register == 0 then 0 else (register % COUNTS - 1) % WORDS
  }

  function Absolute(x: int): nat {
    if x < 0 then -x else x
  }

  function Step(code: seq<Instr>, s: State): State {
    if !(0 <= s.pc < |code|) then s
    else match code[s.pc]
      case Other(effect) => s.(pc := s.pc + 1, data := effect(s.data))
      case Test(passes) => s.(pc := if passes(s.data) then s.pc + 1 else s.pc + 2)
      case SetResult(v) => s.(pc := s.pc + 1, data := s.data.(result := v))
      case Fetch(c) => s.(pc := s.pc + 1, data := s.data.(result := Cell(s.data, c)))
      case Store(c) => s.(pc := s.pc + 1, data := Put(s.data, c))
      case AddCell(c) => s.(pc := s.pc + 1, data := s.data.(result := s.data.result + Cell(s.data, c)))
      case CompareLess(c) => s.(pc := if s.data.result < Cell(s.data, c) then s.pc + 1 else s.pc + 2)
      case SetLoop => s.(pc := s.pc + 1, register := Absolute(s.data.result) % MARK + MARK)
      case Jump(d) => s.(pc := if LastRound(s.register) then s.pc + 1 else s.pc + d,
                         register := if d < 0 then CountDown(s.register) else s.register)
  }

  function Steps(code: seq<Instr>, s: State, t: nat): State
    decreases t
  {
    if t == 0 then s else Steps(code, Step(code, s), t - 1)
  }

  ghost predicate Reaches(code: seq<Instr>, s: State, r: State) {
    exists t: nat :: Steps(code, s, t) == r
  }

  lemma {:induction false} StepsJoin(code: seq<Instr>, s: State, t: nat, u: nat)
    ensures Steps(code, s, t + u) == Steps(code, Steps(code, s, t), u)
    decreases t
  {
    if t > 0 {
      StepsJoin(code, Step(code, s), t - 1, u);
    }
  }

  lemma ReachesJoin(code: seq<Instr>, s: State, r: State, q: State)
    requires Reaches(code, s, r) && Reaches(code, r, q)
    ensures Reaches(code, s, q)
  {
    hide Steps;
    var t: nat :| Steps(code, s, t) == r;
    var u: nat :| Steps(code, r, u) == q;
    StepsJoin(code, s, t, u);
  }

  lemma ReachesSelf(code: seq<Instr>, s: State)
    ensures Reaches(code, s, s)
  {
    assert Steps(code, s, 0) == s;
  }

  lemma ReachesStep(code: seq<Instr>, s: State, r: State)
    requires Reaches(code, Step(code, s), r)
    ensures Reaches(code, s, r)
  {
    hide Step;
    var t: nat :| Steps(code, Step(code, s), t) == r;
    assert Steps(code, s, t + 1) == r;
  }

  // ---------------------------------------------------------------- loops

  /**
   * The body of a loop: the code from b up to e, what one pass through it does to the machine, and the values of the
   * register and of cells for which that is claimed.
   */
  datatype Body = Body(b: nat, e: nat, admits: nat -> bool, needs: set<(nat, int)>, pass: State -> State)

  predicate Holds(needs: set<(nat, int)>, d: Data) {
    forall p | p in needs :: Cell(d, p.0) == p.1
  }

  predicate Ready(body: Body, s: State) {
    body.admits(s.register) && Holds(body.needs, s.data)
  }

  /** Whatever the body does inside, it runs from its first address to its end. */
  ghost predicate Runs(code: seq<Instr>, body: Body) {
    body.b < body.e && forall s: State | s.pc == body.b && Ready(body, s) :: RunsFrom(code, body, s)
  }

  ghost predicate RunsFrom(code: seq<Instr>, body: Body, s: State) {
    Reaches(code, s, body.pass(s)) && body.pass(s).pc == body.e
  }

  ghost predicate KeepsCell(body: Body, c: nat) {
    forall s: State | s.pc == body.b && Ready(body, s) :: Cell(body.pass(s).data, c) == Cell(s.data, c)
  }

  ghost predicate KeepsRegister(body: Body) {
    forall s: State | s.pc == body.b && Ready(body, s) :: body.pass(s).register == s.register
  }

  /** A pass ends with the cells as needed, and the register will be again. */
  ghost predicate Continues(body: Body) {
    forall s: State | s.pc == body.b && Ready(body, s) ::
      body.admits(CountDown(body.pass(s).register)) && Holds(body.needs, body.pass(s).data)
  }

  /** One pass appends w to the record. */
  ghost predicate Emits(body: Body, w: seq<nat>) {
    forall s: State | s.pc == body.b && Ready(body, s) :: body.pass(s).data.trace == s.data.trace + w
  }

  /** The loop count: a constant, a named constant, the result of an expression, or a variable. */
  datatype Count = Value(n: nat) | Named(n: nat) | Computed | InCell(cell: nat)

  function CountOf(count: Count, d: Data): int {
    match count
    case Value(n) => n
    case Named(n) => n
    case Computed => d.result
    case InCell(c) => Cell(d, c)
  }

  /** The counter form has a cell for the counter and, unless a variable holds the count, one for the count. */
  datatype Loop = Hardware(body: Body, count: Count) | Counter(body: Body, count: Count, counter: nat, spare: nat)

  function Limit(l: Loop): nat
    requires l.Counter?
  {
    if l.count.InCell? then l.count.cell else l.spare
  }

  /** What is put before the body. A named constant passes for a variable, so the counter form does not store it. */
  function Setup(l: Loop): seq<Instr> {
    match l
    case Hardware(_, count) =>
      (match count
       case Value(n) => [SetResult(n), SetLoop]
       case Named(n) => [SetResult(n), SetLoop]
       case Computed => [SetLoop]
       case InCell(c) => [Fetch(c), SetLoop])
    case Counter(_, count, counter, spare) =>
      (match count
       case Value(n) => [SetResult(n), Store(spare)]
       case Named(n) => []
       case Computed => [Store(spare)]
       case InCell(c) => []) + [SetResult(0), Store(counter)]
  }

  function TailLength(l: Loop): nat {
    if l.Hardware? then 1 else if l.count.Named? then 7 else 5
  }

  function End(l: Loop): nat {
    l.body.e + TailLength(l)
  }

  function Distance(l: Loop): int {
    l.body.b - (End(l) - 1)
  }

  /** What is put behind the body. To compare with a named constant, it is first stored by way of RESULT. */
  function Tail(l: Loop): (r: seq<Instr>)
    ensures |r| == TailLength(l)
  {
    match l
    case Hardware(_, _) => [Jump(Distance(l))]
    case Counter(_, count, counter, spare) =>
      [SetResult(1), AddCell(counter), Store(counter)] +
      (match count
       case Named(n) => [SetResult(n), Store(spare), CompareLess(spare), Jump(Distance(l))]
       case Value(_) => [CompareLess(spare), Jump(Distance(l))]
       case Computed => [CompareLess(spare), Jump(Distance(l))]
       case InCell(c) => [CompareLess(c), Jump(Distance(l))])
  }

  /** The code holds the loop from address `at` on, its backward jump can be encoded, and its cells are distinct. */
  ghost predicate FormAt(code: seq<Instr>, at: nat, l: Loop) {
    && at + |Setup(l)| == l.body.b < l.body.e && End(l) <= |code|
    && code[at..l.body.b] == Setup(l) && code[l.body.e..End(l)] == Tail(l)
    && CodeMotion.Encodable(Distance(l))
    && (l.Counter? ==> l.counter != Limit(l))
  }

  /** The cell is neither the loop's counter nor the one in which it stores its count. */
  predicate Leaves(l: Loop, c: nat) {
    l.Counter? ==> c != l.counter && (c != l.spare || l.count.InCell?)
  }

  /** The loop itself does not write the cells its body needs. */
  ghost predicate Apart(l: Loop) {
    forall p | p in l.body.needs :: Leaves(l, p.0)
  }

  /** After every round the body can be passed again. */
  ghost predicate Lasts(l: Loop) {
    Continues(l.body) && Apart(l)
  }

  function Times(n: nat): nat {
    if n == 0 then 1 else n
  }

  // ---------------------------------------------------------------- rounds

  /** From the end of the body to its start or to the end of the loop. */
  function Back(l: Loop, m: State): State {
    if LastRound(m.register) then m.(pc := End(l), register := CountDown(m.register))
    else m.(pc := l.body.b, register := CountDown(m.register))
  }

  function Counted(l: Loop, d: Data): Data
    requires l.Counter?
  {
    var d1 := Put(d.(result := 1 + Cell(d, l.counter)), l.counter);
    if l.count.Named? then Put(d1.(result := l.count.n), l.spare) else d1
  }

  function AfterBody(l: Loop, m: State): State {
    if l.Hardware? then Back(l, m)
    else
      var d := Counted(l, m.data);
      if d.result < Cell(d, Limit(l)) then Back(l, m.(data := d)) else m.(pc := End(l), data := d)
  }

  /** One round: the body, then what is behind it. */
  function Round(l: Loop, s: State): State {
    AfterBody(l, l.body.pass(s))
  }

  function Rounds(l: Loop, s: State, k: nat): State {
    if k == 0 then s else Round(l, Rounds(l, s, k - 1))
  }

  /** The state in which the body is first entered. */
  function Entered(l: Loop, s: State): State {
    var n := CountOf(l.count, s.data);
    if l.Hardware? then State(l.body.b, s.data.(result := n), Absolute(n) % MARK + MARK)
    else
      var d := if l.count.Value? || l.count.Computed? then Put(s.data.(result := n), l.spare) else s.data;
      State(l.body.b, Put(d.(result := 0), l.counter), s.register)
  }

  /** From its entry on, the loop is in its body for k rounds and ends then. */
  ghost predicate EndsAfter(l: Loop, s: State, k: nat) {
    (forall j | 0 <= j < k :: Rounds(l, s, j).pc == l.body.b) && Rounds(l, s, k).pc == End(l)
  }

  /** From s the loop executes its body k times, no more and no less, and ends. */
  ghost predicate Executes(code: seq<Instr>, l: Loop, s: State, k: nat) {
    && EndsAfter(l, Entered(l, s), k)
    && Reaches(code, s, Rounds(l, Entered(l, s), k))
  }

  lemma ExecutesOnce(code: seq<Instr>, l: Loop, s: State, k: nat, k': nat)
    requires Executes(code, l, s, k) && Executes(code, l, s, k') && l.body.b < l.body.e
    ensures k == k'
  {
    hide Rounds, Reaches;
    var pcs := (j: nat) => Rounds(l, Entered(l, s), j).pc;
    assert k < k' ==> pcs(k) == l.body.b;
    assert k' < k ==> pcs(k') == l.body.b;
  }

  // ---------------------------------------------------------------- the code does what the rounds say

  lemma CodeAt(code: seq<Instr>, at: nat, l: Loop, k: nat)
    requires FormAt(code, at, l)
    ensures k < |Setup(l)| ==> code[at + k] == Setup(l)[k]
    ensures k < TailLength(l) ==> code[l.body.e + k] == Tail(l)[k]
  {
    hide Setup, Tail;
    if k < |Setup(l)| {
      assert code[at..l.body.b][k] == Setup(l)[k];
    }
    if k < TailLength(l) {
      assert code[l.body.e..End(l)][k] == Tail(l)[k];
    }
  }

  lemma {:induction false} SetupRuns(code: seq<Instr>, at: nat, l: Loop, s: State)
    requires FormAt(code, at, l) && s.pc == at
    ensures Reaches(code, s, Entered(l, s))
  {
    hide Setup, Tail, Reaches;
    forall k | 0 <= k < |Setup(l)| ensures code[at + k] == Setup(l)[k] {
      CodeAt(code, at, l, k);
    }
    if l.Hardware? {
      HardwareSetup(code, at, l, s);
    } else {
      CounterSetup(code, at, l, s);
    }
  }

  lemma {:induction false} HardwareSetup(code: seq<Instr>, at: nat, l: Loop, s: State)
    requires l.Hardware? && s.pc == at && at + |Setup(l)| == l.body.b <= |code|
    requires forall k | 0 <= k < |Setup(l)| :: code[at + k] == Setup(l)[k]
    ensures Reaches(code, s, Entered(l, s))
  {
    hide Reaches, Steps;
    assert code[at] == Setup(l)[0];
    if l.count.Computed? {
      Reach1(code, s);
    } else {
      assert code[at + 1] == Setup(l)[1];
      Reach2(code, s);
    }
  }

  lemma {:induction false} CounterSetup(code: seq<Instr>, at: nat, l: Loop, s: State)
    requires l.Counter? && s.pc == at && at + |Setup(l)| == l.body.b <= |code|
    requires forall k | 0 <= k < |Setup(l)| :: code[at + k] == Setup(l)[k]
    ensures Reaches(code, s, Entered(l, s))
  {
    hide Reaches, Steps;
    assert code[at] == Setup(l)[0] && code[at + 1] == Setup(l)[1];
    match l.count
    case Value(n) =>
      assert code[at + 2] == Setup(l)[2] && code[at + 3] == Setup(l)[3];
      Reach4(code, s);
    case Named(n) =>
      Reach2(code, s);
    case Computed =>
      assert code[at + 2] == Setup(l)[2];
      Reach3(code, s);
    case InCell(c) =>
      Reach2(code, s);
  }

  lemma FormBounds(code: seq<Instr>, at: nat, l: Loop)
    requires FormAt(code, at, l)
    ensures at + |Setup(l)| == l.body.b < l.body.e && End(l) <= |code| && Distance(l) < 0
    ensures l.Counter? ==> l.counter != Limit(l)
  {
  }

  lemma Reach1(code: seq<Instr>, s: State)
    ensures Reaches(code, s, Step(code, s))
  {
    hide Step;
    ReachesSelf(code, Step(code, s));
    ReachesStep(code, s, Step(code, s));
  }

  lemma Reach2(code: seq<Instr>, s: State)
    ensures Reaches(code, s, Step(code, Step(code, s)))
  {
    hide Step;
    Reach1(code, Step(code, s));
    ReachesStep(code, s, Step(code, Step(code, s)));
  }

  lemma Reach3(code: seq<Instr>, s: State)
    ensures Reaches(code, s, Step(code, Step(code, Step(code, s))))
  {
    hide Step;
    Reach2(code, Step(code, s));
    ReachesStep(code, s, Step(code, Step(code, Step(code, s))));
  }

  lemma Reach4(code: seq<Instr>, s: State)
    ensures Reaches(code, s, Step(code, Step(code, Step(code, Step(code, s)))))
  {
    hide Step;
    Reach3(code, Step(code, s));
    ReachesStep(code, s, Step(code, Step(code, Step(code, Step(code, s)))));
  }

  lemma {:induction false} CompareRuns(code: seq<Instr>, l: Loop, m: State)
    requires l.Counter? && l.body.b < l.body.e && End(l) <= |code| && m.pc == End(l) - 2
    requires code[End(l) - 2] == CompareLess(Limit(l)) && code[End(l) - 1] == Jump(Distance(l))
    ensures Reaches(code, m, if m.data.result < Cell(m.data, Limit(l)) then Back(l, m) else m.(pc := End(l)))
  {
    hide Reaches, Steps;
    if m.data.result < Cell(m.data, Limit(l)) {
      Reach2(code, m);
    } else {
      Reach1(code, m);
    }
  }

  lemma {:induction false} TailRuns(code: seq<Instr>, at: nat, l: Loop, m: State)
    requires FormAt(code, at, l) && m.pc == l.body.e
    ensures Reaches(code, m, AfterBody(l, m))
  {
    hide Setup, Reaches, Steps;
    forall k | 0 <= k < TailLength(l) ensures code[l.body.e + k] == Tail(l)[k] {
      CodeAt(code, at, l, k);
    }
    if l.Hardware? {
      assert code[l.body.e] == Tail(l)[0];
      Reach1(code, m);
    } else {
      CounterTail(code, l, m);
    }
  }

  lemma {:induction false} CounterTail(code: seq<Instr>, l: Loop, m: State)
    requires l.Counter? && m.pc == l.body.e && l.body.b < l.body.e && End(l) <= |code| && Distance(l) < 0
    requires forall k | 0 <= k < TailLength(l) :: code[l.body.e + k] == Tail(l)[k]
    ensures Reaches(code, m, AfterBody(l, m))
  {
    hide Reaches, Steps, LastRound, CountDown;
    assert code[l.body.e] == Tail(l)[0] && code[l.body.e + 1] == Tail(l)[1] && code[l.body.e + 2] == Tail(l)[2];
    Reach3(code, m);
    var m3 := Step(code, Step(code, Step(code, m)));
    var d3 := Put(m.data.(result := 1 + Cell(m.data, l.counter)), l.counter);
    assert m3 == State(l.body.e + 3, d3, m.register);
    assert code[l.body.e + 3] == Tail(l)[3] && code[l.body.e + 4] == Tail(l)[4];
    if l.count.Named? {
      assert code[l.body.e + 5] == Tail(l)[5] && code[l.body.e + 6] == Tail(l)[6];
      Reach2(code, m3);
      var m5 := Step(code, Step(code, m3));
      assert m5 == State(l.body.e + 5, Counted(l, m.data), m.register);
      ReachesJoin(code, m, m3, m5);
      CompareRuns(code, l, m5);
      ReachesJoin(code, m, m5, AfterBody(l, m));
    } else {
      CompareRuns(code, l, m3);
      ReachesJoin(code, m, m3, AfterBody(l, m));
    }
  }

  /** The loop is in the code and its body runs. */
  ghost predicate LoopAt(code: seq<Instr>, at: nat, l: Loop) {
    FormAt(code, at, l) && Runs(code, l.body) && Lasts(l)
  }

  lemma EnteredKeeps(l: Loop, s: State, c: nat)
    requires Leaves(l, c)
    ensures Cell(Entered(l, s).data, c) == Cell(s.data, c)
  {
  }

  lemma RoundKeeps(l: Loop, s: State, c: nat)
    requires Leaves(l, c)
    ensures Cell(Round(l, s).data, c) == Cell(l.body.pass(s).data, c)
  {
    hide LastRound, CountDown;
  }

  lemma RoundPlace(l: Loop, s: State)
    ensures Round(l, s).pc == End(l) ||
            (Round(l, s).pc == l.body.b && Round(l, s).register == CountDown(l.body.pass(s).register))
  {
    hide LastRound, CountDown;
  }

  lemma EnteredReady(l: Loop, s: State)
    requires Apart(l) && Holds(l.body.needs, s.data)
    ensures Holds(l.body.needs, Entered(l, s).data)
    ensures l.Counter? && Ready(l.body, s) ==> Ready(l.body, Entered(l, s))
  {
    hide Entered, Leaves;
    EnteredAt(l, s);
    forall p | p in l.body.needs ensures Cell(Entered(l, s).data, p.0) == p.1 {
      EnteredKeeps(l, s, p.0);
    }
  }

  /** The cells are as needed after each round, and if it is not the last, so is the register. */
  lemma RoundReady(l: Loop, s: State)
    requires Lasts(l) && s.pc == l.body.b && Ready(l.body, s)
    ensures Holds(l.body.needs, Round(l, s).data)
    ensures Round(l, s).pc == End(l) || (Round(l, s).pc == l.body.b && Ready(l.body, Round(l, s)))
  {
    hide Round, CountDown, Leaves;
    RoundPlace(l, s);
    forall p | p in l.body.needs ensures Cell(Round(l, s).data, p.0) == p.1 {
      RoundKeeps(l, s, p.0);
    }
  }

  lemma RoundRuns(code: seq<Instr>, at: nat, l: Loop, s: State)
    requires LoopAt(code, at, l) && s.pc == l.body.b && Ready(l.body, s)
    ensures Reaches(code, s, Round(l, s))
    ensures Round(l, s).pc == End(l) || (Round(l, s).pc == l.body.b && Ready(l.body, Round(l, s)))
  {
    hide FormAt, Reaches, LastRound, CountDown, Counted, Lasts;
    assert RunsFrom(code, l.body, s);
    RoundReady(l, s);
    TailRuns(code, at, l, l.body.pass(s));
    ReachesJoin(code, s, l.body.pass(s), Round(l, s));
  }

  lemma {:induction false} RoundsRun(code: seq<Instr>, at: nat, l: Loop, s: State, k: nat)
    requires LoopAt(code, at, l) && s.pc == l.body.b && Ready(l.body, s)
    requires forall j | 0 <= j < k :: Rounds(l, s, j).pc == l.body.b
    ensures Reaches(code, s, Rounds(l, s, k))
    ensures Rounds(l, s, k).pc == End(l) || (Rounds(l, s, k).pc == l.body.b && Ready(l.body, Rounds(l, s, k)))
  {
    hide LoopAt, Round, Reaches;
    if k == 0 {
      ReachesSelf(code, s);
    } else {
      RoundsRun(code, at, l, s, k - 1);
      assert FormAt(code, at, l) by { FormOf(code, at, l); }
      FormBounds(code, at, l);
      RoundRuns(code, at, l, Rounds(l, s, k - 1));
      ReachesJoin(code, s, Rounds(l, s, k - 1), Rounds(l, s, k));
    }
  }

  lemma FormOf(code: seq<Instr>, at: nat, l: Loop)
    requires LoopAt(code, at, l)
    ensures FormAt(code, at, l)
  {
  }

  /** So the rounds alone decide how often the body is executed. */
  lemma ExecutesRounds(code: seq<Instr>, at: nat, l: Loop, s: State, k: nat)
    requires LoopAt(code, at, l) && s.pc == at && Ready(l.body, Entered(l, s))
    ensures Executes(code, l, s, k) <==> EndsAfter(l, Entered(l, s), k)
  {
    hide LoopAt, Reaches, Rounds, FormAt;
    if EndsAfter(l, Entered(l, s), k) {
      FormOf(code, at, l);
      SetupRuns(code, at, l, s);
      hide Entered;
      EnteredAt(l, s);
      RoundsRun(code, at, l, Entered(l, s), k);
      ReachesJoin(code, s, Entered(l, s), Rounds(l, Entered(l, s), k));
    }
  }

  lemma EnteredAt(l: Loop, s: State)
    ensures Entered(l, s).pc == l.body.b
    ensures l.Counter? ==> Entered(l, s).register == s.register
  {
  }

  // ---------------------------------------------------------------- the counter form

  /** After j rounds the body starts again, the counter is j and the limit still n. */
  predicate Counting(l: Loop, s: State, j: int, n: int)
    requires l.Counter?
  {
    s.pc == l.body.b && Ready(l.body, s) && Cell(s.data, l.counter) == j && Cell(s.data, Limit(l)) == n
  }

  ghost predicate KeepsCells(l: Loop)
    requires l.Counter?
  {
    l.counter != Limit(l) && KeepsCell(l.body, l.counter) && KeepsCell(l.body, Limit(l))
  }

  /** The loop register when the jump back after round j + 1 is reached. */
  function AtJump(l: Loop, s: State, j: nat): nat {
    l.body.pass(Rounds(l, Entered(l, s), j)).register
  }

  lemma CounterRound(l: Loop, s: State, j: int, n: int)
    requires l.Counter? && !l.count.Named? && KeepsCells(l) && Lasts(l) && l.body.b < l.body.e
    requires Counting(l, s, j, n)
    ensures if j + 1 < n && !LastRound(l.body.pass(s).register) then Counting(l, Round(l, s), j + 1, n)
            else Round(l, s).pc == End(l)
  {
    hide LastRound, CountDown, Lasts, Ready;
    var m := l.body.pass(s);
    assert Cell(m.data, l.counter) == j && Cell(m.data, Limit(l)) == n;
    RoundReady(l, s);
  }

  lemma {:induction false} CounterRounds(l: Loop, s: State, n: nat, j: nat)
    requires l.Counter? && !l.count.Named? && KeepsCells(l) && Lasts(l) && l.body.b < l.body.e
    requires Ready(l.body, s) && n == CountOf(l.count, s.data)
    requires j < Times(n) && forall i | 0 <= i < j :: !LastRound(AtJump(l, s, i))
    ensures Counting(l, Rounds(l, Entered(l, s), j), j, n)
    decreases j
  {
    hide LastRound, Round, Lasts, KeepsCells, Ready;
    if j > 0 {
      CounterRounds(l, s, n, j - 1);
      assert !LastRound(AtJump(l, s, j - 1));
      CounterRound(l, Rounds(l, Entered(l, s), j - 1), j - 1, n);
    } else {
      KeptDistinct(l);
      LastsReady(l, s);
    }
  }

  lemma LastsReady(l: Loop, s: State)
    requires Lasts(l) && l.Counter? && Ready(l.body, s)
    ensures Ready(l.body, Entered(l, s))
  {
    EnteredReady(l, s);
  }

  lemma CounterEntered(code: seq<Instr>, at: nat, l: Loop, s: State)
    requires LoopAt(code, at, l) && l.Counter? && Ready(l.body, s)
    ensures Ready(l.body, Entered(l, s))
  {
    hide FormAt, Runs, Continues, Holds, Ready;
    LastsReady(l, s);
  }

  lemma KeptDistinct(l: Loop)
    requires l.Counter? && KeepsCells(l)
    ensures l.counter != Limit(l)
  {
  }

  lemma LoopFacts(code: seq<Instr>, at: nat, l: Loop)
    requires LoopAt(code, at, l)
    ensures Lasts(l) && l.body.b < l.body.e < End(l)
  {
  }

  lemma RoundsLast(l: Loop, s: State, k: nat)
    requires k > 0
    ensures Rounds(l, s, k) == Round(l, Rounds(l, s, k - 1))
  {
  }

  lemma {:induction false} FirstSuppressed(l: Loop, s: State, k: nat) returns (j: nat)
    requires exists i :: 0 <= i < k && LastRound(AtJump(l, s, i))
    ensures j < k && LastRound(AtJump(l, s, j)) && forall i | 0 <= i < j :: !LastRound(AtJump(l, s, i))
  {
    hide LastRound, AtJump;
    j := 0;
    while !LastRound(AtJump(l, s, j))
      invariant j < k && forall i | 0 <= i < j :: !LastRound(AtJump(l, s, i))
      decreases k - j
    {
      j := j + 1;
    }
  }

  lemma {:induction false} CounterComplete(code: seq<Instr>, at: nat, l: Loop, s: State, n: nat)
    requires LoopAt(code, at, l) && s.pc == at && Ready(l.body, s)
    requires l.Counter? && !l.count.Named? && KeepsCells(l) && n == CountOf(l.count, s.data)
    requires forall j | 0 <= j < Times(n) - 1 :: !LastRound(AtJump(l, s, j))
    ensures Executes(code, l, s, Times(n))
  {
    hide LastRound, Rounds, Round, Entered, KeepsCells, LoopAt, Executes;
    CounterEntered(code, at, l, s);
    ExecutesRounds(code, at, l, s, Times(n));
    LoopFacts(code, at, l);
    forall j | 0 <= j < Times(n) ensures Rounds(l, Entered(l, s), j).pc == l.body.b {
      CounterRounds(l, s, n, j);
    }
    CounterRounds(l, s, n, Times(n) - 1);
    CounterRound(l, Rounds(l, Entered(l, s), Times(n) - 1), Times(n) - 1, n);
    RoundsLast(l, Entered(l, s), Times(n));
  }

  /** The first jump back to be suppressed ends the loop. */
  lemma {:induction false} CounterCut(code: seq<Instr>, at: nat, l: Loop, s: State, n: nat, j: nat)
    requires LoopAt(code, at, l) && s.pc == at && Ready(l.body, s)
    requires l.Counter? && !l.count.Named? && KeepsCells(l) && n == CountOf(l.count, s.data)
    requires j < Times(n) - 1 && LastRound(AtJump(l, s, j)) && forall i | 0 <= i < j :: !LastRound(AtJump(l, s, i))
    ensures Executes(code, l, s, j + 1)
  {
    hide LastRound, Rounds, Round, Entered, KeepsCells, LoopAt, Executes;
    CounterEntered(code, at, l, s);
    ExecutesRounds(code, at, l, s, j + 1);
    LoopFacts(code, at, l);
    forall i | 0 <= i <= j ensures Rounds(l, Entered(l, s), i).pc == l.body.b {
      CounterRounds(l, s, n, i);
    }
    CounterRounds(l, s, n, j);
    CounterRound(l, Rounds(l, Entered(l, s), j), j, n);
    RoundsLast(l, Entered(l, s), j + 1);
  }

  /**
   * A counter loop executes its body max(1, n) times exactly if the loop register suppresses none of the jumps back,
   * whatever the body does inside.
   */
  lemma CounterLoop(code: seq<Instr>, at: nat, l: Loop, s: State, n: nat)
    requires LoopAt(code, at, l) && s.pc == at && Ready(l.body, s)
    requires l.Counter? && !l.count.Named? && KeepsCells(l) && n == CountOf(l.count, s.data)
    ensures Executes(code, l, s, Times(n)) <==> forall j | 0 <= j < Times(n) - 1 :: !LastRound(AtJump(l, s, j))
  {
    hide LastRound, AtJump, KeepsCells, LoopAt, Executes;
    LoopFacts(code, at, l);
    if forall j | 0 <= j < Times(n) - 1 :: !LastRound(AtJump(l, s, j)) {
      CounterComplete(code, at, l, s, n);
    } else {
      var j := FirstSuppressed(l, s, Times(n) - 1);
      CounterCut(code, at, l, s, n, j);
      if Executes(code, l, s, Times(n)) {
        ExecutesOnce(code, l, s, j + 1, Times(n));
      }
    }
  }

  /** If the count is a named constant, the comparison overwrites the counter in RESULT: there is only one round. */
  lemma {:induction false} NamedCounter(code: seq<Instr>, at: nat, l: Loop, s: State, n: nat)
    requires LoopAt(code, at, l) && s.pc == at && Ready(l.body, s)
    requires l.Counter? && l.count == Named(n)
    ensures Executes(code, l, s, 1)
    ensures Executes(code, l, s, Times(n)) <==> n <= 1
  {
    hide LoopAt, Executes;
    EnteredAt(l, s);
    LoopFacts(code, at, l);
    ExecutesRounds(code, at, l, s, 1);
    assert Rounds(l, Entered(l, s), 0) == Entered(l, s);
    RoundsLast(l, Entered(l, s), 1);
    if Executes(code, l, s, Times(n)) {
      ExecutesOnce(code, l, s, 1, Times(n));
    }
  }

  // ---------------------------------------------------------------- bodies that keep the loop register

  /** The loop register after k backward jumps. */
  function CountedDown(register: nat, k: nat): nat {
    if k == 0 then register else CountDown(CountedDown(register, k - 1))
  }

  /** How many rounds a loop register that is not clear leaves room for. */
  function Room(register: nat): nat {
    if register % COUNTS > 0 then register % COUNTS else if register / MARK % 2 == 1 then 1 else COUNTS
  }

  lemma {:induction false} CountedDownIs(register: nat, k: nat)
    ensures register == 0 ==> CountedDown(register, k) == 0
    ensures register % COUNTS > 0 && 0 < k <= register % COUNTS ==> CountedDown(register, k) == register % COUNTS - k
    ensures register > 0 && register % COUNTS == 0 && 0 < k <= COUNTS ==>
              CountedDown(register, k) == if k == 1 then WORDS - 1 else COUNTS - k
  {
    if k > 0 {
      CountedDownIs(register, k - 1);
    }
  }

  lemma {:induction false} RoomIs(register: nat, k: nat)
    ensures (forall j | 0 <= j < k :: !LastRound(CountedDown(register, j))) <==> register == 0 || k < Room(register)
  {
    forall j: nat ensures j == 0 ==> CountedDown(register, j) == register {
    }
    if register == 0 {
      forall j | 0 <= j < k ensures !LastRound(CountedDown(register, j)) {
        CountedDownIs(register, j);
      }
    } else {
      var last := Room(register) - 1;
      CountedDownIs(register, last);
      assert LastRound(CountedDown(register, last));
      forall j | 0 <= j < last ensures !LastRound(CountedDown(register, j)) {
        CountedDownIs(register, j);
      }
    }
  }

  lemma {:induction false} KeptRegister(l: Loop, s: State, n: nat, j: nat)
    requires l.Counter? && !l.count.Named? && KeepsCells(l) && Lasts(l) && l.body.b < l.body.e
    requires KeepsRegister(l.body) && Ready(l.body, s) && n == CountOf(l.count, s.data)
    requires j < Times(n) && forall i | 0 <= i < j :: !LastRound(CountedDown(s.register, i))
    ensures Counting(l, Rounds(l, Entered(l, s), j), j, n)
    ensures Rounds(l, Entered(l, s), j).register == AtJump(l, s, j) == CountedDown(s.register, j)
    decreases j
  {
    hide LastRound, CountDown, KeepsCells, Lasts, Entered;
    EnteredAt(l, s);
    if j > 0 {
      KeptRegister(l, s, n, j - 1);
      var r := Rounds(l, Entered(l, s), j - 1);
      assert !LastRound(CountedDown(s.register, j - 1));
      CounterRound(l, r, j - 1, n);
      KeptDistinct(l);
      assert Rounds(l, Entered(l, s), j).register == CountDown(l.body.pass(r).register);
    } else {
      CounterRounds(l, s, n, 0);
    }
  }

  /**
   * If the body leaves the loop register alone, a counter loop with count n executes it max(1, n) times exactly if the
   * register is clear or has room for that; otherwise it is executed as often as there is room for.
   */
  lemma {:induction false} CounterLoopKept(code: seq<Instr>, at: nat, l: Loop, s: State, n: nat)
    requires LoopAt(code, at, l) && s.pc == at && Ready(l.body, s)
    requires l.Counter? && !l.count.Named? && KeepsCells(l) && KeepsRegister(l.body) && n == CountOf(l.count, s.data)
    ensures Executes(code, l, s, Times(n)) <==> s.register == 0 || Times(n) <= Room(s.register)
    ensures s.register > 0 && Room(s.register) < Times(n) ==> Executes(code, l, s, Room(s.register))
  {
    hide LastRound, Room, KeepsCells, KeepsRegister, LoopAt, Executes, AtJump, Counting;
    LoopFacts(code, at, l);
    RoomIs(s.register, Times(n) - 1);
    if s.register == 0 || Times(n) <= Room(s.register) {
      forall j | 0 <= j < Times(n) - 1 ensures !LastRound(AtJump(l, s, j)) {
        KeptRegister(l, s, n, j);
      }
      CounterComplete(code, at, l, s, n);
    } else {
      RoomPositive(s.register);
      var last := Room(s.register) - 1;
      RoomIs(s.register, last);
      RoomIs(s.register, last + 1);
      forall j | 0 <= j <= last ensures AtJump(l, s, j) == CountedDown(s.register, j) {
        KeptRegister(l, s, n, j);
      }
      forall j | 0 <= j < last ensures !LastRound(AtJump(l, s, j)) {
        assert AtJump(l, s, j) == CountedDown(s.register, j);
      }
      CounterCut(code, at, l, s, n, last);
      if Executes(code, l, s, Times(n)) {
        ExecutesOnce(code, l, s, last + 1, Times(n));
      }
    }
  }

  lemma RoomPositive(register: nat)
    ensures Room(register) > 0
  {
  }

  /** With 1 in the loop register, a loop with count 2 is executed once. */
  lemma LeftoverRegister(code: seq<Instr>, at: nat, l: Loop, s: State)
    requires LoopAt(code, at, l) && s.pc == at && Ready(l.body, s)
    requires l.Counter? && !l.count.Named? && KeepsCells(l) && KeepsRegister(l.body)
    requires CountOf(l.count, s.data) == 2 && s.register == 1
    ensures Executes(code, l, s, 1) && !Executes(code, l, s, 2)
  {
    hide LoopAt, Executes, KeepsCells, KeepsRegister;
    CounterLoopKept(code, at, l, s, 2);
  }

  // ---------------------------------------------------------------- the hardware form

  /** The loop register at the start of round j + 1 of a hardware loop with count n. */
  function HardwareRegister(n: nat, j: nat): nat {
    if j == 0 then n % MARK + MARK else if j < n then n - j else if n == 0 then WORDS - 1 else 0
  }

  lemma {:induction false} HardwareCountDown(n: nat, j: nat)
    requires n < COUNTS && j < Times(n)
    ensures CountDown(HardwareRegister(n, j)) == HardwareRegister(n, j + 1)
    ensures LastRound(HardwareRegister(n, j)) <==> j + 1 == Times(n)
  {
  }

  /** The count is n, or -n: the sign is ignored. */
  predicate SignedCount(l: Loop, s: State, n: nat) {
    CountOf(l.count, s.data) == n || CountOf(l.count, s.data) + n == 0
  }

  lemma {:induction false} HardwareRounds(l: Loop, s: State, n: nat, j: nat)
    requires l.Hardware? && KeepsRegister(l.body) && Lasts(l) && l.body.b < l.body.e
    requires SignedCount(l, s, n) && n < COUNTS && j <= Times(n)
    requires l.body.admits(n + MARK) && Holds(l.body.needs, s.data)
    ensures var r := Rounds(l, Entered(l, s), j);
            && r.register == HardwareRegister(n, j)
            && if j < Times(n) then r.pc == l.body.b && Ready(l.body, r) else r.pc == End(l)
    decreases j
  {
    hide LastRound, CountDown;
    if j > 0 {
      hide HardwareRegister;
      HardwareRounds(l, s, n, j - 1);
      HardwareCountDown(n, j - 1);
      var r := Rounds(l, Entered(l, s), j - 1);
      assert l.body.pass(r).register == r.register;
      RoundReady(l, r);
    } else {
      EnteredReady(l, s);
    }
  }

  /**
   * The hardware form executes its body max(1, n) times, whatever the loop register was before. It leaves the register
   * clear if n is positive; otherwise it leaves it counting.
   */
  lemma {:induction false} HardwareLoop(code: seq<Instr>, at: nat, l: Loop, s: State, n: nat)
    requires LoopAt(code, at, l) && s.pc == at && l.Hardware? && KeepsRegister(l.body)
    requires SignedCount(l, s, n) && n < COUNTS
    requires l.body.admits(n + MARK) && Holds(l.body.needs, s.data)
    ensures Executes(code, l, s, Times(n))
    ensures Rounds(l, Entered(l, s), Times(n)).register == if n > 0 then 0 else WORDS - 1
  {
    hide KeepsRegister, Rounds, LoopAt, Executes;
    LoopFacts(code, at, l);
    ExecutesRounds(code, at, l, s, Times(n));
    hide Entered;
    forall j | 0 <= j <= Times(n)
      ensures var r := Rounds(l, Entered(l, s), j); if j < Times(n) then r.pc == l.body.b else r.pc == End(l)
    {
      HardwareRounds(l, s, n, j);
    }
    HardwareRounds(l, s, n, Times(n));
  }

  // ---------------------------------------------------------------- what the loop has done

  function Repeated(w: seq<nat>, k: nat): seq<nat> {
    if k == 0 then [] else Repeated(w, k - 1) + w
  }

  lemma {:induction false} RepeatedSum(w: seq<nat>, j: nat, k: nat)
    ensures Repeated(w, j + k) == Repeated(w, j) + Repeated(w, k)
    decreases k
  {
    if k > 0 {
      RepeatedSum(w, j, k - 1);
      assert Repeated(w, j) + (Repeated(w, k - 1) + w) == (Repeated(w, j) + Repeated(w, k - 1)) + w;
    } else {
      assert Repeated(w, j) + [] == Repeated(w, j);
    }
  }

  lemma {:induction false} RepeatedTwice(w: seq<nat>, j: nat, k: nat)
    ensures Repeated(Repeated(w, j), k) == Repeated(w, k * j)
    decreases k
  {
    if k > 0 {
      RepeatedTwice(w, j, k - 1);
      RepeatedSum(w, (k - 1) * j, j);
      assert (k - 1) * j + j == k * j;
    }
  }

  /** k rounds append what the body appends, k times. */
  lemma {:induction false} RoundsEmit(code: seq<Instr>, at: nat, l: Loop, s: State, w: seq<nat>, k: nat)
    requires LoopAt(code, at, l) && Emits(l.body, w) && Ready(l.body, Entered(l, s))
    requires forall j | 0 <= j < k :: Rounds(l, Entered(l, s), j).pc == l.body.b
    ensures Rounds(l, Entered(l, s), k).data.trace == s.data.trace + Repeated(w, k)
    ensures Rounds(l, Entered(l, s), k).pc == End(l) || Ready(l.body, Rounds(l, Entered(l, s), k))
    decreases k
  {
    hide LoopAt, LastRound, CountDown, Entered;
    LoopFacts(code, at, l);
    if k > 0 {
      RoundsEmit(code, at, l, s, w, k - 1);
      hide Rounds;
      var r := Rounds(l, Entered(l, s), k - 1);
      RoundsLast(l, Entered(l, s), k);
      RoundTrace(l, r);
      RoundReady(l, r);
      assert (s.data.trace + Repeated(w, k - 1)) + w == s.data.trace + Repeated(w, k);
    } else {
      EnteredTrace(l, s);
      assert s.data.trace + [] == s.data.trace;
    }
  }

  lemma EnteredTrace(l: Loop, s: State)
    ensures Entered(l, s).data.trace == s.data.trace && Entered(l, s).pc == l.body.b
  {
  }

  lemma RoundTrace(l: Loop, s: State)
    ensures Round(l, s).data.trace == l.body.pass(s).data.trace
  {
    hide LastRound, CountDown;
  }

  // ---------------------------------------------------------------- straight-line bodies

  predicate Computes(i: Instr) {
    i.Other? || i.SetResult? || i.Fetch? || i.Store? || i.AddCell?
  }

  predicate Straight(code: seq<Instr>, b: nat, e: nat) {
    b < e <= |code| && forall k | b <= k < e :: Computes(code[k])
  }

  function StraightBody(code: seq<Instr>, b: nat, e: nat): Body
    requires b < e
  {
    Body(b, e, register => true, {}, s => Steps(code, s, e - b))
  }

  lemma {:induction false} StraightRuns(code: seq<Instr>, b: nat, e: nat, s: State)
    requires b <= e && (b < e ==> Straight(code, b, e)) && s.pc == b
    ensures Steps(code, s, e - b).pc == e && Steps(code, s, e - b).register == s.register
    decreases e - b
  {
    if b < e {
      assert Computes(code[b]);
      StraightRuns(code, b + 1, e, Step(code, s));
    }
  }

  /** Code that only computes is a loop body for any loop register, and leaves it alone. */
  lemma StraightIsBody(code: seq<Instr>, b: nat, e: nat)
    requires Straight(code, b, e)
    ensures var body := StraightBody(code, b, e); Runs(code, body) && Continues(body) && KeepsRegister(body)
  {
    hide Steps;
    var body := StraightBody(code, b, e);
    forall s: State | s.pc == b ensures RunsFrom(code, body, s) && body.pass(s).register == s.register {
      StraightRuns(code, b, e, s);
      assert Steps(code, s, e - b) == body.pass(s);
    }
  }

  /**
   * For such bodies both forms execute the body max(1, n) times, the counter form if the register has room for that.
   */
  lemma LoopExecutes(code: seq<Instr>, at: nat, l: Loop, s: State, n: nat)
    requires Straight(code, l.body.b, l.body.e) && l.body == StraightBody(code, l.body.b, l.body.e)
    requires FormAt(code, at, l) && s.pc == at && CountOf(l.count, s.data) == n < COUNTS
    requires l.Counter? ==> !l.count.Named? && KeepsCells(l)
    ensures Executes(code, l, s, Times(n)) <==> l.Hardware? || s.register == 0 || Times(n) <= Room(s.register)
  {
    hide FormAt, Executes, KeepsCells, Room;
    StraightIsBody(code, l.body.b, l.body.e);
    if l.Hardware? {
      HardwareLoop(code, at, l, s, n);
    } else {
      CounterLoopKept(code, at, l, s, n);
    }
  }

  // ---------------------------------------------------------------- bodies with branches

  /** Code that computes, tests and jumps ahead, all inside itself. */
  predicate Branching(code: seq<Instr>, b: nat, e: nat) {
    && b < e <= |code|
    && forall k | b <= k < e :: Ahead(code[k], k, e)
  }

  predicate Ahead(i: Instr, k: nat, e: nat) {
    match i
    case Test(_) => k + 2 <= e
    case CompareLess(_) => k + 2 <= e
    case Jump(d) => d > 0 && k + d <= e
    case _ => Computes(i)
  }

  /** What the processor makes of such code: it leaves it at its end. */
  function Through(code: seq<Instr>, b: nat, e: nat, s: State): State
    requires Branching(code, b, e)
    decreases if s.pc < e then e - s.pc else 0
  {
    if b <= s.pc < e then
      assert Ahead(code[s.pc], s.pc, e);
      Through(code, b, e, Step(code, s))
    else s
  }

  function BranchingBody(code: seq<Instr>, b: nat, e: nat): Body
    requires Branching(code, b, e)
  {
    Body(b, e, register => true, {}, s => Through(code, b, e, s))
  }

  lemma {:induction false} ThroughRuns(code: seq<Instr>, b: nat, e: nat, s: State)
    requires Branching(code, b, e) && b <= s.pc <= e
    ensures Reaches(code, s, Through(code, b, e, s))
    ensures Through(code, b, e, s).pc == e && Through(code, b, e, s).register == s.register
    decreases e - s.pc
  {
    hide Reaches, LastRound, CountDown;
    if s.pc < e {
      assert Ahead(code[s.pc], s.pc, e);
      ThroughRuns(code, b, e, Step(code, s));
      ReachesStep(code, s, Through(code, b, e, Step(code, s)));
    } else {
      ReachesSelf(code, s);
    }
  }

  /** Jumps ahead do not count: such code is a loop body for any loop register, and leaves it alone. */
  lemma BranchingIsBody(code: seq<Instr>, b: nat, e: nat)
    requires Branching(code, b, e)
    ensures var body := BranchingBody(code, b, e); Runs(code, body) && Continues(body) && KeepsRegister(body)
  {
    hide Reaches, Through;
    var body := BranchingBody(code, b, e);
    forall s: State | s.pc == b ensures RunsFrom(code, body, s) && body.pass(s).register == s.register {
      ThroughRuns(code, b, e, s);
    }
  }

  /** A counter loop around branching code executes it max(1, n) times exactly if the register has room for that. */
  lemma BranchingLoop(code: seq<Instr>, at: nat, l: Loop, s: State, n: nat)
    requires Branching(code, l.body.b, l.body.e) && l.body == BranchingBody(code, l.body.b, l.body.e)
    requires FormAt(code, at, l) && s.pc == at && CountOf(l.count, s.data) == n
    requires l.Counter? && !l.count.Named? && KeepsCells(l)
    ensures Executes(code, l, s, Times(n)) <==> s.register == 0 || Times(n) <= Room(s.register)
  {
    hide FormAt, Executes, KeepsCells, Room, Branching;
    BranchingIsBody(code, l.body.b, l.body.e);
    CounterLoopKept(code, at, l, s, n);
  }

  /** As long as it is not the last round of a hardware loop, the code computes what it does with a clear register. */
  lemma {:induction false} BranchesTaken(code: seq<Instr>, b: nat, e: nat, s: State)
    requires Branching(code, b, e) && b <= s.pc <= e && !LastRound(s.register)
    ensures Through(code, b, e, s).data == Through(code, b, e, s.(register := 0)).data
    decreases e - s.pc
  {
    WoundUp();
    hide LastRound, CountDown;
    if s.pc < e {
      assert Ahead(code[s.pc], s.pc, e);
      var n := Step(code, s);
      assert Step(code, s.(register := 0)) == n.(register := 0);
      BranchesTaken(code, b, e, n);
    }
  }

  /** In the last round it does not: a jump is not taken, and what it should skip is executed. */
  lemma {:induction false} BranchNotTaken(mark: Instr, s: State)
    requires mark == Other((d: Data) => d.(trace := d.trace + [1])) && s.pc == 0
    ensures var code := [Jump(2), mark];
            && Branching(code, 0, 2)
            && Through(code, 0, 2, s).data.trace == if LastRound(s.register) then s.data.trace + [1] else s.data.trace
  {
    var code := [Jump(2), mark];
    hide LastRound, CountDown;
    var n := Step(code, s);
    assert Ahead(code[0], 0, 2) && Ahead(code[1], 1, 2);
    assert Through(code, 0, 2, s) == Through(code, 0, 2, n);
    if LastRound(s.register) {
      assert n == s.(pc := 1);
      var m := Step(code, n);
      assert m.pc == 2 && Through(code, 0, 2, n) == Through(code, 0, 2, m) == m;
    } else {
      assert n.pc == 2 && Through(code, 0, 2, n) == n;
    }
  }

  // ---------------------------------------------------------------- nested loops

  /** How often the body of the inner of two loops is to be executed. */
  function TimesEach(n: nat, m: nat): nat {
    Product(Times(n), Times(m))
  }

  function Product(x: nat, y: nat): nat {
    x * y
  }

  /** The count is m whenever the cells in CountNeeds are as said there. */
  predicate CountIs(count: Count, m: nat) {
    match count
    case Value(n) => n == m
    case Named(n) => n == m
    case Computed => false
    case InCell(_) => true
  }

  function CountNeeds(count: Count, m: nat): set<(nat, int)> {
    if count.InCell? then {(count.cell, m)} else {}
  }

  lemma CountHeld(count: Count, m: nat, d: Data)
    requires CountIs(count, m) && Holds(CountNeeds(count, m), d)
    ensures CountOf(count, d) == m
  {
    assert count.InCell? ==> (count.cell, m) in CountNeeds(count, m);
  }

  /** What the loop with count m as a body needs: what its own body needs, and its count if that is in a cell. */
  function Needs(inner: Loop, m: nat): set<(nat, int)> {
    inner.body.needs + CountNeeds(inner.count, m)
  }

  lemma NeedsHeld(inner: Loop, m: nat, d: Data)
    requires CountIs(inner.count, m) && Holds(Needs(inner, m), d)
    ensures Holds(inner.body.needs, d) && CountOf(inner.count, d) == m
  {
    CountHeld(inner.count, m, d);
  }

  /** A loop with count m as the body of another one. */
  function NestedHardware(at: nat, inner: Loop, m: nat): Body {
    Body(at, End(inner), register => true, Needs(inner, m), s => Rounds(inner, Entered(inner, s), Times(m)))
  }

  function NestedCounter(at: nat, inner: Loop, m: nat): Body {
    Body(at, End(inner), register => register == 0, Needs(inner, m), s => Rounds(inner, Entered(inner, s), Times(m)))
  }

  /** A hardware loop with count m whose body leaves the register and the cell with the count, if any, alone. */
  ghost predicate HardwareOf(code: seq<Instr>, at: nat, inner: Loop, m: nat) {
    && LoopAt(code, at, inner) && inner.Hardware? && KeepsRegister(inner.body)
    && CountIs(inner.count, m) && m < COUNTS && inner.body.admits(m + MARK)
    && (inner.count.InCell? ==> KeepsCell(inner.body, inner.count.cell))
  }

  /** A counter loop with count m whose body leaves a clear register, the counter and the limit alone. */
  ghost predicate CounterOf(code: seq<Instr>, at: nat, inner: Loop, m: nat) {
    && LoopAt(code, at, inner) && inner.Counter? && KeepsRegister(inner.body) && KeepsCells(inner)
    && CountIs(inner.count, m) && !inner.count.Named? && inner.body.admits(0)
  }

  /** A hardware loop as body: it runs for any register, and leaves it clear or just wound up. */
  lemma {:induction false} HardwareNested(code: seq<Instr>, at: nat, inner: Loop, m: nat, s: State)
    requires HardwareOf(code, at, inner, m) && s.pc == at && Holds(Needs(inner, m), s.data)
    ensures var r := Rounds(inner, Entered(inner, s), Times(m));
            && Reaches(code, s, r) && r.pc == End(inner)
            && (r.register == 0 || r.register == WORDS - 1)
            && (forall w | Emits(inner.body, w) :: r.data.trace == s.data.trace + Repeated(w, Times(m)))
  {
    hide LoopAt, KeepsRegister, KeepsCell, Rounds, Entered, Emits, Holds;
    NeedsHeld(inner, m, s.data);
    HardwareLoop(code, at, inner, s, m);
    HardwareEntered(code, at, inner, s, m);
    forall w | Emits(inner.body, w)
      ensures Rounds(inner, Entered(inner, s), Times(m)).data.trace == s.data.trace + Repeated(w, Times(m))
    {
      RoundsEmit(code, at, inner, s, w, Times(m));
    }
  }

  lemma HardwareEntered(code: seq<Instr>, at: nat, l: Loop, s: State, m: nat)
    requires LoopAt(code, at, l) && l.Hardware? && CountOf(l.count, s.data) == m && m < COUNTS
    requires l.body.admits(m + MARK) && Holds(l.body.needs, s.data)
    ensures Ready(l.body, Entered(l, s))
  {
    hide FormAt, Runs, Continues, Holds;
    EnteredReady(l, s);
  }

  /** A counter loop as body, entered with a clear register: it leaves the register clear. */
  lemma {:induction false} CounterNested(code: seq<Instr>, at: nat, inner: Loop, m: nat, s: State)
    requires CounterOf(code, at, inner, m) && s.pc == at && s.register == 0 && Holds(Needs(inner, m), s.data)
    ensures var r := Rounds(inner, Entered(inner, s), Times(m));
            && Reaches(code, s, r) && r.pc == End(inner) && r.register == 0
            && (forall w | Emits(inner.body, w) :: r.data.trace == s.data.trace + Repeated(w, Times(m)))
  {
    hide LoopAt, Rounds, Entered, Emits, KeepsCells, LastRound, Holds;
    NeedsHeld(inner, m, s.data);
    CounterLoopKept(code, at, inner, s, m);
    EnteredAt(inner, s);
    CounterEntered(code, at, inner, s);
    LoopFacts(code, at, inner);
    forall j | 0 <= j < Times(m) - 1 ensures !LastRound(CountedDown(0, j)) {
      RoomIs(0, j + 1);
    }
    KeptRegister(inner, s, m, Times(m) - 1);
    CountedDownIs(0, Times(m) - 1);
    var last := Rounds(inner, Entered(inner, s), Times(m) - 1);
    RoundsLast(inner, Entered(inner, s), Times(m));
    assert inner.body.pass(last).register == 0;
    RoundRegister(inner, last);
    hide KeepsRegister;
    forall w | Emits(inner.body, w)
      ensures Rounds(inner, Entered(inner, s), Times(m)).data.trace == s.data.trace + Repeated(w, Times(m))
    {
      RoundsEmit(code, at, inner, s, w, Times(m));
    }
  }

  lemma RoundRegister(l: Loop, s: State)
    ensures l.body.pass(s).register == 0 ==> Round(l, s).register == 0
  {
    hide LastRound;
  }

  /** The loop leaves the cell alone that its body leaves alone, and the cells its body needs as they are needed. */
  lemma {:induction false} RoundsKeep(l: Loop, s: State, c: nat, k: nat)
    requires Lasts(l) && l.body.b < l.body.e && Ready(l.body, Entered(l, s))
    requires KeepsCell(l.body, c) && Leaves(l, c)
    requires forall j | 0 <= j < k :: Rounds(l, Entered(l, s), j).pc == l.body.b
    ensures Cell(Rounds(l, Entered(l, s), k).data, c) == Cell(s.data, c)
    ensures Holds(l.body.needs, Rounds(l, Entered(l, s), k).data)
    ensures Rounds(l, Entered(l, s), k).pc == End(l) || Ready(l.body, Rounds(l, Entered(l, s), k))
    decreases k
  {
    hide Round, Entered, Lasts, Leaves, Holds;
    if k > 0 {
      RoundsKeep(l, s, c, k - 1);
      hide Rounds;
      var r := Rounds(l, Entered(l, s), k - 1);
      RoundsLast(l, Entered(l, s), k);
      RoundReady(l, r);
      RoundKeeps(l, r, c);
    } else {
      EnteredKeeps(l, s, c);
    }
  }

  /** After the loop, the cell is as before and the cells it needs as a body are as needed. */
  ghost predicate NestedKeeps(inner: Loop, m: nat, s: State, c: nat) {
    var d := Rounds(inner, Entered(inner, s), Times(m)).data;
    Cell(d, c) == Cell(s.data, c) && Holds(Needs(inner, m), d)
  }

  lemma {:induction false} RoundsNeed(l: Loop, s: State, c: nat, m: nat)
    requires Lasts(l) && l.body.b < l.body.e && Ready(l.body, Entered(l, s)) && Holds(Needs(l, m), s.data)
    requires KeepsCell(l.body, c) && Leaves(l, c)
    requires l.count.InCell? ==> KeepsCell(l.body, l.count.cell) && Leaves(l, l.count.cell)
    requires forall j | 0 <= j < Times(m) :: Rounds(l, Entered(l, s), j).pc == l.body.b
    ensures NestedKeeps(l, m, s, c)
  {
    hide Entered, Rounds, Lasts, Leaves, Ready, KeepsCell;
    RoundsKeep(l, s, c, Times(m));
    if l.count.InCell? {
      RoundsKeep(l, s, l.count.cell, Times(m));
      assert (l.count.cell, m) in Needs(l, m);
    }
  }

  lemma HardwareKeeps(code: seq<Instr>, at: nat, inner: Loop, m: nat, s: State, c: nat)
    requires HardwareOf(code, at, inner, m) && s.pc == at && Holds(Needs(inner, m), s.data) && KeepsCell(inner.body, c)
    ensures NestedKeeps(inner, m, s, c)
  {
    hide KeepsRegister, Rounds, Entered, KeepsCell, Reaches, LoopAt, Holds, NestedKeeps;
    NeedsHeld(inner, m, s.data);
    HardwareLoop(code, at, inner, s, m);
    HardwareEntered(code, at, inner, s, m);
    LoopFacts(code, at, inner);
    RoundsNeed(inner, s, c, m);
  }

  lemma CounterKeeps(code: seq<Instr>, at: nat, inner: Loop, m: nat, s: State, c: nat)
    requires CounterOf(code, at, inner, m) && s.pc == at && s.register == 0 && Holds(Needs(inner, m), s.data)
    requires KeepsCell(inner.body, c) && Leaves(inner, c)
    ensures NestedKeeps(inner, m, s, c)
  {
    hide KeepsRegister, Rounds, Entered, KeepsCell, Reaches, LoopAt, Holds, NestedKeeps;
    NeedsHeld(inner, m, s.data);
    CounterLoopKept(code, at, inner, s, m);
    CounterEntered(code, at, inner, s);
    LoopFacts(code, at, inner);
    RoundsNeed(inner, s, c, m);
  }

  /** However the body is entered, the jump back behind it is not suppressed. */
  ghost predicate Unsuppressed(body: Body) {
    forall s: State | s.pc == body.b && Ready(body, s) :: !LastRound(body.pass(s).register)
  }

  lemma {:induction false} UnsuppressedRounds(l: Loop, s: State, n: nat, j: nat)
    requires l.Counter? && !l.count.Named? && KeepsCells(l) && Lasts(l) && l.body.b < l.body.e
    requires Ready(l.body, s) && n == CountOf(l.count, s.data) && Unsuppressed(l.body) && j < Times(n)
    ensures Counting(l, Rounds(l, Entered(l, s), j), j, n) && !LastRound(AtJump(l, s, j))
    decreases j
  {
    hide LastRound, Round, Lasts, KeepsCells, Ready;
    if j > 0 {
      UnsuppressedRounds(l, s, n, j - 1);
      CounterRound(l, Rounds(l, Entered(l, s), j - 1), j - 1, n);
    } else {
      KeptDistinct(l);
      LastsReady(l, s);
    }
  }

  /** Then the loop is executed max(1, n) times, and leaves what its body leaves, so many times. */
  lemma {:induction false} UnsuppressedLoop(code: seq<Instr>, at: nat, l: Loop, s: State, n: nat, w: seq<nat>)
    requires LoopAt(code, at, l) && s.pc == at && Ready(l.body, s)
    requires l.Counter? && !l.count.Named? && KeepsCells(l) && n == CountOf(l.count, s.data)
    requires Unsuppressed(l.body) && Emits(l.body, w)
    ensures Executes(code, l, s, Times(n))
    ensures Rounds(l, Entered(l, s), Times(n)).data.trace == s.data.trace + Repeated(w, Times(n))
  {
    hide LastRound, Rounds, Entered, KeepsCells, LoopAt, Emits, AtJump, Counting, Unsuppressed;
    LoopFacts(code, at, l);
    forall j | 0 <= j < Times(n) - 1 ensures !LastRound(AtJump(l, s, j)) {
      UnsuppressedRounds(l, s, n, j);
    }
    CounterComplete(code, at, l, s, n);
    CounterEntered(code, at, l, s);
    RoundsEmit(code, at, l, s, w, Times(n));
  }

  lemma WoundUp()
    ensures !LastRound(0) && !LastRound(WORDS - 1)
  {
  }

  lemma LoopBegins(code: seq<Instr>, at: nat, l: Loop)
    requires LoopAt(code, at, l)
    ensures at < End(l)
  {
  }

  /**
   * A counter loop around a hardware loop executes the inner body max(1, n) * max(1, m) times, whatever the loop
   * register was before. The inner count may be in a cell that neither loop changes.
   */
  lemma {:induction false} HardwareInCounter(code: seq<Instr>, at: nat, l: Loop, s: State, n: nat,
                                             innerAt: nat, inner: Loop, m: nat, w: seq<nat>)
    requires HardwareOf(code, innerAt, inner, m) && Emits(inner.body, w)
    requires FormAt(code, at, l) && l.Counter? && !l.count.Named? && l.body == NestedHardware(innerAt, inner, m)
    requires KeepsCell(inner.body, l.counter) && KeepsCell(inner.body, Limit(l)) && Apart(l)
    requires s.pc == at && CountOf(l.count, s.data) == n && Holds(Needs(inner, m), s.data)
    ensures Executes(code, l, s, Times(n))
    ensures Rounds(l, Entered(l, s), Times(n)).data.trace == s.data.trace + Repeated(w, TimesEach(n, m))
    ensures LoopAt(code, at, l) && Emits(l.body, Repeated(w, Times(m)))
  {
    hide FormAt, LoopAt, HardwareOf, Rounds, Entered, LastRound, KeepsCell, Emits, Runs, Continues, Executes;
    hide Unsuppressed, Repeated, Reaches, RunsFrom, Step, Steps, Holds, Apart, Needs;
    HardwareNestedBody(code, innerAt, inner, m, w, l.counter);
    HardwareNestedBody(code, innerAt, inner, m, w, Limit(l));
    FormBounds(code, at, l);
    NestedAt(code, at, l);
    UnsuppressedLoop(code, at, l, s, n, Repeated(w, Times(m)));
    RepeatedTwice(w, Times(m), Times(n));
  }

  lemma NestedAt(code: seq<Instr>, at: nat, l: Loop)
    requires FormAt(code, at, l) && Runs(code, l.body) && Continues(l.body) && Apart(l)
    ensures LoopAt(code, at, l)
  {
  }

  lemma {:induction false} HardwareNestedBody(code: seq<Instr>, at: nat, inner: Loop, m: nat, w: seq<nat>, c: nat)
    requires HardwareOf(code, at, inner, m) && Emits(inner.body, w) && KeepsCell(inner.body, c)
    ensures var body := NestedHardware(at, inner, m);
            && Runs(code, body) && Continues(body) && Unsuppressed(body) && Emits(body, Repeated(w, Times(m)))
            && KeepsCell(body, c)
  {
    hide HardwareOf, Rounds, Entered, LastRound, Reaches, Holds, Needs;
    assert LoopAt(code, at, inner) by { HardwareAt(code, at, inner, m); }
    LoopBegins(code, at, inner);
    hide LoopAt;
    WoundUp();
    var body := NestedHardware(at, inner, m);
    forall s: State | s.pc == at && Holds(Needs(inner, m), s.data)
      ensures RunsFrom(code, body, s) && !LastRound(body.pass(s).register)
      ensures body.pass(s).data.trace == s.data.trace + Repeated(w, Times(m))
      ensures Cell(body.pass(s).data, c) == Cell(s.data, c) && Holds(body.needs, body.pass(s).data)
    {
      HardwareNested(code, at, inner, m, s);
      HardwareKeeps(code, at, inner, m, s, c);
    }
  }

  lemma HardwareAt(code: seq<Instr>, at: nat, inner: Loop, m: nat)
    requires HardwareOf(code, at, inner, m)
    ensures LoopAt(code, at, inner)
  {
  }

  lemma CounterAt(code: seq<Instr>, at: nat, inner: Loop, m: nat)
    requires CounterOf(code, at, inner, m)
    ensures LoopAt(code, at, inner)
  {
  }

  lemma {:induction false} CounterNestedBody(code: seq<Instr>, at: nat, inner: Loop, m: nat, w: seq<nat>, c: nat)
    requires CounterOf(code, at, inner, m) && Emits(inner.body, w) && KeepsCell(inner.body, c) && Leaves(inner, c)
    ensures var body := NestedCounter(at, inner, m);
            && Runs(code, body) && Continues(body) && KeepsRegister(body) && Unsuppressed(body)
            && Emits(body, Repeated(w, Times(m))) && KeepsCell(body, c)
  {
    hide CounterOf, Rounds, Entered, LastRound, Reaches, Holds, Needs, Leaves;
    assert LoopAt(code, at, inner) by { CounterAt(code, at, inner, m); }
    LoopBegins(code, at, inner);
    hide LoopAt;
    WoundUp();
    var body := NestedCounter(at, inner, m);
    forall s: State | s.pc == at && s.register == 0 && Holds(Needs(inner, m), s.data)
      ensures RunsFrom(code, body, s) && body.pass(s).register == 0
      ensures body.pass(s).data.trace == s.data.trace + Repeated(w, Times(m))
      ensures Cell(body.pass(s).data, c) == Cell(s.data, c) && Holds(body.needs, body.pass(s).data)
    {
      CounterNested(code, at, inner, m, s);
      CounterKeeps(code, at, inner, m, s, c);
    }
  }

  /**
   * A counter loop around a counter loop executes the inner body max(1, n) * max(1, m) times if the loop register is
   * clear. Its body is a body of the same kind again, so this holds for any depth.
   */
  lemma {:induction false} CounterInCounter(code: seq<Instr>, at: nat, l: Loop, s: State, n: nat,
                                            innerAt: nat, inner: Loop, m: nat, w: seq<nat>)
    requires CounterOf(code, innerAt, inner, m) && Emits(inner.body, w)
    requires FormAt(code, at, l) && l.Counter? && !l.count.Named? && l.body == NestedCounter(innerAt, inner, m)
    requires KeepsCell(inner.body, l.counter) && KeepsCell(inner.body, Limit(l)) && Apart(l)
    requires Leaves(inner, l.counter) && Leaves(inner, Limit(l))
    requires s.pc == at && s.register == 0 && CountOf(l.count, s.data) == n && Holds(Needs(inner, m), s.data)
    ensures Executes(code, l, s, Times(n))
    ensures Rounds(l, Entered(l, s), Times(n)).data.trace == s.data.trace + Repeated(w, TimesEach(n, m))
    ensures LoopAt(code, at, l) && KeepsRegister(l.body) && KeepsCells(l) && Emits(l.body, Repeated(w, Times(m)))
  {
    hide FormAt, LoopAt, CounterOf, KeepsRegister, Rounds, Entered, LastRound, KeepsCell, Emits, Runs, Continues;
    hide Executes, Unsuppressed, Repeated, Reaches, RunsFrom, Step, Steps, Holds, Apart, Needs, Leaves;
    CounterNestedBody(code, innerAt, inner, m, w, l.counter);
    CounterNestedBody(code, innerAt, inner, m, w, Limit(l));
    FormBounds(code, at, l);
    NestedAt(code, at, l);
    UnsuppressedLoop(code, at, l, s, n, Repeated(w, Times(m)));
    RepeatedTwice(w, Times(m), Times(n));
  }
}
