/** The instructions of lvm.c that logical expressions compile to, and how the virtual machine runs them. */
module LuaVM {

  datatype Value = Nil | Bool(b: bool) | Other(id: nat)

  /** l_isfalse. */
  predicate IsFalse(v: Value) { v == Nil || v == Bool(false) }

  /** The primitives the instructions use, and the upvalues of the running closure. */
  datatype Env = Env(eq: (Value, Value) -> bool, lt: (Value, Value) -> bool, le: (Value, Value) -> bool,
                     upvals: nat -> Value)

  /**
   * An operand of a comparison: a register, or a constant, which stands here for its place in the table of constants.
   */
  datatype Operand = R(reg: nat) | K(v: Value)

  datatype Instr =
    | Move(a: nat, b: nat)
    | LoadK(a: nat, v: Value)
    | LoadBool(a: nat, value: bool, skip: bool)
    | GetUpval(a: nat, b: nat)
    | Not(a: nat, b: nat)
    | Jmp(sbx: int)
    | Eq(cond: bool, o1: Operand, o2: Operand)
    | Lt(cond: bool, o1: Operand, o2: Operand)
    | Le(cond: bool, o1: Operand, o2: Operand)
    | Test(a: nat, flag: bool)
    | TestSet(a: nat, b: nat, flag: bool)
    | Next(id: nat)                          // an instruction after the expression
  {
    /** testTMode: the instruction decides whether the jump after it is taken. */
    predicate IsTest() { Eq? || Lt? || Le? || Test? || TestSet? }
  }

  type Code = seq<Instr>

  type Regs = map<nat, Value>

  function Get(r: Regs, i: nat): Value { if i in r then r[i] else Nil }

  function RK(r: Regs, o: Operand): Value {
    match o
    case R(reg) => Get(r, reg)
    case K(v) => v
  }

  /** Does a test instruction take the jump after it? */
  predicate Fires(env: Env, i: Instr, r: Regs)
    requires i.IsTest()
  {
    match i
    case Eq(cond, o1, o2) => env.eq(RK(r, o1), RK(r, o2)) == cond
    case Lt(cond, o1, o2) => env.lt(RK(r, o1), RK(r, o2)) == cond
    case Le(cond, o1, o2) => env.le(RK(r, o1), RK(r, o2)) == cond
    case Test(a, flag) => IsFalse(Get(r, a)) != flag
    case TestSet(_, b, flag) => IsFalse(Get(r, b)) != flag
  }

  datatype Machine = Machine(pc: int, regs: Regs)

  function JumpOffset(code: Code, pc: int): int {
    if 0 <= pc < |code| && code[pc].Jmp? then code[pc].sbx else 0
  }

  /** One turn of luaV_execute: fetch, advance the program counter, perform. */
  function Step(env: Env, code: Code, m: Machine): Machine
    requires 0 <= m.pc < |code|
  {
    var i := code[m.pc];
    var pc := m.pc + 1;
    var r := m.regs;
    match i
    case Move(a, b) => Machine(pc, r[a := Get(r, b)])
    case LoadK(a, v) => Machine(pc, r[a := v])
    case LoadBool(a, v, skip) => Machine(if skip then pc + 1 else pc, r[a := Bool(v)])
    case GetUpval(a, b) => Machine(pc, r[a := env.upvals(b)])
    case Not(a, b) => Machine(pc, r[a := Bool(IsFalse(Get(r, b)))])
    case Jmp(sbx) => Machine(pc + sbx, r)
    case Next(_) => Machine(pc, r)
    case TestSet(a, b, _) =>
      if Fires(env, i, r) then Machine(pc + JumpOffset(code, pc) + 1, r[a := Get(r, b)]) else Machine(pc + 1, r)
    case _ =>
      if Fires(env, i, r) then Machine(pc + JumpOffset(code, pc) + 1, r) else Machine(pc + 1, r)
  }

  /** n turns, as long as the program counter stays inside the code. */
  function Steps(env: Env, code: Code, m: Machine, n: nat): Machine
    decreases n
  {
    if n == 0 || !(0 <= m.pc < |code|) then m else Steps(env, code, Step(env, code, m), n - 1)
  }

  /** The machine gets from (pc, r) to (pc', r'). */
  ghost predicate Executes(env: Env, code: Code, pc: int, r: Regs, pc': int, r': Regs) {
    exists n: nat :: Steps(env, code, Machine(pc, r), n) == Machine(pc', r')
  }
}
