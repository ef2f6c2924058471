/** Comparisons: both operands in registers or constants, then a test whose jump is the value. */
module Comparing {
  import opened Base
  import opened LuaVM
  import opened Logic
  import opened Holes
  import opened Patches
  import opened Denote
  import opened Compile
  import opened ShortCircuit
  import opened Settling

  datatype TestOp = OP_EQ | OP_LT | OP_LE

  /** luaK_posfix: the opcode and the condition of each comparison. */
  function CompareCode(op: CompareOp): (TestOp, bool) {
    match op
    case EQ => (OP_EQ, true)
    case NE => (OP_EQ, false)
    case LT => (OP_LT, true)
    case LE => (OP_LE, true)
    case GT => (OP_LT, false)
    case GE => (OP_LE, false)
  }

  function TestInstr(op: TestOp, cond: bool, b: Operand, c: Operand): Instr {
    match op
    case OP_EQ => Eq(cond, b, c)
    case OP_LT => Lt(cond, b, c)
    case OP_LE => Le(cond, b, c)
  }

  /** codecomp: an order comparison with the condition 0 exchanges its operands instead. */
  function CompareInstr(op: CompareOp, o1: Operand, o2: Operand): Instr {
    var (code, cond) := CompareCode(op);
    if !cond && code != OP_EQ then TestInstr(code, true, o2, o1) else TestInstr(code, cond, o1, o2)
  }

  lemma CompareFires(env: Env, op: CompareOp, o1: Operand, o2: Operand, r: Regs)
    ensures Fires(env, CompareInstr(op, o1, o2), r) == Holds(env, op, RK(r, o1), RK(r, o2))
    ensures var i := CompareInstr(op, o1, o2); i.Eq? || i.Lt? || i.Le?
  {
  }

  // ---- Operands ----

  /** luaK_exp2RK on a literal or a local variable without exits. */
  lemma QuietOperand(s: Start, code: Code, here: set<nat>, e: ExpDesc, e': ExpDesc, x: Expr)
    requires ExpOK(s, code, here, e, {}, {}, x) && (e.k.VNonreloc? || e.k.IsConst())
    requires if e.k.IsConst() then e'.k == VK(e.k.Const()) else e' == e
    ensures OperandOK(s, code, here, e', x)
  {
    hide Sound, Enter, Flow, Carry, Agree, HasExits;
    assert {} + {} + here == here;
    forall a, r: Regs | Entry(s, a) ensures OperandAt(s, code, here, e', x, a, r) {
      assert DenotesAt(s, code, here, e, {}, {}, x, false, a, r);
      if Enter(s, code, here, a, r).Exit? {
        EnterInside(s, code, here, a, r);
      }
    }
  }

  /** An operand that has been put in the first free register. */
  lemma HeldOperand(s: Start, code: Code, here: set<nat>, e: ExpDesc, x: Expr)
    requires Held(s, code, here, e.info, x) && e.k.VNonreloc? && e.info >= s.free && !Quiet(x) && NoValues(code, here)
    ensures OperandOK(s, code, here, e, x)
  {
    hide Sound, Enter, Flow, Quiet;
    forall a, r: Regs | Entry(s, a) ensures OperandAt(s, code, here, e, x, a, r) {
      assert HeldAt(s, code, here, e.info, x, a, r);
      if Enter(s, code, here, a, r).Exit? {
        EnterInside(s, code, here, a, r);
      }
    }
  }

  function OperandStart(s: Start, code1: Code, here1: set<nat>, free1: nat): Start {
    Start(s.env, code1, here1, free1, s.nactvar)
  }

  /** After both operands their values are where they should be. */
  ghost predicate BothAt(s: Start, code: Code, here: set<nat>, o1: Operand, o2: Operand, op: CompareOp, x: Expr,
                         y: Expr, a: Option<nat>, r: Regs) {
    var o := Enter(s, code, here, a, r);
    && o != Stuck && Agree(r, o.regs, s.free, -1)
    && Flow(s.env, Compare(op, x, y), r, Brings(s, a, r)) ==
        At(None, Bool(Holds(s.env, op, RK(o.regs, o1), RK(o.regs, o2))))
  }

  lemma Both(s: Start, code1: Code, here1: set<nat>, e1: ExpDesc, free1: nat, x: Expr,
             code2: Code, here2: set<nat>, e2: ExpDesc, y: Expr, op: CompareOp, a: Option<nat>, r: Regs)
    requires Proper(s) && s.free <= free1 && (e1.k.VNonreloc? ==> e1.info < free1)
    requires OperandOK(s, code1, here1, e1, x) && OperandOK(OperandStart(s, code1, here1, free1), code2, here2, e2, y)
    requires Scoped(y, s.nactvar) && Entry(s, a)
    ensures BothAt(s, code2, here2, OperandOf(e1), OperandOf(e2), op, x, y, a, r)
  {
    hide BothAt, Paired, Run, Enter, Sound, Scoped, Carry, Rest, Flow, RK, Agree, OperandOK, OperandAt, OperandOf,
         Brings, Holds,
      Proper, Entry;
    ProperFree(s);
    OperandSound(s, code1, here1, e1, x);
    var s2 := OperandStart(s, code1, here1, free1);
    OperandSound(s2, code2, here2, e2, y);
    OperandGives(s, code1, here1, e1, x, a, r);
    BothRuns(s, code1, here1, free1, code2, here2, a, r);
    var o := Enter(s, code1, here1, a, r);
    var a2 := EntryOf(o);
    OperandGives(s2, code2, here2, e2, y, a2, o.regs);
    var o2 := Enter(s2, code2, here2, a2, o.regs);
    BringsOf(s2, o);
    FlowAgree(s.env, y, s.nactvar, r, o.regs, s.free, Brings(s2, a2, o.regs));
    OperandKept(e1, o.regs, o2.regs, free1);
    AgreeTrans(r, o.regs, o2.regs, s.free, free1);
    BothFrom(s, code2, here2, OperandOf(e1), OperandOf(e2), op, x, y, a, r);
  }

  lemma BothFrom(s: Start, code: Code, here: set<nat>, o1: Operand, o2: Operand, op: CompareOp, x: Expr, y: Expr,
                 a: Option<nat>, r: Regs)
    requires var o, h := Enter(s, code, here, a, r), Flow(s.env, x, r, Brings(s, a, r));
             && o != Stuck && Agree(r, o.regs, s.free, -1) && RK(o.regs, o1) == Left(h)
             && RK(o.regs, o2) == Left(Flow(s.env, y, r, Rest(x, h)))
    ensures BothAt(s, code, here, o1, o2, op, x, y, a, r)
  {
    CompareFlow(s.env, op, x, y, r, Brings(s, a, r));
  }

  lemma ProperFree(s: Start)
    requires Proper(s)
    ensures s.nactvar <= s.free
  {
  }

  lemma BringsOf(s: Start, o: Outcome)
    requires o != Stuck
    ensures Brings(s, EntryOf(o), o.regs) == if o.Exit? then Carry(s.code, o.at, o.regs) else None
  {
  }

  lemma OperandSound(s: Start, code: Code, here: set<nat>, e: ExpDesc, x: Expr)
    requires OperandOK(s, code, here, e, x)
    ensures Sound(s, code, here, {}, {}) && (e.k.VNonreloc? || e.k.VK?)
  {
  }

  lemma OperandGives(s: Start, code: Code, here: set<nat>, e: ExpDesc, x: Expr, a: Option<nat>, r: Regs)
    requires OperandOK(s, code, here, e, x) && Entry(s, a)
    ensures var o, how := Enter(s, code, here, a, r), Flow(s.env, x, r, Brings(s, a, r));
            && o != Stuck && Agree(r, o.regs, s.free, -1) && RK(o.regs, OperandOf(e)) == Left(how)
            && Rest(x, how) == if o.Exit? then Carry(code, o.at, o.regs) else None
  {
    assert OperandAt(s, code, here, e, x, a, r);
  }

  lemma OperandKept(e: ExpDesc, r: Regs, r': Regs, free: nat)
    requires Agree(r, r', free, -1) && (e.k.VNonreloc? ==> e.info < free) && (e.k.VNonreloc? || e.k.VK?)
    ensures RK(r', OperandOf(e)) == RK(r, OperandOf(e))
  {
  }

  lemma AgreeTrans(r: Regs, r1: Regs, r2: Regs, n: nat, m: nat)
    requires Agree(r, r1, n, -1) && Agree(r1, r2, m, -1) && n <= m
    ensures Agree(r, r2, n, -1)
  {
  }

  /** The second operand begins where the first ended. */
  lemma BothRuns(s: Start, code1: Code, here1: set<nat>, free1: nat, code2: Code, here2: set<nat>, a: Option<nat>,
                 r: Regs)
    requires Proper(s) && s.free <= free1 && Entry(s, a)
    requires Sound(s, code1, here1, {}, {}) && Sound(OperandStart(s, code1, here1, free1), code2, here2, {}, {})
    requires Enter(s, code1, here1, a, r) != Stuck
    ensures var s2, o := OperandStart(s, code1, here1, free1), Enter(s, code1, here1, a, r);
            && Entry(s2, EntryOf(o)) && (o.Exit? ==> o.at < |code1|)
            && Enter(s, code2, here2, a, r) == Enter(s2, code2, here2, EntryOf(o), o.regs)
  {
    hide Paired, Grown, Run, Enter, Sound;
    var s2 := OperandStart(s, code1, here1, free1);
    var none: set<nat> := {};
    assert none + here1 == here1 && none + none + here2 == here2 && none + here2 == here2;
    SoundDisjoint(s, code1, here1, {}, {});
    assert Proper(s2);
    ComposeRuns(s, s2, none, code2, here2, ExpDesc(VNonreloc, 0, NO_JUMP, NO_JUMP), none, none, a, r);
  }

  lemma CompareFlow(env: Env, op: CompareOp, x: Expr, y: Expr, r: Regs, w: Option<Value>)
    ensures var h := Flow(env, x, r, w);
            Flow(env, Compare(op, x, y), r, w) ==
              At(None, Bool(Holds(env, op, Left(h), Left(Flow(env, y, r, Rest(x, h))))))
  {
  }

  /** The code of both operands. */
  lemma BothSound(s: Start, code1: Code, here1: set<nat>, free1: nat, code2: Code, here2: set<nat>)
    requires Proper(s) && Sound(s, code1, here1, {}, {})
    requires Sound(OperandStart(s, code1, here1, free1), code2, here2, {}, {})
    ensures Sound(s, code2, here2, {}, {})
  {
    hide Paired, Compatible;
    var none: set<nat> := {};
    assert none + none + none == none;
    assert Sound(SecondStart(s, code1, here1), code2, here2, none, none) by {
      var open := none + none + here2;
      forall j | j in here1 && j !in open ensures Onward(SecondStart(s, code1, here1), code2, j) {
        assert Onward(OperandStart(s, code1, here1, free1), code2, j);
      }
    }
    ComposeSound(s, code1, here1, none, code2, here2, none, none, none, none);
  }

  /** codecomp. */
  lemma CompareOK(s: Start, code1: Code, here1: set<nat>, e1: ExpDesc, free1: nat, x: Expr,
                  code2: Code, here2: set<nat>, e2: ExpDesc, y: Expr, op: CompareOp, code': Code)
    requires Proper(s) && s.free <= free1 && (e1.k.VNonreloc? ==> e1.info < free1)
    requires OperandOK(s, code1, here1, e1, x) && OperandOK(OperandStart(s, code1, here1, free1), code2, here2, e2, y)
    requires Scoped(y, s.nactvar)
    requires code' == Discharged(code2, here2) + [CompareInstr(op, OperandOf(e1), OperandOf(e2)), Jmp(NO_JUMP)]
    ensures ExpOK(s, code', {}, ExpDesc(VJmp, |code2| + 1, NO_JUMP, NO_JUMP), {}, {}, Compare(op, x, y))
  {
    hide Paired, Scoped, Discharged, CompareInstr, DenotesAt, Sound, OperandOf, OperandAt, Core;
    var o1, o2 := OperandOf(e1), OperandOf(e2);
    var e := ExpDesc(VJmp, |code2| + 1, NO_JUMP, NO_JUMP);
    CompareFires(s.env, op, o1, o2, map[]);
    BothSound(s, code1, here1, free1, code2, here2);
    TestSound(s, code2, here2, CompareInstr(op, o1, o2), code');
    forall a, r: Regs | Entry(s, a) ensures DenotesAt(s, code', {}, e, {}, {}, Compare(op, x, y), false, a, r) {
      Both(s, code1, here1, e1, free1, x, code2, here2, e2, y, op, a, r);
      CompareAt(s, code2, here2, o1, o2, x, y, op, code', a, r);
    }
  }

  /** The test and its jump after code without exits. */
  lemma TestSound(s: Start, code: Code, here: set<nat>, test: Instr, code': Code)
    requires Proper(s) && Sound(s, code, here, {}, {}) && test.IsTest()
    requires code' == Discharged(code, here) + [test, Jmp(NO_JUMP)]
    ensures Sound(s, code', {}, {}, {}) && |s.code| <= |code|
    ensures Emits(code, {}, here, code'[..|code|], {}) && code'[|code|] == test && code'[|code| + 1] == Jmp(NO_JUMP)
  {
    hide Discharged, Paired, Grown;
    var none: set<nat> := {};
    var e := ExpDesc(VNonreloc, 0, NO_JUMP, NO_JUMP);
    var d := code'[..|code|];
    assert none + none == none && none + none + none == none;
    assert d == Discharged(code, here) && d[..|code|] == d && Core(code, e) == code;
    SoundDisjoint(s, code, here, {}, {});
    CoreEmits(s, code, here, e, none, none, code', none);
    CoreEmits(s, code, here, e, none, none, d, none);
    PairedTest(test);
    PairedEmit(code, here, [test, Jmp(NO_JUMP)], code');
  }

  lemma PairedTest(test: Instr)
    ensures Paired([test, Jmp(NO_JUMP)])
  {
  }

  lemma CompareAt(s: Start, code2: Code, here2: set<nat>, o1: Operand, o2: Operand, x: Expr, y: Expr, op: CompareOp,
                  code': Code, a: Option<nat>, r: Regs)
    requires BothAt(s, code2, here2, o1, o2, op, x, y, a, r)
    requires |code'| == |code2| + 2 && Emits(code2, {}, here2, code'[..|code2|], {})
    requires code'[|code2|] == CompareInstr(op, o1, o2)
    ensures DenotesAt(s, code', {}, ExpDesc(VJmp, |code2| + 1, NO_JUMP, NO_JUMP), {}, {}, Compare(op, x, y), false, a,
                      r)
  {
    hide Emits, CompareInstr, Discharged, Agree, Enter, Flow, Fires, Run, RK;
    var none: set<nat> := {};
    assert none + none + none == none && none + here2 == here2;
    var d := code'[..|code2|];
    EnterEmitted(s, code2, none, here2, d, none, a, r);
    var o := Enter(s, code2, here2, a, r);
    RunAtEnd(s.env, d, o.regs);
    CompareFires(s.env, op, o1, o2, o.regs);
  }

  lemma RunAtEnd(env: Env, code: Code, r: Regs)
    ensures Run(env, code, {}, |code|, r) == End(r)
  {
  }
}
