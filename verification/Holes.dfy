/**
 Running code whose patch lists are still open. While an expression is being compiled, some jumps have no destination
 yet: those in its lists of true and false exits, and those waiting in `jpc` for the next instruction.  Run gives such
 code a meaning: it stops at an open jump, and says which.
 */
module Holes {
  import opened LuaVM

  datatype Outcome = Exit(at: nat, regs: Regs) | End(regs: Regs) | Stuck

  /** The registers after the test before the jump at j has fired: a TESTSET copies its value. */
  function Taken(code: Code, j: nat, r: Regs): Regs
    requires j < |code|
  {
    if j > 0 && code[j - 1].TestSet? then r[code[j - 1].a := Get(r, code[j - 1].b)] else r
  }

  /** Take the jump at j; h are the open jumps. */
  function Take(env: Env, code: Code, h: set<nat>, j: nat, r: Regs): Outcome
    requires j < |code| && code[j].Jmp?
    decreases |code| - j, 0
  {
    if j in h then Exit(j, r)
    else
      var target := j + 1 + code[j].sbx;
      if j < target <= |code| then Run(env, code, h, target, Taken(code, j, r)) else Stuck
  }

  function Run(env: Env, code: Code, h: set<nat>, pc: nat, r: Regs): Outcome
    decreases |code| - pc, 1
  {
    if pc == |code| then End(r)
    else if pc > |code| then Stuck
    else
      match code[pc]
      case Move(a, b) => Run(env, code, h, pc + 1, r[a := Get(r, b)])
      case LoadK(a, v) => Run(env, code, h, pc + 1, r[a := v])
      case LoadBool(a, v, skip) => Run(env, code, h, if skip then pc + 2 else pc + 1, r[a := Bool(v)])
      case GetUpval(a, b) => Run(env, code, h, pc + 1, r[a := env.upvals(b)])
      case Not(a, b) => Run(env, code, h, pc + 1, r[a := Bool(IsFalse(Get(r, b)))])
      case Next(_) => Run(env, code, h, pc + 1, r)
      case Jmp(_) => if pc > 0 && code[pc - 1].IsTest() then Stuck else Take(env, code, h, pc, r)
      case _ =>
        if !Fires(env, code[pc], r) then Run(env, code, h, pc + 2, r)
        else if pc + 1 < |code| && code[pc + 1].Jmp? then Take(env, code, h, pc + 1, r)
        else Stuck
  }

  /** Without holes, a run to the end is what the virtual machine does. */
  lemma {:induction false} RunIsExecution(env: Env, code: Code, pc: nat, r: Regs)
    requires Run(env, code, {}, pc, r).End?
    ensures Executes(env, code, pc, r, |code|, Run(env, code, {}, pc, r).regs)
    decreases |code| - pc
  {
    var m := Machine(pc, r);
    var last := Machine(|code|, Run(env, code, {}, pc, r).regs);
    if pc == |code| {
      assert Steps(env, code, m, 0) == last;
    } else {
      var m1 := Step(env, code, m);
      if code[pc].Jmp? {
        assert Run(env, code, {}, pc, r) == Take(env, code, {}, pc, r);
      } else if code[pc].IsTest() && Fires(env, code[pc], r) {
        assert Run(env, code, {}, pc, r) == Take(env, code, {}, pc + 1, r);
      }
      assert pc < m1.pc <= |code| && Run(env, code, {}, m1.pc, m1.regs) == Run(env, code, {}, pc, r);
      RunIsExecution(env, code, m1.pc, m1.regs);
      var n: nat :| Steps(env, code, m1, n) == last;
      assert Steps(env, code, m, n + 1) == last;
    }
  }

  /** The same from a jump whose test has fired. */
  lemma TakeIsExecution(env: Env, code: Code, j: nat, r: Regs)
    requires j < |code| && code[j].Jmp? && Take(env, code, {}, j, r).End?
    ensures Executes(env, code, j, Taken(code, j, r), |code|, Take(env, code, {}, j, r).regs)
  {
    var r' := Taken(code, j, r);
    var last := Machine(|code|, Take(env, code, {}, j, r).regs);
    RunIsExecution(env, code, j + 1 + code[j].sbx, r');
    var n: nat :| Steps(env, code, Machine(j + 1 + code[j].sbx, r'), n) == last;
    assert Steps(env, code, Machine(j, r'), n + 1) == last;
  }

  // ---- Filling holes, and growing the code ----

  /** What instruction p of c1 has become in c2: only holes, and the TESTSETs that control them, change. */
  predicate Kept(c1: Code, h1: set<nat>, c2: Code, h2: set<nat>, p: nat)
    requires p < |c1| <= |c2|
  {
    match c1[p]
    case Jmp(_) => c2[p].Jmp? && (p !in h1 ==> c2[p] == c1[p] && p !in h2)
    case TestSet(_, b, flag) =>
      if p + 1 in h1 then c2[p] == Test(b, flag) || (c2[p].TestSet? && c2[p].b == b && c2[p].flag == flag)
      else c2[p] == c1[p]
    case _ => c2[p] == c1[p]
  }

  ghost predicate Compatible(c1: Code, h1: set<nat>, c2: Code, h2: set<nat>) {
    |c1| <= |c2| && forall p :: 0 <= p < |c1| ==> Kept(c1, h1, c2, h2, p)
  }

  /** How c2 goes on from an outcome of c1. */
  function Continue(env: Env, c1: Code, c2: Code, h2: set<nat>, o: Outcome): Outcome {
    match o
    case End(r) => Run(env, c2, h2, |c1|, r)
    case Exit(j, r) => if j < |c2| && c2[j].Jmp? then Take(env, c2, h2, j, r) else Stuck
    case Stuck => Stuck
  }

  /** Filling holes and adding code does not disturb a run: it goes on from where it stopped. */
  lemma {:induction false} Extend(env: Env, c1: Code, h1: set<nat>, c2: Code, h2: set<nat>, pc: nat, r: Regs)
    requires Compatible(c1, h1, c2, h2) && Run(env, c1, h1, pc, r) != Stuck
    ensures Run(env, c2, h2, pc, r) == Continue(env, c1, c2, h2, Run(env, c1, h1, pc, r))
    decreases |c1| - pc, 1
  {
    if pc < |c1| {
      assert Kept(c1, h1, c2, h2, pc);
      match c1[pc]
      case Move(a, b) => Extend(env, c1, h1, c2, h2, pc + 1, r[a := Get(r, b)]);
      case LoadK(a, v) => Extend(env, c1, h1, c2, h2, pc + 1, r[a := v]);
      case LoadBool(a, v, skip) => Extend(env, c1, h1, c2, h2, if skip then pc + 2 else pc + 1, r[a := Bool(v)]);
      case GetUpval(a, b) => Extend(env, c1, h1, c2, h2, pc + 1, r[a := env.upvals(b)]);
      case Not(a, b) => Extend(env, c1, h1, c2, h2, pc + 1, r[a := Bool(IsFalse(Get(r, b)))]);
      case Next(_) => Extend(env, c1, h1, c2, h2, pc + 1, r);
      case Jmp(_) =>
        assert pc > 0 ==> Kept(c1, h1, c2, h2, pc - 1);
        ExtendTake(env, c1, h1, c2, h2, pc, r);
      case _ =>
        if !Fires(env, c1[pc], r) {
          Extend(env, c1, h1, c2, h2, pc + 2, r);
        } else {
          assert Kept(c1, h1, c2, h2, pc + 1);
          ExtendTake(env, c1, h1, c2, h2, pc + 1, r);
        }
    }
  }

  /** The same for a jump. */
  lemma {:induction false} ExtendTake(env: Env, c1: Code, h1: set<nat>, c2: Code, h2: set<nat>, j: nat, r: Regs)
    requires Compatible(c1, h1, c2, h2) && j < |c1| && c1[j].Jmp? && c2[j].Jmp?
    requires Take(env, c1, h1, j, r) != Stuck
    ensures Take(env, c2, h2, j, r) == Continue(env, c1, c2, h2, Take(env, c1, h1, j, r))
    decreases |c1| - j, 0
  {
    assert Kept(c1, h1, c2, h2, j);
    if j !in h1 {
      assert j > 0 ==> Kept(c1, h1, c2, h2, j - 1);
      assert Taken(c2, j, r) == Taken(c1, j, r);
      Extend(env, c1, h1, c2, h2, j + 1 + c1[j].sbx, Taken(c1, j, r));
    }
  }

  /** Holes before the program counter do not matter: every jump goes forward. */
  lemma {:induction false} RunForward(env: Env, code: Code, h: set<nat>, h': set<nat>, pc: nat, r: Regs)
    requires forall j :: j >= pc ==> (j in h <==> j in h')
    ensures Run(env, code, h, pc, r) == Run(env, code, h', pc, r)
    decreases |code| - pc, 1
  {
    if pc < |code| {
      match code[pc]
      case Move(a, b) => RunForward(env, code, h, h', pc + 1, r[a := Get(r, b)]);
      case LoadK(a, v) => RunForward(env, code, h, h', pc + 1, r[a := v]);
      case LoadBool(a, v, skip) => RunForward(env, code, h, h', if skip then pc + 2 else pc + 1, r[a := Bool(v)]);
      case GetUpval(a, b) => RunForward(env, code, h, h', pc + 1, r[a := env.upvals(b)]);
      case Not(a, b) => RunForward(env, code, h, h', pc + 1, r[a := Bool(IsFalse(Get(r, b)))]);
      case Next(_) => RunForward(env, code, h, h', pc + 1, r);
      case Jmp(_) => TakeForward(env, code, h, h', pc, r);
      case _ =>
        RunForward(env, code, h, h', pc + 2, r);
        if pc + 1 < |code| && code[pc + 1].Jmp? {
          TakeForward(env, code, h, h', pc + 1, r);
        }
    }
  }

  lemma {:induction false} TakeForward(env: Env, code: Code, h: set<nat>, h': set<nat>, j: nat, r: Regs)
    requires j < |code| && code[j].Jmp? && (j in h <==> j in h')
    requires forall i :: i > j && i >= j + 1 + code[j].sbx ==> (i in h <==> i in h')
    ensures Take(env, code, h, j, r) == Take(env, code, h', j, r)
    decreases |code| - j, 0
  {
    if j < j + 1 + code[j].sbx <= |code| {
      RunForward(env, code, h, h', j + 1 + code[j].sbx, Taken(code, j, r));
    }
  }

  /** A run stops at an open jump. */
  lemma {:induction false} ExitInside(env: Env, code: Code, h: set<nat>, pc: nat, r: Regs)
    requires Run(env, code, h, pc, r).Exit?
    ensures var o := Run(env, code, h, pc, r); o.at in h && pc <= o.at < |code| && code[o.at].Jmp?
    decreases |code| - pc, 1
  {
    if pc < |code| {
      match code[pc]
      case Move(a, b) => ExitInside(env, code, h, pc + 1, r[a := Get(r, b)]);
      case LoadK(a, v) => ExitInside(env, code, h, pc + 1, r[a := v]);
      case LoadBool(a, v, skip) => ExitInside(env, code, h, if skip then pc + 2 else pc + 1, r[a := Bool(v)]);
      case GetUpval(a, b) => ExitInside(env, code, h, pc + 1, r[a := env.upvals(b)]);
      case Not(a, b) => ExitInside(env, code, h, pc + 1, r[a := Bool(IsFalse(Get(r, b)))]);
      case Next(_) => ExitInside(env, code, h, pc + 1, r);
      case Jmp(_) => TakeInside(env, code, h, pc, r);
      case _ =>
        if !Fires(env, code[pc], r) {
          ExitInside(env, code, h, pc + 2, r);
        } else {
          TakeInside(env, code, h, pc + 1, r);
        }
    }
  }

  lemma {:induction false} TakeInside(env: Env, code: Code, h: set<nat>, j: nat, r: Regs)
    requires j < |code| && code[j].Jmp? && Take(env, code, h, j, r).Exit?
    ensures var o := Take(env, code, h, j, r); o.at in h && j <= o.at < |code| && code[o.at].Jmp?
    decreases |code| - j, 0
  {
    if j !in h {
      ExitInside(env, code, h, j + 1 + code[j].sbx, Taken(code, j, r));
    }
  }
}
