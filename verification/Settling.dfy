/** exp2reg: every exit of an expression is given a destination, and the value is in one register. */
module Settling {
  import opened Base
  import opened LuaVM
  import opened Logic
  import opened Holes
  import opened Patches
  import opened Denote
  import opened Compile
  import opened ShortCircuit
  import opened Negate

  /** The code `code + tail` with the exits patched: those that carry a value go to its end. */
  function Settled(code: Code, tail: Code, t: set<nat>, f: set<nat>, reg: nat, pf: int, pt: int): (r: Code)
    ensures |r| == |code| + |tail|
  {
    var c := code + tail;
    Patched(Patched(c, f, |c|, reg, pf), t, |c|, reg, pt)
  }

  /** The instruction at p of the settled code. */
  function SettledInstr(c: Code, t: set<nat>, f: set<nat>, reg: nat, pf: int, pt: int, p: nat): Instr
    requires p < |c|
  {
    if p in t then Jmp((if CarriesValue(c, p) then |c| else pt) - (p + 1))
    else if p in f then Jmp((if CarriesValue(c, p) then |c| else pf) - (p + 1))
    else if (p + 1 in t || p + 1 in f) && c[p].TestSet? then PatchTestReg(c[p], reg)
    else c[p]
  }

  lemma SettledAt(code: Code, tail: Code, t: set<nat>, f: set<nat>, reg: nat, pf: int, pt: int, p: nat)
    requires t !! f && p < |code| + |tail|
    requires forall j :: j in t || j in f ==> j < |code| && code[j].Jmp?
    ensures Settled(code, tail, t, f, reg, pf, pt)[p] == SettledInstr(code + tail, t, f, reg, pf, pt, p)
  {
    var c := code + tail;
    var m := Patched(c, f, |c|, reg, pf);
    if p > 0 {
      assert p in t ==> m[p - 1].TestSet? == c[p - 1].TestSet?;
    }
    assert p + 1 in t ==> m[p] == if p in f then m[p] else c[p];
  }

  /** The end of the code, where the exits without a value find it loaded. */
  ghost predicate Landing(code: Code, t: set<nat>, f: set<nat>, tail: Code, here: set<nat>, here': set<nat>,
                          reg: nat, pf: int, pt: int) {
    var n := |code|;
    var load := [LoadBool(reg, false, true), LoadBool(reg, true, false)];
    || (tail == [] && here' == here && forall j :: j in t || j in f ==> CarriesValue(code, j))
    || (|tail| == 3 && tail[0].Jmp? && tail[1..] == load && here' == here + {n} && pf == n + 1 && pt == n + 2)
    || (tail == load && here == here' == {} && pf == n && pt == n + 1)
  }

  /** What an exit stands for. */
  function ExitValue(code: Code, t: set<nat>, j: nat, r: Regs): Value { Left(Out(j in t, Carry(code, j, r))) }

  /** An exit, once patched, leads to the end with the value in the register. */
  lemma ExitSettles(s: Start, code: Code, t: set<nat>, f: set<nat>, tail: Code, here: set<nat>, here': set<nat>,
                    reg: nat, pf: int, pt: int, j: nat, r: Regs)
    requires Sound(s, code, here, t, f) && Landing(code, t, f, tail, here, here', reg, pf, pt) && reg < NO_REG
    requires j in t || j in f
    ensures var c := Settled(code, tail, t, f, reg, pf, pt);
            j < |c| && c[j].Jmp?
            && var o := Take(s.env, c, here', j, r);
               o.End? && Get(o.regs, reg) == ExitValue(code, t, j, r) && Agree(r, o.regs, s.free, reg)
  {
    hide Paired, Settled, Sound;
    var c := Settled(code, tail, t, f, reg, pf, pt);
    SoundDisjoint(s, code, here, t, f);
    SettledAt(code, tail, t, f, reg, pf, pt, j);
    assert j !in here';
    if CarriesValue(code, j) {
      SettledAt(code, tail, t, f, reg, pf, pt, j - 1);
      assert (code + tail)[j - 1] == code[j - 1] && j - 1 !in t && j - 1 !in f;
      var r' := Taken(c, j, r);
      assert Take(s.env, c, here', j, r) == Run(s.env, c, here', |c|, r') == End(r');
    } else {
      NotCarried(code, tail, t, f, reg, pf, pt, j);
      LoadsBool(s, code, t, f, tail, here, here', reg, pf, pt, r);
      assert Take(s.env, c, here', j, r) == Run(s.env, c, here', if j in t then pt else pf, r);
    }
  }

  lemma NotCarried(code: Code, tail: Code, t: set<nat>, f: set<nat>, reg: nat, pf: int, pt: int, j: nat)
    requires t !! f && (j in t || j in f) && !CarriesValue(code, j)
    requires forall j :: j in t || j in f ==> j < |code| && code[j].Jmp?
    ensures j > 0 ==> !Settled(code, tail, t, f, reg, pf, pt)[j - 1].TestSet?
    ensures CarriesValue(code + tail, j) == CarriesValue(code, j)
  {
    if j > 0 {
      SettledAt(code, tail, t, f, reg, pf, pt, j - 1);
    }
  }

  lemma LoadsBool(s: Start, code: Code, t: set<nat>, f: set<nat>, tail: Code, here: set<nat>, here': set<nat>,
                  reg: nat, pf: int, pt: int, r: Regs)
    requires Landing(code, t, f, tail, here, here', reg, pf, pt) && t !! f && |tail| >= 2
    requires forall j :: j in t || j in f ==> j < |code| && code[j].Jmp?
    ensures var c := Settled(code, tail, t, f, reg, pf, pt);
            && |code| <= pf == |c| - 2 && pt == |c| - 1
            && Run(s.env, c, here', pf, r) == End(r[reg := Bool(false)])
            && Run(s.env, c, here', pt, r) == End(r[reg := Bool(true)])
  {
    hide Settled;
    SettledAt(code, tail, t, f, reg, pf, pt, pf);
    SettledAt(code, tail, t, f, reg, pf, pt, pt);
    assert |tail| == 3 ==> tail[1] == tail[1..][0] && tail[2] == tail[1..][1];
  }

  /** The end of the code. */
  lemma EndSettles(env: Env, code: Code, t: set<nat>, f: set<nat>, tail: Code, here: set<nat>, here': set<nat>,
                   reg: nat, pf: int, pt: int, r: Regs)
    requires Landing(code, t, f, tail, here, here', reg, pf, pt) && t !! f && Paired(code)
    requires forall j: nat :: j in t || j in f || j in here ==> j < |code| && code[j].Jmp?
    ensures Run(env, Settled(code, tail, t, f, reg, pf, pt), here', |code|, r) ==
            if |tail| == 3 then Exit(|code|, r) else if |tail| == 2 then End(r[reg := Bool(false)]) else End(r)
  {
    hide Settled;
    var n := |code|;
    var c := Settled(code, tail, t, f, reg, pf, pt);
    if |tail| == 3 {
      SettledAt(code, tail, t, f, reg, pf, pt, n);
      assert c[n] == tail[0];
      if n > 0 {
        SettledAt(code, tail, t, f, reg, pf, pt, n - 1);
        assert !code[n - 1].IsTest();
        assert !c[n - 1].IsTest();
      }
      assert Run(env, c, here', n, r) == Take(env, c, here', n, r);
    } else if |tail| == 2 {
      SettledAt(code, tail, t, f, reg, pf, pt, n);
      assert c[n] == LoadBool(reg, false, true);
      assert Run(env, c, here', n, r) == Run(env, c, here', n + 2, r[reg := Bool(false)]);
    }
  }

  lemma SettledCompatible(code: Code, t: set<nat>, f: set<nat>, tail: Code, here: set<nat>, here': set<nat>,
                          reg: nat, pf: int, pt: int)
    requires Landing(code, t, f, tail, here, here', reg, pf, pt) && t !! f && t !! here && f !! here && Paired(code)
    requires forall j: nat :: j in t || j in f || j in here ==> j < |code| && code[j].Jmp?
    ensures Compatible(code, t + f + here, Settled(code, tail, t, f, reg, pf, pt), here')
  {
    hide Settled;
    var c := Settled(code, tail, t, f, reg, pf, pt);
    forall p | 0 <= p < |code| ensures Kept(code, t + f + here, c, here', p) {
      SettledAt(code, tail, t, f, reg, pf, pt, p);
    }
  }

  /** Before the exits are settled: at the end the value is in the register, or it is false. */
  ghost predicate ReadyAt(s: Start, code: Code, here: set<nat>, reg: nat, t: set<nat>, f: set<nat>, isFalse: bool,
                          x: Expr, a: Option<nat>, r: Regs) {
    var v := Delivered(s.env, x, r, Brings(s, a, r));
    match Enter(s, code, t + f + here, a, r)
    case Stuck => false
    case End(r') => Agree(r, r', s.free, reg) && if isFalse then v == Bool(false) else Get(r', reg) == v
    case Exit(j, r') =>
      if j in here then Agree(r, r', s.free, reg) && Get(r', reg) == v
      else Agree(r, r', s.free, -1) && v == ExitValue(code, t, j, r')
  }

  lemma SettleAt(s: Start, code: Code, t: set<nat>, f: set<nat>, tail: Code, here: set<nat>, here': set<nat>,
                 reg: nat, pf: int, pt: int, x: Expr, a: Option<nat>, r: Regs)
    requires Sound(s, code, here, t, f) && Landing(code, t, f, tail, here, here', reg, pf, pt) && reg < NO_REG
    requires ReadyAt(s, code, here, reg, t, f, |tail| == 2, x, a, r)
    ensures HeldAt(s, Settled(code, tail, t, f, reg, pf, pt), here', reg, x, a, r)
  {
    hide Settled, Run, Compatible, Delivered, Enter, ExitValue, Sound, Paired, Brings;
    var c := Settled(code, tail, t, f, reg, pf, pt);
    var open := t + f + here;
    SoundDisjoint(s, code, here, t, f);
    SettledCompatible(code, t, f, tail, here, here', reg, pf, pt);
    EnterExtends(s, code, open, c, here', a, r);
    var o := Enter(s, code, open, a, r);
    if o.Exit? {
      EnterInside(s, code, open, a, r);
      if o.at in here {
        StillJump(code, open, c, here', o.at);
        TakeExit(s.env, c, here', o.at, o.regs);
      } else {
        ExitSettles(s, code, t, f, tail, here, here', reg, pf, pt, o.at, o.regs);
      }
    } else {
      EndSettles(s.env, code, t, f, tail, here, here', reg, pf, pt, o.regs);
    }
  }

  lemma StillJump(c1: Code, h1: set<nat>, c2: Code, h2: set<nat>, j: nat)
    requires Compatible(c1, h1, c2, h2) && j < |c1| && c1[j].Jmp?
    ensures j < |c2| && c2[j].Jmp?
  {
    assert Kept(c1, h1, c2, h2, j);
  }

  lemma SettledSound(s: Start, code: Code, t: set<nat>, f: set<nat>, tail: Code, here: set<nat>, here': set<nat>,
                     reg: nat, pf: int, pt: int)
    requires Proper(s) && Sound(s, code, here, t, f) && Landing(code, t, f, tail, here, here', reg, pf, pt)
    ensures Sound(s, Settled(code, tail, t, f, reg, pf, pt), here', {}, {})
  {
    hide Settled, Compatible;
    var c := Settled(code, tail, t, f, reg, pf, pt);
    var open := t + f + here;
    assert {} + {} + here' == here';
    SoundDisjoint(s, code, here, t, f);
    SettledCompatible(code, t, f, tail, here, here', reg, pf, pt);
    CompatibleTrans(s.code, s.here, code, open, c, here');
    forall p | 0 <= p < |c| && c[p].IsTest() ensures p + 1 < |c| && c[p + 1].Jmp? {
      SettledTest(code, t, f, tail, here, here', reg, pf, pt, p);
    }
    forall j | j in s.here && j !in here' ensures Onward(s, c, j) {
      if j in t || j in f {
        SettledAt(code, tail, t, f, reg, pf, pt, j);
        NotCarriedAt(code, tail, j);
      } else {
        assert Onward(s, code, j);
        KeptJump(code, open, c, here', j);
      }
    }
    forall j | j in here' ensures j < |c| && c[j].Jmp? && (j >= |s.code| || j in s.here) {
      SettledAt(code, tail, t, f, reg, pf, pt, j);
    }
  }

  lemma NotCarriedAt(code: Code, tail: Code, j: nat)
    requires j < |code|
    ensures CarriesValue(code + tail, j) == CarriesValue(code, j)
  {
  }

  lemma SettledTest(code: Code, t: set<nat>, f: set<nat>, tail: Code, here: set<nat>, here': set<nat>,
                    reg: nat, pf: int, pt: int, p: nat)
    requires Landing(code, t, f, tail, here, here', reg, pf, pt) && Paired(code) && t !! f
    requires forall j: nat :: j in t || j in f ==> j < |code| && code[j].Jmp?
    requires var c := Settled(code, tail, t, f, reg, pf, pt); p < |c| && c[p].IsTest()
    ensures var c := Settled(code, tail, t, f, reg, pf, pt); p + 1 < |c| && c[p + 1].Jmp?
  {
    hide Settled;
    SettledAt(code, tail, t, f, reg, pf, pt, p);
    if |tail| == 3 {
      assert tail[1] == tail[1..][0] && tail[2] == tail[1..][1];
    }
    assert p < |code| && code[p].IsTest();
    SettledAt(code, tail, t, f, reg, pf, pt, p + 1);
  }

  /** exp2reg, when the value of the last operand is in its register. */
  lemma SettleLoaded(s: Start, code: Code, t: set<nat>, f: set<nat>, tail: Code, here: set<nat>, here': set<nat>,
                     reg: nat, pf: int, pt: int, x: Expr)
    requires Proper(s) && Loaded(s, code, here, reg, t, f, x) && reg < NO_REG
    requires Landing(code, t, f, tail, here, here', reg, pf, pt) && |tail| != 2
    ensures Held(s, Settled(code, tail, t, f, reg, pf, pt), here', reg, x)
  {
    hide Settled, Landing, Sound, LoadedAt, HeldAt;
    SettledSound(s, code, t, f, tail, here, here', reg, pf, pt);
    var c := Settled(code, tail, t, f, reg, pf, pt);
    forall a, r: Regs | Entry(s, a) ensures HeldAt(s, c, here', reg, x, a, r) {
      assert LoadedAt(s, code, here, reg, t, f, x, a, r);
      LoadedReady(s, code, here, reg, t, f, x, a, r);
      SettleAt(s, code, t, f, tail, here, here', reg, pf, pt, x, a, r);
    }
  }

  lemma LoadedReady(s: Start, code: Code, here: set<nat>, reg: nat, t: set<nat>, f: set<nat>, x: Expr, a: Option<nat>,
                    r: Regs)
    requires LoadedAt(s, code, here, reg, t, f, x, a, r)
    ensures ReadyAt(s, code, here, reg, t, f, false, x, a, r)
  {
    hide Enter, Flow, Carry, Agree;
  }

  /** Without exits there is nothing to settle. */
  lemma LoadedHeld(s: Start, code: Code, here: set<nat>, reg: nat, x: Expr)
    requires Loaded(s, code, here, reg, {}, {}, x)
    ensures Held(s, code, here, reg, x)
  {
    hide Enter, Flow, Carry, Agree, Sound;
    assert {} + {} + here == here;
    forall a, r: Regs | Entry(s, a) ensures HeldAt(s, code, here, reg, x, a, r) {
      assert LoadedAt(s, code, here, reg, {}, {}, x, a, r);
      if Enter(s, code, here, a, r).Exit? {
        EnterInside(s, code, here, a, r);
      }
    }
  }

  /** exp2reg of a comparison: its own jump joins the true exits. */
  lemma SettleJump(s: Start, code: Code, here: set<nat>, e: ExpDesc, t: set<nat>, f: set<nat>, x: Expr, code1: Code,
                   reg: nat)
    requires Proper(s) && Ends(s, code, here, e, t, f, x, false) && e.k.VJmp? && reg < NO_REG
    requires Relinked(code, code1, t)
    ensures var load := [LoadBool(reg, false, true), LoadBool(reg, true, false)];
            Held(s, Settled(code1, load, t + {e.info}, f, reg, |code1|, |code1| + 1), {}, reg, x)
  {
    hide Settled, Landing, Sound, Denotes, ReadyAt, HeldAt, DenotesAt, Relinked, CoreOK;
    var load := [LoadBool(reg, false, true), LoadBool(reg, true, false)];
    var t' := t + {e.info};
    RelinkEnds(s, code, code1, here, e, t, f, x, t);
    JumpSound(s, code1, here, e, t, f);
    JumpLanding(code1, t', f, load, reg);
    SettledSound(s, code1, t', f, load, {}, {}, reg, |code1|, |code1| + 1);
    var c := Settled(code1, load, t', f, reg, |code1|, |code1| + 1);
    forall a, r: Regs | Entry(s, a) ensures HeldAt(s, c, {}, reg, x, a, r) {
      JumpReady(s, code1, here, e, t, f, x, reg, a, r);
      SettleAt(s, code1, t', f, load, {}, {}, reg, |code1|, |code1| + 1, x, a, r);
    }
  }

  lemma JumpSound(s: Start, code: Code, here: set<nat>, e: ExpDesc, t: set<nat>, f: set<nat>)
    requires Proper(s) && Sound(s, code, here, t, f) && CoreOK(s, code, here, e, t, f) && e.k.VJmp?
    ensures Sound(s, code, {}, t + {e.info}, f) && here == {}
  {
    hide Paired;
    var open, open' := t + f + here, t + {e.info} + f + {};
    assert open' == open + {e.info};
    forall p | 0 <= p < |s.code| ensures Kept(s.code, s.here, code, open', p) {
      assert Kept(s.code, s.here, code, open, p);
    }
    forall j | j in s.here && j !in open' ensures Onward(s, code, j) {
      assert j !in open;
    }
    forall j | j in open' ensures j < |code| && code[j].Jmp? && (j >= |s.code| || j in s.here) {
      assert j == e.info || j in open;
    }
  }

  lemma JumpLanding(code: Code, t: set<nat>, f: set<nat>, load: Code, reg: nat)
    requires load == [LoadBool(reg, false, true), LoadBool(reg, true, false)]
    ensures Landing(code, t, f, load, {}, {}, reg, |code|, |code| + 1)
  {
  }

  lemma JumpReady(s: Start, code: Code, here: set<nat>, e: ExpDesc, t: set<nat>, f: set<nat>, x: Expr, reg: nat,
                  a: Option<nat>, r: Regs)
    requires Proper(s) && Ends(s, code, here, e, t, f, x, false) && e.k.VJmp? && Entry(s, a)
    ensures ReadyAt(s, code, {}, reg, t + {e.info}, f, true, x, a, r)
  {
    hide Paired, Sound, Enter, Flow, Run;
    var c, h2 := Core(code, e), t + {e.info} + f + {};
    assert here == {} && t + f + here == t + f && h2 == t + f + {e.info};
    assert DenotesAt(s, code, here, e, t, f, x, false, a, r);
    SoundDisjoint(s, code, here, t, f);
    assert forall p: nat :: p < |c| ==> code[p] == c[p];
    forall p | 0 <= p < |c| ensures Kept(c, t + f, code, h2, p) {
    }
    EnterExtends(s, c, t + f, code, h2, a, r);
    var o := Enter(s, c, t + f, a, r);
    if o.Exit? {
      EnterInside(s, c, t + f, a, r);
      TakeExit(s.env, code, h2, o.at, o.regs);
    } else {
      TestAndJump(s.env, code, h2, code[e.info - 1], o.regs);
    }
  }

  lemma LandingOK(code: Code, t: set<nat>, f: set<nat>, tail: Code, here: set<nat>, here': set<nat>,
                  reg: nat, pf: int, pt: int)
    requires var n := |code|;
             var load := [LoadBool(reg, false, true), LoadBool(reg, true, false)];
             || (tail == [] && here' == here && forall j :: j in t || j in f ==> CarriesValue(code, j))
             || (|tail| == 3 && tail[0].Jmp? && tail[1..] == load && here' == here + {n} && pf == n + 1 && pt == n + 2)
    ensures Landing(code, t, f, tail, here, here', reg, pf, pt)
  {
  }

  /** None of the jumps carries a value. */
  ghost predicate NoValues(code: Code, here: set<nat>) { forall j :: j in here ==> !CarriesValue(code, j) }

  /** If no jump waited, none waits with a value. */
  lemma SettledNoValues(code: Code, t: set<nat>, f: set<nat>, tail: Code, here: set<nat>, here': set<nat>,
                        reg: nat, pf: int, pt: int)
    requires Landing(code, t, f, tail, here, here', reg, pf, pt) && here == {} && t !! f && Paired(code)
    requires forall j :: j in t || j in f ==> j < |code| && code[j].Jmp?
    ensures NoValues(Settled(code, tail, t, f, reg, pf, pt), here')
  {
    hide Settled;
    var n := |code|;
    if n in here' && n > 0 {
      LastNoTest(code);
      SettledAt(code, tail, t, f, reg, pf, pt, n - 1);
    }
  }

  // ---- The whole statement ----

  /** The virtual machine runs from the entry to the end of the code. */
  ghost predicate Reaches(s: Start, code: Code, a: Option<nat>, r: Regs, r': Regs) {
    match a
    case None => Executes(s.env, code, |s.code|, r, |code|, r')
    case Some(j) => j < |code| && Executes(s.env, code, j, Taken(code, j, r), |code|, r')
  }

  /** The machine leaves v in `reg`, and changes no other register in use. */
  ghost predicate Leaves(s: Start, code: Code, reg: nat, a: Option<nat>, r: Regs, v: Value) {
    exists r' :: Reaches(s, code, a, r, r') && Agree(r, r', s.free, reg) && Get(r', reg) == v
  }

  /** The machine leaves in `reg` what Flow says. */
  ghost predicate Computed(s: Start, code: Code, reg: nat, x: Expr, a: Option<nat>, r: Regs) {
    Leaves(s, code, reg, a, r, Delivered(s.env, x, r, Brings(s, a, r)))
  }

  lemma Finished(s: Start, code: Code, here: set<nat>, reg: nat, x: Expr, id: nat, code': Code, a: Option<nat>, r: Regs)
    requires Proper(s) && Sound(s, code, here, {}, {}) && HeldAt(s, code, here, reg, x, a, r)
    requires code' == Discharged(code, here) + [Next(id)]
    ensures Computed(s, code', reg, x, a, r)
  {
    hide Sound, Enter, Delivered, Discharged, Agree, Run, Take, Emits, Executes;
    var none: set<nat> := {};
    assert none + none == none && none + here == here;
    EmitOne(s, code, here, none, none, Next(id), code');
    EnterEmitted(s, code, none, here, code', none, a, r);
    var o := Enter(s, code, here, a, r);
    RunOne(s.env, code', none, Next(id), o.regs);
    assert Enter(s, code', {}, a, r) == End(o.regs);
    FinishedReaches(s, code', a, r, o.regs);
  }

  lemma FinishedReaches(s: Start, code: Code, a: Option<nat>, r: Regs, r': Regs)
    requires Enter(s, code, {}, a, r) == End(r')
    ensures Reaches(s, code, a, r, r')
  {
    match a
    case None => RunIsExecution(s.env, code, |s.code|, r);
    case Some(j) => TakeIsExecution(s.env, code, j, r);
  }

  // ---- When the machine leaves the right value ----

  /** At the end of the code the machine stops. */
  lemma {:induction false} StepsStop(env: Env, code: Code, m: Machine, n: nat, k: nat)
    requires Steps(env, code, m, n).pc == |code| && n <= k
    ensures Steps(env, code, m, k) == Steps(env, code, m, n)
    decreases n
  {
    if n > 0 && 0 <= m.pc < |code| {
      StepsStop(env, code, Step(env, code, m), n - 1, k - 1);
    }
  }

  /** There is only one value that the machine leaves. */
  lemma LeavesOnce(s: Start, code: Code, reg: nat, a: Option<nat>, r: Regs, v: Value, v': Value)
    requires Leaves(s, code, reg, a, r, v) && Leaves(s, code, reg, a, r, v')
    ensures v == v'
  {
    hide Agree, Steps;
    var r1 :| Reaches(s, code, a, r, r1) && Agree(r, r1, s.free, reg) && Get(r1, reg) == v;
    var r2 :| Reaches(s, code, a, r, r2) && Agree(r, r2, s.free, reg) && Get(r2, reg) == v';
    match a
    case None => ExecutesOnce(s.env, code, |s.code|, r, r1, r2);
    case Some(j) => ExecutesOnce(s.env, code, j, Taken(code, j, r), r1, r2);
  }

  lemma ExecutesOnce(env: Env, code: Code, pc: int, r: Regs, r1: Regs, r2: Regs)
    requires Executes(env, code, pc, r, |code|, r1) && Executes(env, code, pc, r, |code|, r2)
    ensures r1 == r2
  {
    hide Steps;
    var n: nat :| Steps(env, code, Machine(pc, r), n) == Machine(|code|, r1);
    var k: nat :| Steps(env, code, Machine(pc, r), k) == Machine(|code|, r2);
    if n <= k {
      StepsStop(env, code, Machine(pc, r), n, k);
    } else {
      StepsStop(env, code, Machine(pc, r), k, n);
    }
  }

  /** The value of x is in the register exactly if the code did not leave by a jump that a literal took over. */
  lemma RightValue(s: Start, code: Code, reg: nat, x: Expr, a: Option<nat>, r: Regs)
    requires Computed(s, code, reg, x, a, r) && Straight(s.env, x, r, Brings(s, a, r))
    ensures Leaves(s, code, reg, a, r, Eval(s.env, x, r)) <==> !Strays(s.env, x, r, Brings(s, a, r))
  {
    hide Leaves, Delivered, Eval, Straight, Strays, Brings;
    var w := Brings(s, a, r);
    DeliveredMeaning(s.env, x, r, w);
    if Leaves(s, code, reg, a, r, Eval(s.env, x, r)) {
      LeavesOnce(s, code, reg, a, r, Eval(s.env, x, r), Delivered(s.env, x, r, w));
    }
  }

  /** A safe expression leaves its value, from whichever entry. */
  lemma SafeValue(s: Start, code: Code, reg: nat, x: Expr, a: Option<nat>, r: Regs)
    requires Computed(s, code, reg, x, a, r) && Entry(s, a) && Safe(x, !NoValues(s.code, s.here))
    ensures Leaves(s, code, reg, a, r, Eval(s.env, x, r))
  {
    hide Leaves, Delivered, Eval, Safe;
    SafeDelivered(s.env, x, r, Brings(s, a, r), !NoValues(s.code, s.here));
  }

  /** ((1 or false) and true) or false: the value is true, and the machine leaves 1. */
  lemma WrongValue(s: Start, code: Code, reg: nat, r: Regs)
    requires Computed(s, code, reg, Or(And(Or(Constant(1), False), True), False), None, r)
    ensures var x := Or(And(Or(Constant(1), False), True), False);
            && Eval(s.env, x, r) == Bool(true) && Leaves(s, code, reg, None, r, Other(1))
            && !Leaves(s, code, reg, None, r, Bool(true))
  {
    hide Leaves;
    TakenOver(s.env, r);
    if Leaves(s, code, reg, None, r, Bool(true)) {
      LeavesOnce(s, code, reg, None, r, Other(1), Bool(true));
    }
  }
}
