/** `and` and `or`: conditional jumps over the second operand, and joined exits. */
module ShortCircuit {
  import opened Base
  import opened LuaVM
  import opened Logic
  import opened Holes
  import opened Patches
  import opened Denote
  import opened Compile

  /** The core of the code holds every open jump. */
  lemma CoreSound(s: Start, code: Code, here: set<nat>, e: ExpDesc, t: set<nat>, f: set<nat>)
    requires Proper(s) && Sound(s, code, here, t, f) && CoreOK(s, code, here, e, t, f)
    ensures var c, open := Core(code, e), t + f + here;
            && |s.code| <= |c| <= |code| && c == code[..|c|] && Paired(c)
            && OwnHoles(s, c, open) && Grown(s, c, open)
            && forall j: nat :: j in t || j in f || j in here ==> j < |c| && c[j].Jmp?
  {
    var c, open := Core(code, e), t + f + here;
    CompatiblePrefix(s.code, s.here, code, open, |c|);
    forall j | j in s.here && j !in open ensures Onward(s, c, j) {
      assert Onward(s, code, j);
      assert Kept(s.code, s.here, c, open, j);
    }
    forall j: nat | j in t || j in f || j in here ensures j < |c| && c[j].Jmp? {
      assert j in open;
    }
  }

  /** Instructions that follow the core: its waiting jumps lead to them. */
  lemma CoreEmits(s: Start, code: Code, here: set<nat>, e: ExpDesc, t: set<nat>, f: set<nat>, code': Code,
                  open: set<nat>)
    requires Proper(s) && Sound(s, code, here, t, f) && CoreOK(s, code, here, e, t, f)
    requires var c := Core(code, e);
             |c| <= |code'| && code'[..|c|] == Discharged(c, here) && forall j: nat :: j < |c| ==>
               (j in open <==> j in t + f)
    ensures Emits(Core(code, e), t + f, here, code', open) && Grown(s, code', open) && OwnHoles(s, code', t + f)
  {
    hide Core, CoreOK, Discharged, Grown, Paired;
    CoreSound(s, code, here, e, t, f);
    var c := Core(code, e);
    EmitGrown(s, c, t + f, here, code', open);
    EmitHoles(s, c, t + f, here, code', open);
  }

  /** A jump of the core carries the same in the whole code. */
  lemma CoreCarry(code: Code, e: ExpDesc, j: nat, r: Regs)
    requires var c := Core(code, e); j < |c| <= |code| && c == code[..|c|]
    ensures Carry(Core(code, e), j, r) == Carry(code, j, r)
  {
  }

  // ---- Conditional jumps ----

  /** The test fires exactly when the value that ends the expression is not the one to go on with. */
  ghost predicate Decides(s: Start, code: Code, e: ExpDesc, test: Instr, truth: bool) {
    && test.IsTest()
    && forall r: Regs, v: Value :: EndOK(s.env, code, e, r, v) ==>
        && Fires(s.env, test, r) == (IsFalse(v) == truth)
        && (test.TestSet? ==> Get(r, test.b) == v)
  }

  /** The test and its jump at the end of the code. */
  lemma TestAndJump(env: Env, code': Code, open: set<nat>, test: Instr, r: Regs)
    requires |code'| >= 2 && code'[|code'| - 2] == test && code'[|code'| - 1].Jmp? && test.IsTest()
    requires |code'| - 1 in open
    ensures Run(env, code', open, |code'| - 2, r) == if Fires(env, test, r) then Exit(|code'| - 1, r) else End(r)
    ensures Carry(code', |code'| - 1, r) == if test.TestSet? then Some(Get(r, test.b)) else None
  {
  }

  /** The end of the code with its test: it goes on, or leaves with the value that ended the expression. */
  lemma BranchEnd(s: Start, code: Code, e: ExpDesc, test: Instr, truth: bool, code': Code, open: set<nat>, x: Expr,
                  w: Option<Value>, r: Regs, r': Regs)
    requires var how := Flow(s.env, x, r, w); how.At? && EndOK(s.env, code, e, r', how.v)
    requires Decides(s, code, e, test, truth) && (test.TestSet? <==> !Plain(x))
    requires IsLiteral(x) ==> !Decided(x, LiteralOf(x), truth)
    requires |code'| >= 2 && code'[|code'| - 2] == test && code'[|code'| - 1].Jmp? && |code'| - 1 in open
    ensures var how := Flow(s.env, x, r, w);
            var o := Run(s.env, code', open, |code'| - 2, r');
            if IsFalse(how.v) == truth
            then o == Exit(|code'| - 1, r') && GoIf(x, how, truth) == Leave(Carry(code', |code'| - 1, r'))
            else o == End(r') && GoIf(x, how, truth) == On(None)
  {
    hide Flow, EndOK, Plain, Run, Carry, Fires;
    TestAndJump(s.env, code', open, test, r');
    if IsLiteral(x) {
      LiteralValue(s.env, x, r, w);
    }
  }

  /** The conditional jump after the core: the list to go on with waits for what comes next, the other exits. */
  lemma Branch(s: Start, code: Code, here: set<nat>, e: ExpDesc, t: set<nat>, f: set<nat>, x: Expr, test: Instr,
               truth: bool, code': Code, a: Option<nat>, r: Regs)
    requires Proper(s) && Sound(s, code, here, t, f) && CoreOK(s, code, here, e, t, f)
    requires DenotesAt(s, code, here, e, t, f, x, false, a, r) && Decides(s, code, e, test, truth)
    requires (test.TestSet? <==> !Plain(x)) && (IsLiteral(x) ==> !Decided(x, LiteralOf(x), truth))
    requires code' == Discharged(Core(code, e), here) + [test, Jmp(NO_JUMP)]
    ensures GoesAt(s, code', if truth then t else f, (if truth then f else t) + {|code'| - 1}, truth, x, a, r)
  {
    hide Sound, CoreOK, Core, Discharged, EndOK, Flow, Grown, Decided, Plain, Carry, Enter, Run, Emits, Paired,
      OwnHoles, IsLiteral, LiteralOf, Agree, Decides, Silent, Brings, Proper;
    var c, j := Core(code, e), |code'| - 1;
    var here', exits' := if truth then t else f, (if truth then f else t) + {j};
    assert code'[..|c|] == Discharged(c, here) && code'[j - 1] == test && code'[j] == Jmp(NO_JUMP);
    CoreSound(s, code, here, e, t, f);
    assert t !! f && j !in t && j !in f by {
      SoundDisjoint(s, code, here, t, f);
    }
    CoreEmits(s, code, here, e, t, f, code', exits' + here');
    EnterEmitted(s, c, t + f, here, code', exits' + here', a, r);
    var o := Enter(s, c, t + f + here, a, r);
    var how := Flow(s.env, x, r, Brings(s, a, r));
    if o.Exit? && o.at !in here {
      EmitCarry(c, t + f, here, code', exits' + here', o.at, o.regs);
      CoreCarry(code, e, o.at, o.regs);
    } else {
      BranchEnd(s, code, e, test, truth, code', exits' + here', x, Brings(s, a, r), r, o.regs);
    }
  }

  lemma SoundDisjoint(s: Start, code: Code, here: set<nat>, t: set<nat>, f: set<nat>)
    requires Sound(s, code, here, t, f)
    ensures t !! f && t !! here && f !! here && Paired(code) && Grown(s, code, t + f + here) && |s.code| <= |code|
    ensures forall j: nat :: j in t || j in f || j in here ==>
              j < |code| && code[j].Jmp? && (j >= |s.code| || j in s.here)
  {
    hide Grown, Paired;
    assert |s.code| <= |code| by {
      GrownLength(s, code, t + f + here);
    }
    forall j: nat | j in t || j in f || j in here
      ensures j < |code| && code[j].Jmp? && (j >= |s.code| || j in s.here)
    {
      assert j in t + f + here;
    }
  }

  lemma GrownLength(s: Start, code: Code, open: set<nat>)
    requires Grown(s, code, open)
    ensures |s.code| <= |code|
  {
  }

  /** luaK_goiftrue and luaK_goiffalse, once the test is known. */
  lemma GoIfTest(s: Start, code: Code, here: set<nat>, e: ExpDesc, t: set<nat>, f: set<nat>, x: Expr, test: Instr,
                 truth: bool, code': Code)
    requires Proper(s) && Ends(s, code, here, e, t, f, x, false) && test.IsTest() && Decides(s, code, e, test, truth)
    requires (test.TestSet? <==> !Plain(x)) && (IsLiteral(x) ==> !Decided(x, LiteralOf(x), truth))
    requires (t == {} <==> !HasExits(x, true)) && (f == {} <==> !HasExits(x, false))
    requires code' == Discharged(Core(code, e), here) + [test, Jmp(NO_JUMP)]
    ensures Goes(s, code', if truth then t else f, (if truth then f else t) + {|code'| - 1}, truth, x)
  {
    hide Sound, CoreOK, Core, Discharged, EndOK, Grown, Plain, GoesAt, Decides, DenotesAt, HasExits, LiteralOf,
         IsLiteral;
    var c, j := Core(code, e), |code'| - 1;
    var here', exits' := if truth then t else f, (if truth then f else t) + {j};
    assert code'[..|c|] == Discharged(c, here) && code'[j - 1] == test && code'[j] == Jmp(NO_JUMP);
    CoreSound(s, code, here, e, t, f);
    SoundDisjoint(s, code, here, t, f);
    assert exits' + here' == t + f + {j};
    CoreEmits(s, code, here, e, t, f, code', exits' + here');
    BranchSound(s, c, here, t, f, test, truth, code');
    assert exits' != {} by {
      assert j in exits';
    }
    forall a, r: Regs | Entry(s, a) ensures GoesAt(s, code', here', exits', truth, x, a, r) {
      assert DenotesAt(s, code, here, e, t, f, x, false, a, r);
      Branch(s, code, here, e, t, f, x, test, truth, code', a, r);
    }
  }

  lemma BranchSound(s: Start, c: Code, here: set<nat>, t: set<nat>, f: set<nat>, test: Instr, truth: bool, code': Code)
    requires test.IsTest() && code' == Discharged(c, here) + [test, Jmp(NO_JUMP)] && |s.code| <= |c| && Paired(c)
    requires var j := |code'| - 1;
             OwnHoles(s, code', t + f) && t !! f && j !in t + f && Grown(s, code', t + f + {j})
    ensures var j := |code'| - 1;
            Sound(s, code', if truth then t else f, (if truth then f else t) + {j}, {})
  {
    hide Grown, Discharged;
    var j := |code'| - 1;
    var here', exits' := if truth then t else f, (if truth then f else t) + {j};
    assert exits' + {} + here' == t + f + {j};
    PairedEmit(c, here, [test, Jmp(NO_JUMP)], code');
  }

  // ---- The tests ----

  /** invertjump on the instruction that controls the jump. */
  function Inverted(i: Instr): Instr
    requires i.Eq? || i.Lt? || i.Le?
  {
    match i
    case Eq(cond, b, c) => Eq(!cond, b, c)
    case Lt(cond, b, c) => Lt(!cond, b, c)
    case Le(cond, b, c) => Le(!cond, b, c)
  }

  lemma DischargedNone(code: Code)
    ensures Discharged(code, {}) == code
  {
    PatchedNone(code, |code|, NO_REG, |code|);
  }

  /** The last instructions of a comparison, inverted when the code goes on if it is true. */
  lemma GoIfJump(s: Start, code: Code, here: set<nat>, e: ExpDesc, t: set<nat>, f: set<nat>, x: Expr, truth: bool,
                 code': Code)
    requires Proper(s) && ExpOK(s, code, here, e, t, f, x) && e.k.VJmp?
    requires code' == if truth then code[e.info - 1 := Inverted(code[e.info - 1])] else code
    ensures here == {} && |code'| - 1 == e.info
    ensures Goes(s, code', if truth then t else f, (if truth then f else t) + {e.info}, truth, x)
  {
    hide Sound, Denotes, Decides, Discharged, HasExits, Plain, IsLiteral, LiteralOf, Goes;
    var test := code'[e.info - 1];
    JumpDecides(s, code, here, e, t, f, truth, test);
    DischargedNone(Core(code, e));
    assert code' == Core(code, e) + [test, Jmp(NO_JUMP)];
    GoIfTest(s, code, here, e, t, f, x, test, truth, code');
  }

  lemma JumpDecides(s: Start, code: Code, here: set<nat>, e: ExpDesc, t: set<nat>, f: set<nat>, truth: bool,
                    test: Instr)
    requires CoreOK(s, code, here, e, t, f) && e.k.VJmp?
    requires test == if truth then Inverted(code[e.info - 1]) else code[e.info - 1]
    ensures Decides(s, code, e, test, truth)
  {
  }

  /** jumponcond on a NOT: the instruction goes, its operand is tested with the opposite sense. */
  lemma GoIfNot(s: Start, code: Code, here: set<nat>, e: ExpDesc, t: set<nat>, f: set<nat>, x: Expr, truth: bool,
                code': Code)
    requires Proper(s) && ExpOK(s, code, here, e, t, f, x) && e.k.VRelocable? && e.info < |code| && code[e.info].Not?
    requires code' == code[..e.info] + [Test(code[e.info].b, truth), Jmp(NO_JUMP)]
    ensures Goes(s, code', if truth then t else f, (if truth then f else t) + {|code'| - 1}, truth, x)
  {
    hide Sound, Denotes, Discharged, HasExits, Plain, IsLiteral, LiteralOf, Goes;
    var test := Test(code[e.info].b, truth);
    assert Decides(s, code, e, test, truth);
    DischargedNone(Core(code, e));
    GoIfTest(s, code, here, e, t, f, x, test, truth, code');
  }

  /** jumponcond on a register: a local variable, or where the value has just been put. */
  lemma GoIfReg(s: Start, code: Code, here: set<nat>, e: ExpDesc, t: set<nat>, f: set<nat>, x: Expr, truth: bool,
                code': Code)
    requires Proper(s) && Ends(s, code, here, e, t, f, x, false) && e.k.VNonreloc?
    requires !Plain(x) && (IsLiteral(x) ==> !Decided(x, LiteralOf(x), truth))
    requires (t == {} <==> !HasExits(x, true)) && (f == {} <==> !HasExits(x, false))
    requires code' == Discharged(code, here) + [TestSet(NO_REG, e.info, !truth), Jmp(NO_JUMP)]
    ensures Goes(s, code', if truth then t else f, (if truth then f else t) + {|code'| - 1}, truth, x)
  {
    hide Ends, Discharged, HasExits, Plain, IsLiteral, LiteralOf, Goes;
    var test := TestSet(NO_REG, e.info, !truth);
    assert Decides(s, code, e, test, truth);
    GoIfTest(s, code, here, e, t, f, x, test, truth, code');
  }

  /** A literal with which the code always goes on: nothing is emitted, and the waiting jumps go on too. */
  lemma GoIfNothing(s: Start, code: Code, here: set<nat>, e: ExpDesc, t: set<nat>, f: set<nat>, x: Expr, truth: bool)
    requires ExpOK(s, code, here, e, t, f, x) && e.k.IsConst() && !Jumps(x, truth)
    ensures Goes(s, code, here + (if truth then t else f), if truth then f else t, truth, x)
  {
    hide Paired, OwnHoles, Grown, Enter, Flow, Agree, Carry, HasExits;
    var here', exits' := here + (if truth then t else f), if truth then f else t;
    assert exits' + {} + here' == t + f + here && exits' + here' == t + f + here;
    forall a, r: Regs | Entry(s, a) ensures GoesAt(s, code, here', exits', truth, x, a, r) {
      assert DenotesAt(s, code, here, e, t, f, x, false, a, r);
      var w := Brings(s, a, r);
      if Flow(s.env, x, r, w).At? {
        LiteralValue(s.env, x, r, w);
      }
      if Enter(s, code, t + f + here, a, r).Exit? {
        EnterInside(s, code, t + f + here, a, r);
      }
    }
  }

  /** luaK_jump after a literal with which the code never goes on: the jumps that waited become exits with it. */
  lemma GoIfTaken(s: Start, code: Code, here: set<nat>, e: ExpDesc, t: set<nat>, f: set<nat>, x: Expr, truth: bool,
                  code': Code)
    requires Proper(s) && ExpOK(s, code, here, e, t, f, x) && e.k.IsConst()
    requires Decided(x, LiteralOf(x), truth) && IsFalse(LiteralOf(x)) == truth
    requires |code'| == |code| + 1 && code'[..|code|] == code && code'[|code|].Jmp?
    ensures Goes(s, code', if truth then t else f, (if truth then f else t) + ({|code|} + here), truth, x)
  {
    hide Paired, OwnHoles, Grown, Enter, Flow, Agree, HasExits, DenotesAt;
    var n := |code|;
    var here', exits' := if truth then t else f, (if truth then f else t) + ({n} + here);
    var open := t + f + here;
    assert exits' + {} + here' == open + {n} && exits' + here' == open + {n};
    assert n in exits';
    SoundDisjoint(s, code, here, t, f);
    TakenSound(s, code, here, t, f, code');
    forall a, r: Regs | Entry(s, a) ensures GoesAt(s, code', here', exits', truth, x, a, r) {
      assert DenotesAt(s, code, here, e, t, f, x, false, a, r);
      TakenAt(s, code, here, e, t, f, x, truth, code', a, r);
    }
  }

  lemma TakenSound(s: Start, code: Code, here: set<nat>, t: set<nat>, f: set<nat>, code': Code)
    requires Sound(s, code, here, t, f) && Proper(s)
    requires |code'| == |code| + 1 && code'[..|code|] == code && code'[|code|].Jmp?
    ensures Paired(code') && OwnHoles(s, code', t + f + here + {|code|}) && Grown(s, code', t + f + here + {|code|})
    ensures Compatible(code, t + f + here, code', t + f + here + {|code|})
  {
    var open := t + f + here;
    assert forall p: nat :: p < |code| ==> code'[p] == code'[..|code|][p] == code[p];
    forall p | 0 <= p < |code| ensures Kept(code, open, code', open + {|code|}, p) {
    }
    CompatibleTrans(s.code, s.here, code, open, code', open + {|code|});
    forall j | j in s.here && j !in open + {|code|} ensures Onward(s, code', j) {
      assert Onward(s, code, j);
    }
  }

  lemma TakenAt(s: Start, code: Code, here: set<nat>, e: ExpDesc, t: set<nat>, f: set<nat>, x: Expr, truth: bool,
                code': Code, a: Option<nat>, r: Regs)
    requires Proper(s) && Sound(s, code, here, t, f) && e.k.IsConst() && IsLiteral(x)
    requires DenotesAt(s, code, here, e, t, f, x, false, a, r)
    requires Decided(x, LiteralOf(x), truth) && IsFalse(LiteralOf(x)) == truth
    requires |code'| == |code| + 1 && code'[..|code|] == code && code'[|code|].Jmp?
    ensures GoesAt(s, code', if truth then t else f, (if truth then f else t) + ({|code|} + here), truth, x, a, r)
  {
    hide Paired, OwnHoles, Grown, Enter, Flow, Agree, Sound, LiteralOf, IsLiteral, Plain, Decided, IsFalse, Run,
         Compatible,
      Carry, EndOK, Brings, Proper;
    var n := |code|;
    var here', exits' := if truth then t else f, (if truth then f else t) + ({n} + here);
    var open := t + f + here;
    assert exits' + here' == open + {n};
    SoundDisjoint(s, code, here, t, f);
    TakenSound(s, code, here, t, f, code');
    EnterExtends(s, code, open, code', open + {n}, a, r);
    var o := Enter(s, code, open, a, r);
    GoIfLiteral(s.env, x, r, Brings(s, a, r), truth);
    if o.Exit? {
      EnterInside(s, code, open, a, r);
      assert code'[o.at] == code'[..n][o.at];
      TakeExit(s.env, code', open + {n}, o.at, o.regs);
      PrefixCarry(code, code', o.at, o.regs);
    } else {
      JumpAtEnd(s.env, code, code', open + {n}, o.regs);
    }
  }

  lemma GoIfLiteral(env: Env, x: Expr, r: Regs, w: Option<Value>, truth: bool)
    requires IsLiteral(x) && Decided(x, LiteralOf(x), truth) && IsFalse(LiteralOf(x)) == truth
    ensures var how := Flow(env, x, r, w); how.At? ==> GoIf(x, how, truth) == Leave(how.w)
  {
    hide Flow;
    if Flow(env, x, r, w).At? {
      LiteralValue(env, x, r, w);
    }
  }

  lemma PrefixCarry(code: Code, code': Code, j: nat, r: Regs)
    requires j < |code| <= |code'| && code'[..|code|] == code
    ensures Carry(code', j, r) == Carry(code, j, r)
  {
    assert j > 0 ==> code'[j - 1] == code'[..|code|][j - 1];
  }

  /** The jump that luaK_jump appends carries nothing. */
  lemma JumpAtEnd(env: Env, code: Code, code': Code, open: set<nat>, r: Regs)
    requires |code'| == |code| + 1 && code'[..|code|] == code && code'[|code|].Jmp? && |code| in open && Paired(code)
    ensures Run(env, code', open, |code|, r) == Exit(|code|, r) && Carry(code', |code|, r) == None
  {
    var n := |code|;
    if n > 0 {
      assert code'[n - 1] == code'[..n][n - 1];
      LastNoTest(code);
    }
    assert Run(env, code', open, n, r) == Take(env, code', open, n, r);
  }

  lemma LastNoTest(code: Code)
    requires Paired(code) && |code| > 0
    ensures !code[|code| - 1].IsTest()
  {
  }

  // ---- Composition ----

  function Connective(truth: bool, a: Expr, b: Expr): Expr { if truth then And(a, b) else Or(a, b) }

  lemma ConnectiveFlow(env: Env, truth: bool, a: Expr, b: Expr, r: Regs, w: Option<Value>)
    ensures var go := GoIf(a, Flow(env, a, r, w), truth);
            Flow(env, Connective(truth, a, b), r, w) ==
              if go.On? then Flow(env, b, r, go.w) else Out(!truth, go.carry)
  {
  }

  /** The jump by which one enters the second operand. */
  function EntryOf(o: Outcome): Option<nat> { if o.Exit? then Some(o.at) else None }

  /** The run of both operands: where the first goes on, the second begins. */
  lemma ComposeRuns(s: Start, s2: Start, exits: set<nat>, code: Code, here: set<nat>, e: ExpDesc, t: set<nat>,
                    f: set<nat>, a: Option<nat>, r: Regs)
    requires Proper(s2) && s2.env == s.env && exits !! s2.here
    requires forall j :: j in exits ==> j < |s2.code| && s2.code[j].Jmp?
    requires Sound(s2, code, here, t, f) && CoreOK(s2, code, here, e, t, f)
    requires Enter(s, s2.code, exits + s2.here, a, r) != Stuck
    ensures var c, open, o := Core(code, e), t + f + here, Enter(s, s2.code, exits + s2.here, a, r);
            && (o.Exit? ==> o.at in exits + s2.here && o.at < |s2.code|)
            && Enter(s, c, exits + open, a, r) ==
               if o.Exit? && o.at in exits then o else Enter(s2, c, open, EntryOf(o), o.regs)
  {
    hide Paired, Sound, CoreOK, Core, OwnHoles, Run, Take;
    var c, open := Core(code, e), t + f + here;
    CoreSound(s2, code, here, e, t, f);
    assert Compatible(s2.code, s2.here, c, open);
    CompatibleWiden(s2.code, s2.here, c, open, exits);
    assert s2.here + exits == exits + s2.here && open + exits == exits + open;
    EnterExtends(s, s2.code, exits + s2.here, c, exits + open, a, r);
    var o := Enter(s, s2.code, exits + s2.here, a, r);
    if o.Exit? {
      EnterInside(s, s2.code, exits + s2.here, a, r);
      assert Kept(s2.code, s2.here, c, open, o.at);
    }
    if o.Exit? && o.at in exits {
      TakeExit(s.env, c, exits + open, o.at, o.regs);
    } else {
      Continued(s2, c, exits, open, o);
    }
  }

  lemma TakeExit(env: Env, c: Code, h: set<nat>, j: nat, r: Regs)
    requires j < |c| && c[j].Jmp? && j in h
    ensures Take(env, c, h, j, r) == Exit(j, r)
  {
  }

  lemma Continued(s2: Start, c: Code, exits: set<nat>, open: set<nat>, o: Outcome)
    requires Proper(s2) && Grown(s2, c, open) && OwnHoles(s2, c, open) && exits !! s2.here
    requires forall j :: j in exits ==> j < |s2.code|
    requires o != Stuck && (o.Exit? ==> o.at in s2.here && o.at < |c| && c[o.at].Jmp?)
    ensures Continue(s2.env, s2.code, c, exits + open, o) == Enter(s2, c, open, EntryOf(o), o.regs)
  {
    hide Run, Take;
    EnterForward(s2, c, open, exits + open, EntryOf(o), o.regs);
  }

  function SecondStart(s: Start, code1: Code, here1: set<nat>): Start { Start(s.env, code1, here1, s.free, s.nactvar) }

  /** The open jumps of both operands are different, and those of the first that did not wait stay as they are. */
  lemma ComposeHoles(s: Start, code1: Code, here1: set<nat>, exits: set<nat>, code: Code, here: set<nat>, t: set<nat>,
                     f: set<nat>)
    requires Proper(s) && Sound(s, code1, here1, exits, {}) && Sound(SecondStart(s, code1, here1), code, here, t, f)
    ensures Proper(SecondStart(s, code1, here1)) && exits !! here1 && exits !! t + f + here
    ensures Compatible(code1, here1, code, t + f + here) && |s.code| <= |code1| <= |code|
    ensures forall j: nat :: j in exits ==>
              j < |code1| && code1[j].Jmp? && code[j].Jmp? && (j >= |s.code| || j in s.here)
  {
    hide Paired;
    var s2, open := SecondStart(s, code1, here1), t + f + here;
    SoundDisjoint(s, code1, here1, exits, {});
    forall j: nat | j in exits ensures j !in open && code[j].Jmp? {
      assert j < |code1| && j !in here1;
      assert Kept(code1, here1, code, open, j);
    }
  }

  /** The second operand runs only where the first went on; its own exits and those of the first meet. */
  lemma Compose(s: Start, code1: Code, here1: set<nat>, exits: set<nat>, truth: bool, x: Expr,
                code: Code, here: set<nat>, e: ExpDesc, t: set<nat>, f: set<nat>, y: Expr, a: Option<nat>, r: Regs)
    requires Proper(s) && GoesAt(s, code1, here1, exits, truth, x, a, r) && Sound(s, code1, here1, exits, {})
    requires ExpOK(SecondStart(s, code1, here1), code, here, e, t, f, y)
    requires Scoped(y, s.nactvar)
    ensures DenotesAt(s, code, here, e, if truth then t else t + exits, if truth then f + exits else f,
                      Connective(truth, x, y), false, a, r)
  {
    hide Sound, Paired, CoreOK, Grown, Core, EndOK, Run, Take, Flow, GoIf, Connective, Scoped, Carry, Matches, Enter,
      Arrived, Compatible;
    var s2 := SecondStart(s, code1, here1);
    var t', f' := if truth then t else t + exits, if truth then f + exits else f;
    var c, open := Core(code, e), t + f + here;
    assert t' + f' + here == exits + open;
    ConnectiveFlow(s.env, truth, x, y, r, Brings(s, a, r));
    SoundDisjoint(s, code1, here1, exits, {});
    ComposeHoles(s, code1, here1, exits, code, here, t, f);
    ComposeRuns(s, s2, exits, code, here, e, t, f, a, r);
    var o := Enter(s, code1, exits + here1, a, r);
    if o.Exit? && o.at in exits {
      CompatibleCarry(code1, here1, code, open, o.at, o.regs);
    } else {
      var a2 := EntryOf(o);
      assert DenotesAt(s2, code, here, e, t, f, y, false, a2, o.regs);
      FlowAgree(s.env, y, s.nactvar, r, o.regs, s.free, Brings(s2, a2, o.regs));
      var o2 := Enter(s2, c, open, a2, o.regs);
      if o2.Exit? {
        EnterInside(s2, c, open, a2, o.regs);
      }
      Rebase(s, s2, code, here, e, t, t', Flow(s.env, y, r, Brings(s2, a2, o.regs)), r, o.regs, o2);
    }
  }

  /** The second operand begins with the registers that the first left. */
  lemma Rebase(s: Start, s2: Start, code: Code, here: set<nat>, e: ExpDesc, t: set<nat>, t': set<nat>, how: How,
               r: Regs, r1: Regs, o: Outcome)
    requires OutcomeOK(s2, code, here, e, t, false, how, r1, o) && Agree(r, r1, s.free, -1)
    requires s2.env == s.env && s2.free == s.free && s2.nactvar == s.nactvar
    requires o.Exit? ==> (o.at in t <==> o.at in t')
    ensures OutcomeOK(s, code, here, e, t', false, how, r, o)
  {
    hide EndOK, Carry;
  }

  lemma ComposeSound(s: Start, code1: Code, here1: set<nat>, exits: set<nat>, code: Code, here: set<nat>, t: set<nat>,
                     f: set<nat>, t': set<nat>, f': set<nat>)
    requires Proper(s) && Sound(s, code1, here1, exits, {}) && Sound(SecondStart(s, code1, here1), code, here, t, f)
    requires t' + f' == t + f + exits && t <= t' && f <= f' && t' !! f'
    ensures Sound(s, code, here, t', f')
  {
    hide Paired, Compatible, OwnHoles;
    var s2, open := SecondStart(s, code1, here1), t + f + here;
    var all := t' + f' + here;
    assert all == open + exits;
    ComposeHoles(s, code1, here1, exits, code, here, t, f);
    assert Grown(s, code, all) by {
      assert exits + {} + here1 == here1 + exits;
      CompatibleWiden(code1, here1, code, open, exits);
      CompatibleTrans(s.code, s.here, code1, here1 + exits, code, all);
      forall j | j in s.here && j !in all ensures Onward(s, code, j) {
        if j in here1 {
          assert Onward(s2, code, j);
        } else {
          assert Onward(s, code1, j);
          KeptJump(code1, here1 + exits, code, all, j);
        }
      }
    }
    ComposeOwn(s, code1, here1, exits, code, here, t, f);
  }

  lemma KeptJump(c1: Code, h1: set<nat>, c2: Code, h2: set<nat>, j: nat)
    requires Compatible(c1, h1, c2, h2) && j < |c1| && c1[j].Jmp? && j !in h1
    ensures j < |c2| && c2[j] == c1[j]
  {
    assert Kept(c1, h1, c2, h2, j);
  }

  lemma ComposeOwn(s: Start, code1: Code, here1: set<nat>, exits: set<nat>, code: Code, here: set<nat>, t: set<nat>,
                   f: set<nat>)
    requires Proper(s) && Sound(s, code1, here1, exits, {}) && Sound(SecondStart(s, code1, here1), code, here, t, f)
    ensures OwnHoles(s, code, t + f + here + exits)
  {
    hide Paired, Compatible, Grown;
    var s2 := SecondStart(s, code1, here1);
    ComposeHoles(s, code1, here1, exits, code, here, t, f);
    SoundDisjoint(s, code1, here1, exits, {});
    SoundDisjoint(s2, code, here, t, f);
  }

  /** luaK_posfix for `and` and `or`. */
  lemma Join(s: Start, code1: Code, here1: set<nat>, exits: set<nat>, truth: bool, x: Expr,
             code: Code, here: set<nat>, e: ExpDesc, t: set<nat>, f: set<nat>, y: Expr)
    requires Proper(s) && Goes(s, code1, here1, exits, truth, x)
    requires ExpOK(SecondStart(s, code1, here1), code, here, e, t, f, y) && Scoped(y, s.nactvar)
    ensures ExpOK(s, code, here, e, if truth then t else t + exits, if truth then f + exits else f,
                  Connective(truth, x, y))
  {
    hide Sound, GoesAt, DenotesAt, Scoped, Core, Jumps, LiteralOf, IsLiteral, IsLocal, Plain;
    var t', f' := if truth then t else t + exits, if truth then f + exits else f;
    ComposeHoles(s, code1, here1, exits, code, here, t, f);
    assert t !! f by {
      SoundDisjoint(SecondStart(s, code1, here1), code, here, t, f);
    }
    assert t' + f' == t + f + exits;
    ComposeSound(s, code1, here1, exits, code, here, t, f, t', f');
    ConnectiveMatches(code, e, t, f, exits, truth, x, y);
    forall a, r: Regs | Entry(s, a) ensures DenotesAt(s, code, here, e, t', f', Connective(truth, x, y), false, a, r) {
      assert GoesAt(s, code1, here1, exits, truth, x, a, r);
      Compose(s, code1, here1, exits, truth, x, code, here, e, t, f, y, a, r);
    }
  }

  lemma ConnectiveMatches(code: Code, e: ExpDesc, t: set<nat>, f: set<nat>, exits: set<nat>, truth: bool, x: Expr,
                          y: Expr)
    requires Matches(code, e, t, f, y) && (exits == {} <==> !HasExits(x, !truth) && !Jumps(x, truth))
    ensures Matches(code, e, if truth then t else t + exits, if truth then f + exits else f, Connective(truth, x, y))
  {
  }
}
