/** Relinking lists, giving a value a register, and `not`: the exits are exchanged and carry no value. */
module Negate {
  import opened Base
  import opened LuaVM
  import opened Logic
  import opened Holes
  import opened Patches
  import opened Denote
  import opened Compile
  import opened ShortCircuit

  // ---- Changes that leave every jump open ----

  /** The same jumps are open before and after, in code of the same length. */
  ghost predicate Alike(code: Code, code': Code, open: set<nat>) {
    |code'| == |code| && Compatible(code, open, code', open) && Paired(code')
  }

  lemma AlikeSound(s: Start, code: Code, code': Code, here: set<nat>, t: set<nat>, f: set<nat>)
    requires Proper(s) && Sound(s, code, here, t, f) && Alike(code, code', t + f + here)
    ensures Sound(s, code', here, t, f)
  {
    hide Paired;
    var open := t + f + here;
    CompatibleTrans(s.code, s.here, code, open, code', open);
    forall j | j in open ensures j < |code'| && code'[j].Jmp? && (j >= |s.code| || j in s.here) {
      assert Kept(code, open, code', open, j);
    }
    forall j | j in s.here && j !in open ensures Onward(s, code', j) {
      assert Onward(s, code, j);
      assert Kept(code, open, code', open, j);
    }
  }

  /** The same for the core of the code. */
  lemma AlikeCore(s: Start, code: Code, code': Code, here: set<nat>, e: ExpDesc, t: set<nat>, f: set<nat>,
                  a: Option<nat>, r: Regs)
    requires Proper(s) && Sound(s, code, here, t, f) && CoreOK(s, code, here, e, t, f)
    requires |code'| == |code| && Compatible(Core(code, e), t + f + here, Core(code', e), t + f + here)
    requires Enter(s, Core(code, e), t + f + here, a, r) != Stuck
    ensures var o := Enter(s, Core(code, e), t + f + here, a, r);
            && Enter(s, Core(code', e), t + f + here, a, r) == o
            && (o.Exit? ==> o.at in t + f + here && o.at < |code|)
  {
    hide Sound, CoreOK, Compatible;
    var c, c', open := Core(code, e), Core(code', e), t + f + here;
    EnterSame(s, c, c', open, a, r);
    if Enter(s, c, open, a, r).Exit? {
      EnterInside(s, c, open, a, r);
    }
  }

  /** The codes differ at most in the offsets of the jumps of hs. */
  ghost predicate Relinked(code: Code, code': Code, hs: set<nat>) {
    && |code'| == |code|
    && forall p: nat :: p < |code| ==> if p in hs then code[p].Jmp? && code'[p].Jmp? else code'[p] == code[p]
  }

  lemma RelinkAlike(code: Code, code': Code, hs: set<nat>, open: set<nat>)
    requires Relinked(code, code', hs) && hs <= open && Paired(code)
    ensures Alike(code, code', open)
    ensures forall j: nat, r :: j <= |code| ==> Carry(code', j, r) == Carry(code, j, r)
  {
    forall p | 0 <= p < |code| ensures Kept(code, open, code', open, p) {
      assert p in hs || code'[p] == code[p];
    }
    forall p | 0 <= p < |code'| && code'[p].IsTest() ensures p + 1 < |code'| && code'[p + 1].Jmp? {
      assert p in hs || code'[p] == code[p];
      assert p + 1 in hs || p + 1 == |code| || code'[p + 1] == code[p + 1];
    }
    forall j: nat, r | j <= |code| ensures Carry(code', j, r) == Carry(code, j, r) {
      if j > 0 {
        var p: nat := j - 1;
        assert p in hs || code'[p] == code[p];
      }
    }
  }

  /** Linking the lists of an expression changes nothing. */
  lemma RelinkEnds(s: Start, code: Code, code': Code, here: set<nat>, e: ExpDesc, t: set<nat>, f: set<nat>, x: Expr,
                   hs: set<nat>)
    requires Proper(s) && Ends(s, code, here, e, t, f, x, false)
    requires Relinked(code, code', hs) && hs <= t + f + here
    ensures Ends(s, code', here, e, t, f, x, false)
    ensures (e.k.VRelocable? ==> e.info < |code| && code'[e.info] == code[e.info])
  {
    hide Sound, Paired, OutcomeOK, Alike, Enter, Grown;
    var open := t + f + here;
    SoundDisjoint(s, code, here, t, f);
    RelinkAlike(code, code', hs, open);
    AlikeSound(s, code, code', here, t, f);
    RelinkCore(s, code, code', here, e, t, f, hs);
    CoreSound(s, code, here, e, t, f);
    RelinkAlike(Core(code, e), Core(code', e), hs, open);
    assert Compatible(Core(code, e), open, Core(code', e), open) by {
      AlikeCompatible(Core(code, e), Core(code', e), open);
    }
    forall a, r: Regs | Entry(s, a) ensures DenotesAt(s, code', here, e, t, f, x, false, a, r) {
      assert DenotesAt(s, code, here, e, t, f, x, false, a, r);
      EnterStuck(s, code, here, e, t, f, x, a, r);
      AlikeCore(s, code, code', here, e, t, f, a, r);
      RelinkOutcome(s, code, code', here, e, t, Flow(s.env, x, r, Brings(s, a, r)), r,
                    Enter(s, Core(code, e), open, a, r));
    }
  }

  lemma AlikeCompatible(code: Code, code': Code, open: set<nat>)
    requires Alike(code, code', open)
    ensures Compatible(code, open, code', open)
  {
  }

  lemma EnterStuck(s: Start, code: Code, here: set<nat>, e: ExpDesc, t: set<nat>, f: set<nat>, x: Expr, a: Option<nat>,
                   r: Regs)
    requires DenotesAt(s, code, here, e, t, f, x, false, a, r)
    ensures Enter(s, Core(code, e), t + f + here, a, r) != Stuck
  {
  }

  lemma RelinkCore(s: Start, code: Code, code': Code, here: set<nat>, e: ExpDesc, t: set<nat>, f: set<nat>,
                   hs: set<nat>)
    requires CoreOK(s, code, here, e, t, f) && Relinked(code, code', hs) && hs <= t + f + here
    requires forall j: nat :: j in t || j in f || j in here ==> j < |code| && code[j].Jmp?
    ensures CoreOK(s, code', here, e, t, f) && Relinked(Core(code, e), Core(code', e), hs)
    ensures e.k.VRelocable? ==> e.info < |code| && code'[e.info] == code[e.info]
    ensures e.k.VJmp? ==> 1 <= e.info < |code| && code'[e.info - 1] == code[e.info - 1]
  {
    if e.k.VJmp? {
      assert e.info !in hs && code'[e.info] == code[e.info];
      assert e.info - 1 !in hs && code'[e.info - 1] == code[e.info - 1];
    }
  }

  lemma RelinkOutcome(s: Start, code: Code, code': Code, here: set<nat>, e: ExpDesc, t: set<nat>, how: How, r: Regs,
                      o: Outcome)
    requires OutcomeOK(s, code, here, e, t, false, how, r, o) && (o.Exit? ==> o.at <= |code|)
    requires forall j: nat, r :: j <= |code| ==> Carry(code', j, r) == Carry(code, j, r)
    requires |code'| == |code|
    requires e.k.VRelocable? ==> e.info < |code| && code'[e.info] == code[e.info]
    requires e.k.VJmp? ==> 1 <= e.info < |code| && code'[e.info - 1] == code[e.info - 1]
    ensures OutcomeOK(s, code', here, e, t, false, how, r, o)
  {
    hide Carry;
  }

  lemma RelinkExp(s: Start, code: Code, code': Code, here: set<nat>, e: ExpDesc, t: set<nat>, f: set<nat>, x: Expr,
                  hs: set<nat>)
    requires Proper(s) && ExpOK(s, code, here, e, t, f, x) && Relinked(code, code', hs) && hs <= t + f + here
    ensures ExpOK(s, code', here, e, t, f, x)
  {
    hide Ends, Relinked, IsLiteral, IsLocal, LiteralOf, HasExits, Plain;
    RelinkEnds(s, code, code', here, e, t, f, x, hs);
    assert |code'| == |code| by {
      RelinkLength(code, code', hs);
    }
  }

  lemma RelinkLength(code: Code, code': Code, hs: set<nat>)
    requires Relinked(code, code', hs)
    ensures |code'| == |code|
  {
  }

  /** Linking the lists of a decided value changes nothing. */
  lemma RelinkGoes(s: Start, code: Code, code': Code, here: set<nat>, exits: set<nat>, truth: bool, x: Expr,
                   hs: set<nat>)
    requires Proper(s) && Goes(s, code, here, exits, truth, x) && Relinked(code, code', hs) && hs <= exits + here
    ensures Goes(s, code', here, exits, truth, x)
  {
    hide Sound, Paired, Enter, Flow, GoIf, Relinked, Carry, HasExits, Jumps, Compatible;
    assert exits + {} + here == exits + here;
    SoundDisjoint(s, code, here, exits, {});
    RelinkAlike(code, code', hs, exits + here);
    AlikeSound(s, code, code', here, exits, {});
    forall a, r: Regs | Entry(s, a) ensures GoesAt(s, code', here, exits, truth, x, a, r) {
      assert GoesAt(s, code, here, exits, truth, x, a, r);
      EnterSame(s, code, code', exits + here, a, r);
      if Enter(s, code, exits + here, a, r).Exit? {
        EnterInside(s, code, exits + here, a, r);
      }
    }
  }

  // ---- discharge2reg ----

  /** A local variable is in its register. */
  lemma LocalIsPlace(s: Start, code: Code, here: set<nat>, e: ExpDesc, t: set<nat>, f: set<nat>, x: Expr)
    requires ExpOK(s, code, here, e, t, f, x) && e.k.VLocal?
    ensures ExpOK(s, code, here, e.(k := VNonreloc), t, f, x)
  {
    hide Sound, Flow, Enter, Carry, Agree, HasExits, Plain;
    var e' := e.(k := VNonreloc);
    forall a, r: Regs | Entry(s, a) ensures DenotesAt(s, code, here, e', t, f, x, false, a, r) {
      assert DenotesAt(s, code, here, e, t, f, x, false, a, r);
    }
  }

  /** SETARG_A. */
  function WithA(i: Instr, reg: nat): Instr {
    match i
    case Not(_, b) => Not(reg, b)
    case GetUpval(_, b) => GetUpval(reg, b)
    case _ => i
  }

  /** A relocatable instruction gets its register. */
  lemma Relocate(s: Start, code: Code, here: set<nat>, e: ExpDesc, t: set<nat>, f: set<nat>, x: Expr, reg: nat,
                 code': Code)
    requires Proper(s) && ExpOK(s, code, here, e, t, f, x) && e.k.VRelocable?
    requires code' == code[e.info := WithA(code[e.info], reg)]
    ensures Loaded(s, code', here, reg, t, f, x)
  {
    hide Sound, Grown, LoadedAt, DenotesAt, Matches, Paired, Compatible;
    SetAlike(s, code, here, t, f, e.info, code');
    forall a, r: Regs | Entry(s, a) ensures LoadedAt(s, code', here, reg, t, f, x, a, r) {
      assert DenotesAt(s, code, here, e, t, f, x, false, a, r);
      RelocateAt(s, code, here, e, t, f, x, reg, code', a, r);
    }
  }

  /** Replacing an instruction of the expression that is neither a jump nor a TESTSET. */
  lemma SetAlike(s: Start, code: Code, here: set<nat>, t: set<nat>, f: set<nat>, p: nat, code': Code)
    requires Proper(s) && Sound(s, code, here, t, f)
    requires |s.code| <= p < |code| && |code'| == |code| && code' == code[p := code'[p]]
    requires !code[p].Jmp? && !code[p].TestSet? && !code'[p].Jmp? && code'[p].IsTest() == code[p].IsTest()
    ensures Sound(s, code', here, t, f)
  {
    forall q | 0 <= q < |code'| && code'[q].IsTest() ensures q + 1 < |code'| && code'[q + 1].Jmp? {
      assert code[q].IsTest();
    }
    var open := t + f + here;
    forall q | 0 <= q < |s.code| ensures Kept(s.code, s.here, code', open, q) {
      assert Kept(s.code, s.here, code, open, q);
    }
    forall j | j in s.here && j !in open ensures Onward(s, code', j) {
      assert Onward(s, code, j);
    }
  }

  lemma RelocateAt(s: Start, code: Code, here: set<nat>, e: ExpDesc, t: set<nat>, f: set<nat>, x: Expr, reg: nat,
                   code': Code, a: Option<nat>, r: Regs)
    requires Proper(s) && Sound(s, code, here, t, f) && CoreOK(s, code, here, e, t, f) && e.k.VRelocable?
    requires DenotesAt(s, code, here, e, t, f, x, false, a, r)
    requires code' == code[e.info := WithA(code[e.info], reg)]
    ensures LoadedAt(s, code', here, reg, t, f, x, a, r)
  {
    hide Sound, Grown, Flow, Enter, Paired;
    var c, open := Core(code, e), t + f + here;
    assert |c| == |code| - 1 && forall p: nat :: p < |c| ==> code'[p] == c[p] == code[p];
    forall p | 0 <= p < |c| ensures Kept(c, open, code', open, p) {
    }
    EnterExtends(s, c, open, code', open, a, r);
    var o := Enter(s, c, open, a, r);
    if o.Exit? {
      EnterInside(s, c, open, a, r);
    } else {
      var w := Computes(s.env, code[e.info], o.regs);
      assert Run(s.env, code', open, |c|, o.regs) == Run(s.env, code', open, |c| + 1, o.regs[reg := w]) ==
          End(o.regs[reg := w]);
    }
  }

  /** A value that already is in its register. */
  lemma InPlace(s: Start, code: Code, here: set<nat>, e: ExpDesc, t: set<nat>, f: set<nat>, x: Expr)
    requires Ends(s, code, here, e, t, f, x, false) && e.k.VNonreloc?
    ensures Loaded(s, code, here, e.info, t, f, x)
  {
    hide Sound, Flow, Enter, Carry;
    forall a, r: Regs | Entry(s, a) ensures LoadedAt(s, code, here, e.info, t, f, x, a, r) {
      assert DenotesAt(s, code, here, e, t, f, x, false, a, r);
    }
  }

  /** A value that has been put in a free register. */
  lemma LoadedEnds(s: Start, code: Code, here: set<nat>, e: ExpDesc, t: set<nat>, f: set<nat>, x: Expr)
    requires Loaded(s, code, here, e.info, t, f, x) && e.k.VNonreloc? && e.info >= s.free >= s.nactvar
    ensures Ends(s, code, here, e, t, f, x, false)
  {
    hide Sound, Flow, Enter, Carry;
    forall a, r: Regs | Entry(s, a) ensures DenotesAt(s, code, here, e, t, f, x, false, a, r) {
      assert LoadedAt(s, code, here, e.info, t, f, x, a, r);
    }
  }

  // ---- Emitting one instruction after a value ----

  /** What the instruction makes of the registers. */
  function Effect(env: Env, i: Instr, r: Regs): Regs {
    match i
    case Move(a, b) => r[a := Get(r, b)]
    case LoadK(a, v) => r[a := v]
    case LoadBool(a, v, _) => r[a := Bool(v)]
    case GetUpval(a, b) => r[a := env.upvals(b)]
    case Not(a, b) => r[a := Bool(IsFalse(Get(r, b)))]
    case _ => r
  }

  predicate Simple(i: Instr) { i.Move? || i.LoadK? || (i.LoadBool? && !i.skip) || i.GetUpval? || i.Not? || i.Next? }

  /** The instruction i after the code: the exits stay, and where the code ended it goes on with i. */
  lemma EmitOne(s: Start, code: Code, here: set<nat>, t: set<nat>, f: set<nat>, i: Instr, code': Code)
    requires Proper(s) && Sound(s, code, here, t, f) && Simple(i) && code' == Discharged(code, here) + [i]
    ensures Sound(s, code', {}, t, f) && Sound(s, code'[..|code|], {}, t, f) && code'[|code|] == i
    ensures Emits(code, t + f, here, code', t + f) && Emits(code, t + f, here, code'[..|code|], t + f)
  {
    hide Discharged, Paired, Grown, OwnHoles;
    var e := ExpDesc(VNonreloc, 0, NO_JUMP, NO_JUMP);
    var d := code'[..|code|];
    assert d == Discharged(code, here) && d[..|code|] == d && Core(code, e) == code;
    SoundDisjoint(s, code, here, t, f);
    CoreEmits(s, code, here, e, t, f, code', t + f);
    CoreEmits(s, code, here, e, t, f, d, t + f);
    assert t + f + {} == t + f;
    assert Paired(code') by {
      PairedOne(i);
      PairedEmit(code, here, [i], code');
    }
    assert Paired(d) by {
      PairedOne(i);
      assert d == Discharged(code, here) + [];
      PairedEmit(code, here, [], d);
    }
  }

  lemma PairedOne(i: Instr)
    requires Simple(i)
    ensures Paired([i]) && Paired([])
  {
  }

  lemma RunOne(env: Env, code': Code, open: set<nat>, i: Instr, r: Regs)
    requires |code'| > 0 && code'[|code'| - 1] == i && Simple(i)
    ensures Run(env, code', open, |code'| - 1, r) == End(Effect(env, i, r))
  {
    assert Run(env, code', open, |code'|, Effect(env, i, r)) == End(Effect(env, i, r));
  }

  /** The instruction puts the value that ended the expression into the register. */
  lemma Load(s: Start, code: Code, here: set<nat>, e: ExpDesc, t: set<nat>, f: set<nat>, x: Expr, reg: nat, i: Instr,
             code': Code)
    requires Proper(s) && Ends(s, code, here, e, t, f, x, false) && (e.k.VNonreloc? || e.k.IsConst())
    requires i == if e.k.VNonreloc? then Move(reg, e.info) else if e.k.VK? then LoadK(reg, e.k.v)
                  else LoadBool(reg, e.k.VTrue?, false)
    requires code' == Discharged(code, here) + [i]
    ensures Loaded(s, code', {}, reg, t, f, x)
  {
    hide Sound, Discharged, LoadedAt, DenotesAt, Emits;
    EmitOne(s, code, here, t, f, i, code');
    forall a, r: Regs | Entry(s, a) ensures LoadedAt(s, code', {}, reg, t, f, x, a, r) {
      assert DenotesAt(s, code, here, e, t, f, x, false, a, r);
      LoadAt(s, code, here, e, t, f, x, reg, i, code', a, r);
    }
  }

  lemma LoadAt(s: Start, code: Code, here: set<nat>, e: ExpDesc, t: set<nat>, f: set<nat>, x: Expr, reg: nat, i: Instr,
               code': Code, a: Option<nat>, r: Regs)
    requires DenotesAt(s, code, here, e, t, f, x, false, a, r) && (e.k.VNonreloc? || e.k.IsConst())
    requires i == if e.k.VNonreloc? then Move(reg, e.info) else if e.k.VK? then LoadK(reg, e.k.v)
                  else LoadBool(reg, e.k.VTrue?, false)
    requires |code'| == |code| + 1 && code'[|code|] == i && Emits(code, t + f, here, code', t + f)
    ensures LoadedAt(s, code', {}, reg, t, f, x, a, r)
  {
    hide Emits, Flow, Enter, Carry, Run, Brings, Arrived, Agree;
    assert t + f + {} == t + f;
    EnterEmitted(s, code, t + f, here, code', t + f, a, r);
    var o := Enter(s, code, t + f + here, a, r);
    if o.Exit? && o.at !in here {
      EmitCarry(code, t + f, here, code', t + f, o.at, o.regs);
    } else {
      RunOne(s.env, code', t + f, i, o.regs);
      LoadEnd(s, code, e, Flow(s.env, x, r, Brings(s, a, r)), if o.Exit? then Carry(code, o.at, o.regs)
              else None, reg, i,
              r, o.regs);
    }
  }

  lemma LoadEnd(s: Start, code: Code, e: ExpDesc, how: How, w: Option<Value>, reg: nat, i: Instr, r: Regs, r1: Regs)
    requires Arrived(s, code, e, false, how, w, r1) && Agree(r, r1, s.free, -1) && (e.k.VNonreloc? || e.k.IsConst())
    requires i == if e.k.VNonreloc? then Move(reg, e.info) else if e.k.VK? then LoadK(reg, e.k.v)
                  else LoadBool(reg, e.k.VTrue?, false)
    ensures how.At? && Agree(r, Effect(s.env, i, r1), s.free, reg) && Get(Effect(s.env, i, r1), reg) == how.v
  {
  }

  /** The instruction will compute the value, or its negation, when it has a register. */
  lemma Relocable(s: Start, code: Code, here: set<nat>, e: ExpDesc, t: set<nat>, f: set<nat>, x: Expr, i: Instr,
                  code': Code)
    requires Proper(s) && Ends(s, code, here, e, t, f, x, false)
    requires (e.k.VUpval? && i == GetUpval(0, e.info)) || (e.k.VNonreloc? && i == Not(0, e.info))
    requires code' == Discharged(code, here) + [i]
    ensures Ends(s, code', {}, ExpDesc(VRelocable, |code|, e.t, e.f), t, f, x, e.k.VNonreloc?)
  {
    hide Sound, Discharged, DenotesAt, Emits;
    var e' := ExpDesc(VRelocable, |code|, e.t, e.f);
    EmitOne(s, code, here, t, f, i, code');
    assert |s.code| <= |code| by {
      SoundDisjoint(s, code, here, t, f);
    }
    forall a, r: Regs | Entry(s, a) ensures DenotesAt(s, code', {}, e', t, f, x, e.k.VNonreloc?, a, r) {
      assert DenotesAt(s, code, here, e, t, f, x, false, a, r);
      RelocableAt(s, code, here, e, t, f, x, i, code', a, r);
    }
  }

  lemma RelocableAt(s: Start, code: Code, here: set<nat>, e: ExpDesc, t: set<nat>, f: set<nat>, x: Expr, i: Instr,
                    code': Code, a: Option<nat>, r: Regs)
    requires DenotesAt(s, code, here, e, t, f, x, false, a, r)
    requires (e.k.VUpval? && i == GetUpval(0, e.info)) || (e.k.VNonreloc? && i == Not(0, e.info))
    requires |code'| == |code| + 1 && code'[|code|] == i && Emits(code, t + f, here, code'[..|code|], t + f)
    ensures DenotesAt(s, code', {}, ExpDesc(VRelocable, |code|, e.t, e.f), t, f, x, e.k.VNonreloc?, a, r)
  {
    hide Emits, Flow, Enter, Carry, Run, Brings;
    var d := code'[..|code|];
    assert t + f + {} == t + f;
    assert Core(code', ExpDesc(VRelocable, |code|, e.t, e.f)) == d;
    EnterEmitted(s, code, t + f, here, d, t + f, a, r);
    var o := Enter(s, code, t + f + here, a, r);
    if o.Exit? && o.at !in here {
      EmitCarry(code, t + f, here, d, t + f, o.at, o.regs);
      PrefixCarry(d, code', o.at, o.regs);
    } else {
      RunEnd(s.env, d, t + f, o.regs);
    }
  }

  lemma RunEnd(env: Env, code: Code, open: set<nat>, r: Regs)
    ensures Run(env, code, open, |code|, r) == End(r)
  {
  }

  lemma UpvalLoads(s: Start, code: Code, here: set<nat>, e: ExpDesc, t: set<nat>, f: set<nat>, x: Expr, code': Code)
    requires Proper(s) && ExpOK(s, code, here, e, t, f, x) && e.k.VUpval?
    requires code' == Discharged(code, here) + [GetUpval(0, e.info)]
    ensures ExpOK(s, code', {}, e.(k := VRelocable, info := |code|), t, f, x)
  {
    hide Ends, Discharged, IsLiteral, IsLocal, LiteralOf, HasExits, Plain;
    Relocable(s, code, here, e, t, f, x, GetUpval(0, e.info), code');
    assert e.(k := VRelocable, info := |code|) == ExpDesc(VRelocable, |code|, e.t, e.f);
  }

  // ---- codenot ----

  /** Exchanging the lists and removing their values completes the negation. */
  lemma Exchange(s: Start, code: Code, here: set<nat>, e: ExpDesc, t: set<nat>, f: set<nat>, x: Expr, e': ExpDesc,
                 code': Code)
    requires Proper(s) && Ends(s, code, here, e, t, f, x, true) && e'.k == e.k && e'.info == e.info
    requires code' == Removed(code, t + f)
    ensures Ends(s, code', here, e', f, t, Negation(x), false)
  {
    hide Sound, DenotesAt, Removed, Paired;
    SoundDisjoint(s, code, here, t, f);
    RemovedAlike(code, t + f, t + f + here);
    AlikeSound(s, code, code', here, t, f);
    SwapSound(s, code', here, t, f);
    RemovedCore(s, code, here, e, t, f, code');
    forall a, r: Regs | Entry(s, a) ensures DenotesAt(s, code', here, e', f, t, Negation(x), false, a, r) {
      assert DenotesAt(s, code, here, e, t, f, x, true, a, r);
      ExchangeAt(s, code, here, e, t, f, x, e', code', a, r);
    }
  }

  lemma SwapSound(s: Start, code: Code, here: set<nat>, t: set<nat>, f: set<nat>)
    requires Sound(s, code, here, t, f)
    ensures Sound(s, code, here, f, t)
  {
    assert f + t + here == t + f + here;
  }

  lemma RemovedAlike(code: Code, hs: set<nat>, open: set<nat>)
    requires hs <= open && Paired(code)
    ensures Alike(code, Removed(code, hs), open)
  {
    var code' := Removed(code, hs);
    forall p | 0 <= p < |code'| && code'[p].IsTest() ensures p + 1 < |code'| && code'[p + 1].Jmp? {
      assert code[p].IsTest();
    }
  }

  lemma RemovedCore(s: Start, code: Code, here: set<nat>, e: ExpDesc, t: set<nat>, f: set<nat>, code': Code)
    requires CoreOK(s, code, here, e, t, f) && code' == Removed(code, t + f)
    requires forall j: nat :: j in t || j in f || j in here ==> j < |code| && code[j].Jmp?
    ensures CoreOK(s, code', here, e, f, t) && |code'| == |code|
    ensures var c, open := Core(code, e), t + f + here;
            |c| <= |code| && c == code[..|c|] && |Core(code', e)| == |c| && Compatible(c, open, Core(code', e), open)
    ensures e.k.VRelocable? ==> e.info < |code| && code'[e.info] == code[e.info]
    ensures e.k.VJmp? ==> 1 <= e.info < |code| && code'[e.info - 1] == code[e.info - 1]
  {
    var c, c' := Core(code, e), Core(code', e);
    var open := t + f + here;
    forall p | 0 <= p < |c| ensures Kept(c, open, c', open, p) {
      assert c'[p] == code'[p];
    }
  }

  lemma ExchangeAt(s: Start, code: Code, here: set<nat>, e: ExpDesc, t: set<nat>, f: set<nat>, x: Expr, e': ExpDesc,
                   code': Code, a: Option<nat>, r: Regs)
    requires Sound(s, code, here, t, f) && CoreOK(s, code, here, e, t, f)
    requires DenotesAt(s, code, here, e, t, f, x, true, a, r)
    requires e'.k == e.k && e'.info == e.info && code' == Removed(code, t + f)
    ensures DenotesAt(s, code', here, e', f, t, Negation(x), false, a, r)
  {
    hide Sound, CoreOK, Enter, Removed, Compatible, Brings, Carry, Paired, OutcomeOK;
    var c, c', open := Core(code, e), Core(code', e), t + f + here;
    assert f + t + here == open && Core(code', e') == c';
    SoundDisjoint(s, code, here, t, f);
    RemovedCore(s, code, here, e, t, f, code');
    EnterProper(s, code, here, e, t, true, Flow(s.env, x, r, Brings(s, a, r)), r, Enter(s, c, open, a, r));
    EnterSame(s, c, c', open, a, r);
    var o := Enter(s, c, open, a, r);
    if o.Exit? {
      EnterInside(s, c, open, a, r);
      RemovedCarry(code, t, f, here, o.at, o.regs);
    }
    ExchangeOutcome(s, code, here, e, t, f, Flow(s.env, x, r, Brings(s, a, r)), e', code', r, o);
  }

  lemma EnterProper(s: Start, code: Code, here: set<nat>, e: ExpDesc, t: set<nat>, not: bool, how: How, r: Regs,
                    o: Outcome)
    requires OutcomeOK(s, code, here, e, t, not, how, r, o)
    ensures o != Stuck
  {
  }

  lemma ExchangeOutcome(s: Start, code: Code, here: set<nat>, e: ExpDesc, t: set<nat>, f: set<nat>, how: How,
                        e': ExpDesc, code': Code, r: Regs, o: Outcome)
    requires OutcomeOK(s, code, here, e, t, true, how, r, o) && e'.k == e.k && e'.info == e.info && |code'| == |code|
    requires e.k.VRelocable? ==> e.info < |code| && code'[e.info] == code[e.info]
    requires e.k.VJmp? ==> 1 <= e.info < |code| && code'[e.info - 1] == code[e.info - 1]
    requires t !! f && (o.Exit? ==> o.at in t + f + here
                                    && Carry(code', o.at, o.regs) ==
                                       if o.at in here then Carry(code, o.at, o.regs) else None)
    ensures OutcomeOK(s, code', here, e', f, false, Inverse(how), r, o)
  {
    hide Carry, Agree, Fires, IsFalse;
  }

  lemma RemovedCarry(code: Code, t: set<nat>, f: set<nat>, here: set<nat>, j: nat, r: Regs)
    requires j < |code| && j in t + f + here && t !! here && f !! here && t !! f
    ensures Carry(Removed(code, t + f), j, r) == if j in here then Carry(code, j, r) else None
  {
  }

  /** The end of the expression is negated, its exits are not yet. */
  ghost predicate Halfway(s: Start, code: Code, here: set<nat>, e: ExpDesc, t: set<nat>, f: set<nat>, x: Expr) {
    && Ends(s, code, here, e, t, f, x, true) && !e.k.VLocal? && !e.k.VNonreloc?
    && Matches(code, e, f, t, Negation(x))
  }

  lemma Negated(s: Start, code: Code, here: set<nat>, e: ExpDesc, t: set<nat>, f: set<nat>, x: Expr, e': ExpDesc,
                code': Code)
    requires Proper(s) && Halfway(s, code, here, e, t, f, x) && e'.k == e.k && e'.info == e.info
    requires code' == Removed(code, t + f)
    ensures ExpOK(s, code', here, e', f, t, Negation(x))
  {
    hide Sound, Removed, HasExits, IsLiteral, LiteralOf, IsLocal, Plain, Denotes;
    Exchange(s, code, here, e, t, f, x, e', code');
    SoundDisjoint(s, code, here, t, f);
    RemovedCore(s, code, here, e, t, f, code');
  }

  lemma NegationMatches(x: Expr)
    ensures HasExits(Negation(x), true) == HasExits(x, false) && HasExits(Negation(x), false) == HasExits(x, true)
  {
  }

  /** `not` of a comparison inverts it. */
  lemma NotJump(s: Start, code: Code, here: set<nat>, e: ExpDesc, t: set<nat>, f: set<nat>, x: Expr, code': Code)
    requires Proper(s) && ExpOK(s, code, here, e, t, f, x) && e.k.VJmp?
    requires code' == code[e.info - 1 := Inverted(code[e.info - 1])]
    ensures Halfway(s, code', here, e, t, f, x)
  {
    hide Sound, HasExits, DenotesAt;
    SetAlike(s, code, here, t, f, e.info - 1, code');
    forall a, r: Regs | Entry(s, a) ensures DenotesAt(s, code', here, e, t, f, x, true, a, r) {
      assert DenotesAt(s, code, here, e, t, f, x, false, a, r);
      NotJumpAt(s, code, here, e, t, f, x, code', a, r);
    }
    NegationMatches(x);
  }

  lemma NotJumpAt(s: Start, code: Code, here: set<nat>, e: ExpDesc, t: set<nat>, f: set<nat>, x: Expr, m: Code,
                  a: Option<nat>, r: Regs)
    requires Sound(s, code, here, t, f) && CoreOK(s, code, here, e, t, f) && e.k.VJmp?
    requires DenotesAt(s, code, here, e, t, f, x, false, a, r)
    requires m == code[e.info - 1 := Inverted(code[e.info - 1])]
    ensures DenotesAt(s, m, here, e, t, f, x, true, a, r)
  {
    hide Sound, Flow, Enter;
    assert Core(m, e) == Core(code, e);
    if Enter(s, Core(code, e), t + f + here, a, r).Exit? {
      EnterInside(s, Core(code, e), t + f + here, a, r);
    }
  }

  /** `not` of a value in a register is computed by an instruction. */
  lemma NotRegister(s: Start, code: Code, here: set<nat>, e: ExpDesc, t: set<nat>, f: set<nat>, x: Expr, e': ExpDesc,
                    code': Code)
    requires Proper(s) && Ends(s, code, here, e, t, f, x, false) && e.k.VNonreloc? && !IsLiteral(x)
    requires (t == {} <==> !HasExits(x, true)) && (f == {} <==> !HasExits(x, false))
    requires code' == Discharged(code, here) + [Not(0, e.info)]
    requires e' == e.(k := VRelocable, info := |code|)
    ensures Halfway(s, code', {}, e', t, f, x)
  {
    hide Ends, Discharged, HasExits;
    Relocable(s, code, here, e, t, f, x, Not(0, e.info), code');
    assert e' == ExpDesc(VRelocable, |code|, e.t, e.f);
    NegationMatches(x);
  }

  /** `not` of a literal is a literal. */
  lemma NotLiteral(s: Start, code: Code, here: set<nat>, e: ExpDesc, t: set<nat>, f: set<nat>, x: Expr, e': ExpDesc)
    requires ExpOK(s, code, here, e, t, f, x) && e.k.IsConst() && e' == e.(k := if e.k.VFalse? then VTrue else VFalse)
    ensures Halfway(s, code, here, e', t, f, x)
  {
    hide Sound, HasExits, Flow, Enter;
    forall a, r: Regs | Entry(s, a) ensures DenotesAt(s, code, here, e', t, f, x, true, a, r) {
      assert DenotesAt(s, code, here, e, t, f, x, false, a, r);
    }
    NegationMatches(x);
  }
}
