/** Why each step of the code generator keeps the meaning of its expression: code that grows around open jumps. */
module Compile {
  import opened Base
  import opened LuaVM
  import opened Holes
  import opened Patches
  import opened Denote

  // ---- Compatible code ----

  lemma CompatibleTrans(c1: Code, h1: set<nat>, c2: Code, h2: set<nat>, c3: Code, h3: set<nat>)
    requires Compatible(c1, h1, c2, h2) && Compatible(c2, h2, c3, h3) && Paired(c1)
    ensures Compatible(c1, h1, c3, h3)
  {
    forall p | 0 <= p < |c1| ensures Kept(c1, h1, c3, h3, p) {
      assert Kept(c1, h1, c2, h2, p) && Kept(c2, h2, c3, h3, p);
      if c1[p].TestSet? {
        assert Kept(c1, h1, c2, h2, p + 1);
      }
    }
  }

  lemma CompatiblePrefix(c1: Code, h1: set<nat>, c2: Code, h2: set<nat>, k: nat)
    requires Compatible(c1, h1, c2, h2) && |c1| <= k <= |c2|
    ensures Compatible(c1, h1, c2[..k], h2)
  {
    forall p | 0 <= p < |c1| ensures Kept(c1, h1, c2[..k], h2, p) {
      assert Kept(c1, h1, c2, h2, p);
    }
  }

  /** Jumps that stay open on both sides. */
  lemma CompatibleWiden(c1: Code, h1: set<nat>, c2: Code, h2: set<nat>, more: set<nat>)
    requires Compatible(c1, h1, c2, h2)
    ensures Compatible(c1, h1 + more, c2, h2 + more)
  {
    forall p | 0 <= p < |c1| ensures Kept(c1, h1 + more, c2, h2 + more, p) {
      assert Kept(c1, h1, c2, h2, p);
    }
  }

  /** A jump that is not open keeps what it carries. */
  lemma CompatibleCarry(c1: Code, h1: set<nat>, c2: Code, h2: set<nat>, j: nat, r: Regs)
    requires Compatible(c1, h1, c2, h2) && j < |c1| && j !in h1
    ensures Carry(c2, j, r) == Carry(c1, j, r)
  {
    if j > 0 {
      assert Kept(c1, h1, c2, h2, j - 1);
    }
  }

  // ---- Entering ----

  lemma EnterInside(s: Start, code: Code, h: set<nat>, a: Option<nat>, r: Regs)
    requires Enter(s, code, h, a, r).Exit?
    ensures var j := Enter(s, code, h, a, r).at; j in h && j < |code| && code[j].Jmp?
  {
    match a
    case None => ExitInside(s.env, code, h, |s.code|, r);
    case Some(j) => TakeInside(s.env, code, h, j, r);
  }

  lemma EnterExtends(s: Start, c1: Code, h1: set<nat>, c2: Code, h2: set<nat>, a: Option<nat>, r: Regs)
    requires Compatible(c1, h1, c2, h2) && Enter(s, c1, h1, a, r) != Stuck
    ensures Enter(s, c2, h2, a, r) == Continue(s.env, c1, c2, h2, Enter(s, c1, h1, a, r))
  {
    match a
    case None => Extend(s.env, c1, h1, c2, h2, |s.code|, r);
    case Some(j) =>
      assert Kept(c1, h1, c2, h2, j);
      ExtendTake(s.env, c1, h1, c2, h2, j, r);
  }

  /** The same jumps are open: nothing changes. */
  lemma EnterSame(s: Start, c1: Code, c2: Code, h: set<nat>, a: Option<nat>, r: Regs)
    requires Compatible(c1, h, c2, h) && |c1| == |c2| && Enter(s, c1, h, a, r) != Stuck
    ensures Enter(s, c2, h, a, r) == Enter(s, c1, h, a, r)
  {
    EnterExtends(s, c1, h, c2, h, a, r);
    if Enter(s, c1, h, a, r).Exit? {
      EnterInside(s, c1, h, a, r);
      assert Kept(c1, h, c2, h, Enter(s, c1, h, a, r).at);
    }
  }

  /** Open jumps from before the start do not matter, unless they waited then. */
  lemma EnterForward(s: Start, code: Code, h: set<nat>, h': set<nat>, a: Option<nat>, r: Regs)
    requires Entry(s, a) && Grown(s, code, h)
    requires forall j :: j >= |s.code| || j in s.here ==> (j in h <==> j in h')
    ensures Enter(s, code, h', a, r) == Enter(s, code, h, a, r)
  {
    match a
    case None => RunForward(s.env, code, h', h, |s.code|, r);
    case Some(j) =>
      if j !in h {
        assert Onward(s, code, j);
        TakeForward(s.env, code, h', h, j, r);
      }
  }

  // ---- Emission ----

  /** Instructions follow c: the exits stay open, the waiting jumps lead to the first new instruction. */
  ghost predicate Emits(c: Code, exits: set<nat>, here: set<nat>, code': Code, open: set<nat>) {
    && |c| <= |code'| && code'[..|c|] == Discharged(c, here) && Paired(c)
    && exits !! here && (forall j :: j in exits + here ==> j < |c| && c[j].Jmp?)
    && (forall j: nat :: j < |c| ==> (j in open <==> j in exits))
  }

  lemma EmitAt(c: Code, exits: set<nat>, here: set<nat>, code': Code, open: set<nat>, p: nat)
    requires Emits(c, exits, here, code', open) && p < |c|
    ensures code'[p] == if p in here then Jmp(|c| - (p + 1))
                        else if p + 1 in here && c[p].TestSet? then Test(c[p].b, c[p].flag) else c[p]
  {
    assert code'[p] == code'[..|c|][p];
  }

  lemma EmitCompatible(c: Code, exits: set<nat>, here: set<nat>, code': Code, open: set<nat>)
    requires Emits(c, exits, here, code', open)
    ensures Compatible(c, exits + here, code', open)
  {
    forall p | 0 <= p < |c| ensures Kept(c, exits + here, code', open, p) {
      EmitAt(c, exits, here, code', open, p);
    }
  }

  lemma EmitCarry(c: Code, exits: set<nat>, here: set<nat>, code': Code, open: set<nat>, j: nat, r: Regs)
    requires Emits(c, exits, here, code', open) && j in exits
    ensures j < |c| && c[j].Jmp? && code'[j].Jmp? && Carry(code', j, r) == Carry(c, j, r)
  {
    assert j in exits + here;
    EmitAt(c, exits, here, code', open, j);
    if j > 0 {
      assert j - 1 in here ==> c[j - 1].Jmp? by {
        assert j - 1 in here ==> j - 1 in exits + here;
      }
      EmitAt(c, exits, here, code', open, j - 1);
    }
  }

  /** Where the code ended, and where its jumps waited, it goes on with the new instructions. */
  lemma EnterEmitted(s: Start, c: Code, exits: set<nat>, here: set<nat>, code': Code, open: set<nat>, a: Option<nat>,
                     r: Regs)
    requires Emits(c, exits, here, code', open) && Enter(s, c, exits + here, a, r) != Stuck
    ensures var o := Enter(s, c, exits + here, a, r);
            && (o.Exit? ==> o.at in exits + here && o.at < |c| && c[o.at].Jmp?)
            && Enter(s, code', open, a, r) ==
               if o.Exit? && o.at !in here then o else Run(s.env, code', open, |c|, o.regs)
  {
    hide Discharged, Run;
    EmitCompatible(c, exits, here, code', open);
    EnterExtends(s, c, exits + here, code', open, a, r);
    var o := Enter(s, c, exits + here, a, r);
    if o.Exit? {
      EnterInside(s, c, exits + here, a, r);
      EmitAt(c, exits, here, code', open, o.at);
      if o.at in here {
        if o.at > 0 {
          assert o.at - 1 in here ==> o.at - 1 in exits + here;
          EmitAt(c, exits, here, code', open, o.at - 1);
        }
      }
    }
  }

  lemma EmitGrown(s: Start, c: Code, exits: set<nat>, here: set<nat>, code': Code, open: set<nat>)
    requires Proper(s) && Grown(s, c, exits + here) && Emits(c, exits, here, code', open)
    ensures Grown(s, code', open)
  {
    hide Discharged, Paired, Kept;
    EmitCompatible(c, exits, here, code', open);
    CompatibleTrans(s.code, s.here, c, exits + here, code', open);
    forall j | j in s.here && j !in open ensures Onward(s, code', j) {
      assert j < |s.code| <= |c|;
      EmitAt(c, exits, here, code', open, j);
      if j !in here {
        assert j !in exits + here;
        assert Onward(s, c, j);
      }
    }
  }

  /** The exits stay the expression's own jumps. */
  lemma EmitHoles(s: Start, c: Code, exits: set<nat>, here: set<nat>, code': Code, open: set<nat>)
    requires OwnHoles(s, c, exits + here) && Emits(c, exits, here, code', open)
    ensures OwnHoles(s, code', exits)
  {
    hide Discharged, Paired;
    forall j | j in exits ensures j < |code'| && code'[j].Jmp? && (j >= |s.code| || j in s.here) {
      assert j in exits + here;
      EmitAt(c, exits, here, code', open, j);
    }
  }

  /** A test and its jump, or an instruction that is no test. */
  lemma PairedEmit(c: Code, here: set<nat>, tail: Code, code': Code)
    requires Paired(c) && Paired(tail) && code' == Discharged(c, here) + tail
    ensures Paired(code')
  {
    forall p | 0 <= p < |code'| && code'[p].IsTest() ensures p + 1 < |code'| && code'[p + 1].Jmp? {
      if p < |c| {
        assert c[p].IsTest();
      } else {
        assert tail[p - |c|].IsTest();
        assert code'[p + 1] == tail[p + 1 - |c|];
      }
    }
  }
}
