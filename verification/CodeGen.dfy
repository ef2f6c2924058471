/** The code generator of lcode.c: a growing code array whose pending jumps are linked lists inside it. */
module CodeGen {
  import opened Base
  import opened LuaVM
  import opened Logic
  import opened Patches
  import opened Holes
  import opened Denote
  import opened ShortCircuit
  import opened Negate
  import opened Settling
  import opened Comparing
  import opened JumpLists

  class FuncState {
    var code: Code
    var jpc: int
    var freereg: nat
    var maxstack: nat
    const nactvar: nat
    ghost var waiting: seq<nat>         // the jumps in the list jpc

    constructor (nactvar: nat)
      requires nactvar < MAXSTACK
      ensures this.nactvar == nactvar && freereg == nactvar && code == [] && Valid() && waiting == []
    {
      this.nactvar := nactvar;
      code, jpc, freereg, maxstack, waiting := [], NO_JUMP, nactvar, if nactvar > 2 then nactvar else 2, [];
    }

    ghost predicate Valid()
      reads this
    {
      IsList(code, jpc, waiting) && freereg <= maxstack < MAXSTACK
    }

    /** The limits of the implementation: the longest jump (MAXARG_sBx), and the registers of a function (MAXSTACK). */
    predicate Limit()
      reads this
    {
      |code| > 131071 || freereg + 1 >= 250
    }

    /** fixjump. */
    method FixJump(j: nat, dest: int) returns (r: Result<()>)
      requires j < |code| && code[j].Jmp? && 0 <= dest <= |code|
      modifies `code
      ensures r.Ok? <==> -131071 <= dest - (j + 1) <= 131071
      ensures r.Ok? ==> code == old(code)[j := Jmp(dest - (j + 1))]
      ensures r.Err? ==> Limit() && code == old(code)
    {
      var offset := dest - (j + 1);
      if offset > MAXARG_sBx || offset < -MAXARG_sBx {
        return Err;
      }
      code := code[j := Jmp(offset)];
      return Ok(());
    }

    /** luaK_concat: the list b goes to the end of the list a. */
    method Concat(l1: int, l2: int, ghost a: seq<nat>, ghost b: seq<nat>) returns (r: Result<int>)
      requires IsList(code, l1, a) && IsList(code, l2, b) && forall x :: x in a ==> x !in b
      modifies `code
      ensures r.Ok? ==> IsList(code, r.value, a + b) && Relinked(old(code), code, Elems(a))
      ensures r.Ok? && (a == [] || b == []) ==> code == old(code)
      ensures r.Err? ==> Limit()
    {
      assert a + [] == a && [] + b == b;
      if l2 == NO_JUMP {
        return Ok(l1);
      } else if l1 == NO_JUMP {
        return Ok(l2);
      }
      var list := l1;
      ghost var i := 0;
      while Link(code, list) != NO_JUMP
        invariant code == old(code) && 0 <= i < |a| && list == a[i]
        decreases |a| - i
      {
        NextInList(code, l1, a, i);
        list, i := Link(code, list), i + 1;
      }
      NextInList(code, l1, a, i);
      var _ :- FixJump(list, l2);
      NoDupConcat(a, b);
      assert Relinked(old(code), code, Elems(a)) by {
        assert list in a;
      }
      ConcatIsList(old(code), code, l1, l2, a, b);
      return Ok(l1);
    }

    /** need_value. */
    method NeedValue(list: int, ghost s: seq<nat>) returns (need: bool)
      requires IsList(code, list, s)
      ensures need <==> exists j :: j in s && !CarriesValue(code, j)
    {
      var j := list;
      ghost var i := 0;
      while j != NO_JUMP
        invariant 0 <= i <= |s| && j == if i < |s| then s[i] else NO_JUMP
        invariant forall k :: 0 <= k < i ==> CarriesValue(code, s[k])
        decreases |s| - i
      {
        if !code[JumpControl(code, j)].TestSet? {
          assert s[i] in s;
          return true;
        }
        j, i := Link(code, j), i + 1;
      }
      return false;
    }

    /** patchtestreg. */
    method PatchControl(j: nat, reg: nat) returns (patched: bool)
      requires j < |code| && code[j].Jmp?
      modifies `code
      ensures patched == old(CarriesValue(code, j))
      ensures code == if patched then old(code)[j - 1 := PatchTestReg(old(code)[j - 1], reg)] else old(code)
    {
      var i := JumpControl(code, j);
      if !code[i].TestSet? {
        return false;
      }
      code := code[i := PatchTestReg(code[i], reg)];
      return true;
    }

    /** removevalues. */
    method RemoveValues(list: int, ghost s: seq<nat>)
      requires IsList(code, list, s)
      modifies `code
      ensures code == Removed(old(code), Elems(s)) && IsList(code, list, s)
    {
      var j := list;
      ghost var i := 0;
      RemovedNone(code);
      while j != NO_JUMP
        invariant 0 <= i <= |s| && j == if i < |s| then s[i] else NO_JUMP
        invariant code == Removed(old(code), Elems(s[..i])) && IsList(code, list, s)
        decreases |s| - i
      {
        ElemsNext(s, i);
        ghost var was := code;
        var _ := PatchControl(j, NO_REG);
        RemoveMember(old(code), Elems(s[..i]), j);
        ListUntouched(was, code, list, s);
        j, i := Link(code, j), i + 1;
      }
      assert s[..i] == s;
    }

    /** patchlistaux. */
    method PatchListAux(list: int, vtarget: int, reg: nat, dtarget: int, ghost s: seq<nat>) returns (r: Result<()>)
      requires IsList(code, list, s) && 0 <= vtarget <= |code| && NO_JUMP <= dtarget <= |code|
      requires dtarget == NO_JUMP ==> forall j :: j in s ==> CarriesValue(code, j)
      modifies `code
      ensures r.Ok? ==> code == Patched(old(code), Elems(s), vtarget, reg, dtarget)
      ensures r.Err? ==> Limit()
    {
      hide Patched, Elems, IsList, NoDup, PatchTestReg;
      var j := list;
      ghost var i := 0;
      PatchedNone(code, vtarget, reg, dtarget);
      NoElems([]);
      FirstInList(code, list, s);
      while j != NO_JUMP
        invariant 0 <= i <= |s| && j == if i < |s| then s[i] else NO_JUMP
        invariant code == Patched(old(code), Elems(s[..i]), vtarget, reg, dtarget)
        decreases |s| - i
      {
        PatchNext(old(code), list, s, i, vtarget, reg, dtarget);
        var next := Link(code, j);
        var patched := PatchControl(j, reg);
        if patched {
          var _ :- FixJump(j, vtarget);
        } else {
          var _ :- FixJump(j, dtarget);
        }
        j, i := next, i + 1;
      }
      assert s[..i] == s;
      return Ok(());
    }

    // ---- Emission ----

    /** dischargejpc. */
    method DischargeJpc() returns (r: Result<()>)
      requires Valid()
      modifies this
      ensures freereg == old(freereg) && maxstack == old(maxstack)
      ensures r.Ok? ==> Valid() && waiting == [] && code == Discharged(old(code), Elems(old(waiting)))
      ensures r.Err? ==> Limit()
    {
      var _ :- PatchListAux(jpc, |code|, NO_REG, |code|, waiting);
      jpc, waiting := NO_JUMP, [];
      return Ok(());
    }

    /** luaK_code: the waiting jumps lead to the new instruction. */
    method Emit(i: Instr) returns (r: Result<nat>)
      requires Valid()
      modifies this
      ensures freereg == old(freereg) && maxstack == old(maxstack)
      ensures r.Ok? ==> Valid() && waiting == [] && r.value == |old(code)|
                        && code == Discharged(old(code), Elems(old(waiting))) + [i]
      ensures r.Err? ==> Limit()
    {
      var _ :- DischargeJpc();
      code := code + [i];
      return Ok(|code| - 1);
    }

    /** luaK_jump: the jumps that waited for this instruction are put on hold with it. */
    method Jump() returns (r: Result<nat>, ghost list: seq<nat>)
      requires Valid()
      modifies this
      ensures freereg == old(freereg) && maxstack == old(maxstack)
      ensures r.Ok? ==> Valid() && waiting == [] && r.value == |old(code)| && list == [r.value] + old(waiting)
                        && IsList(code, r.value, list)
                        && |code| == |old(code)| + 1 && code[..|old(code)|] == old(code)
                        && code[r.value].Jmp? && (old(waiting) == [] ==> code[r.value] == Jmp(NO_JUMP))
      ensures r.Err? ==> Limit()
    {
      hide Discharged, Relinked;
      list := [];
      var held := jpc;
      ghost var was, saved := code, waiting;
      jpc, waiting := NO_JUMP, [];
      DischargeNothing(code);
      var j :- Emit(Jmp(NO_JUMP));
      list := [j] + saved;
      ListGrows(was, code, held, saved);
      assert forall k :: k in saved ==> k < |was|;
      NewJump(was, code, j);
      ghost var one := code;
      var l :- Concat(j, held, [j], saved);
      JumpOnly(was, one, code, j);
      return Ok(l), list;
    }

    /** condjump. */
    method CondJump(i: Instr) returns (r: Result<nat>)
      requires Valid()
      modifies this
      ensures freereg == old(freereg) && maxstack == old(maxstack)
      ensures r.Ok? ==> Valid() && waiting == [] && r.value == |code| - 1 && IsList(code, r.value, [r.value])
                        && code == Discharged(old(code), Elems(old(waiting))) + [i, Jmp(NO_JUMP)]
      ensures r.Err? ==> Limit()
    {
      var p :- Emit(i);
      ghost var was := code;
      var j, list :- Jump();
      assert list == [j];
      assert code == was + [Jmp(NO_JUMP)] by {
        assert code == code[..|was|] + [code[j]];
      }
      return Ok(j);
    }

    // ---- Registers ----

    /** luaK_checkstack and luaK_reserveregs. */
    method ReserveRegs(n: nat) returns (r: Result<()>)
      requires Valid()
      modifies `freereg, `maxstack
      ensures r.Ok? ==> Valid() && freereg == old(freereg) + n && freereg < 250
      ensures r.Err? ==> freereg == old(freereg) && freereg + n >= 250
    {
      var newstack := freereg + n;
      if newstack > maxstack {
        if newstack >= MAXSTACK {
          return Err;
        }
        maxstack := newstack;
      }
      freereg := freereg + n;
      return Ok(());
    }

    /** freereg. */
    method FreeReg(reg: nat)
      requires Valid() && (reg >= nactvar ==> reg + 1 == freereg)
      modifies `freereg
      ensures Valid() && freereg == if reg >= nactvar then reg else old(freereg)
    {
      if reg >= nactvar {
        freereg := freereg - 1;
      }
    }

    /** freeexp. */
    method FreeExp(e: ExpDesc)
      requires Valid() && (e.k.VNonreloc? && e.info >= nactvar ==> e.info + 1 == freereg)
      modifies `freereg
      ensures Valid() && freereg == if e.k.VNonreloc? && e.info >= nactvar then e.info else old(freereg)
    {
      if e.k.VNonreloc? {
        FreeReg(e.info);
      }
    }

    // ---- Values ----

    ghost predicate Scope(s: Start) { Proper(s) && s.nactvar == nactvar }

    /** The descriptor and its two lists, for the expression x compiled since s. */
    ghost predicate Has(s: Start, e: ExpDesc, t: seq<nat>, f: seq<nat>, x: Expr)
      reads this
    {
      && Valid() && Scope(s)
      && IsList(code, e.t, t) && IsList(code, e.f, f)
      && ExpOK(s, code, Elems(waiting), e, Elems(t), Elems(f), x)
    }

    /** luaK_dischargevars. */
    method DischargeVars(e: ExpDesc, ghost s: Start, ghost t: seq<nat>, ghost f: seq<nat>, ghost x: Expr)
      returns (r: Result<ExpDesc>)
      requires Has(s, e, t, f, x)
      modifies this
      ensures freereg == old(freereg)
      ensures r.Ok? ==> Has(s, r.value, t, f, x) && r.value.t == e.t && r.value.f == e.f
                        && r.value.k == match e.k case VLocal => VNonreloc case VUpval => VRelocable case k => k
      ensures r.Ok? && !e.k.VLocal? && !e.k.VUpval? ==> r.value == e && unchanged(this)
      ensures r.Err? ==> Limit()
    {
      hide IsList, ExpOK, Elems, Discharged, Proper;
      match e.k
      case VLocal =>
        LocalIsPlace(s, code, Elems(waiting), e, Elems(t), Elems(f), x);
        return Ok(e.(k := VNonreloc));
      case VUpval =>
        ghost var was, here := code, Elems(waiting);
        ExpFacts(s, was, here, e, Elems(t), Elems(f), x);
        var p :- Emit(GetUpval(0, e.info));
        NoElems(waiting);
        UpvalLoads(s, was, here, e, Elems(t), Elems(f), x, code);
        GrowLists(was, here, GetUpval(0, e.info), code, e, t, f);
        return Ok(e.(k := VRelocable, info := p));
      case _ => return Ok(e);
    }

    /** The value is in `reg` at the end of the code, unless an exit was taken. */
    ghost predicate LoadedIn(s: Start, reg: nat, e: ExpDesc, t: seq<nat>, f: seq<nat>, x: Expr)
      reads this
    {
      && Valid() && Scope(s)
      && IsList(code, e.t, t) && IsList(code, e.f, f)
      && Loaded(s, code, Elems(waiting), reg, Elems(t), Elems(f), x)
    }

    /** discharge2reg. */
    method Discharge2Reg(e0: ExpDesc, reg: nat, ghost s: Start, ghost t: seq<nat>, ghost f: seq<nat>, ghost x: Expr)
      returns (r: Result<ExpDesc>)
      requires Has(s, e0, t, f, x)
      modifies this
      ensures freereg == old(freereg)
      ensures r.Ok? ==> (r.value.k.VJmp? && r.value == e0 && unchanged(this))
                        || (r.value == e0.(k := VNonreloc, info := reg) && !e0.k.VJmp?
                            && LoadedIn(s, reg, r.value, t, f, x) && (reg >= nactvar ==> waiting == []))
      ensures r.Err? ==> Limit()
    {
      hide Ends, Discharged, IsList, Loaded, Matches, Proper, Elems;
      var e :- DischargeVars(e0, s, t, f, x);
      ghost var was, here := code, Elems(waiting);
      ExpFacts(s, was, here, e, Elems(t), Elems(f), x);
      NoElems(waiting);
      match e.k {
        case VRelocable =>
          code := code[e.info := WithA(code[e.info], reg)];
          Relocate(s, was, here, e, Elems(t), Elems(f), x, reg, code);
          KeepLists(was, code, e.info, e, t, f, jpc, waiting);
        case VNonreloc =>
          if reg != e.info {
            var p :- Emit(Move(reg, e.info));
            EmitLoad(was, here, Move(reg, e.info), e, reg, s, t, f, x);
          } else {
            InPlace(s, code, here, e, Elems(t), Elems(f), x);
          }
        case VTrue =>
          var p :- Emit(LoadBool(reg, true, false));
          EmitLoad(was, here, LoadBool(reg, true, false), e, reg, s, t, f, x);
        case VFalse =>
          var p :- Emit(LoadBool(reg, false, false));
          EmitLoad(was, here, LoadBool(reg, false, false), e, reg, s, t, f, x);
        case VK(v) =>
          var p :- Emit(LoadK(reg, v));
          EmitLoad(was, here, LoadK(reg, v), e, reg, s, t, f, x);
        case _ => return Ok(e);
      }
      return Ok(e.(k := VNonreloc, info := reg));
    }

    /** The instruction just emitted has put the value into `reg`. */
    lemma EmitLoad(was: Code, here: set<nat>, i: Instr, e: ExpDesc, reg: nat, s: Start, t: seq<nat>, f: seq<nat>,
                   x: Expr)
      requires Valid() && Scope(s) && waiting == [] && code == Discharged(was, here) + [i]
      requires IsList(was, e.t, t) && IsList(was, e.f, f) && ExpOK(s, was, here, e, Elems(t), Elems(f), x)
      requires e.k.VNonreloc? || e.k.IsConst()
      requires i == if e.k.VNonreloc? then Move(reg, e.info) else if e.k.VK? then LoadK(reg, e.k.v)
                    else LoadBool(reg, e.k.VTrue?, false)
      ensures LoadedIn(s, reg, e.(k := VNonreloc, info := reg), t, f, x)
    {
      hide Ends, Discharged, IsList, Loaded, Matches, Proper, Elems;
      ExpFacts(s, was, here, e, Elems(t), Elems(f), x);
      Load(s, was, here, e, Elems(t), Elems(f), x, reg, i, code);
      GrowLists(was, here, i, code, e, t, f);
      NoElems(waiting);
    }

    /** The value is in a register, either of a local variable or the first free one. */
    ghost predicate InAny(s: Start, e: ExpDesc, t: seq<nat>, f: seq<nat>, x: Expr)
      reads this
    {
      && Valid() && Scope(s) && e.k.VNonreloc?
      && IsList(code, e.t, t) && IsList(code, e.f, f)
      && Ends(s, code, Elems(waiting), e, Elems(t), Elems(f), x, false)
      && if e.info < nactvar then freereg == s.free else e.info == s.free && freereg == s.free + 1
    }

    /** discharge2anyreg, for what is not a jump. */
    method Discharge2AnyReg(e: ExpDesc, ghost s: Start, ghost t: seq<nat>, ghost f: seq<nat>, ghost x: Expr)
      returns (r: Result<ExpDesc>)
      requires Has(s, e, t, f, x) && freereg == s.free && (e.k.VRelocable? || e.k.VNonreloc? || e.k.IsConst())
      modifies this
      ensures r.Ok? ==> InAny(s, r.value, t, f, x) && r.value.t == e.t && r.value.f == e.f
      ensures r.Err? ==> Limit()
    {
      hide Ends, IsList, Loaded, Matches, Elems;
      if e.k.VNonreloc? {
        return Ok(e);
      }
      var _ :- ReserveRegs(1);
      var e' :- Discharge2Reg(e, freereg - 1, s, t, f, x);
      LoadedEnds(s, code, Elems(waiting), e', Elems(t), Elems(f), x);
      return Ok(e');
    }

    // ---- exp2reg ----

    /** Both lists of exits are patched: to the end those that carry a value, to the LOADBOOLs the others. */
    method PatchExits(e: ExpDesc, reg: nat, pf: int, pt: int, ghost c: Code, ghost tail: Code, ghost t: seq<nat>,
                      ghost f: seq<nat>)
      returns (r: Result<()>)
      requires Valid() && code == c + tail && NO_JUMP <= pf <= |code| && NO_JUMP <= pt <= |code|
      requires IsList(code, e.t, t) && IsList(code, e.f, f)
      requires Elems(t) !! Elems(f) && Elems(waiting) !! Elems(t) && Elems(waiting) !! Elems(f)
      requires pf == NO_JUMP ==> forall j :: j in f ==> CarriesValue(code, j)
      requires pt == NO_JUMP ==> forall j :: j in t ==> CarriesValue(code, j)
      modifies `code
      ensures r.Ok? ==> Valid() && code == Settled(c, tail, Elems(t), Elems(f), reg, pf, pt)
      ensures r.Err? ==> Limit()
    {
      hide IsList, Patched;
      var end := |code|;
      ListJumps(code, e.t, t);
      ListJumps(code, e.f, f);
      ListPatched(code, Elems(f), end, reg, pf, e.t, t);
      ListPatched(code, Elems(f), end, reg, pf, jpc, waiting);
      var _ :- PatchListAux(e.f, end, reg, pf, f);
      ListJumps(code, e.t, t);
      ListPatched(code, Elems(t), end, reg, pt, jpc, waiting);
      var _ :- PatchListAux(e.t, end, reg, pt, t);
      return Ok(());
    }

    /** luaK_patchtohere: the jumps of the list will lead to the next instruction. */
    method PatchToHere(list: int, ghost l: seq<nat>) returns (r: Result<()>)
      requires Valid() && IsList(code, list, l) && forall x :: x in waiting ==> x !in l
      modifies this
      ensures freereg == old(freereg) && maxstack == old(maxstack)
      ensures r.Ok? ==> Valid() && waiting == old(waiting) + l && Relinked(old(code), code, Elems(old(waiting)))
      ensures r.Ok? && old(waiting) == [] ==> code == old(code)
      ensures r.Err? ==> Limit()
    {
      hide IsList, Relinked;
      var h :- Concat(jpc, list, waiting, l);
      jpc, waiting := h, waiting + l;
      return Ok(());
    }

    /** The LOADBOOLs for exits without a value; a value already loaded jumps over them. */
    method LoadLabels(reg: nat, isJump: bool) returns (r: Result<(int, int)>, ghost tail: Code)
      requires Valid() && (isJump ==> waiting == [])
      modifies this
      ensures freereg == old(freereg) && maxstack == old(maxstack)
      ensures r.Ok? ==> Valid() && code == old(code) + tail
      ensures r.Ok? ==> var load, n := [LoadBool(reg, false, true), LoadBool(reg, true, false)], |old(code)|;
                        if isJump then tail == load && waiting == [] && r.value == (n, n + 1)
                        else |tail| == 3 && tail[0].Jmp? && tail[1..] == load && r.value == (n + 1, n + 2)
                             && Elems(waiting) == Elems(old(waiting)) + {n}
      ensures r.Err? ==> Limit()
    {
      hide IsList, Discharged, Relinked, Elems;
      tail := [];
      ghost var was, n := code, |code|;
      var fj := NO_JUMP;
      ghost var list: seq<nat> := [];
      if !isJump {
        fj, list :- Jump();
      } else {
        EmptyList(code);
      }
      ghost var mid := code;
      DischargeNothing(code);
      var pf :- Emit(LoadBool(reg, false, true));
      DischargeNothing(code);
      var pt :- Emit(LoadBool(reg, true, false));
      LabelList(mid, code, reg, fj, list);
      var _ :- PatchToHere(fj, list);
      tail := code[n..];
      assert waiting == list;
      ElemsAppend([n], old(waiting));
      ElemsOne(n);
      assert code == mid + [LoadBool(reg, false, true), LoadBool(reg, true, false)];
      assert mid == was + mid[n..];
      return Ok((pf, pt)), tail;
    }

    /**
     * The exits of an expression whose value is loaded, or is still a jump, lead to the end with the value in `reg`.
     */
    method SettleExits(e: ExpDesc, reg: nat, isJump: bool, ghost t: seq<nat>, ghost f: seq<nat>)
      returns (r: Result<ExpDesc>, ghost tail: Code, ghost pf: int, ghost pt: int)
      requires Valid() && IsList(code, e.t, t) && IsList(code, e.f, f)
      requires Elems(t) !! Elems(f) && Elems(waiting) !! Elems(t) && Elems(waiting) !! Elems(f)
      requires isJump ==> waiting == [] && exists j :: j in t && !CarriesValue(code, j)
      modifies this
      ensures freereg == old(freereg)
      ensures r.Ok? ==> Valid() && r.value == ExpDesc(VNonreloc, reg, NO_JUMP, NO_JUMP)
      ensures r.Ok? ==> code == Settled(old(code), tail, Elems(t), Elems(f), reg, pf, pt)
      ensures r.Ok? && isJump ==> tail == [LoadBool(reg, false, true), LoadBool(reg, true, false)]
                                  && waiting == [] && pf == |old(code)| && pt == |old(code)| + 1
      ensures r.Ok? && !isJump ==> |tail| != 2
                                   && Landing(old(code), Elems(t), Elems(f), tail, Elems(old(waiting)), Elems(waiting),
                                              reg, pf, pt)
      ensures r.Err? ==> Limit()
    {
      hide IsList, Elems, Settled;
      ghost var c, here := code, Elems(waiting);
      tail, pf, pt := [], NO_JUMP, NO_JUMP;
      ElemsIn(t);
      ElemsIn(f);
      assert c + tail == c;
      var need := NeedValue(e.t, t);
      if !need {
        need := NeedValue(e.f, f);
      }
      var labels := (NO_JUMP, NO_JUMP);
      if need {
        labels, tail :- LoadLabels(reg, isJump);
        pf, pt := labels.0, labels.1;
      }
      if !isJump {
        LandingOK(c, Elems(t), Elems(f), tail, here, Elems(waiting), reg, pf, pt);
      }
      NoElems(waiting);
      ExitsGrow(c, tail, e, t, f, here, waiting);
      var _ :- PatchExits(e, reg, labels.0, labels.1, c, tail, t, f);
      return Ok(ExpDesc(VNonreloc, reg, NO_JUMP, NO_JUMP)), tail, pf, pt;
    }

    /** The result is in `reg` at the end of the code; a free register is reached by no jump that carries a value. */
    ghost predicate HeldIn(s: Start, reg: nat, x: Expr)
      reads this
    {
      && Valid() && Scope(s) && Held(s, code, Elems(waiting), reg, x)
      && (reg >= nactvar ==> NoValues(code, Elems(waiting)))
    }

    /** The jump of a comparison joins its true exits. */
    method JoinJump(e: ExpDesc, ghost s: Start, ghost t: seq<nat>, ghost f: seq<nat>, ghost x: Expr)
      returns (r: Result<int>)
      requires Has(s, e, t, f, x) && e.k.VJmp?
      modifies `code
      ensures r.Ok? ==> Valid() && waiting == [] && IsList(code, r.value, t + [e.info]) && IsList(code, e.f, f)
                        && Elems(t + [e.info]) !! Elems(f) && Elems(t + [e.info]) == Elems(t) + {e.info}
                        && Relinked(old(code), code, Elems(t)) && !CarriesValue(code, e.info)
      ensures r.Err? ==> Limit()
    {
      hide IsList, ExpOK, Ends, Elems, Relinked, CarriesValue, Sound, CoreOK, Proper;
      ghost var was, here := code, Elems(waiting);
      ExpFacts(s, code, here, e, Elems(t), Elems(f), x);
      EndsParts(s, code, here, e, Elems(t), Elems(f), x);
      JumpList(s, code, here, e, t, f);
      NoElems(waiting);
      EmptyList(code);
      var l :- Concat(e.t, e.info, t, [e.info]);
      JumpJoins(s, was, here, e, t, f, code);
      EmptyList(code);
      return Ok(l);
    }

    /** exp2reg. */
    method Exp2Reg(e0: ExpDesc, reg: nat, ghost s: Start, ghost t0: seq<nat>, ghost f: seq<nat>, ghost x: Expr)
      returns (r: Result<ExpDesc>)
      requires Has(s, e0, t0, f, x) && reg < NO_REG
      modifies this
      ensures freereg == old(freereg)
      ensures r.Ok? ==> r.value == ExpDesc(VNonreloc, reg, NO_JUMP, NO_JUMP) && HeldIn(s, reg, x)
      ensures r.Err? ==> Limit()
    {
      hide IsList, ExpOK, Ends, Relinked, Elems, Landing, Settled, Loaded, Held, NoValues, Proper, CarriesValue, Sound,
        CoreOK;
      ghost var was := code;
      var e :- Discharge2Reg(e0, reg, s, t0, f, x);
      ghost var t := t0;
      if e.k.VJmp? {
        var l :- JoinJump(e, s, t, f, x);
        NoElems(waiting);
        e, t := e.(t := l), t + [e.info];
      } else {
        LoadedParts(s, code, Elems(waiting), reg, Elems(t), Elems(f), x);
      }
      ghost var c, here := code, Elems(waiting);
      HasJumps(code, e.t, e.f, t, f);
      NoElems(t);
      NoElems(f);
      if e.t != e.f {
        assert e.k.VJmp? ==> e.info in t && !CarriesValue(code, e.info);
        ghost var tail, pf, pt;
        r, tail, pf, pt := SettleExits(e, reg, e.k.VJmp?, t, f);
        if r.Err? {
          return;
        }
        NoElems(waiting);
        if e.k.VJmp? {
          EndsParts(s, was, {}, e0, Elems(t0), Elems(f), x);
          SettleJump(s, was, {}, e0, Elems(t0), Elems(f), x, c, reg);
          assert NoValues(code, {}) by {
            NoneCarries(code);
          }
        } else {
          SettleLoaded(s, c, Elems(t), Elems(f), tail, here, Elems(waiting), reg, pf, pt, x);
          if reg >= nactvar {
            NoElems([]);
            LoadedParts(s, c, here, reg, Elems(t), Elems(f), x);
            SettledNoValues(c, Elems(t), Elems(f), tail, here, Elems(waiting), reg, pf, pt);
          }
        }
      } else {
        LoadedHeld(s, code, here, reg, x);
        NoElems(waiting);
        NoneCarries(code);
      }
      return Ok(ExpDesc(VNonreloc, reg, NO_JUMP, NO_JUMP));
    }

    // ---- exp2nextreg, exp2anyreg ----

    /** luaK_exp2nextreg. */
    method Exp2NextReg(e0: ExpDesc, ghost s: Start, ghost t: seq<nat>, ghost f: seq<nat>, ghost x: Expr)
      returns (r: Result<ExpDesc>)
      requires Has(s, e0, t, f, x) && freereg == s.free
      modifies this
      ensures r.Ok? ==> HeldIn(s, s.free, x) && freereg == s.free + 1
                        && r.value == ExpDesc(VNonreloc, s.free, NO_JUMP, NO_JUMP)
      ensures r.Err? ==> Limit()
    {
      hide IsList, Ends, Matches, Elems, Held;
      var e :- DischargeVars(e0, s, t, f, x);
      FreeExp(e);
      var _ :- ReserveRegs(1);
      r := Exp2Reg(e, freereg - 1, s, t, f, x);
    }

    /** The result is an operand without exits: in a register, or a constant. */
    ghost predicate OperandIn(s: Start, e: ExpDesc, x: Expr)
      reads this
    {
      && Valid() && Scope(s) && OperandOK(s, code, Elems(waiting), e, x) && e.t == e.f == NO_JUMP
      && if e.k.VNonreloc? && e.info >= nactvar then e.info == s.free && freereg == s.free + 1 else freereg == s.free
    }

    /** luaK_exp2anyreg; only the result of a call would be in a register that is not one of a local variable. */
    method Exp2AnyReg(e0: ExpDesc, ghost s: Start, ghost t: seq<nat>, ghost f: seq<nat>, ghost x: Expr)
      returns (r: Result<ExpDesc>)
      requires Has(s, e0, t, f, x) && freereg == s.free && (IsLiteral(x) ==> !Quiet(x))
      modifies this
      ensures r.Ok? ==> OperandIn(s, r.value, x) && r.value.k.VNonreloc?
      ensures r.Err? ==> Limit()
    {
      hide IsList, Ends, Elems, Held, IsLiteral, IsLocal, HasExits, LiteralOf, Plain, Proper, OperandOK, NoValues;
      var e :- DischargeVars(e0, s, t, f, x);
      NoElems(t);
      NoElems(f);
      if e.k.VNonreloc? {
        ExpFacts(s, code, Elems(waiting), e, Elems(t), Elems(f), x);
        HasJumps(code, e.t, e.f, t, f);
        if e.t == e.f {
          EmptyList(code);
          QuietOperand(s, code, Elems(waiting), e, e, x);
          return Ok(e);
        }
      }
      assert !Quiet(x);
      ProperFree(s);
      r := Exp2NextReg(e, s, t, f, x);
      if r.Ok? {
        HeldOperand(s, code, Elems(waiting), r.value, x);
      }
    }

    /** luaK_exp2val: a value with exits is put in a register. */
    method Exp2Val(e: ExpDesc, ghost s: Start, ghost t: seq<nat>, ghost f: seq<nat>, ghost x: Expr)
      returns (r: Result<ExpDesc>)
      requires Has(s, e, t, f, x) && freereg == s.free
      modifies this
      ensures r.Ok? && e.t != e.f ==> OperandIn(s, r.value, x) && r.value.k.VNonreloc?
      ensures r.Ok? && e.t == e.f ==> Has(s, r.value, [], [], x) && freereg == s.free
                                      && !r.value.k.VLocal? && !r.value.k.VUpval?
      ensures r.Err? ==> Limit()
    {
      hide IsList, Ends, Elems, IsLiteral, IsLocal, HasExits, LiteralOf, Plain, Proper, OperandOK;
      ExpFacts(s, code, Elems(waiting), e, Elems(t), Elems(f), x);
      HasJumps(code, e.t, e.f, t, f);
      NoElems(t);
      NoElems(f);
      if e.t != e.f {
        r := Exp2AnyReg(e, s, t, f, x);
      } else {
        r := DischargeVars(e, s, t, f, x);
      }
    }

    /** luaK_exp2RK: constants become operands themselves. */
    method Exp2RK(e0: ExpDesc, ghost s: Start, ghost t: seq<nat>, ghost f: seq<nat>, ghost x: Expr)
      returns (r: Result<ExpDesc>)
      requires Has(s, e0, t, f, x) && freereg == s.free
      modifies this
      ensures r.Ok? ==> OperandIn(s, r.value, x)
      ensures r.Err? ==> Limit()
    {
      hide IsList, Ends, Elems, IsLiteral, IsLocal, HasExits, LiteralOf, Plain, Proper, OperandOK;
      NoElems([]);
      var e :- Exp2Val(e0, s, t, f, x);
      if e0.t != e0.f {
        return Ok(e);
      }
      EmptyList(code);
      if e.k.IsConst() {
        QuietOperand(s, code, Elems(waiting), e, e.(k := VK(e.k.Const())), x);
        return Ok(e.(k := VK(e.k.Const())));
      }
      r := Exp2AnyReg(e, s, [], [], x);
    }

    // ---- Conditional jumps ----

    /** invertjump. */
    method InvertJump(j: nat)
      requires Valid() && 1 <= j < |code| && code[j].Jmp? && (code[j - 1].Eq? || code[j - 1].Lt? || code[j - 1].Le?)
      modifies `code
      ensures code == old(code)[j - 1 := Inverted(old(code)[j - 1])]
    {
      var p := JumpControl(code, j);
      code := code[p := Inverted(code[p])];
    }

    /** The code goes on if the value of x is `truth`; the jumps of js are taken otherwise. */
    ghost predicate Branched(s: Start, tl: int, fl: int, t: seq<nat>, f: seq<nat>, j: int, js: seq<nat>, truth: bool,
                             x: Expr)
      reads this
    {
      && Valid() && Scope(s) && freereg == s.free
      && IsList(code, tl, t) && IsList(code, fl, f) && IsList(code, j, js)
      && (forall k :: k in js ==> k !in t && k !in f)
      && (forall k :: k in waiting ==> k !in t && k !in f && k !in js)
      && Goes(s, code, Elems(waiting) + Elems(if truth then t else f), Elems(if truth then f else t) + Elems(js), truth,
              x)
    }

    /** The case of jumponcond where a NOT is taken back, and its operand tested with the opposite sense. */
    method JumpOnNot(e: ExpDesc, cond: bool, ghost s: Start, ghost t: seq<nat>, ghost f: seq<nat>, ghost x: Expr)
      returns (r: Result<nat>)
      requires Has(s, e, t, f, x) && freereg == s.free && e.k.VRelocable? && e.info < |code| && code[e.info].Not?
      modifies this
      ensures r.Ok? ==> Branched(s, e.t, e.f, t, f, r.value, [r.value], !cond, x)
      ensures r.Err? ==> Limit()
    {
      hide IsList, Ends, Elems, Discharged, Goes, Matches, Proper;
      ExpFacts(s, code, Elems(waiting), e, Elems(t), Elems(f), x);
      NoElems(waiting);
      ghost var was := code;
      var ie := code[e.info];
      ListCut(code, e.t, t);
      ListCut(code, e.f, f);
      ListCut(code, jpc, waiting);
      code := code[..|code| - 1];
      DischargeNothing(code);
      ghost var mid := code;
      r := CondJump(Test(ie.b, !cond));
      if r.Ok? {
        BranchLists(mid, {}, Test(ie.b, !cond), code, e, t, f);
        GoIfNot(s, was, {}, e, Elems(t), Elems(f), x, !cond, code);
        ElemsOne(r.value);
        NoElems(waiting);
        assert {} + Elems(if !cond then t else f) == Elems(if !cond then t else f);
      }
    }

    /** jumponcond. */
    method JumpOnCond(e0: ExpDesc, cond: bool, ghost s: Start, ghost t: seq<nat>, ghost f: seq<nat>, ghost x: Expr)
      returns (r: Result<nat>)
      requires Has(s, e0, t, f, x) && freereg == s.free && (e0.k.VRelocable? || e0.k.VNonreloc? || e0.k.VK?)
      requires e0.k.VK? ==> cond
      modifies this
      ensures r.Ok? ==> Branched(s, e0.t, e0.f, t, f, r.value, [r.value], !cond, x)
      ensures r.Err? ==> Limit()
    {
      hide IsList, ExpOK, Ends, Elems, Discharged, Goes, Proper, IsLiteral, HasExits, LiteralOf, Plain, Decided;
      ExpFacts(s, code, Elems(waiting), e0, Elems(t), Elems(f), x);
      if e0.k.VRelocable? && code[e0.info].Not? {
        r := JumpOnNot(e0, cond, s, t, f, x);
        return;
      }
      CondFacts(s, code, Elems(waiting), e0, Elems(t), Elems(f), x, !cond);
      var e :- Discharge2AnyReg(e0, s, t, f, x);
      FreeExp(e);
      ghost var was, here := code, Elems(waiting);
      EndsDisjoint(s, was, here, e, Elems(t), Elems(f), x);
      r := CondJump(TestSet(NO_REG, e.info, cond));
      if r.Ok? {
        CondBranched(was, here, e, !cond, s, t, f, x, r.value);
      }
    }

    /** The test of a register, and its jump. */
    lemma CondBranched(was: Code, here: set<nat>, e: ExpDesc, truth: bool, s: Start, t: seq<nat>, f: seq<nat>, x: Expr,
                       j: nat)
      requires Valid() && Scope(s) && freereg == s.free && waiting == [] && e.k.VNonreloc?
      requires Ends(s, was, here, e, Elems(t), Elems(f), x, false) && IsList(was, e.t, t) && IsList(was, e.f, f)
      requires Elems(t) !! here && Elems(f) !! here
      requires !Plain(x) && (IsLiteral(x) ==> !Decided(x, LiteralOf(x), truth))
      requires (Elems(t) == {} <==> !HasExits(x, true)) && (Elems(f) == {} <==> !HasExits(x, false))
      requires code == Discharged(was, here) + [TestSet(NO_REG, e.info, !truth), Jmp(NO_JUMP)]
      requires j == |code| - 1 && IsList(code, j, [j])
      ensures Branched(s, e.t, e.f, t, f, j, [j], truth, x)
    {
      hide IsList, Ends, Elems, Discharged, Goes, Proper, IsLiteral, HasExits, LiteralOf, Plain, Decided;
      BranchLists(was, here, TestSet(NO_REG, e.info, !truth), code, e, t, f);
      GoIfReg(s, was, here, e, Elems(t), Elems(f), x, truth, code);
      ElemsOne(j);
      NoElems(waiting);
      assert {} + Elems(if truth then t else f) == Elems(if truth then t else f);
    }

    /** What is left of the first operand of a connective: where it went on waits, its exits are in one list. */
    ghost predicate GoneOn(s: Start, head: int, exits: seq<nat>, truth: bool, x: Expr)
      reads this
    {
      && Valid() && Scope(s) && freereg == s.free
      && IsList(code, head, exits)
      && Goes(s, code, Elems(waiting), Elems(exits), truth, x)
    }

    /** The last jump of luaK_goiftrue (truth) and luaK_goiffalse, with the jumps that luaK_jump took over. */
    method LastJump(e0: ExpDesc, truth: bool, ghost s: Start, ghost t: seq<nat>, ghost f: seq<nat>, ghost x: Expr)
      returns (r: Result<int>, ghost js: seq<nat>)
      requires Has(s, e0, t, f, x) && freereg == s.free
      modifies this
      ensures r.Ok? ==> Branched(s, e0.t, e0.f, t, f, r.value, js, truth, x)
      ensures r.Err? ==> Limit()
    {
      hide IsList, ExpOK, Ends, Sound, CoreOK, Elems, Discharged, Goes, Proper, Branched, Inverted;
      js := [];
      var e :- DischargeVars(e0, s, t, f, x);
      var always := if truth then e.k.VTrue? || e.k.VK? else e.k.VFalse?;
      var never := if truth then e.k.VFalse? else e.k.VTrue?;
      if always {
        NothingToDo(e, truth, s, t, f, x);
        return Ok(NO_JUMP), [];
      } else if never {
        ghost var was, waited := code, waiting;
        ExpFacts(s, was, Elems(waited), e, Elems(t), Elems(f), x);
        var j;
        j, js :- Jump();
        TakenOver(was, waited, e, truth, s, t, f, j, js, x);
        return Ok(j), js;
      } else if e.k.VJmp? {
        ghost var was := code;
        ExpFacts(s, was, Elems(waiting), e, Elems(t), Elems(f), x);
        EndsParts(s, code, Elems(waiting), e, Elems(t), Elems(f), x);
        JumpList(s, code, Elems(waiting), e, t, f);
        if truth {
          InvertJump(e.info);
        }
        Turned(was, e, truth, s, t, f, x);
        return Ok(e.info), [e.info];
      } else {
        var j :- JumpOnCond(e, !truth, s, t, f, x);
        return Ok(j), [j];
      }
    }

    /** The jump of a comparison, whose condition has been inverted if the code goes on when it is true. */
    lemma Turned(was: Code, e: ExpDesc, truth: bool, s: Start, t: seq<nat>, f: seq<nat>, x: Expr)
      requires IsList(was, jpc, waiting) && freereg <= maxstack < MAXSTACK && Scope(s) && freereg == s.free
      requires IsList(was, e.t, t) && IsList(was, e.f, f) && ExpOK(s, was, Elems(waiting), e, Elems(t), Elems(f), x)
      requires e.k.VJmp? && 1 <= e.info < |was| && (was[e.info - 1].Eq? || was[e.info - 1].Lt? || was[e.info - 1].Le?)
      requires code == if truth then was[e.info - 1 := Inverted(was[e.info - 1])] else was
      ensures Branched(s, e.t, e.f, t, f, e.info, [e.info], truth, x)
    {
      hide IsList, ExpOK, Elems, Goes, Proper;
      EndsParts(s, was, Elems(waiting), e, Elems(t), Elems(f), x);
      JumpList(s, was, Elems(waiting), e, t, f);
      NoElems(waiting);
      GoIfJump(s, was, {}, e, Elems(t), Elems(f), x, truth, code);
      ListUntouched(was, code, e.t, t);
      ListUntouched(was, code, e.f, f);
      ListUntouched(was, code, jpc, waiting);
      ListUntouched(was, code, e.info, [e.info]);
      ElemsOne(e.info);
      assert {} + Elems(if truth then t else f) == Elems(if truth then t else f);
    }

    /** A literal with which the code always goes on. */
    lemma NothingToDo(e: ExpDesc, truth: bool, s: Start, t: seq<nat>, f: seq<nat>, x: Expr)
      requires Has(s, e, t, f, x) && freereg == s.free
      requires if truth then e.k.VTrue? || e.k.VK? else e.k.VFalse?
      ensures Branched(s, e.t, e.f, t, f, NO_JUMP, [], truth, x)
    {
      hide IsList, Ends, Elems, Goes, Proper, IsLocal, HasExits, IsLiteral, LiteralOf, Plain;
      ExpFacts(s, code, Elems(waiting), e, Elems(t), Elems(f), x);
      GoIfNothing(s, code, Elems(waiting), e, Elems(t), Elems(f), x, truth);
      NoElems([]);
      EmptyList(code);
      ElemsIn(t);
      ElemsIn(f);
      ElemsIn(waiting);
      assert Elems(if truth then f else t) + {} == Elems(if truth then f else t);
    }

    /** A literal with which the code never goes on: its jump has taken over those that waited. */
    lemma TakenOver(was: Code, waited: seq<nat>, e: ExpDesc, truth: bool, s: Start, t: seq<nat>, f: seq<nat>, j: nat,
                    js: seq<nat>, x: Expr)
      requires Valid() && Scope(s) && freereg == s.free && waiting == []
      requires IsList(was, e.t, t) && IsList(was, e.f, f) && ExpOK(s, was, Elems(waited), e, Elems(t), Elems(f), x)
      requires if truth then e.k.VFalse? else e.k.VTrue?
      requires j == |was| && js == [j] + waited && IsList(code, j, js)
      requires |code| == |was| + 1 && code[..|was|] == was && code[j].Jmp?
      ensures Branched(s, e.t, e.f, t, f, j, js, truth, x)
    {
      hide IsList, Ends, Elems, Goes, Proper, IsLocal, HasExits, IsLiteral, LiteralOf, Plain;
      ExpFacts(s, was, Elems(waited), e, Elems(t), Elems(f), x);
      GoIfTaken(s, was, Elems(waited), e, Elems(t), Elems(f), x, truth, code);
      NoElems([]);
      ElemsOne(j);
      ElemsAppend([j], waited);
      ElemsIn(t);
      ElemsIn(f);
      ElemsIn(waited);
      ListJumps(was, e.t, t);
      ListJumps(was, e.f, f);
      ListPrefix(was, code, e.t, t);
      ListPrefix(was, code, e.f, f);
      assert {} + Elems(if truth then t else f) == Elems(if truth then t else f);
    }

    /** luaK_goiftrue. */
    method GoIfTrue(e: ExpDesc, ghost s: Start, ghost t: seq<nat>, ghost f: seq<nat>, ghost x: Expr)
      returns (r: Result<ExpDesc>, ghost f': seq<nat>)
      requires Has(s, e, t, f, x) && freereg == s.free
      modifies this
      ensures r.Ok? ==> r.value.t == NO_JUMP && GoneOn(s, r.value.f, f', true, x)
      ensures r.Err? ==> Limit()
    {
      hide IsList, Goes, Relinked, Elems, ExpOK, Proper;
      f' := [];
      var j, js :- LastJump(e, true, s, t, f, x);
      ghost var was := code;
      var l :- Concat(e.f, j, f, js);
      LinkExits(s, was, code, waiting, jpc, t, e.t, f, js, true, x);
      was := code;
      ghost var waited := waiting;
      var _ :- PatchToHere(e.t, t);
      LinkWaiting(s, was, code, waited, t, f + js, l, true, x);
      return Ok(e.(t := NO_JUMP, f := l)), f + js;
    }

    /** luaK_goiffalse. */
    method GoIfFalse(e: ExpDesc, ghost s: Start, ghost t: seq<nat>, ghost f: seq<nat>, ghost x: Expr)
      returns (r: Result<ExpDesc>, ghost t': seq<nat>)
      requires Has(s, e, t, f, x) && freereg == s.free
      modifies this
      ensures r.Ok? ==> r.value.f == NO_JUMP && GoneOn(s, r.value.t, t', false, x)
      ensures r.Err? ==> Limit()
    {
      hide IsList, Goes, Relinked, Elems, ExpOK, Proper;
      t' := [];
      var j, js :- LastJump(e, false, s, t, f, x);
      ghost var was := code;
      var l :- Concat(e.t, j, t, js);
      LinkExits(s, was, code, waiting, jpc, f, e.f, t, js, false, x);
      was := code;
      ghost var waited := waiting;
      var _ :- PatchToHere(e.f, f);
      LinkWaiting(s, was, code, waited, f, t + js, l, false, x);
      return Ok(e.(f := NO_JUMP, t := l)), t + js;
    }

    // ---- Operators ----

    /** The true and false exits are exchanged; none of them carries a value any more. */
    method ExchangeExits(e: ExpDesc, ghost t: seq<nat>, ghost f: seq<nat>) returns (r: ExpDesc)
      requires Valid() && IsList(code, e.t, t) && IsList(code, e.f, f) && Elems(t) !! Elems(f)
      modifies `code
      ensures Valid() && r == e.(t := e.f, f := e.t) && IsList(code, r.t, f) && IsList(code, r.f, t)
      ensures code == Removed(old(code), Elems(t) + Elems(f))
    {
      hide IsList, Elems, Removed;
      ghost var m := code;
      r := e.(t := e.f, f := e.t);
      RemoveValues(r.f, t);
      ListRemoved(m, Elems(t), r.t, f);
      ListRemoved(m, Elems(t), jpc, waiting);
      ghost var m' := code;
      RemoveValues(r.t, f);
      ListRemoved(m', Elems(f), r.f, t);
      ListRemoved(m', Elems(f), jpc, waiting);
      RemovedTwice(m, Elems(t), Elems(f));
      assert Elems(f) + Elems(t) == Elems(t) + Elems(f);
    }

    /** codenot. */
    method CodeNot(e0: ExpDesc, ghost s: Start, ghost t: seq<nat>, ghost f: seq<nat>, ghost x: Expr)
      returns (r: Result<ExpDesc>)
      requires Has(s, e0, t, f, x) && freereg == s.free
      modifies this
      ensures r.Ok? ==> Has(s, r.value, f, t, Negation(x)) && freereg == s.free
      ensures r.Err? ==> Limit()
    {
      hide IsList, Ends, Elems, Discharged, Removed, Proper, IsLiteral, IsLocal, HasExits, LiteralOf, Plain, Halfway;
      var e :- DischargeVars(e0, s, t, f, x);
      ExpFacts(s, code, Elems(waiting), e, Elems(t), Elems(f), x);
      ghost var was, e1 := code, e;
      if e.k.IsConst() {
        e := e.(k := if e.k.VFalse? then VTrue else VFalse);
        NotLiteral(s, code, Elems(waiting), e1, Elems(t), Elems(f), x, e);
      } else if e.k.VJmp? {
        EndsParts(s, code, Elems(waiting), e, Elems(t), Elems(f), x);
        JumpList(s, code, Elems(waiting), e, t, f);
        InvertJump(e.info);
        ListUntouched(was, code, e.t, t);
        ListUntouched(was, code, e.f, f);
        ListUntouched(was, code, jpc, waiting);
        NotJump(s, was, Elems(waiting), e, Elems(t), Elems(f), x, code);
      } else {
        e :- CodeNotReg(e, s, t, f, x);
      }
      ghost var half := e;
      was := code;
      e := ExchangeExits(e, t, f);
      Negated(s, was, Elems(waiting), half, Elems(t), Elems(f), x, e, code);
      return Ok(e);
    }

    /** The case of codenot where the value is put in a register, and an instruction negates it. */
    method CodeNotReg(e0: ExpDesc, ghost s: Start, ghost t: seq<nat>, ghost f: seq<nat>, ghost x: Expr)
      returns (r: Result<ExpDesc>)
      requires Has(s, e0, t, f, x) && freereg == s.free && (e0.k.VRelocable? || e0.k.VNonreloc?)
      modifies this
      ensures r.Ok? ==> Valid() && freereg == s.free && IsList(code, r.value.t, t) && IsList(code, r.value.f, f)
                        && Halfway(s, code, Elems(waiting), r.value, Elems(t), Elems(f), x)
      ensures r.Err? ==> Limit()
    {
      hide IsList, Ends, Elems, Discharged, Proper, IsLiteral, IsLocal, HasExits, LiteralOf, Plain, Halfway;
      NoElems(t);
      NoElems(f);
      ExpFacts(s, code, Elems(waiting), e0, Elems(t), Elems(f), x);
      var e :- Discharge2AnyReg(e0, s, t, f, x);
      EndsDisjoint(s, code, Elems(waiting), e, Elems(t), Elems(f), x);
      ghost var was, here := code, Elems(waiting);
      FreeExp(e);
      var p :- Emit(Not(0, e.info));
      NoElems(waiting);
      GrowLists(was, here, Not(0, e.info), code, e, t, f);
      NotRegister(s, was, here, e, Elems(t), Elems(f), x, e.(k := VRelocable, info := p), code);
      return Ok(e.(k := VRelocable, info := p));
    }

    /** codecomp: the first operand is ready, the second one is put into its place here. */
    method CodeComp(op: TestOp, cond0: bool, e1: ExpDesc, e2: ExpDesc, ghost s: Start, ghost code1: Code,
                    ghost here1: set<nat>, ghost free1: nat, ghost x: Expr, ghost t2: seq<nat>, ghost f2: seq<nat>,
                    ghost y: Expr, ghost cmp: CompareOp)
      returns (r: Result<ExpDesc>)
      requires Scope(s) && OperandOK(s, code1, here1, e1, x) && Scoped(y, s.nactvar) && CompareCode(cmp) == (op, cond0)
      requires if e1.k.VNonreloc? && e1.info >= nactvar then e1.info == s.free && free1 == s.free + 1
        else free1 == s.free
      requires Has(OperandStart(s, code1, here1, free1), e2, t2, f2, y) && freereg == free1
      modifies this
      ensures r.Ok? ==> Has(s, r.value, [], [], Compare(cmp, x, y)) && freereg == s.free && r.value.k.VJmp?
      ensures r.Err? ==> Limit()
    {
      hide IsList, Ends, Matches, Elems, Discharged, Scoped, OperandOK, CompareCode;
      ghost var s2 := OperandStart(s, code1, here1, free1);
      var v2 :- Exp2RK(e2, s2, t2, f2, y);
      var o1, o2 := OperandOf(e1), OperandOf(v2);
      NoElems([]);
      ghost var was, here := code, Elems(waiting);
      OperandSound(s, code1, here1, e1, x);
      FreeExp(v2);
      FreeExp(e1);
      var cond := cond0;
      if !cond && op != OP_EQ {
        o1, o2, cond := o2, o1, true;
      }
      var j :- CondJump(TestInstr(op, cond, o1, o2));
      NoElems(waiting);
      CompareOK(s, code1, here1, e1, free1, x, was, here, v2, y, cmp, code);
      EmptyList(code);
      return Ok(ExpDesc(VJmp, j, NO_JUMP, NO_JUMP));
    }

    /** luaK_posfix for `and` (truth) and `or`: the exits of the first operand join those of the second. */
    method Posfix(truth: bool, head: int, e2: ExpDesc, ghost s: Start, ghost code1: Code, ghost here1: set<nat>,
                  ghost x: Expr, ghost exits: seq<nat>, ghost t: seq<nat>, ghost f: seq<nat>, ghost y: Expr)
      returns (r: Result<ExpDesc>, ghost t': seq<nat>, ghost f': seq<nat>)
      requires Scope(s) && Goes(s, code1, here1, Elems(exits), truth, x) && IsList(code1, head, exits)
      requires Scoped(y, s.nactvar) && Has(SecondStart(s, code1, here1), e2, t, f, y) && freereg == s.free
      modifies this
      ensures r.Ok? ==> Has(s, r.value, t', f', Connective(truth, x, y)) && freereg == s.free
      ensures r.Err? ==> Limit()
    {
      hide IsList, Goes, ExpOK, Elems, Scoped, Connective, Relinked, Proper;
      ghost var s2 := SecondStart(s, code1, here1);
      t', f' := t, f;
      var e :- DischargeVars(e2, s2, t, f, y);
      ghost var was, d, here := code, e, Elems(waiting);
      ExpFacts(s2, was, here, e, Elems(t), Elems(f), y);
      GoesSound(s, code1, here1, Elems(exits), truth, x);
      ExpSound(s2, was, here, e, Elems(t), Elems(f), y);
      FirstExits(s, code1, here1, exits, was, here, t, f, head);
      ElemsIn(t);
      ElemsIn(f);
      ElemsIn(waiting);
      if truth {
        var l :- Concat(e.f, head, f, exits);
        ListKept(was, code, Elems(f), e.t, t);
        ListKept(was, code, Elems(f), jpc, waiting);
        RelinkExp(s2, was, code, here, e, Elems(t), Elems(f), y, Elems(f));
        e, f' := e.(f := l), f + exits;
        ElemsAppend(f, exits);
      } else {
        var l :- Concat(e.t, head, t, exits);
        ListKept(was, code, Elems(t), e.f, f);
        ListKept(was, code, Elems(t), jpc, waiting);
        RelinkExp(s2, was, code, here, e, Elems(t), Elems(f), y, Elems(t));
        e, t' := e.(t := l), t + exits;
        ElemsAppend(t, exits);
      }
      SameDesc(s2, code, here, d, e, Elems(t), Elems(f), y);
      Join(s, code1, here1, Elems(exits), truth, x, code, here, e, Elems(t), Elems(f), y);
      return Ok(e), t', f';
    }

    /** The descriptor of the whole expression, compiled from here. */
    ghost function Here(env: Env): Start
      reads this
    {
      Start(env, code, Elems(waiting), freereg, nactvar)
    }

    /** subexpr on these operators: operands and operators in the order in which the parser meets them. */
    method Expression(x: Expr, ghost env: Env) returns (r: Result<ExpDesc>, ghost t: seq<nat>, ghost f: seq<nat>)
      requires Valid() && Scope(Here(env)) && Scoped(x, nactvar)
      modifies this
      ensures r.Ok? ==> Has(old(Here(env)), r.value, t, f, x) && freereg == old(freereg)
      ensures r.Err? ==> Limit()
      decreases x, 0
    {
      hide IsList, Ends, Matches, Elems, Goes, OperandOK, Proper;
      ghost var s := Here(env);
      t, f := [], [];
      EmptyList(code);
      NoElems([]);
      match x
      case Local(reg) =>
        r := Leaf(VLocal, reg, s, x);
        return;
      case Upvalue(index) =>
        r := Leaf(VUpval, index, s, x);
        return;
      case True =>
        r := Leaf(VTrue, 0, s, x);
        return;
      case False =>
        r := Leaf(VFalse, 0, s, x);
        return;
      case Constant(id) =>
        r := Leaf(VK(Other(id)), 0, s, x);
        return;
      case Negation(y) =>
        var e;
        e, t, f :- Expression(y, env);
        e :- CodeNot(e, s, t, f, y);
        return Ok(e), f, t;
      case And(y, z) =>
        var e;
        e, t, f :- Expression(y, env);
        ghost var exits;
        e, exits :- GoIfTrue(e, s, t, f, y);
        r, t, f := Second(true, e.f, s, exits, y, z);
      case Or(y, z) =>
        var e;
        e, t, f :- Expression(y, env);
        ghost var exits;
        e, exits :- GoIfFalse(e, s, t, f, y);
        r, t, f := Second(false, e.t, s, exits, y, z);
      case Compare(op, y, z) =>
        var e;
        e, t, f :- Expression(y, env);
        e :- Exp2RK(e, s, t, f, y);
        ghost var code1, here1, free1 := code, Elems(waiting), freereg;
        OperandSound(s, code1, here1, e, y);
        SoundDisjoint(s, code1, here1, {}, {});
        ProperSecond(s, code1, here1, free1);
        var e2;
        e2, t, f :- Expression(z, env);
        var (code, cond) := CompareCode(op);
        e :- CodeComp(code, cond, e, e2, s, code1, here1, free1, y, t, f, z, op);
        return Ok(e), [], [];
    }

    /** An operand for which no code is emitted yet. */
    method Leaf(k: Kind, info: nat, ghost s: Start, ghost x: Expr) returns (r: Result<ExpDesc>)
      requires Valid() && Scope(s) && s == Here(s.env) && Scoped(x, nactvar)
      requires match x
               case Local(reg) => k.VLocal? && info == reg
               case Upvalue(i) => k.VUpval? && info == i
               case True => k.VTrue?
               case False => k.VFalse?
               case Constant(id) => k == VK(Other(id))
               case _ => false
      ensures r.Ok? && Has(s, r.value, [], [], x)
    {
      hide IsList, ExpOK, Elems, Proper;
      EmptyList(code);
      NoElems([]);
      var e := ExpDesc(k, info, NO_JUMP, NO_JUMP);
      LeafOK(s, e, x);
      return Ok(e);
    }

    /** The second operand of `and` (truth) or `or`. */
    method Second(truth: bool, head: int, ghost s: Start, ghost exits: seq<nat>, ghost x: Expr, y: Expr)
      returns (r: Result<ExpDesc>, ghost t: seq<nat>, ghost f: seq<nat>)
      requires GoneOn(s, head, exits, truth, x) && Scoped(y, nactvar)
      modifies this
      ensures r.Ok? ==> Has(s, r.value, t, f, Connective(truth, x, y)) && freereg == s.free
      ensures r.Err? ==> Limit()
      decreases y, 1
    {
      hide IsList, Goes, ExpOK, Elems, Connective, Proper;
      ghost var code1, here1 := code, Elems(waiting);
      GoesSound(s, code1, here1, Elems(exits), truth, x);
      SoundDisjoint(s, code1, here1, Elems(exits), {});
      ProperSecond(s, code1, here1, s.free);
      var e;
      e, t, f :- Expression(y, s.env);
      r, t, f := Posfix(truth, head, e, s, code1, here1, x, exits, t, f, y);
    }

    // ---- Statements ----

    /** luaK_storevar into a local variable. */
    method StoreLocal(e: ExpDesc, reg: nat, ghost s: Start, ghost t: seq<nat>, ghost f: seq<nat>, ghost x: Expr)
      returns (r: Result<()>)
      requires Has(s, e, t, f, x) && freereg == s.free && reg < nactvar < NO_REG
      modifies this
      ensures r.Ok? ==> freereg == s.free && HeldIn(s, reg, x)
      ensures r.Err? ==> Limit()
    {
      hide IsList, Ends, Matches, Elems, Held, Proper;
      FreeExp(e);
      var e' :- Exp2Reg(e, reg, s, t, f, x);
      return Ok(());
    }

    /**
     * An assignment `reg = x`, and the instruction after it: from every entry the machine leaves in reg what Flow
     * says, and changes nothing else in use; that is the value of x where no literal takes over a jump with a value.
     */
    method Assignment(reg: nat, x: Expr, next: nat, ghost env: Env) returns (r: Result<()>)
      requires Valid() && Scope(Here(env)) && Scoped(x, nactvar) && reg < nactvar < NO_REG
      modifies this
      ensures r.Ok? ==> Valid() && waiting == [] && freereg == old(freereg)
      ensures r.Ok? ==> forall a, regs :: Entry(old(Here(env)), a) ==> Computed(old(Here(env)), code, reg, x, a, regs)
      ensures r.Ok? && Safe(x, !NoValues(old(code), Elems(old(waiting)))) ==>
                forall a, regs :: Entry(old(Here(env)), a) ==>
                  Leaves(old(Here(env)), code, reg, a, regs, Eval(env, x, regs))
      ensures r.Ok? ==> |code| > |old(code)| && Compatible(old(code), Elems(old(waiting)), code, {})
      ensures r.Err? ==> Limit()
    {
      hide IsList, Ends, Matches, Elems, Held, Computed, Leaves, Safe, Proper, Discharged, Compatible, NoValues;
      ghost var s := Here(env);
      var e, t, f :- Expression(x, env);
      var _ :- StoreLocal(e, reg, s, t, f, x);
      ghost var was, here := code, Elems(waiting);
      var p :- Emit(Next(next));
      FinishedAll(s, was, here, reg, x, next, code);
      return Ok(());
    }

    /** A declaration `local v = x`, and the instruction after it: the same in the next register. */
    method Declaration(x: Expr, next: nat, ghost env: Env) returns (r: Result<()>)
      requires Valid() && Scope(Here(env)) && Scoped(x, nactvar)
      modifies this
      ensures r.Ok? ==> Valid() && waiting == [] && freereg == old(freereg) + 1
      ensures r.Ok? ==> forall a, regs ::
                          Entry(old(Here(env)), a) ==> Computed(old(Here(env)), code, old(freereg), x, a, regs)
      ensures r.Ok? && Safe(x, !NoValues(old(code), Elems(old(waiting)))) ==>
                forall a, regs :: Entry(old(Here(env)), a) ==>
                  Leaves(old(Here(env)), code, old(freereg), a, regs, Eval(env, x, regs))
      ensures r.Ok? ==> |code| > |old(code)| && Compatible(old(code), Elems(old(waiting)), code, {})
      ensures r.Err? ==> Limit()
    {
      hide IsList, Ends, Matches, Elems, Held, Computed, Leaves, Safe, Proper, Discharged, Compatible, NoValues;
      ghost var s := Here(env);
      var e, t, f :- Expression(x, env);
      e :- Exp2NextReg(e, s, t, f, x);
      ghost var was, here := code, Elems(waiting);
      var p :- Emit(Next(next));
      FinishedAll(s, was, here, e.info, x, next, code);
      return Ok(());
    }
  }

  /** The next instruction closes the last waiting jumps, and the machine computes what Flow says from every entry. */
  lemma FinishedAll(s: Start, code: Code, here: set<nat>, reg: nat, x: Expr, id: nat, code': Code)
    requires Proper(s) && Held(s, code, here, reg, x) && code' == Discharged(code, here) + [Next(id)]
    ensures forall a, r :: Entry(s, a) ==> Computed(s, code', reg, x, a, r)
    ensures Safe(x, !NoValues(s.code, s.here)) ==>
              forall a, r :: Entry(s, a) ==> Leaves(s, code', reg, a, r, Eval(s.env, x, r))
    ensures |code'| > |s.code| && Compatible(s.code, s.here, code', {})
  {
    hide Computed, Leaves, Safe, NoValues, HeldAt, Discharged, Sound, Proper;
    forall a, r | Entry(s, a) ensures Computed(s, code', reg, x, a, r) {
      assert HeldAt(s, code, here, reg, x, a, r);
      Finished(s, code, here, reg, x, id, code', a, r);
    }
    if Safe(x, !NoValues(s.code, s.here)) {
      forall a, r | Entry(s, a) ensures Leaves(s, code', reg, a, r, Eval(s.env, x, r)) {
        SafeValue(s, code', reg, x, a, r);
      }
    }
    FinishedCode(s, code, here, id, code');
  }

  lemma FinishedCode(s: Start, code: Code, here: set<nat>, id: nat, code': Code)
    requires Proper(s) && Sound(s, code, here, {}, {}) && code' == Discharged(code, here) + [Next(id)]
    ensures |code'| > |s.code| && Compatible(s.code, s.here, code', {})
  {
    hide Discharged, Compatible, Paired, OwnHoles;
    var none: set<nat> := {};
    assert none + none == none && none + none + none == none;
    EmitOne(s, code, here, none, none, Next(id), code');
    SoundDisjoint(s, code, here, none, none);
    assert Sound(s, code', none, none, none);
  }
}
