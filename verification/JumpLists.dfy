/** Facts about the linked lists of pending jumps. */
module JumpLists {
  import opened Base
  import opened LuaVM
  import opened Logic
  import opened Patches
  import opened Denote
  import opened ShortCircuit
  import opened Negate
  import opened Settling
  import opened Comparing

  /** Changing the links of other jumps leaves a list alone. */
  lemma ListKept(code: Code, code': Code, hs: set<nat>, head: int, s: seq<nat>)
    requires IsList(code, head, s) && Relinked(code, code', hs) && forall j :: j in s ==> j !in hs
    ensures IsList(code', head, s)
  {
    forall i | 0 <= i < |s| ensures s[i] < |code'| && code'[s[i]] == code[s[i]] {
      assert s[i] in s && s[i] < |code|;
    }
  }

  /** Appending code leaves a list alone. */
  lemma ListGrows(code: Code, code': Code, head: int, s: seq<nat>)
    requires IsList(code, head, s) && |code| <= |code'|
    requires forall j :: j in s ==> j < |code| ==> code'[j] == code[j]
    ensures IsList(code', head, s)
  {
    forall i | 0 <= i < |s| ensures s[i] < |code'| && code'[s[i]] == code[s[i]] {
      assert s[i] in s && s[i] < |code|;
    }
  }

  /** patchlistaux on one jump. */
  function PatchOne(m: Code, j: nat, vtarget: int, reg: nat, dtarget: int): Code
    requires j < |m|
  {
    if CarriesValue(m, j) then m[j - 1 := PatchTestReg(m[j - 1], reg)][j := Jmp(vtarget - (j + 1))]
    else m[j := Jmp(dtarget - (j + 1))]
  }

  /** One more jump is patched. */
  lemma PatchMember(code: Code, a: set<nat>, j: nat, vtarget: int, reg: nat, dtarget: int)
    requires j !in a && j < |code| && code[j].Jmp? && forall k :: k in a ==> k < |code| && code[k].Jmp?
    ensures var m := Patched(code, a, vtarget, reg, dtarget);
            && CarriesValue(m, j) == CarriesValue(code, j) && m[j] == code[j]
            && PatchOne(m, j, vtarget, reg, dtarget) == Patched(code, a + {j}, vtarget, reg, dtarget)
  {
    var m := Patched(code, a, vtarget, reg, dtarget);
    var m' := PatchOne(m, j, vtarget, reg, dtarget);
    var want := Patched(code, a + {j}, vtarget, reg, dtarget);
    assert CarriesValue(m, j) == CarriesValue(code, j);
    forall p | 0 <= p < |code| ensures m'[p] == want[p] {
      if p == j {
        assert want[p] == m'[p];
      } else if p + 1 == j {
        assert want[p] == m'[p];
      } else {
        assert m'[p] == m[p] == want[p];
      }
    }
  }

  /** The list up to and including its i-th jump. */
  lemma ElemsNext(s: seq<nat>, i: nat)
    requires i < |s| && NoDup(s)
    ensures Elems(s[..i + 1]) == Elems(s[..i]) + {s[i]} && s[i] !in Elems(s[..i])
  {
    assert s[..i + 1] == s[..i] + [s[i]];
  }

  /** getjumpcontrol: the position of the instruction that controls a jump. */
  function JumpControl(code: Code, j: nat): (p: nat)
    requires j < |code|
    ensures p < |code|
  {
    if j >= 1 && code[j - 1].IsTest() then j - 1 else j
  }

  lemma NextInList(code: Code, head: int, s: seq<nat>, i: nat)
    requires IsList(code, head, s) && i < |s|
    ensures s[i] < |code| && code[s[i]].Jmp? && Link(code, s[i]) == if i + 1 < |s| then s[i + 1] else NO_JUMP
  {
  }

  /** Replacing an instruction that is not a jump leaves the lists. */
  lemma KeepLists(was: Code, code: Code, p: nat, e: ExpDesc, t: seq<nat>, f: seq<nat>, jpc: int, waiting: seq<nat>)
    requires IsList(was, e.t, t) && IsList(was, e.f, f) && IsList(was, jpc, waiting)
    requires p < |was| == |code| && !was[p].Jmp? && code == was[p := code[p]]
    ensures IsList(code, e.t, t) && IsList(code, e.f, f) && IsList(code, jpc, waiting)
  {
    ListUntouched(was, code, e.t, t);
    ListUntouched(was, code, e.f, f);
    ListUntouched(was, code, jpc, waiting);
  }

  /** Emitting an instruction leaves the lists of exits. */
  lemma GrowLists(was: Code, here: set<nat>, i: Instr, code: Code, e: ExpDesc, t: seq<nat>, f: seq<nat>)
    requires IsList(was, e.t, t) && IsList(was, e.f, f) && Elems(t) !! here && Elems(f) !! here
    requires code == Discharged(was, here) + [i]
    ensures IsList(code, e.t, t) && IsList(code, e.f, f)
  {
    ListDischarged(was, here, code, e.t, t);
    ListDischarged(was, here, code, e.f, f);
  }

  lemma ListDischarged(was: Code, here: set<nat>, code: Code, head: int, s: seq<nat>)
    requires IsList(was, head, s) && Elems(s) !! here
    requires |was| <= |code| && code[..|was|] == Discharged(was, here)
    ensures IsList(code, head, s)
  {
    forall j | j in s ensures j < |was| && code[j] == was[j] {
      assert j in Elems(s);
      assert was[j].Jmp?;
      assert code[j] == code[..|was|][j];
    }
    ListGrows(was, code, head, s);
  }

  lemma DischargeNothing(code: Code)
    ensures Discharged(code, Elems([])) == code
  {
    assert Elems([]) == {};
    PatchedNone(code, |code|, NO_REG, |code|);
  }

  lemma NoElems(s: seq<nat>)
    ensures Elems(s) == {} <==> s == []
  {
    if s != [] {
      assert s[0] in Elems(s);
    }
  }

  lemma NewJump(was: Code, one: Code, j: nat)
    requires one == was + [Jmp(NO_JUMP)] && j == |was|
    ensures one[j] == Jmp(NO_JUMP) && IsList(one, j, [j])
  {
    var s := [j];
    assert one[j] == Jmp(NO_JUMP);
    assert Link(one, j) == NO_JUMP;
    assert |s| == 1 && s[0] == j;
    LinksMakeList(one, j, s);
  }

  /** Linking the new jump leaves the code before it. */
  lemma JumpOnly(was: Code, one: Code, code: Code, j: nat)
    requires one == was + [Jmp(NO_JUMP)] && j == |was| && Relinked(one, code, Elems([j]))
    ensures code[..|was|] == was && |code| == |was| + 1 && code[j].Jmp?
  {
    forall p: nat | p < |was| ensures code[p] == was[p] {
      assert p !in Elems([j]);
      assert one[p] == was[p];
    }
    assert j in Elems([j]);
  }

  lemma ConcatIsList(code: Code, code': Code, l1: int, l2: int, a: seq<nat>, b: seq<nat>)
    requires IsList(code, l1, a) && IsList(code, l2, b) && |a| > 0 && |b| > 0 && (forall x :: x in a ==> x !in b)
    requires code' == code[a[|a| - 1] := Jmp(l2 - (a[|a| - 1] + 1))]
    ensures IsList(code', l1, a + b)
  {
    NoDupConcat(a, b);
    var s := a + b;
    forall i | 0 <= i < |s|
      ensures s[i] < |code'| && code'[s[i]].Jmp? && Link(code', s[i]) == if i + 1 < |s| then s[i + 1] else NO_JUMP
    {
      ConcatLink(code, code', l1, l2, a, b, i);
    }
    LinksMakeList(code', l1, s);
  }

  lemma LinksMakeList(code: Code, head: int, s: seq<nat>)
    requires NoDup(s) && head == (if |s| == 0 then NO_JUMP else s[0])
    requires forall i :: 0 <= i < |s| ==>
               s[i] < |code| && code[s[i]].Jmp? && Link(code, s[i]) == if i + 1 < |s| then s[i + 1] else NO_JUMP
    ensures IsList(code, head, s)
  {
  }

  lemma ConcatLink(code: Code, code': Code, l1: int, l2: int, a: seq<nat>, b: seq<nat>, i: nat)
    requires IsList(code, l1, a) && IsList(code, l2, b) && |a| > 0 && |b| > 0 && (forall x :: x in a ==> x !in b)
    requires code' == code[a[|a| - 1] := Jmp(l2 - (a[|a| - 1] + 1))] && i < |a + b|
    ensures var s := a + b;
            s[i] < |code'| && code'[s[i]].Jmp? && Link(code', s[i]) == if i + 1 < |s| then s[i + 1] else NO_JUMP
  {
    var s := a + b;
    var last := a[|a| - 1];
    assert last in a && b[0] in b;
    if i < |a| {
      NextInList(code, l1, a, i);
      assert s[i] == a[i];
      if i + 1 < |a| {
        assert s[i + 1] == a[i + 1] && a[i] != last;
      } else {
        assert s[i + 1] == b[0] == l2 && b[0] != last;
      }
    } else {
      NextInList(code, l2, b, i - |a|);
      assert s[i] == b[i - |a|] && b[i - |a|] in b && s[i] != last;
      assert i + 1 < |s| ==> s[i + 1] == b[i + 1 - |a|];
    }
  }

  lemma RemovedNone(code: Code)
    ensures Removed(code, {}) == code
  {
  }

  lemma RemoveMember(code: Code, a: set<nat>, j: nat)
    requires j < |code| && j !in a && code[j].Jmp?
    ensures var m := Removed(code, a);
            && CarriesValue(m, j) == CarriesValue(code, j)
            && Removed(code, a + {j}) == if CarriesValue(m, j) then m[j - 1 := PatchTestReg(m[j - 1], NO_REG)] else m
  {
    var m := Removed(code, a);
    var m' := if CarriesValue(m, j) then m[j - 1 := PatchTestReg(m[j - 1], NO_REG)] else m;
    var want := Removed(code, a + {j});
    forall p | 0 <= p < |code| ensures m'[p] == want[p] {
    }
  }

  lemma ListUntouched(code: Code, code': Code, head: int, s: seq<nat>)
    requires IsList(code, head, s) && |code'| == |code|
    requires forall p :: 0 <= p < |code| && code[p].Jmp? ==> code'[p] == code[p]
    ensures IsList(code', head, s)
  {
  }

  /** Patching one list leaves the jumps of the others, and what they carry. */
  lemma ListPatched(code: Code, hs: set<nat>, vtarget: int, reg: nat, dtarget: int, head: int, s: seq<nat>)
    requires IsList(code, head, s) && Elems(s) !! hs && forall j :: j in hs ==> j < |code| && code[j].Jmp?
    ensures var code' := Patched(code, hs, vtarget, reg, dtarget);
            IsList(code', head, s) && forall j :: j in s ==> CarriesValue(code', j) == CarriesValue(code, j)
  {
    var code' := Patched(code, hs, vtarget, reg, dtarget);
    forall j | j in s ensures j < |code| && code'[j] == code[j] && CarriesValue(code', j) == CarriesValue(code, j) {
      assert j in Elems(s);
    }
    ListGrows(code, code', head, s);
  }

  lemma ElemsAppend(a: seq<nat>, b: seq<nat>)
    ensures Elems(a + b) == Elems(a) + Elems(b)
  {
  }

  lemma ElemsIn(s: seq<nat>)
    ensures forall j :: j in Elems(s) <==> j in s
  {
  }

  lemma ElemsOne(j: nat)
    ensures Elems([j]) == {j} && Elems([]) == {}
  {
  }

  /** Two disjoint lists have the same head only if both are empty. */
  lemma HasJumps(code: Code, l1: int, l2: int, a: seq<nat>, b: seq<nat>)
    requires IsList(code, l1, a) && IsList(code, l2, b) && Elems(a) !! Elems(b)
    ensures l1 == l2 <==> a == [] && b == []
  {
    if a != [] && b != [] {
      assert a[0] in Elems(a) && b[0] in Elems(b);
    }
  }

  lemma ListJumps(code: Code, head: int, s: seq<nat>)
    requires IsList(code, head, s)
    ensures forall j :: j in Elems(s) ==> j < |code| && code[j].Jmp?
  {
  }

  lemma EmptyList(code: Code)
    ensures forall head :: IsList(code, head, []) <==> head == NO_JUMP
  {
  }

  /** The list of the jump over the LOADBOOLs. */
  lemma LabelList(was: Code, code: Code, reg: nat, head: int, s: seq<nat>)
    requires IsList(was, head, s) && code == was + [LoadBool(reg, false, true), LoadBool(reg, true, false)]
    ensures IsList(code, head, s)
  {
    forall j | j in s ensures j < |was| && code[j] == was[j] {
      assert j in Elems(s);
    }
    ListGrows(was, code, head, s);
  }

  /** The lists of exits after some instructions more. */
  lemma ExitsGrow(c: Code, tail: Code, e: ExpDesc, t: seq<nat>, f: seq<nat>, here: set<nat>, w: seq<nat>)
    requires IsList(c, e.t, t) && IsList(c, e.f, f)
    requires Elems(t) !! here && Elems(f) !! here && Elems(w) <= here + {|c|}
    ensures IsList(c + tail, e.t, t) && IsList(c + tail, e.f, f)
    ensures Elems(w) !! Elems(t) && Elems(w) !! Elems(f)
  {
    ListJumps(c, e.t, t);
    ListJumps(c, e.f, f);
    ListGrows(c, c + tail, e.t, t);
    ListGrows(c, c + tail, e.f, f);
  }

  /** Removing a last instruction that is not a jump leaves the lists. */
  lemma ListCut(code: Code, head: int, s: seq<nat>)
    requires |code| > 0 && IsList(code, head, s) && !code[|code| - 1].Jmp?
    ensures IsList(code[..|code| - 1], head, s)
  {
    forall j | j in s ensures j < |code| - 1 {
    }
    var c := code[..|code| - 1];
    forall i | 0 <= i < |s| ensures s[i] < |c| && c[s[i]] == code[s[i]] {
      assert s[i] in s;
    }
  }

  /** The lists after a conditional jump. */
  lemma BranchLists(was: Code, here: set<nat>, i: Instr, code: Code, e: ExpDesc, t: seq<nat>, f: seq<nat>)
    requires IsList(was, e.t, t) && IsList(was, e.f, f) && Elems(t) !! here && Elems(f) !! here
    requires code == Discharged(was, here) + [i, Jmp(NO_JUMP)]
    ensures IsList(code, e.t, t) && IsList(code, e.f, f) && |code| - 1 !in t && |code| - 1 !in f
  {
    assert code[..|was|] == Discharged(was, here);
    ListDischarged(was, here, code, e.t, t);
    ListDischarged(was, here, code, e.f, f);
  }

  lemma RemovedTwice(code: Code, a: set<nat>, b: set<nat>)
    requires a !! b
    ensures Removed(Removed(code, a), b) == Removed(code, b + a)
  {
    var m := Removed(code, a);
    assert forall p :: 0 <= p < |code| ==> Removed(m, b)[p] == Removed(code, b + a)[p];
  }

  /** Removing the values of one list leaves the jumps of every list. */
  lemma ListRemoved(code: Code, hs: set<nat>, head: int, s: seq<nat>)
    requires IsList(code, head, s)
    ensures IsList(Removed(code, hs), head, s)
  {
    ListUntouched(code, Removed(code, hs), head, s);
  }

  lemma FirstInList(code: Code, head: int, s: seq<nat>)
    requires IsList(code, head, s)
    ensures head == if |s| > 0 then s[0] else NO_JUMP
    ensures s[..0] == []
  {
  }

  /** Patching the next jump of a list. */
  lemma PatchNext(code: Code, head: int, s: seq<nat>, i: nat, vtarget: int, reg: nat, dtarget: int)
    requires IsList(code, head, s) && i < |s|
    ensures var m, j := Patched(code, Elems(s[..i]), vtarget, reg, dtarget), s[i];
            && j in s && j < |m| && m[j].Jmp? && CarriesValue(m, j) == CarriesValue(code, j)
            && Link(m, j) == (if i + 1 < |s| then s[i + 1] else NO_JUMP)
            && PatchOne(m, j, vtarget, reg, dtarget) == Patched(code, Elems(s[..i + 1]), vtarget, reg, dtarget)
  {
    ElemsNext(s, i);
    NextInList(code, head, s, i);
    PatchMember(code, Elems(s[..i]), s[i], vtarget, reg, dtarget);
  }

  // ---- The lists of a descriptor ----

  lemma ExpFacts(s: Start, code: Code, here: set<nat>, e: ExpDesc, t: set<nat>, f: set<nat>, x: Expr)
    requires ExpOK(s, code, here, e, t, f, x)
    ensures t !! f && t !! here && f !! here && Paired(code) && |s.code| <= |code|
    ensures e.k.VRelocable? || e.k.VJmp? ==> here == {}
    ensures e.k.VRelocable? ==> e.info == |code| - 1 && (code[e.info].Not? || code[e.info].GetUpval?)
  {
    SoundDisjoint(s, code, here, t, f);
  }

  /** The jump of a comparison is a list of its own. */
  lemma JumpList(s: Start, code: Code, here: set<nat>, e: ExpDesc, t: seq<nat>, f: seq<nat>)
    requires CoreOK(s, code, here, e, Elems(t), Elems(f)) && e.k.VJmp?
    ensures IsList(code, e.info, [e.info]) && here == {} && e.info !in t && e.info !in f
    ensures 1 <= e.info == |code| - 1 && code[e.info].Jmp?
            && (code[e.info - 1].Eq? || code[e.info - 1].Lt? || code[e.info - 1].Le?)
  {
    assert e.info !in Elems(t) && e.info !in Elems(f);
    assert Link(code, e.info) == NO_JUMP;
    var one := [e.info];
    assert |one| == 1 && one[0] == e.info;
    LinksMakeList(code, e.info, one);
  }

  /** The jump of a comparison, linked to the true exits. */
  lemma JumpJoins(s: Start, was: Code, here: set<nat>, e: ExpDesc, t: seq<nat>, f: seq<nat>, code: Code)
    requires Sound(s, was, here, Elems(t), Elems(f)) && CoreOK(s, was, here, e, Elems(t), Elems(f)) && e.k.VJmp?
    requires IsList(was, e.f, f) && Relinked(was, code, Elems(t))
    ensures IsList(code, e.f, f) && Elems(t + [e.info]) !! Elems(f) && Elems(t + [e.info]) == Elems(t) + {e.info}
    ensures !CarriesValue(code, e.info)
  {
    ElemsAppend(t, [e.info]);
    ElemsOne(e.info);
    ListKept(was, code, Elems(t), e.f, f);
  }

  /** A leaf compiles to nothing. */
  lemma LeafOK(s: Start, e: ExpDesc, x: Expr)
    requires Proper(s)
    requires match x
             case Local(reg) => e.k.VLocal? && e.info == reg < s.nactvar
             case Upvalue(i) => e.k.VUpval? && e.info == i
             case True => e.k.VTrue?
             case False => e.k.VFalse?
             case Constant(id) => e.k == VK(Other(id))
             case _ => false
    ensures ExpOK(s, s.code, s.here, e, {}, {}, x)
  {
    hide Paired;
    assert {} + {} + s.here == s.here && Core(s.code, e) == s.code;
  }

  // ---- The exits of the first operand ----

  /** Linking the last jump into the exits. */
  lemma LinkExits(s: Start, was: Code, code: Code, waiting: seq<nat>, jpc: int, side: seq<nat>, head: int,
                  other: seq<nat>, js: seq<nat>, truth: bool, x: Expr)
    requires Proper(s) && Goes(s, was, Elems(waiting) + Elems(side), Elems(other) + Elems(js), truth, x)
    requires IsList(was, head, side) && IsList(was, jpc, waiting) && Relinked(was, code, Elems(other))
    requires forall k :: k in waiting ==> k !in other
    ensures Goes(s, code, Elems(waiting) + Elems(side), Elems(other + js), truth, x)
    ensures IsList(code, head, side) && IsList(code, jpc, waiting)
  {
    hide Goes, IsList, Relinked;
    RelinkGoes(s, was, code, Elems(waiting) + Elems(side), Elems(other) + Elems(js), truth, x, Elems(other));
    ElemsAppend(other, js);
    ElemsIn(other);
    GoesDisjoint(s, was, Elems(waiting) + Elems(side), Elems(other) + Elems(js), truth, x);
    assert forall k :: k in side ==> k !in other by {
      ElemsIn(side);
    }
    ListKept(was, code, Elems(other), head, side);
    ListKept(was, code, Elems(other), jpc, waiting);
  }

  lemma GoesDisjoint(s: Start, code: Code, here: set<nat>, exits: set<nat>, truth: bool, x: Expr)
    requires Goes(s, code, here, exits, truth, x)
    ensures exits !! here && forall j :: j in exits ==> j < |code| && code[j].Jmp?
  {
    SoundDisjoint(s, code, here, exits, {});
  }

  /** The list to go on with joins the waiting jumps. */
  lemma LinkWaiting(s: Start, was: Code, code: Code, waiting: seq<nat>, side: seq<nat>, exits: seq<nat>, head: int,
                    truth: bool, x: Expr)
    requires Proper(s) && Goes(s, was, Elems(waiting) + Elems(side), Elems(exits), truth, x)
    requires IsList(was, head, exits) && Relinked(was, code, Elems(waiting))
    ensures Goes(s, code, Elems(waiting + side), Elems(exits), truth, x) && IsList(code, head, exits)
  {
    hide Goes, IsList, Relinked;
    RelinkGoes(s, was, code, Elems(waiting) + Elems(side), Elems(exits), truth, x, Elems(waiting));
    ElemsAppend(waiting, side);
    GoesDisjoint(s, was, Elems(waiting) + Elems(side), Elems(exits), truth, x);
    ElemsIn(exits);
    ElemsIn(waiting);
    ListKept(was, code, Elems(waiting), head, exits);
  }

  /** The exits of the first operand after the second has been compiled. */
  lemma FirstExits(s: Start, code1: Code, here1: set<nat>, exits: seq<nat>, code: Code, here: set<nat>, t: seq<nat>,
                   f: seq<nat>, head: int)
    requires Proper(s) && Sound(s, code1, here1, Elems(exits), {}) && IsList(code1, head, exits)
    requires Sound(SecondStart(s, code1, here1), code, here, Elems(t), Elems(f))
    ensures IsList(code, head, exits)
    ensures (forall j :: j in t || j in f ==> j !in exits) && Elems(t) !! Elems(exits) && Elems(f) !! Elems(exits)
    ensures Elems(exits) !! here
  {
    hide Sound, IsList;
    ComposeHoles(s, code1, here1, Elems(exits), code, here, Elems(t), Elems(f));
    ElemsIn(t);
    ElemsIn(f);
    ElemsIn(exits);
    ListJumps(code1, head, exits);
    SoundDisjoint(s, code1, here1, Elems(exits), {});
    forall j | j in exits ensures j < |code| && j < |code1| && code[j] == code1[j] {
      assert j in Elems(exits);
      KeptJump(code1, here1, code, Elems(t) + Elems(f) + here, j);
    }
    ListGrows(code1, code, head, exits);
  }

  // ---- Parts of what a descriptor promises ----

  lemma EndsParts(s: Start, code: Code, here: set<nat>, e: ExpDesc, t: set<nat>, f: set<nat>, x: Expr)
    requires ExpOK(s, code, here, e, t, f, x)
    ensures Ends(s, code, here, e, t, f, x, false) && Sound(s, code, here, t, f) && CoreOK(s, code, here, e, t, f)
  {
  }

  lemma EndsDisjoint(s: Start, code: Code, here: set<nat>, e: ExpDesc, t: set<nat>, f: set<nat>, x: Expr)
    requires Ends(s, code, here, e, t, f, x, false)
    ensures t !! f && t !! here && f !! here
  {
    SoundDisjoint(s, code, here, t, f);
  }

  lemma LoadedParts(s: Start, code: Code, here: set<nat>, reg: nat, t: set<nat>, f: set<nat>, x: Expr)
    requires Loaded(s, code, here, reg, t, f, x)
    ensures t !! f && t !! here && f !! here && Paired(code) && forall j :: j in t || j in f ==>
              j < |code| && code[j].Jmp?
  {
    SoundDisjoint(s, code, here, t, f);
  }

  lemma ExpSound(s: Start, code: Code, here: set<nat>, e: ExpDesc, t: set<nat>, f: set<nat>, x: Expr)
    requires ExpOK(s, code, here, e, t, f, x)
    ensures Sound(s, code, here, t, f)
  {
  }

  lemma GoesSound(s: Start, code: Code, here: set<nat>, exits: set<nat>, truth: bool, x: Expr)
    requires Goes(s, code, here, exits, truth, x)
    ensures Sound(s, code, here, exits, {})
  {
  }

  lemma NoneCarries(code: Code)
    ensures NoValues(code, {})
  {
  }

  /** The state in which an operand that follows begins. */
  lemma ProperSecond(s: Start, code1: Code, here1: set<nat>, free1: nat)
    requires Proper(s) && s.free <= free1 && Paired(code1) && forall j :: j in here1 ==> j < |code1| && code1[j].Jmp?
    ensures Proper(OperandStart(s, code1, here1, free1))
  {
  }

  /** The heads of the lists are no part of the meaning. */
  lemma SameDesc(s: Start, code: Code, here: set<nat>, e: ExpDesc, e': ExpDesc, t: set<nat>, f: set<nat>, x: Expr)
    requires ExpOK(s, code, here, e, t, f, x) && e'.k == e.k && e'.info == e.info
    ensures ExpOK(s, code, here, e', t, f, x)
  {
    hide Sound, Flow, Enter, Carry, Agree, Paired, HasExits;
    forall a, r: Regs | Entry(s, a) ensures DenotesAt(s, code, here, e', t, f, x, false, a, r) {
      assert DenotesAt(s, code, here, e, t, f, x, false, a, r);
    }
  }

  lemma ListPrefix(was: Code, code: Code, head: int, s: seq<nat>)
    requires IsList(was, head, s) && |was| <= |code| && code[..|was|] == was
    ensures IsList(code, head, s)
  {
    forall j | j in s ensures j < |was| && code[j] == was[j] {
      assert code[j] == code[..|was|][j];
    }
    ListGrows(was, code, head, s);
  }

  /** What a test of a register needs to know about the expression. */
  lemma CondFacts(s: Start, code: Code, here: set<nat>, e: ExpDesc, t: set<nat>, f: set<nat>, x: Expr, truth: bool)
    requires ExpOK(s, code, here, e, t, f, x) && (e.k.VNonreloc? || e.k.VRelocable? || (e.k.VK? && !truth))
    requires e.k.VRelocable? ==> e.info < |code| && !code[e.info].Not?
    ensures !Plain(x) && (IsLiteral(x) ==> !Decided(x, LiteralOf(x), truth))
    ensures (t == {} <==> !HasExits(x, true)) && (f == {} <==> !HasExits(x, false))
  {
    hide Plain, HasExits, LiteralOf, IsLiteral, IsLocal, Ends;
  }
}
