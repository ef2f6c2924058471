/** Patch lists: jumps without a destination, linked through their own offsets (lcode.c). */
module Patches {
  import opened Base
  import opened LuaVM

  const NO_JUMP: int := -1
  const NO_REG: nat := 255
  const MAXARG_sBx: int := 131071
  const MAXSTACK: nat := 250

  /** getjump. */
  function Link(code: Code, j: nat): int
    requires j < |code| && code[j].Jmp?
  {
    if code[j].sbx == NO_JUMP then NO_JUMP else j + 1 + code[j].sbx
  }

  /** The list that starts at `head` runs through exactly the jumps of s, in order. */
  ghost predicate IsList(code: Code, head: int, s: seq<nat>) {
    && head == (if |s| == 0 then NO_JUMP else s[0])
    && NoDup(s)
    && (forall i :: 0 <= i < |s| ==> s[i] < |code| && code[s[i]].Jmp?)
    && (forall i :: 0 <= i < |s| ==> Link(code, s[i]) == if i + 1 < |s| then s[i + 1] else NO_JUMP)
  }

  ghost function Elems(s: seq<nat>): set<nat> { set j | j in s }

  /** Every test is followed by its jump. */
  ghost predicate Paired(code: Code) {
    forall p :: 0 <= p < |code| && code[p].IsTest() ==> p + 1 < |code| && code[p + 1].Jmp?
  }

  /** The jump at j carries a value: it is controlled by a TESTSET. */
  predicate CarriesValue(code: Code, j: nat) { 0 < j <= |code| && code[j - 1].TestSet? }

  /** patchtestreg on a TESTSET: give it its register, or let it only test. */
  function PatchTestReg(i: Instr, reg: nat): Instr
    requires i.TestSet?
  {
    if reg != NO_REG && reg != i.b then TestSet(reg, i.b, i.flag) else Test(i.b, i.flag)
  }

  /** removevalues: the jumps of s carry no value any more. */
  function Removed(code: Code, s: set<nat>): (r: Code)
    ensures |r| == |code|
  {
    seq(|code|, p requires 0 <= p < |code| =>
      if p + 1 in s && code[p].TestSet? then PatchTestReg(code[p], NO_REG) else code[p])
  }

  /** patchlistaux: jumps that carry a value go to vtarget, with the value in reg, the others to dtarget. */
  function Patched(code: Code, s: set<nat>, vtarget: int, reg: nat, dtarget: int): (r: Code)
    ensures |r| == |code|
  {
    seq(|code|, p requires 0 <= p < |code| =>
      if p in s then Jmp((if CarriesValue(code, p) then vtarget else dtarget) - (p + 1))
      else if p + 1 in s && code[p].TestSet? then PatchTestReg(code[p], reg)
      else code[p])
  }

  lemma PatchedNone(code: Code, vtarget: int, reg: nat, dtarget: int)
    ensures Patched(code, {}, vtarget, reg, dtarget) == code
  {
  }

  /** dischargejpc: the waiting jumps lead to the next instruction. */
  function Discharged(code: Code, here: set<nat>): (r: Code)
    ensures |r| == |code|
  {
    Patched(code, here, |code|, NO_REG, |code|)
  }
}
