/** What an expression descriptor means for the code emitted so far. */
module Denote {
  import opened Base
  import opened LuaVM
  import opened Logic
  import opened Holes
  import opened Patches

  /** VK stands for a constant of the function, with its value. */
  datatype Kind = VLocal | VUpval | VTrue | VFalse | VK(v: Value) | VJmp | VRelocable | VNonreloc {
    predicate IsConst() { VTrue? || VFalse? || VK? }

    function Const(): Value
      requires IsConst()
    {
      if VK? then v else Bool(VTrue?)
    }
  }

  /** expdesc: where the value is, and the lists of exits taken when it is true, and when it is false. */
  datatype ExpDesc = ExpDesc(k: Kind, info: nat, t: int, f: int)

  /** The state in which the compilation of an expression began: `here` are the jumps that waited then. */
  datatype Start = Start(env: Env, code: Code, here: set<nat>, free: nat, nactvar: nat)

  ghost predicate Proper(s: Start) {
    Paired(s.code) && s.nactvar <= s.free && forall j :: j in s.here ==> j < |s.code| && s.code[j].Jmp?
  }

  // ---- Entries ----

  /** One enters the code of an expression by falling through, or by a jump that waited. */
  predicate Entry(s: Start, a: Option<nat>) { a.Some? ==> a.value in s.here }

  /** What the jump at j carries. */
  function Carry(code: Code, j: nat, r: Regs): Option<Value> {
    if CarriesValue(code, j) then Some(Get(r, code[j - 1].b)) else None
  }

  function Brings(s: Start, a: Option<nat>, r: Regs): Option<Value> {
    if a.Some? then Carry(s.code, a.value, r) else None
  }

  function Enter(s: Start, code: Code, h: set<nat>, a: Option<nat>, r: Regs): Outcome {
    match a
    case None => Run(s.env, code, h, |s.code|, r)
    case Some(j) => if j < |code| && code[j].Jmp? then Take(s.env, code, h, j, r) else Stuck
  }

  // ---- The code since the start ----

  /** Since the start the code has only grown; the jumps that waited are open, or lead to what came after. */
  ghost predicate Grown(s: Start, code: Code, open: set<nat>) {
    && Compatible(s.code, s.here, code, open)
    && forall j :: j in s.here && j !in open ==> Onward(s, code, j)
  }

  predicate Onward(s: Start, code: Code, j: nat) {
    j < |code| && code[j].Jmp? && j + 1 + code[j].sbx >= |s.code|
  }

  /** Open jumps: of the expression's own code, or those that waited when it began. */
  ghost predicate OwnHoles(s: Start, code: Code, h: set<nat>) {
    forall j :: j in h ==> j < |code| && code[j].Jmp? && (j >= |s.code| || j in s.here)
  }

  /** The true exits, the false exits and the waiting jumps are different jumps. */
  ghost predicate Sound(s: Start, code: Code, here: set<nat>, t: set<nat>, f: set<nat>) {
    && Paired(code) && OwnHoles(s, code, t + f + here) && t !! f && t !! here && f !! here
    && Grown(s, code, t + f + here)
  }

  // ---- Descriptors ----

  /** The part of the code after which the descriptor says what remains to be done. */
  function Core(code: Code, e: ExpDesc): Code {
    match e.k
    case VJmp => if 1 <= e.info <= |code| then code[..e.info - 1] else code
    case VRelocable => if e.info <= |code| then code[..e.info] else code
    case _ => code
  }

  ghost predicate CoreOK(s: Start, code: Code, here: set<nat>, e: ExpDesc, t: set<nat>, f: set<nat>) {
    match e.k
    case VRelocable =>
      |s.code| <= e.info == |code| - 1 && (code[e.info].Not? || code[e.info].GetUpval?) && here == {}
    case VJmp =>
      && |s.code| < e.info == |code| - 1 && code[e.info] == Jmp(NO_JUMP)
      && (code[e.info - 1].Eq? || code[e.info - 1].Lt? || code[e.info - 1].Le?)
      && e.info !in t && e.info !in f && here == {}
    case _ => true
  }

  /** The value that the last instruction of a relocatable expression will compute. */
  function Computes(env: Env, i: Instr, r: Regs): Value {
    match i
    case Not(_, b) => Bool(IsFalse(Get(r, b)))
    case GetUpval(_, b) => env.upvals(b)
    case _ => Nil
  }

  /** After the core, the descriptor stands for the value v. */
  ghost predicate EndOK(env: Env, code: Code, e: ExpDesc, r: Regs, v: Value) {
    match e.k
    case VLocal => Get(r, e.info) == v
    case VNonreloc => Get(r, e.info) == v
    case VUpval => env.upvals(e.info) == v
    case VRelocable => e.info < |code| && Computes(env, code[e.info], r) == v
    case VJmp => 1 <= e.info <= |code| && code[e.info - 1].IsTest() && v == Bool(Fires(env, code[e.info - 1], r))
    case _ => e.k.Const() == v
  }

  /** No instruction stands for the value: a literal, or a local variable. */
  predicate Silent(s: Start, e: ExpDesc) {
    e.k.IsConst() || e.k.VLocal? || (e.k.VNonreloc? && e.info < s.nactvar)
  }

  /** At the end of the core, reached by a jump that carries w; `not` tells that the value is yet to be negated. */
  ghost predicate Arrived(s: Start, code: Code, e: ExpDesc, not: bool, how: How, w: Option<Value>, r: Regs) {
    && how.At? && EndOK(s.env, code, e, r, if not then Bool(IsFalse(how.v)) else how.v)
    && (Silent(s, e) ==> how.w == w)
  }

  /** From the registers r, the code arrives at the end, or leaves by an exit, as `how` says. */
  ghost predicate OutcomeOK(s: Start, code: Code, here: set<nat>, e: ExpDesc, t: set<nat>, not: bool, how: How,
                            r: Regs, o: Outcome) {
    match o
    case Stuck => false
    case End(r') => Agree(r, r', s.free, -1) && Arrived(s, code, e, not, how, None, r')
    case Exit(j, r') =>
      && Agree(r, r', s.free, -1)
      && if j in here then Arrived(s, code, e, not, how, Carry(code, j, r'), r')
         else how == Out(j in t, Carry(code, j, r'))
  }

  /** Entered at a, the code does what Flow says. */
  ghost predicate DenotesAt(s: Start, code: Code, here: set<nat>, e: ExpDesc, t: set<nat>, f: set<nat>, x: Expr,
                            not: bool, a: Option<nat>, r: Regs) {
    OutcomeOK(s, code, here, e, t, not, Flow(s.env, x, r, Brings(s, a, r)), r,
              Enter(s, Core(code, e), t + f + here, a, r))
  }

  ghost predicate Denotes(s: Start, code: Code, here: set<nat>, e: ExpDesc, t: set<nat>, f: set<nat>, x: Expr,
                          not: bool) {
    forall a, r: Regs :: Entry(s, a) ==> DenotesAt(s, code, here, e, t, f, x, not, a, r)
  }

  /** The code ends with the value that the descriptor stands for. */
  ghost predicate Ends(s: Start, code: Code, here: set<nat>, e: ExpDesc, t: set<nat>, f: set<nat>, x: Expr,
                       not: bool) {
    Sound(s, code, here, t, f) && CoreOK(s, code, here, e, t, f) && Denotes(s, code, here, e, t, f, x, not)
  }

  /** What the kind of the descriptor and its lists tell about the expression. */
  ghost predicate Matches(code: Code, e: ExpDesc, t: set<nat>, f: set<nat>, x: Expr) {
    && (e.k.IsConst() <==> IsLiteral(x))
    && (e.k.IsConst() ==> e.k.Const() == LiteralOf(x))
    && (e.k.VK? ==> e.k.v.Other?)
    && (e.k.VLocal? || e.k.VNonreloc? <==> IsLocal(x))
    && (t == {} <==> !HasExits(x, true))
    && (f == {} <==> !HasExits(x, false))
    && (Plain(x) <==> e.k.VJmp? || (e.k.VRelocable? && e.info < |code| && code[e.info].Not?))
  }

  /** Everything the descriptor of an expression promises; a register is one of a local variable. */
  ghost predicate ExpOK(s: Start, code: Code, here: set<nat>, e: ExpDesc, t: set<nat>, f: set<nat>, x: Expr) {
    && Ends(s, code, here, e, t, f, x, false)
    && (e.k.VLocal? || e.k.VNonreloc? ==> e.info < s.nactvar)
    && Matches(code, e, t, f, x)
  }

  // ---- Other states of an expression ----

  /** What luaK_goiftrue and luaK_goiffalse leave: the code goes on only if the value is `truth`. */
  ghost predicate GoesAt(s: Start, code: Code, here: set<nat>, exits: set<nat>, truth: bool, x: Expr, a: Option<nat>,
                         r: Regs) {
    var go := GoIf(x, Flow(s.env, x, r, Brings(s, a, r)), truth);
    match Enter(s, code, exits + here, a, r)
    case Stuck => false
    case End(r') => Agree(r, r', s.free, -1) && go == On(None)
    case Exit(j, r') =>
      && Agree(r, r', s.free, -1)
      && go == if j in here then On(Carry(code, j, r')) else Leave(Carry(code, j, r'))
  }

  ghost predicate Goes(s: Start, code: Code, here: set<nat>, exits: set<nat>, truth: bool, x: Expr) {
    && Sound(s, code, here, exits, {})
    && (exits == {} <==> !HasExits(x, !truth) && !Jumps(x, truth))
    && forall a, r: Regs :: Entry(s, a) ==> GoesAt(s, code, here, exits, truth, x, a, r)
  }

  /** The value of the last operand is in the register `reg` at the end of the code. */
  ghost predicate LoadedAt(s: Start, code: Code, here: set<nat>, reg: nat, t: set<nat>, f: set<nat>, x: Expr,
                           a: Option<nat>, r: Regs) {
    var how := Flow(s.env, x, r, Brings(s, a, r));
    match Enter(s, code, t + f + here, a, r)
    case Stuck => false
    case End(r') => Agree(r, r', s.free, reg) && how.At? && Get(r', reg) == how.v
    case Exit(j, r') =>
      if j in here then Agree(r, r', s.free, reg) && how.At? && Get(r', reg) == how.v
      else Agree(r, r', s.free, -1) && how == Out(j in t, Carry(code, j, r'))
  }

  ghost predicate Loaded(s: Start, code: Code, here: set<nat>, reg: nat, t: set<nat>, f: set<nat>, x: Expr) {
    && Sound(s, code, here, t, f)
    && forall a, r: Regs :: Entry(s, a) ==> LoadedAt(s, code, here, reg, t, f, x, a, r)
  }

  /** However it gets there, the result is in the register `reg` at the end of the code. */
  ghost predicate HeldAt(s: Start, code: Code, here: set<nat>, reg: nat, x: Expr, a: Option<nat>, r: Regs) {
    var o := Enter(s, code, here, a, r);
    o != Stuck && Agree(r, o.regs, s.free, reg) && Get(o.regs, reg) == Delivered(s.env, x, r, Brings(s, a, r))
  }

  ghost predicate Held(s: Start, code: Code, here: set<nat>, reg: nat, x: Expr) {
    Sound(s, code, here, {}, {}) && forall a, r: Regs :: Entry(s, a) ==> HeldAt(s, code, here, reg, x, a, r)
  }

  function OperandOf(e: ExpDesc): Operand { if e.k.VK? then K(e.k.v) else R(e.info) }

  /** An operand of a comparison: a register or a constant that holds the result. */
  ghost predicate OperandAt(s: Start, code: Code, here: set<nat>, e: ExpDesc, x: Expr, a: Option<nat>, r: Regs) {
    var how := Flow(s.env, x, r, Brings(s, a, r));
    var o := Enter(s, code, here, a, r);
    && o != Stuck && Agree(r, o.regs, s.free, -1) && RK(o.regs, OperandOf(e)) == Left(how)
    && Rest(x, how) == if o.Exit? then Carry(code, o.at, o.regs) else None
  }

  ghost predicate OperandOK(s: Start, code: Code, here: set<nat>, e: ExpDesc, x: Expr) {
    && (e.k.VNonreloc? || e.k.VK?) && Sound(s, code, here, {}, {})
    && forall a, r: Regs :: Entry(s, a) ==> OperandAt(s, code, here, e, x, a, r)
  }
}
