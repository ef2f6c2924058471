/** Lexical scoping (lparser.c): which variable a name means, and how nested functions reach it through upvalues. */
module Scoping {
  import opened Base

  type Name = nat

  const MAXVARS: nat := 200
  const MAXUPVALUES: nat := 60

  /** A declared local variable; the number identifies the declaration. */
  datatype Var = Var(name: Name, id: nat)

  /** upvaldesc: a register of the enclosing function, or one of its upvalues. */
  datatype Desc = InRegister(info: nat) | InUpvalue(info: nat)

  /** BlockCnt. */
  datatype Block = Block(nactvar: nat, upval: bool)

  /** FuncState: the active variables, one in each register from 0 on; the upvalues; the open blocks. */
  datatype Func = Func(actvar: seq<Var>, upvalues: seq<Desc>, blocks: seq<Block>)

  /** The functions being compiled, the innermost last. */
  type Funcs = seq<Func>

  datatype Kind = VGLOBAL | VLOCAL(reg: nat) | VUPVAL(index: nat)

  // ---- What names and descriptors mean ----

  /** The last declaration of the name in a list, or -1. */
  function Last(vars: seq<Var>, n: Name): (i: int)
    ensures -1 <= i < |vars|
    ensures i >= 0 ==> vars[i].name == n
    ensures forall j :: i < j < |vars| ==> vars[j].name != n
  {
    if |vars| == 0 then -1
    else if vars[|vars| - 1].name == n then |vars| - 1
    else Last(vars[..|vars| - 1], n)
  }

  /** The innermost visible declaration of a name, seen from the f-th function. */
  function Visible(fs: Funcs, f: int, n: Name): Option<nat>
    requires f < |fs|
    decreases f + 1
  {
    if f < 0 then None
    else
      var i := Last(fs[f].actvar, n);
      if i >= 0 then Some(fs[f].actvar[i].id) else Visible(fs, f - 1, n)
  }

  /** The declaration that a descriptor in terms of the f-th function leads to, following descriptors outwards. */
  function Denotes(fs: Funcs, f: int, d: Desc): Option<nat>
    requires f < |fs|
    decreases f + 1
  {
    if f < 0 then None
    else
      match d
      case InRegister(r) => if r < |fs[f].actvar| then Some(fs[f].actvar[r].id) else None
      case InUpvalue(u) => if u < |fs[f].upvalues| then Denotes(fs, f - 1, fs[f].upvalues[u]) else None
  }

  /** What a resolved name means in the f-th function. */
  function Meaning(fs: Funcs, f: nat, k: Kind): Option<nat>
    requires f < |fs|
  {
    match k
    case VGLOBAL => None
    case VLOCAL(r) => if r < |fs[f].actvar| then Some(fs[f].actvar[r].id) else None
    case VUPVAL(u) => if u < |fs[f].upvalues| then Denotes(fs, f - 1, fs[f].upvalues[u]) else None
  }

  /** fs' has the same functions with the same variables, and possibly more upvalues. */
  ghost predicate Extends(fs: Funcs, fs': Funcs) {
    && |fs'| == |fs|
    && forall f :: 0 <= f < |fs| ==>
         fs'[f].actvar == fs[f].actvar && fs[f].upvalues <= fs'[f].upvalues
             && Starts(fs'[f].blocks) == Starts(fs[f].blocks)
  }

  /** Where the variables of each block begin. */
  function Starts(blocks: seq<Block>): seq<nat> { seq(|blocks|, i requires 0 <= i < |blocks| => blocks[i].nactvar) }

  /** More upvalues do not change what the others mean. */
  lemma {:induction false} DenotesExtends(fs: Funcs, fs': Funcs, f: int, d: Desc)
    requires Extends(fs, fs') && f < |fs| && Denotes(fs, f, d).Some?
    ensures Denotes(fs', f, d) == Denotes(fs, f, d)
    decreases f + 1
  {
    if f >= 0 && d.InUpvalue? {
      DenotesExtends(fs, fs', f - 1, fs[f].upvalues[d.info]);
    }
  }

  lemma ExtendsThen(a: Funcs, b: Funcs, c: Funcs)
    requires Extends(a, b) && Extends(b, c)
    ensures Extends(a, c)
  {
    forall f | 0 <= f < |a| ensures c[f].actvar == a[f].actvar && a[f].upvalues <= c[f].upvalues {
      assert a[f].upvalues <= b[f].upvalues <= c[f].upvalues;
    }
  }

  /** Every upvalue of every function means some declared variable. */
  ghost predicate Resolved(fs: Funcs) {
    forall f, u {:trigger fs[f].upvalues[u]} :: 0 <= f < |fs| && 0 <= u < |fs[f].upvalues| ==>
      Denotes(fs, f - 1, fs[f].upvalues[u]).Some?
  }

  /** The innermost open block that holds register r, or -1. */
  function BlockOf(blocks: seq<Block>, r: nat): (b: int)
    ensures -1 <= b < |blocks|
    ensures b >= 0 ==> blocks[b].nactvar <= r
    ensures forall c :: b < c < |blocks| ==> blocks[c].nactvar > r
  {
    if |blocks| == 0 then -1
    else if blocks[|blocks| - 1].nactvar <= r then |blocks| - 1
    else BlockOf(blocks[..|blocks| - 1], r)
  }

  /** The blocks that will close their variables are exactly those of captured variables. */
  ghost predicate WillClose(f: Func, captured: set<nat>) {
    && (forall r :: r in captured ==>
          r < |f.actvar| && (BlockOf(f.blocks, r) >= 0 ==> f.blocks[BlockOf(f.blocks, r)].upval))
    && (forall b :: 0 <= b < |f.blocks| && f.blocks[b].upval ==> HasCaptured(f.blocks, captured, b))
  }

  ghost predicate HasCaptured(blocks: seq<Block>, captured: set<nat>, b: int) {
    exists r :: r in captured && BlockOf(blocks, r) == b
  }

  ghost predicate AnyFrom(captured: set<nat>, n: nat) { exists r: nat :: r in captured && r >= n }

  function Below(captured: set<nat>, n: nat): set<nat> { set r | r in captured && r < n }

  ghost predicate AllWillClose(fs: Funcs, captured: seq<set<nat>>) {
    |captured| == |fs| && forall f :: 0 <= f < |fs| ==> WillClose(fs[f], captured[f])
  }

  /** Every variable that some function has as an upvalue counts as captured. */
  ghost predicate Noted(fs: Funcs, captured: seq<set<nat>>) {
    |captured| == |fs| && forall f, u {:trigger fs[f].upvalues[u]} :: 1 <= f < |fs| && 0 <= u < |fs[f].upvalues| ==>
      fs[f].upvalues[u].InUpvalue? || fs[f].upvalues[u].info in captured[f - 1]
  }

  /** Each block begins where its enclosing block has some variables already. */
  ghost predicate Nested(f: Func) {
    && (forall i :: 0 <= i < |f.blocks| ==> f.blocks[i].nactvar <= |f.actvar|)
    && (forall i, j :: 0 <= i < j < |f.blocks| ==> f.blocks[i].nactvar <= f.blocks[j].nactvar)
  }

  // ---- OP_CLOSURE ----

  /** The variables in the registers of the f-th function, and those of its upvalues. */
  function RegisterIds(fs: Funcs, f: nat): (ids: seq<nat>)
    requires f < |fs|
  {
    seq(|fs[f].actvar|, i requires 0 <= i < |fs[f].actvar| => fs[f].actvar[i].id)
  }

  function UpvalueIds(fs: Funcs, f: nat): (ids: seq<Option<nat>>)
    requires f < |fs|
    ensures |ids| == |fs[f].upvalues|
  {
    seq(|fs[f].upvalues|, u requires 0 <= u < |fs[f].upvalues| => Denotes(fs, f - 1, fs[f].upvalues[u]))
  }

  /** OP_CLOSURE in a function with these registers and upvalues: OP_MOVE takes a register, OP_GETUPVAL an upvalue. */
  function MakeClosure(descs: seq<Desc>, registers: seq<nat>, upvalues: seq<Option<nat>>): (c: seq<Option<nat>>)
    ensures |c| == |descs|
  {
    seq(|descs|, i requires 0 <= i < |descs| =>
      match descs[i]
      case InRegister(r) => if r < |registers| then Some(registers[r]) else None
      case InUpvalue(u) => if u < |upvalues| then upvalues[u] else None)
  }

  /** The closure made from the descriptors holds the variables that the upvalues of the function meant. */
  lemma ClosureBinds(fs: Funcs, f: nat)
    requires 1 <= f < |fs|
    ensures MakeClosure(fs[f].upvalues, RegisterIds(fs, f - 1), UpvalueIds(fs, f - 1)) == UpvalueIds(fs, f)
  {
    var c := MakeClosure(fs[f].upvalues, RegisterIds(fs, f - 1), UpvalueIds(fs, f - 1));
    forall u | 0 <= u < |c| ensures c[u] == UpvalueIds(fs, f)[u] {
    }
  }

  // ---- Whole programs: what the references mean, from the text alone ----

  /** What the parser meets, in the order of the source text. */
  datatype Event = DeclareVar(n: Name) | BeginBlock | EndBlock | BeginFunction | EndFunction | Refer(n: Name)

  /** Where OP_CLOSURE makes a closure: the function around it, and the variables in its registers there. */
  datatype Site = Site(parent: nat, vars: seq<Var>)

  /**
   The functions and blocks that are open, with their variables; functions are numbered as they begin.  Captured are
   the declarations that functions nested in their own have referred to.
   */
  datatype Scope = Scope(vars: seq<seq<Var>>, blocks: seq<seq<nat>>, open: seq<nat>, declared: nat, next: nat,
                         sites: map<nat, Site>, captured: set<nat>)

  const START := Scope([[]], [[]], [0], 0, 1, map[], {})

  predicate Regular(sc: Scope) { |sc.vars| == |sc.blocks| == |sc.open| > 0 }

  /** Among the first f + 1 functions, the one with the innermost declaration of a name, or -1. */
  function Owner(vars: seq<seq<Var>>, f: int, n: Name): (g: int)
    requires f < |vars|
    ensures g < 0 || (g <= f && Last(vars[g], n) >= 0)
    decreases f + 1
  {
    if f < 0 then -1 else if Last(vars[f], n) >= 0 then f else Owner(vars, f - 1, n)
  }

  /** The declaration that a reference in the innermost function captures: one of a function around it. */
  function Caught(vars: seq<seq<Var>>, n: Name): set<nat> {
    var g := Owner(vars, |vars| - 1, n);
    if 0 <= g < |vars| - 1 then {vars[g][Last(vars[g], n)].id} else {}
  }

  function After(sc: Scope, e: Event): (r: Scope)
    requires Regular(sc)
    ensures Regular(r)
  {
    var top := |sc.vars| - 1;
    match e
    case DeclareVar(n) => sc.(vars := sc.vars[top := sc.vars[top] + [Var(n, sc.declared)]], declared := sc.declared + 1)
    case BeginBlock => sc.(blocks := sc.blocks[top := sc.blocks[top] + [|sc.vars[top]|]])
    case EndBlock =>
      var n := |sc.blocks[top]|;
      if n == 0 || sc.blocks[top][n - 1] > |sc.vars[top]| then sc
      else sc.(vars := sc.vars[top := sc.vars[top][..sc.blocks[top][n - 1]]],
               blocks := sc.blocks[top := sc.blocks[top][..n - 1]])
    case BeginFunction => sc.(vars := sc.vars + [[]], blocks := sc.blocks + [[]], open := sc.open + [sc.next],
                              next := sc.next + 1)
    case EndFunction =>
      if top == 0 then sc
      else sc.(vars := sc.vars[..top], blocks := sc.blocks[..top], open := sc.open[..top],
               sites := sc.sites[sc.open[top] := Site(sc.open[top - 1], sc.vars[top - 1])])
    case Refer(n) => sc.(captured := sc.captured + Caught(sc.vars, n))
  }

  function AfterAll(sc: Scope, events: seq<Event>): Scope
    requires Regular(sc)
    decreases |events|
  {
    if |events| == 0 then sc else AfterAll(After(sc, events[0]), events[1..])
  }

  /** The innermost declaration of a name in the first f + 1 functions. */
  function Innermost(vars: seq<seq<Var>>, f: int, n: Name): Option<nat>
    requires f < |vars|
    decreases f + 1
  {
    if f < 0 then None
    else if Last(vars[f], n) >= 0 then Some(vars[f][Last(vars[f], n)].id) else Innermost(vars, f - 1, n)
  }

  /** A reference: the function it stands in, the local variables there, and the variable it means. */
  datatype Reference = Reference(func: nat, vars: seq<Var>, id: Option<nat>)

  function References(sc: Scope, events: seq<Event>): seq<Reference>
    requires Regular(sc)
    decreases |events|
  {
    if |events| == 0 then []
    else
      var top := |sc.vars| - 1;
      (if events[0].Refer? then [Reference(sc.open[top], sc.vars[top], Innermost(sc.vars, top, events[0].n))] else [])
      + References(After(sc, events[0]), events[1..])
  }

  /** A block ends here, and a function nested in its own has referred to one of its variables. */
  ghost predicate EndsCaptured(sc: Scope)
    requires Regular(sc)
  {
    var top := |sc.vars| - 1;
    var n := |sc.blocks[top]|;
    n > 0 && exists i :: sc.blocks[top][n - 1] <= i < |sc.vars[top]| && sc.vars[top][i].id in sc.captured
  }

  ghost function ClosingAt(sc: Scope, e: Event): seq<bool>
    requires Regular(sc)
  {
    if e.EndBlock? && |sc.blocks[|sc.vars| - 1]| > 0 then [EndsCaptured(sc)] else []
  }

  /** For each end of a block in the text: are there variables to close? */
  ghost function Closings(sc: Scope, events: seq<Event>): seq<bool>
    requires Regular(sc)
    decreases |events|
  {
    if |events| == 0 then [] else ClosingAt(sc, events[0]) + Closings(After(sc, events[0]), events[1..])
  }

  /** Declarations are numbered in the order in which they stand. */
  ghost predicate Ordered(sc: Scope) {
    && (forall f, i {:trigger sc.vars[f][i]} :: 0 <= f < |sc.vars| && 0 <= i < |sc.vars[f]| ==>
          sc.vars[f][i].id < sc.declared)
    && (forall f, i, j {:trigger sc.vars[f][i], sc.vars[f][j]} :: 0 <= f < |sc.vars| && 0 <= i < j < |sc.vars[f]| ==>
          sc.vars[f][i].id < sc.vars[f][j].id)
    && (forall f, i, g, j {:trigger sc.vars[f][i], sc.vars[g][j]} ::
          0 <= f < g < |sc.vars| && 0 <= i < |sc.vars[f]| && 0 <= j < |sc.vars[g]| ==>
          sc.vars[f][i].id < sc.vars[g][j].id)
    && (forall id :: id in sc.captured ==> id < sc.declared)
  }

  /** The registers that hold captured variables. */
  function Registers(vars: seq<Var>, ids: set<nat>): set<nat> { set r: nat | r < |vars| && vars[r].id in ids }

  /** The registers noted as captured are exactly those of the captured declarations. */
  ghost predicate CapturedIs(fs: Funcs, captured: seq<set<nat>>, ids: set<nat>) {
    |captured| == |fs| && forall f :: 0 <= f < |fs| ==> captured[f] == Registers(fs[f].actvar, ids)
  }

  /** Among the first f + 1 functions, the one in which the name is found, or -1. */
  function Home(fs: Funcs, f: int, n: Name): (g: int)
    requires f < |fs|
    ensures g < 0 || (g <= f && Last(fs[g].actvar, n) >= 0)
    decreases f + 1
  {
    if f < 0 then -1 else if Last(fs[f].actvar, n) >= 0 then f else Home(fs, f - 1, n)
  }

  /** A search for the name from the f-th function notes its register, unless it is one of the first function asked. */
  function Noting(fs: Funcs, captured: seq<set<nat>>, f: int, n: Name, base: bool): seq<set<nat>>
    requires f < |fs| == |captured|
  {
    var g := Home(fs, f, n);
    if g < 0 || (g == f && base) then captured else captured[g := captured[g] + {Last(fs[g].actvar, n)}]
  }

  /** At run time: the variables that the closure of a function holds, by the descriptors that follow its OP_CLOSURE. */
  function Bound(sites: map<nat, Site>, descs: map<nat, seq<Desc>>, q: nat): seq<Option<nat>> {
    if q !in sites || q !in descs || sites[q].parent >= q then []
    else MakeClosure(descs[q], Ids(sites[q].vars), Bound(sites, descs, sites[q].parent))
  }

  function Ids(vars: seq<Var>): (ids: seq<nat>) { seq(|vars|, i requires 0 <= i < |vars| => vars[i].id) }

  /** The operand chosen for a reference leads to the variable it means. */
  predicate LeadsTo(k: Kind, ref: Reference, closure: seq<Option<nat>>) {
    match k
    case VGLOBAL => ref.id.None?
    case VLOCAL(r) => r < |ref.vars| && ref.id == Some(ref.vars[r].id)
    case VUPVAL(u) => ref.id.Some? && u < |closure| && closure[u] == ref.id
  }

  // ---- The functions being compiled, and the closures of those that are complete ----

  /** A reference through an upvalue in the function number `func`, and the variable it must mean. */
  datatype Use = Use(func: nat, index: nat, id: nat)

  /** The functions being compiled by their numbers, and the closures of those that are complete. */
  datatype Program = Program(open: seq<nat>, next: nat, closures: map<nat, seq<Option<nat>>>)

  /** In the closure, or in the function as compiled so far, the upvalue is that variable. */
  ghost predicate Right(fs: Funcs, p: Program, use: Use) {
    exists ups :: Holding(fs, p, use.func, ups) && use.index < |ups| && ups[use.index] == Some(use.id)
  }

  /** The variables that the upvalues of a function mean. */
  ghost predicate Holding(fs: Funcs, p: Program, q: nat, ups: seq<Option<nat>>) {
    if q in p.closures then ups == p.closures[q]
    else exists f :: 0 <= f < |fs| == |p.open| && p.open[f] == q && ups == UpvalueIds(fs, f)
  }

  /** The closure of q is what OP_CLOSURE makes of its descriptors in the function around it. */
  ghost predicate Made(fs: Funcs, p: Program, sites: map<nat, Site>, descs: map<nat, seq<Desc>>, q: nat) {
    && q in sites && q in descs && q in p.closures && sites[q].parent < q
    && exists ups :: MadeIn(fs, p, sites[q], descs[q], p.closures[q], ups)
  }

  ghost predicate MadeIn(fs: Funcs, p: Program, site: Site, d: seq<Desc>, closure: seq<Option<nat>>,
                         ups: seq<Option<nat>>) {
    Holding(fs, p, site.parent, ups) && closure == MakeClosure(d, Ids(site.vars), ups) && Inside(d, |ups|)
  }

  predicate Inside(d: seq<Desc>, n: nat) { forall i :: 0 <= i < |d| && d[i].InUpvalue? ==> d[i].info < n }

  /** Function numbers are given once, in ascending order. */
  ghost predicate Numbered(fs: Funcs, p: Program) {
    && |p.open| == |fs|
    && (forall f :: 0 <= f < |p.open| ==> p.open[f] < p.next && p.open[f] !in p.closures)
    && (forall f, g :: 0 <= f < g < |p.open| ==> p.open[f] < p.open[g])
    && (forall q :: q in p.closures ==> q < p.next)
  }

  /** Everything said so far about closures and references. */
  ghost predicate Kept(fs: Funcs, p: Program, sites: map<nat, Site>, descs: map<nat, seq<Desc>>, uses: seq<Use>) {
    && Numbered(fs, p)
    && sites.Keys == descs.Keys == p.closures.Keys
    && (forall q :: q in p.closures ==> Made(fs, p, sites, descs, q))
    && forall k :: 0 <= k < |uses| ==> Right(fs, p, uses[k])
  }

  /** The upvalues of every function go on meaning what they meant, and there may be more of them. */
  ghost predicate MoreHeld(fs: Funcs, p: Program, fs': Funcs, p': Program) {
    forall q: nat, ups {:trigger Holding(fs, p, q, ups)} :: Holding(fs, p, q, ups) ==>
      exists ups' :: Holding(fs', p', q, ups') && ups <= ups'
  }

  /** The compiler's state for this much of the text. */
  ghost predicate Represents(sc: Scope, fs: Funcs, declared: nat, p: Program) {
    && |sc.vars| == |sc.blocks| == |fs| && sc.declared == declared && sc.open == p.open && sc.next == p.next
    && forall f :: 0 <= f < |fs| ==> sc.vars[f] == fs[f].actvar && sc.blocks[f] == Starts(fs[f].blocks)
  }

  class LexState {
    var funcs: Funcs
    var declared: nat                   // how many variables have been declared
    ghost var captured: seq<set<nat>>   // in each function, the registers of captured variables

    constructor ()
      ensures Valid() && funcs == [Func([], [], [])] && declared == 0
    {
      funcs, declared, captured := [Func([], [], [])], 0, [{}];
    }

    ghost predicate Valid()
      reads this
    {
      && |captured| == |funcs| > 0 && Resolved(funcs) && AllWillClose(funcs, captured) && Noted(funcs, captured)
      && |funcs[0].upvalues| == 0
      && (forall f :: 0 <= f < |funcs| ==> Nested(funcs[f]))
      && (forall f :: 0 <= f < |funcs| ==> |funcs[f].actvar| <= MAXVARS && |funcs[f].upvalues| <= MAXUPVALUES)
    }

    /** Some function has as many variables (LUAI_MAXVARS), or upvalues (LUAI_MAXUPVALUES), as it may have. */
    ghost predicate Limit()
      reads this
    {
      exists f :: 0 <= f < |funcs| && (|funcs[f].actvar| == 200 || |funcs[f].upvalues| == 60)
    }

    /** searchvar. */
    method SearchVar(f: nat, n: Name) returns (i: int)
      requires f < |funcs|
      ensures i == Last(funcs[f].actvar, n)
    {
      i := |funcs[f].actvar| - 1;
      assert funcs[f].actvar[..i + 1] == funcs[f].actvar;
      while i >= 0
        invariant -1 <= i < |funcs[f].actvar| && Last(funcs[f].actvar[..i + 1], n) == Last(funcs[f].actvar, n)
      {
        assert funcs[f].actvar[..i + 1][..i] == funcs[f].actvar[..i];
        if funcs[f].actvar[i].name == n {
          return;
        }
        i := i - 1;
      }
    }

    /** indexupvalue: the upvalue with this descriptor, an old one or a new one. */
    method IndexUpvalue(f: nat, d: Desc) returns (r: Result<nat>)
      requires f < |funcs|
      modifies `funcs
      ensures |funcs| == |old(funcs)| && forall g :: 0 <= g < |funcs| && g != f ==> funcs[g] == old(funcs[g])
      ensures r.Ok? ==> r.value < |funcs[f].upvalues| && funcs[f].upvalues[r.value] == d
                        && (funcs == old(funcs)
                            || (funcs[f] == old(funcs[f]).(upvalues := old(funcs[f].upvalues) + [d])
                                && r.value == |old(funcs[f].upvalues)|))
      ensures r.Ok? && funcs != old(funcs) ==> |funcs[f].upvalues| <= MAXUPVALUES
      ensures r.Err? ==> funcs == old(funcs) && |funcs[f].upvalues| >= MAXUPVALUES && d !in funcs[f].upvalues
    {
      var i := 0;
      while i < |funcs[f].upvalues|
        invariant i <= |funcs[f].upvalues| && d !in funcs[f].upvalues[..i]
      {
        if funcs[f].upvalues[i] == d {
          return Ok(i);
        }
        i := i + 1;
      }
      if |funcs[f].upvalues| + 1 > MAXUPVALUES {
        return Err;
      }
      funcs := funcs[f := funcs[f].(upvalues := funcs[f].upvalues + [d])];
      return Ok(|funcs[f].upvalues| - 1);
    }

    /** markupval: the block of the variable will need an OP_CLOSE. */
    method MarkUpval(f: nat, r: nat)
      requires f < |funcs| == |captured| && r < |funcs[f].actvar|
      modifies `funcs, `captured
      ensures Extends(old(funcs), funcs) && |captured| == |old(captured)|
      ensures forall g :: 0 <= g < |funcs| && g != f ==> funcs[g] == old(funcs[g]) && captured[g] == old(captured[g])
      ensures funcs[f].upvalues == old(funcs[f].upvalues)
      ensures captured[f] == old(captured[f]) + {r}
      ensures old(WillClose(funcs[f], captured[f])) ==> WillClose(funcs[f], captured[f])
      ensures old(Nested(funcs[f])) ==> Nested(funcs[f])
    {
      hide WillClose;
      ghost var blocks := funcs[f].blocks;
      var b := |funcs[f].blocks| - 1;
      assert blocks[..b + 1] == blocks;
      while b >= 0 && funcs[f].blocks[b].nactvar > r
        invariant funcs == old(funcs) && -1 <= b < |blocks| && BlockOf(blocks[..b + 1], r) == BlockOf(blocks, r)
      {
        assert blocks[..b + 1][..b] == blocks[..b];
        b := b - 1;
      }
      assert b == BlockOf(blocks, r);
      MarkCloses(funcs[f], captured[f], r);
      if b >= 0 {
        funcs := funcs[f := funcs[f].(blocks := funcs[f].blocks[b := funcs[f].blocks[b].(upval := true)])];
      }
      captured := captured[f := captured[f] + {r}];
    }

    /**
     * singlevaraux: what the name means in the f-th function.  It is the innermost visible declaration, reached through
     * upvalues of the functions in between, or a global variable exactly if there is none.
     */
    method SingleVarAux(f: int, n: Name, base: bool) returns (r: Result<Kind>)
      requires Valid() && -1 <= f < |funcs|
      modifies `funcs, `captured
      ensures r.Ok? ==> Valid() && Extends(old(funcs), funcs) && NotesMore(old(captured), captured)
      ensures r.Ok? ==> (r.value.VGLOBAL? <==> Visible(old(funcs), f, n).None?)
      ensures r.Ok? && !r.value.VGLOBAL? ==> f >= 0 && Meaning(funcs, f, r.value) == Visible(old(funcs), f, n)
      ensures r.Ok? && r.value.VLOCAL? && !base ==> r.value.reg in captured[f]
      ensures r.Ok? ==> captured == old(Noting(funcs, captured, f, n, base))
      ensures r.Err? ==> Limit()
      decreases f + 1
    {
      hide Visible, Denotes, AllWillClose, Noted, Resolved, Last;
      VisibleIs(funcs, f, n);
      if f < 0 {
        return Ok(VGLOBAL);
      }
      var v := SearchVar(f, n);
      if v >= 0 {
        if !base {
          MarkUpval(f, v);
          MarkKeeps(old(funcs), old(captured), funcs, captured, f, v);
        }
        return Ok(VLOCAL(v));
      }
      var k :- SingleVarAux(f - 1, n, false);
      if k.VGLOBAL? {
        return Ok(VGLOBAL);
      }
      ghost var mid := funcs;
      var u :- AddUpvalue(f, k);
      ExtendsThen(old(funcs), mid, funcs);
      return Ok(VUPVAL(u));
    }

    /** The variable of the enclosing function becomes an upvalue of the f-th. */
    method AddUpvalue(f: nat, k: Kind) returns (r: Result<nat>)
      requires Valid() && 1 <= f < |funcs| && !k.VGLOBAL? && Meaning(funcs, f - 1, k).Some?
      requires (k.VLOCAL? ==> k.reg in captured[f - 1])
      modifies `funcs
      ensures r.Ok? ==> Valid() && Extends(old(funcs), funcs)
      ensures r.Ok? ==> Meaning(funcs, f, VUPVAL(r.value)) == Meaning(old(funcs), f - 1, k)
      ensures r.Err? ==> Limit()
    {
      hide Visible, Denotes, AllWillClose, Noted, Resolved, Last;
      var d := if k.VLOCAL? then InRegister(k.reg) else InUpvalue(k.index);
      MeaningIs(funcs, f - 1, k, d);
      var u :- IndexUpvalue(f, d);
      IndexKeeps(old(funcs), funcs, captured, f, d);
      UpvalueMeans(old(funcs), funcs, f, u, d);
      return Ok(u);
    }

    /** singlevar: a reference in the innermost function. */
    method SingleVar(n: Name) returns (r: Result<Kind>)
      requires Valid()
      modifies `funcs, `captured
      ensures r.Ok? ==>
                Valid() && Extends(old(funcs), funcs)
                    && (r.value.VGLOBAL? <==> Visible(old(funcs), |funcs| - 1, n).None?)
      ensures r.Ok? ==> Meaning(funcs, |funcs| - 1, r.value) == Visible(old(funcs), |funcs| - 1, n)
      ensures r.Ok? ==> captured == old(Noting(funcs, captured, |funcs| - 1, n, true))
      ensures r.Err? ==> Limit()
    {
      r := SingleVarAux(|funcs| - 1, n, true);
    }

    /** new_localvar and adjustlocalvars for one variable. */
    method Declare(n: Name) returns (r: Result<()>)
      requires Valid()
      modifies `funcs, `declared
      ensures r.Ok? ==> Valid() && Visible(funcs, |funcs| - 1, n) == Some(old(declared))
      ensures r.Ok? ==>
                var top := |funcs| - 1;
                var f := old(funcs)[top];
                funcs == old(funcs)[top := f.(actvar := f.actvar + [Var(n, old(declared))])]
      ensures r.Ok? ==> declared == old(declared) + 1
      ensures r.Err? ==> Limit()
    {
      hide Denotes, AllWillClose, Noted;
      var f := |funcs| - 1;
      if |funcs[f].actvar| + 1 > MAXVARS {
        return Err;
      }
      funcs := funcs[f := funcs[f].(actvar := funcs[f].actvar + [Var(n, declared)])];
      declared := declared + 1;
      TopChanged(old(funcs), captured, funcs, captured);
      return Ok(());
    }

    /** enterblock. */
    method EnterBlock()
      requires Valid()
      modifies `funcs
      ensures Valid() && |funcs| == |old(funcs)|
      ensures var top := |funcs| - 1;
              var f := old(funcs)[top];
              funcs == old(funcs)[top := f.(blocks := f.blocks + [Block(|f.actvar|, false)])]
    {
      hide Denotes, AllWillClose, Noted;
      var f := |funcs| - 1;
      ghost var blocks := funcs[f].blocks;
      funcs := funcs[f := funcs[f].(blocks := funcs[f].blocks + [Block(|funcs[f].actvar|, false)])];
      assert funcs[f].blocks[..|blocks|] == blocks;
      NewBlock(old(funcs)[f], funcs[f], captured[f]);
      TopChanged(old(funcs), captured, funcs, captured);
    }

    /** leaveblock: tells whether it emits OP_CLOSE, which is if a function captured one of the block's variables. */
    method LeaveBlock() returns (close: bool)
      requires Valid() && |funcs[|funcs| - 1].blocks| > 0
      modifies `funcs, `captured
      ensures Valid() && |funcs| == |old(funcs)|
      ensures var f := |funcs| - 1; var was := old(funcs[|funcs| - 1]);
              && was.blocks[|was.blocks| - 1].nactvar <= |was.actvar|
              && funcs == old(funcs)[f := Func(was.actvar[..was.blocks[|was.blocks| - 1].nactvar], was.upvalues,
                                               was.blocks[..|was.blocks| - 1])]
              && (close <==> AnyFrom(old(captured[|funcs| - 1]), was.blocks[|was.blocks| - 1].nactvar))
              && captured == old(captured)[f := Below(old(captured)[f], was.blocks[|was.blocks| - 1].nactvar)]
    {
      hide Denotes, AllWillClose, Noted, Nested, WillClose;
      var f := |funcs| - 1;
      var bl := funcs[f].blocks[|funcs[f].blocks| - 1];
      LastBlock(funcs[f], captured[f]);
      assert WillClose(funcs[f], captured[f]) by { ClosesAt(funcs, captured, f); }
      ghost var c' := captured[f := Below(captured[f], bl.nactvar)];
      funcs := funcs[f := Func(funcs[f].actvar[..bl.nactvar], funcs[f].upvalues,
                               funcs[f].blocks[..|funcs[f].blocks| - 1])];
      TopChanged(old(funcs), captured, funcs, c');
      captured := c';
      return bl.upval;
    }

    /** open_func. */
    method OpenFunc()
      requires Valid()
      modifies `funcs, `captured
      ensures Valid() && funcs == old(funcs) + [Func([], [], [])] && captured == old(captured) + [{}]
    {
      hide Denotes, WillClose;
      funcs := funcs + [Func([], [], [])];
      captured := captured + [{}];
      EmptyCloses();
      forall f, u | 0 <= f < |funcs| && 0 <= u < |funcs[f].upvalues|
        ensures Denotes(funcs, f - 1, funcs[f].upvalues[u]).Some? {
        assert funcs[f].upvalues[u] == old(funcs)[f].upvalues[u];
        DenotesBelow(old(funcs), funcs, f - 1, funcs[f].upvalues[u]);
      }
    }

    /**
     * close_func and pushclosure: the descriptors that follow OP_CLOSURE.  The closure they make holds, as each of its
     * upvalues, the variable that this upvalue meant while the function was compiled.
     */
    method CloseFunc() returns (descs: seq<Desc>)
      requires Valid() && |funcs| > 1
      modifies `funcs, `captured
      ensures captured == old(captured)[..|old(funcs)| - 1]
      ensures Valid() && funcs == old(funcs)[..|old(funcs)| - 1] && Inside(descs, |funcs[|funcs| - 1].upvalues|)
      ensures MakeClosure(descs, RegisterIds(funcs, |funcs| - 1), UpvalueIds(funcs, |funcs| - 1)) ==
          old(UpvalueIds(funcs, |funcs| - 1))
    {
      hide Denotes, WillClose, MakeClosure, UpvalueIds;
      var f := |funcs| - 1;
      descs := funcs[f].upvalues;
      ClosureBinds(funcs, f);
      ResolvedInside(funcs, f);
      funcs := funcs[..f];
      captured := captured[..f];
      forall g, u | 0 <= g < |funcs| && 0 <= u < |funcs[g].upvalues|
        ensures Denotes(funcs, g - 1, funcs[g].upvalues[u]).Some? {
        assert funcs[g].upvalues[u] == old(funcs)[g].upvalues[u];
        DenotesBelow(old(funcs), funcs, g - 1, funcs[g].upvalues[u]);
      }
      SameIds(old(funcs), funcs, f - 1);
    }

    /** The text read so far and the state of the compiler. */
    ghost predicate Following(sc: Scope, p: Program, descs: map<nat, seq<Desc>>, uses: seq<Use>)
      reads this
    {
      && Valid() && Regular(sc) && Represents(sc, funcs, declared, p) && Kept(funcs, p, sc.sites, descs, uses)
      && CapturedIs(funcs, captured, sc.captured) && Ordered(sc)
    }

    lemma Beginning(p: Program)
      requires Valid() && funcs == [Func([], [], [])] && declared == 0 && p == Program([0], 1, map[])
      ensures Following(START, p, map[], []) && AllRecorded([], [], [])
    {
      assert WillClose(funcs[0], captured[0]) && captured[0] == {};
      FirstFunction(funcs, p);
    }

    /** At the end of the text every operand leads to the variable meant. */
    lemma RecordedLeads(sc: Scope, p: Program, descs: map<nat, seq<Desc>>, uses: seq<Use>, kinds: seq<Kind>,
                        refs: seq<Reference>)
      requires Following(sc, p, descs, uses) && AllRecorded(kinds, refs, uses)
      ensures |kinds| == |refs|
      ensures |sc.open| == 1 ==>
                forall k :: 0 <= k < |kinds| ==> LeadsTo(kinds[k], refs[k], Bound(sc.sites, descs, refs[k].func))
    {
      hide Kept, Represents, LeadsTo, Recorded, Resolved, AllWillClose, Noted, Nested;
      if |sc.open| == 1 {
        forall k | 0 <= k < |kinds| ensures LeadsTo(kinds[k], refs[k], Bound(sc.sites, descs, refs[k].func)) {
          Arrives(sc, funcs, declared, p, descs, uses, kinds[k], refs[k]);
        }
      }
    }

    lemma FollowingOpen(sc: Scope, p: Program, descs: map<nat, seq<Desc>>, uses: seq<Use>)
      requires Following(sc, p, descs, uses)
      ensures |funcs| == |sc.vars| == |p.open| && sc.open == p.open && sc.next == p.next
      ensures |funcs| == 1 ==> After(sc, EndFunction) == sc
    {
    }

    /** The events inside a function: local variables and blocks. */
    method CompileLocal(e: Event, ghost sc: Scope, ghost p: Program, ghost descs: map<nat, seq<Desc>>,
                        ghost uses: seq<Use>)
      returns (r: Result<()>, closed: seq<bool>)
      requires Following(sc, p, descs, uses) && (e.DeclareVar? || e.BeginBlock? || e.EndBlock?)
      modifies `funcs, `captured, `declared
      ensures r.Ok? ==> |funcs| == |old(funcs)| && Following(After(sc, e), p, descs, uses)
      ensures r.Ok? ==> closed == ClosingAt(sc, e)
      ensures r.Err? ==> Limit()
    {
      hide Denotes, Resolved, AllWillClose, Noted, Nested, UpvalueIds, Visible, Kept, After, CapturedIs, Ordered,
           EndsCaptured;
      ghost var fs, c := funcs, captured;
      closed := [];
      OrderedAfter(sc, e);
      match e {
        case DeclareVar(n) =>
          var _ :- Declare(n);
          DeclareStep(sc, fs, funcs, declared - 1, n, p);
          DeclareCaptured(sc, fs, funcs, c, declared - 1, n, p);
          TopKeeps(fs, funcs, p, sc.sites, descs, uses);
        case BeginBlock =>
          EnterBlock();
          BeginStep(sc, fs, funcs, declared, p);
          SameCaptured(fs, funcs, c, sc.captured);
          assert After(sc, e).captured == sc.captured by {
            AfterCaptured(sc, e);
          }
          TopKeeps(fs, funcs, p, sc.sites, descs, uses);
        case EndBlock =>
          EndStep(sc, fs, declared, p);
          if |funcs[|funcs| - 1].blocks| > 0 {
            var close := LeaveBlock();
            closed := [close];
            LeaveStep(sc, fs, funcs, declared, p);
            LeaveCaptured(sc, fs, funcs, c, captured, declared, p);
            TopKeeps(fs, funcs, p, sc.sites, descs, uses);
          }
      }
      return Ok(()), closed;
    }

    /** The beginning of a function. */
    method CompileBegin(ghost sc: Scope, ghost p: Program, ghost descs: map<nat, seq<Desc>>, ghost uses: seq<Use>)
      returns (ghost p': Program)
      requires Following(sc, p, descs, uses)
      modifies `funcs, `captured
      ensures |funcs| == |old(funcs)| + 1 && p' == Program(p.open + [p.next], p.next + 1, p.closures)
      ensures Following(After(sc, BeginFunction), p', descs, uses)
    {
      hide Denotes, Resolved, AllWillClose, Noted, Nested, UpvalueIds, Kept, After, Ordered;
      ghost var fs := funcs;
      OpenFunc();
      OrderedAfter(sc, BeginFunction);
      AfterCaptured(sc, BeginFunction);
      p' := Program(p.open + [p.next], p.next + 1, p.closures);
      OpenStep(sc, fs, funcs, declared, p, p');
      OpenKeeps(fs, funcs, p, p', sc.sites, descs, uses);
    }

    /** The end of a function: OP_CLOSURE and its descriptors. */
    method CompileEnd(ghost sc: Scope, ghost p: Program, descs: map<nat, seq<Desc>>, ghost uses: seq<Use>)
      returns (d: seq<Desc>, ghost p': Program)
      requires Following(sc, p, descs, uses) && |funcs| > 1
      modifies `funcs, `captured
      ensures |funcs| == |old(funcs)| - 1 && p'.open == p.open[..|p.open| - 1] && p'.next == p.next
      ensures |p.open| == |old(funcs)|
      ensures Following(After(sc, EndFunction), p', descs[p.open[|p.open| - 1] := d], uses)
    {
      hide Denotes, Resolved, AllWillClose, Noted, Nested, MakeClosure, UpvalueIds, Kept, Extends, After, Ordered;
      ghost var fs := funcs;
      d := CloseFunc();
      OrderedAfter(sc, EndFunction);
      AfterCaptured(sc, EndFunction);
      p' := Program(p.open[..|fs| - 1], p.next, p.closures[p.open[|fs| - 1] := UpvalueIds(fs, |fs| - 1)]);
      ClosedStep(sc, fs, funcs, declared, p, p');
      CloseKeeps(fs, funcs, p, p', sc.sites, descs, d, uses);
    }

    /** A reference, and its operand. */
    method CompileReference(n: Name, ghost sc: Scope, ghost p: Program, ghost descs: map<nat, seq<Desc>>,
                            ghost uses: seq<Use>,
                            ghost kinds: seq<Kind>, ghost refs: seq<Reference>)
      returns (r: Result<Kind>, ghost uses': seq<Use>)
      requires Following(sc, p, descs, uses) && AllRecorded(kinds, refs, uses)
      modifies `funcs, `captured
      ensures var top := |sc.vars| - 1;
              var ref := Reference(sc.open[top], sc.vars[top], Innermost(sc.vars, top, n));
              r.Ok? ==> |funcs| == |old(funcs)| && Following(After(sc, Refer(n)), p, descs, uses')
                        && AllRecorded(kinds + [r.value], refs + [ref], uses')
      ensures r.Err? ==> Limit()
    {
      hide Denotes, Resolved, AllWillClose, Noted, Nested, UpvalueIds, Visible, Kept, Extends, Innermost, Meaning,
        CapturedIs, Ordered, Noting, After;
      ghost var fs, c, top := funcs, captured, |funcs| - 1;
      OrderedAfter(sc, Refer(n));
      ghost var ref := Reference(sc.open[top], sc.vars[top], Innermost(sc.vars, top, n));
      uses' := uses;
      var k :- SingleVar(n);
      ReferStep(sc, fs, funcs, declared, n, p, k);
      ReferCaptured(sc, fs, funcs, c, captured, declared, n, p);
      ExtendKeeps(fs, funcs, p, sc.sites, descs, uses);
      if k.VUPVAL? {
        ghost var use := Use(ref.func, k.index, ref.id.value);
        NewUse(funcs, p, sc.sites, descs, uses, k, use);
        RecordMore(kinds, refs, uses, use);
        uses' := uses + [use];
      }
      return Ok(k), uses';
    }

    /**
     * Any program: the operand chosen for every reference leads, at run time, to the innermost declaration visible
     * where
     * the reference stands, through the closures that OP_CLOSURE makes from the emitted descriptors; it is a global
     * variable exactly if there is no such declaration.  OP_CLOSE ends exactly those blocks that declare a variable to
     * which the text refers from inside a nested function.
     */
    method Compile(events: seq<Event>)
      returns (r: Result<()>, kinds: seq<Kind>, descs: map<nat, seq<Desc>>, closes: seq<bool>)
      requires Valid() && funcs == [Func([], [], [])] && declared == 0
      modifies this
      ensures r.Ok? ==> |kinds| == |References(START, events)|
      ensures r.Ok? && |AfterAll(START, events).open| == 1 ==>
                forall k :: 0 <= k < |kinds| ==>
                  var ref := References(START, events)[k];
                  LeadsTo(kinds[k], ref, Bound(AfterAll(START, events).sites, descs, ref.func))
      ensures r.Ok? ==> closes == Closings(START, events)
      ensures r.Err? ==> Limit()
    {
      hide Following, Valid, AllRecorded, After, Innermost, Bound, LeadsTo, Limit, ClosingAt;
      kinds, descs, closes := [], map[], [];
      ghost var sc, p, uses := START, Program([0], 1, map[]), [];
      ghost var refs: seq<Reference> := [];
      assert Following(sc, p, descs, uses) && AllRecorded(kinds, refs, uses) by {
        Beginning(p);
      }
      var i, number, next: nat := 0, [0], 1;                 // the numbers of the open functions
      assert events[0..] == events && refs + References(START, events) == References(START, events);
      while i < |events|
        invariant 0 <= i <= |events| && Regular(sc) && Following(sc, p, descs, uses)
        invariant number == p.open && next == p.next && |number| == |funcs| > 0
        invariant AfterAll(sc, events[i..]) == AfterAll(START, events)
        invariant refs + References(sc, events[i..]) == References(START, events)
        invariant closes + Closings(sc, events[i..]) == Closings(START, events)
        invariant AllRecorded(kinds, refs, uses)
      {
        ghost var fs, q, was := funcs, p, sc;
        assert events[i..][0] == events[i] && events[i..][1..] == events[i + 1..];
        var top := |funcs| - 1;
        sc := After(was, events[i]);
        FollowingOpen(was, p, descs, uses);
        NextClosing(was, events[i], events[i..], events[i + 1..]);
        MoreClosings(closes, ClosingAt(was, events[i]), Closings(sc, events[i + 1..]));
        match events[i] {
          case BeginFunction =>
            p := CompileBegin(was, p, descs, uses);
            number, next := number + [next], next + 1;
          case EndFunction =>
            if top > 0 {
              var d;
              d, p := CompileEnd(was, p, descs, uses);
              descs := descs[number[top] := d];
              number := number[..top];
            }
          case Refer(n) =>
            ghost var ref := Reference(number[top], was.vars[top], Innermost(was.vars, top, n));
            MoreRefs(refs, ref, References(sc, events[i + 1..]));
            var k;
            k, uses :- CompileReference(n, was, p, descs, uses, kinds, refs);
            kinds, refs := kinds + [k], refs + [ref];
          case _ =>
            var _, closed :- CompileLocal(events[i], was, p, descs, uses);
            closes := closes + closed;
        }
        i := i + 1;
      }
      assert events[i..] == [];
      assert closes + [] == closes;
      assert refs + [] == refs;
      RecordedLeads(sc, p, descs, uses, kinds, refs);
      return Ok(()), kinds, descs, closes;
    }
  }

  lemma {:induction false} SameBlocks(a: seq<Block>, b: seq<Block>, r: nat)
    requires |a| == |b| && forall i :: 0 <= i < |a| ==> a[i].nactvar == b[i].nactvar
    ensures BlockOf(a, r) == BlockOf(b, r)
  {
    if |a| > 0 {
      SameBlocks(a[..|a| - 1], b[..|b| - 1], r);
    }
  }

  ghost predicate NotesMore(a: seq<set<nat>>, b: seq<set<nat>>) {
    |b| == |a| && forall f :: 0 <= f < |a| ==> a[f] <= b[f]
  }

  lemma VisibleIs(fs: Funcs, f: int, n: Name)
    requires f < |fs|
    ensures f < 0 ==> Visible(fs, f, n) == None
    ensures f >= 0 ==>
              Visible(fs, f, n) ==
                  (var i := Last(fs[f].actvar, n); if i >= 0 then Some(fs[f].actvar[i].id) else Visible(fs, f - 1, n))
  {
  }

  lemma MeaningIs(fs: Funcs, f: nat, k: Kind, d: Desc)
    requires f < |fs| && !k.VGLOBAL? && d == if k.VLOCAL? then InRegister(k.reg) else InUpvalue(k.index)
    ensures Denotes(fs, f, d) == Meaning(fs, f, k)
  {
  }

  /** Marking a variable as captured keeps what the functions mean. */
  lemma MarkKeeps(fs: Funcs, c: seq<set<nat>>, fs': Funcs, c': seq<set<nat>>, f: nat, r: nat)
    requires Resolved(fs) && AllWillClose(fs, c) && Noted(fs, c) && Extends(fs, fs') && f < |fs| && |c'| == |c|
    requires forall g :: 0 <= g < |fs| && g != f ==> fs'[g] == fs[g] && c'[g] == c[g]
    requires fs'[f].upvalues == fs[f].upvalues && c'[f] == c[f] + {r}
    requires (WillClose(fs[f], c[f]) ==> WillClose(fs'[f], c'[f]))
    ensures Resolved(fs') && AllWillClose(fs', c') && Noted(fs', c') && NotesMore(c, c')
  {
    hide WillClose, Denotes;
    forall g, u | 0 <= g < |fs'| && 0 <= u < |fs'[g].upvalues| ensures Denotes(fs', g - 1, fs'[g].upvalues[u]).Some? {
      assert fs'[g].upvalues[u] == fs[g].upvalues[u];
      DenotesExtends(fs, fs', g - 1, fs[g].upvalues[u]);
    }
    forall g, u | 1 <= g < |fs'| && 0 <= u < |fs'[g].upvalues|
      ensures fs'[g].upvalues[u].InUpvalue? || fs'[g].upvalues[u].info in c'[g - 1] {
      assert fs'[g].upvalues[u] == fs[g].upvalues[u];
    }
  }

  /** A new upvalue keeps what the functions mean. */
  lemma IndexKeeps(fs: Funcs, fs': Funcs, c: seq<set<nat>>, f: nat, d: Desc)
    requires Resolved(fs) && AllWillClose(fs, c) && Noted(fs, c) && 1 <= f < |fs| == |fs'|
    requires forall g :: 0 <= g < |fs| && g != f ==> fs'[g] == fs[g]
    requires fs' == fs || fs'[f] == fs[f].(upvalues := fs[f].upvalues + [d])
    requires Denotes(fs, f - 1, d).Some? && (d.InRegister? ==> d.info in c[f - 1])
    ensures Extends(fs, fs') && Resolved(fs') && AllWillClose(fs', c) && Noted(fs', c)
  {
    hide WillClose, Denotes;
    forall g, u | 0 <= g < |fs'| && 0 <= u < |fs'[g].upvalues| ensures Denotes(fs', g - 1, fs'[g].upvalues[u]).Some? {
      var known := u < |fs[g].upvalues|;
      assert fs'[g].upvalues[u] == if known then fs[g].upvalues[u] else d;
      DenotesExtends(fs, fs', g - 1, fs'[g].upvalues[u]);
    }
    assert forall g :: 0 <= g < |fs| && WillClose(fs[g], c[g]) ==> WillClose(fs'[g], c[g]) by {
      SameClosing(fs, fs', c);
    }
  }

  lemma SameClosing(fs: Funcs, fs': Funcs, c: seq<set<nat>>)
    requires |fs| == |fs'| == |c| && forall g :: 0 <= g < |fs| ==>
               fs'[g].actvar == fs[g].actvar && fs'[g].blocks == fs[g].blocks
    ensures forall g :: 0 <= g < |fs| && WillClose(fs[g], c[g]) ==> WillClose(fs'[g], c[g])
  {
  }

  lemma UpvalueMeans(fs: Funcs, fs': Funcs, f: nat, u: nat, d: Desc)
    requires 1 <= f < |fs| && Extends(fs, fs') && u < |fs'[f].upvalues| && fs'[f].upvalues[u] == d
    requires Denotes(fs, f - 1, d).Some?
    ensures Meaning(fs', f, VUPVAL(u)) == Denotes(fs, f - 1, d)
  {
    DenotesExtends(fs, fs', f - 1, d);
  }

  /** A descriptor looks only at the functions outside. */
  lemma {:induction false} DenotesBelow(fs: Funcs, fs': Funcs, f: int, d: Desc)
    requires f < |fs| && f < |fs'| && forall g :: 0 <= g <= f ==> fs'[g] == fs[g]
    ensures Denotes(fs', f, d) == Denotes(fs, f, d)
    decreases f + 1
  {
    if f >= 0 && d.InUpvalue? && d.info < |fs[f].upvalues| {
      DenotesBelow(fs, fs', f - 1, fs[f].upvalues[d.info]);
    }
  }

  lemma SameIds(fs: Funcs, fs': Funcs, f: nat)
    requires f < |fs| && f < |fs'| && forall g :: 0 <= g <= f ==> fs'[g] == fs[g]
    ensures RegisterIds(fs', f) == RegisterIds(fs, f) && UpvalueIds(fs', f) == UpvalueIds(fs, f)
  {
    forall u | 0 <= u < |fs[f].upvalues| ensures UpvalueIds(fs', f)[u] == UpvalueIds(fs, f)[u] {
      DenotesBelow(fs, fs', f - 1, fs[f].upvalues[u]);
    }
  }

  lemma ResolvedInside(fs: Funcs, f: nat)
    requires Resolved(fs) && 1 <= f < |fs|
    ensures Inside(fs[f].upvalues, |fs[f - 1].upvalues|)
  {
    forall i | 0 <= i < |fs[f].upvalues| && fs[f].upvalues[i].InUpvalue?
      ensures fs[f].upvalues[i].info < |fs[f - 1].upvalues| {
      assert Denotes(fs, f - 1, fs[f].upvalues[i]).Some?;
    }
  }

  lemma EmptyCloses()
    ensures WillClose(Func([], [], []), {})
  {
  }

  /** The innermost function changes its variables or blocks, not its upvalues. */
  lemma TopChanged(fs: Funcs, c: seq<set<nat>>, fs': Funcs, c': seq<set<nat>>)
    requires |fs| == |fs'| == |c| == |c'| > 0 && Resolved(fs) && AllWillClose(fs, c) && Noted(fs, c)
    requires forall g :: 0 <= g < |fs| - 1 ==> fs'[g] == fs[g] && c'[g] == c[g]
    requires var t := |fs| - 1;
             fs'[t].upvalues == fs[t].upvalues && (WillClose(fs[t], c[t]) ==> WillClose(fs'[t], c'[t]))
    ensures Resolved(fs') && AllWillClose(fs', c') && Noted(fs', c')
  {
    hide Denotes, WillClose;
    forall g, u | 0 <= g < |fs'| && 0 <= u < |fs'[g].upvalues| ensures Denotes(fs', g - 1, fs'[g].upvalues[u]).Some? {
      assert fs'[g].upvalues[u] == fs[g].upvalues[u];
      DenotesBelow(fs, fs', g - 1, fs[g].upvalues[u]);
    }
    forall g, u | 1 <= g < |fs'| && 0 <= u < |fs'[g].upvalues|
      ensures fs'[g].upvalues[u].InUpvalue? || fs'[g].upvalues[u].info in c'[g - 1] {
      assert fs'[g].upvalues[u] == fs[g].upvalues[u];
    }
    assert WillClose(fs[|fs| - 1], c[|fs| - 1]);
  }

  lemma NewBlock(f: Func, f': Func, c: set<nat>)
    requires f'.actvar == f.actvar && f'.blocks == f.blocks + [Block(|f.actvar|, false)]
    ensures WillClose(f, c) ==> WillClose(f', c)
  {
    if WillClose(f, c) {
      assert f'.blocks[..|f.blocks|] == f.blocks;
      forall r | r in c ensures BlockOf(f'.blocks, r) == BlockOf(f.blocks, r) {
      }
    }
  }

  /** The variables that go with the last block are closed by it, the others by the blocks outside. */
  lemma LastBlock(f: Func, c: set<nat>)
    requires Nested(f) && |f.blocks| > 0
    ensures var bl := f.blocks[|f.blocks| - 1];
            && bl.nactvar <= |f.actvar|
            && var f' := Func(f.actvar[..bl.nactvar], f.upvalues, f.blocks[..|f.blocks| - 1]);
               Nested(f') && (WillClose(f, c) ==>
                 WillClose(f', Below(c, bl.nactvar)) && (AnyFrom(c, bl.nactvar) <==> bl.upval))
  {
    var bl := f.blocks[|f.blocks| - 1];
    forall r | r in c ensures BlockOf(f.blocks, r) == if r >= bl.nactvar then |f.blocks| - 1
      else BlockOf(f.blocks[..|f.blocks| - 1], r) {
    }
  }

  lemma ClosesAt(fs: Funcs, c: seq<set<nat>>, f: nat)
    requires AllWillClose(fs, c) && f < |fs|
    ensures WillClose(fs[f], c[f])
  {
  }

  function Marked(f: Func, r: nat): Func {
    var b := BlockOf(f.blocks, r);
    if b >= 0 then f.(blocks := f.blocks[b := f.blocks[b].(upval := true)]) else f
  }

  lemma MarkCloses(f: Func, c: set<nat>, r: nat)
    requires r < |f.actvar|
    ensures WillClose(f, c) ==> WillClose(Marked(f, r), c + {r})
    ensures Nested(f) ==> Nested(Marked(f, r))
  {
    var f' := Marked(f, r);
    forall q: nat ensures BlockOf(f'.blocks, q) == BlockOf(f.blocks, q) {
      SameBlocks(f.blocks, f'.blocks, q);
    }
    if WillClose(f, c) {
      forall b | 0 <= b < |f'.blocks| && f'.blocks[b].upval ensures HasCaptured(f'.blocks, c + {r}, b) {
        if b != BlockOf(f.blocks, r) {
          assert HasCaptured(f.blocks, c, b);
        } else {
          assert BlockOf(f'.blocks, r) == b;
        }
      }
    }
  }

  // ---- Every event keeps what the closures and references mean ----

  lemma MakeClosureMore(d: seq<Desc>, registers: seq<nat>, ups: seq<Option<nat>>, ups': seq<Option<nat>>)
    requires Inside(d, |ups|) && ups <= ups'
    ensures Inside(d, |ups'|) && MakeClosure(d, registers, ups') == MakeClosure(d, registers, ups)
  {
    var c, c' := MakeClosure(d, registers, ups), MakeClosure(d, registers, ups');
    forall i | 0 <= i < |c| ensures c'[i] == c[i] {
      assert d[i].InUpvalue? ==> ups'[d[i].info] == ups[d[i].info];
    }
  }

  lemma MadeMore(fs: Funcs, p: Program, fs': Funcs, p': Program, sites: map<nat, Site>, descs: map<nat, seq<Desc>>,
                 q: nat)
    requires Made(fs, p, sites, descs, q) && MoreHeld(fs, p, fs', p') && q in p'.closures
    requires p'.closures[q] == p.closures[q]
    ensures Made(fs', p', sites, descs, q)
  {
    hide Holding, MakeClosure, Inside;
    var ups :| MadeIn(fs, p, sites[q], descs[q], p.closures[q], ups);
    var ups' :| Holding(fs', p', sites[q].parent, ups') && ups <= ups';
    MakeClosureMore(descs[q], Ids(sites[q].vars), ups, ups');
    assert MadeIn(fs', p', sites[q], descs[q], p'.closures[q], ups');
  }

  lemma RightMore(fs: Funcs, p: Program, fs': Funcs, p': Program, use: Use)
    requires Right(fs, p, use) && MoreHeld(fs, p, fs', p')
    ensures Right(fs', p', use)
  {
    hide Holding;
    var ups :| Holding(fs, p, use.func, ups) && use.index < |ups| && ups[use.index] == Some(use.id);
    var ups' :| Holding(fs', p', use.func, ups') && ups <= ups';
    assert ups'[use.index] == ups[use.index];
  }

  /** No function is completed. */
  lemma StillKept(fs: Funcs, p: Program, fs': Funcs, p': Program, sites: map<nat, Site>, descs: map<nat, seq<Desc>>,
                  uses: seq<Use>)
    requires Kept(fs, p, sites, descs, uses) && MoreHeld(fs, p, fs', p') && Numbered(fs', p')
    requires p'.closures == p.closures
    ensures Kept(fs', p', sites, descs, uses)
  {
    hide Made, Right, MoreHeld, Numbered;
    forall q | q in p'.closures ensures Made(fs', p', sites, descs, q) {
      MadeMore(fs, p, fs', p', sites, descs, q);
    }
    forall k | 0 <= k < |uses| ensures Right(fs', p', uses[k]) {
      RightMore(fs, p, fs', p', uses[k]);
    }
  }

  lemma TopKeeps(fs: Funcs, fs': Funcs, p: Program, sites: map<nat, Site>, descs: map<nat, seq<Desc>>, uses: seq<Use>)
    requires Kept(fs, p, sites, descs, uses) && |fs'| == |fs| > 0
    requires fs' == fs[|fs| - 1 := fs'[|fs| - 1]] && fs'[|fs| - 1].upvalues == fs[|fs| - 1].upvalues
    ensures Kept(fs', p, sites, descs, uses)
  {
    forall q: nat, ups | Holding(fs, p, q, ups) ensures exists ups' :: Holding(fs', p, q, ups') && ups <= ups' {
      if q !in p.closures {
        var f :| 0 <= f < |fs| && p.open[f] == q && ups == UpvalueIds(fs, f);
        forall u | 0 <= u < |ups| ensures UpvalueIds(fs', f)[u] == ups[u] {
          DenotesBelow(fs, fs', f - 1, fs[f].upvalues[u]);
        }
        assert UpvalueIds(fs', f) == ups;
      }
      assert Holding(fs', p, q, ups);
    }
    StillKept(fs, p, fs', p, sites, descs, uses);
  }

  lemma ExtendKeeps(fs: Funcs, fs': Funcs, p: Program, sites: map<nat, Site>, descs: map<nat, seq<Desc>>,
                    uses: seq<Use>)
    requires Kept(fs, p, sites, descs, uses) && Extends(fs, fs') && Resolved(fs)
    ensures Kept(fs', p, sites, descs, uses)
  {
    forall q: nat, ups | Holding(fs, p, q, ups) ensures exists ups' :: Holding(fs', p, q, ups') && ups <= ups' {
      if q !in p.closures {
        var f :| 0 <= f < |fs| && p.open[f] == q && ups == UpvalueIds(fs, f);
        var ups' := UpvalueIds(fs', f);
        forall u | 0 <= u < |ups| ensures ups'[u] == ups[u] {
          assert fs'[f].upvalues[u] == fs[f].upvalues[u];
          DenotesExtends(fs, fs', f - 1, fs[f].upvalues[u]);
        }
        assert Holding(fs', p, q, ups') && ups <= ups';
      } else {
        assert Holding(fs', p, q, ups);
      }
    }
    StillKept(fs, p, fs', p, sites, descs, uses);
  }

  lemma OpenKeeps(fs: Funcs, fs': Funcs, p: Program, p': Program, sites: map<nat, Site>, descs: map<nat, seq<Desc>>,
                  uses: seq<Use>)
    requires fs' == fs + [Func([], [], [])] && p' == Program(p.open + [p.next], p.next + 1, p.closures)
    requires Kept(fs, p, sites, descs, uses)
    ensures Kept(fs', p', sites, descs, uses)
  {
    forall q: nat, ups | Holding(fs, p, q, ups) ensures exists ups' :: Holding(fs', p', q, ups') && ups <= ups' {
      if q !in p.closures {
        var f :| 0 <= f < |fs| && p.open[f] == q && ups == UpvalueIds(fs, f);
        SameIds(fs, fs', f);
        assert p'.open[f] == q;
      }
      assert Holding(fs', p', q, ups);
    }
    StillKept(fs, p, fs', p', sites, descs, uses);
  }

  /** The innermost function is complete: its closure is made in the function around it. */
  lemma CloseKeeps(fs: Funcs, fs': Funcs, p: Program, p': Program, sites: map<nat, Site>, descs: map<nat, seq<Desc>>,
                   d: seq<Desc>,
                   uses: seq<Use>)
    requires |fs| > 1 && fs' == fs[..|fs| - 1] && Kept(fs, p, sites, descs, uses)
    requires p' == Program(p.open[..|fs| - 1], p.next, p.closures[p.open[|fs| - 1] := UpvalueIds(fs, |fs| - 1)])
    requires Inside(d, |fs'[|fs'| - 1].upvalues|)
    requires MakeClosure(d, RegisterIds(fs', |fs'| - 1), UpvalueIds(fs', |fs'| - 1)) == UpvalueIds(fs, |fs| - 1)
    ensures Kept(fs', p', sites[p.open[|fs| - 1] := Site(p.open[|fs| - 2], fs[|fs| - 2].actvar)],
                 descs[p.open[|fs| - 1] := d], uses)
  {
    var top := |fs| - 1;
    var last, site := p.open[top], Site(p.open[top - 1], fs[top - 1].actvar);
    var sites', descs' := sites[last := site], descs[last := d];
    assert Ids(site.vars) == RegisterIds(fs', top - 1);
    ClosedHolds(fs, fs', p, p');
    ClosedNumbered(fs, fs', p, p');
    hide Numbered, MoreHeld, MadeIn, Holding, UpvalueIds, RegisterIds, MakeClosure, Inside, Made, Right, Ids;
    ClosedMade(fs', p', sites', descs', last, top - 1);
    OthersKept(fs, p, fs', p', sites, descs, uses, last, site, d);
  }

  lemma OthersKept(fs: Funcs, p: Program, fs': Funcs, p': Program, sites: map<nat, Site>, descs: map<nat, seq<Desc>>,
                   uses: seq<Use>,
                   last: nat, site: Site, d: seq<Desc>)
    requires Kept(fs, p, sites, descs, uses) && MoreHeld(fs, p, fs', p') && last !in p.closures
    requires forall q :: q in p.closures ==> q in p'.closures && p'.closures[q] == p.closures[q]
    ensures forall q :: q in p.closures ==> Made(fs', p', sites[last := site], descs[last := d], q)
    ensures forall k :: 0 <= k < |uses| ==> Right(fs', p', uses[k])
  {
    hide MoreHeld, Made, Right, Numbered;
    forall q | q in p.closures ensures Made(fs', p', sites[last := site], descs[last := d], q) {
      OthersMade(fs, p, fs', p', sites, descs, sites[last := site], descs[last := d], q);
    }
    forall k | 0 <= k < |uses| ensures Right(fs', p', uses[k]) {
      RightMore(fs, p, fs', p', uses[k]);
    }
  }

  lemma OthersMade(fs: Funcs, p: Program, fs': Funcs, p': Program, sites: map<nat, Site>, descs: map<nat, seq<Desc>>,
                   sites': map<nat, Site>, descs': map<nat, seq<Desc>>, q: nat)
    requires Made(fs, p, sites, descs, q) && MoreHeld(fs, p, fs', p') && q in p'.closures
    requires p'.closures[q] == p.closures[q]
    requires q in sites' && q in descs' && sites'[q] == sites[q] && descs'[q] == descs[q]
    ensures Made(fs', p', sites', descs', q)
  {
    hide Holding, MakeClosure, Inside, MoreHeld, MadeIn;
    MadeMore(fs, p, fs', p', sites, descs, q);
  }

  lemma ClosedNumbered(fs: Funcs, fs': Funcs, p: Program, p': Program)
    requires |fs| > 1 && fs' == fs[..|fs| - 1] && Numbered(fs, p)
    requires p' == Program(p.open[..|fs| - 1], p.next, p.closures[p.open[|fs| - 1] := UpvalueIds(fs, |fs| - 1)])
    ensures Numbered(fs', p')
    ensures p.open[|fs| - 1] !in p.closures && p'.open[|fs| - 2] == p.open[|fs| - 2] < p.open[|fs| - 1]
    ensures p'.open[|fs| - 2] !in p'.closures
  {
  }

  lemma ClosedHolds(fs: Funcs, fs': Funcs, p: Program, p': Program)
    requires |fs| > 1 && fs' == fs[..|fs| - 1] && Numbered(fs, p)
    requires p' == Program(p.open[..|fs| - 1], p.next, p.closures[p.open[|fs| - 1] := UpvalueIds(fs, |fs| - 1)])
    ensures MoreHeld(fs, p, fs', p')
  {
    var top := |fs| - 1;
    forall q: nat, ups | Holding(fs, p, q, ups) ensures exists ups' :: Holding(fs', p', q, ups') && ups <= ups' {
      if q !in p.closures {
        var f :| 0 <= f < |fs| && p.open[f] == q && ups == UpvalueIds(fs, f);
        if f < top {
          SameIds(fs, fs', f);
          assert p'.open[f] == q && q != p.open[top];
        }
      }
      assert Holding(fs', p', q, ups);
    }
  }

  lemma ClosedMade(fs: Funcs, p: Program, sites: map<nat, Site>, descs: map<nat, seq<Desc>>, q: nat, f: nat)
    requires f < |fs| == |p.open| && p.open[f] !in p.closures && p.open[f] < q
    requires q in sites && q in descs && q in p.closures && sites[q].parent == p.open[f]
    requires Inside(descs[q], |fs[f].upvalues|)
    requires p.closures[q] == MakeClosure(descs[q], Ids(sites[q].vars), UpvalueIds(fs, f))
    ensures Made(fs, p, sites, descs, q)
  {
    assert Holding(fs, p, sites[q].parent, UpvalueIds(fs, f));
    assert MadeIn(fs, p, sites[q], descs[q], p.closures[q], UpvalueIds(fs, f));
  }

  lemma FirstFunction(fs: Funcs, p: Program)
    requires fs == [Func([], [], [])] && p == Program([0], 1, map[])
    ensures Kept(fs, p, map[], map[], []) && Represents(START, fs, 0, p)
  {
  }

  lemma NewUse(fs: Funcs, p: Program, sites: map<nat, Site>, descs: map<nat, seq<Desc>>, uses: seq<Use>, k: Kind,
               use: Use)
    requires Kept(fs, p, sites, descs, uses) && |fs| > 0 && k.VUPVAL? && use.func == p.open[|fs| - 1]
    requires use.index == k.index
    requires Meaning(fs, |fs| - 1, k) == Some(use.id)
    ensures Kept(fs, p, sites, descs, uses + [use])
  {
    assert Holding(fs, p, use.func, UpvalueIds(fs, |fs| - 1));
  }

  // ---- The compiler's state follows the text ----

  lemma DeclareStep(sc: Scope, fs: Funcs, fs': Funcs, declared: nat, n: Name, p: Program)
    requires Regular(sc) && Represents(sc, fs, declared, p) && |fs| > 0
    requires fs' == fs[|fs| - 1 := fs[|fs| - 1].(actvar := fs[|fs| - 1].actvar + [Var(n, declared)])]
    ensures Represents(After(sc, DeclareVar(n)), fs', declared + 1, p) && After(sc, DeclareVar(n)).sites == sc.sites
  {
  }

  lemma BeginStep(sc: Scope, fs: Funcs, fs': Funcs, declared: nat, p: Program)
    requires Regular(sc) && Represents(sc, fs, declared, p) && |fs| > 0
    requires var top := |fs| - 1;
             fs' == fs[top := fs[top].(blocks := fs[top].blocks + [Block(|fs[top].actvar|, false)])]
    ensures Represents(After(sc, BeginBlock), fs', declared, p) && After(sc, BeginBlock).sites == sc.sites
  {
    var top := |fs| - 1;
    assert Starts(fs'[top].blocks) == Starts(fs[top].blocks) + [|fs[top].actvar|];
  }

  lemma EndStep(sc: Scope, fs: Funcs, declared: nat, p: Program)
    requires Regular(sc) && Represents(sc, fs, declared, p) && |fs| > 0
    ensures |fs[|fs| - 1].blocks| == 0 ==> After(sc, EndBlock) == sc
  {
    assert sc.blocks[|fs| - 1] == Starts(fs[|fs| - 1].blocks);
  }

  lemma LeaveStep(sc: Scope, fs: Funcs, fs': Funcs, declared: nat, p: Program)
    requires Regular(sc) && Represents(sc, fs, declared, p) && |fs| > 0 && |fs[|fs| - 1].blocks| > 0
    requires var was := fs[|fs| - 1]; var n := was.blocks[|was.blocks| - 1].nactvar;
             n <= |was.actvar|
                 && fs' == fs[|fs| - 1 := Func(was.actvar[..n], was.upvalues, was.blocks[..|was.blocks| - 1])]
    ensures Represents(After(sc, EndBlock), fs', declared, p) && After(sc, EndBlock).sites == sc.sites
  {
    var top := |fs| - 1;
    assert sc.blocks[top] == Starts(fs[top].blocks);
    assert Starts(fs'[top].blocks) == Starts(fs[top].blocks)[..|fs[top].blocks| - 1];
  }

  lemma OpenStep(sc: Scope, fs: Funcs, fs': Funcs, declared: nat, p: Program, p': Program)
    requires Regular(sc) && Represents(sc, fs, declared, p) && fs' == fs + [Func([], [], [])]
    requires p' == Program(p.open + [p.next], p.next + 1, p.closures)
    ensures Represents(After(sc, BeginFunction), fs', declared, p') && After(sc, BeginFunction).sites == sc.sites
  {
  }

  lemma ClosedStep(sc: Scope, fs: Funcs, fs': Funcs, declared: nat, p: Program, p': Program)
    requires Regular(sc) && Represents(sc, fs, declared, p) && |fs| > 1 && fs' == fs[..|fs| - 1]
    requires p'.open == p.open[..|fs| - 1] && p'.next == p.next
    ensures Represents(After(sc, EndFunction), fs', declared, p')
    ensures After(sc, EndFunction).sites == sc.sites[p.open[|fs| - 1] := Site(p.open[|fs| - 2], fs[|fs| - 2].actvar)]
  {
  }

  lemma {:induction false} InnermostVisible(vars: seq<seq<Var>>, fs: Funcs, f: int, n: Name)
    requires |vars| == |fs| && f < |fs| && forall g :: 0 <= g < |fs| ==> vars[g] == fs[g].actvar
    ensures Innermost(vars, f, n) == Visible(fs, f, n)
    decreases f + 1
  {
    if f >= 0 {
      InnermostVisible(vars, fs, f - 1, n);
    }
  }

  lemma ReferStep(sc: Scope, fs: Funcs, fs': Funcs, declared: nat, n: Name, p: Program, k: Kind)
    requires Regular(sc) && Represents(sc, fs, declared, p) && Extends(fs, fs') && |fs| > 0
    requires k.VGLOBAL? <==> Visible(fs, |fs| - 1, n).None?
    requires Meaning(fs', |fs| - 1, k) == Visible(fs, |fs| - 1, n)
    ensures After(sc, Refer(n)) == sc.(captured := sc.captured + Caught(sc.vars, n))
    ensures Represents(After(sc, Refer(n)), fs', declared, p)
    ensures Innermost(sc.vars, |fs| - 1, n) == Visible(fs, |fs| - 1, n)
    ensures k.VLOCAL? ==> k.reg < |sc.vars[|fs| - 1]| && Visible(fs, |fs| - 1, n) == Some(sc.vars[|fs| - 1][k.reg].id)
  {
    InnermostVisible(sc.vars, fs, |fs| - 1, n);
  }

  lemma MoreRefs(refs: seq<Reference>, ref: Reference, rest: seq<Reference>)
    ensures refs + ([ref] + rest) == refs + [ref] + rest
  {
  }

  /** A reference through an upvalue is among the uses; any other is right already. */
  ghost predicate Recorded(k: Kind, ref: Reference, uses: seq<Use>) {
    match k
    case VUPVAL(u) => ref.id.Some? && Use(ref.func, u, ref.id.value) in uses
    case _ => LeadsTo(k, ref, [])
  }

  ghost predicate AllRecorded(kinds: seq<Kind>, refs: seq<Reference>, uses: seq<Use>) {
    |kinds| == |refs| && forall k :: 0 <= k < |kinds| ==> Recorded(kinds[k], refs[k], uses)
  }

  lemma RecordMore(kinds: seq<Kind>, refs: seq<Reference>, uses: seq<Use>, use: Use)
    requires AllRecorded(kinds, refs, uses)
    ensures AllRecorded(kinds, refs, uses + [use])
  {
  }

  /** When all functions are complete, their closures are what they hold at run time. */
  lemma {:induction false} ClosureIsBound(fs: Funcs, p: Program, sites: map<nat, Site>, descs: map<nat, seq<Desc>>,
                                          uses: seq<Use>, q: nat)
    requires Kept(fs, p, sites, descs, uses) && |fs| == 1 && |fs[0].upvalues| == 0 && q in p.closures
    ensures Bound(sites, descs, q) == p.closures[q]
    decreases q
  {
    assert Made(fs, p, sites, descs, q);
    var ups :| MadeIn(fs, p, sites[q], descs[q], p.closures[q], ups);
    var parent := sites[q].parent;
    if parent in p.closures {
      ClosureIsBound(fs, p, sites, descs, uses, parent);
    } else {
      assert parent !in sites && ups == [];
    }
  }

  lemma Arrives(sc: Scope, fs: Funcs, declared: nat, p: Program, descs: map<nat, seq<Desc>>, uses: seq<Use>, k: Kind,
                ref: Reference)
    requires Kept(fs, p, sc.sites, descs, uses) && Recorded(k, ref, uses)
    requires Represents(sc, fs, declared, p) && |sc.open| == 1 && |fs| > 0 && |fs[0].upvalues| == 0
    ensures LeadsTo(k, ref, Bound(sc.sites, descs, ref.func))
  {
    if k.VUPVAL? {
      var use := Use(ref.func, k.index, ref.id.value);
      var i :| 0 <= i < |uses| && uses[i] == use;
      assert Right(fs, p, uses[i]);
      var ups :| Holding(fs, p, use.func, ups) && use.index < |ups| && ups[use.index] == Some(use.id);
      assert use.func in p.closures;
      ClosureIsBound(fs, p, sc.sites, descs, uses, use.func);
    }
  }

  // ---- What is noted as captured ----

  lemma AfterCaptured(sc: Scope, e: Event)
    requires Regular(sc) && !e.Refer?
    ensures After(sc, e).captured == sc.captured
  {
  }

  lemma OrderedAfter(sc: Scope, e: Event)
    requires Regular(sc) && Ordered(sc)
    ensures Ordered(After(sc, e))
  {
    hide Ordered, Owner, Last;
    var r := After(sc, e);
    match e
    case Refer(n) => OrderedRefer(sc, n);
    case DeclareVar(n) => OrderedDeclare(sc, n);
    case BeginFunction => OrderedBegin(sc, r);
    case _ => OrderedFewer(sc, r);
  }

  lemma OrderedRefer(sc: Scope, n: Name)
    requires Regular(sc) && Ordered(sc)
    ensures Ordered(After(sc, Refer(n)))
  {
    var g := Owner(sc.vars, |sc.vars| - 1, n);
  }

  lemma OrderedDeclare(sc: Scope, n: Name)
    requires Regular(sc) && Ordered(sc)
    ensures Ordered(After(sc, DeclareVar(n)))
  {
  }

  lemma OrderedBegin(sc: Scope, r: Scope)
    requires Ordered(sc) && r.vars == sc.vars + [[]] && r.declared == sc.declared && r.captured == sc.captured
    ensures Ordered(r)
  {
  }

  /** Blocks and functions that end take declarations away. */
  lemma OrderedFewer(sc: Scope, r: Scope)
    requires Ordered(sc) && r.declared == sc.declared && r.captured == sc.captured && |r.vars| <= |sc.vars|
    requires forall f :: 0 <= f < |r.vars| ==> r.vars[f] <= sc.vars[f]
    ensures Ordered(r)
  {
  }

  lemma SameCaptured(fs: Funcs, fs': Funcs, c: seq<set<nat>>, ids: set<nat>)
    requires CapturedIs(fs, c, ids) && |fs'| == |fs| && forall f :: 0 <= f < |fs| ==> fs'[f].actvar == fs[f].actvar
    ensures CapturedIs(fs', c, ids)
  {
  }

  /** A new declaration is not captured yet. */
  lemma DeclareCaptured(sc: Scope, fs: Funcs, fs': Funcs, c: seq<set<nat>>, declared: nat, n: Name, p: Program)
    requires Regular(sc) && Ordered(sc) && Represents(sc, fs, declared, p) && CapturedIs(fs, c, sc.captured) && |fs| > 0
    requires fs' == fs[|fs| - 1 := fs[|fs| - 1].(actvar := fs[|fs| - 1].actvar + [Var(n, declared)])]
    ensures CapturedIs(fs', c, After(sc, DeclareVar(n)).captured)
  {
    var top := |fs| - 1;
    assert declared !in sc.captured;
    assert Registers(fs'[top].actvar, sc.captured) == Registers(fs[top].actvar, sc.captured);
  }

  lemma LeaveCaptured(sc: Scope, fs: Funcs, fs': Funcs, c: seq<set<nat>>, c': seq<set<nat>>, declared: nat, p: Program)
    requires Regular(sc) && Represents(sc, fs, declared, p) && CapturedIs(fs, c, sc.captured)
    requires |fs| > 0 && |fs[|fs| - 1].blocks| > 0
    requires var was := fs[|fs| - 1]; var n := was.blocks[|was.blocks| - 1].nactvar;
             && n <= |was.actvar|
             && fs' == fs[|fs| - 1 := Func(was.actvar[..n], was.upvalues, was.blocks[..|was.blocks| - 1])]
             && c' == c[|fs| - 1 := Below(c[|fs| - 1], n)]
    ensures CapturedIs(fs', c', After(sc, EndBlock).captured)
    ensures var was := fs[|fs| - 1];
            AnyFrom(c[|fs| - 1], was.blocks[|was.blocks| - 1].nactvar) <==> EndsCaptured(sc)
  {
    var top := |fs| - 1;
    var was := fs[top];
    var n := was.blocks[|was.blocks| - 1].nactvar;
    assert sc.blocks[top] == Starts(was.blocks) && sc.blocks[top][|was.blocks| - 1] == n;
    assert Registers(fs'[top].actvar, sc.captured) == Below(c[top], n);
    if i :| n <= i < |sc.vars[top]| && sc.vars[top][i].id in sc.captured {
      var r: nat := i;
      assert r in Registers(was.actvar, sc.captured);
    }
  }

  lemma {:induction false} OwnerIsHome(vars: seq<seq<Var>>, fs: Funcs, f: int, n: Name)
    requires |vars| == |fs| && f < |fs| && forall g :: 0 <= g < |fs| ==> vars[g] == fs[g].actvar
    ensures Owner(vars, f, n) == Home(fs, f, n)
    decreases f + 1
  {
    if f >= 0 {
      OwnerIsHome(vars, fs, f - 1, n);
    }
  }

  /** A reference from a nested function notes the register of the declaration, and no other. */
  lemma ReferCaptured(sc: Scope, fs: Funcs, fs': Funcs, c: seq<set<nat>>, c': seq<set<nat>>, declared: nat, n: Name,
                      p: Program)
    requires Regular(sc) && Ordered(sc) && Represents(sc, fs, declared, p) && CapturedIs(fs, c, sc.captured) && |fs| > 0
    requires Extends(fs, fs') && c' == Noting(fs, c, |fs| - 1, n, true)
    ensures CapturedIs(fs', c', After(sc, Refer(n)).captured)
  {
    hide Last;
    OwnerIsHome(sc.vars, fs, |fs| - 1, n);
    var g, ids' := Home(fs, |fs| - 1, n), sc.captured + Caught(sc.vars, n);
    if 0 <= g < |fs| - 1 {
      var v := Last(fs[g].actvar, n);
      assert ids' == sc.captured + {sc.vars[g][v].id};
      forall f | 0 <= f < |fs| ensures Registers(fs[f].actvar, ids') == c'[f] {
        forall r: nat | r < |fs[f].actvar| && sc.vars[f][r].id == sc.vars[g][v].id ensures f == g && r == v {
        }
      }
    } else {
      assert ids' == sc.captured;
    }
  }

  lemma NextClosing(sc: Scope, e: Event, events: seq<Event>, rest: seq<Event>)
    requires Regular(sc) && |events| > 0 && events[0] == e && events[1..] == rest
    ensures Closings(sc, events) == ClosingAt(sc, e) + Closings(After(sc, e), rest)
    ensures !e.EndBlock? ==> ClosingAt(sc, e) == []
  {
  }

  lemma MoreClosings(a: seq<bool>, b: seq<bool>, c: seq<bool>)
    ensures a + (b + c) == a + b + c && (b == [] ==> a + b == a)
  {
  }
}
