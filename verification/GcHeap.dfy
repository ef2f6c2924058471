/**
 The state of the incremental collector (lgc.c, lgc.h) and its steps. Addresses are natural numbers.  The objects of
 the C heap are kept in two maps, `body` (what an object is and refers to) and `mark` (its `marked` byte); the lists
 threaded through the objects by `next` and `gclist` are sequences.
 */
module GcHeap {
  import opened Base

  type Ref = nat

  /** A slot that can hold a collectable reference; None stands for every other value. */
  type Value = Option<Ref>

  /** The colour held in an object's `marked` byte; there are two whites (module GcMarkByte). */
  datatype Colour = White(w: bool) | Gray | Black

  /** Objects by type tag.  Slots are numbered in the order in which the collector visits them. */
  datatype Body =
    | Str(hash: nat)                         // chained in the bucket of its hash
    | Udata(slots: seq<Value>)               // metatable, environment
    | Table(slots: seq<Value>)               // metatable, array part, keys and values
    | Func(slots: seq<Value>)                // environment, prototype, upvalues
    | Proto(slots: seq<Value>)               // source, constants, names, nested prototypes
    | Thread(slots: seq<Value>)              // global table, then the stack
    | Closed(content: Value)                 // closed upvalue
    | Open(thread: Ref, index: nat)          // open upvalue: a slot of a thread
  {
    /** Objects that wait in a gray list while they are gray. */
    predicate Listable() { Table? || Func? || Proto? || Thread? }

    /** Objects chained in the list `rootgc`. */
    predicate InRootList() { !Str? && !Open? }
  }

  /** lmod: the bucket of a string in a table of this size. */
  function Bucket(hash: nat, size: nat): (i: nat)
    requires size > 0
    ensures i < size
  {
    hash % size
  }

  datatype Phase = Pause | Propagate | SweepString | Sweep | Finalize

  /** The mark bytes, and the lists of gray objects still to be traversed. */
  datatype Colours = Colours(mark: map<Ref, Colour>, gray: seq<Ref>, grayagain: seq<Ref>)

  /** The lists that chain every object to the collector, with the two sweep pointers. */
  datatype Chains = Chains(
    rootgc: seq<Ref>,
    sweepgc: nat,
    strt: seq<seq<Ref>>,
    sweepstrgc: nat,
    openupval: map<Ref, seq<Ref>>,
    uvhead: seq<Ref>)

  datatype Roots = Roots(mainthread: Ref, registry: Ref, mt: seq<Value>, running: Ref)

  /** The part of global_State the collector works on, and the running thread. */
  datatype State = State(
    body: map<Ref, Body>,
    col: Colours,
    lists: Chains,
    roots: Roots,
    fixed: set<Ref>,                         // objects with the bit FIXEDBIT
    currentwhite: bool,
    gcstate: Phase)

  // ---- What a reference can reach ----

  /** What reading through a body yields, slot by slot: the values a traversal marks. */
  function Values(heap: map<Ref, Body>, a: Ref): seq<Value> {
    if a !in heap then [] else
    match heap[a]
    case Str(_) => []
    case Closed(v) => [v]
    case Open(t, i) =>
      if t in heap && heap[t].Thread? && i < |heap[t].slots| then [heap[t].slots[i]] else []
    case _ => heap[a].slots
  }

  predicate Edge(heap: map<Ref, Body>, a: Ref, b: Ref) {
    Some(b) in Values(heap, a)
  }

  predicate Root(g: Roots, o: Ref) {
    o == g.mainthread || o == g.registry || o == g.running || Some(o) in g.mt
  }

  predicate Path(heap: map<Ref, Body>, g: Roots, p: seq<Ref>) {
    && |p| > 0
    && Root(g, p[0])
    && forall i :: 0 < i < |p| ==> Edge(heap, p[i - 1], p[i])
  }

  /** The mutator can get at o: a chain of references leads to it from the roots. */
  ghost predicate Reachable(heap: map<Ref, Body>, g: Roots, o: Ref) {
    exists p: seq<Ref> :: Path(heap, g, p) && p[|p| - 1] == o
  }

  // ---- Colours ----

  predicate IsWhite(c: Colours, o: Ref) { o in c.mark && c.mark[o].White? }

  predicate IsGray(c: Colours, o: Ref) { o in c.mark && c.mark[o].Gray? }

  predicate IsBlack(c: Colours, o: Ref) { o in c.mark && c.mark[o].Black? }

  /** isdead: of the white that is not the current one. */
  predicate Dead(c: Colours, w: bool, o: Ref) { o in c.mark && c.mark[o] == White(!w) }

  /** luaC_white: the mark of a new object, or of one the sweep has passed. */
  predicate Fresh(c: Colours, w: bool, o: Ref) { o in c.mark && c.mark[o] == White(w) }

  function Whites(c: Colours): set<Ref> {
    set o | o in c.mark && c.mark[o].White?
  }

  function SetMark(c: Colours, o: Ref, m: Colour): Colours {
    c.(mark := c.mark[o := m])
  }

  // ---- Marking ----

  /** markobject: reallymarkobject behind its iswhite guard.  No object is ever missing (Inv). */
  function MarkObject(heap: map<Ref, Body>, c: Colours, o: Ref): (r: Colours)
    ensures Whites(r) <= Whites(c)
    ensures Whites(r) == Whites(c) ==> r == c
    decreases Whites(c), 0
  {
    if o !in heap || !IsWhite(c, o) then c else
    var c1 := SetMark(c, o, Gray);
    assert o in Whites(c) && o !in Whites(c1);
    match heap[o]
    case Str(_) => c1
    case Udata(slots) => MarkValues(heap, SetMark(c1, o, Black), slots)
    case Closed(v) =>
      SetMark(MarkValues(heap, c1, [v]), o, Black)
    case Open(_, _) => MarkValues(heap, c1, Values(heap, o))
    case _ => c1.(gray := [o] + c1.gray)
  }

  /** markvalue on each of some slots, in order. */
  function MarkValues(heap: map<Ref, Body>, c: Colours, vs: seq<Value>): (r: Colours)
    ensures Whites(r) <= Whites(c)
    ensures Whites(r) == Whites(c) ==> r == c
    decreases Whites(c), |vs| + 1
  {
    if |vs| == 0 then c else
    var c1 := if vs[0].Some? then MarkObject(heap, c, vs[0].value) else c;
    assert Whites(c1) == Whites(c) || Whites(c1) < Whites(c);
    MarkValues(heap, c1, vs[1..])
  }

  /** propagatemark first takes the object off the gray list, turning it black; threads stay gray. */
  function TakeGray(heap: map<Ref, Body>, c: Colours): Colours
    requires |c.gray| > 0
  {
    var o := c.gray[0];
    var popped := c.(gray := c.gray[1..]);
    if o !in heap then popped
    else if heap[o].Thread? then popped.(grayagain := [o] + c.grayagain)
    else SetMark(popped, o, Black)
  }

  /** propagatemark: traverse the first gray object. */
  function PropagateMark(heap: map<Ref, Body>, c: Colours): (r: Colours)
    requires |c.gray| > 0
    ensures Whites(r) <= Whites(c)
    ensures Whites(r) == Whites(c) ==> |r.gray| < |c.gray|
  {
    var c1 := TakeGray(heap, c);
    assert Whites(c1) <= Whites(c);
    MarkValues(heap, c1, Values(heap, c.gray[0]))
  }

  /** propagateall. */
  function PropagateAll(heap: map<Ref, Body>, c: Colours): (r: Colours)
    ensures |r.gray| == 0
    decreases Whites(c), |c.gray|
  {
    if |c.gray| == 0 then c else
    var c1 := PropagateMark(heap, c);
    assert Whites(c1) == Whites(c) || Whites(c1) < Whites(c);
    PropagateAll(heap, c1)
  }

  /** remarkupvals: mark again what the gray open upvalues refer to. */
  function RemarkUpvals(heap: map<Ref, Body>, c: Colours, uvs: seq<Ref>): Colours
    decreases |uvs|
  {
    if |uvs| == 0 then c else
    var c1 := if IsGray(c, uvs[0]) then MarkValues(heap, c, Values(heap, uvs[0])) else c;
    RemarkUpvals(heap, c1, uvs[1..])
  }

  function GlobalTable(heap: map<Ref, Body>, mainthread: Ref): seq<Value> {
    var vs := Values(heap, mainthread);
    if |vs| > 0 then [vs[0]] else []
  }

  /** The marking done by markroot. */
  function MarkRootSet(heap: map<Ref, Body>, c: Colours, g: Roots): Colours {
    var c0 := c.(gray := [], grayagain := []);
    var c1 := MarkObject(heap, c0, g.mainthread);
    var c2 := MarkValues(heap, c1, GlobalTable(heap, g.mainthread));
    var c3 := MarkObject(heap, c2, g.registry);
    MarkValues(heap, c3, g.mt)
  }

  /** markroot: start a collection. */
  function MarkRoot(s: State): State {
    s.(col := MarkRootSet(s.body, s.col, s.roots), gcstate := Propagate)
  }

  /** The marking done by `atomic`, up to the change of the current white. */
  function AtomicMark(heap: map<Ref, Body>, c: Colours, g: Roots, uvs: seq<Ref>): Colours {
    var c1 := PropagateAll(heap, RemarkUpvals(heap, c, uvs));
    var c2 := MarkObject(heap, c1, g.running);  // the list of weak tables is empty
    var c3 := PropagateAll(heap, MarkValues(heap, c2, g.mt));
    PropagateAll(heap, c3.(gray := c3.grayagain, grayagain := []))
  }

  function Flip(s: State): State {
    s.(currentwhite := !s.currentwhite, gcstate := SweepString,
       lists := s.lists.(sweepstrgc := 0, sweepgc := 0))
  }

  function Atomic(s: State): State {
    Flip(s.(col := AtomicMark(s.body, s.col, s.roots, s.lists.uvhead)))
  }

  // ---- Sweeping ----

  function Without(l: seq<Ref>, o: Ref): seq<Ref> {
    if |l| == 0 then [] else if l[0] == o then l[1..] else [l[0]] + Without(l[1..], o)
  }

  /** Sweeping and closing upvalues change neither the roots nor the phase. */
  predicate SameGlobals(s: State, r: State) {
    r.roots == s.roots && r.fixed == s.fixed && r.currentwhite == s.currentwhite && r.gcstate == s.gcstate
  }

  predicate Survives(s: State, o: Ref) {
    o in s.col.mark && (!Dead(s.col, s.currentwhite, o) || o in s.fixed)
  }

  /** Turn o to the current white. */
  function Whiten(s: State, o: Ref): State { s.(col := SetMark(s.col, o, White(s.currentwhite))) }

  /** The part of freeobj common to all objects: the memory goes. */
  function Free(s: State, o: Ref): State {
    s.(body := s.body - {o}, col := s.col.(mark := s.col.mark - {o}))
  }

  /** freeobj for a string or an upvalue; an open upvalue leaves the ring `uvhead` first. */
  function FreeLeaf(s: State, o: Ref): State {
    if o in s.body && s.body[o].Open?
    then Free(s.(lists := s.lists.(uvhead := Without(s.lists.uvhead, o))), o)
    else Free(s, o)
  }

  /** sweeplist over a whole chain of strings or open upvalues: the new state and the new chain. */
  function SweepChain(s: State, l: seq<Ref>): (r: (State, seq<Ref>))
    ensures r.0.lists == s.lists.(uvhead := r.0.lists.uvhead) && SameGlobals(s, r.0)
    decreases |l|
  {
    if |l| == 0 then (s, []) else
    var o := l[0];
    if Survives(s, o) then
      var (r, rest) := SweepChain(Whiten(s, o), l[1..]);
      (r, [o] + rest)
    else
      SweepChain(FreeLeaf(s, o), l[1..])
  }

  function SweepBucket(s: State): (r: State)
    requires s.lists.sweepstrgc < |s.lists.strt|
    ensures SameGlobals(s, r)
  {
    var i := s.lists.sweepstrgc;
    var (t, l) := SweepChain(s, s.lists.strt[i]);
    t.(lists := t.lists.(strt := t.lists.strt[i := l], sweepstrgc := i + 1))
  }

  function SweepOpenUpvals(s: State, t: Ref): (r: State)
    ensures SameGlobals(s, r)
  {
    if t !in s.lists.openupval then s else
    var (s1, l) := SweepChain(s, s.lists.openupval[t]);
    s1.(lists := s1.lists.(openupval := s1.lists.openupval[t := l]))
  }

  /** Chain o into `rootgc` at position k; the pointer `sweepgc` keeps its place in the list. */
  function Link(l: Chains, o: Ref, k: nat): Chains
    requires k <= |l.rootgc|
  {
    l.(rootgc := l.rootgc[..k] + [o] + l.rootgc[k..],
       sweepgc := if k < l.sweepgc then l.sweepgc + 1 else l.sweepgc)
  }

  /** luaC_barrierf, behind the test made by luaC_barrier. */
  function BarrierForward(s: State, o: Ref, v: Value): (r: State)
    ensures r == s.(col := r.col)
  {
    if v.Some? && IsWhite(s.col, v.value) && IsBlack(s.col, o) then
      if s.gcstate == Propagate then s.(col := MarkObject(s.body, s.col, v.value))
      else Whiten(s, o)
    else s
  }

  /** luaC_barrierback, behind the test made by luaC_barriert. */
  function BarrierBack(s: State, t: Ref, v: Value): (r: State)
    ensures r == s.(col := r.col)
  {
    if v.Some? && IsWhite(s.col, v.value) && IsBlack(s.col, t) then
      s.(col := SetMark(s.col, t, Gray).(grayagain := [t] + s.col.grayagain))
    else s
  }

  /** luaC_linkupval: an upvalue that has just been closed. */
  function LinkUpval(s: State, uv: Ref, v: Value): (r: State)
    ensures r == s.(lists := Link(s.lists, uv, 0), col := r.col)
  {
    var s1 := s.(lists := Link(s.lists, uv, 0));
    if IsGray(s1.col, uv) then
      if s.gcstate == Propagate then
        BarrierForward(s1.(col := SetMark(s1.col, uv, Black)), uv, v)
      else Whiten(s1, uv)
    else s1
  }

  /** unlinkupval, and the removal from the list of open upvalues. */
  function Unchain(l: Chains, t: Ref): Chains
    requires t in l.openupval && |l.openupval[t]| > 0
  {
    l.(openupval := l.openupval[t := l.openupval[t][1..]], uvhead := Without(l.uvhead, l.openupval[t][0]))
  }

  /** One turn of luaF_close: close or free the first open upvalue of thread t. */
  function CloseFirst(s: State, t: Ref): (r: State)
    requires t in s.lists.openupval && |s.lists.openupval[t]| > 0
    ensures SameGlobals(s, r)
  {
    var uv := s.lists.openupval[t][0];
    var s1 := s.(lists := Unchain(s.lists, t));
    if uv !in s.body then s1 else
    if Dead(s.col, s.currentwhite, uv) then Free(s1, uv) else
    var v := if |Values(s.body, uv)| > 0 then Values(s.body, uv)[0] else None;
    LinkUpval(s1.(body := s1.body[uv := Closed(v)]), uv, v)
  }

  function OpenCount(s: State, t: Ref): nat {
    if t in s.lists.openupval then |s.lists.openupval[t]| else 0
  }

  /** luaF_close: close every open upvalue of t at or above `level`. */
  function Close(s: State, t: Ref, level: nat): (r: State)
    ensures SameGlobals(s, r)
    decreases OpenCount(s, t)
  {
    if OpenCount(s, t) == 0 then s else
    var uv := s.lists.openupval[t][0];
    if uv in s.body && s.body[uv].Open? && s.body[uv].index < level then s else
    Close(CloseFirst(s, t), t, level)
  }

  /** sweeplist has found the object under `sweepgc` dead: it leaves the list. */
  function Cut(l: Chains): Chains
    requires l.sweepgc < |l.rootgc|
  {
    l.(rootgc := l.rootgc[..l.sweepgc] + l.rootgc[l.sweepgc + 1..])
  }

  /** freeobj for an object of `rootgc`. */
  function FreeRoot(s: State, o: Ref): State {
    s.(body := s.body - {o}, col := s.col.(mark := s.col.mark - {o}),
       lists := s.lists.(openupval := s.lists.openupval - {o}))
  }

  /** sweeplist at the object under `sweepgc`: keep it, white again, or free it. */
  function SweepHere(s: State): (r: State)
    requires s.lists.sweepgc < |s.lists.rootgc|
    ensures SameGlobals(s, r)
  {
    var o := s.lists.rootgc[s.lists.sweepgc];
    if Survives(s, o) then
      s.(col := SetMark(s.col, o, White(s.currentwhite)), lists := s.lists.(sweepgc := s.lists.sweepgc + 1))
    else
      var s1 := s.(lists := Cut(s.lists));
      FreeRoot(if o in s.body && s.body[o].Thread? then Close(s1, o, 0) else s1, o)  // luaE_freethread closes
  }

  /** One turn of sweeplist over `rootgc`: a thread's open upvalues are swept with it. */
  function SweepRoot(s: State): (r: State)
    requires s.lists.sweepgc < |s.lists.rootgc|
    ensures SameGlobals(s, r)
  {
    var o := s.lists.rootgc[s.lists.sweepgc];
    SweepHere(if o in s.body && s.body[o].Thread? then SweepOpenUpvals(s, o) else s)
  }

  // ---- The size of the string table ----

  /** The string o becomes the head of its bucket. */
  function ChainIn(heap: map<Ref, Body>, o: Ref, strt: seq<seq<Ref>>): (r: seq<seq<Ref>>)
    requires |strt| > 0
    ensures |r| == |strt|
  {
    var i := Bucket(if o in heap && heap[o].Str? then heap[o].hash else 0, |strt|);
    strt[i := [o] + strt[i]]
  }

  function Rechained(heap: map<Ref, Body>, l: seq<Ref>, strt: seq<seq<Ref>>): (r: seq<seq<Ref>>)
    requires |strt| > 0
    ensures |r| == |strt|
    decreases |l|
  {
    if |l| == 0 then strt else Rechained(heap, l[1..], ChainIn(heap, l[0], strt))
  }

  function AllRechained(heap: map<Ref, Body>, buckets: seq<seq<Ref>>, strt: seq<seq<Ref>>): (r: seq<seq<Ref>>)
    requires |strt| > 0
    ensures |r| == |strt|
    decreases |buckets|
  {
    if |buckets| == 0 then strt else AllRechained(heap, buckets[1..], Rechained(heap, buckets[0], strt))
  }

  /** luaS_resize: not while the buckets are being swept. */
  function Resized(s: State, n: nat): State
    requires n > 0
  {
    if s.gcstate == SweepString then s
    else s.(lists := s.lists.(strt := AllRechained(s.body, s.lists.strt, seq(n, _ => []))))
  }

  const MINSTRTABSIZE: nat := 32

  /** The counter `nuse` of the string table. */
  function StringCount(strt: seq<seq<Ref>>): nat {
    if |strt| == 0 then 0 else |strt[0]| + StringCount(strt[1..])
  }

  /** checkSizes: the string table shrinks. */
  function CheckSizes(s: State): (r: State)
    ensures r == s.(lists := s.lists.(strt := r.lists.strt))
  {
    var size := |s.lists.strt|;
    if StringCount(s.lists.strt) < size / 4 && size > MINSTRTABSIZE * 2 then Resized(s, size / 2) else s
  }

  // ---- A step of the collector ----

  const GCSWEEPMAX: nat := 40

  function SweepRoots(s: State, count: nat): (r: State)
    ensures SameGlobals(s, r)
    decreases count
  {
    if count == 0 || s.lists.sweepgc >= |s.lists.rootgc| then s else SweepRoots(SweepRoot(s), count - 1)
  }

  /** singlestep. */
  function SingleStep(s: State): State {
    match s.gcstate
    case Pause => MarkRoot(s)
    case Propagate =>
      if |s.col.gray| > 0 then s.(col := PropagateMark(s.body, s.col)) else Atomic(s)
    case SweepString =>
      if s.lists.sweepstrgc >= |s.lists.strt| then s else
      var r := SweepBucket(s);
      if r.lists.sweepstrgc >= |r.lists.strt| then r.(gcstate := Sweep) else r
    case Sweep =>
      var r := SweepRoots(s, GCSWEEPMAX);
      if r.lists.sweepgc >= |r.lists.rootgc| then CheckSizes(r).(gcstate := Finalize) else r
    case Finalize => s.(gcstate := Pause)
  }
}
