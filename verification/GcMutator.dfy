/**
 What the running program does to the heap between two steps of the collector. A program holds references only on the
 stack of the running thread, and in what it can reach from there: each event is allowed on reachable objects and
 stores reachable values. Stack writes have no barrier; every other write runs the barrier of lgc.h.
 */
module GcMutator {
  import opened Base
  import opened GcHeap

  datatype Event =
    | Collect                          // singlestep
    | Abandon                          // luaC_fullgc drops an unfinished mark phase
    | Restart                          // luaC_fullgc marks again right after a sweep
    | New(o: Ref, b: Body)             // luaC_link, luaS_newudata: a new object, left on the stack
    | NewString(o: Ref, hash: nat)     // newlstr: a new string, left on the stack
    | ResizeStrings(n: nat)            // luaS_resize: the string table grows or shrinks
    | Intern(o: Ref)                   // luaS_newlstr finds the string in the string table
    | Fix(o: Ref)                      // luaS_fix
    | SetStack(t: Ref, slots: seq<Value>)
    | SetSlot(o: Ref, i: nat, v: Value)
    | SetUpval(o: Ref, v: Value)       // OP_SETUPVAL
    | FindUpval(o: Ref, index: nat)    // luaF_findupval on the running thread; o is the address of a new upvalue
    | CloseFrom(level: nat)            // luaF_close on the running thread
    | SetMetatable(i: nat, v: Value)   // lua_setmetatable for a basic type: no barrier
    | Resume(t: Ref)                   // another thread runs

  ghost predicate Held(s: State, v: Value) {
    v.Some? ==> Reachable(s.body, s.roots, v.value)
  }

  ghost predicate AllHeld(s: State, vs: seq<Value>) { forall v :: v in vs ==> Held(s, v) }

  function Slots(b: Body): seq<Value> {
    match b
    case Str(_) => []
    case Closed(v) => [v]
    case Open(_, _) => []
    case _ => b.slots
  }

  ghost predicate Allowed(s: State, e: Event) {
    match e
    case Collect => true
    case Abandon => s.gcstate == Pause || s.gcstate == Propagate
    case Restart => s.gcstate == Finalize
    case New(o, b) => o !in s.body && b.InRootList() && AllHeld(s, Slots(b))
    case NewString(o, _) => o !in s.body
    case ResizeStrings(n) => n > 0
    case Intern(o) => o in s.body && s.body[o].Str?
    case Fix(o) => o in s.body && s.body[o].Str?
    case SetStack(t, slots) =>
      && t in s.body && s.body[t].Thread? && Reachable(s.body, s.roots, t) && AllHeld(s, slots)
      && forall u :: u in s.body && s.body[u].Open? && s.body[u].thread == t ==> s.body[u].index < |slots|
    case SetSlot(o, i, v) =>
      && o in s.body && (s.body[o].Udata? || s.body[o].Table? || s.body[o].Func? || s.body[o].Proto?)
      && Reachable(s.body, s.roots, o) && i <= |s.body[o].slots| && Held(s, v)
    case SetUpval(o, v) =>
      o in s.body && (s.body[o].Open? || s.body[o].Closed?) && Reachable(s.body, s.roots, o) && Held(s, v)
    case FindUpval(o, i) => o !in s.body && i < |Values(s.body, s.roots.running)|
    case CloseFrom(_) => true
    case SetMetatable(i, v) => i < |s.roots.mt| && Held(s, v)
    case Resume(t) => t in s.body && s.body[t].Thread? && Reachable(s.body, s.roots, t)
  }

  /** Leave a value on the stack of the running thread. */
  function Push(s: State, v: Value): State {
    var l := s.roots.running;
    if l in s.body && s.body[l].Thread? then s.(body := s.body[l := Thread(s.body[l].slots + [v])]) else s
  }

  function IndexOf(l: seq<Ref>, o: Ref): (i: nat)
    ensures i <= |l|
  {
    if |l| == 0 || l[0] == o then 0 else 1 + IndexOf(l[1..], o)
  }

  /** Userdata are chained right after the main thread, everything else at the head of `rootgc`. */
  function LinkPlace(s: State, b: Body): (k: nat)
    ensures k <= |s.lists.rootgc|
  {
    if b.Udata? && IndexOf(s.lists.rootgc, s.roots.mainthread) < |s.lists.rootgc|
    then IndexOf(s.lists.rootgc, s.roots.mainthread) + 1 else 0
  }

  function Create(s: State, o: Ref, b: Body): State {
    var l := Link(s.lists, o, LinkPlace(s, b));
    s.(body := s.body[o := b], col := SetMark(s.col, o, White(s.currentwhite)),
       lists := if b.Thread? then l.(openupval := l.openupval[o := []]) else l)
  }

  function CreateString(s: State, o: Ref, hash: nat): State
    requires |s.lists.strt| > 0
  {
    var i := Bucket(hash, |s.lists.strt|);
    s.(body := s.body[o := Str(hash)], col := SetMark(s.col, o, White(s.currentwhite)),
       lists := s.lists.(strt := s.lists.strt[i := [o] + s.lists.strt[i]]))
  }

  /** changewhite, behind the test isdead. */
  function Resurrect(s: State, o: Ref): State {
    if Dead(s.col, s.currentwhite, o) then s.(col := SetMark(s.col, o, White(s.currentwhite))) else s
  }

  function WithSlots(b: Body, slots: seq<Value>): Body
  {
    match b
    case Udata(_) => Udata(slots)
    case Table(_) => Table(slots)
    case Func(_) => Func(slots)
    case Proto(_) => Proto(slots)
    case Thread(_) => Thread(slots)
    case _ => b
  }

  function Store(slots: seq<Value>, i: nat, v: Value): seq<Value> {
    if i < |slots| then slots[i := v] else slots + [v]
  }

  /** How far luaF_findupval walks down the open list, which is sorted by stack level. */
  function OpenPlace(heap: map<Ref, Body>, us: seq<Ref>, i: nat): (k: nat)
    ensures k <= |us|
  {
    if |us| == 0 || us[0] !in heap || !heap[us[0]].Open? || heap[us[0]].index <= i then 0
    else 1 + OpenPlace(heap, us[1..], i)
  }

  /** A new open upvalue, k places down the open list of the running thread. */
  function NewUpval(s: State, o: Ref, i: nat, k: nat): State
    requires s.roots.running in s.lists.openupval && k <= |s.lists.openupval[s.roots.running]|
  {
    var t := s.roots.running;
    var us := s.lists.openupval[t];
    s.(body := s.body[o := Open(t, i)], col := SetMark(s.col, o, White(s.currentwhite)),
       lists := s.lists.(openupval := s.lists.openupval[t := us[..k] + [o] + us[k..]], uvhead := [o] + s.lists.uvhead))
  }

  function Find(s: State, o: Ref, i: nat): State {
    var t := s.roots.running;
    if t !in s.lists.openupval then s else
    var us := s.lists.openupval[t];
    var k := OpenPlace(s.body, us, i);
    if k < |us| && us[k] in s.body && s.body[us[k]].Open? && s.body[us[k]].index == i then
      Push(Resurrect(s, us[k]), Some(us[k]))
    else
      Push(NewUpval(s, o, i, k), Some(o))
  }

  /** luaC_fullgc resets the sweep, to sweep all elements back to white, and the gray lists. */
  function DropMarks(s: State): State {
    s.(gcstate := SweepString, col := s.col.(gray := [], grayagain := []),
       lists := s.lists.(sweepstrgc := 0, sweepgc := 0))
  }

  function Apply(s: State, e: Event): State {
    match e
    case Collect => SingleStep(s)
    case Abandon => DropMarks(s)
    case Restart => MarkRoot(s)
    case New(o, b) => Push(Create(s, o, b), Some(o))
    case NewString(o, hash) => if |s.lists.strt| > 0 then Push(CreateString(s, o, hash), Some(o)) else s
    case ResizeStrings(n) => if n > 0 then Resized(s, n) else s
    case Intern(o) => Push(Resurrect(s, o), Some(o))
    case Fix(o) => s.(fixed := s.fixed + {o})
    case SetStack(t, slots) => s.(body := s.body[t := Thread(slots)])
    case SetSlot(o, i, v) =>
      if o !in s.body then s else
      var s1 := s.(body := s.body[o := WithSlots(s.body[o], Store(Slots(s.body[o]), i, v))]);
      if s.body[o].Table? then BarrierBack(s1, o, v) else BarrierForward(s1, o, v)
    case SetUpval(o, v) =>
      if o !in s.body then s else
      var t := if s.body[o].Open? then s.body[o].thread else o;
      if t !in s.body then s else
      var b := if s.body[o].Open? then WithSlots(s.body[t], Store(Slots(s.body[t]), s.body[o].index, v)) else Closed(v);
      BarrierForward(s.(body := s.body[t := b]), o, v)
    case FindUpval(o, i) => Find(s, o, i)
    case CloseFrom(level) => Close(s, s.roots.running, level)
    case SetMetatable(i, v) =>
      if i < |s.roots.mt| then s.(roots := s.roots.(mt := s.roots.mt[i := v])) else s
    case Resume(t) => s.(roots := s.roots.(running := t))
  }

  function Run(s: State, es: seq<Event>): State
    decreases |es|
  {
    if |es| == 0 then s else Run(Apply(s, es[0]), es[1..])
  }

  /** Every event of the run is allowed in the state it meets. */
  ghost predicate AllowedRun(s: State, es: seq<Event>)
    decreases |es|
  {
    |es| > 0 ==> Allowed(s, es[0]) && AllowedRun(Apply(s, es[0]), es[1..])
  }
}
