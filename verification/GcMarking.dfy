/** What marking does: the tri-colour facts that every marking step keeps. */
module GcMarking {
  import opened Base
  import opened GcHeap

  /** Every object has a colour. */
  ghost predicate Coloured(heap: map<Ref, Body>, c: Colours) { c.mark.Keys == heap.Keys }

  ghost predicate NoWhiteChild(heap: map<Ref, Body>, c: Colours, x: Ref) {
    forall b :: Edge(heap, x, b) ==> !IsWhite(c, b)
  }

  /** What a marked object looks like: gray ones that still have to be visited are in the gray list. */
  ghost predicate Settled(heap: map<Ref, Body>, c: Colours, x: Ref) {
    && x in c.mark && x in heap
    && match heap[x]
       case Str(_) => IsGray(c, x)
       case Open(_, _) => IsGray(c, x) && NoWhiteChild(heap, c, x)
       case Udata(_) => IsBlack(c, x) && NoWhiteChild(heap, c, x)
       case Closed(_) => IsBlack(c, x) && NoWhiteChild(heap, c, x)
       case _ => IsGray(c, x) && x in c.gray
  }

  /** `news` are objects that have just become gray, each listed once. */
  ghost predicate NewGrays(heap: map<Ref, Body>, c: Colours, r: Colours, news: seq<Ref>) {
    && NoDup(news)
    && forall x :: x in news ==> IsWhite(c, x) && IsGray(r, x) && x in heap && heap[x].Listable()
  }

  /** The gray list grows at its front, by objects that were white. */
  ghost predicate GrayGrew(heap: map<Ref, Body>, c: Colours, r: Colours) {
    exists news :: r.gray == news + c.gray && NewGrays(heap, c, r, news)
  }

  /** r comes from c by marking: only white objects changed, and those are settled. */
  ghost predicate Marked(heap: map<Ref, Body>, c: Colours, r: Colours) {
    && r.grayagain == c.grayagain
    && r.mark.Keys == c.mark.Keys
    && (forall x :: x in c.mark && !(IsWhite(c, x) && !IsWhite(r, x)) ==> r.mark[x] == c.mark[x])
    && (forall x :: IsWhite(c, x) && !IsWhite(r, x) ==> Settled(heap, r, x))
    && GrayGrew(heap, c, r)
  }

  lemma GrayGrewTransitive(heap: map<Ref, Body>, c: Colours, d: Colours, r: Colours)
    requires GrayGrew(heap, c, d) && GrayGrew(heap, d, r)
    requires forall x :: IsWhite(d, x) ==> IsWhite(c, x)
    requires forall x :: IsGray(d, x) ==> IsGray(r, x)
    ensures GrayGrew(heap, c, r)
  {
    var n1 :| d.gray == n1 + c.gray && NewGrays(heap, c, d, n1);
    var n2 :| r.gray == n2 + d.gray && NewGrays(heap, d, r, n2);
    assert r.gray == (n2 + n1) + c.gray;
    NoDupConcat(n2, n1);
    assert NewGrays(heap, c, r, n2 + n1);
  }

  lemma MarkedTransitive(heap: map<Ref, Body>, c: Colours, d: Colours, r: Colours)
    requires Marked(heap, c, d) && Marked(heap, d, r)
    ensures Marked(heap, c, r)
  {
    GrayGrewTransitive(heap, c, d, r);
    assert forall x :: x in d.gray ==> x in r.gray;
    forall x | IsWhite(c, x) && !IsWhite(r, x)
      ensures Settled(heap, r, x)
    {
      if !IsWhite(d, x) {
        assert Settled(heap, d, x);
      }
    }
  }

  lemma MarkedReflexive(heap: map<Ref, Body>, c: Colours)
    ensures Marked(heap, c, c)
  {
    assert c.gray == [] + c.gray && NewGrays(heap, c, c, []);
  }

  /** Marking o alone, then all that o refers to, settles o. */
  lemma SettleThrough(heap: map<Ref, Body>, c: Colours, o: Ref, c1: Colours, r: Colours)
    requires Coloured(heap, c) && IsWhite(c, o)
    requires heap[o].Udata? || heap[o].Open?
    requires c1 == SetMark(c, o, if heap[o].Udata? then Black else Gray)
    requires Marked(heap, c1, r)
    requires forall b :: Some(b) in Values(heap, o) ==> !IsWhite(r, b)
    ensures Marked(heap, c, r)
  {
    assert NoWhiteChild(heap, r, o);
    var n :| r.gray == n + c1.gray && NewGrays(heap, c1, r, n);
    assert NewGrays(heap, c, r, n);
  }

  /** A closed upvalue turns black only after its content has been marked. */
  lemma SettleClosed(heap: map<Ref, Body>, c: Colours, o: Ref, c1: Colours, c2: Colours, r: Colours)
    requires Coloured(heap, c) && IsWhite(c, o) && heap[o].Closed?
    requires c1 == SetMark(c, o, Gray)
    requires Marked(heap, c1, c2)
    requires forall b :: Some(b) in Values(heap, o) ==> !IsWhite(c2, b)
    requires r == SetMark(c2, o, Black)
    ensures Marked(heap, c, r)
  {
    assert forall x :: IsWhite(c2, x) == IsWhite(r, x);
    assert NoWhiteChild(heap, r, o);
    var n :| c2.gray == n + c1.gray && NewGrays(heap, c1, c2, n);
    assert NewGrays(heap, c, r, n);
    forall x | IsWhite(c, x) && !IsWhite(r, x)
      ensures Settled(heap, r, x)
    {
      if x != o {
        assert Settled(heap, c2, x);
      }
    }
  }

  lemma {:induction false} MarkObjectMarks(heap: map<Ref, Body>, c: Colours, o: Ref)
    requires Coloured(heap, c)
    ensures Marked(heap, c, MarkObject(heap, c, o)) && Coloured(heap, MarkObject(heap, c, o))
    ensures !IsWhite(MarkObject(heap, c, o), o)
    decreases Whites(c), 0
  {
    hide Marked;
    if !IsWhite(c, o) {
      MarkedReflexive(heap, c);
    } else {
      var c1 := SetMark(c, o, Gray);
      assert o in Whites(c) && o !in Whites(c1);
      match heap[o]
      case Udata(slots) =>
        var c2 := SetMark(c1, o, Black);
        assert Whites(c2) == Whites(c1);
        MarkValuesMarks(heap, c2, slots);
        assert c2.mark == c.mark[o := Black];
        SettleThrough(heap, c, o, c2, MarkObject(heap, c, o));
      case Closed(v) =>
        MarkValuesMarks(heap, c1, [v]);
        SettleClosed(heap, c, o, c1, MarkValues(heap, c1, [v]), MarkObject(heap, c, o));
      case Open(_, _) =>
        MarkValuesMarks(heap, c1, Values(heap, o));
        SettleThrough(heap, c, o, c1, MarkObject(heap, c, o));
      case Str(_) => MarkedString(heap, c, o);
      case _ => MarkedListed(heap, c, o);
    }
  }

  lemma MarkedString(heap: map<Ref, Body>, c: Colours, o: Ref)
    requires Coloured(heap, c) && IsWhite(c, o) && heap[o].Str?
    ensures Marked(heap, c, SetMark(c, o, Gray))
  {
    assert c.gray == [] + c.gray && NewGrays(heap, c, SetMark(c, o, Gray), []);
  }

  lemma MarkedListed(heap: map<Ref, Body>, c: Colours, o: Ref)
    requires Coloured(heap, c) && IsWhite(c, o) && heap[o].Listable()
    ensures Marked(heap, c, SetMark(c, o, Gray).(gray := [o] + c.gray))
  {
    assert NewGrays(heap, c, SetMark(c, o, Gray).(gray := [o] + c.gray), [o]);
  }

  lemma {:induction false} MarkValuesMarks(heap: map<Ref, Body>, c: Colours, vs: seq<Value>)
    requires Coloured(heap, c)
    ensures Marked(heap, c, MarkValues(heap, c, vs)) && Coloured(heap, MarkValues(heap, c, vs))
    ensures forall b :: Some(b) in vs ==> !IsWhite(MarkValues(heap, c, vs), b)
    decreases Whites(c), |vs| + 1
  {
    if |vs| == 0 {
      MarkedReflexive(heap, c);
    } else {
      var c1 := if vs[0].Some? then MarkObject(heap, c, vs[0].value) else c;
      assert Whites(c1) == Whites(c) || Whites(c1) < Whites(c);
      if vs[0].Some? {
        MarkObjectMarks(heap, c, vs[0].value);
      } else {
        MarkedReflexive(heap, c);
      }
      MarkValuesMarks(heap, c1, vs[1..]);
      MarkedTransitive(heap, c, c1, MarkValues(heap, c, vs));
    }
  }

  // ---- The tri-colour invariant ----

  /** A gray object that has to be visited again is in one of the two lists. */
  ghost predicate Listed(heap: map<Ref, Body>, c: Colours, x: Ref)
    requires x in heap
  {
    match heap[x]
    case Func(_) => x in c.gray
    case Proto(_) => x in c.gray
    case Table(_) => x in c.gray || x in c.grayagain
    case Thread(_) => x in c.gray || x in c.grayagain
    case Str(_) => true
    case Open(_, _) => true
    case _ => false
  }

  /** The lists of gray objects: no object is chained twice. */
  ghost predicate GrayLists(heap: map<Ref, Body>, c: Colours) {
    && NoDup(c.gray) && NoDup(c.grayagain)
    && (forall x :: x in c.gray ==> x in heap && heap[x].Listable() && IsGray(c, x) && x !in c.grayagain)
    && (forall x :: x in c.grayagain ==> x in heap && (heap[x].Table? || heap[x].Thread?) && IsGray(c, x))
  }

  ghost predicate BlackKinds(heap: map<Ref, Body>, c: Colours) {
    forall x :: IsBlack(c, x) && x in heap ==> !heap[x].Str? && !heap[x].Open? && !heap[x].Thread?
  }

  /** No black object refers to a white one, except perhaps those in `busy`. */
  ghost predicate TriColour(heap: map<Ref, Body>, c: Colours, busy: set<Ref>) {
    && Coloured(heap, c)
    && BlackKinds(heap, c)
    && GrayLists(heap, c)
    && (forall x :: IsBlack(c, x) && x !in busy ==> NoWhiteChild(heap, c, x))
    && (forall x :: IsGray(c, x) ==> Listed(heap, c, x))
  }

  /** Objects never turn back to white while marking goes on. */
  ghost predicate Darkens(c: Colours, r: Colours) {
    && r.mark.Keys == c.mark.Keys
    && (forall x :: IsWhite(r, x) ==> IsWhite(c, x) && r.mark[x] == c.mark[x])
  }

  lemma MarkedGrayLists(heap: map<Ref, Body>, c: Colours, r: Colours)
    requires GrayLists(heap, c) && Marked(heap, c, r)
    ensures GrayLists(heap, r)
  {
    var n :| r.gray == n + c.gray && NewGrays(heap, c, r, n);
    NoDupConcat(n, c.gray);
  }

  lemma MarkedTriColour(heap: map<Ref, Body>, c: Colours, r: Colours, busy: set<Ref>)
    requires TriColour(heap, c, busy) && Marked(heap, c, r) && Coloured(heap, r)
    ensures TriColour(heap, r, busy) && Darkens(c, r)
  {
    MarkedGrayLists(heap, c, r);
    assert forall x :: x in c.gray ==> x in r.gray;
    forall x | IsBlack(r, x) && x !in busy ensures NoWhiteChild(heap, r, x) {
      if !IsWhite(c, x) {
        assert NoWhiteChild(heap, c, x);
      } else {
        assert Settled(heap, r, x);
      }
    }
    forall x | IsGray(r, x) ensures Listed(heap, r, x) {
      if !IsWhite(c, x) {
        assert Listed(heap, c, x);
      } else {
        assert Settled(heap, r, x);
      }
    }
  }

  lemma TakeGrayTriColour(heap: map<Ref, Body>, c: Colours)
    requires TriColour(heap, c, {}) && |c.gray| > 0
    ensures TriColour(heap, TakeGray(heap, c), {c.gray[0]})
    ensures forall x :: IsWhite(TakeGray(heap, c), x) == IsWhite(c, x)
  {
    var o, c1 := c.gray[0], TakeGray(heap, c);
    assert o in c.gray && o !in c.grayagain;
    assert c.gray == [o] + c.gray[1..];
    assert o !in c.gray[1..];
    if heap[o].Thread? {
      NoDupConcat([o], c.grayagain);
    }
    forall x | IsGray(c1, x) ensures Listed(heap, c1, x) {
      assert IsGray(c, x) && Listed(heap, c, x);
    }
  }

  /** propagatemark keeps the tri-colour invariant, and visits everything its object refers to. */
  lemma PropagateMarkTriColour(heap: map<Ref, Body>, c: Colours)
    requires TriColour(heap, c, {}) && |c.gray| > 0
    ensures TriColour(heap, PropagateMark(heap, c), {}) && Darkens(c, PropagateMark(heap, c))
    ensures NoWhiteChild(heap, PropagateMark(heap, c), c.gray[0])
    ensures Marked(heap, TakeGray(heap, c), PropagateMark(heap, c))
  {
    var c1 := TakeGray(heap, c);
    TakeGrayTriColour(heap, c);
    MarkValuesMarks(heap, c1, Values(heap, c.gray[0]));
    MarkedTriColour(heap, c1, PropagateMark(heap, c), {c.gray[0]});
  }

  /** Every gray open upvalue has had its value marked. */
  ghost predicate UpvalsDone(heap: map<Ref, Body>, c: Colours) {
    forall x :: IsGray(c, x) && x in heap && heap[x].Open? ==> NoWhiteChild(heap, c, x)
  }

  /** Every thread waiting in `grayagain` has had its stack marked, and nothing else waits there. */
  ghost predicate ThreadsDone(heap: map<Ref, Body>, c: Colours) {
    forall x :: x in c.grayagain ==> x in heap && heap[x].Thread? && NoWhiteChild(heap, c, x)
  }

  /** The facts that hold at any moment of the mark phase, the atomic step included. */
  ghost predicate Marking(heap: map<Ref, Body>, c: Colours, upvals: bool, threads: bool) {
    && TriColour(heap, c, {})
    && (upvals ==> UpvalsDone(heap, c))
    && (threads ==> ThreadsDone(heap, c))
  }

  lemma MarkedMarking(heap: map<Ref, Body>, c: Colours, r: Colours, upvals: bool, threads: bool)
    requires Marking(heap, c, upvals, threads) && Marked(heap, c, r) && Coloured(heap, r)
    ensures Marking(heap, r, upvals, threads) && Darkens(c, r)
  {
    MarkedTriColour(heap, c, r, {});
    if upvals {
      forall x | IsGray(r, x) && x in heap && heap[x].Open? ensures NoWhiteChild(heap, r, x) {
        if IsWhite(c, x) {
          assert Settled(heap, r, x);
        } else {
          assert NoWhiteChild(heap, c, x);
        }
      }
    }
    if threads {
      assert forall x :: x in c.grayagain ==> NoWhiteChild(heap, c, x);
    }
  }

  lemma MarkValuesMarking(heap: map<Ref, Body>, c: Colours, vs: seq<Value>, upvals: bool, threads: bool)
    requires Marking(heap, c, upvals, threads)
    ensures var r := MarkValues(heap, c, vs);
            Marking(heap, r, upvals, threads) && Darkens(c, r) && forall b :: Some(b) in vs ==> !IsWhite(r, b)
  {
    MarkValuesMarks(heap, c, vs);
    MarkedMarking(heap, c, MarkValues(heap, c, vs), upvals, threads);
  }

  lemma MarkObjectMarking(heap: map<Ref, Body>, c: Colours, o: Ref, upvals: bool, threads: bool)
    requires Marking(heap, c, upvals, threads)
    ensures var r := MarkObject(heap, c, o);
            Marking(heap, r, upvals, threads) && Darkens(c, r) && !IsWhite(r, o)
  {
    MarkObjectMarks(heap, c, o);
    MarkedMarking(heap, c, MarkObject(heap, c, o), upvals, threads);
  }

  lemma PropagateMarkMarking(heap: map<Ref, Body>, c: Colours, upvals: bool, threads: bool)
    requires Marking(heap, c, upvals, threads) && |c.gray| > 0
    ensures var r := PropagateMark(heap, c);
            Marking(heap, r, upvals, threads) && Darkens(c, r)
  {
    PropagateMarkTriColour(heap, c);
    var o, r := c.gray[0], PropagateMark(heap, c);
    if upvals {
      var c1 := TakeGray(heap, c);
      forall x | IsGray(r, x) && x in heap && heap[x].Open? ensures NoWhiteChild(heap, r, x) {
        if IsWhite(c1, x) {
          assert Settled(heap, r, x);
        } else {
          assert NoWhiteChild(heap, c, x);
        }
      }
    }
    if threads {
      assert forall x :: x in c.grayagain ==> NoWhiteChild(heap, c, x);
    }
  }

  lemma {:induction false} PropagateAllMarking(heap: map<Ref, Body>, c: Colours, upvals: bool, threads: bool)
    requires Marking(heap, c, upvals, threads)
    ensures var r := PropagateAll(heap, c);
            Marking(heap, r, upvals, threads) && Darkens(c, r)
    decreases Whites(c), |c.gray|
  {
    if |c.gray| > 0 {
      var c1 := PropagateMark(heap, c);
      assert Whites(c1) == Whites(c) || Whites(c1) < Whites(c);
      PropagateMarkMarking(heap, c, upvals, threads);
      PropagateAllMarking(heap, c1, upvals, threads);
    }
  }

  /** remarkupvals visits every gray open upvalue of the list; those marked meanwhile are settled. */
  lemma {:induction false} RemarkUpvalsMarking(heap: map<Ref, Body>, c: Colours, uvs: seq<Ref>)
    requires Marking(heap, c, false, false)
    requires forall x :: IsGray(c, x) && x in heap && heap[x].Open? ==> x in uvs || NoWhiteChild(heap, c, x)
    ensures var r := RemarkUpvals(heap, c, uvs);
            Marking(heap, r, true, false) && Darkens(c, r)
    decreases |uvs|
  {
    if |uvs| > 0 {
      var c1 := if IsGray(c, uvs[0]) then MarkValues(heap, c, Values(heap, uvs[0])) else c;
      if IsGray(c, uvs[0]) {
        MarkValuesMarking(heap, c, Values(heap, uvs[0]), false, false);
        MarkValuesMarks(heap, c, Values(heap, uvs[0]));
      }
      forall x | IsGray(c1, x) && x in heap && heap[x].Open?
        ensures x in uvs[1..] || NoWhiteChild(heap, c1, x)
      {
        if IsWhite(c, x) {
          assert Settled(heap, c1, x);
        } else if x !in uvs {
          assert NoWhiteChild(heap, c, x);
        } else if x != uvs[0] {
          assert x in uvs[1..];
        }
      }
      RemarkUpvalsMarking(heap, c1, uvs[1..]);
    }
  }

  /** Every marked object refers to marked objects only. */
  ghost predicate MarkedClosed(heap: map<Ref, Body>, c: Colours) {
    forall x, b :: x in heap && !IsWhite(c, x) && Edge(heap, x, b) ==> !IsWhite(c, b)
  }

  /** `atomic` takes the objects caught by the back barrier, and the threads, for a last visit. */
  lemma RevisitGrayAgain(heap: map<Ref, Body>, c: Colours)
    requires Marking(heap, c, true, false) && |c.gray| == 0
    ensures Marking(heap, c.(gray := c.grayagain, grayagain := []), true, true)
  {
    var d := c.(gray := c.grayagain, grayagain := []);
    assert forall x :: IsWhite(d, x) == IsWhite(c, x);
    assert forall x :: NoWhiteChild(heap, c, x) ==> NoWhiteChild(heap, d, x);
    forall x | IsGray(d, x) ensures Listed(heap, d, x) {
      assert Listed(heap, c, x);
    }
  }

  lemma NothingGrayLeft(heap: map<Ref, Body>, c: Colours)
    requires Marking(heap, c, true, true) && |c.gray| == 0
    ensures MarkedClosed(heap, c)
  {
    forall x, b | x in heap && !IsWhite(c, x) && Edge(heap, x, b) ensures !IsWhite(c, b) {
      if IsGray(c, x) {
        assert Listed(heap, c, x);
        assert !heap[x].Str?;
        assert NoWhiteChild(heap, c, x);
      } else {
        assert NoWhiteChild(heap, c, x);
      }
    }
  }

  /** The atomic step completes the marking, whatever the mutator wrote to stacks without a barrier. */
  lemma AtomicMarkCompletes(heap: map<Ref, Body>, c: Colours, g: Roots, uvs: seq<Ref>)
    requires TriColour(heap, c, {}) && |c.gray| == 0
    requires !IsWhite(c, g.mainthread) && !IsWhite(c, g.registry)
    requires forall x :: x in heap && heap[x].Open? ==> x in uvs
    ensures var r := AtomicMark(heap, c, g, uvs);
            && TriColour(heap, r, {}) && Darkens(c, r)
            && MarkedClosed(heap, r)
            && forall o :: Root(g, o) ==> !IsWhite(r, o)
  {
    hide PropagateAll, MarkValues, MarkObject, RemarkUpvals, NoWhiteChild, GrayLists, Listed, UpvalsDone, ThreadsDone,
         Coloured, BlackKinds;
    RemarkUpvalsMarking(heap, c, uvs);
    var c0 := RemarkUpvals(heap, c, uvs);
    PropagateAllMarking(heap, c0, true, false);
    var c1 := PropagateAll(heap, c0);
    MarkObjectMarking(heap, c1, g.running, true, false);
    var c2 := MarkObject(heap, c1, g.running);
    MarkValuesMarking(heap, c2, g.mt, true, false);
    var m2 := MarkValues(heap, c2, g.mt);
    PropagateAllMarking(heap, m2, true, false);
    var c3 := PropagateAll(heap, m2);
    var c4 := c3.(gray := c3.grayagain, grayagain := []);
    RevisitGrayAgain(heap, c3);
    PropagateAllMarking(heap, c4, true, true);
    NothingGrayLeft(heap, PropagateAll(heap, c4));
  }

  /** The tri-colour invariant holds wherever `atomic` propagates. */
  lemma AtomicStages(heap: map<Ref, Body>, c: Colours, g: Roots, uvs: seq<Ref>)
    requires TriColour(heap, c, {})
    requires forall x :: x in heap && heap[x].Open? ==> x in uvs
    ensures var c0 := RemarkUpvals(heap, c, uvs);
            var c2 := MarkValues(heap, MarkObject(heap, PropagateAll(heap, c0), g.running), g.mt);
            var c3 := PropagateAll(heap, c2);
            && TriColour(heap, c0, {}) && TriColour(heap, c2, {})
            && TriColour(heap, c3.(gray := c3.grayagain, grayagain := []), {})
  {
    RemarkUpvalsMarking(heap, c, uvs);
    var c0 := RemarkUpvals(heap, c, uvs);
    PropagateAllMarking(heap, c0, true, false);
    var c1 := PropagateAll(heap, c0);
    MarkObjectMarking(heap, c1, g.running, true, false);
    var m1 := MarkObject(heap, c1, g.running);
    MarkValuesMarking(heap, m1, g.mt, true, false);
    PropagateAllMarking(heap, MarkValues(heap, m1, g.mt), true, false);
    RevisitGrayAgain(heap, PropagateAll(heap, MarkValues(heap, m1, g.mt)));
  }
}
