/**
 What the captures of a pattern hold: groups and back references by the text they stand for, and balanced text as
 nested brackets.
 */
module WrittenCaptures {
  import opened Patterns
  import opened Matching
  import opened WrittenPatterns

  // ---- Balanced text ----

  /** What stands between an opening and its closing character. */
  datatype Inside = Nothing | Other(c: char, rest: Inside) | Nested(inner: Inside, rest: Inside)

  function Text(w: Inside, x: char, y: char): string {
    match w
    case Nothing => ""
    case Other(c, rest) => [c] + Text(rest, x, y)
    case Nested(inner, rest) => [x] + Text(inner, x, y) + [y] + Text(rest, x, y)
  }

  /** Opening and closing characters occur in pairs; where they are the same they cannot nest. */
  predicate Paired(w: Inside, x: char, y: char) {
    match w
    case Nothing => true
    case Other(c, rest) => c != x && c != y && Paired(rest, x, y)
    case Nested(inner, rest) => x != y && Paired(inner, x, y) && Paired(rest, x, y)
  }

  ghost predicate Encloses(src: string, s: nat, e: nat, x: char, y: char) {
    s < e <= |src| && exists w :: Paired(w, x, y) && src[s..e] == [x] + Text(w, x, y) + [y]
  }

  lemma DepthStep(src: string, s: nat, q: nat, x: char, y: char)
    requires s < q < |src|
    ensures Depth(src, s, q + 1, x, y) ==
            Depth(src, s, q, x, y) + if src[q] == y then -1 else if src[q] == x then 1 else 0
  {
  }

  /** From q to e the depth comes back to where it was, and is never less on the way. */
  ghost predicate Stays(src: string, s: nat, q: nat, e: nat, x: char, y: char) {
    && s < q <= e <= |src| && Depth(src, s, e, x, y) == Depth(src, s, q, x, y)
    && forall i :: q <= i <= e ==> Depth(src, s, i, x, y) >= Depth(src, s, q, x, y)
  }

  lemma StaysOn(src: string, s: nat, q: nat, m: nat, e: nat, x: char, y: char)
    requires Stays(src, s, q, m, x, y) && Stays(src, s, m, e, x, y)
    ensures Stays(src, s, q, e, x, y)
  {
    hide Depth;
  }

  lemma StaysAround(src: string, s: nat, q: nat, m: nat, x: char, y: char)
    requires x != y && s < q < m < |src| && src[q] == x && src[m] == y && Stays(src, s, q + 1, m, x, y)
    ensures Stays(src, s, q, m + 1, x, y)
  {
    hide Depth;
    DepthStep(src, s, q, x, y);
    DepthStep(src, s, m, x, y);
  }

  lemma StaysOver(src: string, s: nat, q: nat, x: char, y: char)
    requires s < q < |src| && src[q] != x && src[q] != y
    ensures Stays(src, s, q, q + 1, x, y)
  {
  }

  /** Paired text leaves the depth as it was. */
  lemma {:induction false} PairedStays(src: string, s: nat, q: nat, w: Inside, x: char, y: char)
    requires s < q <= |src| && Paired(w, x, y) && At(src, q, Text(w, x, y))
    ensures Stays(src, s, q, q + |Text(w, x, y)|, x, y)
    decreases w
  {
    hide Depth, At;
    match w
    case Nothing =>
    case Other(c, rest) =>
      AtSplit(src, q, [c], Text(rest, x, y));
      AtChar(src, q, [c], 0);
      StaysOver(src, s, q, x, y);
      PairedStays(src, s, q + 1, rest, x, y);
      StaysOn(src, s, q, q + 1, q + |Text(w, x, y)|, x, y);
    case Nested(inner, rest) =>
      var m := q + 1 + |Text(inner, x, y)|;
      NestedAt(src, q, inner, rest, x, y);
      PairedStays(src, s, q + 1, inner, x, y);
      StaysAround(src, s, q, m, x, y);
      PairedStays(src, s, m + 1, rest, x, y);
      StaysOn(src, s, q, m + 1, q + |Text(w, x, y)|, x, y);
  }

  lemma NestedAt(src: string, q: nat, inner: Inside, rest: Inside, x: char, y: char)
    requires At(src, q, Text(Nested(inner, rest), x, y))
    ensures var m := q + 1 + |Text(inner, x, y)|;
            && At(src, q + 1, Text(inner, x, y)) && At(src, m + 1, Text(rest, x, y))
            && q < m < |src| && src[q] == x && src[m] == y
            && q + |Text(Nested(inner, rest), x, y)| == m + 1 + |Text(rest, x, y)|
  {
    hide At;
    var a, b := Text(inner, x, y), Text(rest, x, y);
    assert Text(Nested(inner, rest), x, y) == [x] + (a + ([y] + b));
    AtSplit(src, q, [x], a + ([y] + b));
    AtSplit(src, q + 1, a, [y] + b);
    AtSplit(src, q + 1 + |a|, [y], b);
    AtChar(src, q, [x], 0);
    AtChar(src, q + 1 + |a|, [y], 0);
  }

  /** The depth changes by one at a time: it first goes below a value by having that value. */
  lemma FirstAt(src: string, s: nat, q: nat, r: nat, v: int, x: char, y: char) returns (f: nat)
    requires s < q < r <= |src| && Depth(src, s, r, x, y) <= v < Depth(src, s, q, x, y)
    ensures q < f <= r && Depth(src, s, f, x, y) == v && forall i :: q <= i < f ==> Depth(src, s, i, x, y) > v
    decreases r - q
  {
    hide Depth;
    DepthStep(src, s, q, x, y);
    if Depth(src, s, q + 1, x, y) == v {
      f := q + 1;
    } else {
      f := FirstAt(src, s, q + 1, r, v, x, y);
    }
  }

  lemma Cut(src: string, q: nat, f: nat, r: nat)
    requires q + 1 < f < r <= |src|
    ensures src[q..r - 1] == [src[q]] + src[q + 1..f - 1] + [src[f - 1]] + src[f..r - 1]
  {
    assert src[q..r - 1] == src[q..f] + src[f..r - 1];
    assert src[q..f] == src[q..f - 1] + [src[f - 1]];
    assert src[q..f - 1] == [src[q]] + src[q + 1..f - 1];
  }

  /** Text before the depth goes down is paired. */
  lemma {:induction false} DepthPaired(src: string, s: nat, q: nat, r: nat, x: char, y: char) returns (w: Inside)
    requires s < q < r <= |src| && Depth(src, s, r, x, y) == Depth(src, s, q, x, y) - 1
    requires forall i :: q <= i < r ==> Depth(src, s, i, x, y) >= Depth(src, s, q, x, y)
    ensures Paired(w, x, y) && src[q..r - 1] == Text(w, x, y) && src[r - 1] == y
    decreases r - q
  {
    hide Depth;
    DepthStep(src, s, q, x, y);
    if src[q] == y {
      w := Nothing;
      assert r == q + 1;
    } else if src[q] == x {
      var f := FirstAt(src, s, q + 1, r, Depth(src, s, q, x, y), x, y);
      var inner := DepthPaired(src, s, q + 1, f, x, y);
      var rest := DepthPaired(src, s, f, r, x, y);
      w := Nested(inner, rest);
      Cut(src, q, f, r);
    } else {
      var rest := DepthPaired(src, s, q + 1, r, x, y);
      w := Other(src[q], rest);
      assert src[q..r - 1] == [src[q]] + src[q + 1..r - 1];
    }
  }

  /** What `%bxy` takes is an opening character, paired text and a closing one. */
  lemma BalancedIffEncloses(src: string, s: nat, e: nat, x: char, y: char)
    ensures Balanced(src, s, e, x, y) <==> Encloses(src, s, e, x, y)
  {
    if Balanced(src, s, e, x, y) {
      var w := DepthPaired(src, s, s + 1, e, x, y);
      assert src[s..e] == [x] + Text(w, x, y) + [y];
    }
    if Encloses(src, s, e, x, y) {
      var w :| Paired(w, x, y) && src[s..e] == [x] + Text(w, x, y) + [y];
      EnclosesDepth(src, s, e, x, y, w);
    }
  }

  lemma EnclosesDepth(src: string, s: nat, e: nat, x: char, y: char, w: Inside)
    requires s < e <= |src| && Paired(w, x, y) && src[s..e] == [x] + Text(w, x, y) + [y]
    ensures Balanced(src, s, e, x, y)
  {
    hide Text;
    var a := Text(w, x, y);
    assert At(src, s, [x] + (a + [y])) by {
      assert [x] + (a + [y]) == src[s..e];
    }
    AtSplit(src, s, [x], a + [y]);
    AtSplit(src, s + 1, a, [y]);
    AtChar(src, s, [x], 0);
    AtChar(src, s + 1 + |a|, [y], 0);
    PairedStays(src, s, s + 1, w, x, y);
    DepthStep(src, s, s + 1 + |a|, x, y);
  }

  // ---- Patterns with groups ----

  datatype Pattern =
    | Nil
    | Item(part: Part, rest: Pattern)
    | Group(inner: Pattern, rest: Pattern)
    | Here(rest: Pattern)
    | Same(digit: char, rest: Pattern)

  /** Items are parts that capture nothing. */
  predicate Plain(p: Pattern) {
    match p
    case Nil => true
    case Item(part, rest) => (part.Times? || part.Pair? || part.Border?) && Plain(rest)
    case Group(inner, rest) => Plain(inner) && Plain(rest)
    case Here(rest) => Plain(rest)
    case Same(d, rest) => '1' <= d <= '9' && Plain(rest)
  }

  function Parts(p: Pattern): seq<Part> {
    match p
    case Nil => []
    case Item(part, rest) => [part] + Parts(rest)
    case Group(inner, rest) => [OpenCapture] + (Parts(inner) + ([CloseCapture] + Parts(rest)))
    case Here(rest) => [OpenPosition] + Parts(rest)
    case Same(d, rest) => [Again(d)] + Parts(rest)
  }

  /** An item stands for the text from s to e. */
  ghost predicate Finds(part: Part, src: string, s: nat, e: nat) {
    match part
    case Times(a, rep) => s <= e && Count(rep, e - s) && Holds(a, src, s, e - s)
    case Pair(x, y) => Encloses(src, s, e, x, y)
    case Border(es, complement) => s == e <= |src| && Enters(es, complement, src, s)
    case _ => false
  }

  /** The digit 1 stands for the first capture. */
  function Index(d: char): int { d as int - 49 }

  /** The text of capture i, once its group is complete, from s to e again. */
  predicate Recalls(caps: Captures, i: int, src: string, s: nat, e: nat) {
    && 0 <= i < |caps| && s <= e <= |src|
    && caps[i].len == e - s && caps[i].init + (e - s) <= |src|
    && src[s..e] == src[caps[i].init..caps[i].init + (e - s)]
  }

  /**
   The pattern stands for the text from s to e.  Captures are numbered by where they begin; one holds the start and
   the length of the text that its own group stands for, -1 until the group ends, or -2 for a position.
   */
  ghost predicate Reads(p: Pattern, src: string, s: nat, caps: Captures, e: nat, caps': Captures) {
    match p
    case Nil => e == s && caps' == caps
    case Item(part, rest) => exists m: nat :: Finds(part, src, s, m) && Reads(rest, src, m, caps, e, caps')
    case Group(inner, rest) =>
      && |caps| < 32
      && exists m: nat, c :: Reads(inner, src, s, caps + [Capture(s, -1)], m, c) && |caps| < |c|
                             && Reads(rest, src, m, c[|caps| := Capture(s, m - s)], e, caps')
    case Here(rest) => |caps| < 32 && Reads(rest, src, s, caps + [Capture(s, -2)], e, caps')
    case Same(d, rest) =>
      exists m: nat :: Recalls(caps, Index(d), src, s, m) && Reads(rest, src, m, caps, e, caps')
  }

  // ---- The matcher takes the groups so ----

  lemma FindsInside(part: Part, src: string, s: nat, e: nat)
    ensures Finds(part, src, s, e) ==> s <= e <= |src|
  {
  }

  lemma PartFinds(part: Part, qs: seq<Part>, src: string, s: nat, caps: Captures, e: nat, caps': Captures)
    requires part.Times? || part.Pair? || part.Border?
    ensures Spells([part] + qs, src, s, caps, e, caps') <==>
            exists m: nat :: Finds(part, src, s, m) && Spells(qs, src, m, caps, e, caps')
  {
    hide Holds, Count, Balanced, Encloses, Enters;
    forall m: nat ensures Finds(part, src, s, m) ==> s <= m <= |src| {
      FindsInside(part, src, s, m);
    }
    var ps := [part] + qs;
    assert ps[0] == part && ps[1..] == qs;
    match part
    case Times(a, rep) =>
      if s <= |src| {
        if k: nat :| Count(rep, k) && Holds(a, src, s, k) && Spells(qs, src, s + k, caps, e, caps') {
          assert Finds(part, src, s, s + k);
        }
        if m: nat :| Finds(part, src, s, m) && Spells(qs, src, m, caps, e, caps') {
          assert Count(rep, m - s) && Spells(qs, src, s + (m - s), caps, e, caps');
        }
      }
    case Pair(x, y) =>
      forall b: nat ensures Balanced(src, s, b, x, y) <==> Finds(part, src, s, b) {
        BalancedIffEncloses(src, s, b, x, y);
      }
    case Border(es, complement) =>
      assert Enters(es, complement, src, s) && s <= |src| ==> Finds(part, src, s, s);
  }
  /** What was captured before stays; every new capture is complete. */
  lemma {:induction false} ReadsGrow(p: Pattern, src: string, s: nat, caps: Captures, e: nat, caps': Captures)
    requires Reads(p, src, s, caps, e, caps') && Behind(caps, s)
    ensures s <= e && caps <= caps' && Behind(caps', e)
    ensures forall i :: |caps| <= i < |caps'| ==> caps'[i].len != -1
    decreases p
  {
    hide Encloses, Holds, Count, Enters;
    match p
    case Nil =>
    case Item(part, rest) =>
      var m: nat :| Finds(part, src, s, m) && Reads(rest, src, m, caps, e, caps');
      FindsInside(part, src, s, m);
      BehindMore(caps, s, m);
      ReadsGrow(rest, src, m, caps, e, caps');
    case Group(inner, rest) =>
      var m: nat, c :| Reads(inner, src, s, caps + [Capture(s, -1)], m, c) && |caps| < |c|
                       && Reads(rest, src, m, c[|caps| := Capture(s, m - s)], e, caps');
      ReadsGrow(inner, src, s, caps + [Capture(s, -1)], m, c);
      ReadsGrow(rest, src, m, c[|caps| := Capture(s, m - s)], e, caps');
    case Here(rest) => ReadsGrow(rest, src, s, caps + [Capture(s, -2)], e, caps');
    case Same(d, rest) =>
      var m: nat :| Recalls(caps, Index(d), src, s, m) && Reads(rest, src, m, caps, e, caps');
      BehindMore(caps, s, m);
      ReadsGrow(rest, src, m, caps, e, caps');
  }

  /** The capture that a closing parenthesis closes is that of its own group. */
  lemma ClosesOwn(qs: seq<Part>, src: string, s: nat, caps: Captures, m: nat, c: Captures, e: nat, caps': Captures)
    requires |caps| < |c| && caps + [Capture(s, -1)] <= c && s <= m
    requires forall i :: |caps| < i < |c| ==> c[i].len != -1
    ensures Spells([CloseCapture] + qs, src, m, c, e, caps') <==>
            m <= |src| && Spells(qs, src, m, c[|caps| := Capture(s, m - s)], e, caps')
  {
    var ps := [CloseCapture] + qs;
    assert ps[0] == CloseCapture && ps[1..] == qs;
    assert c[|caps|] == Capture(s, -1);
    assert ToClose(c) == |caps|;
  }

  lemma SpellsInside(ps: seq<Part>, src: string, s: nat, caps: Captures, e: nat, caps': Captures)
    ensures Spells(ps, src, s, caps, e, caps') ==> s <= |src|
  {
  }

  lemma OpensGroup(qs: seq<Part>, src: string, s: nat, caps: Captures, e: nat, caps': Captures)
    ensures Spells([OpenCapture] + qs, src, s, caps, e, caps') <==>
            s <= |src| && |caps| < 32 && Spells(qs, src, s, caps + [Capture(s, -1)], e, caps')
    ensures Spells([OpenPosition] + qs, src, s, caps, e, caps') <==>
            s <= |src| && |caps| < 32 && Spells(qs, src, s, caps + [Capture(s, -2)], e, caps')
  {
    assert ([OpenCapture] + qs)[1..] == qs && ([OpenPosition] + qs)[1..] == qs;
  }

  lemma RecallsIff(d: char, src: string, s: nat, caps: Captures, m: nat)
    requires '1' <= d <= '9'
    ensures Recalls(caps, Index(d), src, s, m) <==>
            && s <= |src| && Referable(caps, d) && Repeats(Subject(src, ""), s, Referred(caps, d))
            && m == s + Referred(caps, d).len
  {
    var i := Index(d);
    if i < |caps| && 0 <= caps[i].len {
      assert s + caps[i].len == m ==> m - s == caps[i].len;
    }
  }

  lemma FindsAgain(d: char, qs: seq<Part>, src: string, s: nat, caps: Captures, e: nat, caps': Captures)
    requires '1' <= d <= '9'
    ensures Spells([Again(d)] + qs, src, s, caps, e, caps') <==>
            exists m: nat :: Recalls(caps, Index(d), src, s, m) && Spells(qs, src, m, caps, e, caps')
  {
    hide Recalls, Repeats;
    var ps := [Again(d)] + qs;
    assert ps[0] == Again(d) && ps[1..] == qs;
    forall m: nat
      ensures Recalls(caps, Index(d), src, s, m) <==>
              && s <= |src| && Referable(caps, d) && Repeats(Subject(src, ""), s, Referred(caps, d))
              && m == s + Referred(caps, d).len
    {
      RecallsIff(d, src, s, caps, m);
    }
    if Spells(ps, src, s, caps, e, caps') {
      RepeatsText(Subject(src, ""), s, Referred(caps, d));
      var m: nat := s + Referred(caps, d).len;
      assert Recalls(caps, Index(d), src, s, m);
    }
  }

  lemma SameReads(p: Pattern, src: string, s: nat, caps: Captures, e: nat, caps': Captures) returns (m: nat)
    requires p.Same? && Reads(p, src, s, caps, e, caps')
    ensures Recalls(caps, Index(p.digit), src, s, m) && Reads(p.rest, src, m, caps, e, caps')
  {
    match p
    case Same(d, rest) => m :| Recalls(caps, Index(d), src, s, m) && Reads(rest, src, m, caps, e, caps');
  }

  lemma GroupReads(p: Pattern, src: string, s: nat, caps: Captures, e: nat, caps': Captures)
    returns (m: nat, c: Captures)
    requires p.Group? && Reads(p, src, s, caps, e, caps')
    ensures |caps| < 32 && Reads(p.inner, src, s, caps + [Capture(s, -1)], m, c) && |caps| < |c|
    ensures Reads(p.rest, src, m, c[|caps| := Capture(s, m - s)], e, caps')
  {
    match p
    case Group(inner, rest) =>
      m, c :| Reads(inner, src, s, caps + [Capture(s, -1)], m, c) && |caps| < |c|
              && Reads(rest, src, m, c[|caps| := Capture(s, m - s)], e, caps');
  }

  /** What follows the pattern takes up where its text ends. */
  ghost predicate ThenSpells(p: Pattern, qs: seq<Part>, src: string, s: nat, caps: Captures, e: nat, caps': Captures) {
    exists m: nat, c :: Reads(p, src, s, caps, m, c) && Spells(qs, src, m, c, e, caps')
  }

  lemma ThenItem(part: Part, rest: Pattern, qs: seq<Part>, src: string, s: nat, caps: Captures, e: nat, caps': Captures)
    ensures ThenSpells(Item(part, rest), qs, src, s, caps, e, caps') <==>
            exists m: nat :: Finds(part, src, s, m) && ThenSpells(rest, qs, src, m, caps, e, caps')
  {
    hide Finds, Spells;
    if m: nat, c :| Reads(Item(part, rest), src, s, caps, m, c) && Spells(qs, src, m, c, e, caps') {
      var k: nat :| Finds(part, src, s, k) && Reads(rest, src, k, caps, m, c);
      assert ThenSpells(rest, qs, src, k, caps, e, caps');
    }
    if k: nat :| Finds(part, src, s, k) && ThenSpells(rest, qs, src, k, caps, e, caps') {
      var m: nat, c :| Reads(rest, src, k, caps, m, c) && Spells(qs, src, m, c, e, caps');
      assert Reads(Item(part, rest), src, s, caps, m, c);
    }
  }

  lemma ThenSame(d: char, rest: Pattern, qs: seq<Part>, src: string, s: nat, caps: Captures, e: nat, caps': Captures)
    ensures ThenSpells(Same(d, rest), qs, src, s, caps, e, caps') <==>
            exists m: nat :: Recalls(caps, Index(d), src, s, m) && ThenSpells(rest, qs, src, m, caps, e, caps')
  {
    hide Spells;
    if m: nat, c :| Reads(Same(d, rest), src, s, caps, m, c) && Spells(qs, src, m, c, e, caps') {
      var k := SameReads(Same(d, rest), src, s, caps, m, c);
      assert ThenSpells(rest, qs, src, k, caps, e, caps');
    }
    if k: nat :| Recalls(caps, Index(d), src, s, k) && ThenSpells(rest, qs, src, k, caps, e, caps') {
      var m: nat, c :| Reads(rest, src, k, caps, m, c) && Spells(qs, src, m, c, e, caps');
      assert Reads(Same(d, rest), src, s, caps, m, c);
    }
  }

  /** After the text of the group, its capture is complete. */
  ghost predicate Completes(inner: Pattern, rest: Pattern, qs: seq<Part>, src: string, s: nat, caps: Captures, e: nat,
                            caps': Captures, m: nat, c: Captures) {
    && Reads(inner, src, s, caps + [Capture(s, -1)], m, c) && |caps| < |c| && s <= m
    && ThenSpells(rest, qs, src, m, c[|caps| := Capture(s, m - s)], e, caps')
  }

  lemma ThenGroup(inner: Pattern, rest: Pattern, qs: seq<Part>, src: string, s: nat, caps: Captures, e: nat,
                  caps': Captures)
    requires Behind(caps, s)
    ensures ThenSpells(Group(inner, rest), qs, src, s, caps, e, caps') <==>
            |caps| < 32 && exists m: nat, c :: Completes(inner, rest, qs, src, s, caps, e, caps', m, c)
  {
    hide Spells, Behind;
    var open := caps + [Capture(s, -1)];
    BehindWith(caps, s);
    var p := Group(inner, rest);
    if m: nat, c :| Reads(p, src, s, caps, m, c) && Spells(qs, src, m, c, e, caps') {
      var k, d := GroupReads(p, src, s, caps, m, c);
      ReadsGrow(inner, src, s, open, k, d);
      assert Completes(inner, rest, qs, src, s, caps, e, caps', k, d);
    }
    if |caps| < 32 {
      if k: nat, d :| Completes(inner, rest, qs, src, s, caps, e, caps', k, d) {
        var m: nat, c :| Reads(rest, src, k, d[|caps| := Capture(s, k - s)], m, c) && Spells(qs, src, m, c, e, caps');
        assert Reads(Group(inner, rest), src, s, caps, m, c);
      }
    }
  }

  lemma ThenHere(rest: Pattern, qs: seq<Part>, src: string, s: nat, caps: Captures, e: nat, caps': Captures)
    ensures ThenSpells(Here(rest), qs, src, s, caps, e, caps') <==>
            |caps| < 32 && ThenSpells(rest, qs, src, s, caps + [Capture(s, -2)], e, caps')
  {
    hide Spells;
    var here := caps + [Capture(s, -2)];
    if m: nat, c :| Reads(rest, src, s, here, m, c) && Spells(qs, src, m, c, e, caps') {
      assert |caps| < 32 ==> Reads(Here(rest), src, s, caps, m, c);
    }
  }

  /** The parts of a pattern, and parts that follow. */
  lemma {:induction false} PatternMeaning(p: Pattern, qs: seq<Part>, src: string, s: nat, caps: Captures, e: nat,
                                          caps': Captures)
    requires Plain(p) && Behind(caps, s)
    ensures Spells(Parts(p) + qs, src, s, caps, e, caps') <==> ThenSpells(p, qs, src, s, caps, e, caps')
    decreases p, 2
  {
    hide Spells, Behind, ThenSpells, Reads;
    match p
    case Nil =>
      assert Parts(p) + qs == qs;
      ThenNil(qs, src, s, caps, e, caps');
    case Item(part, rest) => ItemMeaning(part, rest, qs, src, s, caps, e, caps');
    case Group(inner, rest) => GroupMeaning(inner, rest, qs, src, s, caps, e, caps');
    case Here(rest) =>
      assert Parts(p) + qs == [OpenPosition] + (Parts(rest) + qs);
      OpensGroup(Parts(rest) + qs, src, s, caps, e, caps');
      BehindWith(caps, s);
      PatternMeaning(rest, qs, src, s, caps + [Capture(s, -2)], e, caps');
      ThenInside(rest, qs, src, s, caps + [Capture(s, -2)], e, caps');
      ThenHere(rest, qs, src, s, caps, e, caps');
    case Same(d, rest) => SameMeaning(d, rest, qs, src, s, caps, e, caps');
  }

  lemma {:induction false} ItemMeaning(part: Part, rest: Pattern, qs: seq<Part>, src: string, s: nat, caps: Captures,
                                       e: nat, caps': Captures)
    requires Plain(Item(part, rest)) && Behind(caps, s)
    ensures Spells(Parts(Item(part, rest)) + qs, src, s, caps, e, caps') <==>
            ThenSpells(Item(part, rest), qs, src, s, caps, e, caps')
    decreases Item(part, rest), 1
  {
    hide Spells, Finds, Behind, ThenSpells, Reads;
    assert Parts(Item(part, rest)) + qs == [part] + (Parts(rest) + qs);
    PartFinds(part, Parts(rest) + qs, src, s, caps, e, caps');
    ThenItem(part, rest, qs, src, s, caps, e, caps');
    forall m: nat | Finds(part, src, s, m)
      ensures Spells(Parts(rest) + qs, src, m, caps, e, caps') <==> ThenSpells(rest, qs, src, m, caps, e, caps')
    {
      FindsInside(part, src, s, m);
      BehindMore(caps, s, m);
      PatternMeaning(rest, qs, src, m, caps, e, caps');
    }
  }

  lemma {:induction false} SameMeaning(d: char, rest: Pattern, qs: seq<Part>, src: string, s: nat, caps: Captures,
                                       e: nat, caps': Captures)
    requires '1' <= d <= '9' && Plain(rest) && Behind(caps, s)
    ensures Spells(Parts(Same(d, rest)) + qs, src, s, caps, e, caps') <==>
            ThenSpells(Same(d, rest), qs, src, s, caps, e, caps')
    decreases Same(d, rest), 1
  {
    hide Spells, Recalls, Behind, ThenSpells, Reads;
    assert Parts(Same(d, rest)) + qs == [Again(d)] + (Parts(rest) + qs);
    FindsAgain(d, Parts(rest) + qs, src, s, caps, e, caps');
    ThenSame(d, rest, qs, src, s, caps, e, caps');
    forall m: nat | Recalls(caps, Index(d), src, s, m)
      ensures Spells(Parts(rest) + qs, src, m, caps, e, caps') <==> ThenSpells(rest, qs, src, m, caps, e, caps')
    {
      RecallsInside(caps, Index(d), src, s, m);
      BehindMore(caps, s, m);
      PatternMeaning(rest, qs, src, m, caps, e, caps');
    }
  }

  lemma ThenNil(qs: seq<Part>, src: string, s: nat, caps: Captures, e: nat, caps': Captures)
    ensures ThenSpells(Nil, qs, src, s, caps, e, caps') <==> Spells(qs, src, s, caps, e, caps')
  {
    hide Spells;
    assert Reads(Nil, src, s, caps, s, caps);
  }

  lemma RecallsInside(caps: Captures, i: int, src: string, s: nat, e: nat)
    requires Recalls(caps, i, src, s, e)
    ensures s <= e <= |src|
  {
  }

  lemma BehindWith(caps: Captures, s: nat)
    requires Behind(caps, s)
    ensures Behind(caps + [Capture(s, -1)], s) && Behind(caps + [Capture(s, -2)], s)
  {
  }

  lemma ThenInside(p: Pattern, qs: seq<Part>, src: string, s: nat, caps: Captures, e: nat, caps': Captures)
    requires Behind(caps, s)
    ensures ThenSpells(p, qs, src, s, caps, e, caps') ==> s <= |src|
  {
    hide Reads, Spells, Behind;
    if m: nat, c :| Reads(p, src, s, caps, m, c) && Spells(qs, src, m, c, e, caps') {
      ReadsGrow(p, src, s, caps, m, c);
      SpellsInside(qs, src, m, c, e, caps');
    }
  }

  lemma {:induction false} GroupMeaning(inner: Pattern, rest: Pattern, qs: seq<Part>, src: string, s: nat,
                                        caps: Captures,
                                        e: nat, caps': Captures)
    requires Plain(inner) && Plain(rest) && Behind(caps, s)
    ensures Spells(Parts(Group(inner, rest)) + qs, src, s, caps, e, caps') <==>
            ThenSpells(Group(inner, rest), qs, src, s, caps, e, caps')
    decreases Group(inner, rest), 1
  {
    hide Spells, Behind, Parts, Reads;
    var after, open := [CloseCapture] + (Parts(rest) + qs), caps + [Capture(s, -1)];
    GroupParts(inner, rest, qs);
    OpensGroup(Parts(inner) + after, src, s, caps, e, caps');
    BehindWith(caps, s);
    PatternMeaning(inner, after, src, s, open, e, caps');
    ThenInside(inner, after, src, s, open, e, caps');
    ThenGroup(inner, rest, qs, src, s, caps, e, caps');
    forall m: nat, c | Reads(inner, src, s, open, m, c)
      ensures Spells(after, src, m, c, e, caps') <==> Completes(inner, rest, qs, src, s, caps, e, caps', m, c)
    {
      GroupEnds(inner, rest, qs, src, s, caps, m, c, e, caps');
    }
  }

  lemma {:induction false} GroupEnds(inner: Pattern, rest: Pattern, qs: seq<Part>, src: string, s: nat, caps: Captures,
                                     m: nat, c: Captures, e: nat, caps': Captures)
    requires Plain(inner) && Plain(rest) && Behind(caps, s) && Reads(inner, src, s, caps + [Capture(s, -1)], m, c)
    ensures Spells([CloseCapture] + (Parts(rest) + qs), src, m, c, e, caps') <==>
            Completes(inner, rest, qs, src, s, caps, e, caps', m, c)
    decreases Group(inner, rest), 0
  {
    hide Spells, Parts, Reads, ThenSpells;
    var open := caps + [Capture(s, -1)];
    BehindWith(caps, s);
    ReadsGrow(inner, src, s, open, m, c);
    var c' := c[|caps| := Capture(s, m - s)];
    ClosesOwn(Parts(rest) + qs, src, s, caps, m, c, e, caps');
    assert Behind(c', m);
    PatternMeaning(rest, qs, src, m, c', e, caps');
    ThenInside(rest, qs, src, m, c', e, caps');
  }

  lemma GroupParts(inner: Pattern, rest: Pattern, qs: seq<Part>)
    ensures Parts(Group(inner, rest)) + qs == [OpenCapture] + (Parts(inner) + ([CloseCapture] + (Parts(rest) + qs)))
  {
  }
  /** The matcher finds a written pattern exactly where its groups say, and captures their texts. */
  lemma GroupsMatch(src: string, p: Pattern, s: nat, e: nat, caps: Captures)
    requires Plain(p) && Proper(Parts(p))
    ensures Matches(Subject(src, Write(Parts(p))), s, 0, [], e, caps) <==> e <= |src| && Reads(p, src, s, [], e, caps)
    ensures Matches(Subject(src, Write(Parts(p))), s, 0, [], e, caps) ==>
            s <= e && forall c :: c in caps ==> c.init <= e && (c.len == -2 || 0 <= c.len <= e - c.init)
  {
    hide Spells, Reads, Proper, Parts, Write, Matches;
    var m := Subject(src, Write(Parts(p)));
    WrittenMeaning(m, 0, Parts(p), s, [], e, caps);
    assert Parts(p) + [] == Parts(p);
    PatternMeaning(p, [], src, s, [], e, caps);
    SpellsNothing(src);
    if Reads(p, src, s, [], e, caps) {
      ReadsGrow(p, src, s, [], e, caps);
    }
  }

  lemma SpellsNothing(src: string)
    ensures forall s: nat, caps, e: nat, caps' {:trigger Spells([], src, s, caps, e, caps')} ::
              Spells([], src, s, caps, e, caps') <==> s <= |src| && e == s && caps' == caps
  {
  }

  // ---- Patterns that raise no error ----

  /** The last capture that is not complete, or -1. */
  function LastOpen(done: seq<bool>): (l: int)
    ensures -1 <= l < |done|
  {
    if |done| == 0 then -1 else if !done[|done| - 1] then |done| - 1 else LastOpen(done[..|done| - 1])
  }

  /** At most 32 captures; each closing parenthesis closes one, and each back reference means a complete one. */
  predicate Sound(ps: seq<Part>, done: seq<bool>)
    decreases |ps|
  {
    |ps| > 0 ==>
      match ps[0]
      case OpenCapture => |done| < 32 && Sound(ps[1..], done + [false])
      case OpenPosition => |done| < 32 && Sound(ps[1..], done + [true])
      case CloseCapture => LastOpen(done) >= 0 && Sound(ps[1..], done[LastOpen(done) := true])
      case Again(d) => 0 <= Index(d) < |done| && done[Index(d)] && Sound(ps[1..], done)
      case _ => Sound(ps[1..], done)
  }

  function Completed(caps: Captures): (done: seq<bool>)
    ensures |done| == |caps|
  {
    seq(|caps|, i requires 0 <= i < |caps| => caps[i].len != -1)
  }

  lemma {:induction false} LastOpenToClose(caps: Captures)
    ensures LastOpen(Completed(caps)) == ToClose(caps)
  {
    if |caps| > 0 {
      assert Completed(caps)[..|caps| - 1] == Completed(caps[..|caps| - 1]);
      LastOpenToClose(caps[..|caps| - 1]);
    }
  }

  lemma TriesSound(m: Subject, s: nat, n: nat, q: nat, caps: Captures)
    requires s + n <= |m.src| && q <= |m.pat|
    requires forall u: nat :: s <= u <= s + n ==> !Match(m, u, q, caps).Error?
    ensures !TryDown(m, s, n, q, caps).Error? && !TryUp(m, s, n, q, caps).Error?
    decreases n
  {
    hide Match;
    if n > 0 {
      TriesSound(m, s, n - 1, q, caps);
      TriesSound(m, s + 1, n - 1, q, caps);
    }
  }

  /** A sound pattern is matched, or not, without an error. */
  lemma {:induction false} SoundMatch(m: Subject, p: nat, ps: seq<Part>, s: nat, caps: Captures)
    requires Proper(ps) && At(m.pat, p, Write(ps)) && p + |Write(ps)| == |m.pat|
    requires Sound(ps, Completed(caps)) && Behind(caps, s) && s <= |m.src|
    ensures !Match(m, s, p, caps).Error?
    decreases |ps|
  {
    hide Write, WritePart, Lex, Proper, Balanced, Repeats, Completed, SingleMatch, AtFrontier, Sound, Behind, TryDown,
         TryUp,
      MaxRun, At;
    if ps == [] {
      assert p == |m.pat| by {
        PartsStart(m.pat, p, ps);
      }
      LexEnd(m.pat);
    } else {
      var rest, q := ps[1..], p + |WritePart(ps[0])|;
      PartRead(m.pat, p, ps);
      SoundStep(ps, caps, s);
      match ps[0]
      case Times(a, rep) =>
        forall u: nat | s <= u <= |m.src| ensures !Match(m, u, q, caps).Error? {
          BehindMore(caps, s, u);
          SoundMatch(m, q, rest, u, caps);
        }
        TimesSound(m, p, ps, s, q, caps);
      case OpenCapture => SoundMatch(m, q, rest, s, Opened(caps, s, false));
      case OpenPosition => SoundMatch(m, q, rest, s, Opened(caps, s, true));
      case CloseCapture => SoundMatch(m, q, rest, s, Closed(caps, ToClose(caps), s));
      case Pair(x, y) =>
        var o := BalanceEnd(m.src, s, x, y);
        if o.Some? {
          BalancedInside(m.src, s, o.value, x, y);
          BehindMore(caps, s, o.value);
          SoundMatch(m, q, rest, o.value, caps);
        }
      case Border(_, _) => SoundMatch(m, q, rest, s, caps);
      case Again(d) =>
        RepeatsText(m, s, Referred(caps, d));
        if Repeats(m, s, Referred(caps, d)) {
          RepeatsInside(m, s, Referred(caps, d));
          BehindMore(caps, s, s + Referred(caps, d).len);
          SoundMatch(m, q, rest, s + Referred(caps, d).len, caps);
        }
      case End =>
    }
  }

  lemma RepeatsInside(m: Subject, s: nat, c: Capture)
    requires Repeats(m, s, c)
    ensures 0 <= c.len && s + c.len <= |m.src|
  {
  }

  lemma BalancedInside(src: string, s: nat, e: nat, x: char, y: char)
    requires Balanced(src, s, e, x, y)
    ensures s <= e <= |src|
  {
  }

  lemma TimesSound(m: Subject, p: nat, ps: seq<Part>, s: nat, q: nat, caps: Captures)
    requires Proper(ps) && ps != [] && ps[0].Times? && At(m.pat, p, Write(ps)) && p + |Write(ps)| == |m.pat|
    requires s <= |m.src| && q == p + |WritePart(ps[0])| <= |m.pat|
    requires forall u: nat :: s <= u <= |m.src| ==> !Match(m, u, q, caps).Error?
    ensures !Match(m, s, p, caps).Error?
  {
    hide Write, WritePart, Lex, Proper, TryDown, TryUp, At, InClass, MatchItem;
    PartRead(m.pat, p, ps);
    SingleSound(m, p, s, ItemOf(ps[0], p).ep, ps[0].rep, q, caps);
  }

  lemma SingleSound(m: Subject, p: nat, s: nat, ep: nat, rep: Rep, q: nat, caps: Captures)
    requires s <= |m.src| && p < q <= |m.pat| && (Single(ep, rep), q) == Lex(m.pat, p)
    requires forall u: nat :: s <= u <= |m.src| ==> !Match(m, u, q, caps).Error?
    ensures !MatchItem(m, s, p, Single(ep, rep), q, caps).Error?
  {
    hide Lex, TryDown, TryUp, InClass, Match;
    TriesSound(m, s, MaxRun(m, s, p, ep), q, caps);
    if SingleMatch(m, s, p, ep) {
      TriesSound(m, s + 1, MaxRun(m, s + 1, p, ep), q, caps);
    }
    match rep
    case Once =>
    case Optional =>
      assert MatchItem(m, s, p, Single(ep, Optional), q, caps) ==
             if SingleMatch(m, s, p, ep) && !Match(m, s + 1, q, caps).Fail? then Match(m, s + 1, q, caps)
             else Match(m, s, q, caps);
    case Star =>
    case Plus =>
    case Lazy =>
  }

  /** What is sound stays sound after its first part. */
  lemma SoundStep(ps: seq<Part>, caps: Captures, s: nat)
    requires Sound(ps, Completed(caps)) && Behind(caps, s) && ps != []
    ensures if ps[0].OpenCapture? then
              |caps| < MAXCAPTURES && Sound(ps[1..], Completed(Opened(caps, s, false)))
                  && Behind(Opened(caps, s, false), s)
            else if ps[0].OpenPosition? then
              |caps| < MAXCAPTURES && Sound(ps[1..], Completed(Opened(caps, s, true)))
                  && Behind(Opened(caps, s, true), s)
            else if ps[0].CloseCapture? then
              && ToClose(caps) >= 0 && Sound(ps[1..], Completed(Closed(caps, ToClose(caps), s)))
              && Behind(Closed(caps, ToClose(caps), s), s)
            else Sound(ps[1..], Completed(caps)) && (ps[0].Again? ==> Referable(caps, ps[0].digit))
  {
    LastOpenToClose(caps);
    if ps[0].OpenCapture? {
      assert Completed(Opened(caps, s, false)) == Completed(caps) + [false];
    } else if ps[0].OpenPosition? {
      assert Completed(Opened(caps, s, true)) == Completed(caps) + [true];
    } else if ps[0].CloseCapture? {
      var l := ToClose(caps);
      assert Completed(Closed(caps, l, s)) == Completed(caps)[l := true];
    }
  }

  /** From a sound pattern the matcher gets a match of its parts, or there is none. */
  lemma SoundOutcome(src: string, ps: seq<Part>, s: nat)
    requires Proper(ps) && Sound(ps, []) && s <= |src|
    ensures match Match(Subject(src, Write(ps)), s, 0, [])
            case Error => false
            case Fail => forall e, caps :: !Spells(ps, src, s, [], e, caps)
            case Success(e, caps) => Spells(ps, src, s, [], e, caps)
  {
    hide Match, Spells, Write, Proper, Sound;
    assert Completed([]) == [];
    SoundMatch(Subject(src, Write(ps)), 0, ps, s, []);
    WrittenOutcome(src, ps, s, []);
  }
}
