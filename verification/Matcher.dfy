/** The matcher of lstrlib.c: it keeps its captures in one buffer, and undoes what a failed attempt wrote there. */
module Matcher {
  import opened Base
  import opened Patterns
  import opened Matching

  /** A run of the matcher and the outcome it must have: failing leaves the captures as they were. */
  ghost predicate Refines(o: Outcome, r: Result<Option<nat>>, before: Captures, after: Captures) {
    match o
    case Error => r.Err?
    case Fail => r == Ok(None) && after == before
    case Success(e, caps) => r == Ok(Some(e)) && after == caps
  }

  ghost predicate NoMatch(m: Subject, s: nat, p: nat) { forall e: nat, caps :: !Matches(m, s, p, [], e, caps) }

  /** The search meets an error before it meets a match. */
  ghost predicate Breaks(m: Subject, init: nat, p: nat, anchor: bool)
    requires p <= |m.pat|
  {
    exists u: nat :: init <= u <= |m.src| && (anchor ==> u == init) && Match(m, u, p, []).Error?
        && AllFail(m, init, u, p)
  }

  ghost predicate AllFail(m: Subject, init: nat, u: nat, p: nat)
    requires u <= |m.src| && p <= |m.pat|
  {
    forall v: nat :: init <= v < u ==> Match(m, v, p, []).Fail?
  }

  class MatchState {
    const src: string
    const pat: string
    var level: nat
    const capture: array<Capture>

    constructor (src: string, pat: string)
      ensures this.src == src && this.pat == pat && Valid() && Caps() == [] && fresh(capture)
    {
      this.src, this.pat := src, pat;
      level := 0;
      capture := new Capture[MAXCAPTURES](_ => Capture(0, 0));
    }

    ghost predicate Valid()
      reads this
    {
      capture.Length == MAXCAPTURES && level <= MAXCAPTURES
    }

    ghost function Caps(): Captures
      requires Valid()
      reads this, capture
    {
      capture[..level]
    }

    ghost function Subj(): Subject { Subject(src, pat) }

    /** classend. */
    method EndOfClass(p0: nat) returns (r: Result<nat>)
      requires p0 < |pat|
      ensures r == match ClassEnd(pat, p0) case Some(q) => Ok(q) case None => Err
    {
      var p := p0 + 1;
      match pat[p0]
      case '%' =>
        if CharAt(pat, p) == '\0' {
          return Err;
        }
        return Ok(p + 1);
      case '[' =>
        if CharAt(pat, p) == '^' {
          p := p + 1;
        }
        ghost var start := p;
        while true
          invariant SetEnd(pat, p) == SetEnd(pat, start)
          decreases |pat| - p
        {
          if CharAt(pat, p) == '\0' {
            return Err;
          }
          p := p + 1;
          if pat[p - 1] == ESC && CharAt(pat, p) != '\0' {
            p := p + 1;
          }
          if CharAt(pat, p) == ']' {
            break;
          }
        }
        return Ok(p + 1);
      case _ => return Ok(p);
    }

    /** matchbracketclass. */
    method InBracket(c: char, p0: nat, ec: nat) returns (found: bool)
      ensures found == InSet(pat, p0, ec, c)
    {
      hide MatchClass;
      var sig, p := true, p0;
      if CharAt(pat, p + 1) == '^' {
        sig, p := false, p + 1;
      }
      p := p + 1;
      ghost var ms := Members(pat, p, ec);
      assert InSet(pat, p0, ec, c) == (InSome(c, ms) == sig);
      while p < ec
        invariant InSome(c, ms) == InSome(c, Members(pat, p, ec))
        decreases ec - p
      {
        ghost var (mem, q) := MemberAt(pat, p, ec);
        SomeFirst(c, mem, Members(pat, q, ec));
        if CharAt(pat, p) == ESC {
          p := p + 1;
          if MatchClass(c, CharAt(pat, p)) {
            return sig;
          }
        } else if CharAt(pat, p + 1) == '-' && p + 2 < ec {
          p := p + 2;
          if CharAt(pat, p - 2) <= c <= CharAt(pat, p) {
            return sig;
          }
        } else if CharAt(pat, p) == c {
          return sig;
        }
        p := p + 1;
      }
      return !sig;
    }

    /** singlematch. */
    method InSingle(c: char, p: nat, ep: nat) returns (found: bool)
      requires ep > 0
      ensures found == InClass(pat, p, ep, c)
    {
      match CharAt(pat, p)
      case '.' => return true;
      case '%' => return MatchClass(c, CharAt(pat, p + 1));
      case '[' => found := InBracket(c, p, ep - 1);
      case d => return d == c;
    }

    /** matchbalance. */
    method MatchBalance(s0: nat, p: nat) returns (r: Result<Option<nat>>)
      requires s0 <= |src|
      ensures r.Err? <==> CharAt(pat, p) == '\0' || CharAt(pat, p + 1) == '\0'
      ensures r.Ok? ==> r.value == BalanceEnd(src, s0, CharAt(pat, p), CharAt(pat, p + 1))
    {
      if CharAt(pat, p) == '\0' || CharAt(pat, p + 1) == '\0' {
        return Err;
      }
      if CharAt(src, s0) != CharAt(pat, p) {
        return Ok(None);
      }
      var b, e, cont, s := CharAt(pat, p), CharAt(pat, p + 1), 1, s0 + 1;
      while s < |src|
        invariant s0 < s <= |src| && cont > 0
        invariant cont == Depth(src, s0, s, b, e) && forall i :: s0 < i <= s ==> Depth(src, s0, i, b, e) > 0
      {
        if src[s] == e {
          cont := cont - 1;
          if cont == 0 {
            assert Balanced(src, s0, s + 1, b, e);
            BalancedOnce(src, s0, s + 1, BalanceEnd(src, s0, b, e).value, b, e);
            return Ok(Some(s + 1));
          }
        } else if src[s] == b {
          cont := cont + 1;
        }
        s := s + 1;
      }
      return Ok(None);
    }

    /** match_capture. */
    method MatchCapture(s: nat, digit: char) returns (r: Result<Option<nat>>)
      requires Valid() && s <= |src| && Behind(Caps(), s) && IsDigit(digit)
      ensures r.Err? <==> !Referable(Caps(), digit)
      ensures r.Ok? ==>
                r.value == if Repeats(Subj(), s, Referred(Caps(), digit)) then Some(s + Referred(Caps(), digit).len)
                  else None
    {
      var l := digit as int - '1' as int;
      if l < 0 || l >= level || capture[l].len == CAP_UNFINISHED {
        return Err;
      }
      assert Caps()[l] == capture[l];
      var len := capture[l].len;
      // a position capture has the length -2, which is larger than any string as an unsigned number
      if len >= 0 && |src| - s >= len && src[capture[l].init..capture[l].init + len] == src[s..s + len] {
        return Ok(Some(s + len));
      }
      return Ok(None);
    }

    /** max_expand. */
    method MaxExpand(s: nat, p: nat, ep: nat, next: nat) returns (r: Result<Option<nat>>)
      requires Valid() && s <= |src| && p < ep < next <= |pat| && Behind(Caps(), s)
      modifies this, capture
      ensures Valid()
      ensures Refines(TryDown(Subj(), s, MaxRun(Subj(), s, p, ep), next, old(Caps())), r, old(Caps()), Caps())
      decreases |pat| - next, 3
    {
      hide Match, Behind;
      var i := 0;
      assert MaxRun(Subj(), s, p, ep) >= 0;
      while true
        invariant s + i <= |src| && i <= MaxRun(Subj(), s, p, ep)
        invariant forall j :: s <= j < s + i ==> SingleMatch(Subj(), j, p, ep)
        invariant Valid() && Caps() == old(Caps())
        decreases |src| - i
      {
        if s + i >= |src| {
          break;
        }
        var m := InSingle(src[s + i], p, ep);
        if !m {
          break;
        }
        Runs(Subj(), s, p, ep);
        assert Matching.Run(Subj(), s, i + 1, p, ep);
        i := i + 1;
      }
      assert i == MaxRun(Subj(), s, p, ep) by {
        assert !SingleMatch(Subj(), s + i, p, ep);
      }
      while i >= 0
        invariant -1 <= i && s + i <= |src| && Valid() && Caps() == old(Caps())
        invariant i >= 0 ==>
                    TryDown(Subj(), s, i, next, Caps()) == TryDown(Subj(), s, MaxRun(Subj(), s, p, ep), next, Caps())
        invariant i < 0 ==> TryDown(Subj(), s, MaxRun(Subj(), s, p, ep), next, Caps()).Fail?
        decreases i
      {
        BehindMore(Caps(), s, s + i);
        var res :- DoMatch(s + i, next);
        if res.Some? {
          return Ok(res);
        }
        i := i - 1;
      }
      return Ok(None);
    }

    /** min_expand. */
    method MinExpand(s0: nat, p: nat, ep: nat, next: nat) returns (r: Result<Option<nat>>)
      requires Valid() && s0 <= |src| && p < ep < next <= |pat| && Behind(Caps(), s0)
      modifies this, capture
      ensures Valid()
      ensures Refines(TryUp(Subj(), s0, MaxRun(Subj(), s0, p, ep), next, old(Caps())), r, old(Caps()), Caps())
      decreases |pat| - next, 3
    {
      hide Match, Behind;
      var s := s0;
      while true
        invariant s0 <= s <= |src| && Valid() && Caps() == old(Caps())
        invariant TryUp(Subj(), s, MaxRun(Subj(), s, p, ep), next, Caps()) ==
            TryUp(Subj(), s0, MaxRun(Subj(), s0, p, ep), next, Caps())
        decreases |src| - s
      {
        BehindMore(Caps(), s0, s);
        var res :- DoMatch(s, next);
        if res.Some? {
          return Ok(res);
        }
        var m := false;
        if s < |src| {
          m := InSingle(src[s], p, ep);
        }
        if !m {
          return Ok(None);
        }
        s := s + 1;
      }
    }

    /** start_capture. */
    method StartCapture(s: nat, p: nat, what: int) returns (r: Result<Option<nat>>)
      requires Valid() && s <= |src| && p <= |pat| && Behind(Caps(), s)
      requires (what == CAP_POSITION || what == CAP_UNFINISHED)
      modifies this, capture
      ensures Valid()
      ensures var o := if |old(Caps())| >= MAXCAPTURES then Error
        else Match(Subj(), s, p, Opened(old(Caps()), s, what == CAP_POSITION));
              Refines(o, r, old(Caps()), Caps())
      decreases |pat| - p, 3
    {
      hide Match;
      if level >= MAXCAPTURES {
        return Err;
      }
      capture[level] := Capture(s, what);
      level := level + 1;
      assert Caps() == Opened(old(Caps()), s, what == CAP_POSITION);
      var res :- DoMatch(s, p);
      if res.None? {
        level := level - 1;
        assert Caps() == old(Caps());
      }
      return Ok(res);
    }

    /** end_capture. */
    method EndCapture(s: nat, p: nat) returns (r: Result<Option<nat>>)
      requires Valid() && s <= |src| && p <= |pat| && Behind(Caps(), s)
      modifies this, capture
      ensures Valid()
      ensures var l := ToClose(old(Caps()));
              var o := if l < 0 then Error else Match(Subj(), s, p, Closed(old(Caps()), l, s));
              Refines(o, r, old(Caps()), Caps())
      decreases |pat| - p, 3
    {
      hide Match;
      var l := CaptureToClose();
      if l < 0 {
        return Err;
      }
      assert Caps()[l] == capture[l];
      capture[l] := Capture(capture[l].init, s - capture[l].init);
      assert Caps() == Closed(old(Caps()), l, s);
      var res :- DoMatch(s, p);
      if res.None? {
        capture[l] := Capture(capture[l].init, CAP_UNFINISHED);
        assert Caps() == old(Caps());
      }
      return Ok(res);
    }

    /** capture_to_close; -1 stands for the error. */
    method CaptureToClose() returns (l: int)
      requires Valid()
      ensures l == ToClose(Caps())
    {
      l := level - 1;
      assert capture[..level] == Caps();
      while l >= 0
        invariant -1 <= l < level && ToClose(capture[..l + 1]) == ToClose(Caps())
      {
        assert capture[..l + 1][..l] == capture[..l];
        if capture[l].len == CAP_UNFINISHED {
          return;
        }
        l := l - 1;
      }
    }

    /** match. */
    method DoMatch(s0: nat, p0: nat) returns (r: Result<Option<nat>>)
      requires Valid() && s0 <= |src| && p0 <= |pat| && Behind(Caps(), s0)
      modifies this, capture
      ensures Valid() && Refines(Match(Subj(), s0, p0, old(Caps())), r, old(Caps()), Caps())
      decreases |pat| - p0, 2
    {
      hide Match, Behind, TryDown, TryUp, Repeats, AtFrontier, MatchItem, Lex, ClassEnd, InClass, InSet, MaxRun,
           BalanceEnd, ToClose, Opened, Closed;
      var s: nat, p: nat := s0, p0;
      while true
        invariant s <= |src| && p <= |pat| && p0 <= p && Valid() && Caps() == old(Caps()) && Behind(Caps(), s)
        invariant Match(Subj(), s, p, Caps()) == Match(Subj(), s0, p0, old(Caps()))
        decreases |pat| - p
      {
        var c := CharAt(pat, p);
        if c == '(' {
          if CharAt(pat, p + 1) == ')' {
            OpenStep(Subj(), s, p, Caps(), true);
            r := StartCapture(s, p + 2, CAP_POSITION);
            return;
          } else {
            OpenStep(Subj(), s, p, Caps(), false);
            r := StartCapture(s, p + 1, CAP_UNFINISHED);
            return;
          }
        } else if c == ')' {
          CloseStep(Subj(), s, p, Caps());
          r := EndCapture(s, p + 1);
          return;
        } else if c == ESC && CharAt(pat, p + 1) == 'b' {
          BalanceStep(Subj(), s, p, Caps());
          var e :- MatchBalance(s, p + 2);
          if e.None? {
            return Ok(None);
          }
          BehindMore(Caps(), s, e.value);
          s, p := e.value, p + 4;
        } else if c == ESC && CharAt(pat, p + 1) == 'f' {
          FrontierStep(Subj(), s, p, Caps());
          if CharAt(pat, p + 2) != '[' {
            return Err;
          }
          var ep :- EndOfClass(p + 2);
          var previous := if s == 0 then '\0' else src[s - 1];
          var before := InBracket(previous, p + 2, ep - 1);
          var after := InBracket(CharAt(src, s), p + 2, ep - 1);
          if before || !after {
            return Ok(None);
          }
          p := ep;
        } else if c == ESC && IsDigit(CharAt(pat, p + 1)) {
          BackRefStep(Subj(), s, p, Caps());
          var e :- MatchCapture(s, CharAt(pat, p + 1));
          if e.None? {
            return Ok(None);
          }
          BehindMore(Caps(), s, e.value);
          s, p := e.value, p + 2;
        } else if c == '\0' {
          EndStep(Subj(), s, p, Caps());
          return Ok(Some(s));
        } else if c == '$' && CharAt(pat, p + 1) == '\0' {
          EndStep(Subj(), s, p, Caps());
          return if s == |src| then Ok(Some(s)) else Ok(None);
        } else {
          ghost var caps := Caps();
          var next;
          r, next := MatchItemAt(s, p);
          if next.None? {
            return;
          }
          BehindMore(caps, s, next.value.0);
          s, p := next.value.0, next.value.1;
        }
      }
    }

    /** An ordinary item: either the outcome is known, or the matching goes on from another place. */
    method MatchItemAt(s: nat, p: nat) returns (r: Result<Option<nat>>, next: Option<(nat, nat)>)
      requires Valid() && s <= |src| && p <= |pat| && Behind(Caps(), s) && Ordinary(pat, p)
      modifies this, capture
      ensures Valid()
      ensures next.None? ==> Refines(Match(Subj(), s, p, old(Caps())), r, old(Caps()), Caps())
      ensures next.Some? ==> var (s', p') := next.value;
                s <= s' <= |src| && p < p' <= |pat| && Caps() == old(Caps())
                    && Match(Subj(), s, p, Caps()) == Match(Subj(), s', p', Caps())
      decreases |pat| - p, 1
    {
      hide Match, Behind, TryDown, TryUp, ClassEnd, InClass, MaxRun;
      r, next := Ok(None), None;
      SingleStep(Subj(), s, p, Caps());
      var end := EndOfClass(p);
      if end.Err? {
        return Err, None;
      }
      var ep := end.value;
      var m := false;
      if s < |src| {
        m := InSingle(src[s], p, ep);
      }
      BehindMore(Caps(), s, s + 1);
      match CharAt(pat, ep)
      case '?' =>
        if m {
          r := DoMatch(s + 1, ep + 1);
          if r.Err? || r.value.Some? {
            return;
          }
        }
        next := Some((s, ep + 1));
      case '*' => r := MaxExpand(s, p, ep, ep + 1);
      case '+' =>
        if m {
          r := MaxExpand(s + 1, p, ep, ep + 1);
        }
      case '-' => r := MinExpand(s, p, ep, ep + 1);
      case _ =>
        if m {
          next := Some((s + 1, ep));
        }
    }

    /**
     * The search of str_find_aux for a pattern with special characters: the first position from which it matches, and
     * the match there that comes first in the order of priorities.
     */
    method Find(init: nat) returns (r: Result<Option<(nat, nat)>>)
      requires Valid() && init <= |src|
      modifies this, capture
      ensures Valid()
      ensures var anchor := CharAt(pat, 0) == '^';
              var p := if anchor then 1 else 0;
              && (r.Err? <==> Breaks(Subj(), init, p, anchor))
              && (r.Ok? ==> match r.value
                            case Some((s, e)) =>
                              && init <= s <= e <= |src| && (anchor ==> s == init)
                              && Matches(Subj(), s, p, [], e, Caps())
                              && |All(Subj(), s, p, [])| > 0 && All(Subj(), s, p, [])[0] == (e, Caps())
                              && forall u: nat :: init <= u < s ==> NoMatch(Subj(), u, p)
                            case None => forall u: nat :: init <= u <= |src| && (anchor ==> u == init) ==>
                              NoMatch(Subj(), u, p))
    {
      hide Match, Matches, All;
      var anchor := CharAt(pat, 0) == '^';
      var p: nat := if anchor then 1 else 0;
      var s1: nat := init;
      while true
        invariant Valid() && init <= s1 <= |src| && (anchor ==> s1 == init)
        invariant AllFail(Subj(), init, s1, p) && forall u: nat :: init <= u < s1 ==> NoMatch(Subj(), u, p)
        decreases |src| - s1
      {
        level := 0;
        assert Caps() == [];
        var e :- DoMatch(s1, p);
        MatchMeaning(Subj(), s1, p, []);
        MatchIsFirst(Subj(), s1, p, []);
        if e.Some? {
          MatchesForward(Subj(), s1, p, [], e.value, Caps());
          return Ok(Some((s1, e.value)));
        }
        if s1 >= |src| || anchor {
          return Ok(None);
        }
        s1 := s1 + 1;
      }
    }
  }

  // ---- One step of `match`, item by item ----

  lemma OpenStep(m: Subject, s: nat, p: nat, caps: Captures, position: bool)
    requires s <= |m.src| && CharAt(m.pat, p) == '(' && position == (CharAt(m.pat, p + 1) == ')')
    ensures var q := if position then p + 2 else p + 1;
            q <= |m.pat| && Match(m, s, p, caps) ==
              if |caps| >= MAXCAPTURES then Error else Match(m, s, q, Opened(caps, s, position))
  {
  }

  lemma CloseStep(m: Subject, s: nat, p: nat, caps: Captures)
    requires s <= |m.src| && CharAt(m.pat, p) == ')'
    ensures p < |m.pat| && Match(m, s, p, caps) ==
              if ToClose(caps) < 0 then Error else Match(m, s, p + 1, Closed(caps, ToClose(caps), s))
  {
  }

  lemma BalanceStep(m: Subject, s: nat, p: nat, caps: Captures)
    requires s <= |m.src| && CharAt(m.pat, p) == ESC && CharAt(m.pat, p + 1) == 'b'
    ensures p <= |m.pat|
    ensures var x, y := CharAt(m.pat, p + 2), CharAt(m.pat, p + 3);
            && (x == '\0' || y == '\0' ==> Match(m, s, p, caps) == Error)
            && (x != '\0' && y != '\0' ==>
                  p + 4 <= |m.pat| && Match(m, s, p, caps) ==
                    match BalanceEnd(m.src, s, x, y) case Some(e) => Match(m, e, p + 4, caps) case None => Fail)
    ensures BalanceEnd(m.src, s, CharAt(m.pat, p + 2), CharAt(m.pat, p + 3)).Some? ==>
              s <= BalanceEnd(m.src, s, CharAt(m.pat, p + 2), CharAt(m.pat, p + 3)).value <= |m.src|
  {
  }

  lemma FrontierStep(m: Subject, s: nat, p: nat, caps: Captures)
    requires s <= |m.src| && CharAt(m.pat, p) == ESC && CharAt(m.pat, p + 1) == 'f'
    ensures p <= |m.pat|
    ensures CharAt(m.pat, p + 2) != '[' ==> Match(m, s, p, caps) == Error
    ensures CharAt(m.pat, p + 2) == '[' ==>
              match ClassEnd(m.pat, p + 2)
              case None => Match(m, s, p, caps) == Error
              case Some(ep) =>
                var previous := if s == 0 then '\0' else m.src[s - 1];
                Match(m, s, p, caps) ==
                  if !InSet(m.pat, p + 2, ep - 1, previous) && InSet(m.pat, p + 2, ep - 1, CharAt(m.src, s))
                  then Match(m, s, ep, caps) else Fail
  {
  }

  lemma BackRefStep(m: Subject, s: nat, p: nat, caps: Captures)
    requires s <= |m.src| && CharAt(m.pat, p) == ESC && IsDigit(CharAt(m.pat, p + 1))
    ensures p + 2 <= |m.pat|
    ensures var d := CharAt(m.pat, p + 1);
            Match(m, s, p, caps) ==
              if !Referable(caps, d) then Error
              else if Repeats(m, s, Referred(caps, d)) then Match(m, s + Referred(caps, d).len, p + 2, caps) else Fail
    ensures var d := CharAt(m.pat, p + 1);
            Referable(caps, d) && Repeats(m, s, Referred(caps, d)) ==> 0 <= Referred(caps, d).len <= |m.src| - s
  {
  }

  lemma EndStep(m: Subject, s: nat, p: nat, caps: Captures)
    requires s <= |m.src| && p <= |m.pat|
    requires CharAt(m.pat, p) == '\0' || (CharAt(m.pat, p) == '$' && CharAt(m.pat, p + 1) == '\0')
    ensures Match(m, s, p, caps) == if CharAt(m.pat, p) == '\0' || s == |m.src| then Success(s, caps) else Fail
  {
  }

  /** The character at p begins an ordinary item. */
  predicate Ordinary(pat: string, p: nat) {
    var c, d := CharAt(pat, p), CharAt(pat, p + 1);
    c != '(' && c != ')' && c != '\0' && !(c == '$' && d == '\0') && !(c == ESC && (d == 'b' || d == 'f' || IsDigit(d)))
  }

  lemma SingleStep(m: Subject, s: nat, p: nat, caps: Captures)
    requires s <= |m.src| && Ordinary(m.pat, p)
    ensures p < |m.pat|
    ensures match ClassEnd(m.pat, p)
            case None => Match(m, s, p, caps) == Error
            case Some(ep) =>
              && (CharAt(m.pat, ep) in "?*+-" ==> ep + 1 <= |m.pat|)
              && Match(m, s, p, caps) ==
                   match CharAt(m.pat, ep)
                   case '?' =>
                     if SingleMatch(m, s, p, ep) && !Match(m, s + 1, ep + 1, caps).Fail?
                         then Match(m, s + 1, ep + 1, caps)
                     else Match(m, s, ep + 1, caps)
                   case '*' => TryDown(m, s, MaxRun(m, s, p, ep), ep + 1, caps)
                   case '+' => if SingleMatch(m, s, p, ep) then TryDown(m, s + 1, MaxRun(m, s + 1, p, ep), ep + 1, caps)
                     else Fail
                   case '-' => TryUp(m, s, MaxRun(m, s, p, ep), ep + 1, caps)
                   case _ => if SingleMatch(m, s, p, ep) then Match(m, s + 1, ep, caps) else Fail
  {
    hide SingleMatch, MaxRun, TryDown, TryUp, ClassEnd;
  }
}
