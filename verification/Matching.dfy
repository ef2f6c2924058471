/**
 * What a pattern means: backtracking search, the list of all matches in order of priority, and the matching relation.
 */
module Matching {
  import opened Base
  import opened Patterns

  // ---- The conditions of the items ----

  /** Nesting depth of x...y just before position q, for a balanced string that opens at s. */
  function Depth(src: string, s: nat, q: nat, x: char, y: char): int
    requires s < q <= |src|
    decreases q
  {
    if q == s + 1 then 1
    else Depth(src, s, q - 1, x, y) + (if src[q - 1] == y then -1 else if src[q - 1] == x then 1 else 0)
  }

  /** The text from s to q is balanced: it starts with x and its depth is zero for the first time at q. */
  ghost predicate Balanced(src: string, s: nat, q: nat, x: char, y: char) {
    && s < |src| && src[s] == x && s + 1 < q <= |src|
    && Depth(src, s, q, x, y) == 0
    && forall i :: s < i < q ==> Depth(src, s, i, x, y) > 0
  }

  /** Where the balanced text from s ends, if there is one. */
  ghost function BalanceEnd(src: string, s: nat, x: char, y: char): (e: Option<nat>)
    ensures e.Some? ==> e.value <= |src| && Balanced(src, s, e.value, x, y)
    ensures e.None? ==> forall q: nat :: !Balanced(src, s, q, x, y)
  {
    if q: nat :| Balanced(src, s, q, x, y) then Some(q) else None
  }

  lemma BalancedOnce(src: string, s: nat, q: nat, q': nat, x: char, y: char)
    requires Balanced(src, s, q, x, y) && Balanced(src, s, q', x, y)
    ensures q == q'
  {
  }

  ghost predicate AtFrontier(m: Subject, s: nat, p: nat, ep: nat)
    requires ep > 0
  {
    var previous := if s == 0 then '\0' else CharAt(m.src, s - 1);
    !InSet(m.pat, p, ep - 1, previous) && InSet(m.pat, p, ep - 1, CharAt(m.src, s))
  }

  /** The character at s exists and the class p..ep contains it. */
  ghost predicate SingleMatch(m: Subject, s: nat, p: nat, ep: nat)
    requires ep > 0
  {
    s < |m.src| && InClass(m.pat, p, ep, m.src[s])
  }

  /** The capture that %1 to %9 refer to is closed. */
  predicate Referable(caps: Captures, digit: char) {
    '1' <= digit && (digit as int - '1' as int) < |caps| && caps[digit as int - '1' as int].len != CAP_UNFINISHED
  }

  /** The text of a capture occurs again at s; a position capture has no text. */
  predicate Repeats(m: Subject, s: nat, c: Capture) {
    && 0 <= c.len && s + c.len <= |m.src| && c.init + c.len <= |m.src|
    && m.src[s..s + c.len] == m.src[c.init..c.init + c.len]
  }

  function Referred(caps: Captures, digit: char): Capture
    requires Referable(caps, digit)
  {
    caps[digit as int - '1' as int]
  }

  /** The last capture that is still open, or -1. */
  function ToClose(caps: Captures): (l: int)
    ensures -1 <= l < |caps|
    ensures l >= 0 ==> caps[l].len == CAP_UNFINISHED
    ensures forall i :: l < i < |caps| ==> caps[i].len != CAP_UNFINISHED
  {
    if |caps| == 0 then -1
    else if caps[|caps| - 1].len == CAP_UNFINISHED then |caps| - 1
    else ToClose(caps[..|caps| - 1])
  }

  /** Captures lie in the text read so far. */
  predicate Behind(caps: Captures, s: nat) {
    forall i :: 0 <= i < |caps| ==> caps[i].init <= s && caps[i].init + caps[i].len <= s && caps[i].len >= CAP_POSITION
  }

  lemma BehindMore(caps: Captures, s: nat, s': nat)
    requires Behind(caps, s) && s <= s'
    ensures Behind(caps, s')
  {
  }

  function Opened(caps: Captures, s: nat, position: bool): Captures {
    caps + [Capture(s, if position then CAP_POSITION else CAP_UNFINISHED)]
  }

  function Closed(caps: Captures, l: nat, s: nat): Captures
    requires l < |caps|
  {
    caps[l := Capture(caps[l].init, s - caps[l].init)]
  }

  // ---- Backtracking ----

  datatype Outcome = Error | Fail | Success(end: nat, caps: Captures)

  /** How many characters from s on the class matches. */
  ghost function MaxRun(m: Subject, s: nat, p: nat, ep: nat): (n: nat)
    requires ep > 0 && s <= |m.src|
    ensures s + n <= |m.src| && !SingleMatch(m, s + n, p, ep)
    ensures forall i :: s <= i < s + n ==> SingleMatch(m, i, p, ep)
    decreases |m.src| - s
  {
    if SingleMatch(m, s, p, ep) then MaxRun(m, s + 1, p, ep) + 1 else 0
  }

  /** The function `match` of the source, on the captures as a value. */
  ghost function Match(m: Subject, s: nat, p: nat, caps: Captures): Outcome
    requires s <= |m.src| && p <= |m.pat|
    decreases |m.pat| - p, 0, 1
  {
    MatchItem(m, s, p, Lex(m.pat, p).0, Lex(m.pat, p).1, caps)
  }

  /** A match of the item at p and then of the pattern from q. */
  ghost function MatchItem(m: Subject, s: nat, p: nat, item: Item, q: nat, caps: Captures): Outcome
    requires s <= |m.src| && p <= |m.pat| && (item, q) == Lex(m.pat, p)
    decreases |m.pat| - p, 0, 0
  {
    match item
    case Done => Success(s, caps)
    case Bad => Error
    case Open(position) => if |caps| >= MAXCAPTURES then Error else Match(m, s, q, Opened(caps, s, position))
    case Close => if ToClose(caps) < 0 then Error else Match(m, s, q, Closed(caps, ToClose(caps), s))
    case Balance(x, y) =>
      (match BalanceEnd(m.src, s, x, y) case Some(e) => Match(m, e, q, caps) case None => Fail)
    case Frontier(f) => if AtFrontier(m, s, f, q) then Match(m, s, q, caps) else Fail
    case BackRef(d) =>
      if !Referable(caps, d) then Error
      else if Repeats(m, s, Referred(caps, d)) then Match(m, s + Referred(caps, d).len, q, caps) else Fail
    case AtEnd => if s == |m.src| then Success(s, caps) else Fail
    case Single(ep, rep) =>
      match rep
      case Once => if SingleMatch(m, s, p, ep) then Match(m, s + 1, q, caps) else Fail
      case Optional =>
        if SingleMatch(m, s, p, ep) && !Match(m, s + 1, q, caps).Fail? then Match(m, s + 1, q, caps)
          else Match(m, s, q, caps)
      case Star => TryDown(m, s, MaxRun(m, s, p, ep), q, caps)
      case Plus => if SingleMatch(m, s, p, ep) then TryDown(m, s + 1, MaxRun(m, s + 1, p, ep), q, caps) else Fail
      case Lazy => TryUp(m, s, MaxRun(m, s, p, ep), q, caps)
  }

  /** max_expand after n repetitions have been found: n, n - 1, ..., 0. */
  ghost function TryDown(m: Subject, s: nat, n: nat, q: nat, caps: Captures): Outcome
    requires s + n <= |m.src| && q <= |m.pat|
    decreases |m.pat| - q, 1, n
  {
    var o := Match(m, s + n, q, caps);
    if o.Fail? && n > 0 then TryDown(m, s, n - 1, q, caps) else o
  }

  /** min_expand where n more repetitions are possible: 0, 1, ..., n. */
  ghost function TryUp(m: Subject, s: nat, n: nat, q: nat, caps: Captures): Outcome
    requires s + n <= |m.src| && q <= |m.pat|
    decreases |m.pat| - q, 1, n
  {
    var o := Match(m, s, q, caps);
    if o.Fail? && n > 0 then TryUp(m, s + 1, n - 1, q, caps) else o
  }

  // ---- All matches, the preferred one first ----

  type Results = seq<(nat, Captures)>

  ghost function All(m: Subject, s: nat, p: nat, caps: Captures): Results
    requires s <= |m.src| && p <= |m.pat|
    decreases |m.pat| - p, 0, 0
  {
    var (item, q) := Lex(m.pat, p);
    match item
    case Done => [(s, caps)]
    case Bad => []
    case Open(position) => if |caps| >= MAXCAPTURES then [] else All(m, s, q, Opened(caps, s, position))
    case Close => if ToClose(caps) < 0 then [] else All(m, s, q, Closed(caps, ToClose(caps), s))
    case Balance(x, y) => (match BalanceEnd(m.src, s, x, y) case Some(e) => All(m, e, q, caps) case None => [])
    case Frontier(f) => if AtFrontier(m, s, f, q) then All(m, s, q, caps) else []
    case BackRef(d) =>
      if Referable(caps, d) && Repeats(m, s, Referred(caps, d)) then All(m, s + Referred(caps, d).len, q, caps) else []
    case AtEnd => if s == |m.src| then [(s, caps)] else []
    case Single(ep, rep) =>
      match rep
      case Once => if SingleMatch(m, s, p, ep) then All(m, s + 1, q, caps) else []
      case Optional => (if SingleMatch(m, s, p, ep) then All(m, s + 1, q, caps) else []) + All(m, s, q, caps)
      case Star => AllDown(m, s, MaxRun(m, s, p, ep), q, caps)
      case Plus => if SingleMatch(m, s, p, ep) then AllDown(m, s + 1, MaxRun(m, s + 1, p, ep), q, caps) else []
      case Lazy => AllUp(m, s, MaxRun(m, s, p, ep), q, caps)
  }

  /** Longest repetition first. */
  ghost function AllDown(m: Subject, s: nat, n: nat, q: nat, caps: Captures): Results
    requires s + n <= |m.src| && q <= |m.pat|
    decreases |m.pat| - q, 1, n
  {
    All(m, s + n, q, caps) + if n > 0 then AllDown(m, s, n - 1, q, caps) else []
  }

  /** Shortest repetition first. */
  ghost function AllUp(m: Subject, s: nat, n: nat, q: nat, caps: Captures): Results
    requires s + n <= |m.src| && q <= |m.pat|
    decreases |m.pat| - q, 1, n
  {
    All(m, s, q, caps) + if n > 0 then AllUp(m, s + 1, n - 1, q, caps) else []
  }

  /** The outcome of a search is the first of a list of results, unless it is an error. */
  predicate FirstOf(o: Outcome, all: Results) {
    match o
    case Error => true
    case Fail => all == []
    case Success(e, caps) => |all| > 0 && all[0] == (e, caps)
  }

  /** Backtracking finds the preferred match, and fails only if there is none. */
  lemma {:induction false} MatchIsFirst(m: Subject, s: nat, p: nat, caps: Captures)
    requires s <= |m.src| && p <= |m.pat|
    ensures FirstOf(Match(m, s, p, caps), All(m, s, p, caps))
    decreases |m.pat| - p, 0, 0
  {
    hide Balanced, AtFrontier, InClass, Lex, Referable;
    var (item, q) := Lex(m.pat, p);
    match item
    case Done =>
    case Bad =>
    case Open(position) => MatchIsFirst(m, s, q, Opened(caps, s, position));
    case Close =>
      if ToClose(caps) >= 0 {
        MatchIsFirst(m, s, q, Closed(caps, ToClose(caps), s));
      }
    case Balance(x, y) =>
      if BalanceEnd(m.src, s, x, y).Some? {
        MatchIsFirst(m, BalanceEnd(m.src, s, x, y).value, q, caps);
      }
    case Frontier(f) => MatchIsFirst(m, s, q, caps);
    case BackRef(d) =>
      if Referable(caps, d) && Repeats(m, s, Referred(caps, d)) {
        MatchIsFirst(m, s + Referred(caps, d).len, q, caps);
      }
    case AtEnd =>
    case Single(ep, rep) => SingleIsFirst(m, s, p, caps);
  }

  lemma {:induction false} SingleIsFirst(m: Subject, s: nat, p: nat, caps: Captures)
    requires s <= |m.src| && p <= |m.pat| && Lex(m.pat, p).0.Single?
    ensures FirstOf(Match(m, s, p, caps), All(m, s, p, caps))
    decreases |m.pat| - Lex(m.pat, p).1, 2, 0
  {
    hide InClass, Lex, TryDown, TryUp, AllDown, AllUp, MaxRun;
    var (item, q) := Lex(m.pat, p);
    var ep := item.ep;
    MatchIsFirst(m, s, q, caps);
    if SingleMatch(m, s, p, ep) {
      MatchIsFirst(m, s + 1, q, caps);
      DownIsFirst(m, s + 1, MaxRun(m, s + 1, p, ep), q, caps);
    }
    DownIsFirst(m, s, MaxRun(m, s, p, ep), q, caps);
    UpIsFirst(m, s, MaxRun(m, s, p, ep), q, caps);
  }

  lemma {:induction false} DownIsFirst(m: Subject, s: nat, n: nat, q: nat, caps: Captures)
    requires s + n <= |m.src| && q <= |m.pat|
    ensures FirstOf(TryDown(m, s, n, q, caps), AllDown(m, s, n, q, caps))
    decreases |m.pat| - q, 1, n
  {
    hide Match, All;
    MatchIsFirst(m, s + n, q, caps);
    if n > 0 {
      DownIsFirst(m, s, n - 1, q, caps);
    }
  }

  lemma {:induction false} UpIsFirst(m: Subject, s: nat, n: nat, q: nat, caps: Captures)
    requires s + n <= |m.src| && q <= |m.pat|
    ensures FirstOf(TryUp(m, s, n, q, caps), AllUp(m, s, n, q, caps))
    decreases |m.pat| - q, 1, n
  {
    hide Match, All;
    MatchIsFirst(m, s, q, caps);
    if n > 0 {
      UpIsFirst(m, s + 1, n - 1, q, caps);
    }
  }

  /** Among the positions lo to hi, u is the last from which the rest of the pattern does not fail. */
  ghost predicate LastMatch(m: Subject, lo: nat, hi: nat, q: nat, caps: Captures, u: nat)
    requires hi <= |m.src| && q <= |m.pat|
  {
    lo <= u <= hi && !Match(m, u, q, caps).Fail? && forall v: nat :: u < v <= hi ==> Match(m, v, q, caps).Fail?
  }

  /** The first. */
  ghost predicate FirstMatch(m: Subject, lo: nat, hi: nat, q: nat, caps: Captures, u: nat)
    requires hi <= |m.src| && q <= |m.pat|
  {
    lo <= u <= hi && !Match(m, u, q, caps).Fail? && forall v: nat :: lo <= v < u ==> Match(m, v, q, caps).Fail?
  }

  /** A greedy repetition is as long as a match allows, and fails only if none does. */
  lemma {:induction false} LongestFirst(m: Subject, s: nat, n: nat, q: nat, caps: Captures)
    requires s + n <= |m.src| && q <= |m.pat|
    ensures forall u: nat :: LastMatch(m, s, s + n, q, caps, u) ==> TryDown(m, s, n, q, caps) == Match(m, u, q, caps)
    ensures TryDown(m, s, n, q, caps).Fail? ==> forall u: nat :: s <= u <= s + n ==> Match(m, u, q, caps).Fail?
    decreases n
  {
    hide Match;
    if n > 0 {
      LongestFirst(m, s, n - 1, q, caps);
      forall u: nat | LastMatch(m, s, s + n, q, caps, u) ensures TryDown(m, s, n, q, caps) == Match(m, u, q, caps) {
        if u < s + n {
          assert Match(m, s + n, q, caps).Fail?;
          assert LastMatch(m, s, s + (n - 1), q, caps, u);
        }
      }
    }
  }

  /** A lazy repetition is as short as a match allows, and fails only if none does. */
  lemma {:induction false} ShortestFirst(m: Subject, s: nat, n: nat, q: nat, caps: Captures)
    requires s + n <= |m.src| && q <= |m.pat|
    ensures forall u: nat :: FirstMatch(m, s, s + n, q, caps, u) ==> TryUp(m, s, n, q, caps) == Match(m, u, q, caps)
    ensures TryUp(m, s, n, q, caps).Fail? ==> forall u: nat :: s <= u <= s + n ==> Match(m, u, q, caps).Fail?
    decreases n
  {
    hide Match;
    if n > 0 {
      ShortestFirst(m, s + 1, n - 1, q, caps);
      forall u: nat | FirstMatch(m, s, s + n, q, caps, u) ensures TryUp(m, s, n, q, caps) == Match(m, u, q, caps) {
        if u > s {
          assert Match(m, s, q, caps).Fail?;
          assert FirstMatch(m, s + 1, s + 1 + (n - 1), q, caps, u);
        }
      }
    }
  }

  // ---- The matching relation ----

  /** The class p..ep matches the k characters from s on. */
  ghost predicate Run(m: Subject, s: nat, k: nat, p: nat, ep: nat)
    requires ep > 0
  {
    forall i :: s <= i < s + k ==> SingleMatch(m, i, p, ep)
  }

  /** The pattern from p on can match the text from s to e, turning the captures caps into caps'. */
  ghost predicate Matches(m: Subject, s: nat, p: nat, caps: Captures, e: nat, caps': Captures)
    decreases |m.pat| - p
  {
    && p <= |m.pat| && s <= |m.src|
    && var (item, q) := Lex(m.pat, p);
       match item
       case Done => e == s && caps' == caps
       case Bad => false
       case Open(position) => |caps| < MAXCAPTURES && Matches(m, s, q, Opened(caps, s, position), e, caps')
       case Close => ToClose(caps) >= 0 && Matches(m, s, q, Closed(caps, ToClose(caps), s), e, caps')
       case Balance(x, y) => exists b: nat :: Balanced(m.src, s, b, x, y) && Matches(m, b, q, caps, e, caps')
       case Frontier(f) => AtFrontier(m, s, f, q) && Matches(m, s, q, caps, e, caps')
       case BackRef(d) =>
         && Referable(caps, d) && Repeats(m, s, Referred(caps, d))
         && Matches(m, s + Referred(caps, d).len, q, caps, e, caps')
       case AtEnd => s == |m.src| && e == s && caps' == caps
       case Single(ep, rep) =>
         exists k: nat :: Allowed(rep, k) && Run(m, s, k, p, ep) && Matches(m, s + k, q, caps, e, caps')
  }

  /** How often an item may be repeated. */
  predicate Allowed(rep: Rep, k: nat) {
    match rep
    case Once => k == 1
    case Optional => k <= 1
    case Plus => k >= 1
    case _ => true
  }

  /** The list has exactly the matches of the relation. */
  lemma {:induction false} AllMatches(m: Subject, s: nat, p: nat, caps: Captures, e: nat, caps': Captures)
    requires s <= |m.src| && p <= |m.pat|
    ensures (e, caps') in All(m, s, p, caps) <==> Matches(m, s, p, caps, e, caps')
    decreases |m.pat| - p, 0, 0
  {
    hide Balanced, AtFrontier, SingleMatch, Lex, Referable, MaxRun;
    var (item, q) := Lex(m.pat, p);
    match item
    case Done =>
    case Bad =>
    case Open(position) => AllMatches(m, s, q, Opened(caps, s, position), e, caps');
    case Close =>
      if ToClose(caps) >= 0 {
        AllMatches(m, s, q, Closed(caps, ToClose(caps), s), e, caps');
      }
    case Balance(x, y) =>
      var end := BalanceEnd(m.src, s, x, y);
      if end.Some? {
        AllMatches(m, end.value, q, caps, e, caps');
        forall b: nat | Balanced(m.src, s, b, x, y) ensures b == end.value {
          BalancedOnce(m.src, s, b, end.value, x, y);
        }
      }
    case Frontier(f) => AllMatches(m, s, q, caps, e, caps');
    case BackRef(d) =>
      if Referable(caps, d) && Repeats(m, s, Referred(caps, d)) {
        AllMatches(m, s + Referred(caps, d).len, q, caps, e, caps');
      }
    case AtEnd =>
    case Single(ep, rep) => SingleMatches(m, s, p, caps, e, caps');
  }

  /** The same where the next item is a single character class. */
  lemma {:induction false} SingleMatches(m: Subject, s: nat, p: nat, caps: Captures, e: nat, caps': Captures)
    requires s <= |m.src| && p <= |m.pat| && Lex(m.pat, p).0.Single?
    ensures (e, caps') in All(m, s, p, caps) <==> Matches(m, s, p, caps, e, caps')
    decreases |m.pat| - Lex(m.pat, p).1, 2, 0
  {
    hide Lex, SingleMatch, Matches, MaxRun, Run, Allowed, Within, AllDown, AllUp;
    var (item, q) := Lex(m.pat, p);
    var ep := item.ep;
    var n := MaxRun(m, s, p, ep);
    AllMatches(m, s, q, caps, e, caps');
    DownMatches(m, s, n, q, caps, e, caps');
    UpMatches(m, s, n, q, caps, e, caps');
    if SingleMatch(m, s, p, ep) {
      NextRun(m, s, p, ep);
      AllMatches(m, s + 1, q, caps, e, caps');
      DownMatches(m, s + 1, n - 1, q, caps, e, caps');
    }
    WithinRun(m, s, p, ep, item.rep);
    SingleUnfolds(m, s, p, caps, e, caps');
    match item.rep
    case Once =>
      assert Within(m, s, s + 1, p, ep, item.rep) <==> n > 0;
    case Optional =>
      assert Within(m, s, s, p, ep, item.rep) && (Within(m, s, s + 1, p, ep, item.rep) <==> n > 0);
    case Star =>
    case Plus =>
    case Lazy =>
  }

  lemma NextRun(m: Subject, s: nat, p: nat, ep: nat)
    requires ep > 0 && s <= |m.src| && SingleMatch(m, s, p, ep)
    ensures s < |m.src| && MaxRun(m, s, p, ep) == MaxRun(m, s + 1, p, ep) + 1
  {
  }

  /** The positions the item may lead to. */
  ghost predicate Within(m: Subject, s: nat, u: nat, p: nat, ep: nat, rep: Rep)
    requires ep > 0
  {
    u >= s && Allowed(rep, u - s) && Run(m, s, u - s, p, ep)
  }

  lemma WithinRun(m: Subject, s: nat, p: nat, ep: nat, rep: Rep)
    requires ep > 0 && s <= |m.src|
    ensures var n := MaxRun(m, s, p, ep);
            && (n > 0 <==> SingleMatch(m, s, p, ep))
            && forall u: nat :: Within(m, s, u, p, ep, rep) <==>
                 match rep
                 case Once => n > 0 && u == s + 1
                 case Optional => u == s || (n > 0 && u == s + 1)
                 case Plus => s + 1 <= u <= s + n
                 case _ => s <= u <= s + n
  {
    hide InClass;
    Runs(m, s, p, ep);
  }

  lemma SingleUnfolds(m: Subject, s: nat, p: nat, caps: Captures, e: nat, caps': Captures)
    requires s <= |m.src| && p <= |m.pat| && Lex(m.pat, p).0.Single?
    ensures var (item, q) := Lex(m.pat, p);
            Matches(m, s, p, caps, e, caps') <==>
            exists u: nat :: Within(m, s, u, p, item.ep, item.rep) && Matches(m, u, q, caps, e, caps')
  {
    hide Lex, Run, Allowed;
    var (item, q) := Lex(m.pat, p);
    if u: nat :| Within(m, s, u, p, item.ep, item.rep) && Matches(m, u, q, caps, e, caps') {
      assert Run(m, s, u - s, p, item.ep) && Matches(m, s + (u - s), q, caps, e, caps');
    }
    if k: nat :| Allowed(item.rep, k) && Run(m, s, k, p, item.ep) && Matches(m, s + k, q, caps, e, caps') {
      assert Within(m, s, s + k, p, item.ep, item.rep);
    }
  }

  /** A class can be repeated k times exactly if k is at most the longest run. */
  lemma Runs(m: Subject, s: nat, p: nat, ep: nat)
    requires ep > 0 && s <= |m.src|
    ensures forall k: nat :: Run(m, s, k, p, ep) <==> k <= MaxRun(m, s, p, ep)
  {
    var n := MaxRun(m, s, p, ep);
    forall k: nat ensures Run(m, s, k, p, ep) <==> k <= n {
      if k > n {
        assert s <= s + n < s + k;
      }
    }
  }

  lemma {:induction false} DownMatches(m: Subject, s: nat, n: nat, q: nat, caps: Captures, e: nat, caps': Captures)
    requires s + n <= |m.src| && q <= |m.pat|
    ensures (e, caps') in AllDown(m, s, n, q, caps) <==>
              exists u: nat :: s <= u <= s + n && Matches(m, u, q, caps, e, caps')
    decreases |m.pat| - q, 1, n
  {
    hide Match, All, Matches;
    AllMatches(m, s + n, q, caps, e, caps');
    if n > 0 {
      DownMatches(m, s, n - 1, q, caps, e, caps');
    }
  }

  lemma {:induction false} UpMatches(m: Subject, s: nat, n: nat, q: nat, caps: Captures, e: nat, caps': Captures)
    requires s + n <= |m.src| && q <= |m.pat|
    ensures (e, caps') in AllUp(m, s, n, q, caps) <==>
              exists u: nat :: s <= u <= s + n && Matches(m, u, q, caps, e, caps')
    decreases |m.pat| - q, 1, n
  {
    hide Match, All, Matches;
    AllMatches(m, s, q, caps, e, caps');
    if n > 0 {
      UpMatches(m, s + 1, n - 1, q, caps, e, caps');
    }
  }

  /** What the outcome of a search says about the relation: success is a match, failure that there is none. */
  lemma MatchMeaning(m: Subject, s: nat, p: nat, caps: Captures)
    requires s <= |m.src| && p <= |m.pat|
    ensures match Match(m, s, p, caps)
            case Error => true
            case Fail => forall e, caps' :: !Matches(m, s, p, caps, e, caps')
            case Success(e, caps') => Matches(m, s, p, caps, e, caps')
  {
    hide Match, Matches, All;
    MatchIsFirst(m, s, p, caps);
    forall e: nat, caps' ensures (e, caps') in All(m, s, p, caps) <==> Matches(m, s, p, caps, e, caps') {
      AllMatches(m, s, p, caps, e, caps');
    }
  }

  /** A match ends after it begins. */
  lemma {:induction false} MatchesForward(m: Subject, s: nat, p: nat, caps: Captures, e: nat, caps': Captures)
    requires Matches(m, s, p, caps, e, caps')
    ensures s <= e <= |m.src|
    decreases |m.pat| - p
  {
    hide Balanced, AtFrontier, SingleMatch, Lex, Referable, Run;
    var (item, q) := Lex(m.pat, p);
    match item
    case Done =>
    case Open(position) => MatchesForward(m, s, q, Opened(caps, s, position), e, caps');
    case Close => MatchesForward(m, s, q, Closed(caps, ToClose(caps), s), e, caps');
    case Balance(x, y) =>
      var b: nat :| Balanced(m.src, s, b, x, y) && Matches(m, b, q, caps, e, caps');
      BalancedForward(m.src, s, b, x, y);
      MatchesForward(m, b, q, caps, e, caps');
    case Frontier(f) => MatchesForward(m, s, q, caps, e, caps');
    case BackRef(d) => MatchesForward(m, s + Referred(caps, d).len, q, caps, e, caps');
    case AtEnd =>
    case Single(ep, rep) =>
      var k: nat :| Allowed(rep, k) && Run(m, s, k, p, ep) && Matches(m, s + k, q, caps, e, caps');
      MatchesForward(m, s + k, q, caps, e, caps');
  }

  lemma BalancedForward(src: string, s: nat, q: nat, x: char, y: char)
    requires Balanced(src, s, q, x, y)
    ensures s < q <= |src|
  {
  }
}
