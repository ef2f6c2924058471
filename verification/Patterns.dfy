/** Lua patterns (lstrlib.c): their items, what one character matches, and the two meanings of a pattern. */
module Patterns {
  import opened Base

  const MAXCAPTURES: nat := 32
  const CAP_UNFINISHED: int := -1
  const CAP_POSITION: int := -2
  const ESC := '%'

  /** A C string: reading at the end, or beyond, gives the terminating zero. */
  function CharAt(s: string, i: nat): char { if i < |s| then s[i] else '\0' }

  datatype Capture = Capture(init: nat, len: int)

  type Captures = seq<Capture>

  datatype Subject = Subject(src: string, pat: string)

  // ---- Character classes, in the C locale ----

  predicate IsUpper(c: char) { 'A' <= c <= 'Z' }
  predicate IsLower(c: char) { 'a' <= c <= 'z' }
  predicate IsAlpha(c: char) { IsUpper(c) || IsLower(c) }
  predicate IsDigit(c: char) { '0' <= c <= '9' }
  predicate IsAlnum(c: char) { IsAlpha(c) || IsDigit(c) }
  predicate IsCntrl(c: char) { c < ' ' || c == 127 as char }
  predicate IsPunct(c: char) { ' ' < c < 127 as char && !IsAlnum(c) }
  predicate IsSpace(c: char) { c == ' ' || 9 as char <= c <= 13 as char }
  predicate IsXDigit(c: char) { IsDigit(c) || 'A' <= c <= 'F' || 'a' <= c <= 'f' }

  function ToLower(c: char): char { if IsUpper(c) then (c as int + 32) as char else c }

  /** match_class. */
  predicate MatchClass(c: char, cl: char) {
    var k := ToLower(cl);
    var known := k in "acdlpsuwxz";
    var res :=
      match k
      case 'a' => IsAlpha(c)
      case 'c' => IsCntrl(c)
      case 'd' => IsDigit(c)
      case 'l' => IsLower(c)
      case 'p' => IsPunct(c)
      case 's' => IsSpace(c)
      case 'u' => IsUpper(c)
      case 'w' => IsAlnum(c)
      case 'x' => IsXDigit(c)
      case _ => c == '\0';
    if !known then cl == c else if IsLower(cl) then res else !res
  }

  // ---- Sets ----

  /** The members of a set: a class, a range, or a character. */
  datatype Member = ClassOf(cl: char) | Range(lo: char, hi: char)

  predicate InMember(c: char, m: Member) {
    match m
    case ClassOf(cl) => MatchClass(c, cl)
    case Range(lo, hi) => lo <= c <= hi
  }

  /** The member written at position q, and where the next one starts. */
  function MemberAt(pat: string, q: nat, ec: nat): (r: (Member, nat))
    ensures r.1 > q
  {
    if CharAt(pat, q) == ESC then (ClassOf(CharAt(pat, q + 1)), q + 2)
    else if CharAt(pat, q + 1) == '-' && q + 2 < ec then (Range(CharAt(pat, q), CharAt(pat, q + 2)), q + 3)
    else (Range(CharAt(pat, q), CharAt(pat, q)), q + 1)
  }

  /** The members written between position q and the closing bracket at ec. */
  function Members(pat: string, q: nat, ec: nat): seq<Member>
    decreases ec - q
  {
    if q >= ec then [] else [MemberAt(pat, q, ec).0] + Members(pat, MemberAt(pat, q, ec).1, ec)
  }

  /** A set that opens at p and closes at ec contains c. */
  ghost predicate InSet(pat: string, p: nat, ec: nat, c: char) {
    var negated := CharAt(pat, p + 1) == '^';
    InSome(c, Members(pat, if negated then p + 2 else p + 1, ec)) != negated
  }

  ghost predicate InSome(c: char, ms: seq<Member>) { exists i :: 0 <= i < |ms| && InMember(c, ms[i]) }

  lemma SomeFirst(c: char, m: Member, ms: seq<Member>)
    ensures InSome(c, [m] + ms) <==> InMember(c, m) || InSome(c, ms)
  {
    hide InMember;
    var all := [m] + ms;
    if InMember(c, m) {
      assert all[0] == m;
    }
    if i :| 0 <= i < |ms| && InMember(c, ms[i]) {
      assert all[i + 1] == ms[i];
    }
  }

  /** The pattern from p to ep stands for the character c. */
  ghost predicate InClass(pat: string, p: nat, ep: nat, c: char)
    requires ep > 0
  {
    match CharAt(pat, p)
    case '.' => true
    case '%' => MatchClass(c, CharAt(pat, p + 1))
    case '[' => InSet(pat, p, ep - 1, c)
    case d => d == c
  }

  // ---- Items ----

  datatype Rep = Once | Optional | Star | Plus | Lazy

  datatype Item =
    | Done
    | Bad
    | Open(position: bool)
    | Close
    | Balance(x: char, y: char)
    | Frontier(p: nat)
    | BackRef(digit: char)
    | AtEnd
    | Single(ep: nat, rep: Rep)

  /** Where a set ends: after the first bracket that is neither its first character nor escaped. */
  function SetEnd(pat: string, q: nat): (r: Option<nat>)
    ensures r.Some? ==> q + 1 < r.value <= |pat|
    decreases |pat| - q
  {
    if CharAt(pat, q) == '\0' then None
    else
      var q1 := if pat[q] == ESC && CharAt(pat, q + 1) != '\0' then q + 2 else q + 1;
      if CharAt(pat, q1) == ']' then Some(q1 + 1) else SetEnd(pat, q1)
  }

  /** Where a single-character class ends. */
  function ClassEnd(pat: string, p: nat): (r: Option<nat>)
    requires p < |pat|
    ensures r.Some? ==> p < r.value <= |pat|
  {
    match pat[p]
    case '%' => if CharAt(pat, p + 1) == '\0' then None else Some(p + 2)
    case '[' => SetEnd(pat, if CharAt(pat, p + 1) == '^' then p + 2 else p + 1)
    case _ => Some(p + 1)
  }

  /** The item at p and where the next one begins. */
  function Lex(pat: string, p: nat): (r: (Item, nat))
    ensures !r.0.Done? && !r.0.Bad? && !r.0.AtEnd? ==> p < r.1 <= |pat|
    ensures r.0.Single? ==> p < |pat| && p < r.0.ep <= r.1
  {
    var next := CharAt(pat, p + 1);
    match CharAt(pat, p)
    case '\0' => (Done, p)
    case '(' => if next == ')' then (Open(true), p + 2) else (Open(false), p + 1)
    case ')' => (Close, p + 1)
    case '$' => if next == '\0' then (AtEnd, p) else LexSingle(pat, p)
    case '%' =>
      if next == 'b' then
        if CharAt(pat, p + 2) == '\0' || CharAt(pat, p + 3) == '\0' then (Bad, p)
        else (Balance(CharAt(pat, p + 2), CharAt(pat, p + 3)), p + 4)
      else if next == 'f' then
        if CharAt(pat, p + 2) != '[' then (Bad, p)
        else (match ClassEnd(pat, p + 2) case None => (Bad, p) case Some(ep) => (Frontier(p + 2), ep))
      else if IsDigit(next) then (BackRef(next), p + 2)
      else LexSingle(pat, p)
    case _ => LexSingle(pat, p)
  }

  function LexSingle(pat: string, p: nat): (r: (Item, nat))
    requires p < |pat|
    ensures r.0.Bad? || (r.0.Single? && p < r.0.ep <= r.1 <= |pat|)
  {
    match ClassEnd(pat, p)
    case None => (Bad, p)
    case Some(ep) =>
      match CharAt(pat, ep)
      case '?' => (Single(ep, Optional), ep + 1)
      case '*' => (Single(ep, Star), ep + 1)
      case '+' => (Single(ep, Plus), ep + 1)
      case '-' => (Single(ep, Lazy), ep + 1)
      case _ => (Single(ep, Once), ep)
  }
}
