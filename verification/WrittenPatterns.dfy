/**
 What the text of a pattern means.  A pattern is built from parts whose meaning is given by character codes and
 by lists of parts; written down, and read back by the matcher character by character, it has that meaning.
 */
module WrittenPatterns {
  import opened Base
  import opened Patterns
  import opened Matching

  // ---- Parts and their meaning ----

  /** The classes of the reference manual, each with its complement. */
  datatype Kind = Letters | Controls | Digits | Lower | Punctuation | Spaces | Upper | Alphanumeric | Hexadecimal | Zero

  predicate Between(c: char, lo: int, hi: int) { lo <= c as int <= hi }

  /** The ASCII codes of a class. */
  predicate InKind(k: Kind, c: char) {
    match k
    case Letters => Between(c, 65, 90) || Between(c, 97, 122)
    case Controls => Between(c, 0, 31) || c as int == 127
    case Digits => Between(c, 48, 57)
    case Lower => Between(c, 97, 122)
    case Punctuation => Between(c, 33, 47) || Between(c, 58, 64) || Between(c, 91, 96) || Between(c, 123, 126)
    case Spaces => Between(c, 9, 13) || c as int == 32
    case Upper => Between(c, 65, 90)
    case Alphanumeric => Between(c, 48, 57) || Between(c, 65, 90) || Between(c, 97, 122)
    case Hexadecimal => Between(c, 48, 57) || Between(c, 65, 70) || Between(c, 97, 102)
    case Zero => c as int == 0
  }

  /** A member of a set. */
  datatype Elem = One(c: char) | Span(lo: char, hi: char) | Known(k: Kind, complement: bool)

  predicate InElem(e: Elem, c: char) {
    match e
    case One(d) => c == d
    case Span(lo, hi) => lo <= c <= hi
    case Known(k, complement) => InKind(k, c) != complement
  }

  datatype Atom = Any | Char(c: char) | Class(k: Kind, complement: bool) | Set(elems: seq<Elem>, complement: bool)

  ghost predicate InElems(es: seq<Elem>, c: char) { exists e :: e in es && InElem(e, c) }

  /** The characters that an atom stands for. */
  ghost predicate Accepts(a: Atom, c: char) {
    match a
    case Any => true
    case Char(d) => c == d
    case Class(k, complement) => InKind(k, c) != complement
    case Set(es, complement) => InElems(es, c) != complement
  }

  datatype Part =
    | Times(a: Atom, rep: Rep)
    | OpenCapture
    | OpenPosition
    | CloseCapture
    | Pair(x: char, y: char)                 // balanced text from x to y
    | Border(elems: seq<Elem>, complement: bool)
    | Again(digit: char)                     // the text of a capture
    | End

  /** The text from s on has k characters that the atom accepts. */
  ghost predicate Holds(a: Atom, src: string, s: nat, k: nat) {
    s + k <= |src| && forall i :: s <= i < s + k ==> Accepts(a, src[i])
  }

  predicate Count(rep: Rep, k: nat) {
    match rep
    case Once => k == 1
    case Optional => k == 0 || k == 1
    case Star => true
    case Plus => k > 0
    case Lazy => true
  }

  /** Between positions s - 1 and s the text enters the set; beyond both ends there is a zero. */
  ghost predicate Enters(es: seq<Elem>, complement: bool, src: string, s: nat) {
    var before := if s == 0 then 0 as char else CharAt(src, s - 1);
    InElems(es, before) == complement && InElems(es, CharAt(src, s)) != complement
  }

  /** The parts can be found one after the other in the text from s to e; they turn the captures caps into caps'. */
  ghost predicate Spells(ps: seq<Part>, src: string, s: nat, caps: Captures, e: nat, caps': Captures)
    decreases |ps|
  {
    && s <= |src|
    && if |ps| == 0 then e == s && caps' == caps
       else match ps[0]
         case Times(a, rep) =>
           exists k: nat :: Count(rep, k) && Holds(a, src, s, k) && Spells(ps[1..], src, s + k, caps, e, caps')
         case OpenCapture => |caps| < MAXCAPTURES && Spells(ps[1..], src, s, Opened(caps, s, false), e, caps')
         case OpenPosition => |caps| < MAXCAPTURES && Spells(ps[1..], src, s, Opened(caps, s, true), e, caps')
         case CloseCapture => ToClose(caps) >= 0 && Spells(ps[1..], src, s, Closed(caps, ToClose(caps), s), e, caps')
         case Pair(x, y) => exists b: nat :: Balanced(src, s, b, x, y) && Spells(ps[1..], src, b, caps, e, caps')
         case Border(es, complement) => Enters(es, complement, src, s) && Spells(ps[1..], src, s, caps, e, caps')
         case Again(d) =>
           && Referable(caps, d) && Repeats(Subject(src, ""), s, Referred(caps, d))
           && Spells(ps[1..], src, s + Referred(caps, d).len, caps, e, caps')
         case End => s == |src| && e == s && caps' == caps
  }

  // ---- Writing ----

  predicate Alphanum(c: char) { InKind(Alphanumeric, c) }

  function Letter(k: Kind, complement: bool): char {
    match k
    case Letters => if complement then 'A' else 'a'
    case Controls => if complement then 'C' else 'c'
    case Digits => if complement then 'D' else 'd'
    case Lower => if complement then 'L' else 'l'
    case Punctuation => if complement then 'P' else 'p'
    case Spaces => if complement then 'S' else 's'
    case Upper => if complement then 'U' else 'u'
    case Alphanumeric => if complement then 'W' else 'w'
    case Hexadecimal => if complement then 'X' else 'x'
    case Zero => if complement then 'Z' else 'z'
  }

  /** A character for itself; `%` takes away what it may mean. */
  function WriteChar(c: char): string { if Alphanum(c) then [c] else ['%', c] }

  function WriteElem(e: Elem): string {
    match e
    case One(c) => WriteChar(c)
    case Span(lo, hi) => [lo, '-', hi]
    case Known(k, complement) => ['%', Letter(k, complement)]
  }

  function WriteElems(es: seq<Elem>): string {
    if |es| == 0 then "" else WriteElem(es[0]) + WriteElems(es[1..])
  }

  function WriteSet(es: seq<Elem>, complement: bool): string {
    (if complement then "[^" else "[") + WriteElems(es) + "]"
  }

  function WriteAtom(a: Atom): string {
    match a
    case Any => "."
    case Char(c) => WriteChar(c)
    case Class(k, complement) => ['%', Letter(k, complement)]
    case Set(es, complement) => WriteSet(es, complement)
  }

  function WriteRep(rep: Rep): string {
    match rep
    case Once => ""
    case Optional => "?"
    case Star => "*"
    case Plus => "+"
    case Lazy => "-"
  }

  function WritePart(p: Part): string {
    match p
    case Times(a, rep) => WriteAtom(a) + WriteRep(rep)
    case OpenCapture => "("
    case OpenPosition => "()"
    case CloseCapture => ")"
    case Pair(x, y) => ['%', 'b', x, y]
    case Border(es, complement) => "%f" + WriteSet(es, complement)
    case Again(d) => ['%', d]
    case End => "$"
  }

  function Write(ps: seq<Part>): string {
    if |ps| == 0 then "" else WritePart(ps[0]) + Write(ps[1..])
  }

  /** A zero cannot be written; the ends of a span are letters or digits. */
  predicate ProperElem(e: Elem) {
    match e
    case One(c) => c as int != 0
    case Span(lo, hi) => Alphanum(lo) && Alphanum(hi)
    case Known(_, _) => true
  }

  predicate ProperElems(es: seq<Elem>) { |es| > 0 && forall e :: e in es ==> ProperElem(e) }

  predicate ProperAtom(a: Atom) {
    match a
    case Char(c) => c as int != 0
    case Set(es, _) => ProperElems(es)
    case _ => true
  }

  predicate ProperPart(p: Part) {
    match p
    case Times(a, _) => ProperAtom(a)
    case Pair(x, y) => x as int != 0 && y as int != 0
    case Border(es, _) => ProperElems(es)
    case Again(d) => Between(d, 48, 57)
    case _ => true
  }

  /** "()" is a position capture, and "$" is special only at the end. */
  predicate Proper(ps: seq<Part>) {
    && (forall p :: p in ps ==> ProperPart(p))
    && (forall i :: 0 <= i < |ps| - 1 ==> !ps[i].End? && (ps[i].OpenCapture? ==> !ps[i + 1].CloseCapture?))
  }

  // ---- Classes ----

  /** match_class, character by character. */
  lemma ClassCodes(c: char, k: Kind, complement: bool)
    ensures MatchClass(c, Letter(k, complement)) <==> InKind(k, c) != complement
  {
  }

  /** Every other character stands for itself after `%`. */
  lemma OtherEscape(c: char, cl: char)
    requires cl !in "acdlpsuwxzACDLPSUWXZ"
    ensures MatchClass(c, cl) <==> c == cl
  {
  }

  // ---- Sets ----

  /** The text x stands in pat at position p. */
  predicate At(pat: string, p: nat, x: string) { p + |x| <= |pat| && pat[p..p + |x|] == x }

  lemma AtSplit(pat: string, p: nat, x: string, y: string)
    requires At(pat, p, x + y)
    ensures At(pat, p, x) && At(pat, p + |x|, y)
  {
    assert pat[p..p + |x|] == pat[p..p + |x + y|][..|x|];
    assert pat[p + |x|..p + |x| + |y|] == pat[p..p + |x + y|][|x|..];
  }

  lemma AtChar(pat: string, p: nat, x: string, i: nat)
    requires At(pat, p, x) && i < |x|
    ensures p + i < |pat| && CharAt(pat, p + i) == pat[p + i] == x[i]
  {
    assert pat[p..p + |x|][i] == x[i];
  }

  /** One member of a set. */
  lemma ElemRead(pat: string, p: nat, e: Elem, ec: nat)
    requires ProperElem(e) && At(pat, p, WriteElem(e)) && p + |WriteElem(e)| <= ec
    requires CharAt(pat, p + |WriteElem(e)|) != '-'
    ensures MemberAt(pat, p, ec).1 == p + |WriteElem(e)|
    ensures forall c :: InMember(c, MemberAt(pat, p, ec).0) <==> InElem(e, c)
  {
    var x := WriteElem(e);
    AtChar(pat, p, x, 0);
    if |x| > 1 {
      AtChar(pat, p, x, 1);
    }
    match e
    case One(d) =>
      if !Alphanum(d) {
        forall c ensures MatchClass(c, d) <==> c == d {
          OtherEscape(c, d);
        }
      }
    case Span(lo, hi) => AtChar(pat, p, x, 2);
    case Known(k, complement) =>
      forall c ensures MatchClass(c, Letter(k, complement)) <==> InKind(k, c) != complement {
        ClassCodes(c, k, complement);
      }
  }

  /** What follows in a set is a letter, a digit, `%` or the bracket. */
  lemma ElemsStart(pat: string, p: nat, es: seq<Elem>)
    requires (forall e :: e in es ==> ProperElem(e)) && At(pat, p, WriteElems(es) + "]")
    ensures p < |pat| && (es == [] ==> pat[p] == ']') && pat[p] != '-'
    ensures es != [] ==> pat[p] != ']' && pat[p] != '^' && pat[p] as int != 0
  {
    if es == [] {
      AtChar(pat, p, "]", 0);
    } else {
      assert es[0] in es;
      AtSplit(pat, p, WriteElems(es), "]");
      AtSplit(pat, p, WriteElem(es[0]), WriteElems(es[1..]));
      AtChar(pat, p, WriteElem(es[0]), 0);
    }
  }

  lemma ElemsNext(pat: string, p: nat, es: seq<Elem>)
    requires |es| > 0 && At(pat, p, WriteElems(es) + "]")
    ensures At(pat, p, WriteElem(es[0])) && At(pat, p + |WriteElem(es[0])|, WriteElems(es[1..]) + "]")
    ensures |WriteElems(es)| == |WriteElem(es[0])| + |WriteElems(es[1..])|
  {
    assert WriteElems(es) + "]" == WriteElem(es[0]) + (WriteElems(es[1..]) + "]");
    AtSplit(pat, p, WriteElem(es[0]), WriteElems(es[1..]) + "]");
  }

  lemma {:induction false} ElemsRead(pat: string, p: nat, es: seq<Elem>, c: char)
    requires (forall e :: e in es ==> ProperElem(e)) && At(pat, p, WriteElems(es) + "]")
    ensures InSome(c, Members(pat, p, p + |WriteElems(es)|)) <==> InElems(es, c)
    decreases |es|
  {
    hide WriteElem, MemberAt, InMember, InElem, ProperElem;
    var ec := p + |WriteElems(es)|;
    if es != [] {
      assert es[0] in es;
      ElemsNext(pat, p, es);
      var q := p + |WriteElem(es[0])|;
      ElemsStart(pat, q, es[1..]);
      ElemRead(pat, p, es[0], ec);
      ElemsRead(pat, q, es[1..], c);
      ElemLength(es[0]);
      var m, ms := MemberAt(pat, p, ec).0, Members(pat, q, ec);
      assert Members(pat, p, ec) == [m] + ms;
      SomeFirst(c, m, ms);
      ElemsFirst(es, c);
    }
  }

  lemma ElemLength(e: Elem)
    ensures |WriteElem(e)| > 0
  {
  }

  lemma ElemsFirst(es: seq<Elem>, c: char)
    requires es != []
    ensures InElems(es, c) <==> InElem(es[0], c) || InElems(es[1..], c)
  {
    hide InElem;
    assert es == [es[0]] + es[1..];
  }

  /** The end of a set is its first bracket that is not part of a member. */
  lemma {:induction false} SetEndRead(pat: string, p: nat, es: seq<Elem>)
    requires ProperElems(es) && At(pat, p, WriteElems(es) + "]")
    ensures SetEnd(pat, p) == Some(p + |WriteElems(es)| + 1)
    decreases |es|
  {
    hide ProperElem, WriteElem;
    assert es[0] in es;
    ElemsStart(pat, p, es);
    ElemsNext(pat, p, es);
    var q := p + |WriteElem(es[0])|;
    ElemsStart(pat, q, es[1..]);
    ElemEnd(pat, p, es[0]);
    if es[1..] != [] {
      SetEndRead(pat, q, es[1..]);
    }
  }

  /** Reading over one member of a set. */
  lemma ElemEnd(pat: string, p: nat, e: Elem)
    requires ProperElem(e) && At(pat, p, WriteElem(e)) && p + |WriteElem(e)| < |pat|
    ensures var q := p + |WriteElem(e)|;
            SetEnd(pat, p) == if CharAt(pat, q) == ']' then Some(q + 1) else SetEnd(pat, q)
  {
    var x := WriteElem(e);
    AtChar(pat, p, x, 0);
    if |x| > 1 {
      AtChar(pat, p, x, 1);
    }
    if |x| > 2 {
      AtChar(pat, p, x, 2);
      assert SetEnd(pat, p) == SetEnd(pat, p + 1) == SetEnd(pat, p + 2);
    }
  }

  /** A whole set, with its brackets. */
  lemma SetRead(pat: string, p: nat, es: seq<Elem>, complement: bool)
    requires ProperElems(es) && At(pat, p, WriteSet(es, complement))
    ensures p < |pat| && pat[p] == '[' && ClassEnd(pat, p) == Some(p + |WriteSet(es, complement)|)
    ensures forall c :: InSet(pat, p, p + |WriteSet(es, complement)| - 1, c) <==> InElems(es, c) != complement
  {
    hide WriteElems, ProperElems, Members, InSome, SetEnd, InElems;
    var open := if complement then "[^" else "[";
    assert WriteSet(es, complement) == open + (WriteElems(es) + "]");
    AtSplit(pat, p, open, WriteElems(es) + "]");
    AtChar(pat, p, open, 0);
    if complement {
      AtChar(pat, p, open, 1);
    }
    var q := p + |open|;
    assert es != [] && forall e :: e in es ==> ProperElem(e) by {
      ProperElemsFacts(es);
    }
    ElemsStart(pat, q, es);
    SetEndRead(pat, q, es);
    forall c ensures InSome(c, Members(pat, q, q + |WriteElems(es)|)) <==> InElems(es, c) {
      ElemsRead(pat, q, es, c);
    }
  }

  lemma ProperElemsFacts(es: seq<Elem>)
    requires ProperElems(es)
    ensures es != [] && forall e :: e in es ==> ProperElem(e)
  {
  }

  /** A bracket that comes first in a set, and a dash that comes last, stand for themselves. */
  lemma SetEdges(lo: char, complement: bool, c: char)
    requires Alphanum(lo)
    ensures var pat := (if complement then "[^" else "[") + [']', lo, '-', ']'];
            && ClassEnd(pat, 0) == Some(|pat|)
            && (InClass(pat, 0, |pat|, c) <==> (c == ']' || c == lo || c == '-') != complement)
  {
    var open := if complement then "[^" else "[";
    var pat := open + [']', lo, '-', ']'];
    var q, ec := |open|, |pat| - 1;
    var first, second, third := Range(']', ']'), Range(lo, lo), Range('-', '-');
    assert SetEnd(pat, q) == SetEnd(pat, q + 1) == SetEnd(pat, q + 2) == Some(|pat|);
    assert MemberAt(pat, q, ec) == (first, q + 1) && MemberAt(pat, q + 1, ec) == (second, q + 2);
    assert MemberAt(pat, q + 2, ec) == (third, q + 3);
    assert Members(pat, q + 2, ec) == [third] + Members(pat, q + 3, ec) == [third];
    assert Members(pat, q + 1, ec) == [second, third];
    assert Members(pat, q, ec) == [first, second, third];
    assert InSome(c, [first, second, third]) <==> InMember(c, first) || InMember(c, second) || InMember(c, third) by {
      SomeFirst(c, first, [second, third]);
      SomeFirst(c, second, [third]);
      SomeFirst(c, third, []);
    }
  }

  /** An atom ends where it was written to end, and stands for the characters it was written for. */
  lemma AtomRead(pat: string, p: nat, a: Atom)
    requires ProperAtom(a) && At(pat, p, WriteAtom(a))
    ensures p < |pat| && ClassEnd(pat, p) == Some(p + |WriteAtom(a)|)
    ensures forall c :: InClass(pat, p, p + |WriteAtom(a)|, c) <==> Accepts(a, c)
  {
    hide WriteElems, ProperElems, InSet, InElems, SetEnd;
    var x := WriteAtom(a);
    match a
    case Any => AtChar(pat, p, x, 0);
    case Char(d) =>
      AtChar(pat, p, x, 0);
      if !Alphanum(d) {
        AtChar(pat, p, x, 1);
        forall c ensures MatchClass(c, d) <==> c == d {
          OtherEscape(c, d);
        }
      }
    case Class(k, complement) =>
      AtChar(pat, p, x, 0);
      AtChar(pat, p, x, 1);
      forall c ensures MatchClass(c, Letter(k, complement)) <==> InKind(k, c) != complement {
        ClassCodes(c, k, complement);
      }
    case Set(es, complement) =>
      SetRead(pat, p, es, complement);
      AtChar(pat, p, x, 0);
  }

  // ---- Parts ----

  /** What follows a part is no sign of repetition. */
  lemma PartsStart(pat: string, p: nat, ps: seq<Part>)
    requires Proper(ps) && At(pat, p, Write(ps)) && p + |Write(ps)| == |pat|
    ensures CharAt(pat, p) !in "?*+-"
    ensures ps == [] ==> p == |pat|
    ensures ps != [] ==> p < |pat| && (pat[p] == ')' ==> ps[0].CloseCapture?) && pat[p] as int != 0
  {
    if ps != [] {
      assert ps[0] in ps;
      AtSplit(pat, p, WritePart(ps[0]), Write(ps[1..]));
      PartStart(ps[0]);
      AtChar(pat, p, WritePart(ps[0]), 0);
    }
  }

  lemma PartStart(p: Part)
    requires ProperPart(p)
    ensures |WritePart(p)| > 0 && WritePart(p)[0] !in "?*+-" && WritePart(p)[0] as int != 0
    ensures WritePart(p)[0] == ')' ==> p.CloseCapture?
  {
    hide WriteElems;
  }

  /** The item that the matcher reads at p. */
  function ItemOf(part: Part, p: nat): Item {
    match part
    case Times(a, rep) => Single(p + |WriteAtom(a)|, rep)
    case OpenCapture => Open(false)
    case OpenPosition => Open(true)
    case CloseCapture => Close
    case Pair(x, y) => Balance(x, y)
    case Border(_, _) => Frontier(p + 2)
    case Again(d) => BackRef(d)
    case End => AtEnd
  }

  /** The matcher reads a part as it was written, and goes on behind it. */
  lemma PartRead(pat: string, p: nat, ps: seq<Part>)
    requires Proper(ps) && ps != [] && At(pat, p, Write(ps)) && p + |Write(ps)| == |pat|
    ensures At(pat, p, WritePart(ps[0])) && At(pat, p + |WritePart(ps[0])|, Write(ps[1..])) && Proper(ps[1..])
    ensures |Write(ps)| == |WritePart(ps[0])| + |Write(ps[1..])| && |WritePart(ps[0])| > 0
    ensures Lex(pat, p).0 == ItemOf(ps[0], p)
    ensures !ps[0].End? ==> Lex(pat, p).1 == p + |WritePart(ps[0])|
  {
    hide WritePart, Lex, ProperPart;
    var part, x := ps[0], WritePart(ps[0]);
    assert part in ps;
    AtSplit(pat, p, x, Write(ps[1..]));
    ProperRest(ps);
    PartStart(part);
    PartsStart(pat, p + |x|, ps[1..]);
    if part.OpenCapture? && ps[1..] != [] {
      assert ps[1] == ps[1..][0];
    }
    ItemRead(pat, p, part);
  }

  /** One item, by what follows it. */
  lemma ItemRead(pat: string, p: nat, part: Part)
    requires ProperPart(part) && At(pat, p, WritePart(part))
    requires var q := p + |WritePart(part)|;
             && CharAt(pat, q) !in "?*+-" && (part.End? ==> q == |pat|)
             && (part.OpenCapture? ==> CharAt(pat, q) != ')')
    ensures Lex(pat, p).0 == ItemOf(part, p)
    ensures !part.End? ==> Lex(pat, p).1 == p + |WritePart(part)|
  {
    hide WriteAtom, WriteSet, ClassEnd, ProperAtom;
    var x := WritePart(part);
    match part
    case Times(a, rep) => TimesRead(pat, p, a, rep);
    case Border(es, complement) =>
      AtSplit(pat, p, "%f", WriteSet(es, complement));
      AtChar(pat, p, "%f", 0);
      AtChar(pat, p, "%f", 1);
      SetRead(pat, p + 2, es, complement);
    case Pair(_, _) =>
      AtChar(pat, p, x, 0);
      AtChar(pat, p, x, 1);
      AtChar(pat, p, x, 2);
      AtChar(pat, p, x, 3);
    case OpenPosition =>
      AtChar(pat, p, x, 0);
      AtChar(pat, p, x, 1);
    case Again(_) =>
      AtChar(pat, p, x, 0);
      AtChar(pat, p, x, 1);
    case _ => AtChar(pat, p, x, 0);
  }

  lemma ProperRest(ps: seq<Part>)
    requires Proper(ps) && ps != []
    ensures Proper(ps[1..])
  {
    hide ProperPart;
    forall i | 0 <= i < |ps[1..]| - 1
      ensures !ps[1..][i].End? && (ps[1..][i].OpenCapture? ==> !ps[1..][i + 1].CloseCapture?)
    {
      assert ps[1..][i] == ps[i + 1] && ps[1..][i + 1] == ps[i + 2];
    }
  }

  lemma TimesRead(pat: string, p: nat, a: Atom, rep: Rep)
    requires ProperAtom(a) && At(pat, p, WriteAtom(a) + WriteRep(rep))
    requires CharAt(pat, p + |WriteAtom(a)| + |WriteRep(rep)|) !in "?*+-"
    ensures Lex(pat, p) == (Single(p + |WriteAtom(a)|, rep), p + |WriteAtom(a)| + |WriteRep(rep)|)
  {
    hide ClassEnd, InClass, Accepts, WriteAtom;
    AtSplit(pat, p, WriteAtom(a), WriteRep(rep));
    AtomRead(pat, p, a);
    if rep != Once {
      AtChar(pat, p + |WriteAtom(a)|, WriteRep(rep), 0);
    }
    assert LexSingle(pat, p) == (Single(p + |WriteAtom(a)|, rep), p + |WriteAtom(a)| + |WriteRep(rep)|);
    AtomStart(a);
    AtChar(pat, p, WriteAtom(a), 0);
    if WriteAtom(a)[0] == '%' {
      AtChar(pat, p, WriteAtom(a), 1);
    }
  }

  lemma AtomStart(a: Atom)
    requires ProperAtom(a)
    ensures var x := WriteAtom(a);
            |x| > 0 && x[0] !in "()$" && x[0] as int != 0
            && (x[0] == '%' ==> |x| > 1 && x[1] != 'b' && x[1] != 'f' && !IsDigit(x[1]))
  {
    hide WriteElems;
  }

  // ---- What a written pattern matches ----

  /** A run of characters of the class is a run of characters that the atom accepts. */
  lemma TimesRun(m: Subject, p: nat, a: Atom, s: nat, k: nat)
    requires ProperAtom(a) && At(m.pat, p, WriteAtom(a)) && p + |WriteAtom(a)| > 0
    ensures Run(m, s, k, p, p + |WriteAtom(a)|) && s <= |m.src| <==> Holds(a, m.src, s, k)
  {
    hide InClass, Accepts, WriteAtom;
    AtomRead(m.pat, p, a);
    var ep := p + |WriteAtom(a)|;
    if Run(m, s, k, p, ep) && s <= |m.src| {
      assert s <= |m.src| < s + k ==> SingleMatch(m, |m.src|, p, ep);
      forall i | s <= i < s + k ensures Accepts(a, m.src[i]) {
        assert SingleMatch(m, i, p, ep);
      }
    }
  }

  lemma CountAllowed(rep: Rep, k: nat)
    ensures Count(rep, k) <==> Allowed(rep, k)
  {
  }

  lemma BorderEnters(m: Subject, p: nat, es: seq<Elem>, complement: bool, s: nat)
    requires ProperElems(es) && At(m.pat, p, "%f" + WriteSet(es, complement))
    ensures AtFrontier(m, s, p + 2, p + 2 + |WriteSet(es, complement)|) <==> Enters(es, complement, m.src, s)
  {
    hide InSet, InElems, ProperElems;
    AtSplit(m.pat, p, "%f", WriteSet(es, complement));
    SetRead(m.pat, p + 2, es, complement);
  }

  /** The matching relation on the text of a pattern is what its parts mean. */
  lemma {:induction false} WrittenMeaning(m: Subject, p: nat, ps: seq<Part>, s: nat, caps: Captures, e: nat,
                                          caps': Captures)
    requires Proper(ps) && At(m.pat, p, Write(ps)) && p + |Write(ps)| == |m.pat|
    ensures Matches(m, s, p, caps, e, caps') <==> Spells(ps, m.src, s, caps, e, caps')
    decreases |ps|
  {
    hide Write, WritePart, Lex, Proper, Balanced, Closed, Opened, Referable, Repeats, Run, Holds, Count, Allowed,
      AtFrontier, Enters;
    if ps == [] {
      assert p == |m.pat| by {
        PartsStart(m.pat, p, ps);
      }
      assert Lex(m.pat, p).0 == Done by {
        LexEnd(m.pat);
      }
    } else {
      var rest, q := ps[1..], p + |WritePart(ps[0])|;
      PartRead(m.pat, p, ps);
      if s <= |m.src| {
        match ps[0]
        case Times(a, rep) => TimesMeaning(m, p, ps, s, caps, e, caps');
        case OpenCapture => WrittenMeaning(m, q, rest, s, Opened(caps, s, false), e, caps');
        case OpenPosition => WrittenMeaning(m, q, rest, s, Opened(caps, s, true), e, caps');
        case CloseCapture =>
          if ToClose(caps) >= 0 {
            WrittenMeaning(m, q, rest, s, Closed(caps, ToClose(caps), s), e, caps');
          }
        case Pair(x, y) =>
          forall b: nat ensures Matches(m, b, q, caps, e, caps') <==> Spells(rest, m.src, b, caps, e, caps') {
            WrittenMeaning(m, q, rest, b, caps, e, caps');
          }
        case Border(es, complement) =>
          BorderRead(m, p, ps, s);
          WrittenMeaning(m, q, rest, s, caps, e, caps');
        case Again(d) =>
          if Referable(caps, d) {
            RepeatsText(m, s, Referred(caps, d));
            if Repeats(m, s, Referred(caps, d)) {
              WrittenMeaning(m, q, rest, s + Referred(caps, d).len, caps, e, caps');
            }
          }
        case End =>
      }
    }
  }

  lemma LexEnd(pat: string)
    ensures Lex(pat, |pat|).0 == Done
  {
  }

  lemma RepeatsText(m: Subject, s: nat, c: Capture)
    ensures Repeats(Subject(m.src, ""), s, c) <==> Repeats(m, s, c)
    ensures Repeats(m, s, c) ==> c.len >= 0
  {
  }

  lemma BorderRead(m: Subject, p: nat, ps: seq<Part>, s: nat)
    requires Proper(ps) && ps != [] && ps[0].Border? && At(m.pat, p, WritePart(ps[0]))
    ensures AtFrontier(m, s, p + 2, p + |WritePart(ps[0])|) <==> Enters(ps[0].elems, ps[0].complement, m.src, s)
  {
    hide AtFrontier, Enters, ProperElems;
    assert ps[0] in ps;
    BorderEnters(m, p, ps[0].elems, ps[0].complement, s);
  }

  lemma {:induction false} TimesMeaning(m: Subject, p: nat, ps: seq<Part>, s: nat, caps: Captures, e: nat,
                                        caps': Captures)
    requires Proper(ps) && ps != [] && ps[0].Times? && At(m.pat, p, Write(ps)) && p + |Write(ps)| == |m.pat|
    requires s <= |m.src|
    ensures Matches(m, s, p, caps, e, caps') <==> Spells(ps, m.src, s, caps, e, caps')
    decreases |ps|, 0
  {
    hide Write, WriteAtom, WriteRep, Lex, Run, Holds, Count, Allowed, Proper, ProperAtom, At;
    var a, rep, rest, q := ps[0].a, ps[0].rep, ps[1..], p + |WritePart(ps[0])|;
    PartRead(m.pat, p, ps);
    var ep := p + |WriteAtom(a)|;
    assert ProperAtom(a) && At(m.pat, p, WriteAtom(a)) && ep > 0 by {
      TimesFacts(m.pat, p, ps);
    }
    forall k: nat
      ensures Allowed(rep, k) <==> Count(rep, k)
      ensures Run(m, s, k, p, ep) <==> Holds(a, m.src, s, k)
      ensures Matches(m, s + k, q, caps, e, caps') <==> Spells(rest, m.src, s + k, caps, e, caps')
    {
      CountAllowed(rep, k);
      TimesRun(m, p, a, s, k);
      WrittenMeaning(m, q, rest, s + k, caps, e, caps');
    }
  }

  lemma TimesFacts(pat: string, p: nat, ps: seq<Part>)
    requires Proper(ps) && ps != [] && ps[0].Times? && At(pat, p, WritePart(ps[0]))
    ensures ProperAtom(ps[0].a) && At(pat, p, WriteAtom(ps[0].a)) && p + |WriteAtom(ps[0].a)| > 0
  {
    hide WriteAtom, ProperAtom, At;
    assert ps[0] in ps;
    AtSplit(pat, p, WriteAtom(ps[0].a), WriteRep(ps[0].rep));
    AtomStart(ps[0].a);
  }

  /** What the matcher answers for a written pattern. */
  lemma WrittenOutcome(src: string, ps: seq<Part>, s: nat, caps: Captures)
    requires Proper(ps) && s <= |src|
    ensures match Match(Subject(src, Write(ps)), s, 0, caps)
            case Error => true
            case Fail => forall e, caps' :: !Spells(ps, src, s, caps, e, caps')
            case Success(e, caps') => Spells(ps, src, s, caps, e, caps')
  {
    hide Match, Matches, Spells, Write, Proper;
    var m := Subject(src, Write(ps));
    MatchMeaning(m, s, 0, caps);
    forall e: nat, caps' ensures Matches(m, s, 0, caps, e, caps') <==> Spells(ps, src, s, caps, e, caps') {
      WrittenMeaning(m, 0, ps, s, caps, e, caps');
    }
  }

  // ---- One repeated atom ----

  /** The longest run of accepted characters from s on. */
  ghost predicate Longest(a: Atom, src: string, s: nat, n: nat) { Holds(a, src, s, n) && !Holds(a, src, s, n + 1) }

  /** A pattern of one atom: the signs of repetition take as much, or as little, as they should. */
  lemma RepeatedAtom(src: string, a: Atom, rep: Rep, s: nat, n: nat, caps: Captures)
    requires ProperAtom(a) && Longest(a, src, s, n)
    ensures var o := Match(Subject(src, WriteAtom(a) + WriteRep(rep)), s, 0, caps);
            match rep
            case Once => o == if n > 0 then Success(s + 1, caps) else Fail
            case Optional => o == Success(if n > 0 then s + 1 else s, caps)
            case Star => o == Success(s + n, caps)
            case Plus => o == if n > 0 then Success(s + n, caps) else Fail
            case Lazy => o == Success(s, caps)
  {
    hide Holds, ProperAtom, WriteAtom, Run, MaxRun, SingleMatch, Lex;
    var pat := WriteAtom(a) + WriteRep(rep);
    var m, ep := Subject(src, pat), |WriteAtom(a)|;
    assert At(pat, 0, pat) && At(pat, 0, WriteAtom(a)) by {
      assert pat[0..|pat|] == pat;
      AtSplit(pat, 0, WriteAtom(a), WriteRep(rep));
    }
    TimesRead(pat, 0, a, rep);
    AtomStart(a);
    RunIsLongest(m, a, s, n);
    assert s + n <= |src| by {
      HoldsInside(a, src, s, n);
    }
    AtPatternEnd(m, s, caps);
    AtPatternEnd(m, s + n, caps);
    if n > 0 {
      AtPatternEnd(m, s + 1, caps);
    }
    assert TryDown(m, s, n, |pat|, caps) == Success(s + n, caps);
    assert n > 0 ==> TryDown(m, s + 1, n - 1, |pat|, caps) == Success(s + n, caps);
    assert TryUp(m, s, n, |pat|, caps) == Success(s, caps);
  }

  lemma AtPatternEnd(m: Subject, u: nat, caps: Captures)
    requires u <= |m.src|
    ensures Match(m, u, |m.pat|, caps) == Success(u, caps)
  {
    LexEnd(m.pat);
  }

  lemma HoldsInside(a: Atom, src: string, s: nat, n: nat)
    requires Holds(a, src, s, n)
    ensures s + n <= |src|
  {
  }

  lemma RunIsLongest(m: Subject, a: Atom, s: nat, n: nat)
    requires ProperAtom(a) && At(m.pat, 0, WriteAtom(a)) && |WriteAtom(a)| > 0 && Longest(a, m.src, s, n)
    ensures s <= |m.src| && MaxRun(m, s, 0, |WriteAtom(a)|) == n
    ensures SingleMatch(m, s, 0, |WriteAtom(a)|) <==> n > 0
    ensures n > 0 ==> s + 1 <= |m.src| && MaxRun(m, s + 1, 0, |WriteAtom(a)|) == n - 1
  {
    hide InClass, Accepts, WriteAtom, ProperAtom, Run, Holds;
    var ep := |WriteAtom(a)|;
    HoldsInside(a, m.src, s, n);
    TimesRun(m, 0, a, s, n);
    TimesRun(m, 0, a, s, n + 1);
    Runs(m, s, 0, ep);
  }

  /** "%d+" takes a maximal run of decimal digits, and fails if there is none. */
  lemma DigitRun(src: string, s: nat)
    requires s <= |src|
    ensures match Match(Subject(src, "%d+"), s, 0, [])
            case Success(e, caps) =>
              && s < e <= |src| && caps == [] && (forall i :: s <= i < e ==> '0' <= src[i] <= '9')
              && (e < |src| ==> !('0' <= src[e] <= '9'))
            case Fail => s == |src| || !('0' <= src[s] <= '9')
            case Error => false
  {
    hide Match;
    var a := Class(Digits, false);
    var n := DigitCount(src, s);
    assert WriteAtom(a) + WriteRep(Plus) == "%d+";
    RepeatedAtom(src, a, Plus, s, n, []);
  }

  lemma {:induction false} DigitCount(src: string, s: nat) returns (n: nat)
    requires s <= |src|
    ensures Longest(Class(Digits, false), src, s, n)
    decreases |src| - s
  {
    var a := Class(Digits, false);
    if s == |src| || !Accepts(a, src[s]) {
      n := 0;
      assert s < |src| ==> !Accepts(a, src[s]);
    } else {
      var k := DigitCount(src, s + 1);
      n := k + 1;
      HoldsNext(a, src, s, k);
      HoldsNext(a, src, s, n);
    }
  }

  lemma HoldsNext(a: Atom, src: string, s: nat, k: nat)
    requires s < |src| && Accepts(a, src[s])
    ensures Holds(a, src, s, k + 1) <==> Holds(a, src, s + 1, k)
  {
    hide Accepts;
  }
}
