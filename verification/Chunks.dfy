/** Precompiled chunks: the bytes that ldump.c writes for a function, and what lundump.c makes of bytes. */
module Chunks {
  import opened Base
  import opened Bytes

  type Str = seq<Byte>

  datatype Constant = KNil | KBool(b: bool) | KNumber(bits: nat) | KString(s: Str)

  datatype LocVar = LocVar(name: Option<Str>, startpc: int, endpc: int)

  /** A function prototype; a source or name may be missing (NULL). */
  datatype Proto = Proto(source: Option<Str>, head: Head, code: seq<int>, k: seq<Constant>, p: seq<Proto>, debug: Debug)

  datatype Head = Head(linedefined: int, lastlinedefined: int, nups: Byte, numparams: Byte, isvararg: Byte,
                       maxstacksize: Byte)

  datatype Debug = Debug(lineinfo: seq<int>, locvars: seq<LocVar>, upvalues: seq<Option<Str>>)

  /** What is read from the front of some bytes, and the bytes left. */
  type Parsed<T> = Result<(T, seq<Byte>)>

  // ---- Blocks, integers, strings ----

  function Take(bs: seq<Byte>, n: nat): Parsed<seq<Byte>> { if n <= |bs| then Ok((bs[..n], bs[n..])) else Err }

  function LoadByte(bs: seq<Byte>): Parsed<Byte> { if |bs| > 0 then Ok((bs[0], bs[1..])) else Err }

  /** LoadInt: negative integers are rejected. */
  function LoadInt(bs: seq<Byte>): (r: Parsed<nat>)
    ensures r.Ok? ==> |r.value.1| + 4 == |bs|
  {
    var (b, rest) :- Take(bs, 4);
    if BytesInt(b) < 0 then Err else Ok((BytesInt(b), rest))
  }

  /** DumpString: the size counts the terminating zero; a missing string has the size 0. */
  function DumpString(s: Option<Str>): seq<Byte> {
    match s
    case None => LittleEndian(0, 4)
    case Some(t) => LittleEndian(|t| + 1, 4) + (t + [0])
  }

  function LoadString(bs: seq<Byte>): (r: Parsed<Option<Str>>)
    ensures r.Ok? ==> |r.value.1| + 4 <= |bs|
  {
    var (b, rest) :- Take(bs, 4);
    var size := FromLittleEndian(b);
    if size == 0 then Ok((None, rest))
    else
      var (t, rest2) :- Take(rest, size);
      Ok((Some(t[..size - 1]), rest2))
  }

  lemma TakeBack(a: seq<Byte>, rest: seq<Byte>)
    ensures Take(a + rest, |a|) == Ok((a, rest))
  {
    assert (a + rest)[..|a|] == a && (a + rest)[|a|..] == rest;
  }

  lemma ByteBack(b: Byte, rest: seq<Byte>)
    ensures LoadByte([b] + rest) == Ok((b, rest))
  {
    assert ([b] + rest)[1..] == rest;
  }

  lemma LoadIntBack(x: int, rest: seq<Byte>)
    requires -TWO31 <= x < TWO31
    ensures LoadInt(IntBytes(x) + rest) == if x < 0 then Err else Ok((x, rest))
  {
    TakeBack(IntBytes(x), rest);
    IntBack(x);
  }

  /** Strings that fit in memory. */
  predicate Fits(s: Option<Str>) { s.Some? ==> |s.value| + 1 < TWO32 }

  lemma StringBack(s: Option<Str>, rest: seq<Byte>)
    requires Fits(s)
    ensures LoadString(DumpString(s) + rest) == Ok((s, rest))
  {
    Pow256Four();
    match s
    case None =>
      TakeBack(LittleEndian(0, 4), rest);
      LittleEndianBack(0, 4);
    case Some(t) =>
      var size := LittleEndian(|t| + 1, 4);
      assert DumpString(s) + rest == size + ((t + [0]) + rest);
      TakeBack(size, (t + [0]) + rest);
      LittleEndianBack(|t| + 1, 4);
      TakeBack(t + [0], rest);
      assert (t + [0])[..|t|] == t;
  }

  // ---- Vectors ----

  /** n fixed-size elements in one block. */
  function Words(xs: seq<int>): (bs: seq<Byte>)
    ensures |bs| == 4 * |xs|
  {
    if |xs| == 0 then [] else IntBytes(xs[0]) + Words(xs[1..])
  }

  function FromWords(bs: seq<Byte>, signed: bool): (xs: seq<int>)
    requires |bs| % 4 == 0
    ensures 4 * |xs| == |bs|
  {
    if |bs| == 0 then [] else [FromWord(bs[..4], signed)] + FromWords(bs[4..], signed)
  }

  function FromWord(b: seq<Byte>, signed: bool): int { if signed then BytesInt(b) else FromLittleEndian(b) }

  lemma WordBack(x: int, signed: bool)
    requires Word(x, signed)
    ensures FromWord(IntBytes(x), signed) == x
  {
    if signed {
      IntBack(x);
    } else {
      UnsignedBack(x);
    }
  }

  predicate Word(x: int, signed: bool) { if signed then -TWO31 <= x < TWO31 else 0 <= x < TWO32 }

  lemma {:induction false} WordsBack(xs: seq<int>, signed: bool)
    requires forall i :: 0 <= i < |xs| ==> Word(xs[i], signed)
    ensures FromWords(Words(xs), signed) == xs
  {
    hide IntBytes, FromWord;
    if |xs| > 0 {
      assert Words(xs)[..4] == IntBytes(xs[0]) && Words(xs)[4..] == Words(xs[1..]);
      WordBack(xs[0], signed);
      WordsBack(xs[1..], signed);
    }
  }

  /** DumpVector of integers or instructions, and its inverse. */
  function DumpWords(xs: seq<int>): seq<Byte> { IntBytes(|xs|) + Words(xs) }

  function LoadWords(bs: seq<Byte>, signed: bool): (r: Parsed<seq<int>>)
    ensures r.Ok? ==> |r.value.1| + 4 <= |bs|
  {
    var (n, rest) :- LoadInt(bs);
    var (b, rest2) :- Take(rest, n * 4);
    Ok((FromWords(b, signed), rest2))
  }

  lemma DumpWordsBack(xs: seq<int>, signed: bool, rest: seq<Byte>)
    requires |xs| < TWO31 && forall i :: 0 <= i < |xs| ==> Word(xs[i], signed)
    ensures LoadWords(DumpWords(xs) + rest, signed) == Ok((xs, rest))
  {
    hide IntBytes, FromWords, Words, LoadInt;
    assert DumpWords(xs) + rest == IntBytes(|xs|) + (Words(xs) + rest);
    LoadIntBack(|xs|, Words(xs) + rest);
    TakeBack(Words(xs), rest);
    WordsBack(xs, signed);
  }

  // ---- Lists, each element in its own form ----

  function DumpAll<T>(dump: T -> seq<Byte>, xs: seq<T>): seq<Byte> {
    if |xs| == 0 then [] else dump(xs[0]) + DumpAll(dump, xs[1..])
  }

  /** Reading never gives bytes back. */
  ghost predicate Consumes<T>(load: seq<Byte> -> Parsed<T>) {
    forall bs {:trigger load(bs)} :: load(bs).Ok? ==> |load(bs).value.1| <= |bs|
  }

  /** The next n elements. */
  function LoadAll<T>(load: seq<Byte> -> Parsed<T>, n: nat, bs: seq<Byte>): (r: Parsed<seq<T>>)
    requires Consumes(load)
    ensures r.Ok? ==> |r.value.0| == n && |r.value.1| <= |bs|
    decreases n
  {
    if n == 0 then Ok(([], bs))
    else
      var (x, rest) :- load(bs);
      var (xs, rest2) :- LoadAll(load, n - 1, rest);
      Ok(([x] + xs, rest2))
  }

  ghost predicate Inverse<T(!new)>(dump: T -> seq<Byte>, load: seq<Byte> -> Parsed<T>, x: T) {
    forall rest: seq<Byte> {:trigger load(dump(x) + rest)} :: load(dump(x) + rest) == Ok((x, rest))
  }

  lemma {:induction false} AllBack<T(!new)>(dump: T -> seq<Byte>, load: seq<Byte> -> Parsed<T>, xs: seq<T>,
                                     rest: seq<Byte>)
    requires Consumes(load) && forall x :: x in xs ==> Inverse(dump, load, x)
    ensures LoadAll(load, |xs|, DumpAll(dump, xs) + rest) == Ok((xs, rest))
  {
    if |xs| > 0 {
      var more := DumpAll(dump, xs[1..]) + rest;
      assert DumpAll(dump, xs) + rest == dump(xs[0]) + more;
      assert Inverse(dump, load, xs[0]);
      AllBack(dump, load, xs[1..], rest);
      assert [xs[0]] + xs[1..] == xs;
    } else {
      assert DumpAll(dump, xs) + rest == rest;
    }
  }

  function DumpList<T>(dump: T -> seq<Byte>, xs: seq<T>): seq<Byte> { IntBytes(|xs|) + DumpAll(dump, xs) }

  function LoadList<T>(load: seq<Byte> -> Parsed<T>, bs: seq<Byte>): (r: Parsed<seq<T>>)
    requires Consumes(load)
    ensures r.Ok? ==> |r.value.1| <= |bs|
  {
    var (n, rest) :- LoadInt(bs);
    LoadAll(load, n, rest)
  }

  lemma ListBack<T(!new)>(dump: T -> seq<Byte>, load: seq<Byte> -> Parsed<T>, xs: seq<T>, rest: seq<Byte>)
    requires Consumes(load) && |xs| < TWO31 && forall x :: x in xs ==> Inverse(dump, load, x)
    ensures LoadList(load, DumpList(dump, xs) + rest) == Ok((xs, rest))
  {
    hide IntBytes, LoadInt;
    assert DumpList(dump, xs) + rest == IntBytes(|xs|) + (DumpAll(dump, xs) + rest);
    LoadIntBack(|xs|, DumpAll(dump, xs) + rest);
    AllBack(dump, load, xs, rest);
  }

  // ---- Constants, variables, names ----

  const TNIL: Byte := 0
  const TBOOLEAN: Byte := 1
  const TNUMBER: Byte := 3
  const TSTRING: Byte := 4

  function DumpConstant(c: Constant): seq<Byte> {
    match c
    case KNil => [TNIL]
    case KBool(b) => [TBOOLEAN] + [if b then 1 else 0]
    case KNumber(bits) => [TNUMBER] + LittleEndian(bits, 8)
    case KString(s) => [TSTRING] + DumpString(Some(s))
  }

  function LoadConstant(bs: seq<Byte>): (r: Parsed<Constant>)
    ensures r.Ok? ==> |r.value.1| <= |bs|
  {
    var (t, rest) :- LoadByte(bs);
    if t == TNIL then Ok((KNil, rest))
    else if t == TBOOLEAN then
      var (b, rest2) :- LoadByte(rest);
      Ok((KBool(b != 0), rest2))
    else if t == TNUMBER then
      var (b, rest2) :- Take(rest, 8);
      Ok((KNumber(FromLittleEndian(b)), rest2))
    else if t == TSTRING then
      var (s, rest2) :- LoadString(rest);
      if s.None? then Err else Ok((KString(s.value), rest2))
    else Err
  }

  predicate GoodConstant(c: Constant) {
    match c
    case KNumber(bits) => bits < TWO32 * TWO32
    case KString(s) => Fits(Some(s))
    case _ => true
  }

  lemma ConstantBack(c: Constant, rest: seq<Byte>)
    requires GoodConstant(c)
    ensures LoadConstant(DumpConstant(c) + rest) == Ok((c, rest))
  {
    hide LoadString, DumpString, LittleEndian, FromLittleEndian;
    match c
    case KNil => ByteBack(TNIL, rest);
    case KBool(b) =>
      var v: Byte := if b then 1 else 0;
      assert DumpConstant(c) + rest == [TBOOLEAN] + ([v] + rest);
      ByteBack(TBOOLEAN, [v] + rest);
      ByteBack(v, rest);
    case KNumber(bits) =>
      var b := LittleEndian(bits, 8);
      assert DumpConstant(c) + rest == [TNUMBER] + (b + rest);
      ByteBack(TNUMBER, b + rest);
      TakeBack(b, rest);
      Pow256Eight();
      LittleEndianBack(bits, 8);
    case KString(s) =>
      var b := DumpString(Some(s));
      assert DumpConstant(c) + rest == [TSTRING] + (b + rest);
      ByteBack(TSTRING, b + rest);
      StringBack(Some(s), rest);
  }

  function DumpLocVar(v: LocVar): seq<Byte> { DumpString(v.name) + (IntBytes(v.startpc) + IntBytes(v.endpc)) }

  function LoadLocVar(bs: seq<Byte>): (r: Parsed<LocVar>)
    ensures r.Ok? ==> |r.value.1| <= |bs|
  {
    var (name, rest) :- LoadString(bs);
    var (startpc, rest2) :- LoadInt(rest);
    var (endpc, rest3) :- LoadInt(rest2);
    Ok((LocVar(name, startpc, endpc), rest3))
  }

  predicate Natural(x: int) { 0 <= x < TWO31 }

  predicate GoodLocVar(v: LocVar) { Fits(v.name) && Natural(v.startpc) && Natural(v.endpc) }

  lemma LocVarBack(v: LocVar, rest: seq<Byte>)
    requires GoodLocVar(v)
    ensures LoadLocVar(DumpLocVar(v) + rest) == Ok((v, rest))
  {
    hide LoadString, DumpString, IntBytes, LoadInt;
    var a, b := IntBytes(v.startpc), IntBytes(v.endpc);
    assert DumpLocVar(v) + rest == DumpString(v.name) + (a + (b + rest));
    StringBack(v.name, a + (b + rest));
    LoadIntBack(v.startpc, b + rest);
    LoadIntBack(v.endpc, rest);
  }

  // ---- Functions ----

  function DumpHead(h: Head): seq<Byte> {
    IntBytes(h.linedefined) + (IntBytes(h.lastlinedefined) + [h.nups, h.numparams, h.isvararg, h.maxstacksize])
  }

  function LoadHead(bs: seq<Byte>): (r: Parsed<Head>)
    ensures r.Ok? ==> |r.value.1| <= |bs|
  {
    var (line, r1) :- LoadInt(bs);
    var (last, r2) :- LoadInt(r1);
    var (b, r3) :- Take(r2, 4);
    Ok((Head(line, last, b[0], b[1], b[2], b[3]), r3))
  }

  predicate GoodHead(h: Head) { Natural(h.linedefined) && Natural(h.lastlinedefined) }

  lemma HeadBack(h: Head, rest: seq<Byte>)
    requires GoodHead(h)
    ensures LoadHead(DumpHead(h) + rest) == Ok((h, rest))
  {
    hide IntBytes, LoadInt;
    var bytes := [h.nups, h.numparams, h.isvararg, h.maxstacksize];
    assert DumpHead(h) + rest == IntBytes(h.linedefined) + (IntBytes(h.lastlinedefined) + (bytes + rest));
    LoadIntBack(h.linedefined, IntBytes(h.lastlinedefined) + (bytes + rest));
    LoadIntBack(h.lastlinedefined, bytes + rest);
    TakeBack(bytes, rest);
  }

  const NO_DEBUG := Debug([], [], [])

  function DumpDebug(d: Debug): seq<Byte> {
    DumpWords(d.lineinfo) + (DumpList(DumpLocVar, d.locvars) + DumpList(DumpString, d.upvalues))
  }

  function LoadDebug(bs: seq<Byte>): (r: Parsed<Debug>)
    ensures r.Ok? ==> |r.value.1| <= |bs|
  {
    var (lines, r1) :- LoadWords(bs, true);
    var (locvars, r2) :- LoadList(LoadLocVar, r1);
    var (names, r3) :- LoadList(LoadString, r2);
    Ok((Debug(lines, locvars, names), r3))
  }

  predicate GoodDebug(d: Debug) {
    && |d.lineinfo| < TWO31 && |d.locvars| < TWO31 && |d.upvalues| < TWO31
    && (forall i :: 0 <= i < |d.lineinfo| ==> Word(d.lineinfo[i], true))
    && (forall v :: v in d.locvars ==> GoodLocVar(v))
    && (forall n :: n in d.upvalues ==> Fits(n))
  }

  lemma DebugBack(d: Debug, rest: seq<Byte>)
    requires GoodDebug(d)
    ensures LoadDebug(DumpDebug(d) + rest) == Ok((d, rest))
  {
    hide DumpWords, LoadWords, DumpString, LoadString, DumpLocVar, LoadLocVar, DumpList, LoadList;
    var names := DumpList(DumpString, d.upvalues) + rest;
    var vars := DumpList(DumpLocVar, d.locvars) + names;
    assert DumpDebug(d) + rest == DumpWords(d.lineinfo) + vars;
    DumpWordsBack(d.lineinfo, true, vars);
    forall v | v in d.locvars ensures Inverse(DumpLocVar, LoadLocVar, v) {
      forall more: seq<Byte> ensures LoadLocVar(DumpLocVar(v) + more) == Ok((v, more)) {
        LocVarBack(v, more);
      }
    }
    ListBack(DumpLocVar, LoadLocVar, d.locvars, names);
    forall n | n in d.upvalues ensures Inverse(DumpString, LoadString, n) {
      forall more: seq<Byte> ensures LoadString(DumpString(n) + more) == Ok((n, more)) {
        StringBack(n, more);
      }
    }
    ListBack(DumpString, LoadString, d.upvalues, rest);
  }

  lemma ConstantsBack(k: seq<Constant>, rest: seq<Byte>)
    requires |k| < TWO31 && forall c :: c in k ==> GoodConstant(c)
    ensures LoadList(LoadConstant, DumpList(DumpConstant, k) + rest) == Ok((k, rest))
  {
    hide DumpConstant, LoadConstant, DumpList, LoadList;
    forall c | c in k ensures Inverse(DumpConstant, LoadConstant, c) {
      forall more: seq<Byte> ensures LoadConstant(DumpConstant(c) + more) == Ok((c, more)) {
        ConstantBack(c, more);
      }
    }
    ListBack(DumpConstant, LoadConstant, k, rest);
  }

  /** DumpFunction: a source that is the enclosing function's, or stripped, is left out. */
  function Dump(f: Proto, p: Option<Str>, strip: bool): seq<Byte>
    decreases f
  {
    DumpString(if strip || f.source == p then None else f.source) + (DumpHead(f.head) + (DumpWords(f.code) +
      (DumpList(DumpConstant, f.k)
       + (IntBytes(|f.p|) + (DumpProtos(f.p, f.source, strip) + DumpDebug(if strip then NO_DEBUG else f.debug))))))
  }

  function DumpProtos(ps: seq<Proto>, source: Option<Str>, strip: bool): seq<Byte>
    decreases ps
  {
    if |ps| == 0 then [] else Dump(ps[0], source, strip) + DumpProtos(ps[1..], source, strip)
  }

  /** What comes before the nested functions: their number is the last of it. */
  datatype Front = Front(source: Str, head: Head, code: seq<int>, k: seq<Constant>, n: nat)

  function LoadFront(bs: seq<Byte>, p: Str): (r: Parsed<Front>)
    ensures r.Ok? ==> |r.value.1| < |bs|
  {
    var (s, r1) :- LoadString(bs);
    var (head, r2) :- LoadHead(r1);
    var (code, r3) :- LoadWords(r2, false);
    var (k, r4) :- LoadList(LoadConstant, r3);
    var (n, r5) :- LoadInt(r4);
    Ok((Front(if s.None? then p else s.value, head, code, k, n), r5))
  }

  /** LoadFunction: a source that is left out is the enclosing function's; the code must pass the bytecode checker. */
  function Load(check: Proto -> bool, bs: seq<Byte>, p: Str): (r: Parsed<Proto>)
    ensures r.Ok? ==> |r.value.1| < |bs|
    decreases |bs|, 0
  {
    var (front, r1) :- LoadFront(bs, p);
    var (ps, r2) :- LoadProtos(check, front.n, r1, front.source);
    var (debug, r3) :- LoadDebug(r2);
    var f := Proto(Some(front.source), front.head, front.code, front.k, ps, debug);
    if check(f) then Ok((f, r3)) else Err
  }

  function LoadProtos(check: Proto -> bool, n: nat, bs: seq<Byte>, p: Str): (r: Parsed<seq<Proto>>)
    ensures r.Ok? ==> |r.value.1| <= |bs|
    decreases |bs|, n + 1
  {
    if n == 0 then Ok(([], bs))
    else
      var (f, rest) :- Load(check, bs, p);
      var (fs, rest2) :- LoadProtos(check, n - 1, rest, p);
      Ok(([f] + fs, rest2))
  }

  // ---- Loading undoes dumping ----

  /** Sizes and line numbers fit in the integers of the format. */
  predicate Good(f: Proto)
    decreases f
  {
    && Fits(f.source) && GoodHead(f.head) && GoodDebug(f.debug)
    && |f.code| < TWO31 && (forall i :: 0 <= i < |f.code| ==> Word(f.code[i], false))
    && |f.k| < TWO31 && (forall c :: c in f.k ==> GoodConstant(c))
    && |f.p| < TWO31 && AllGood(f.p)
  }

  predicate AllGood(ps: seq<Proto>)
    decreases ps
  {
    |ps| == 0 || (Good(ps[0]) && AllGood(ps[1..]))
  }

  /** What loading makes of the dump of f in a function with the source p: missing sources are filled in. */
  function Filled(f: Proto, p: Str, strip: bool): Proto
    decreases f
  {
    var source := if strip || f.source.None? then p else f.source.value;
    Proto(Some(source), f.head, f.code, f.k, FilledAll(f.p, source, strip), if strip then NO_DEBUG else f.debug)
  }

  function FilledAll(ps: seq<Proto>, p: Str, strip: bool): (r: seq<Proto>)
    ensures |r| == |ps|
    decreases ps
  {
    if |ps| == 0 then [] else [Filled(ps[0], p, strip)] + FilledAll(ps[1..], p, strip)
  }

  /** Every function of the tree passes the bytecode checker. */
  predicate Accepted(check: Proto -> bool, f: Proto)
    decreases f
  {
    check(f) && AllAccepted(check, f.p)
  }

  predicate AllAccepted(check: Proto -> bool, ps: seq<Proto>)
    decreases ps
  {
    |ps| == 0 || (Accepted(check, ps[0]) && AllAccepted(check, ps[1..]))
  }

  /** The front of a dump. */
  function DumpFront(f: Proto, p: Option<Str>, strip: bool): seq<Byte> {
    DumpString(if strip || f.source == p then None else f.source) + (DumpHead(f.head) + (DumpWords(f.code) +
      (DumpList(DumpConstant, f.k) + IntBytes(|f.p|))))
  }

  lemma FrontBack(f: Proto, pd: Option<Str>, p: Str, strip: bool, rest: seq<Byte>)
    requires Good(f) && (strip || pd.None? || pd == Some(p))
    ensures LoadFront(DumpFront(f, pd, strip) + rest, p) ==
              Ok((Front(if strip || f.source.None? then p else f.source.value, f.head, f.code, f.k, |f.p|), rest))
  {
    hide DumpString, LoadString, DumpHead, LoadHead, DumpWords, LoadWords, DumpList, LoadList, IntBytes, LoadInt,
         GoodDebug;
    var s := if strip || f.source == pd then None else f.source;
    var r4 := IntBytes(|f.p|) + rest;
    var r3 := DumpList(DumpConstant, f.k) + r4;
    var r2 := DumpWords(f.code) + r3;
    var r1 := DumpHead(f.head) + r2;
    assert DumpFront(f, pd, strip) + rest == DumpString(s) + r1;
    StringBack(s, r1);
    HeadBack(f.head, r2);
    DumpWordsBack(f.code, false, r3);
    ConstantsBack(f.k, r4);
    LoadIntBack(|f.p|, rest);
  }

  lemma DumpParts(f: Proto, p: Option<Str>, strip: bool, rest: seq<Byte>)
    ensures Dump(f, p, strip) + rest ==
              DumpFront(f, p, strip)
                  + (DumpProtos(f.p, f.source, strip) + (DumpDebug(if strip then NO_DEBUG else f.debug) + rest))
  {
    hide DumpString, DumpHead, DumpWords, DumpList, IntBytes, DumpDebug;
  }

  /**
   * Loading a dump gives the tree with its sources filled in, or an error if the bytecode checker rejects a function of
   * it.
   */
  lemma {:induction false} LoadDump(check: Proto -> bool, f: Proto, pd: Option<Str>, p: Str, strip: bool,
                                    rest: seq<Byte>)
    requires Good(f) && (strip || pd.None? || pd == Some(p))
    ensures Load(check, Dump(f, pd, strip) + rest, p) ==
              if Accepted(check, Filled(f, p, strip)) then Ok((Filled(f, p, strip), rest)) else Err
    decreases f
  {
    hide DumpString, LoadFront, DumpFront, Dump, DumpDebug, LoadDebug, LoadProtos, DumpProtos, GoodHead, AllAccepted,
         AllGood;
    var source := if strip || f.source.None? then p else f.source.value;
    var d := if strip then NO_DEBUG else f.debug;
    var r2 := DumpDebug(d) + rest;
    var r1 := DumpProtos(f.p, f.source, strip) + r2;
    DumpParts(f, pd, strip, rest);
    FrontBack(f, pd, p, strip, r1);
    LoadDumps(check, f.p, f.source, source, strip, r2);
    DebugBack(d, rest);
  }

  lemma {:induction false} LoadDumps(check: Proto -> bool, ps: seq<Proto>, pd: Option<Str>, p: Str, strip: bool,
                                     rest: seq<Byte>)
    requires AllGood(ps) && (strip || pd.None? || pd == Some(p))
    ensures LoadProtos(check, |ps|, DumpProtos(ps, pd, strip) + rest, p) ==
              if AllAccepted(check, FilledAll(ps, p, strip)) then Ok((FilledAll(ps, p, strip), rest)) else Err
    decreases ps
  {
    hide Good, Dump, Load, Accepted, Filled;
    if |ps| == 0 {
      assert DumpProtos(ps, pd, strip) + rest == rest;
    } else {
      var more := DumpProtos(ps[1..], pd, strip) + rest;
      assert DumpProtos(ps, pd, strip) + rest == Dump(ps[0], pd, strip) + more;
      LoadDump(check, ps[0], pd, p, strip, more);
      LoadDumps(check, ps[1..], pd, p, strip, rest);
      var all := FilledAll(ps, p, strip);
      assert all[0] == Filled(ps[0], p, strip) && all[1..] == FilledAll(ps[1..], p, strip);
    }
  }

  // ---- Whole chunks ----

  /** luaU_header, for 32-bit integers, sizes and instructions and 64-bit numbers. */
  const HEADER: seq<Byte> := [27, 76, 117, 97, 0x51, 0, 1, 4, 4, 4, 8, 0]

  const UNKNOWN: Str := [61, 63]         // "=?"

  function DumpChunk(f: Proto, strip: bool): seq<Byte> { HEADER + Dump(f, None, strip) }

  function LoadChunk(check: Proto -> bool, bs: seq<Byte>): Result<Proto> {
    var (h, rest) :- Take(bs, 12);
    if h != HEADER then Err
    else
      var (f, _) :- Load(check, rest, UNKNOWN);
      Ok(f)
  }

  /** What undumping a dump gives, for every tree. */
  lemma UndumpDump(check: Proto -> bool, f: Proto, strip: bool)
    requires Good(f)
    ensures LoadChunk(check, DumpChunk(f, strip)) ==
              if Accepted(check, Filled(f, UNKNOWN, strip)) then Ok(Filled(f, UNKNOWN, strip)) else Err
  {
    hide Dump, Load, Good, Accepted, Filled;
    TakeBack(HEADER, Dump(f, None, strip));
    assert Dump(f, None, strip) + [] == Dump(f, None, strip);
    LoadDump(check, f, None, UNKNOWN, strip, []);
  }

  /** No function of the tree lacks its source. */
  predicate Sourced(f: Proto)
    decreases f
  {
    f.source.Some? && AllSourced(f.p)
  }

  predicate AllSourced(ps: seq<Proto>)
    decreases ps
  {
    |ps| == 0 || (Sourced(ps[0]) && AllSourced(ps[1..]))
  }

  lemma {:induction false} FilledSame(f: Proto, p: Str)
    ensures Filled(f, p, false) == f <==> Sourced(f)
    decreases f
  {
    hide AllSourced, FilledAll;
    FilledAllSame(f.p, if f.source.None? then p else f.source.value);
  }

  lemma {:induction false} FilledAllSame(ps: seq<Proto>, p: Str)
    ensures FilledAll(ps, p, false) == ps <==> AllSourced(ps)
    decreases ps
  {
    hide Sourced, Filled;
    if |ps| > 0 {
      FilledSame(ps[0], p);
      FilledAllSame(ps[1..], p);
      var r := FilledAll(ps, p, false);
      assert r[0] == Filled(ps[0], p, false) && r[1..] == FilledAll(ps[1..], p, false);
      assert r == ps <==> r[0] == ps[0] && r[1..] == ps[1..] by {
        assert r == [r[0]] + r[1..] && ps == [ps[0]] + ps[1..];
      }
    }
  }

  /**
   * The round trip gives back the tree exactly if the bytecode checker accepts it and every function has its source.
   */
  lemma RoundTrip(check: Proto -> bool, f: Proto)
    requires Good(f)
    ensures LoadChunk(check, DumpChunk(f, false)) == Ok(f) <==> Accepted(check, f) && Sourced(f)
  {
    hide Dump, Load, Good, Accepted, Filled, Sourced, LoadChunk, DumpChunk;
    UndumpDump(check, f, false);
    FilledSame(f, UNKNOWN);
  }
}
