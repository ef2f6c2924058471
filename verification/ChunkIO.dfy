/** The streams and loops of lzio.c, lundump.c and ldump.c: they compute exactly the functions of Chunks. */
module ChunkIO {
  import opened Base
  import opened Bytes
  import opened C = Chunks

  /** The bytes a reader gives: it returns one chunk at a time, and an empty chunk, or none, at the end. */
  function Flat(chunks: seq<seq<Byte>>): seq<Byte> {
    if |chunks| == 0 || |chunks[0]| == 0 then [] else chunks[0] + Flat(chunks[1..])
  }

  class Zio {
    var n: nat                          // bytes still unread
    var buff: seq<Byte>                 // the current chunk
    var p: nat                          // the current position in it
    var reader: seq<seq<Byte>>          // what the reader will return

    constructor (reader: seq<seq<Byte>>)
      ensures Valid() && Rest() == Flat(reader)
    {
      n, buff, p, this.reader := 0, [], 0, reader;
    }

    ghost predicate Valid()
      reads this
    {
      p + n == |buff|
    }

    /** All bytes still to come. */
    ghost function Rest(): seq<Byte>
      requires Valid()
      reads this
    {
      buff[p..] + Flat(reader)
    }

    /** luaZ_fill. */
    method Fill() returns (c: int)
      requires Valid() && n == 0
      modifies this
      ensures Valid()
      ensures if c == EOZ then old(Rest()) == []
        else |old(Rest())| > 0 && c == old(Rest())[0] && Rest() == old(Rest())[1..] && p > 0 && buff[p - 1] == c
    {
      var chunk: seq<Byte> := [];
      if |reader| > 0 {
        chunk, reader := reader[0], reader[1..];
      }
      if |chunk| == 0 {
        return EOZ;
      }
      n, buff, p := |chunk| - 1, chunk, 0;
      p := p + 1;
      return buff[p - 1];
    }

    /** luaZ_lookahead. */
    method Lookahead() returns (c: int)
      requires Valid()
      modifies this
      ensures Valid()
      ensures if c == EOZ then old(Rest()) == [] else n > 0 && Rest() == old(Rest()) && c == Rest()[0]
    {
      if n == 0 {
        ghost var all := Rest();
        c := Fill();
        if c == EOZ {
          return EOZ;
        }
        n, p := n + 1, p - 1;
        assert buff[p..] == [buff[p]] + buff[p + 1..];
        assert Rest() == all;
      }
      return buff[p];
    }

    /** luaZ_read: however the reader splits the bytes, the next ones in order; `missing` when the stream ends. */
    method Read(size: nat) returns (missing: nat, b: seq<Byte>)
      requires Valid()
      modifies this
      ensures Valid()
      ensures missing == 0 <==> size <= |old(Rest())|
      ensures missing == 0 ==> b == old(Rest())[..size] && Rest() == old(Rest())[size..]
      ensures missing > 0 ==> missing == size - |old(Rest())|
    {
      hide Flat;
      missing, b := size, [];
      ghost var all := Rest();
      assert [] + all == all;
      while missing > 0
        invariant Valid() && |b| + missing == size && b + Rest() == all
        decreases missing
      {
        var c := Lookahead();
        if c == EOZ {
          assert b + [] == b;
          return;
        }
        var m := if missing <= n then missing else n;
        var x := Copy(m);
        ghost var b0, r := b, Rest();
        assert b0 + (x + r) == b0 + x + r;
        b, missing := b + x, missing - m;
      }
      assert all[..size] == b && all[size..] == Rest();
    }

    /** memcpy from the current chunk. */
    method Copy(m: nat) returns (x: seq<Byte>)
      requires Valid() && m <= n
      modifies this
      ensures Valid() && |x| == m && old(Rest()) == x + Rest()
    {
      x := buff[p..p + m];
      assert buff[p..] == x + buff[p + m..];
      n, p := n - m, p + m;
    }
  }

  /** A loader agrees with the function that says what it reads. */
  ghost predicate Agrees<T>(r: Result<T>, parsed: Parsed<T>, rest: seq<Byte>) {
    match parsed
    case Ok((x, more)) => r == Ok(x) && rest == more
    case Err => r.Err?
  }

  /** xs, and then what is read. */
  function Prefixed<T>(xs: seq<T>, parsed: Parsed<seq<T>>): Parsed<seq<T>> {
    var (ys, rest) :- parsed;
    Ok((xs + ys, rest))
  }

  class LoadState {
    const z: Zio
    const check: Proto -> bool

    constructor (z: Zio, check: Proto -> bool)
      ensures this.z == z && this.check == check
    {
      this.z, this.check := z, check;
    }

    method LoadBlock(size: nat) returns (r: Result<seq<Byte>>)
      requires z.Valid()
      modifies z
      ensures z.Valid() && Agrees(r, C.Take(old(z.Rest()), size), z.Rest())
    {
      var missing, b := z.Read(size);
      return if missing != 0 then Err else Ok(b);
    }

    method LoadByte() returns (r: Result<Byte>)
      requires z.Valid()
      modifies z
      ensures z.Valid() && Agrees(r, C.LoadByte(old(z.Rest())), z.Rest())
    {
      var b :- LoadBlock(1);
      return Ok(b[0]);
    }

    method LoadInt() returns (r: Result<nat>)
      requires z.Valid()
      modifies z
      ensures z.Valid() && Agrees(r, C.LoadInt(old(z.Rest())), z.Rest())
    {
      hide FromLittleEndian;
      var b :- LoadBlock(4);
      var x := BytesInt(b);
      return if x < 0 then Err else Ok(x);
    }

    method LoadString() returns (r: Result<Option<Str>>)
      requires z.Valid()
      modifies z
      ensures z.Valid() && Agrees(r, C.LoadString(old(z.Rest())), z.Rest())
    {
      hide FromLittleEndian;
      var b :- LoadBlock(4);
      var size := FromLittleEndian(b);
      if size == 0 {
        return Ok(None);
      }
      var s :- LoadBlock(size);
      return Ok(Some(s[..size - 1]));
    }

    /** LoadCode, and the line numbers of LoadDebug. */
    method LoadWords(signed: bool) returns (r: Result<seq<int>>)
      requires z.Valid()
      modifies z
      ensures z.Valid() && Agrees(r, C.LoadWords(old(z.Rest()), signed), z.Rest())
    {
      hide FromWords, C.LoadInt;
      var n :- LoadInt();
      var b :- LoadBlock(n * 4);
      return Ok(FromWords(b, signed));
    }

    method LoadConstant() returns (r: Result<Constant>)
      requires z.Valid()
      modifies z
      ensures z.Valid() && Agrees(r, C.LoadConstant(old(z.Rest())), z.Rest())
    {
      hide FromLittleEndian, C.LoadString;
      var t :- LoadByte();
      if t == TNIL {
        return Ok(KNil);
      } else if t == TBOOLEAN {
        var b :- LoadByte();
        return Ok(KBool(b != 0));
      } else if t == TNUMBER {
        var b :- LoadBlock(8);
        return Ok(KNumber(FromLittleEndian(b)));
      } else if t == TSTRING {
        var s :- LoadString();
        return if s.None? then Err else Ok(KString(s.value));
      } else {
        return Err;
      }
    }

    /** The constants of LoadConstants. */
    method LoadConstants() returns (r: Result<seq<Constant>>)
      requires z.Valid()
      modifies z
      ensures z.Valid() && Agrees(r, LoadList(C.LoadConstant, old(z.Rest())), z.Rest())
    {
      hide C.LoadConstant, C.LoadInt;
      var n :- LoadInt();
      ghost var start := z.Rest();
      var k: seq<Constant> := [];
      PrefixNone(LoadAll(C.LoadConstant, n, start));
      for i := 0 to n
        invariant z.Valid() && |k| == i
        invariant LoadAll(C.LoadConstant, n, start) == Prefixed(k, LoadAll(C.LoadConstant, n - i, z.Rest()))
      {
        PrefixNext(C.LoadConstant, k, n - i, z.Rest());
        var c :- LoadConstant();
        k := k + [c];
      }
      assert k + [] == k;
      return Ok(k);
    }

    method LoadLocVar() returns (r: Result<LocVar>)
      requires z.Valid()
      modifies z
      ensures z.Valid() && Agrees(r, C.LoadLocVar(old(z.Rest())), z.Rest())
    {
      hide C.LoadString, C.LoadInt;
      var name :- LoadString();
      var startpc :- LoadInt();
      var endpc :- LoadInt();
      return Ok(LocVar(name, startpc, endpc));
    }

    /** The variables of LoadDebug. */
    method LoadLocVars() returns (r: Result<seq<LocVar>>)
      requires z.Valid()
      modifies z
      ensures z.Valid() && Agrees(r, LoadList(C.LoadLocVar, old(z.Rest())), z.Rest())
    {
      hide C.LoadLocVar, C.LoadInt;
      var n :- LoadInt();
      ghost var start := z.Rest();
      var vars: seq<LocVar> := [];
      PrefixNone(LoadAll(C.LoadLocVar, n, start));
      for i := 0 to n
        invariant z.Valid() && |vars| == i
        invariant LoadAll(C.LoadLocVar, n, start) == Prefixed(vars, LoadAll(C.LoadLocVar, n - i, z.Rest()))
      {
        PrefixNext(C.LoadLocVar, vars, n - i, z.Rest());
        var v :- LoadLocVar();
        vars := vars + [v];
      }
      assert vars + [] == vars;
      return Ok(vars);
    }

    /** The upvalue names of LoadDebug. */
    method LoadNames() returns (r: Result<seq<Option<Str>>>)
      requires z.Valid()
      modifies z
      ensures z.Valid() && Agrees(r, LoadList(C.LoadString, old(z.Rest())), z.Rest())
    {
      hide C.LoadString, C.LoadInt;
      var n :- LoadInt();
      ghost var start := z.Rest();
      var names: seq<Option<Str>> := [];
      PrefixNone(LoadAll(C.LoadString, n, start));
      for i := 0 to n
        invariant z.Valid() && |names| == i
        invariant LoadAll(C.LoadString, n, start) == Prefixed(names, LoadAll(C.LoadString, n - i, z.Rest()))
      {
        PrefixNext(C.LoadString, names, n - i, z.Rest());
        var s :- LoadString();
        names := names + [s];
      }
      assert names + [] == names;
      return Ok(names);
    }

    method LoadDebug() returns (r: Result<Debug>)
      requires z.Valid()
      modifies z
      ensures z.Valid() && Agrees(r, C.LoadDebug(old(z.Rest())), z.Rest())
    {
      hide C.LoadWords, LoadList, C.LoadLocVar, C.LoadString;
      var lines :- LoadWords(true);
      var vars :- LoadLocVars();
      var names :- LoadNames();
      return Ok(Debug(lines, vars, names));
    }

    /** What LoadFunction reads before the nested functions. */
    method LoadFront(p: Str) returns (r: Result<Front>)
      requires z.Valid()
      modifies z
      ensures z.Valid() && Agrees(r, C.LoadFront(old(z.Rest()), p), z.Rest())
    {
      hide C.LoadString, C.LoadWords, LoadList, C.LoadConstant, C.LoadHead, C.LoadInt;
      var s :- LoadString();
      var head :- LoadHead();
      var code :- LoadWords(false);
      var k :- LoadConstants();
      var n :- LoadInt();
      return Ok(Front(if s.None? then p else s.value, head, code, k, n));
    }

    method LoadHead() returns (r: Result<Head>)
      requires z.Valid()
      modifies z
      ensures z.Valid() && Agrees(r, C.LoadHead(old(z.Rest())), z.Rest())
    {
      hide C.LoadInt;
      var line :- LoadInt();
      var last :- LoadInt();
      var b :- LoadBlock(4);
      return Ok(Head(line, last, b[0], b[1], b[2], b[3]));
    }

    /** LoadFunction. */
    method LoadFunction(p: Str) returns (r: Result<Proto>)
      requires z.Valid()
      modifies z
      ensures z.Valid() && Agrees(r, Load(check, old(z.Rest()), p), z.Rest())
      decreases |z.Rest()|, 0
    {
      hide C.LoadFront, C.LoadProtos, C.LoadDebug;
      var front :- LoadFront(p);
      var ps :- LoadProtos(front.n, front.source);
      var debug :- LoadDebug();
      var f := Proto(Some(front.source), front.head, front.code, front.k, ps, debug);
      return if check(f) then Ok(f) else Err;
    }

    /** The nested functions. */
    method LoadProtos(n: nat, p: Str) returns (r: Result<seq<Proto>>)
      requires z.Valid()
      modifies z
      ensures z.Valid() && Agrees(r, C.LoadProtos(check, n, old(z.Rest()), p), z.Rest())
      decreases |z.Rest()|, 1
    {
      hide Load;
      ghost var start := z.Rest();
      var ps: seq<Proto> := [];
      PrefixNone(C.LoadProtos(check, n, start, p));
      for i := 0 to n
        invariant z.Valid() && |ps| == i && |z.Rest()| <= |start|
        invariant C.LoadProtos(check, n, start, p) == Prefixed(ps, C.LoadProtos(check, n - i, z.Rest(), p))
      {
        ProtosNext(check, ps, n - i, z.Rest(), p);
        var f :- LoadFunction(p);
        ps := ps + [f];
      }
      assert ps + [] == ps;
      return Ok(ps);
    }

    /** luaU_undump: what it makes of a stream depends on its bytes alone, not on the chunks the reader returns. */
    method Undump() returns (r: Result<Proto>)
      requires z.Valid()
      modifies z
      ensures r == LoadChunk(check, old(z.Rest()))
    {
      hide Load;
      var h :- LoadBlock(12);
      if h != HEADER {
        return Err;
      }
      r := LoadFunction(UNKNOWN);
    }
  }

  lemma PrefixNone<T>(parsed: Parsed<seq<T>>)
    ensures Prefixed([], parsed) == parsed
  {
    if parsed.Ok? {
      assert [] + parsed.value.0 == parsed.value.0;
    }
  }

  /** Reading one element more. */
  lemma PrefixNext<T>(load: seq<Byte> -> Parsed<T>, xs: seq<T>, n: nat, bs: seq<Byte>)
    requires n > 0 && Consumes(load)
    ensures match load(bs)
            case Ok((x, rest)) => Prefixed(xs, LoadAll(load, n, bs)) == Prefixed(xs + [x], LoadAll(load, n - 1, rest))
            case Err => Prefixed(xs, LoadAll(load, n, bs)).Err?
  {
    match load(bs)
    case Ok((x, rest)) =>
      if LoadAll(load, n - 1, rest).Ok? {
        var ys := LoadAll(load, n - 1, rest).value.0;
        assert xs + ([x] + ys) == xs + [x] + ys;
      }
    case Err =>
  }

  lemma ProtosNext(check: Proto -> bool, ps: seq<Proto>, n: nat, bs: seq<Byte>, p: Str)
    requires n > 0
    ensures match Load(check, bs, p)
            case Ok((f, rest)) => Prefixed(ps, C.LoadProtos(check, n, bs, p)) ==
                Prefixed(ps + [f], C.LoadProtos(check, n - 1, rest, p))
            case Err => Prefixed(ps, C.LoadProtos(check, n, bs, p)).Err?
  {
    match Load(check, bs, p)
    case Ok((f, rest)) =>
      if C.LoadProtos(check, n - 1, rest, p).Ok? {
        var fs := C.LoadProtos(check, n - 1, rest, p).value.0;
        assert ps + ([f] + fs) == ps + [f] + fs;
      }
    case Err =>
  }

  // ---- Dumping ----

  /** DumpState; the writer takes some number of blocks before it fails. */
  class DumpState {
    const strip: bool
    var status: int
    var out: seq<Byte>                  // what the writer has been given
    var accepts: nat                    // how many blocks the writer still accepts

    constructor (strip: bool, accepts: nat)
      ensures this.strip == strip && status == 0 && out == []
    {
      this.strip, status, out, this.accepts := strip, 0, [], accepts;
    }

    /** The writer. */
    method Writer(b: seq<Byte>) returns (s: int)
      modifies `out, `accepts
      ensures s == 0 <==> old(accepts) > 0
      ensures if s == 0 then out == old(out) + b && accepts == old(accepts) - 1 else out == old(out) && accepts == 0
    {
      if accepts == 0 {
        return 1;
      }
      out, accepts := out + b, accepts - 1;
      return 0;
    }

    /**
     * Since the old state the writer has been given exactly these bytes, unless it has failed; then it is left alone.
     */
    twostate predicate Wrote(b: seq<Byte>)
      reads this
    {
      if old(status) != 0 then status == old(status) && out == old(out) && accepts == old(accepts)
      else (status == 0 && out == old(out) + b) || (status != 0 && accepts == 0)
    }

    method DumpBlock(b: seq<Byte>)
      modifies this
      ensures Wrote(b)
    {
      if status == 0 {
        status := Writer(b);
      }
    }

    method DumpInt(x: int)
      modifies this
      ensures Wrote(IntBytes(x))
    {
      DumpBlock(IntBytes(x));
    }

    method DumpString(s: Option<Str>)
      modifies this
      ensures Wrote(C.DumpString(s))
    {
      hide LittleEndian;
      match s
      case None => DumpBlock(LittleEndian(0, 4));
      case Some(t) =>
        DumpBlock(LittleEndian(|t| + 1, 4));
        DumpBlock(t + [0]);
        Assoc(old(out), LittleEndian(|t| + 1, 4), t + [0]);
    }

    method DumpWords(xs: seq<int>)
      modifies this
      ensures Wrote(C.DumpWords(xs))
    {
      hide IntBytes, Words;
      DumpInt(|xs|);
      DumpBlock(Words(xs));
      Assoc(old(out), IntBytes(|xs|), Words(xs));
    }

    method DumpConstant(c: Constant)
      modifies this
      ensures Wrote(C.DumpConstant(c))
    {
      hide LittleEndian, C.DumpString;
      var t := match c
        case KNil => TNIL
        case KBool(_) => TBOOLEAN
        case KNumber(_) => TNUMBER
        case KString(_) => TSTRING;
      DumpBlock([t]);
      ghost var o := old(out);
      match c
      case KNil =>
      case KBool(b) =>
        DumpBlock([if b then 1 else 0]);
        Assoc(o, [t], [if b then 1 else 0]);
      case KNumber(bits) =>
        DumpBlock(LittleEndian(bits, 8));
        Assoc(o, [t], LittleEndian(bits, 8));
      case KString(s) =>
        DumpString(Some(s));
        Assoc(o, [t], C.DumpString(Some(s)));
    }

    method DumpConstants(k: seq<Constant>)
      modifies this
      ensures Wrote(DumpList(C.DumpConstant, k))
    {
      hide C.DumpConstant, IntBytes;
      DumpInt(|k|);
      ghost var start, so, more := out, status, accepts;
      assert k[0..] == k;
      for i := 0 to |k|
        invariant if so != 0 then status == so && out == start && accepts == more
                  else if status != 0 then accepts == 0
                  else out + DumpAll(C.DumpConstant, k[i..]) == start + DumpAll(C.DumpConstant, k)
      {
        ghost var before := out;
        AllNext(C.DumpConstant, k, i);
        DumpConstant(k[i]);
        Assoc(before, C.DumpConstant(k[i]), DumpAll(C.DumpConstant, k[i + 1..]));
      }
      assert k[|k|..] == [] && out + [] == out;
      Assoc(old(out), IntBytes(|k|), DumpAll(C.DumpConstant, k));
    }

    method DumpLocVar(v: LocVar)
      modifies this
      ensures Wrote(C.DumpLocVar(v))
    {
      hide IntBytes, C.DumpString;
      DumpString(v.name);
      DumpInt(v.startpc);
      DumpInt(v.endpc);
      Assoc(old(out), C.DumpString(v.name), IntBytes(v.startpc) + IntBytes(v.endpc));
      Assoc(old(out) + C.DumpString(v.name), IntBytes(v.startpc), IntBytes(v.endpc));
    }

    method DumpLocVars(vars: seq<LocVar>)
      modifies this
      ensures Wrote(DumpList(C.DumpLocVar, vars))
    {
      hide C.DumpLocVar, IntBytes;
      DumpInt(|vars|);
      ghost var start, so, more := out, status, accepts;
      assert vars[0..] == vars;
      for i := 0 to |vars|
        invariant if so != 0 then status == so && out == start && accepts == more
                  else if status != 0 then accepts == 0
                  else out + DumpAll(C.DumpLocVar, vars[i..]) == start + DumpAll(C.DumpLocVar, vars)
      {
        ghost var before := out;
        AllNext(C.DumpLocVar, vars, i);
        DumpLocVar(vars[i]);
        Assoc(before, C.DumpLocVar(vars[i]), DumpAll(C.DumpLocVar, vars[i + 1..]));
      }
      assert vars[|vars|..] == [] && out + [] == out;
      Assoc(old(out), IntBytes(|vars|), DumpAll(C.DumpLocVar, vars));
    }

    method DumpNames(names: seq<Option<Str>>)
      modifies this
      ensures Wrote(DumpList(C.DumpString, names))
    {
      hide C.DumpString, IntBytes;
      DumpInt(|names|);
      ghost var start, so, more := out, status, accepts;
      assert names[0..] == names;
      for i := 0 to |names|
        invariant if so != 0 then status == so && out == start && accepts == more
                  else if status != 0 then accepts == 0
                  else out + DumpAll(C.DumpString, names[i..]) == start + DumpAll(C.DumpString, names)
      {
        ghost var before := out;
        AllNext(C.DumpString, names, i);
        DumpString(names[i]);
        Assoc(before, C.DumpString(names[i]), DumpAll(C.DumpString, names[i + 1..]));
      }
      assert names[|names|..] == [] && out + [] == out;
      Assoc(old(out), IntBytes(|names|), DumpAll(C.DumpString, names));
    }

    method DumpDebug(d: Debug)
      modifies this
      ensures Wrote(C.DumpDebug(if strip then NO_DEBUG else d))
    {
      hide C.DumpWords, DumpList;
      var (lines, vars, names) := if strip then ([], [], []) else (d.lineinfo, d.locvars, d.upvalues);
      DumpWords(lines);
      DumpLocVars(vars);
      DumpNames(names);
      Assoc(old(out) + C.DumpWords(lines), DumpList(C.DumpLocVar, vars), DumpList(C.DumpString, names));
      Assoc(old(out), C.DumpWords(lines), DumpList(C.DumpLocVar, vars) + DumpList(C.DumpString, names));
    }

    method DumpHead(h: Head)
      modifies this
      ensures Wrote(C.DumpHead(h))
    {
      hide IntBytes;
      DumpInt(h.linedefined);
      DumpInt(h.lastlinedefined);
      DumpBlock([h.nups]);
      DumpBlock([h.numparams]);
      DumpBlock([h.isvararg]);
      DumpBlock([h.maxstacksize]);
      ghost var o := old(out);
      ghost var a, b := IntBytes(h.linedefined), IntBytes(h.lastlinedefined);
      assert o + a + b + [h.nups] + [h.numparams] + [h.isvararg] + [h.maxstacksize] ==
             o + (a + (b + [h.nups, h.numparams, h.isvararg, h.maxstacksize]));
    }

    /** What DumpFunction writes before the nested functions. */
    method DumpFront(f: Proto, p: Option<Str>)
      modifies this
      ensures Wrote(C.DumpFront(f, p, strip))
    {
      hide C.DumpString, C.DumpHead, C.DumpWords, DumpList, IntBytes;
      ghost var o := old(out);
      var s := if f.source == p || strip then None else f.source;
      DumpString(s);
      DumpHead(f.head);
      DumpWords(f.code);
      DumpConstants(f.k);
      DumpInt(|f.p|);
      ghost var a, b, c, d, e := C.DumpString(s), C.DumpHead(f.head), C.DumpWords(f.code),
          DumpList(C.DumpConstant, f.k), IntBytes(|f.p|);
      Assoc(o + a + b + c, d, e);
      Assoc(o + a + b, c, d + e);
      Assoc(o + a, b, c + (d + e));
      Assoc(o, a, b + (c + (d + e)));
    }

    method DumpFunction(f: Proto, p: Option<Str>)
      modifies this
      ensures Wrote(Dump(f, p, strip))
      decreases f
    {
      hide Dump, C.DumpFront, C.DumpProtos, C.DumpDebug;
      DumpFront(f, p);
      DumpProtos(f.p, f.source);
      DumpDebug(f.debug);
      ghost var o, a, b := old(out), C.DumpFront(f, p, strip), C.DumpProtos(f.p, f.source, strip);
      ghost var d := C.DumpDebug(if strip then NO_DEBUG else f.debug);
      Assoc(o + a, b, d);
      Assoc(o, a, b + d);
      DumpParts(f, p, strip, []);
      assert Dump(f, p, strip) + [] == Dump(f, p, strip) && d + [] == d;
    }

    method DumpProtos(ps: seq<Proto>, source: Option<Str>)
      modifies this
      ensures Wrote(C.DumpProtos(ps, source, strip))
      decreases ps
    {
      hide Dump;
      ghost var start := out;
      assert ps[0..] == ps;
      for i := 0 to |ps|
        invariant if old(status) != 0 then status == old(status) && out == old(out) && accepts == old(accepts)
                  else if status != 0 then accepts == 0
                  else out + C.DumpProtos(ps[i..], source, strip) == start + C.DumpProtos(ps, source, strip)
      {
        ghost var before := out;
        assert ps[i..][0] == ps[i] && ps[i..][1..] == ps[i + 1..];
        DumpFunction(ps[i], source);
        Assoc(before, Dump(ps[i], source, strip), C.DumpProtos(ps[i + 1..], source, strip));
      }
      assert ps[|ps|..] == [] && out + [] == out;
    }

    /** luaU_dump: if the status is zero, the writer has been given exactly the bytes of the chunk. */
    method DumpAllOf(f: Proto) returns (s: int)
      requires status == 0 && out == []
      modifies this
      ensures s == 0 ==> out == DumpChunk(f, strip)
      ensures s != 0 ==> accepts == 0
    {
      hide Dump;
      DumpBlock(HEADER);
      DumpFunction(f, None);
      return status;
    }
  }

  /**
   string.dump and then load, through a writer and a reader that cuts the bytes into chunks as it likes: the function
   comes back exactly if the bytecode checker accepts it and no source is missing.
   */
  method DumpThenUndump(f: Proto, check: Proto -> bool, accepts: nat, cut: seq<Byte> -> seq<seq<Byte>>)
    returns (status: int, r: Result<Proto>)
    requires Good(f) && forall bs :: Flat(cut(bs)) == bs
    ensures status == 0 ==> (r == Ok(f) <==> Accepted(check, f) && Sourced(f))
  {
    hide Dump, Load, LoadChunk, DumpChunk, Accepted, Sourced, Good;
    var d := new DumpState(false, accepts);
    status := d.DumpAllOf(f);
    var z := new Zio(cut(d.out));
    var state := new LoadState(z, check);
    r := state.Undump();
    RoundTrip(check, f);
  }

  lemma Assoc(a: seq<Byte>, b: seq<Byte>, c: seq<Byte>)
    ensures a + b + c == a + (b + c)
  {
  }

  lemma AllNext<T>(dump: T -> seq<Byte>, xs: seq<T>, i: nat)
    requires i < |xs|
    ensures DumpAll(dump, xs[i..]) == dump(xs[i]) + DumpAll(dump, xs[i + 1..])
  {
    assert xs[i..][0] == xs[i] && xs[i..][1..] == xs[i + 1..];
  }
}
