/** The format of precompiled chunks, byte by byte. */
module ChunkFormat {
  import opened Base
  import opened Bytes
  import opened Chunks

  /** Integers are little-endian: the byte at each place. */
  lemma {:induction false} ByteAt(n: nat, k: nat, i: nat)
    requires i < k
    ensures LittleEndian(n, k)[i] == n / Pow256(i) % 256
    decreases k
  {
    if i > 0 {
      ByteAt(n / 256, k - 1, i - 1);
      DivideTwice(n, Pow256(i - 1));
    }
  }

  lemma DivideTwice(n: nat, p: nat)
    requires p > 0
    ensures n / 256 / p == n / (256 * p)
  {
    var q := n / 256 / p;
    assert n / 256 == q * p + n / 256 % p;
    var r := 256 * (n / 256 % p) + n % 256;
    assert 256 * (q * p) == q * (256 * p);
    assert n == q * (256 * p) + r && 0 <= r < 256 * p;
    QuotientIs(n, 256 * p, q, r);
  }

  lemma QuotientIs(n: nat, d: nat, q: nat, r: nat)
    requires n == q * d + r && r < d
    ensures n / d == q
  {
    var q' := n / d;
    assert n == q' * d + n % d;
    Multiples(d, q' - q - 1);
    Multiples(d, q - q' - 1);
  }

  lemma Multiples(d: nat, k: int)
    ensures k >= 0 ==> (k + 1) * d >= d
    ensures (k + 1) * d == k * d + d
  {
  }

  /** The four bytes of an integer. */
  lemma FourBytes(x: int)
    requires -TWO31 <= x < TWO31
    ensures var n := if x < 0 then x + 0x1_0000_0000 else x;
            IntBytes(x) == [n % 256, n / 256 % 256, n / 65536 % 256, n / 16777216 % 256]
  {
    hide LittleEndian;
    var n := if x < 0 then x + TWO32 else x;
    assert x % TWO32 == n;
    LittleFour(n);
  }

  lemma LittleFour(n: nat)
    ensures LittleEndian(n, 4) == [n % 256, n / 256 % 256, n / 65536 % 256, n / 16777216 % 256]
  {
    DivideTwice(n, 256);
    DivideTwice(n, 65536);
    DivideTwice(n / 256, 256);
    assert LittleEndian(n, 4) == [n % 256] + LittleEndian(n / 256, 3);
    ThreeBytes(n / 256);
  }

  lemma ThreeBytes(n: nat)
    ensures LittleEndian(n, 3) == [n % 256, n / 256 % 256, n / 256 / 256 % 256]
  {
    var m := n / 256;
    assert LittleEndian(n, 3) == [n % 256] + LittleEndian(m, 2);
    assert LittleEndian(m, 2) == [m % 256] + LittleEndian(m / 256, 1);
    assert LittleEndian(m / 256, 1) == [m / 256 % 256] + LittleEndian(m / 256 / 256, 0);
  }

  /** The tag of a constant is the number of its type, and what follows the tag. */
  lemma ConstantBytes(c: Constant)
    requires GoodConstant(c)
    ensures var bs := DumpConstant(c);
            match c
            case KNil => bs == [0]
            case KBool(b) => bs == if b then [1, 1] else [1, 0]
            case KNumber(bits) => |bs| == 9 && bs[0] == 3 && forall i :: 0 <= i < 8 ==>
              bs[i + 1] == bits / Pow256(i) % 256
            case KString(s) =>
              && |bs| == |s| + 6 && bs[0] == 4 && bs[5..|s| + 5] == s && bs[|s| + 5] == 0
              && forall i :: 0 <= i < 4 ==> bs[i + 1] == (|s| + 1) / Pow256(i) % 256
  {
    hide LittleEndian, Pow256;
    if c.KNumber? {
      forall i: nat | i < 8 ensures LittleEndian(c.bits, 8)[i] == c.bits / Pow256(i) % 256 {
        ByteAt(c.bits, 8, i);
      }
    } else if c.KString? {
      forall i: nat | i < 4 ensures LittleEndian(|c.s| + 1, 4)[i] == (|c.s| + 1) / Pow256(i) % 256 {
        ByteAt(|c.s| + 1, 4, i);
      }
    }
  }

  /** The twelve bytes of the header: the signature, version 5.1, the official format, the sizes of the machine. */
  lemma HeaderBytes(f: Proto, strip: bool)
    ensures |DumpChunk(f, strip)| > 12
    ensures DumpChunk(f, strip)[..12] == [0x1B, 0x4C, 0x75, 0x61, 0x51, 0, 1, 4, 4, 4, 8, 0]
  {
    hide DumpString, DumpHead, DumpWords, DumpList, DumpProtos, DumpDebug;
  }
  /** A chunk that was stripped is loaded as the same function without debug information, from the source "=?". */
  lemma Stripped(check: Proto -> bool, f: Proto)
    requires Good(f) && LoadChunk(check, DumpChunk(f, true)).Ok?
    ensures var g := LoadChunk(check, DumpChunk(f, true)).value;
            && g.source == Some([0x3D, 0x3F]) && g.debug == Debug([], [], [])
            && g.head == f.head && g.code == f.code && g.k == f.k && |g.p| == |f.p|
  {
    hide Load, Dump, Good, Accepted;
    UndumpDump(check, f, true);
    FilledLength(f.p, UNKNOWN, true);
  }

  lemma FilledLength(ps: seq<Proto>, p: Str, strip: bool)
    ensures |FilledAll(ps, p, strip)| == |ps|
  {
    hide Filled;
  }

  // ---- A whole function ----

  /** A function with one instruction, a constant of each kind, one nested function, and debug information. */
  const INNER := Proto(Some([61, 120]), Head(10, 11, 12, 13, 14, 15), [], [], [], Debug([], [], []))

  const OUTER :=
    Proto(Some([61, 120]), Head(1, 2, 3, 4, 5, 6), [0x0A0B0C0D],
          [KNil, KBool(true), KNumber(0x3FF0_0000_0000_0000), KString([65])],
          [INNER], Debug([7], [LocVar(Some([97]), 8, 9)], [Some([98])]))

  lemma Ints()
    ensures IntBytes(0x0A0B0C0D) == [0x0D, 0x0C, 0x0B, 0x0A]
    ensures forall x :: 0 <= x < 256 ==> IntBytes(x) == [x, 0, 0, 0]
  {
    hide LittleEndian, IntBytes;
    FourBytes(0x0A0B0C0D);
    forall x | 0 <= x < 256 ensures IntBytes(x) == [x, 0, 0, 0] {
      SmallInt(x);
    }
  }

  lemma SmallInt(x: nat)
    requires x < 256
    ensures IntBytes(x) == [x, 0, 0, 0]
  {
    hide IntBytes, LittleEndian;
    FourBytes(x);
    assert x % 256 == x && x / 256 == 0 && x / 65536 == 0 && x / 16777216 == 0;
  }

  lemma ShortString(s: Str)
    requires |s| < 255
    ensures DumpString(Some(s)) == [|s| + 1, 0, 0, 0] + s + [0]
    ensures DumpString(None) == [0, 0, 0, 0]
  {
    hide LittleEndian;
    Ints();
    assert IntBytes(|s| + 1) == LittleEndian(|s| + 1, 4) && IntBytes(0) == LittleEndian(0, 4);
  }

  lemma OneWord(x: int)
    ensures DumpWords([x]) == IntBytes(1) + IntBytes(x) && DumpWords([]) == IntBytes(0)
  {
    hide IntBytes;
    assert Words([x]) == IntBytes(x) + Words([]);
  }

  lemma ExampleConstants()
    ensures DumpList(DumpConstant, OUTER.k) ==
            [4, 0, 0, 0] + [0] + [1, 1] + [3, 0, 0, 0, 0, 0, 0, 0xF0, 0x3F] + [4, 2, 0, 0, 0, 65, 0]
  {
    hide IntBytes, LittleEndian, DumpString, DumpAll;
    var k := OUTER.k;
    SmallInt(4);
    ShortString([65]);
    OneAsDouble();
    FourConstants(k[0], k[1], k[2], k[3]);
  }

  lemma FourConstants(a: Constant, b: Constant, c: Constant, d: Constant)
    ensures DumpAll(DumpConstant, [a, b, c, d]) == DumpConstant(a) + DumpConstant(b) + DumpConstant(c) + DumpConstant(d)
  {
    hide DumpConstant;
    var k := [a, b, c, d];
    assert k[1..] == [b, c, d] && k[1..][1..] == [c, d] && k[1..][1..][1..] == [d] && k[1..][1..][1..][1..] == [];
    assert DumpAll(DumpConstant, [d]) == DumpConstant(d) + [];
    assert DumpAll(DumpConstant, [c, d]) == DumpConstant(c) + DumpAll(DumpConstant, [d]);
    assert DumpAll(DumpConstant, [b, c, d]) == DumpConstant(b) + DumpAll(DumpConstant, [c, d]);
  }

  /** The number 1.0. */
  lemma OneAsDouble()
    ensures LittleEndian(0x3FF0_0000_0000_0000, 8) == [0, 0, 0, 0, 0, 0, 0xF0, 0x3F]
  {
    assert LittleEndian(0x3FF0_0000_0000, 6) == [0, 0, 0, 0, 0xF0, 0x3F] by {
      assert LittleEndian(0x3FF0_0000, 4) == [0, 0, 0xF0, 0x3F];
    }
  }

  lemma ExampleDebug()
    ensures DumpDebug(OUTER.debug) ==
            [1, 0, 0, 0] + [7, 0, 0, 0]
            + [1, 0, 0, 0] + [2, 0, 0, 0, 97, 0] + [8, 0, 0, 0] + [9, 0, 0, 0]
            + [1, 0, 0, 0] + [2, 0, 0, 0, 98, 0]
    ensures DumpDebug(INNER.debug) == [0, 0, 0, 0] + [0, 0, 0, 0] + [0, 0, 0, 0]
  {
    hide IntBytes, LittleEndian, DumpString, DumpWords;
    var d := OUTER.debug;
    Ints();
    ShortString([97]);
    ShortString([98]);
    OneWord(7);
    assert DumpAll(DumpLocVar, d.locvars) == DumpLocVar(d.locvars[0]) + DumpAll(DumpLocVar, []);
    assert DumpAll(DumpString, d.upvalues) == DumpString(d.upvalues[0]) + DumpAll(DumpString, []);
  }

  /** Every byte of a function that has nothing but its head: a source that the enclosing function has is left out. */
  lemma InnerBytes()
    ensures Dump(INNER, Some([61, 120]), false) ==
            [0, 0, 0, 0] + [10, 0, 0, 0] + [11, 0, 0, 0] + [12, 13, 14, 15]
            + [0, 0, 0, 0] + [0, 0, 0, 0] + [0, 0, 0, 0] + [0, 0, 0, 0] + [0, 0, 0, 0] + [0, 0, 0, 0]
  {
    hide IntBytes, LittleEndian, DumpString, DumpWords, DumpDebug, DumpList;
    Ints();
    ShortString([]);
    OneWord(0);
    ExampleDebug();
    NoElements(DumpConstant);
    var d := DumpDebug(INNER.debug);
    assert DumpProtos([], INNER.source, false) == [];
    assert Dump(INNER, INNER.source, false) ==
           [0, 0, 0, 0] + (DumpHead(INNER.head) + ([0, 0, 0, 0] + ([0, 0, 0, 0] + ([0, 0, 0, 0] + ([] + d)))));
  }

  /** Every byte of a function that has something of everything. */
  lemma OuterBytes()
    ensures Dump(OUTER, None, false) ==
            [3, 0, 0, 0, 61, 120, 0] + ([1, 0, 0, 0] + [2, 0, 0, 0] + [3, 4, 5, 6])
            + ([1, 0, 0, 0] + [0x0D, 0x0C, 0x0B, 0x0A])
            + ([4, 0, 0, 0] + [0] + [1, 1] + [3, 0, 0, 0, 0, 0, 0, 0xF0, 0x3F] + [4, 2, 0, 0, 0, 65, 0])
            + [1, 0, 0, 0]
            + ([0, 0, 0, 0] + [10, 0, 0, 0] + [11, 0, 0, 0] + [12, 13, 14, 15]
               + [0, 0, 0, 0] + [0, 0, 0, 0] + [0, 0, 0, 0] + [0, 0, 0, 0] + [0, 0, 0, 0] + [0, 0, 0, 0])
            + ([1, 0, 0, 0] + [7, 0, 0, 0]
               + [1, 0, 0, 0] + [2, 0, 0, 0, 97, 0] + [8, 0, 0, 0] + [9, 0, 0, 0]
               + [1, 0, 0, 0] + [2, 0, 0, 0, 98, 0])
  {
    hide Dump, LittleEndian, IntBytes, DumpString, DumpWords, DumpDebug, DumpList;
    Ints();
    ShortString([61, 120]);
    OneWord(0x0A0B0C0D);
    ExampleConstants();
    InnerBytes();
    ExampleDebug();
    OneNested(OUTER);
  }

  /** The blocks of a function with one nested function, in their order. */
  lemma OneNested(f: Proto)
    requires |f.p| == 1 && f.source.Some?
    ensures Dump(f, None, false) ==
            DumpString(f.source) + DumpHead(f.head) + DumpWords(f.code) + DumpList(DumpConstant, f.k) + IntBytes(1)
            + Dump(f.p[0], f.source, false) + DumpDebug(f.debug)
  {
    hide IntBytes, DumpString, DumpHead, DumpWords, DumpDebug, DumpList;
    var inner := Dump(f.p[0], f.source, false);
    assert f.p[1..] == [] && DumpProtos([], f.source, false) == [];
    assert DumpProtos(f.p, f.source, false) == inner + DumpProtos([], f.source, false) == inner;
    Regroup(DumpString(f.source), DumpHead(f.head), DumpWords(f.code), DumpList(DumpConstant, f.k), IntBytes(1), inner,
            DumpDebug(f.debug));
  }

  lemma Regroup(a: Str, b: Str, c: Str, d: Str, e: Str, f: Str, g: Str)
    ensures a + (b + (c + (d + (e + (f + g))))) == a + b + c + d + e + f + g
  {
  }

  lemma NoElements<T>(dump: T -> seq<Byte>)
    ensures DumpList(dump, []) == IntBytes(0)
  {
  }
}
