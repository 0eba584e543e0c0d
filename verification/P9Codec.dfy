/** The 9P2000.L value formats b, w, d, q, s, Q and S of virtio/9p-pdu.c, over a flat buffer. */
module P9Codec {
  import opened Bytes

  /** A C string; the length on the wire is 16 bits. */
  datatype Text = Null | Chars(s: seq<byte>)

  datatype Value =
    | Byte(v: nat)
    | Word(v: nat)
    | Double(v: nat)
    | Quad(v: nat)
    | Str(text: Text)
    | Qid(kind: nat, version: nat, path: nat)
    | Stat(size: nat, kind: nat, dev: nat, qidKind: nat, qidVersion: nat, qidPath: nat, mode: nat, atime: nat,
      mtime: nat,
           length: nat, name: Text, uid: Text, gid: Text, muid: Text)

  const EINVAL: nat := 22
  const ENOMEM: nat := 12

  function Format(v: Value): char {
    match v
    case Byte(_) => 'b'
    case Word(_) => 'w'
    case Double(_) => 'd'
    case Quad(_) => 'q'
    case Str(_) => 's'
    case Qid(_, _, _) => 'Q'
    case Stat(_, _, _, _, _, _, _, _, _, _, _, _, _, _) => 'S'
  }

  function Formats(vs: seq<Value>): (f: string)
    ensures |f| == |vs| && forall i | 0 <= i < |vs| :: f[i] == Format(vs[i])
  {
    seq(|vs|, i requires 0 <= i < |vs| => Format(vs[i]))
  }

  /** The format that a compound value stands for. */
  function SubFormat(c: char): string {
    if c == 'Q' then "bdq" else if c == 'S' then "wwdQdddqssss" else ""
  }

  function Parts(v: Value): (r: seq<Value>)
    ensures Formats(r) == SubFormat(Format(v))
  {
    match v
    case Qid(k, n, p) => [Byte(k), Double(n), Quad(p)]
    case Stat(s, t, d, qk, qn, qp, m, at, mt, l, n, u, g, mu) =>
      [Word(s), Word(t), Double(d), Qid(qk, qn, qp), Double(m), Double(at), Double(mt), Quad(l), Str(n), Str(u), Str(g),
        Str(mu)]
    case _ => []
  }

  /** How deep a format nests. */
  function Level(c: char): nat { if c == 'S' then 2 else if c == 'Q' then 1 else 0 }

  function Depth(f: string): nat { if f == "" then 0 else Max(Level(f[0]), Depth(f[1..])) }

  lemma {:induction false} DepthBound(f: string, n: nat)
    requires forall i | 0 <= i < |f| :: Level(f[i]) <= n
    ensures Depth(f) <= n
  {
    if f != "" {
      DepthBound(f[1..], n);
    }
  }

  lemma {:induction false} SubDepth(c: char)
    requires c == 'Q' || c == 'S'
    ensures Depth(SubFormat(c)) < Level(c)
  {
    DepthBound(SubFormat(c), Level(c) - 1);
  }

  // ---------------------------------------------------------------- integers

  function LittleEndian(v: nat, n: nat): (r: seq<byte>)
    ensures |r| == n
  {
    if n == 0 then [] else [v % 256] + LittleEndian(v / 256, n - 1)
  }

  function Number(s: seq<byte>): nat { if s == [] then 0 else s[0] + 256 * Number(s[1..]) }

  lemma {:induction false} NumberRoundTrip(v: nat, n: nat)
    requires v < Pow2(8 * n)
    ensures Number(LittleEndian(v, n)) == v
  {
    if n > 0 {
      Pow2Byte(n - 1);
      NumberRoundTrip(v / 256, n - 1);
      assert LittleEndian(v, n)[1..] == LittleEndian(v / 256, n - 1);
    }
  }

  /** The least significant byte comes first. */
  lemma {:induction false} LittleEndianBytes(v: nat, n: nat, i: nat)
    requires i < n
    ensures LittleEndian(v, n)[i] == Digit(v, i)
  {
    hide Digit;
    if i == 0 {
      DigitFirst(v);
    } else {
      DigitNext(v, i - 1);
      LittleEndianBytes(v / 256, n - 1, i - 1);
    }
  }

  lemma {:induction false} NumberBytes(s: seq<byte>, i: nat)
    requires i < |s|
    ensures Digit(Number(s), i) == s[i] && Number(s) < Pow2(8 * |s|)
  {
    hide Digit;
    Pow2Byte(|s| - 1);
    var v := Number(s);
    assert v % 256 == s[0] && v / 256 == Number(s[1..]);
    if |s| > 1 {
      NumberBytes(s[1..], if i == 0 then 0 else i - 1);
    } else {
      assert s[1..] == [] && Pow2(0) == 1;
    }
    if i == 0 {
      DigitFirst(v);
    } else {
      DigitNext(v, i - 1);
    }
  }

  // ---------------------------------------------------------------- encoding

  /** What is sent of a string: its first 65535 bytes. */
  function Cut(t: Text): seq<byte> {
    if t.Null? then [] else if |t.s| < U16 then t.s else t.s[..U16 - 1]
  }

  function Encode(v: Value): seq<byte>
    decreases Level(Format(v)), 0, 0
  {
    match v
    case Byte(n) => LittleEndian(n, 1)
    case Word(n) => LittleEndian(n, 2)
    case Double(n) => LittleEndian(n, 4)
    case Quad(n) => LittleEndian(n, 8)
    case Str(t) => LittleEndian(|Cut(t)|, 2) + Cut(t)
    case _ => SubDepth(Format(v)); EncodeAll(Parts(v))
  }

  function EncodeAll(vs: seq<Value>): seq<byte>
    decreases Depth(Formats(vs)), 1, |vs|
  {
    if vs == [] then []
    else
      assert Formats(vs)[1..] == Formats(vs[1..]);
      Encode(vs[0]) + EncodeAll(vs[1..])
  }

  lemma {:induction false} EncodeAppend(vs: seq<Value>, i: nat)
    requires i < |vs|
    ensures EncodeAll(vs[..i + 1]) == EncodeAll(vs[..i]) + Encode(vs[i])
  {
    if i == 0 {
      assert vs[..1][1..] == [];
      assert EncodeAll(vs[..1]) == Encode(vs[0]) + [];
    } else {
      EncodeAppend(vs[1..], i - 1);
      assert vs[..i + 1][1..] == vs[1..][..i];
      assert vs[..i][1..] == vs[1..][..i - 1];
    }
  }

  // ---------------------------------------------------------------- the layout on the wire

  /** At this position stand the n bytes of v, the least significant first. */
  ghost predicate NumberAt(s: seq<byte>, at: nat, v: nat, n: nat) {
    at + n <= |s| && forall i | 0 <= i < n :: Digit(v, i) == s[at + i]
  }

  function TextLength(t: Text): nat { if t.Null? then 0 else Min(|t.s|, U16 - 1) }

  /** At this position stand the length of a string, 65535 at most, and as many of its bytes. */
  ghost predicate TextAt(s: seq<byte>, at: nat, t: Text) {
    && NumberAt(s, at, TextLength(t), 2) && at + 2 + TextLength(t) <= |s|
    && (t.Chars? ==> s[at + 2..at + 2 + TextLength(t)] == t.s[..TextLength(t)])
  }

  lemma {:induction false} SliceNumber(s: seq<byte>, at: nat, v: nat, n: nat)
    requires at + n <= |s| && s[at..at + n] == LittleEndian(v, n)
    ensures NumberAt(s, at, v, n)
  {
    hide Digit, LittleEndian;
    forall i | 0 <= i < n
      ensures Digit(v, i) == s[at + i]
    {
      LittleEndianBytes(v, n, i);
      assert s[at..at + n][i] == s[at + i];
    }
  }

  lemma {:induction false} SliceText(s: seq<byte>, at: nat, t: Text)
    requires at + |Encode(Str(t))| <= |s| && s[at..at + |Encode(Str(t))|] == Encode(Str(t))
    ensures |Encode(Str(t))| == 2 + TextLength(t) && TextAt(s, at, t)
  {
    hide LittleEndian, NumberAt;
    var e, n := Encode(Str(t)), TextLength(t);
    assert Cut(t) == if t.Null? then [] else t.s[..n];
    assert s[at..at + 2] == e[..2] == LittleEndian(n, 2);
    SliceNumber(s, at, n, 2);
    assert s[at + 2..at + 2 + n] == e[2..];
  }

  /** Where part j of a list of values stands. */
  lemma {:induction false} PartAt(vs: seq<Value>, j: nat, at: nat)
    requires j < |vs| && |EncodeAll(vs[..j])| == at
    ensures |EncodeAll(vs[..j + 1])| == at + |Encode(vs[j])| <= |EncodeAll(vs)|
    ensures EncodeAll(vs)[at..at + |Encode(vs[j])|] == Encode(vs[j])
  {
    hide Encode, EncodeAll;
    EncodeAppend(vs, j);
    EncodePrefix(vs, j + 1);
    var e := EncodeAll(vs[..j + 1]);
    assert e[at..] == Encode(vs[j]);
    assert EncodeAll(vs)[..|e|] == e;
  }

  lemma {:induction false} EncodePrefix(vs: seq<Value>, j: nat)
    requires j <= |vs|
    ensures |EncodeAll(vs[..j])| <= |EncodeAll(vs)| && EncodeAll(vs)[..|EncodeAll(vs[..j])|] == EncodeAll(vs[..j])
    decreases |vs| - j
  {
    hide Encode, EncodeAll;
    if j == |vs| {
      assert vs[..j] == vs;
    } else {
      EncodePrefix(vs, j + 1);
      EncodeAppend(vs, j);
    }
  }

  /** The next value of a list is a number of n bytes, which stands at this position. */
  lemma {:induction false} NumberPart(vs: seq<Value>, j: nat, at: nat, v: nat, n: nat)
    requires j < |vs| && |EncodeAll(vs[..j])| == at && Encode(vs[j]) == LittleEndian(v, n)
    ensures |EncodeAll(vs[..j + 1])| == at + n && NumberAt(EncodeAll(vs), at, v, n)
  {
    hide Encode, EncodeAll, NumberAt;
    PartAt(vs, j, at);
    SliceNumber(EncodeAll(vs), at, v, n);
  }

  lemma {:induction false} TextPart(vs: seq<Value>, j: nat, at: nat, t: Text)
    requires j < |vs| && |EncodeAll(vs[..j])| == at && vs[j] == Str(t)
    ensures |EncodeAll(vs[..j + 1])| == at + 2 + TextLength(t) && TextAt(EncodeAll(vs), at, t)
  {
    hide Encode, EncodeAll, TextAt;
    PartAt(vs, j, at);
    SliceText(EncodeAll(vs), at, t);
  }

  lemma {:induction false} Whole(vs: seq<Value>, n: nat)
    requires n == |vs|
    ensures EncodeAll(vs[..n]) == EncodeAll(vs) && EncodeAll(vs[..0]) == []
  {
    assert vs[..n] == vs;
  }

  /** Numbers of 1, 2, 4 and 8 bytes, and strings. */
  lemma {:induction false} LeafLayout(v: Value)
    ensures v.Byte? ==> |Encode(v)| == 1 && NumberAt(Encode(v), 0, v.v, 1)
    ensures v.Word? ==> |Encode(v)| == 2 && NumberAt(Encode(v), 0, v.v, 2)
    ensures v.Double? ==> |Encode(v)| == 4 && NumberAt(Encode(v), 0, v.v, 4)
    ensures v.Quad? ==> |Encode(v)| == 8 && NumberAt(Encode(v), 0, v.v, 8)
    ensures v.Str? ==> |Encode(v)| == 2 + TextLength(v.text) && TextAt(Encode(v), 0, v.text)
  {
    hide NumberAt, TextAt, LittleEndian, EncodeAll;
    var s := Encode(v);
    assert s[0..|s|] == s;
    match v
    case Byte(n) => SliceNumber(s, 0, n, 1);
    case Word(n) => SliceNumber(s, 0, n, 2);
    case Double(n) => SliceNumber(s, 0, n, 4);
    case Quad(n) => SliceNumber(s, 0, n, 8);
    case Str(t) => SliceText(s, 0, t);
    case _ =>
  }

  /** A qid: the type at byte 0, the version at bytes 1 to 4, the path at bytes 5 to 12. */
  lemma {:induction false} QidLayout(v: Value)
    requires v.Qid?
    ensures var s := Encode(v);
            |s| == 13 && NumberAt(s, 0, v.kind, 1) && NumberAt(s, 1, v.version, 4) && NumberAt(s, 5, v.path, 8)
  {
    hide EncodeAll, NumberAt, LittleEndian;
    var vs := Parts(v);
    Whole(vs, 3);
    NumberPart(vs, 0, 0, v.kind, 1);
    NumberPart(vs, 1, 1, v.version, 4);
    NumberPart(vs, 2, 5, v.path, 8);
  }

  /** The fixed part of a stat, up to the qid and after it. */
  lemma {:induction false} StatHead(v: Value)
    requires v.Stat?
    ensures var s := Encode(v);
            && NumberAt(s, 0, v.size, 2) && NumberAt(s, 2, v.kind, 2) && NumberAt(s, 4, v.dev, 4)
            && |s| >= 21 && s[8..21] == Encode(Qid(v.qidKind, v.qidVersion, v.qidPath))
    ensures |EncodeAll(Parts(v)[..4])| == 21
  {
    hide EncodeAll, NumberAt, LittleEndian;
    var vs := Parts(v);
    Whole(vs, 12);
    NumberPart(vs, 0, 0, v.size, 2);
    NumberPart(vs, 1, 2, v.kind, 2);
    NumberPart(vs, 2, 4, v.dev, 4);
    QidLayout(vs[3]);
    PartAt(vs, 3, 8);
  }

  lemma {:induction false} StatMiddle(v: Value)
    requires v.Stat?
    ensures var s := Encode(v);
            && NumberAt(s, 21, v.mode, 4) && NumberAt(s, 25, v.atime, 4) && NumberAt(s, 29, v.mtime, 4)
            && NumberAt(s, 33, v.length, 8)
    ensures |EncodeAll(Parts(v)[..8])| == 41
  {
    hide EncodeAll, NumberAt, LittleEndian;
    var vs := Parts(v);
    StatHead(v);
    NumberPart(vs, 4, 21, v.mode, 4);
    NumberPart(vs, 5, 25, v.atime, 4);
    NumberPart(vs, 6, 29, v.mtime, 4);
    NumberPart(vs, 7, 33, v.length, 8);
  }

  /** A stat: the fixed part of 41 bytes, with the qid at bytes 8 to 20, and four strings. */
  lemma {:induction false} StatLayout(v: Value)
    requires v.Stat?
    ensures var s := Encode(v);
            && NumberAt(s, 0, v.size, 2) && NumberAt(s, 2, v.kind, 2) && NumberAt(s, 4, v.dev, 4)
            && NumberAt(s, 8, v.qidKind, 1) && NumberAt(s, 9, v.qidVersion, 4) && NumberAt(s, 13, v.qidPath, 8)
            && NumberAt(s, 21, v.mode, 4) && NumberAt(s, 25, v.atime, 4) && NumberAt(s, 29, v.mtime, 4)
            && NumberAt(s, 33, v.length, 8)
    ensures var s, n, u, g := Encode(v), TextLength(v.name), TextLength(v.uid), TextLength(v.gid);
            && TextAt(s, 41, v.name) && TextAt(s, 43 + n, v.uid) && TextAt(s, 45 + n + u, v.gid)
            && TextAt(s, 47 + n + u + g, v.muid) && |s| == 49 + n + u + g + TextLength(v.muid)
  {
    hide EncodeAll, NumberAt, TextAt, TextLength, LittleEndian;
    StatHead(v);
    StatMiddle(v);
    var vs, n, u, g := Parts(v), TextLength(v.name), TextLength(v.uid), TextLength(v.gid);
    Whole(vs, 12);
    TextPart(vs, 8, 41, v.name);
    TextPart(vs, 9, 43 + n, v.uid);
    TextPart(vs, 10, 45 + n + u, v.gid);
    TextPart(vs, 11, 47 + n + u + g, v.muid);
    var q := Qid(v.qidKind, v.qidVersion, v.qidPath);
    QidLayout(q);
    Shifted(Encode(v), Encode(q), 8, 0, q.kind, 1);
    Shifted(Encode(v), Encode(q), 8, 1, q.version, 4);
    Shifted(Encode(v), Encode(q), 8, 5, q.path, 8);
  }

  lemma {:induction false} Shifted(s: seq<byte>, part: seq<byte>, base: nat, at: nat, v: nat, n: nat)
    requires base + |part| <= |s| && s[base..base + |part|] == part && NumberAt(part, at, v, n)
    ensures NumberAt(s, base + at, v, n)
  {
    forall i | 0 <= i < n
      ensures Digit(v, i) == s[base + at + i]
    {
      assert part[at + i] == s[base + (at + i)];
    }
  }

  // ---------------------------------------------------------------- decoding

  /** The outcome of a decode: the values, the return value, the bytes left, and whether no read came up
      short. */
  datatype Decoded = Decoded(vals: seq<Value>, err: nat, rest: seq<byte>, whole: bool)

  predicate Known(c: char) { c == 'b' || c == 'w' || c == 'd' || c == 'q' || c == 's' || c == 'Q' || c == 'S' }

  predicate KnownAll(f: string) { forall i | 0 <= i < |f| :: Known(f[i]) }

  function Take(s: seq<byte>, n: nat): seq<byte> { s[..Min(n, |s|)] }

  function Drop(s: seq<byte>, n: nat): seq<byte> { s[Min(n, |s|)..] }

  /** The compound value with these parts. */
  function Assemble(c: char, vs: seq<Value>): (v: Value)
    requires (c == 'Q' || c == 'S') && Formats(vs) == SubFormat(c)
    ensures Format(v) == c
  {
    if c == 'Q' then
      assert Formats(vs)[0] == 'b' && Formats(vs)[1] == 'd' && Formats(vs)[2] == 'q';
      Qid(vs[0].v, vs[1].v, vs[2].v)
    else
      assert Formats(vs)[0] == 'w' && Formats(vs)[1] == 'w' && Formats(vs)[2] == 'd' && Formats(vs)[3] == 'Q';
      assert Formats(vs)[4] == 'd' && Formats(vs)[5] == 'd' && Formats(vs)[6] == 'd' && Formats(vs)[7] == 'q';
      assert Formats(vs)[8] == 's' && Formats(vs)[9] == 's' && Formats(vs)[10] == 's' && Formats(vs)[11] == 's';
      Stat(vs[0].v, vs[1].v, vs[2].v, vs[3].kind, vs[3].version, vs[3].path, vs[4].v, vs[5].v, vs[6].v, vs[7].v,
           vs[8].text, vs[9].text, vs[10].text, vs[11].text)
  }

  /** The decode of one format character; err is the return value so far.  A string length is read as a signed
      number, and the allocation for a negative one fails. */
  function DecodeOne(c: char, s: seq<byte>, err: nat): (r: Decoded)
    ensures Known(c) ==> Formats(r.vals) == [c]
    ensures !Known(c) ==> r.vals == []
    decreases Level(c), 0, 0
  {
    if c == 'b' then Decoded([Byte(Number(Take(s, 1)))], err, Drop(s, 1), |s| >= 1)
    else if c == 'w' then Decoded([Word(Number(Take(s, 2)))], err, Drop(s, 2), |s| >= 2)
    else if c == 'd' then Decoded([Double(Number(Take(s, 4)))], err, Drop(s, 4), |s| >= 4)
    else if c == 'q' then Decoded([Quad(Number(Take(s, 8)))], err, Drop(s, 8), |s| >= 8)
    else if c == 's' then
      var len, t := Number(Take(s, 2)), Drop(s, 2);
      if len >= 0x8000 then Decoded([Str(Null)], ENOMEM, t, |s| >= 2)
      else Decoded([Str(Chars(Take(t, len)))], err, Drop(t, len), |s| >= 2 + len)
    else if c == 'Q' || c == 'S' then
      SubDepth(c);
      var d := DecodeAll(SubFormat(c), s, 0);
      Decoded([Assemble(c, d.vals)], d.err, d.rest, d.whole)
    else Decoded([], EINVAL, s, true)
  }

  lemma {:induction false} FormatsJoin(f: string, one: seq<Value>, more: seq<Value>)
    requires f != ""
    ensures KnownAll(f) ==> Known(f[0]) && KnownAll(f[1..])
    ensures Formats(one) == [f[0]] && Formats(more) == f[1..] ==> Formats(one + more) == f
  {
    hide Known, Format;
    if Formats(one) == [f[0]] && Formats(more) == f[1..] {
      assert Formats(one + more) == Formats(one) + Formats(more) == f;
    }
  }

  function DecodeAll(f: string, s: seq<byte>, err: nat): (r: Decoded)
    ensures KnownAll(f) ==> Formats(r.vals) == f
    decreases Depth(f), 1, |f|
  {
    if f == "" then Decoded([], err, s, true)
    else
      var one := DecodeOne(f[0], s, err);
      var more := DecodeAll(f[1..], one.rest, one.err);
      FormatsJoin(f, one.vals, more.vals);
      Decoded(one.vals + more.vals, more.err, more.rest, one.whole && more.whole)
  }

  // ---------------------------------------------------------------- the round trip

  /** The numbers of a value fit their formats. */
  predicate InRange(v: Value) {
    match v
    case Byte(n) => n < 256
    case Word(n) => n < U16
    case Double(n) => n < U32
    case Quad(n) => n < U64
    case Str(_) => true
    case Qid(k, n, p) => k < 256 && n < U32 && p < U64
    case Stat(s, t, d, qk, qn, qp, m, at, mt, l, _, _, _, _) =>
      s < U16 && t < U16 && d < U32 && qk < 256 && qn < U32 && qp < U64 && m < U32 && at < U32 && mt < U32 && l < U64
  }

  predicate AllInRange(vs: seq<Value>) { forall i | 0 <= i < |vs| :: InRange(vs[i]) }

  predicate ShortText(t: Text) { t.Chars? && |t.s| < 0x8000 }

  /** The strings of a value are there and shorter than 32768 bytes. */
  predicate Short(v: Value) {
    match v
    case Str(t) => ShortText(t)
    case Stat(_, _, _, _, _, _, _, _, _, _, n, u, g, m) => ShortText(n) && ShortText(u) && ShortText(g) && ShortText(m)
    case _ => true
  }

  predicate AllShort(vs: seq<Value>) { forall i | 0 <= i < |vs| :: Short(vs[i]) }

  lemma {:induction false} PartsInRange(v: Value)
    requires InRange(v)
    ensures AllInRange(Parts(v))
  {
  }

  lemma {:induction false} PartsShort(v: Value)
    requires v.Qid? || v.Stat?
    ensures AllShort(Parts(v)) <==> Short(v)
  {
    if v.Stat? {
      var p := Parts(v);
      assert p[8] == Str(v.name) && p[9] == Str(v.uid) && p[10] == Str(v.gid) && p[11] == Str(v.muid);
      if Short(v) {
        forall i | 0 <= i < |p|
          ensures Short(p[i])
        {
        }
      } else {
        assert !Short(p[8]) || !Short(p[9]) || !Short(p[10]) || !Short(p[11]);
      }
    }
  }

  lemma {:induction false} AssembleParts(v: Value, vs: seq<Value>)
    requires (v.Qid? || v.Stat?) && Formats(vs) == SubFormat(Format(v))
    ensures Assemble(Format(v), vs) == v <==> vs == Parts(v)
  {
    var a := Assemble(Format(v), vs);
    var f := Formats(vs);
    assert v.Qid? ==> f[0] == 'b' && f[1] == 'd' && f[2] == 'q';
    assert v.Stat? ==> f[0] == 'w' && f[1] == 'w' && f[2] == 'd' && f[3] == 'Q' && f[4] == 'd' && f[5] == 'd';
    assert v.Stat? ==> f[6] == 'd' && f[7] == 'q' && f[8] == 's' && f[9] == 's' && f[10] == 's' && f[11] == 's';
    assert Parts(a) == vs;
  }

  lemma {:induction false} TakeDrop(s: seq<byte>, rest: seq<byte>)
    ensures Take(s + rest, |s|) == s && Drop(s + rest, |s|) == rest
  {
  }

  lemma {:induction false} Limits()
    ensures Pow2(8 * 1) == 256 && Pow2(8 * 2) == U16 && Pow2(8 * 4) == U32 && Pow2(8 * 8) == U64
  {
    Pow2Sixteen();
    assert Pow2(8) == 256;
    Pow2Sum(16, 16);
    Pow2Sum(32, 32);
  }

  lemma {:induction false} NumberTrip(v: nat, n: nat, rest: seq<byte>)
    requires v < Pow2(8 * n)
    ensures Number(Take(LittleEndian(v, n) + rest, n)) == v && Drop(LittleEndian(v, n) + rest, n) == rest
  {
    TakeDrop(LittleEndian(v, n), rest);
    NumberRoundTrip(v, n);
  }

  lemma {:induction false} EncodeText(t: Text, rest: seq<byte>)
    ensures Encode(Str(t)) + rest == LittleEndian(|Cut(t)|, 2) + (Cut(t) + rest) && |Cut(t)| < U16
    ensures ShortText(t) <==> t.Chars? && |Cut(t)| < 0x8000
    ensures if t.Null? then Cut(t) == [] else ShortText(t) ==> Cut(t) == t.s
  {
  }

  lemma {:induction false} DecodeText(s: seq<byte>, err: nat, len: nat, t: seq<byte>)
    requires |s| >= 2 && Number(Take(s, 2)) == len && Drop(s, 2) == t
    ensures len >= 0x8000 ==> DecodeOne('s', s, err) == Decoded([Str(Null)], ENOMEM, t, true)
    ensures len < 0x8000 ==> DecodeOne('s', s, err) == Decoded([Str(Chars(Take(t, len)))], err, Drop(t, len),
            |s| >= 2 + len)
  {
  }

  lemma {:induction false} TextTrip(t: Text, rest: seq<byte>, err: nat)
    ensures ShortText(t) ==> DecodeOne('s', Encode(Str(t)) + rest, err) == Decoded([Str(t)], err, rest, true)
    ensures !ShortText(t) ==> DecodeOne('s', Encode(Str(t)) + rest, err).vals != [Str(t)]
  {
    hide Cut, Encode, DecodeOne, Number, Pow2, Take, Drop, LittleEndian;
    Limits();
    EncodeText(t, rest);
    NumberTrip(|Cut(t)|, 2, Cut(t) + rest);
    TakeDrop(Cut(t), rest);
    DecodeText(Encode(Str(t)) + rest, err, |Cut(t)|, Cut(t) + rest);
    assert [Str(t)][0] == Str(t);
  }

  /** A decode gave back vs and left rest if short holds, and did not give back vs otherwise. */
  ghost predicate Trip(d: Decoded, vs: seq<Value>, rest: seq<byte>, err: nat, short: bool) {
    if short then d.vals == vs && d.rest == rest && d.whole && (err == 0 ==> d.err == 0) else d.vals != vs
  }

  /** One value survives if and only if its strings are short. */
  lemma {:induction false} RoundTripOne(v: Value, rest: seq<byte>, err: nat)
    requires InRange(v)
    ensures Trip(DecodeOne(Format(v), Encode(v) + rest, err), [v], rest, err, Short(v))
    decreases Level(Format(v)), 1, 0
  {
    hide Pow2, Number, LittleEndian, Take, Drop, EncodeAll, DecodeAll, Assemble, Parts;
    Limits();
    match v
    case Byte(n) => NumberTrip(n, 1, rest);
    case Word(n) => NumberTrip(n, 2, rest);
    case Double(n) => NumberTrip(n, 4, rest);
    case Quad(n) => NumberTrip(n, 8, rest);
    case Str(t) => TextTrip(t, rest, err);
    case _ => CompoundTrip(v, rest, err);
  }

  /** A compound value survives if and only if its parts do. */
  lemma {:induction false} AssembleTrip(v: Value, d: Decoded, rest: seq<byte>, err: nat)
    requires (v.Qid? || v.Stat?) && Formats(d.vals) == SubFormat(Format(v)) && Trip(d, Parts(v), rest, 0, Short(v))
    ensures Trip(Decoded([Assemble(Format(v), d.vals)], d.err, d.rest, d.whole), [v], rest, err, Short(v))
  {
    hide Parts, Short, Assemble, Formats, SubFormat;
    AssembleParts(v, d.vals);
    assert [v][0] == v;
  }

  lemma {:induction false} DecodeCompound(c: char, s: seq<byte>, err: nat)
    requires c == 'Q' || c == 'S'
    ensures var d := DecodeAll(SubFormat(c), s, 0);
            Formats(d.vals) == SubFormat(c) && DecodeOne(c, s, err) ==
              Decoded([Assemble(c, d.vals)], d.err, d.rest, d.whole)
  {
    hide DecodeAll, Assemble;
  }

  lemma {:induction false} EncodeCompound(v: Value)
    requires v.Qid? || v.Stat?
    ensures Encode(v) == EncodeAll(Parts(v)) && Formats(Parts(v)) == SubFormat(Format(v))
    ensures Format(v) == if v.Qid? then 'Q' else 'S'
  {
    hide EncodeAll;
  }

  lemma {:induction false} CompoundTrip(v: Value, rest: seq<byte>, err: nat)
    requires InRange(v) && (v.Qid? || v.Stat?)
    ensures Trip(DecodeOne(Format(v), Encode(v) + rest, err), [v], rest, err, Short(v))
    decreases Level(Format(v)), 0, 0
  {
    hide *;
    EncodeCompound(v);
    SubDepth(Format(v));
    PartsInRange(v);
    PartsShort(v);
    RoundTrip(Parts(v), rest, 0);
    DecodeCompound(Format(v), Encode(v) + rest, err);
    AssembleTrip(v, DecodeAll(SubFormat(Format(v)), Encode(v) + rest, 0), rest, err);
  }

  /** A list of values survives if and only if its strings are short. */
  lemma {:induction false} RoundTrip(vs: seq<Value>, rest: seq<byte>, err: nat)
    requires AllInRange(vs)
    ensures Trip(DecodeAll(Formats(vs), EncodeAll(vs) + rest, err), vs, rest, err, AllShort(vs))
    decreases Depth(Formats(vs)), 2, |vs|
  {
    hide DecodeOne, Encode, Short, InRange, Format;
    if vs == [] {
      assert [] + rest == rest;
    } else {
      var more := vs[1..];
      assert Formats(vs)[1..] == Formats(more);
      assert EncodeAll(vs) + rest == Encode(vs[0]) + (EncodeAll(more) + rest);
      RoundTripOne(vs[0], EncodeAll(more) + rest, err);
      var one := DecodeOne(Format(vs[0]), Encode(vs[0]) + (EncodeAll(more) + rest), err);
      OneValue(vs[0], Encode(vs[0]) + (EncodeAll(more) + rest), err);
      assert vs[..1] == [vs[0]];
      RoundTrip(more, rest, one.err);
      TripCons(one, DecodeAll(Formats(more), one.rest, one.err), vs, EncodeAll(more) + rest, rest, err);
    }
  }

  lemma {:induction false} OneValue(v: Value, s: seq<byte>, err: nat)
    ensures |DecodeOne(Format(v), s, err).vals| == 1
  {
    assert Known(Format(v));
    assert |Formats(DecodeOne(Format(v), s, err).vals)| == 1;
  }

  lemma {:induction false} TripCons(one: Decoded, next: Decoded, vs: seq<Value>, mid: seq<byte>, rest: seq<byte>,
                                    err: nat)
    requires vs != [] && |one.vals| == 1 && Trip(one, vs[..1], mid, err, Short(vs[0]))
    requires Short(vs[0]) ==> Trip(next, vs[1..], rest, one.err, AllShort(vs[1..]))
    ensures Trip(Decoded(one.vals + next.vals, next.err, next.rest, one.whole && next.whole), vs, rest, err,
            AllShort(vs))
  {
    hide Short;
    assert vs == [vs[0]] + vs[1..];
    assert AllShort(vs) <==> Short(vs[0]) && AllShort(vs[1..]);
    assert (one.vals + next.vals)[0] == one.vals[0];
    assert (one.vals + next.vals)[1..] == next.vals;
  }
}
