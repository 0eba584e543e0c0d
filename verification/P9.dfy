/** The 9P message codec of virtio/9p-pdu.c over scatter-gather lists. */
module P9 {
  import opened Bytes
  import opened Iovec
  import opened P9Codec

  class Pdu {
    const outIov: seq<array<byte>>
    const inIov: seq<array<byte>>
    var readOffset: nat
    var writeOffset: nat

    /** Buffers that are written do not overlap, with each other or with those that are read. */
    ghost predicate Valid() {
      && (forall i, j | 0 <= i < j < |inIov| :: inIov[i] != inIov[j])
      && (forall i, j | 0 <= i < |inIov| && 0 <= j < |outIov| :: inIov[i] != outIov[j])
    }

    constructor (outIov: seq<array<byte>>, inIov: seq<array<byte>>)
      requires forall i, j | 0 <= i < j < |inIov| :: inIov[i] != inIov[j]
      requires forall i, j | 0 <= i < |inIov| && 0 <= j < |outIov| :: inIov[i] != outIov[j]
      ensures Valid() && this.outIov == outIov && this.inIov == inIov && readOffset == writeOffset == 0
    {
      this.outIov, this.inIov := outIov, inIov;
      readOffset, writeOffset := 0, 0;
    }

    /** virtio_p9_pdu_read: a read of the flat buffer at readOffset, which may come up short. */
    method Read(data: array<byte>, size: nat)
      requires size <= data.Length && data !in outIov
      modifies data, this`readOffset
      ensures data[..] == Loaded(old(data[..]), Fetched(Gather(outIov), old(readOffset), size))
      ensures readOffset == old(readOffset) + |Fetched(Gather(outIov), old(readOffset), size)|
    {
      hide Gather, Length, Fetched, Loaded;
      ghost var flat, start, was := Gather(outIov), readOffset, data[..];
      GatherContents(outIov);
      FetchedLength(flat, start, 0);
      LoadedNone(was, Fetched(flat, start, 0));
      NoBuffers(outIov);
      var i, copied, offset := 0, 0, readOffset;
      while i < |outIov| && copied < size
        invariant 0 <= i <= |outIov| && 0 <= offset && 0 <= copied <= size && readOffset == start
        invariant Gather(outIov) == flat && data[..] == Loaded(was, Fetched(flat, start, copied))
        invariant copied < size ==> Length(outIov[..i]) + offset == start + copied && (copied > 0 ==> offset == 0)
        invariant copied == |Fetched(flat, start, copied)|
      {
        LengthNext(outIov, i);
        if offset >= outIov[i].Length {
          offset := offset - outIov[i].Length;
        } else {
          var len := Min(outIov[i].Length - offset, size - copied);
          CopyOut(i, offset, data, copied, len, start, was);
          FetchedLength(flat, start, copied + len);
          copied := copied + len;
          offset := 0;
        }
        i := i + 1;
      }
      assert outIov[..|outIov|] == outIov;
      FetchedLength(flat, start, copied);
      FetchedLength(flat, start, size);
      FetchedAll(flat, start, copied, size);
      readOffset := readOffset + copied;
    }

    /** A copy out of one buffer. */
    method CopyOut(i: nat, offset: nat, data: array<byte>, copied: nat, len: nat, ghost start: nat,
                   ghost was: seq<byte>)
      requires data !in outIov && i < |outIov| && 0 < len <= outIov[i].Length - offset
               && copied + len <= data.Length == |was|
      requires Length(outIov[..i]) + offset == start + copied
      requires data[..] == Loaded(was, Fetched(Gather(outIov), start, copied))
      modifies data
      ensures Gather(outIov) == old(Gather(outIov)) && start + copied + len <= |Gather(outIov)|
      ensures data[..] == Loaded(was, Fetched(Gather(outIov), start, copied + len))
    {
      hide Gather, Length, Loaded, Fetched;
      GatherAt(outIov, i);
      ghost var flat, mid := Gather(outIov), data[..];
      forall k | copied <= k < copied + len {
        data[k] := outIov[i][..][offset + (k - copied)];
      }
      assert Gather(outIov) == flat;
      LoadedMore(was, mid, data[..], flat, outIov[i][..], start, offset, copied, len);
    }

    /** virtio_p9_pdu_write: a write to the flat buffer at writeOffset, which stops at its end. */
    method Write(data: seq<byte>)
      requires Valid()
      modifies this`writeOffset, set b | b in inIov
      ensures Gather(inIov) == Sent(old(Gather(inIov)), old(writeOffset), data)
      ensures writeOffset == old(writeOffset) + Available(|old(Gather(inIov))|, old(writeOffset), |data|)
    {
      hide Gather, Length, Sent;
      ghost var flat, start := Gather(inIov), writeOffset;
      GatherContents(inIov);
      SentNone(flat, start, data[..0]);
      NoBuffers(inIov);
      var i, copied, offset := 0, 0, writeOffset;
      while i < |inIov| && copied < |data|
        invariant 0 <= i <= |inIov| && 0 <= copied <= |data| && 0 <= offset && writeOffset == start
        invariant Gather(inIov) == Sent(flat, start, data[..copied])
        invariant copied < |data| ==> Length(inIov[..i]) + offset == start + copied && (copied > 0 ==> offset == 0)
        invariant copied > 0 ==> start + copied <= |flat|
      {
        LengthNext(inIov, i);
        if offset >= inIov[i].Length {
          offset := offset - inIov[i].Length;
        } else {
          var len := Min(inIov[i].Length - offset, |data| - copied);
          CopyIn(i, offset, data, copied, len, flat, start);
          copied := copied + len;
          offset := 0;
        }
        i := i + 1;
      }
      assert inIov[..|inIov|] == inIov;
      SentAll(flat, start, data, copied);
      writeOffset := writeOffset + copied;
    }

    /** A copy into one buffer. */
    method CopyIn(i: nat, offset: nat, data: seq<byte>, copied: nat, len: nat, ghost flat: seq<byte>, ghost start: nat)
      requires Valid() && i < |inIov| && offset + len <= inIov[i].Length && copied + len <= |data|
      requires Length(inIov[..i]) + offset == start + copied && |flat| == Length(inIov)
      requires Gather(inIov) == Sent(flat, start, data[..copied])
      modifies inIov[i]
      ensures start + copied + len <= |flat|
      ensures Gather(inIov) == Sent(flat, start, data[..copied + len])
    {
      hide Gather, Length, Contents, Join, Overwrite, Sent;
      GatherContents(inIov);
      GatherAt(inIov, i);
      JoinLength(inIov, i);
      ghost var parts := Contents(inIov);
      var part := data[copied..copied + len];
      JoinOverwrite(parts, i, offset, part);
      SentMore(flat, start, data, copied, len);
      forall k | offset <= k < offset + len {
        inIov[i][k] := part[k - offset];
      }
      BufferPatched(parts[i], inIov[i][..], offset, part);
      forall j | 0 <= j < |inIov| && j != i
        ensures inIov[j][..] == parts[j]
      {
        assert inIov[j] != inIov[i];
      }
      assert Contents(inIov) == parts[i := inIov[i][..]];
      GatherContents(inIov);
    }

    // -------------------------------------------------------------- values

    /** virtio_p9_pdu_encode: the buffer receives the encoding of the values, as far as it has room. */
    method Writef(vs: seq<Value>)
      requires Valid()
      modifies this`writeOffset, set b | b in inIov
      decreases Depth(Formats(vs)), 2, |vs|
      ensures Gather(inIov) == Sent(old(Gather(inIov)), old(writeOffset), EncodeAll(vs))
      ensures writeOffset == old(writeOffset) + Available(|old(Gather(inIov))|, old(writeOffset), |EncodeAll(vs)|)
    {
      hide Gather, Sent, Depth, Level, Encode, EncodeAll, Available, Formats;
      ghost var flat, start := Gather(inIov), writeOffset;
      EncodeNone(vs[..0]);
      SentNone(flat, start, EncodeAll(vs[..0]));
      for i := 0 to |vs|
        invariant Gather(inIov) == Sent(flat, start, EncodeAll(vs[..i]))
        invariant writeOffset == start + Available(|flat|, start, |EncodeAll(vs[..i])|)
      {
        LevelAtMost(Formats(vs), i);
        FormatAt(vs, i);
        WriteOne(vs[i]);
        EncodeAppend(vs, i);
        SentTwice(flat, start, EncodeAll(vs[..i]), Encode(vs[i]));
      }
      assert vs[..|vs|] == vs;
    }

    /** The encoding of one value. */
    method WriteOne(v: Value)
      requires Valid()
      modifies this`writeOffset, set b | b in inIov
      decreases Level(Format(v)), 1, 0
      ensures Gather(inIov) == Sent(old(Gather(inIov)), old(writeOffset), Encode(v))
      ensures writeOffset == old(writeOffset) + Available(|old(Gather(inIov))|, old(writeOffset), |Encode(v)|)
    {
      hide Gather, Sent, Available, Depth, EncodeAll, Formats, Parts;
      match v
      case Byte(n) => Write(LittleEndian(n, 1));
      case Word(n) => Write(LittleEndian(n, 2));
      case Double(n) => Write(LittleEndian(n, 4));
      case Quad(n) => Write(LittleEndian(n, 8));
      case Str(t) =>
        ghost var flat, start := Gather(inIov), writeOffset;
        var len := if t.Null? then 0 else Min(|t.s|, U16 - 1);
        assert (if t.Null? then [] else t.s[..len]) == Cut(t);
        Write(LittleEndian(len, 2));
        Write(if t.Null? then [] else t.s[..len]);
        SentTwice(flat, start, LittleEndian(len, 2), Cut(t));
      case _ =>
        SubDepth(Format(v));
        Writef(Parts(v));
    }

    /** Reads a number of n bytes. */
    method ReadNumber(n: nat) returns (v: nat)
      modifies this`readOffset
      ensures readOffset >= old(readOffset)
      ensures var t := Tail(Gather(outIov), old(readOffset));
              && (|t| >= n ==> v == Number(Take(t, n)) && Tail(Gather(outIov), readOffset) == Drop(t, n))
              && (|t| < n ==> Tail(Gather(outIov), readOffset) == [])
    {
      hide Gather, Loaded, Fetched, Tail, Take, Drop, Number;
      var data := ReadBytes(n);
      v := Number(data);
    }

    /** Reads n bytes. */
    method ReadBytes(n: nat) returns (s: seq<byte>)
      modifies this`readOffset
      ensures readOffset >= old(readOffset)
      ensures var t := Tail(Gather(outIov), old(readOffset));
              && (|t| >= n ==> s == Take(t, n) && Tail(Gather(outIov), readOffset) == Drop(t, n))
              && (|t| < n ==> Tail(Gather(outIov), readOffset) == [])
    {
      hide Gather, Loaded, Fetched, Tail, Take, Drop;
      ghost var flat := Gather(outIov);
      var data := new byte[n](_ => 0);
      assert Gather(outIov) == flat;
      ghost var was := data[..];
      Read(data, n);
      TailFetched(flat, old(readOffset), n, was);
      s := data[..];
    }

    /** virtio_p9_decode.  The values up to the first read that comes up short are those of the message; what is
        read short is left uninitialised in the source, and then the message is used up. */
    method Readf(f: string) returns (vals: seq<Value>, err: nat)
      modifies this`readOffset
      decreases Depth(f), 2, |f|
      ensures KnownAll(f) ==> Formats(vals) == f
      ensures readOffset >= old(readOffset) && Gather(outIov) == old(Gather(outIov))
      ensures forall j | 0 <= j <= |f| :: Agrees(vals, DecodeAll(f[..j], Tail(Gather(outIov), old(readOffset)), 0))
      ensures var d := DecodeAll(f, Tail(Gather(outIov), old(readOffset)), 0);
              && (d.whole ==> vals == d.vals && err == d.err && Tail(Gather(outIov), readOffset) == d.rest)
              && (!d.whole ==> Tail(Gather(outIov), readOffset) == [])
    {
      hide Gather, Tail, DecodeOne, DecodeAll, Depth, Level, Formats, Known;
      ghost var flat, t0 := Gather(outIov), Tail(Gather(outIov), readOffset);
      vals, err := [], 0;
      NoFormats(f[..0]);
      DecodeNothing(f[..0], t0);
      for i := 0 to |f|
        invariant Gather(outIov) == flat && (KnownAll(f) ==> Formats(vals) == f[..i]) && readOffset >= old(readOffset)
        invariant forall j | 0 <= j <= i :: Agrees(vals, DecodeAll(f[..j], t0, 0))
        invariant var d := DecodeAll(f[..i], t0, 0);
                  && (d.whole ==> vals == d.vals && err == d.err && Tail(flat, readOffset) == d.rest)
                  && (!d.whole ==> Tail(flat, readOffset) == [])
      {
        LevelAtMost(f, i);
        DecodeLast(f, i, t0);
        ghost var offset := readOffset;
        var one;
        one, err := ReadOne(f[i], err);
        TailEmpty(flat, offset, readOffset);
        FormatsAppend(vals, one, f, i);
        AgreesMore(vals, one, f, i, t0);
        vals := vals + one;
      }
      assert f[..|f|] == f;
    }

    /** The decode of one format character; the return value so far is passed on. */
    method ReadOne(c: char, err0: nat) returns (vals: seq<Value>, err: nat)
      modifies this`readOffset
      decreases Level(c), 1, 0
      ensures Gather(outIov) == old(Gather(outIov)) && (Known(c) ==> Formats(vals) == [c])
      ensures readOffset >= old(readOffset)
      ensures var d := DecodeOne(c, Tail(Gather(outIov), old(readOffset)), err0);
              && (d.whole ==> vals == d.vals && err == d.err && Tail(Gather(outIov), readOffset) == d.rest)
              && (!d.whole ==> Tail(Gather(outIov), readOffset) == [])
    {
      hide Gather, Tail, DecodeAll, Depth, Number, Take, Drop, Assemble;
      err := err0;
      if c == 'b' {
        var n := ReadNumber(1);
        vals := [Byte(n)];
      } else if c == 'w' {
        var n := ReadNumber(2);
        vals := [Word(n)];
      } else if c == 'd' {
        var n := ReadNumber(4);
        vals := [Double(n)];
      } else if c == 'q' {
        var n := ReadNumber(8);
        vals := [Quad(n)];
      } else if c == 's' {
        ghost var t := Tail(Gather(outIov), readOffset);
        DropLength(t, 2);
        var len := ReadNumber(2);
        if len >= 0x8000 {
          vals, err := [Str(Null)], ENOMEM;
        } else {
          ghost var offset := readOffset;
          var s := ReadBytes(len);
          TailEmpty(Gather(outIov), offset, readOffset);
          vals := [Str(Chars(s))];
        }
      } else if c == 'Q' || c == 'S' {
        SubDepth(c);
        SubKnown(c);
        var parts;
        parts, err := Readf(SubFormat(c));
        vals := [Assemble(c, parts)];
      } else {
        vals, err := [], EINVAL;
      }
    }
  }

  /** How many of size bytes there are at an offset of a buffer. */
  function Available(length: nat, offset: nat, size: nat): nat {
    if offset < length then Min(size, length - offset) else 0
  }

  /** The bytes that a read of size bytes at an offset gets. */
  function Fetched(s: seq<byte>, at: nat, size: nat): seq<byte> {
    if at < |s| then s[at..at + Min(size, |s| - at)] else []
  }

  /** A buffer after part was copied to its start. */
  function Loaded(s: seq<byte>, part: seq<byte>): seq<byte> {
    if |part| <= |s| then part + s[|part|..] else part
  }

  lemma {:induction false} LoadedNone(s: seq<byte>, part: seq<byte>)
    requires part == []
    ensures Loaded(s, part) == s
  {
  }

  lemma {:induction false} LoadedFetched(was: seq<byte>, flat: seq<byte>, start: nat, n: nat)
    requires start < |flat| && start + n <= |flat| && n <= |was|
    ensures Loaded(was, Fetched(flat, start, n)) == flat[start..start + n] + was[n..]
  {
  }

  lemma {:induction false} LoadedMore(was: seq<byte>, mid: seq<byte>, now: seq<byte>, flat: seq<byte>, buf: seq<byte>,
                                      start: nat, offset: nat, copied: nat, len: nat)
    requires copied + len <= |was| == |mid| == |now| && len > 0 && offset + len <= |buf| && offset <= start + copied
    requires var base := start + copied - offset; base + |buf| <= |flat| && flat[base..base + |buf|] == buf
    requires mid == Loaded(was, Fetched(flat, start, copied))
    requires forall k | 0 <= k < |now| :: now[k] == if copied <= k < copied + len then buf[offset + (k - copied)]
             else mid[k]
    ensures now == Loaded(was, Fetched(flat, start, copied + len))
  {
    hide Loaded, Fetched;
    LoadedFetched(was, flat, start, copied);
    LoadedFetched(was, flat, start, copied + len);
    var base := start + copied - offset;
    var goal := flat[start..start + (copied + len)] + was[copied + len..];
    forall k | 0 <= k < |now|
      ensures now[k] == goal[k]
    {
      if copied <= k < copied + len {
        assert flat[base..base + |buf|][offset + (k - copied)] == flat[start + k];
      }
    }
  }

  lemma {:induction false} FetchedLength(s: seq<byte>, at: nat, size: nat)
    ensures |Fetched(s, at, size)| == Available(|s|, at, size)
  {
  }

  lemma {:induction false} FetchedAll(s: seq<byte>, at: nat, n: nat, size: nat)
    requires n == Available(|s|, at, size)
    ensures Fetched(s, at, n) == Fetched(s, at, size)
  {
  }

  /** A flat buffer after as much of data as fits was written at an offset. */
  function Sent(s: seq<byte>, at: nat, data: seq<byte>): seq<byte> {
    if at < |s| then Overwrite(s, at, data[..Min(|data|, |s| - at)]) else s
  }

  lemma {:induction false} NoBuffers(iov: seq<array<byte>>)
    ensures iov[..0] == [] && Length(iov[..0]) == 0
  {
  }

  lemma {:induction false} BufferPatched(s: seq<byte>, t: seq<byte>, at: nat, data: seq<byte>)
    requires |t| == |s| && at + |data| <= |s|
    requires forall k | 0 <= k < |s| :: t[k] == if at <= k < at + |data| then data[k - at] else s[k]
    ensures t == Overwrite(s, at, data)
  {
  }

  lemma {:induction false} SentNone(s: seq<byte>, at: nat, data: seq<byte>)
    requires data == []
    ensures Sent(s, at, data) == s && Available(|s|, at, |data|) == 0
  {
  }

  lemma {:induction false} SentAll(s: seq<byte>, at: nat, data: seq<byte>, n: nat)
    requires n == Available(|s|, at, |data|)
    ensures Sent(s, at, data[..n]) == Sent(s, at, data)
  {
    assert data[..n][..n] == data[..n];
  }

  lemma {:induction false} SentMore(s: seq<byte>, at: nat, data: seq<byte>, n: nat, c: nat)
    requires at + n + c <= |s| && n + c <= |data|
    ensures |Sent(s, at, data[..n])| == |s|
    ensures Overwrite(Sent(s, at, data[..n]), at + n, data[n..n + c]) == Sent(s, at, data[..n + c])
  {
    hide Overwrite;
    assert data[..n][..n] == data[..n] && data[..n + c][..n + c] == data[..n + c];
    if at < |s| {
      OverwriteMore(s, at, data, n, c);
    } else {
      OverwriteNone(s, at, data[n..n + c]);
    }
  }

  lemma {:induction false} OverwriteNone(s: seq<byte>, at: nat, data: seq<byte>)
    requires at <= |s| && data == []
    ensures Overwrite(s, at, data) == s
  {
  }

  lemma {:induction false} SentRoom(s: seq<byte>, at: nat, d: seq<byte>, e: seq<byte>)
    requires at + |d| < |s|
    ensures |Sent(s, at, d)| == |s| && Sent(Sent(s, at, d), at + |d|, e) == Sent(s, at, d + e)
  {
    hide Overwrite;
    assert d[..|d|] == d;
    var s1 := Overwrite(s, at, d);
    var m := Min(|e|, |s| - at - |d|);
    assert (d + e)[..|d| + m] == d + e[..m];
    OverwriteTwice(s, at, d, e[..m]);
  }

  lemma {:induction false} SentFull(s: seq<byte>, at: nat, d: seq<byte>, e: seq<byte>)
    requires at < |s| <= at + |d|
    ensures |Sent(s, at, d)| == |s| && Sent(s, at, d) == Sent(s, at, d + e)
  {
    hide Overwrite;
    assert (d + e)[..|s| - at] == d[..|s| - at];
  }

  lemma {:induction false} SentTwice(s: seq<byte>, at: nat, d: seq<byte>, e: seq<byte>)
    ensures var mid := at + Available(|s|, at, |d|);
            && Sent(Sent(s, at, d), mid, e) == Sent(s, at, d + e)
            && |Sent(s, at, d)| == |s| && mid + Available(|s|, mid, |e|) == at + Available(|s|, at, |d + e|)
  {
    hide Overwrite;
    if at + |d| < |s| {
      SentRoom(s, at, d, e);
    } else if at < |s| {
      SentFull(s, at, d, e);
    }
  }

  lemma {:induction false} OverwriteTwice(s: seq<byte>, at: nat, d: seq<byte>, e: seq<byte>)
    requires at + |d| + |e| <= |s|
    ensures Overwrite(Overwrite(s, at, d), at + |d|, e) == Overwrite(s, at, d + e)
  {
  }

  lemma {:induction false} LevelAtMost(f: string, i: nat)
    requires i < |f|
    ensures Level(f[i]) <= Depth(f)
  {
    if i > 0 {
      LevelAtMost(f[1..], i - 1);
    }
  }

  lemma {:induction false} FormatAt(vs: seq<Value>, i: nat)
    requires i < |vs|
    ensures |Formats(vs)| == |vs| && Formats(vs)[i] == Format(vs[i])
  {
  }

  lemma {:induction false} EncodeNone(vs: seq<Value>)
    requires vs == []
    ensures EncodeAll(vs) == []
  {
  }

  /** The flat buffer from an offset on. */
  function Tail(s: seq<byte>, at: nat): seq<byte> { if at <= |s| then s[at..] else [] }

  lemma {:induction false} TailFetched(s: seq<byte>, at: nat, n: nat, was: seq<byte>)
    requires |was| == n
    ensures |Tail(s, at)| >= n ==>
              && Loaded(was, Fetched(s, at, n)) == Take(Tail(s, at), n)
              && Tail(s, at + |Fetched(s, at, n)|) == Drop(Tail(s, at), n)
    ensures |Tail(s, at)| < n ==> Tail(s, at + |Fetched(s, at, n)|) == []
  {
  }

  lemma {:induction false} DropLength(s: seq<byte>, n: nat)
    ensures |s| >= n ==> |Drop(s, n)| == |s| - n
  {
  }

  lemma {:induction false} SubKnown(c: char)
    ensures KnownAll(SubFormat(c))
  {
  }

  lemma {:induction false} TailEmpty(s: seq<byte>, a: nat, b: nat)
    requires a <= b
    ensures Tail(s, a) == [] ==> Tail(s, b) == []
  {
  }

  /** The first values are those of a decode, if it read everything it asked for. */
  ghost predicate Agrees(vals: seq<Value>, d: Decoded) {
    d.whole ==> |d.vals| <= |vals| && vals[..|d.vals|] == d.vals
  }

  lemma {:induction false} DecodeNothing(f: string, s: seq<byte>)
    requires f == ""
    ensures DecodeAll(f, s, 0) == Decoded([], 0, s, true)
  {
  }

  /** Decoding one more format character. */
  function Continued(d: Decoded, one: Decoded): Decoded {
    Decoded(d.vals + one.vals, one.err, one.rest, d.whole && one.whole)
  }

  lemma {:induction false} DecodeAppend(f: string, c: char, s: seq<byte>, err: nat)
    ensures var d := DecodeAll(f, s, err);
            DecodeAll(f + [c], s, err) == Continued(d, DecodeOne(c, d.rest, d.err))
    decreases |f|
  {
    hide DecodeOne;
    if f == "" {
      assert (f + [c])[1..] == "";
    } else {
      var one := DecodeOne(f[0], s, err);
      assert (f + [c])[1..] == f[1..] + [c];
      DecodeAppend(f[1..], c, one.rest, one.err);
    }
  }

  lemma {:induction false} DecodeLast(f: string, i: nat, s: seq<byte>)
    requires i < |f|
    ensures var d := DecodeAll(f[..i], s, 0);
            DecodeAll(f[..i + 1], s, 0) == Continued(d, DecodeOne(f[i], d.rest, d.err))
  {
    assert f[..i + 1] == f[..i] + [f[i]];
    DecodeAppend(f[..i], f[i], s, 0);
  }

  lemma {:induction false} AgreesMore(vals: seq<Value>, one: seq<Value>, f: string, i: nat, s: seq<byte>)
    requires i < |f| && forall j | 0 <= j <= i :: Agrees(vals, DecodeAll(f[..j], s, 0))
    ensures forall j | 0 <= j <= i :: Agrees(vals + one, DecodeAll(f[..j], s, 0))
  {
    hide DecodeAll;
    forall j | 0 <= j <= i
      ensures Agrees(vals + one, DecodeAll(f[..j], s, 0))
    {
      var d := DecodeAll(f[..j], s, 0);
      assert Agrees(vals, d);
      if d.whole {
        assert (vals + one)[..|d.vals|] == vals[..|d.vals|];
      }
    }
  }

  lemma {:induction false} NoFormats(f: string)
    requires f == ""
    ensures Formats([]) == f
  {
  }

  lemma {:induction false} FormatsAppend(vals: seq<Value>, one: seq<Value>, f: string, i: nat)
    requires i < |f|
    ensures KnownAll(f) && Formats(vals) == f[..i] && (Known(f[i]) ==> Formats(one) == [f[i]]) ==>
            Formats(vals + one) == f[..i + 1]
  {
    if KnownAll(f) && Formats(vals) == f[..i] && Formats(one) == [f[i]] {
      assert |Formats(one)| == 1 && Formats(one)[0] == f[i];
      assert Formats(vals + one) == Formats(vals) + Formats(one);
    }
  }

  /** Values written through one segmentation and read through another, at any offsets: they come back if and
      only if their strings are short. */
  lemma {:induction false} AcrossSegmentations(flat: seq<byte>, at: nat, vs: seq<Value>, other: seq<byte>, from: nat)
    requires AllInRange(vs) && at + |EncodeAll(vs)| <= |flat| && from + |EncodeAll(vs)| <= |other|
    requires other[from..from + |EncodeAll(vs)|] == Sent(flat, at, EncodeAll(vs))[at..at + |EncodeAll(vs)|]
    ensures var d := DecodeAll(Formats(vs), Tail(other, from), 0);
            if AllShort(vs) then d.vals == vs && d.err == 0 && d.whole && d.rest == Tail(other, from + |EncodeAll(vs)|)
            else d.vals != vs
  {
    hide EncodeAll, DecodeAll, AllShort, AllInRange, Formats;
    var e := EncodeAll(vs);
    SentReads(flat, at, e);
    RoundTrip(vs, other[from + |e|..], 0);
    assert Tail(other, from) == e + other[from + |e|..];
  }

  lemma {:induction false} SentReads(s: seq<byte>, at: nat, d: seq<byte>)
    requires at + |d| <= |s|
    ensures |Sent(s, at, d)| == |s| && Sent(s, at, d)[at..at + |d|] == d
  {
    assert d[..|d|] == d;
  }
}
