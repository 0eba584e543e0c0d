/** Scatter-gather lists of buffers, and the flat buffer that they stand for. */
module Iovec {
  import opened Bytes

  /** iov_size */
  function Length(iov: seq<array<byte>>): nat {
    if iov == [] then 0 else iov[0].Length + Length(iov[1..])
  }

  /** What the buffers hold, one after the other. */
  ghost function Gather(iov: seq<array<byte>>): seq<byte>
    reads iov
  {
    if iov == [] then [] else iov[0][..] + Gather(iov[1..])
  }

  /** The flat buffer with data written at an offset. */
  function Overwrite(s: seq<byte>, at: nat, data: seq<byte>): (r: seq<byte>)
    requires at + |data| <= |s|
    ensures |r| == |s|
  {
    s[..at] + data + s[at + |data|..]
  }

  lemma {:induction false} LengthNext(iov: seq<array<byte>>, i: nat)
    requires i < |iov|
    ensures Length(iov[..i + 1]) == Length(iov[..i]) + iov[i].Length
  {
    if i > 0 {
      assert iov[..i + 1][1..] == iov[1..][..i];
      assert iov[..i][1..] == iov[1..][..i - 1];
      LengthNext(iov[1..], i - 1);
    }
  }

  /** What the buffers held at some time, as values. */
  ghost function Contents(iov: seq<array<byte>>): (r: seq<seq<byte>>)
    reads iov
    ensures |r| == |iov| && forall i | 0 <= i < |iov| :: r[i] == iov[i][..]
  {
    if iov == [] then [] else [iov[0][..]] + Contents(iov[1..])
  }

  function Join(parts: seq<seq<byte>>): seq<byte> {
    if parts == [] then [] else parts[0] + Join(parts[1..])
  }

  lemma {:induction false} GatherContents(iov: seq<array<byte>>)
    ensures Gather(iov) == Join(Contents(iov)) && |Gather(iov)| == Length(iov)
  {
    if iov != [] {
      GatherContents(iov[1..]);
      assert Contents(iov)[1..] == Contents(iov[1..]);
    }
  }

  lemma {:induction false} JoinSplit(parts: seq<seq<byte>>, i: nat)
    requires i < |parts|
    ensures Join(parts) == Join(parts[..i]) + parts[i] + Join(parts[i + 1..])
  {
    if i == 0 {
      assert parts[..0] == [];
    } else {
      JoinSplit(parts[1..], i - 1);
      assert parts[..i][1..] == parts[1..][..i - 1];
      assert parts[1..][i..] == parts[i + 1..];
    }
  }

  /** Where buffer i lies in the flat buffer. */
  lemma {:induction false} GatherAt(iov: seq<array<byte>>, i: nat)
    requires i < |iov|
    ensures var base := Length(iov[..i]);
            base + iov[i].Length <= |Gather(iov)| == Length(iov)
              && Gather(iov)[base..base + iov[i].Length] == iov[i][..]
  {
    if i == 0 {
      assert iov[..0] == [];
      GatherContents(iov[1..]);
    } else {
      GatherAt(iov[1..], i - 1);
      assert iov[..i][1..] == iov[1..][..i - 1];
      GatherContents(iov);
      var base := Length(iov[1..][..i - 1]);
      var g := Gather(iov[1..]);
      assert Gather(iov)[iov[0].Length + base..iov[0].Length + base + iov[i].Length] == g[base..base + iov[i].Length];
    }
  }

  /** A write into one part is a write into the flat buffer. */
  lemma {:induction false} JoinOverwrite(parts: seq<seq<byte>>, i: nat, at: nat, data: seq<byte>)
    requires i < |parts| && at + |data| <= |parts[i]|
    ensures |Join(parts[..i])| + |parts[i]| <= |Join(parts)|
    ensures Join(parts[i := Overwrite(parts[i], at, data)]) == Overwrite(Join(parts), |Join(parts[..i])| + at, data)
  {
    var parts' := parts[i := Overwrite(parts[i], at, data)];
    JoinSplit(parts, i);
    JoinSplit(parts', i);
    assert parts'[..i] == parts[..i] && parts'[i + 1..] == parts[i + 1..];
    var before, after := Join(parts[..i]), Join(parts[i + 1..]);
    assert (before + parts[i] + after)[..|before| + at] == before + parts[i][..at];
    assert (before + parts[i] + after)[|before| + at + |data|..] == parts[i][at + |data|..] + after;
  }

  lemma {:induction false} OverwriteMore(s: seq<byte>, at: nat, data: seq<byte>, n: nat, c: nat)
    requires at + n + c <= |s| && n + c <= |data|
    ensures Overwrite(Overwrite(s, at, data[..n]), at + n, data[n..n + c]) == Overwrite(s, at, data[..n + c])
  {
  }

  lemma {:induction false} JoinLength(iov: seq<array<byte>>, i: nat)
    requires i <= |iov|
    ensures |Join(Contents(iov)[..i])| == Length(iov[..i])
  {
    GatherContents(iov[..i]);
    assert Contents(iov)[..i] == Contents(iov[..i]);
  }
}
