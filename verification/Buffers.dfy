/** Scatter lists: a data buffer is a sequence of segments, and its meaning is their concatenation. */
module Buffers {

  newtype byte = x: int | 0 <= x < 256

  type Segments = seq<seq<byte>>

  function Min(a: nat, b: nat): (m: nat)
    ensures m <= a && m <= b && (m == a || m == b)
  {
    if a < b then a else b
  }

  /** The bytes a scatter list describes, in order. */
  function Flatten(segs: Segments): seq<byte> {
    if segs == [] then [] else Flatten(segs[..|segs| - 1]) + segs[|segs| - 1]
  }

  /** The position in the flattened buffer at which segment `k` starts. */
  function Start(segs: Segments, k: nat): nat
    requires k <= |segs|
  {
    |Flatten(segs[..k])|
  }

  /** No segment is empty; a zero length means "no more segments" to the code that walks the list. */
  predicate NonEmpty(segs: Segments) {
    forall i :: 0 <= i < |segs| ==> segs[i] != []
  }

  lemma {:induction false} StartNext(segs: Segments, k: nat)
    requires k < |segs|
    ensures Start(segs, k + 1) == Start(segs, k) + |segs[k]|
  {
    assert segs[..k + 1][..k] == segs[..k];
  }

  lemma {:induction false} FlattenConcat(a: Segments, b: Segments)
    ensures Flatten(a + b) == Flatten(a) + Flatten(b)
  {
    if b == [] {
      assert a + b == a;
    } else {
      var front := b[..|b| - 1];
      FlattenConcat(a, front);
      assert (a + b)[..|a + b| - 1] == a + front;
      assert Flatten(a + b) == Flatten(a) + Flatten(front) + b[|b| - 1];
    }
  }

  /** Segment `k` is the slice of the flattened buffer between its own start and the next one's. */
  lemma {:induction false} SegmentSlice(segs: Segments, k: nat)
    requires k < |segs|
    ensures Start(segs, k) + |segs[k]| == Start(segs, k + 1) <= |Flatten(segs)|
    ensures Flatten(segs) == Flatten(segs[..k]) + segs[k] + Flatten(segs[k + 1..])
  {
    StartNext(segs, k);
    FlattenConcat(segs[..k + 1], segs[k + 1..]);
    assert segs[..k + 1] + segs[k + 1..] == segs;
    assert segs[..k + 1][..k] == segs[..k];
  }

  lemma {:induction false} SegmentPiece(segs: Segments, k: nat, a: nat, b: nat)
    requires k < |segs| && a <= b <= |segs[k]|
    ensures Start(segs, k) + b <= |Flatten(segs)|
    ensures Flatten(segs)[Start(segs, k) + a..Start(segs, k) + b] == segs[k][a..b]
  {
    SegmentSlice(segs, k);
  }

  lemma {:induction false} StartMonotone(segs: Segments, k: nat)
    requires k <= |segs|
    ensures Start(segs, k) <= |Flatten(segs)|
    ensures k == |segs| ==> Start(segs, k) == |Flatten(segs)|
    ensures k == 0 ==> Start(segs, k) == 0
  {
    if k < |segs| {
      SegmentSlice(segs, k);
    } else {
      assert segs[..k] == segs;
    }
  }

  // --------------------------------------------------------------------------
  // Overwriting part of a buffer
  // --------------------------------------------------------------------------

  /** `s` with the bytes from `at` on replaced by `p`. */
  function Patch(s: seq<byte>, at: nat, p: seq<byte>): (r: seq<byte>)
    requires at + |p| <= |s|
    ensures |r| == |s|
    ensures forall i :: 0 <= i < |s| ==> r[i] == if at <= i < at + |p| then p[i - at] else s[i]
  {
    s[..at] + p + s[at + |p|..]
  }

  lemma {:induction false} PatchAppend(s: seq<byte>, at: nat, p: seq<byte>, q: seq<byte>)
    requires at + |p| + |q| <= |s|
    ensures Patch(Patch(s, at, p), at + |p|, q) == Patch(s, at, p + q)
  {
  }

  /** How much of `len` bytes at `off` lies inside a buffer of `room` bytes. */
  function Fits(off: nat, len: nat, room: nat): (n: nat)
    ensures n <= len
  {
    if room <= off then 0 else Min(len, room - off)
  }

  /** `Patch`, with an empty overwrite allowed anywhere. */
  function Overwrite(s: seq<byte>, at: nat, p: seq<byte>): (r: seq<byte>)
    requires p == [] || at + |p| <= |s|
  {
    if p == [] then s else Patch(s, at, p)
  }

  lemma {:induction false} OverwriteAt(s: seq<byte>, at: nat, p: seq<byte>)
    requires p == [] || at + |p| <= |s|
    ensures |Overwrite(s, at, p)| == |s|
    ensures forall i :: 0 <= i < |s| ==> Overwrite(s, at, p)[i] == if at <= i < at + |p| then p[i - at] else s[i]
  {
  }

  lemma {:induction false} OverwriteMore(s: seq<byte>, at: nat, p: seq<byte>, done: nat, n: nat)
    requires 0 < n && done + n <= |p| && at + done + n <= |s|
    ensures |Overwrite(s, at, p[..done])| == |s|
    ensures Patch(Overwrite(s, at, p[..done]), at + done, p[done..done + n]) == Overwrite(s, at, p[..done + n])
  {
    assert p[..done] + p[done..done + n] == p[..done + n];
    if done > 0 {
      PatchAppend(s, at, p[..done], p[done..done + n]);
    }
  }

  lemma {:induction false} PatchMiddle(a: seq<byte>, b: seq<byte>, c: seq<byte>, at: nat, p: seq<byte>)
    requires at + |p| <= |b|
    ensures a + Patch(b, at, p) + c == Patch(a + b + c, |a| + at, p)
  {
  }

  /** Overwriting inside one segment overwrites the same bytes of the flattened buffer. */
  lemma {:induction false} PatchSegment(segs: Segments, k: nat, at: nat, p: seq<byte>)
    requires k < |segs| && at + |p| <= |segs[k]|
    ensures Start(segs, k) + at + |p| <= |Flatten(segs)|
    ensures Flatten(segs[k := Patch(segs[k], at, p)]) == Patch(Flatten(segs), Start(segs, k) + at, p)
  {
    var segs' := segs[k := Patch(segs[k], at, p)];
    SegmentSlice(segs, k);
    SegmentSlice(segs', k);
    assert segs'[..k] == segs[..k] && segs'[k + 1..] == segs[k + 1..];
    PatchMiddle(Flatten(segs[..k]), segs[k], Flatten(segs[k + 1..]), at, p);
  }
}
