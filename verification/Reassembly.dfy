/** Any-order reassembly of write frames, and the round trip from the read sender to the write receiver. */
module Reassembly {
  import opened Buffers
  import opened FcpData

  // --------------------------------------------------------------------------
  // Families of frames
  // --------------------------------------------------------------------------

  /** Every position some frame writes. */
  function Covered(frames: seq<Frame>, bufflen: nat, room: nat): set<nat> {
    if frames == [] then {}
    else Covered(frames[..|frames| - 1], bufflen, room) + Span(frames[|frames| - 1], bufflen, room)
  }

  ghost predicate Writes(frames: seq<Frame>, bufflen: nat, room: nat, i: nat, p: nat) {
    i < |frames| && p in Span(frames[i], bufflen, room)
  }

  lemma {:induction false} CoveredIff(frames: seq<Frame>, bufflen: nat, room: nat, p: nat)
    ensures p in Covered(frames, bufflen, room) <==> exists i: nat :: Writes(frames, bufflen, room, i, p)
    ensures p in Covered(frames, bufflen, room) ==> p < bufflen && p < room
  {
    hide Span;
    if frames != [] {
      var n := |frames| - 1;
      var front := frames[..n];
      CoveredIff(front, bufflen, room, p);
      assert forall i: nat :: i < n ==> (Writes(front, bufflen, room, i, p) <==> Writes(frames, bufflen, room, i, p));
      if p in Covered(front, bufflen, room) {
        var i: nat :| Writes(front, bufflen, room, i, p);
        assert Writes(frames, bufflen, room, i, p);
      } else if p in Span(frames[n], bufflen, room) {
        assert Writes(frames, bufflen, room, n, p);
      }
    }
  }

  /** The bytes copied by all of them, counted once per copy. */
  function Copied(frames: seq<Frame>, bufflen: nat, room: nat): nat {
    if frames == [] then 0
    else Copied(frames[..|frames| - 1], bufflen, room) + CopyLen(frames[|frames| - 1], bufflen, room)
  }

  ghost predicate Disjoint(frames: seq<Frame>, bufflen: nat, room: nat) {
    forall i, j :: 0 <= i < j < |frames| ==>
      Span(frames[i], bufflen, room) !! Span(frames[j], bufflen, room)
  }

  lemma {:induction false} SpanSize(f: Frame, bufflen: nat, room: nat)
    ensures |Span(f, bufflen, room)| == CopyLen(f, bufflen, room)
  {
  }

  lemma {:induction false} UnionSize(a: set<nat>, b: set<nat>)
    ensures |a + b| <= |a| + |b|
    ensures |a + b| == |a| + |b| <==> a !! b
  {
    assert a + b == a + (b - a);
    assert |a + (b - a)| == |a| + |b - a|;
    assert b == (b - a) + (a * b);
    assert |(b - a) + (a * b)| == |b - a| + |a * b|;
  }

  lemma {:induction false} FrontDisjoint(frames: seq<Frame>, bufflen: nat, room: nat)
    requires frames != []
    ensures var n := |frames| - 1;
            Disjoint(frames, bufflen, room) <==>
              && Disjoint(frames[..n], bufflen, room)
              && Covered(frames[..n], bufflen, room) !! Span(frames[n], bufflen, room)
  {
    hide Span;
    var n := |frames| - 1;
    var front := frames[..n];
    forall p {
      CoveredIff(front, bufflen, room, p);
    }
    if Disjoint(frames, bufflen, room) {
      forall p | p in Covered(front, bufflen, room) ensures p !in Span(frames[n], bufflen, room) {
        var i: nat :| Writes(front, bufflen, room, i, p);
        assert front[i] == frames[i];
      }
    }
    if Disjoint(front, bufflen, room) && Covered(front, bufflen, room) !! Span(frames[n], bufflen, room) {
      forall i, j | 0 <= i < j < |frames| ensures Span(frames[i], bufflen, room) !! Span(frames[j], bufflen, room) {
        assert frames[i] == front[i];
        if j < n {
          assert frames[j] == front[j];
        } else {
          forall p | p in Span(front[i], bufflen, room) ensures p in Covered(front, bufflen, room) {
            assert Writes(front, bufflen, room, i, p);
          }
        }
      }
    }
  }

  /** The byte counter never lags behind the bytes really placed, and it equals them exactly when no byte was
      written twice. */
  lemma {:induction false} CopiedVersusCovered(frames: seq<Frame>, bufflen: nat, room: nat)
    ensures |Covered(frames, bufflen, room)| <= Copied(frames, bufflen, room)
    ensures Copied(frames, bufflen, room) == |Covered(frames, bufflen, room)| <==> Disjoint(frames, bufflen, room)
  {
    if frames != [] {
      var n := |frames| - 1;
      CopiedVersusCovered(frames[..n], bufflen, room);
      SpanSize(frames[n], bufflen, room);
      UnionSize(Covered(frames[..n], bufflen, room), Span(frames[n], bufflen, room));
      FrontDisjoint(frames, bufflen, room);
    }
  }

  lemma {:induction false} SubsetSize(a: set<nat>, b: set<nat>)
    requires a <= b
    ensures |a| <= |b|
    ensures |a| == |b| <==> a == b
  {
    assert b == a + (b - a);
    assert |a + (b - a)| == |a| + |b - a|;
  }

  // --------------------------------------------------------------------------
  // Any order
  // --------------------------------------------------------------------------

  predicate Awaiting(rx: Rx, bufflen: nat) {
    rx.written == 0 && rx.state.NeedData? && rx.calls == [] && bufflen < U32
  }

  ghost predicate Complete(frames: seq<Frame>, bufflen: nat, room: nat) {
    bufflen > 0 && Covered(frames, bufflen, room) == Range(0, bufflen)
  }

  /** Disjoint frames in any order: the counter is the number of bytes in place, and SCST has been told, once,
      exactly if the whole buffer is there. */
  lemma {:induction false} CompletionIsCoverage(rx: Rx, bufflen: nat, frames: seq<Frame>)
    requires Awaiting(rx, bufflen) && Disjoint(frames, bufflen, |rx.flat|)
    ensures var r := ReceiveAll(rx, bufflen, frames);
            && |r.flat| == |rx.flat|
            && r.written == |Covered(frames, bufflen, |rx.flat|)| <= bufflen
            && (r.state == if Complete(frames, bufflen, |rx.flat|) then DataIn else NeedData)
            && (r.calls == if Complete(frames, bufflen, |rx.flat|) then [RxSuccess] else [])
  {
    if frames != [] {
      hide Receive, ReceiveAll, Covered, Span, Disjoint, CopyLen, Complete;
      var room, n := |rx.flat|, |frames| - 1;
      var front := frames[..n];
      FrontDisjoint(frames, bufflen, room);
      CompletionIsCoverage(rx, bufflen, front);
      CoverageStep(frames, bufflen, room);
      CountStep(ReceiveAll(rx, bufflen, front), bufflen, frames[n]);
      AllStep(rx, bufflen, frames);
    }
  }

  lemma {:induction false} CoverageStep(frames: seq<Frame>, bufflen: nat, room: nat)
    requires frames != []
    requires Covered(frames[..|frames| - 1], bufflen, room) !! Span(frames[|frames| - 1], bufflen, room)
    ensures var front := frames[..|frames| - 1];
            && |Covered(frames, bufflen, room)|
               == |Covered(front, bufflen, room)| + CopyLen(frames[|frames| - 1], bufflen, room)
            && |Covered(frames, bufflen, room)| <= bufflen
            && (Complete(frames, bufflen, room) <==> 0 < bufflen == |Covered(frames, bufflen, room)|)
            && (Complete(front, bufflen, room) <==> 0 < bufflen == |Covered(front, bufflen, room)|)
  {
    var n := |frames| - 1;
    CoverageBound(frames, bufflen, room);
    CoverageBound(frames[..n], bufflen, room);
    SpanSize(frames[n], bufflen, room);
    UnionSize(Covered(frames[..n], bufflen, room), Span(frames[n], bufflen, room));
  }

  lemma {:induction false} CountStep(r: Rx, bufflen: nat, f: Frame)
    requires r.written + CopyLen(f, bufflen, |r.flat|) < U32
    ensures var r' := Receive(r, bufflen, f);
            var fires := !Dropped(f, bufflen) && r.state.NeedData? && r'.written == bufflen;
            && |r'.flat| == |r.flat|
            && r'.written == r.written + CopyLen(f, bufflen, |r.flat|)
            && (r'.state == if fires then DataIn else r.state)
            && (r'.calls == if fires then r.calls + [RxSuccess] else r.calls)
            && (Dropped(f, bufflen) ==> CopyLen(f, bufflen, |r.flat|) == 0)
            && (bufflen == 0 ==> Dropped(f, bufflen))
  {
    ReceiveSize(r, bufflen, f);
  }

  lemma {:induction false} AllStep(rx: Rx, bufflen: nat, frames: seq<Frame>)
    requires frames != []
    ensures ReceiveAll(rx, bufflen, frames)
            == Receive(ReceiveAll(rx, bufflen, frames[..|frames| - 1]), bufflen, frames[|frames| - 1])
  {
  }

  lemma {:induction false} CoverageBound(frames: seq<Frame>, bufflen: nat, room: nat)
    ensures Covered(frames, bufflen, room) <= Range(0, bufflen)
    ensures |Covered(frames, bufflen, room)| <= bufflen
    ensures |Covered(frames, bufflen, room)| == bufflen <==> Covered(frames, bufflen, room) == Range(0, bufflen)
  {
    forall p | p in Covered(frames, bufflen, room) ensures p in Range(0, bufflen) {
      CoveredIff(frames, bufflen, room, p);
    }
    SubsetSize(Covered(frames, bufflen, room), Range(0, bufflen));
  }

  /** The buffer after disjoint frames: a byte covered by frame `i` is that frame's byte. */
  lemma {:induction false} ContentsAreFrames(rx: Rx, bufflen: nat, frames: seq<Frame>, i: nat, p: nat)
    requires p < |rx.flat| && Disjoint(frames, bufflen, |rx.flat|)
    requires Writes(frames, bufflen, |rx.flat|, i, p)
    ensures |ReceiveAll(rx, bufflen, frames).flat| == |rx.flat|
    ensures ReceiveAll(rx, bufflen, frames).flat[p] == frames[i].payload[p - frames[i].off]
  {
    var n := |frames| - 1;
    var front := frames[..n];
    ReceiveAllSize(rx, bufflen, front);
    ReceiveAt(ReceiveAll(rx, bufflen, front), bufflen, frames[n], p);
    if i < n {
      assert front[i] == frames[i];
      FrontDisjoint(frames, bufflen, |rx.flat|);
      ContentsAreFrames(rx, bufflen, front, i, p);
    }
  }

  lemma {:induction false} ReceiveAllSize(rx: Rx, bufflen: nat, frames: seq<Frame>)
    ensures |ReceiveAll(rx, bufflen, frames).flat| == |rx.flat|
  {
    if frames != [] {
      ReceiveAllSize(rx, bufflen, frames[..|frames| - 1]);
      ReceiveSize(ReceiveAll(rx, bufflen, frames[..|frames| - 1]), bufflen, frames[|frames| - 1]);
    }
  }

  /** Bytes no frame covers are left alone. */
  lemma {:induction false} RestIsUntouched(rx: Rx, bufflen: nat, frames: seq<Frame>, p: nat)
    requires p < |rx.flat| && p !in Covered(frames, bufflen, |rx.flat|)
    ensures |ReceiveAll(rx, bufflen, frames).flat| == |rx.flat|
    ensures ReceiveAll(rx, bufflen, frames).flat[p] == rx.flat[p]
  {
    if frames != [] {
      RestIsUntouched(rx, bufflen, frames[..|frames| - 1], p);
      ReceiveAt(ReceiveAll(rx, bufflen, frames[..|frames| - 1]), bufflen, frames[|frames| - 1], p);
    }
  }

  // --------------------------------------------------------------------------
  // Overlapping frames
  // --------------------------------------------------------------------------

  /** The counter is the number of bytes copied, modulo its width. */
  lemma {:induction false} WrittenIsCopied(rx: Rx, bufflen: nat, frames: seq<Frame>)
    requires rx.written < U32
    ensures ReceiveAll(rx, bufflen, frames).written == Add32(rx.written, Copied(frames, bufflen, |rx.flat|))
  {
    hide Add32, Receive, CopyLen;
    Add32Twice(rx.written, 0, 0);
    if frames != [] {
      var front, f := frames[..|frames| - 1], frames[|frames| - 1];
      WrittenIsCopied(rx, bufflen, front);
      ReceiveAllSize(rx, bufflen, front);
      ReceiveCounts(ReceiveAll(rx, bufflen, front), bufflen, f);
      Add32Twice(rx.written, Copied(front, bufflen, |rx.flat|), CopyLen(f, bufflen, |rx.flat|));
    }
  }

  lemma {:induction false} ReceiveCounts(rx: Rx, bufflen: nat, f: Frame)
    requires rx.written < U32
    ensures Receive(rx, bufflen, f).written == Add32(rx.written, CopyLen(f, bufflen, |rx.flat|))
  {
    Add32Twice(rx.written, 0, 0);
  }

  /** When a frame makes the receiver report success, no two frames so far wrote the same byte exactly if the whole
      buffer is in place and nothing was copied beyond it. As long as the frames add up to less than 4 GB, so that the
      counter has not wrapped, the buffer is whole exactly if the frames were disjoint. */
  lemma {:induction false} SuccessIsWholeIffDisjoint(rx: Rx, bufflen: nat, frames: seq<Frame>)
    requires Awaiting(rx, bufflen) && frames != []
    requires ReceiveAll(rx, bufflen, frames[..|frames| - 1]).calls != ReceiveAll(rx, bufflen, frames).calls
    ensures var whole := Covered(frames, bufflen, |rx.flat|) == Range(0, bufflen);
            var copied := Copied(frames, bufflen, |rx.flat|);
            && (Disjoint(frames, bufflen, |rx.flat|) <==> whole && copied == bufflen)
            && (copied < U32 ==> (whole <==> Disjoint(frames, bufflen, |rx.flat|)))
  {
    hide Covered, Span, Disjoint, CopyLen;
    WrittenIsCopied(rx, bufflen, frames);
    CoverageBound(frames, bufflen, |rx.flat|);
    CopiedVersusCovered(frames, bufflen, |rx.flat|);
  }

  /** The same byte delivered twice into a buffer of two completes the command with one byte missing. */
  lemma {:induction false} OverlapCompletesEarly(x: byte, old0: byte, old1: byte)
    ensures var f := Frame(true, 0, [x], false);
            var r := ReceiveAll(Rx([old0, old1], 0, NeedData, []), 2, [f, f]);
            r.calls == [RxSuccess] && r.flat == [x, old1]
  {
    var f := Frame(true, 0, [x], false);
    var rx := Rx([old0, old1], 0, NeedData, []);
    assert [f, f][..1] == [f] && [f][..0] == [];
    assert ReceiveAll(rx, 2, [f]) == Receive(rx, 2, f);
    var r := Receive(rx, 2, f);
    assert r.written == 1 && r.calls == [] && r.state == NeedData;
    ReceiveAt(rx, 2, f, 0);
    ReceiveAt(rx, 2, f, 1);
    ReceiveAt(r, 2, f, 0);
    ReceiveAt(r, 2, f, 1);
  }

  // --------------------------------------------------------------------------
  // Round trip
  // --------------------------------------------------------------------------

  /** The frames of a complete read, in any order of arrival. */
  ghost predicate Arrival(t: Transfer, wire: seq<Frame>, arrived: seq<Frame>) {
    && Tiled(t, wire, t.respLen)
    && multiset(arrived) == multiset(wire)
  }

  lemma {:induction false} SentSpan(t: Transfer, wire: seq<Frame>, i: nat)
    requires Tiled(t, wire, t.respLen) && i < |wire|
    ensures Span(wire[i], t.respLen, t.respLen) == Range(wire[i].off, wire[i].off + |wire[i].payload|)
    ensures wire[i].off in Span(wire[i], t.respLen, t.respLen)
  {
    TiledFrames(t, wire, t.respLen, i);
  }

  lemma {:induction false} SentApart(t: Transfer, wire: seq<Frame>, i: nat, j: nat)
    requires Tiled(t, wire, t.respLen) && i < |wire| && j < |wire| && i != j
    ensures Span(wire[i], t.respLen, t.respLen) !! Span(wire[j], t.respLen, t.respLen)
    ensures wire[i] != wire[j]
  {
    SentSpan(t, wire, i);
    SentSpan(t, wire, j);
    TiledFrames(t, wire, t.respLen, if i < j then i else j);
    assert wire[i].off != wire[j].off by {
      TiledFrames(t, wire, t.respLen, if i < j then j else i);
    }
  }

  lemma {:induction false} TwiceInMultiset<T>(s: seq<T>, i: nat, j: nat)
    requires i < j < |s| && s[i] == s[j]
    ensures multiset(s)[s[i]] >= 2
  {
    assert s == s[..j] + [s[j]] + s[j + 1..];
    assert s[i] in s[..j];
    assert multiset(s) == multiset(s[..j]) + multiset{s[j]} + multiset(s[j + 1..]);
  }

  lemma {:induction false} OnceInMultiset<T>(s: seq<T>, x: T)
    requires forall i, j :: 0 <= i < j < |s| ==> s[i] != s[j]
    ensures multiset(s)[x] <= 1
  {
    if s != [] {
      var n := |s| - 1;
      assert s == s[..n] + [s[n]];
      OnceInMultiset(s[..n], x);
      if x == s[n] {
        assert x !in s[..n];
        assert x !in multiset(s[..n]);
      }
    }
  }

  lemma {:induction false} ArrivalDisjoint(t: Transfer, wire: seq<Frame>, arrived: seq<Frame>)
    requires Arrival(t, wire, arrived)
    ensures Disjoint(arrived, t.respLen, t.respLen)
  {
    forall a, b | 0 <= a < b < |arrived|
      ensures Span(arrived[a], t.respLen, t.respLen) !! Span(arrived[b], t.respLen, t.respLen)
    {
      assert arrived[a] in multiset(arrived) && arrived[b] in multiset(arrived);
      var i :| 0 <= i < |wire| && wire[i] == arrived[a];
      var j :| 0 <= j < |wire| && wire[j] == arrived[b];
      if i == j {
        TwiceInMultiset(arrived, a, b);
        forall x, y | 0 <= x < y < |wire| ensures wire[x] != wire[y] {
          SentApart(t, wire, x, y);
        }
        OnceInMultiset(wire, wire[i]);
      } else {
        SentApart(t, wire, i, j);
      }
    }
  }

  /** Every byte of the response is in some sent frame. */
  lemma {:induction false} SentCovers(t: Transfer, wire: seq<Frame>, sent: nat, p: nat) returns (i: nat)
    requires Tiled(t, wire, sent) && p < sent
    ensures i < |wire| && wire[i].off <= p < wire[i].off + |wire[i].payload|
  {
    var n := |wire| - 1;
    if p >= wire[n].off {
      i := n;
    } else {
      i := SentCovers(t, wire[..n], wire[n].off, p);
    }
  }

  lemma {:induction false} ArrivedFrame(t: Transfer, wire: seq<Frame>, arrived: seq<Frame>, p: nat) returns (a: nat)
    requires Arrival(t, wire, arrived) && p < t.respLen
    ensures a < |arrived| && p in Span(arrived[a], t.respLen, t.respLen)
    ensures p < |t.data| && p - arrived[a].off < |arrived[a].payload|
    ensures arrived[a].payload[p - arrived[a].off] == t.data[p]
  {
    var i := SentCovers(t, wire, t.respLen, p);
    SentSpan(t, wire, i);
    TiledFrames(t, wire, t.respLen, i);
    assert wire[i] in multiset(wire);
    assert wire[i] in arrived;
    a :| 0 <= a < |arrived| && arrived[a] == wire[i];
  }

  /** Whatever the source segmentation, payload limit, failures and retries that produced the frames, and whatever
      order they arrive in: a destination of the same total length ends up with exactly the source bytes, SCST
      is told exactly once, and it is told by the last frame. */
  lemma {:induction false} RoundTrip(t: Transfer, wire: seq<Frame>, arrived: seq<Frame>, rx: Rx)
    requires Arrival(t, wire, arrived) && 0 < t.respLen
    requires Awaiting(rx, t.respLen) && |rx.flat| == t.respLen
    ensures ReceiveAll(rx, t.respLen, arrived).flat == t.data[..t.respLen]
    ensures ReceiveAll(rx, t.respLen, arrived).calls == [RxSuccess]
    ensures forall n :: 0 <= n < |arrived| ==> ReceiveAll(rx, t.respLen, arrived[..n]).calls == []
  {
    ArrivalDisjoint(t, wire, arrived);
    ArrivalCovers(t, wire, arrived);
    CompletionIsCoverage(rx, t.respLen, arrived);
    SameBytes(t, wire, arrived, rx);
    forall n | 0 <= n < |arrived| ensures ReceiveAll(rx, t.respLen, arrived[..n]).calls == [] {
      NotBeforeTheLast(t, wire, arrived, rx, n);
    }
  }

  lemma {:induction false} ArrivalCovers(t: Transfer, wire: seq<Frame>, arrived: seq<Frame>)
    requires Arrival(t, wire, arrived)
    ensures Covered(arrived, t.respLen, t.respLen) == Range(0, t.respLen)
  {
    hide Tiled, Span, Covered;
    forall p: nat | p < t.respLen ensures p in Covered(arrived, t.respLen, t.respLen) {
      var a := ArrivedFrame(t, wire, arrived, p);
      CoveredIff(arrived, t.respLen, t.respLen, p);
      assert Writes(arrived, t.respLen, t.respLen, a, p);
    }
    CoverageBound(arrived, t.respLen, t.respLen);
  }

  lemma {:induction false} SameBytes(t: Transfer, wire: seq<Frame>, arrived: seq<Frame>, rx: Rx)
    requires Arrival(t, wire, arrived) && t.respLen <= |t.data|
    requires Disjoint(arrived, t.respLen, t.respLen) && |rx.flat| == t.respLen
    ensures ReceiveAll(rx, t.respLen, arrived).flat == t.data[..t.respLen]
  {
    hide Tiled, Span, Disjoint, ReceiveAll;
    ReceiveAllSize(rx, t.respLen, arrived);
    forall p: nat | p < t.respLen ensures ReceiveAll(rx, t.respLen, arrived).flat[p] == t.data[p] {
      var a := ArrivedFrame(t, wire, arrived, p);
      ContentsAreFrames(rx, t.respLen, arrived, a, p);
    }
  }

  lemma {:induction false} PrefixDisjoint(frames: seq<Frame>, bufflen: nat, room: nat, n: nat)
    requires Disjoint(frames, bufflen, room) && n < |frames|
    ensures Disjoint(frames[..n], bufflen, room)
    ensures Span(frames[n], bufflen, room) !! Covered(frames[..n], bufflen, room)
  {
    var front := frames[..n];
    forall i, j | 0 <= i < j < n ensures Span(front[i], bufflen, room) !! Span(front[j], bufflen, room) {
      assert front[i] == frames[i] && front[j] == frames[j];
    }
    forall p | p in Covered(front, bufflen, room) ensures p !in Span(frames[n], bufflen, room) {
      CoveredIff(front, bufflen, room, p);
      var i: nat :| Writes(front, bufflen, room, i, p);
      assert front[i] == frames[i];
    }
  }

  lemma {:induction false} NotBeforeTheLast(t: Transfer, wire: seq<Frame>, arrived: seq<Frame>, rx: Rx, n: nat)
    requires Arrival(t, wire, arrived) && n < |arrived|
    requires Awaiting(rx, t.respLen) && |rx.flat| == t.respLen
    ensures ReceiveAll(rx, t.respLen, arrived[..n]).calls == []
  {
    var L := t.respLen;
    ArrivalDisjoint(t, wire, arrived);
    PrefixDisjoint(arrived, L, L, n);
    CompletionIsCoverage(rx, L, arrived[..n]);
    assert arrived[n] in multiset(arrived);
    var w :| 0 <= w < |wire| && wire[w] == arrived[n];
    SentSpan(t, wire, w);
    assert arrived[n].off in Range(0, L);
  }
}
