/** FCP data frames with relative offsets: what a correctly sent read is, and what a received write frame does. */
module FcpData {
  import opened Buffers

  /** `relOffSet` and `endSeq` are the FC_FC_REL_OFF and FC_FC_END_SEQ bits of the frame control field. */
  datatype Frame = Frame(relOffSet: bool, off: nat, payload: seq<byte>, endSeq: bool)

  const U32: nat := 0x1_0000_0000

  /** Addition on an unsigned 32-bit counter. */
  function Add32(a: nat, b: nat): (r: nat)
    ensures r < U32
  {
    (a + b) % U32
  }

  lemma {:induction false} Add32Twice(a: nat, b: nat, c: nat)
    ensures Add32(Add32(a, b), c) == Add32(a, b + c)
    ensures a < U32 ==> Add32(a, 0) == a
  {
    var x, r := a + b, (a + b) % U32;
    var q, s := (r + c) / U32, (r + c) % U32;
    Remainder(x + c, x / U32 + q, s);
  }

  lemma {:induction false} Remainder(x: nat, q: nat, r: nat)
    requires x == U32 * q + r && r < U32
    ensures x % U32 == r
  {
  }

  // --------------------------------------------------------------------------
  // Read data, target to initiator
  // --------------------------------------------------------------------------

  /** What the target returns to SCST from a transmission. */
  datatype TgtRes = Success | QueueFull | FatalError

  /** The static side of one read: the buffer's bytes, the response length, the payload limit. */
  datatype Transfer = Transfer(data: seq<byte>, respLen: nat, maxPayload: nat)

  /** `wire` is exactly what the initiator should have seen once `sent` bytes went out: the frames are
      consecutive, start at 0, end at `sent`, carry the buffer's own bytes, are as long as the payload limit
      allows, and END_SEQ is on the frame that finishes the response and on no other. */
  predicate Tiled(t: Transfer, wire: seq<Frame>, sent: nat) {
    && sent <= t.respLen
    && sent <= |t.data|
    && if wire == [] then sent == 0 else
         var f := wire[|wire| - 1];
         && f.relOffSet
         && f.off < t.respLen
         && |f.payload| == Min(t.maxPayload, t.respLen - f.off) > 0
         && f.off + |f.payload| == sent
         && f.payload == t.data[f.off..sent]
         && (f.endSeq <==> sent == t.respLen)
         && Tiled(t, wire[..|wire| - 1], f.off)
  }

  /** One call of the read sender: it only appends, keeps the tiling, and reports success exactly when the
      response is complete or the buffer ends at or before the resume point. */
  ghost predicate ReadAttempt(t: Transfer, sent: nat, wire: seq<Frame>, sent': nat, wire': seq<Frame>, res: TgtRes) {
    && wire <= wire'
    && sent <= sent'
    && Tiled(t, wire', sent')
    && (res.Success? <==> sent' == t.respLen || |t.data| <= sent)
    && (|t.data| <= sent ==> wire' == wire && sent' == sent)
  }

  function Payloads(wire: seq<Frame>): seq<byte> {
    if wire == [] then [] else Payloads(wire[..|wire| - 1]) + wire[|wire| - 1].payload
  }

  /** The payloads of a tiling, put end to end, are the sent prefix of the buffer. */
  lemma {:induction false} TiledPayloads(t: Transfer, wire: seq<Frame>, sent: nat)
    requires Tiled(t, wire, sent)
    ensures Payloads(wire) == t.data[..sent]
  {
    if wire != [] {
      var f := wire[|wire| - 1];
      TiledPayloads(t, wire[..|wire| - 1], f.off);
      assert t.data[..f.off] + t.data[f.off..sent] == t.data[..sent];
    }
  }

  /** Frame by frame: offsets are the running total, so later frames lie wholly behind earlier ones; only a
      frame that ends the response is shorter than the limit or carries END_SEQ, and it is the last one. */
  lemma {:induction false} TiledFrames(t: Transfer, wire: seq<Frame>, sent: nat, i: nat)
    requires Tiled(t, wire, sent) && i < |wire|
    ensures wire[i].relOffSet && wire[i].payload != []
    ensures wire[i].off + |wire[i].payload| <= sent
    ensures wire[i].payload == t.data[wire[i].off..wire[i].off + |wire[i].payload|]
    ensures wire[i].off == |Payloads(wire[..i])|
    ensures wire[i].endSeq <==> i == |wire| - 1 && sent == t.respLen
    ensures i < |wire| - 1 ==> |wire[i].payload| == t.maxPayload
    ensures forall j :: i < j < |wire| ==> wire[i].off + |wire[i].payload| <= wire[j].off
  {
    hide Payloads, Tiled;
    TiledLast(t, wire, sent);
    var n := |wire| - 1;
    var front := wire[..n];
    if i == n {
      TiledPayloads(t, front, wire[n].off);
    } else {
      TiledFrames(t, front, wire[n].off, i);
      assert front[..i] == wire[..i];
      forall j | i < j < |wire| ensures wire[i].off + |wire[i].payload| <= wire[j].off {
        if j < n {
          assert wire[j] == front[j];
        }
      }
      if i == n - 1 {
        TiledLast(t, front, wire[n].off);
        assert front[|front| - 1] == wire[i];
      }
    }
  }

  lemma {:induction false} TiledLast(t: Transfer, wire: seq<Frame>, sent: nat)
    requires Tiled(t, wire, sent) && wire != []
    ensures var f := wire[|wire| - 1];
            && f.relOffSet && f.off < t.respLen && f.off < sent <= |t.data|
            && |f.payload| == Min(t.maxPayload, t.respLen - f.off) > 0
            && f.off + |f.payload| == sent <= t.respLen && f.payload == t.data[f.off..sent]
            && (f.endSeq <==> sent == t.respLen)
            && Tiled(t, wire[..|wire| - 1], f.off)
  {
  }

  function Times(k: nat, m: nat): nat {
    k * m
  }

  lemma {:induction false} TimesNext(k: nat, m: nat)
    ensures Times(k + 1, m) == Times(k, m) + m
  {
  }

  lemma {:induction false} TimesOrder(i: nat, k: nat, m: nat)
    requires i <= k
    ensures Times(i, m) <= Times(k, m)
    ensures i < k ==> Times(i, m) + m <= Times(k, m)
    decreases k - i
  {
    if i < k {
      hide Times;
      TimesOrder(i + 1, k, m);
      TimesNext(i, m);
    }
  }

  /** Frame `i` starts `i` payload limits into the buffer and is as long as that allows. */
  lemma {:induction false} TiledAt(t: Transfer, wire: seq<Frame>, sent: nat)
    requires Tiled(t, wire, sent)
    ensures sent <= Times(|wire|, t.maxPayload)
    ensures forall i :: 0 <= i < |wire| ==>
              && wire[i].off == Times(i, t.maxPayload) < t.respLen
              && |wire[i].payload| == Min(t.maxPayload, t.respLen - wire[i].off)
  {
    if wire != [] {
      var n := |wire| - 1;
      TiledAt(t, wire[..n], wire[n].off);
      TiledMultiple(t, wire[..n], wire[n].off);
      TimesNext(n, t.maxPayload);
    }
  }

  /** A transfer that is not complete has stopped on a multiple of the payload limit, behind full frames only. */
  lemma {:induction false} TiledMultiple(t: Transfer, wire: seq<Frame>, sent: nat)
    requires Tiled(t, wire, sent) && sent < t.respLen
    ensures sent == Times(|wire|, t.maxPayload)
    ensures forall i :: 0 <= i < |wire| ==> wire[i].off == Times(i, t.maxPayload) && |wire[i].payload| == t.maxPayload
  {
    if wire != [] {
      var n := |wire| - 1;
      TiledMultiple(t, wire[..n], wire[n].off);
      TimesNext(n, t.maxPayload);
    }
  }

  // --------------------------------------------------------------------------
  // Write data, initiator to target
  // --------------------------------------------------------------------------

  datatype CmdState = New | NeedData | DataIn | CmdRspSent | Mgmt | MgmtRspSent | Done

  /** The status passed to `scst_rx_data`. */
  datatype RxStatus = RxSuccess | RxFatal

  /** The receiving side of a write: buffer contents, byte counter (32 bits wide), command state, and the
      calls of `scst_rx_data` made so far. */
  datatype Rx = Rx(flat: seq<byte>, written: nat, state: CmdState, calls: seq<RxStatus>)

  predicate Dropped(f: Frame, bufflen: nat) {
    !f.relOffSet || f.payload == [] || f.off >= bufflen
  }

  /** The positions from `lo` up to but not including `hi`. */
  function Range(lo: nat, hi: nat): (s: set<nat>)
    ensures forall p: nat :: p in s <==> lo <= p < hi
    ensures |s| == if lo < hi then hi - lo else 0
  {
    if lo >= hi then {} else Range(lo, hi - 1) + {hi - 1}
  }

  /** The buffer positions a frame writes. */
  function Span(f: Frame, bufflen: nat, room: nat): (s: set<nat>)
    ensures forall p :: p in s ==> f.off <= p < f.off + |f.payload| && p < bufflen && p < room
  {
    if Dropped(f, bufflen) then {} else Range(f.off, f.off + CopyLen(f, bufflen, room))
  }

  /** How many bytes of the payload are copied: it is clipped to `bufflen` and to the memory behind the command. */
  function CopyLen(f: Frame, bufflen: nat, room: nat): (n: nat)
    ensures n <= |f.payload|
  {
    if Dropped(f, bufflen) then 0 else Fits(f.off, Min(|f.payload|, bufflen - f.off), room)
  }

  /** The effect of one received frame. */
  function Receive(rx: Rx, bufflen: nat, f: Frame): Rx {
    if Dropped(f, bufflen) then rx
    else
      var n := CopyLen(f, bufflen, |rx.flat|);
      var flat := Overwrite(rx.flat, f.off, f.payload[..n]);
      var written := Add32(rx.written, n);
      if written == bufflen && rx.state.NeedData? then Rx(flat, written, DataIn, rx.calls + [RxSuccess])
      else Rx(flat, written, rx.state, rx.calls)
  }

  /** What a frame is meant to do. Without a relative offset, empty, or behind the end of the buffer it does nothing.
      Otherwise the `n` bytes of it that are within the buffer and the memory behind it go to their place, everything
      else stays, the 32-bit counter grows by `n`, and SCST is told if that completes a write that waits. */
  ghost predicate Delivered(rx: Rx, bufflen: nat, f: Frame, r: Rx) {
    if f.relOffSet && f.payload != [] && f.off < bufflen then
      var end := Min(bufflen, |rx.flat|);
      var n := if f.off < end then Min(|f.payload|, end - f.off) else 0;
      var complete := (rx.written + n) % 0x1_0000_0000 == bufflen && rx.state.NeedData?;
      && r.flat == (if n == 0 then rx.flat else rx.flat[..f.off] + f.payload[..n] + rx.flat[f.off + n..])
      && r.written == (rx.written + n) % 0x1_0000_0000
      && r.state == (if complete then DataIn else rx.state)
      && r.calls == if complete then rx.calls + [RxSuccess] else rx.calls
    else r == rx
  }

  lemma {:induction false} ReceiveDelivers(rx: Rx, bufflen: nat, f: Frame)
    ensures Delivered(rx, bufflen, f, Receive(rx, bufflen, f))
  {
    if f.relOffSet && f.payload != [] && f.off < bufflen {
      hide CopyLen, Overwrite, Add32, Receive;
      var n := CopyLen(f, bufflen, |rx.flat|);
      CopyLenIs(f, bufflen, |rx.flat|);
      ReceiveParts(rx, bufflen, f);
      OverwriteIs(rx.flat, f.off, f.payload[..n]);
      Add32Is(rx.written, n);
    }
  }

  lemma {:induction false} ReceiveParts(rx: Rx, bufflen: nat, f: Frame)
    requires !Dropped(f, bufflen)
    ensures var n, r := CopyLen(f, bufflen, |rx.flat|), Receive(rx, bufflen, f);
            && (n > 0 ==> f.off + n <= |rx.flat|)
            && r.flat == Overwrite(rx.flat, f.off, f.payload[..n])
            && r.written == Add32(rx.written, n)
            && r.state == (if r.written == bufflen && rx.state.NeedData? then DataIn else rx.state)
            && r.calls == if r.written == bufflen && rx.state.NeedData? then rx.calls + [RxSuccess] else rx.calls
  {
    hide Overwrite, Add32;
  }

  lemma {:induction false} Add32Is(a: nat, b: nat)
    ensures Add32(a, b) == (a + b) % 0x1_0000_0000
  {
  }

  lemma {:induction false} CopyLenIs(f: Frame, bufflen: nat, room: nat)
    requires f.relOffSet && f.payload != [] && f.off < bufflen
    ensures var end := Min(bufflen, room);
            CopyLen(f, bufflen, room) == if f.off < end then Min(|f.payload|, end - f.off) else 0
  {
  }

  lemma {:induction false} OverwriteIs(s: seq<byte>, at: nat, p: seq<byte>)
    requires p == [] || at + |p| <= |s|
    ensures Overwrite(s, at, p) == if p == [] then s else s[..at] + p + s[at + |p|..]
  {
  }

  /** One frame changes exactly the bytes of its span, to its own payload. */
  lemma {:induction false} ReceiveAt(rx: Rx, bufflen: nat, f: Frame, p: nat)
    requires p < |rx.flat|
    ensures |Receive(rx, bufflen, f).flat| == |rx.flat|
    ensures Receive(rx, bufflen, f).flat[p]
            == if p in Span(f, bufflen, |rx.flat|) then f.payload[p - f.off] else rx.flat[p]
  {
    OverwriteAt(rx.flat, f.off, f.payload[..CopyLen(f, bufflen, |rx.flat|)]);
  }

  lemma {:induction false} ReceiveSize(rx: Rx, bufflen: nat, f: Frame)
    ensures |Receive(rx, bufflen, f).flat| == |rx.flat|
  {
    OverwriteAt(rx.flat, f.off, f.payload[..CopyLen(f, bufflen, |rx.flat|)]);
  }

  function ReceiveAll(rx: Rx, bufflen: nat, frames: seq<Frame>): Rx {
    if frames == [] then rx
    else Receive(ReceiveAll(rx, bufflen, frames[..|frames| - 1]), bufflen, frames[|frames| - 1])
  }
}
