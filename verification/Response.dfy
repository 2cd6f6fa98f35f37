/** The response to a one-direction SCSI command: read data first, then one status frame with the residual. */
module Response {
  import opened Buffers
  import opened FcpData
  import opened Reassembly
  import opened SendLoop

  datatype Direction = NoData | Read | Write

  /** What `ft_send_response` reads from the SCST command and finds the same on every call. */
  datatype Request = Request(segs: Segments, respLen: nat, bufflen: nat, dir: Direction, sendStatus: bool)

  // --------------------------------------------------------------------------
  // Residual
  // --------------------------------------------------------------------------

  /** The residual part of an FCP_RSP: the two flags and the count. */
  datatype Status = Status(over: bool, under: bool, resid: nat)

  function ToInt32(x: int): (r: int)
    ensures -0x8000_0000 <= r < 0x8000_0000
    ensures -0x8000_0000 <= x < 0x8000_0000 ==> r == x
  {
    (x + 0x8000_0000) % U32 - 0x8000_0000
  }

  function Encode(resid: int): Status {
    if resid == 0 then Status(false, false, 0)
    else if resid < 0 then Status(true, false, -resid)
    else Status(false, true, resid)
  }

  /** What an initiator reads out of a response: bytes missing, negative for bytes in excess. */
  function Decode(s: Status): int {
    if s.over then -(s.resid as int) else if s.under then s.resid else 0
  }

  /** The residual the target computes, in its own 32-bit arithmetic. */
  function Residual(q: Request, written: nat): int {
    match q.dir
    case NoData => 0
    case Read => ToInt32(q.bufflen - q.respLen)
    case Write => ToInt32(q.bufflen - written)
  }

  predicate FitsInt32(x: int) {
    -0x8000_0000 <= x < 0x8000_0000
  }

  /** What an initiator decodes is the buffer length minus the length the target reports as moved, exactly if that
      difference fits the 32-bit integer it is computed in. */
  lemma {:induction false} ResidualDecodes(q: Request, written: nat)
    ensures var x := match q.dir
                     case NoData => 0
                     case Read => q.bufflen - q.respLen
                     case Write => q.bufflen - written;
            Decode(Encode(Residual(q, written))) == x <==> FitsInt32(x)
  {
  }

  lemma {:induction false} WrapsOnce(x: nat, y: nat)
    ensures ToInt32(x - y % U32) == ToInt32(x - y)
  {
    var q, r := y / U32, y % U32;
    assert y == U32 * q + r;
    SameRemainder(x - r + 0x8000_0000, x - y + 0x8000_0000, q);
  }

  lemma {:induction false} SameRemainder(a: int, b: int, q: int)
    requires a == b + U32 * q
    ensures a % U32 == b % U32
  {
    var c, d := b / U32, b % U32;
    assert b == U32 * c + d;
    assert a == U32 * (c + q) + d;
    assert a % U32 == d;
  }

  /** Whatever write frames arrived, overlapping or not: the residual is the buffer length minus the bytes copied
      exactly if that fits the signed 32-bit integer it is computed in; then an overrun is claimed exactly if more was
      copied than the buffer holds, and an underrun exactly if less. */
  lemma {:induction false} CopiedResidual(q: Request, rx: Rx, frames: seq<Frame>)
    requires q.dir.Write? && Awaiting(rx, q.bufflen)
    ensures var s := Encode(Residual(q, ReceiveAll(rx, q.bufflen, frames).written));
            var copied := Copied(frames, q.bufflen, |rx.flat|);
            && (Decode(s) == q.bufflen - copied <==> FitsInt32(q.bufflen - copied))
            && (FitsInt32(q.bufflen - copied) ==> (s.over <==> copied > q.bufflen) && (s.under <==> copied < q.bufflen))
  {
    var copied := Copied(frames, q.bufflen, |rx.flat|);
    WrittenIsCopied(rx, q.bufflen, frames);
    WrapsOnce(q.bufflen, copied);
    hide ReceiveAll, Copied;
  }

  /** After disjoint write frames, in any order and not necessarily all of them, the response says exactly how
      many bytes of the buffer did not arrive, and never claims an overrun. */
  lemma {:induction false} WriteResidual(q: Request, rx: Rx, frames: seq<Frame>)
    requires q.dir.Write? && q.bufflen < 0x8000_0000
    requires Awaiting(rx, q.bufflen) && Disjoint(frames, q.bufflen, |rx.flat|)
    ensures var s := Encode(Residual(q, ReceiveAll(rx, q.bufflen, frames).written));
            && Decode(s) == q.bufflen - |Covered(frames, q.bufflen, |rx.flat|)|
            && !s.over
            && (s.under <==> Covered(frames, q.bufflen, |rx.flat|) != Range(0, q.bufflen))
  {
    hide ReceiveAll, Disjoint, Covered, Copied, Encode, Residual;
    CopiedVersusCovered(frames, q.bufflen, |rx.flat|);
    CoverageBound(frames, q.bufflen, |rx.flat|);
    CopiedResidual(q, rx, frames);
  }

  // --------------------------------------------------------------------------
  // Retried responses
  // --------------------------------------------------------------------------

  /** What the initiator has seen of the command so far. */
  datatype Conversation = Conversation(sent: nat, wire: seq<Frame>, statuses: seq<Status>)

  const SILENCE := Conversation(0, [], [])

  /** One call of the responder: whether SCST has aborted the command by then, how many bytes of write data have been
      counted by then, and how the call came back. */
  datatype Call = Call(aborted: bool, written: nat, res: TgtRes)

  function TransferOf(q: Request, maxPayload: nat): Transfer {
    Transfer(Flatten(q.segs), q.respLen, maxPayload)
  }

  /** What one call does to the conversation. */
  ghost predicate Attempt(q: Request, maxPayload: nat, a: Conversation, b: Conversation, c: Call) {
    var t := TransferOf(q, maxPayload);
    if c.aborted then b == a && c.res.Success?
    else if !q.sendStatus then b == a && c.res.FatalError?
    else
      && (if q.dir.Read?
          then && Passable(q.segs, b.wire)
               && exists r :: ReadAttempt(t, a.sent, a.wire, b.sent, b.wire, r) && (r.Success? || c.res == r)
          else b.sent == a.sent && b.wire == a.wire)
      && b.statuses == a.statuses + if c.res.Success? then [Encode(Residual(q, c.written))] else []
  }

  /** SCST calls again exactly after QUEUE_FULL. */
  ghost predicate Retried(q: Request, maxPayload: nat, run: seq<Conversation>, calls: seq<Call>) {
    && |run| == |calls| + 1
    && run[0] == SILENCE
    && (forall i :: 0 <= i < |calls| ==> Attempt(q, maxPayload, run[i], run[i + 1], calls[i]))
    && (forall i :: 0 <= i < |calls| - 1 ==> calls[i].res.QueueFull?)
  }

  lemma {:induction false} RetriesKeepTiling(q: Request, maxPayload: nat, run: seq<Conversation>, calls: seq<Call>,
                                             n: nat)
    requires Retried(q, maxPayload, run, calls) && n <= |calls|
    ensures Tiled(TransferOf(q, maxPayload), run[n].wire, run[n].sent)
    ensures Passable(q.segs, run[n].wire)
    ensures n < |calls| ==> run[n].statuses == []
    ensures !q.dir.Read? ==> run[n].wire == []
  {
    if n > 0 {
      hide Tiled, Passable;
      RetriesKeepTiling(q, maxPayload, run, calls, n - 1);
      assert Attempt(q, maxPayload, run[n - 1], run[n], calls[n - 1]);
    } else {
      StartsTiled(q, maxPayload);
    }
  }

  lemma {:induction false} StartsTiled(q: Request, maxPayload: nat)
    ensures Tiled(TransferOf(q, maxPayload), [], 0) && Passable(q.segs, [])
  {
  }

  /** Exactly-once resumable send. However often the responder fails and is called again, and whenever SCST aborts the
      command: the frames that went out tile the sent prefix of the buffer; a status frame goes out at most once, from
      the last call, which succeeded and was not aborted; for a read whose buffer covers the response it goes out
      behind every byte of it; its residual decodes, for a read, to the buffer length minus the response length, and for
      a write to the buffer length minus the bytes counted. */
  lemma {:induction false} RetriedResponse(q: Request, maxPayload: nat, run: seq<Conversation>, calls: seq<Call>)
    requires Retried(q, maxPayload, run, calls)
    ensures var end := run[|calls|];
            && Tiled(TransferOf(q, maxPayload), end.wire, end.sent)
            && Payloads(end.wire) == Flatten(q.segs)[..end.sent]
            && |end.statuses| <= 1
            && (end.statuses != [] ==>
                  var last := calls[|calls| - 1];
                  && calls != [] && last.res.Success? && !last.aborted
                  && end.statuses == [Encode(Residual(q, last.written))]
                  && (q.dir.Read? && q.respLen <= |Flatten(q.segs)| ==> end.sent == q.respLen)
                  && (q.dir.Read? && FitsInt32(q.bufflen - q.respLen) ==>
                        Decode(end.statuses[0]) == q.bufflen - q.respLen)
                  && (q.dir.Write? && FitsInt32(q.bufflen - last.written) ==>
                        Decode(end.statuses[0]) == q.bufflen - last.written))
  {
    var n := |calls|;
    var t := TransferOf(q, maxPayload);
    RetriesKeepTiling(q, maxPayload, run, calls, n);
    TiledPayloads(t, run[n].wire, run[n].sent);
    if n > 0 {
      hide Tiled, Passable, Flatten, Encode, Residual, Decode;
      RetriesKeepTiling(q, maxPayload, run, calls, n - 1);
      assert Attempt(q, maxPayload, run[n - 1], run[n], calls[n - 1]);
      ResidualDecodes(q, calls[n - 1].written);
    }
  }

  /** From one scatter list to another: whatever the segmentation of the source, the payload limit, the failures,
      retries and aborts of the sending side were, once all of the response has been sent, its frames, delivered in
      any order to a destination of that length, leave exactly the source bytes there, and SCST is told once, by the
      last frame. */
  lemma {:induction false} RetriedRoundTrip(q: Request, maxPayload: nat, run: seq<Conversation>, calls: seq<Call>,
                                            arrived: seq<Frame>, rx: Rx)
    requires Retried(q, maxPayload, run, calls) && run[|calls|].sent == q.respLen > 0
    requires multiset(arrived) == multiset(run[|calls|].wire)
    requires Awaiting(rx, q.respLen) && |rx.flat| == q.respLen
    ensures q.respLen <= |Flatten(q.segs)|
    ensures ReceiveAll(rx, q.respLen, arrived).flat == Flatten(q.segs)[..q.respLen]
    ensures ReceiveAll(rx, q.respLen, arrived).calls == [RxSuccess]
    ensures forall n :: 0 <= n < |arrived| ==> ReceiveAll(rx, q.respLen, arrived[..n]).calls == []
  {
    RetriedResponse(q, maxPayload, run, calls);
    hide Flatten, ReceiveAll;
    RoundTrip(TransferOf(q, maxPayload), run[|calls|].wire, arrived, rx);
  }

  // --------------------------------------------------------------------------
  // Status in front of data
  // --------------------------------------------------------------------------

  /** A status frame is out and some of the response is not. */
  ghost predicate Premature(q: Request, c: Conversation) {
    c.statuses != [] && c.sent < q.respLen
  }

  ghost predicate IsMultiple(n: nat, m: nat) {
    exists k: nat :: Times(k, m) == n
  }

  /** None of the full frames that the buffer makes lies over more segments than one call has passes. */
  ghost predicate Clear(segs: Segments, maxPayload: nat) {
    forall j: nat :: Times(j, maxPayload) + maxPayload <= |Flatten(segs)| ==>
                       !Stuck(segs, Times(j, maxPayload), maxPayload)
  }

  /** The buffers with which the responder sends status in front of data: shorter than the response, a multiple of the
      payload limit long, and passable. */
  ghost predicate EndsOnFrame(q: Request, maxPayload: nat) {
    && |Flatten(q.segs)| < q.respLen
    && IsMultiple(|Flatten(q.segs)|, maxPayload)
    && Clear(q.segs, maxPayload)
  }

  /** With any other buffer, short or not, status never goes out in front of data, whatever fails. */
  lemma {:induction false} PrematureOnlyOnExactMultiple(q: Request, maxPayload: nat, run: seq<Conversation>,
                                                        calls: seq<Call>)
    requires Retried(q, maxPayload, run, calls) && q.dir.Read? && maxPayload > 0
    requires Premature(q, run[|calls|])
    ensures EndsOnFrame(q, maxPayload)
  {
    var n := |calls|;
    var t := TransferOf(q, maxPayload);
    RetriesKeepTiling(q, maxPayload, run, calls, n);
    if n > 0 {
      RetriesKeepTiling(q, maxPayload, run, calls, n - 1);
      assert Attempt(q, maxPayload, run[n - 1], run[n], calls[n - 1]);
      hide Tiled, Stuck, Times, Flatten;
      var wire := run[n].wire;
      TiledMultiple(t, wire, run[n].sent);
      assert Times(|wire|, maxPayload) == |t.data|;
      forall j: nat | Times(j, maxPayload) + maxPayload <= |t.data|
        ensures !Stuck(q.segs, Times(j, maxPayload), maxPayload)
      {
        if j >= |wire| {
          TimesOrder(|wire|, j, maxPayload);
        }
        assert wire[j].off == Times(j, maxPayload);
      }
    }
  }

  /** The residual of a read tells the buffer length minus the bytes really sent, except exactly if status is in front
      of data, which only a buffer that ends on a frame makes possible. */
  lemma {:induction false} ReadResidual(q: Request, maxPayload: nat, run: seq<Conversation>, calls: seq<Call>)
    requires Retried(q, maxPayload, run, calls) && q.dir.Read? && maxPayload > 0
    requires run[|calls|].statuses != [] && FitsInt32(q.bufflen - q.respLen)
    ensures var end := run[|calls|];
            && (Decode(end.statuses[0]) == q.bufflen - end.sent <==> !Premature(q, end))
            && (Decode(end.statuses[0]) != q.bufflen - end.sent ==> EndsOnFrame(q, maxPayload))
  {
    RetriedResponse(q, maxPayload, run, calls);
    hide EndsOnFrame, Decode, Retried;
    if Premature(q, run[|calls|]) {
      PrematureOnlyOnExactMultiple(q, maxPayload, run, calls);
    }
  }

  lemma {:induction false} SentNotStuck(t: Transfer, segs: Segments, wire: seq<Frame>, sent: nat, j: nat)
    requires Tiled(t, wire, sent) && Passable(segs, wire) && j < |wire|
    ensures Times(j, t.maxPayload) < t.respLen
    ensures !Stuck(segs, Times(j, t.maxPayload), Min(t.maxPayload, t.respLen - Times(j, t.maxPayload)))
  {
    hide Stuck, Times, Tiled;
    TiledAt(t, wire, sent);
  }

  /** The iteration guard stops a response for good: no run, whatever is accepted and however often it is called, gets
      past a stuck frame. */
  lemma {:induction false} StuckForGood(q: Request, maxPayload: nat, run: seq<Conversation>, calls: seq<Call>, j: nat)
    requires Retried(q, maxPayload, run, calls) && Times(j, maxPayload) < q.respLen
    requires Stuck(q.segs, Times(j, maxPayload), Min(maxPayload, q.respLen - Times(j, maxPayload)))
    ensures run[|calls|].sent <= Times(j, maxPayload)
    ensures q.dir.Read? && q.respLen <= |Flatten(q.segs)| ==> run[|calls|].statuses == []
  {
    RetriedResponse(q, maxPayload, run, calls);
    RetriesKeepTiling(q, maxPayload, run, calls, |calls|);
    hide Tiled, Stuck, Times, Retried, Flatten, Decode, Passable;
    var end := run[|calls|];
    var t := TransferOf(q, maxPayload);
    if j < |end.wire| {
      SentNotStuck(t, q.segs, end.wire, end.sent, j);
    } else {
      TiledAt(t, end.wire, end.sent);
      TimesOrder(|end.wire|, j, maxPayload);
    }
  }
}
