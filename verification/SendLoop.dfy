/** The loop that cuts read data into frames: where it is, how many passes it needs, and where it cannot get through. */
module SendLoop {
  import opened Buffers
  import opened FcpData

  const LOOP_LIMIT: nat := 10000

  // --------------------------------------------------------------------------
  // How many passes
  // --------------------------------------------------------------------------

  /** How many frames of at most `max` bytes `n` bytes take. */
  function FramesFor(n: nat, max: nat): (k: nat)
    requires max > 0
    ensures k == 0 <==> n == 0
  {
    if n == 0 then 0 else 1 + FramesFor(n - Min(n, max), max)
  }

  /** `FramesFor` rounds the quotient up. */
  lemma {:induction false} FramesForIsCeiling(n: nat, max: nat)
    requires max > 0
    ensures (FramesFor(n, max) - 1) * max < n || n == 0
    ensures n <= FramesFor(n, max) * max
  {
    if n > 0 {
      FramesForIsCeiling(n - Min(n, max), max);
    }
  }

  /** The segments that still hold bytes at or behind `off`. */
  function SegmentsFrom(segs: Segments, off: nat): nat {
    if segs == [] then 0
    else if |segs[0]| <= off then SegmentsFrom(segs[1..], off - |segs[0]|)
    else |segs|
  }

  // --------------------------------------------------------------------------
  // Frames that one call cannot fill
  // --------------------------------------------------------------------------

  /** Byte `pos` of the buffer is in segment `k`. */
  predicate Within(segs: Segments, k: nat, pos: nat) {
    k < |segs| && Start(segs, k) <= pos < Start(segs, k) + |segs[k]|
  }

  lemma {:induction false} StartOrder(segs: Segments, i: nat, j: nat)
    requires i <= j <= |segs|
    ensures Start(segs, i) <= Start(segs, j)
    decreases j
  {
    if i < j {
      StartOrder(segs, i, j - 1);
      StartNext(segs, j - 1);
    }
  }

  lemma {:induction false} WithinOnce(segs: Segments, i: nat, j: nat, pos: nat)
    requires Within(segs, i, pos) && Within(segs, j, pos)
    ensures i == j
  {
    hide Start;
    StartNext(segs, i);
    StartNext(segs, j);
    if i < j {
      StartOrder(segs, i + 1, j);
    } else if j < i {
      StartOrder(segs, j + 1, i);
    }
  }

  /** The passes of one call, started in segment `k`, end in front of the end of the frame. */
  predicate Exhausts(segs: Segments, k: nat, pos: nat, len: nat) {
    Within(segs, k, pos) && k + LOOP_LIMIT <= |segs| && Start(segs, k + LOOP_LIMIT) < pos + len
  }

  /** The frame of `len` bytes from `pos` on lies over more segments than one call has passes. */
  ghost predicate Stuck(segs: Segments, pos: nat, len: nat) {
    exists k: nat :: Exhausts(segs, k, pos, len)
  }

  lemma {:induction false} StartGrows(segs: Segments, i: nat, j: nat)
    requires NonEmpty(segs) && i <= j <= |segs|
    ensures Start(segs, i) + (j - i) <= Start(segs, j)
    decreases j
  {
    if i < j {
      StartGrows(segs, i, j - 1);
      StartNext(segs, j - 1);
    }
  }

  /** A frame of up to 10000 bytes is never stuck: every segment holds at least one. */
  lemma {:induction false} ShortNeverStuck(segs: Segments, pos: nat, len: nat)
    requires NonEmpty(segs) && len <= 10000
    ensures !Stuck(segs, pos, len)
  {
    forall k: nat ensures !Exhausts(segs, k, pos, len) {
      if Within(segs, k, pos) && k + LOOP_LIMIT <= |segs| {
        StartNext(segs, k);
        StartGrows(segs, k + 1, k + LOOP_LIMIT);
      }
    }
  }

  predicate BytesEach(segs: Segments, size: nat) {
    forall i :: 0 <= i < |segs| ==> |segs[i]| == size
  }

  lemma {:induction false} StartOfEqual(segs: Segments, size: nat, k: nat)
    requires BytesEach(segs, size) && k <= |segs|
    ensures Start(segs, k) == Times(k, size)
  {
    if k > 0 {
      StartOfEqual(segs, size, k - 1);
      StartNext(segs, k - 1);
      TimesNext(k - 1, size);
    }
  }

  /** A frame that starts with segment `k` of equal segments is stuck exactly if it is longer than 10000 of them and the
      buffer has as many from there on. */
  lemma {:induction false} EqualSegmentsStuck(segs: Segments, size: nat, k: nat, len: nat)
    requires BytesEach(segs, size) && size > 0 && k < |segs|
    ensures Stuck(segs, Start(segs, k), len) <==> k + 10000 <= |segs| && Times(10000, size) < len
  {
    hide Start, Times;
    assert Within(segs, k, Start(segs, k));
    StartOfEqual(segs, size, k);
    if k + LOOP_LIMIT <= |segs| {
      StartOfEqual(segs, size, k + LOOP_LIMIT);
      TimesSum(k, LOOP_LIMIT, size);
      assert Exhausts(segs, k, Start(segs, k), len) <==> Times(LOOP_LIMIT, size) < len;
    }
    forall j: nat | Within(segs, j, Start(segs, k)) ensures j == k {
      WithinOnce(segs, j, k, Start(segs, k));
    }
  }

  lemma {:induction false} TimesSum(i: nat, j: nat, m: nat)
    ensures Times(i + j, m) == Times(i, m) + Times(j, m)
  {
  }

  /** 10001 segments of one byte and a payload limit of 10001: the very first frame is stuck. */
  lemma {:induction false} TinySegmentsStuck()
    ensures Stuck(seq(10001, _ => [0]), 0, 10001)
  {
    var segs: Segments := seq(10001, _ => [0]);
    StartMonotone(segs, 0);
    EqualSegmentsStuck(segs, 1, 0, 10001);
  }

  /** Every frame could be filled in one call. */
  ghost predicate Passable(segs: Segments, wire: seq<Frame>) {
    forall i :: 0 <= i < |wire| ==> !Stuck(segs, wire[i].off, |wire[i].payload|)
  }

  lemma {:induction false} PassableAppend(segs: Segments, wire: seq<Frame>, f: Frame)
    requires Passable(segs, wire) && !Stuck(segs, f.off, |f.payload|)
    ensures Passable(segs, wire + [f])
  {
  }

  // --------------------------------------------------------------------------
  // The loop's place
  // --------------------------------------------------------------------------

  /** Segment `k` is mapped with `memLen` bytes left from `memOff` on; `at` bytes of the buffer are behind; the open
      frame starts at `fhOff`, has `payload` and room for `frameLen` more (none: no frame is open). */
  datatype Cursor =
    Cursor(k: nat, memOff: nat, memLen: nat, at: nat, frameLen: nat, fhOff: nat, payload: seq<byte>)

  predicate Positioned(segs: Segments, c: Cursor) {
    c.k < |segs| && c.memOff + c.memLen == |segs[c.k]| && Start(segs, c.k) + c.memOff == c.at <= |Flatten(segs)|
  }

  /** `p` is the part of `data` from `lo` up to `hi`. */
  predicate Piece(data: seq<byte>, lo: nat, hi: nat, p: seq<byte>) {
    lo <= hi <= |data| && p == data[lo..hi]
  }

  /** What has been copied since the last frame that went out is the payload of the open frame. */
  predicate Filling(t: Transfer, sent: nat, c: Cursor) {
    && Piece(t.data, sent, c.at, c.payload)
    && c.at + c.frameLen <= t.respLen
    && (c.frameLen == 0 ==> sent == c.at)
    && (c.frameLen > 0 ==> c.fhOff == sent && |c.payload| + c.frameLen == Min(t.maxPayload, t.respLen - sent))
  }

  lemma {:induction false} ExtendPiece(segs: Segments, c: Cursor, from: nat, tlen: nat)
    requires Positioned(segs, c) && tlen <= c.memLen && Piece(Flatten(segs), from, c.at, c.payload)
    ensures c.at + tlen <= |Flatten(segs)|
    ensures Piece(Flatten(segs), from, c.at + tlen, c.payload + segs[c.k][c.memOff..c.memOff + tlen])
  {
    SegmentPiece(segs, c.k, c.memOff, c.memOff + tlen);
    assert Flatten(segs)[from..c.at] + Flatten(segs)[c.at..c.at + tlen] == Flatten(segs)[from..c.at + tlen];
  }

  /** One copy: as much as both the segment and the frame have. */
  function Copy(segs: Segments, c: Cursor): Cursor
    requires c.k < |segs| && c.memOff + c.memLen == |segs[c.k]|
  {
    var tlen := Min(c.memLen, c.frameLen);
    Cursor(c.k, c.memOff + tlen, c.memLen - tlen, c.at + tlen, c.frameLen - tlen, c.fhOff,
           c.payload + segs[c.k][c.memOff..c.memOff + tlen])
  }

  function Open(c: Cursor, t: Transfer): Cursor
    requires c.at <= t.respLen
  {
    if c.frameLen == 0 then c.(frameLen := Min(t.maxPayload, t.respLen - c.at), fhOff := c.at) else c
  }

  /** A copy in an open frame leaves the payload right, complete exactly if no room is left. */
  lemma {:induction false} CopyFills(t: Transfer, segs: Segments, sent: nat, c: Cursor)
    requires t.data == Flatten(segs) && Positioned(segs, c) && Filling(t, sent, c) && c.frameLen > 0
    ensures var d := Copy(segs, c);
            && Positioned(segs, d) && Piece(t.data, sent, d.at, d.payload) && d.at + d.frameLen <= t.respLen
            && c.fhOff == sent && |d.payload| + d.frameLen == Min(t.maxPayload, t.respLen - sent)
            && (d.frameLen > 0 ==> Filling(t, sent, d) && d.memLen == 0)
  {
    hide Flatten, Start;
    ExtendPiece(segs, c, sent, Min(c.memLen, c.frameLen));
  }

  // --------------------------------------------------------------------------
  // The pass limit
  // --------------------------------------------------------------------------

  /** Passes the loop still needs at most: a segment or a frame is used up by each. */
  function Work(segsLeft: nat, remaining: nat, frameLen: nat, max: nat): nat
    requires max > 0 && frameLen <= remaining
  {
    segsLeft + (if frameLen > 0 then 1 else 0) + FramesFor(remaining - frameLen, max)
  }

  function SegmentsLeft(segs: Segments, c: Cursor): nat
    requires c.k < |segs|
  {
    |segs| - c.k - if c.memLen == 0 then 1 else 0
  }

  /** The passes used so far and those still needed fit the estimate made at the start. */
  predicate Budgeted(t: Transfer, segs: Segments, c: Cursor, loopLimit: nat, budget: nat) {
    && t.maxPayload > 0 && c.k < |segs| && c.at + c.frameLen <= t.respLen
    && loopLimit + budget >= LOOP_LIMIT + Work(SegmentsLeft(segs, c), t.respLen - c.at, c.frameLen, t.maxPayload)
  }

  lemma {:induction false} BudgetStart(t: Transfer, segs: Segments, c: Cursor)
    requires t.maxPayload > 0 && c.k < |segs| && c.memLen > 0 && c.frameLen == 0 && c.at <= t.respLen
    ensures Budgeted(t, segs, c, LOOP_LIMIT, |segs| - c.k + FramesFor(t.respLen - c.at, t.maxPayload))
  {
  }

  lemma {:induction false} BudgetSpent(t: Transfer, segs: Segments, c: Cursor, budget: nat)
    requires Budgeted(t, segs, c, 0, budget) && c.at < t.respLen
    ensures budget > LOOP_LIMIT
  {
  }

  /** Opening a frame costs nothing. */
  lemma {:induction false} BudgetOpen(t: Transfer, segs: Segments, c: Cursor, loopLimit: nat, budget: nat)
    requires Budgeted(t, segs, c, loopLimit, budget) && c.at < t.respLen
    ensures Budgeted(t, segs, Open(c, t), loopLimit, budget)
  {
  }

  /** Every pass uses up a segment or a frame. */
  lemma {:induction false} BudgetStep(t: Transfer, segs: Segments, c: Cursor, loopLimit: nat, budget: nat)
    requires Budgeted(t, segs, c, loopLimit, budget) && loopLimit > 0 && c.frameLen > 0
    requires c.memLen > 0 && c.memOff + c.memLen == |segs[c.k]|
    ensures Budgeted(t, segs, Copy(segs, c), loopLimit - 1, budget)
  {
  }

  /** When the frame was opened: in which segment, with how many passes left. */
  datatype Pace = Pace(k: nat, left: nat)

  /** Since an unfinished frame was opened every pass has used up a segment. */
  predicate Paced(segs: Segments, p: Pace, c: Cursor, loopLimit: nat) {
    c.frameLen > 0 ==>
      && c.memLen == 0 && Within(segs, p.k, c.fhOff) && p.k <= c.k < |segs|
      && loopLimit < p.left <= LOOP_LIMIT && p.left - loopLimit == c.k - p.k + 1
  }

  /** Out of passes with the frame of `len` bytes still open since the first one. */
  lemma {:induction false} OutOfPasses(segs: Segments, p: Pace, c: Cursor, len: nat)
    requires Positioned(segs, c) && Paced(segs, p, c, 0) && c.frameLen > 0 && p.left == LOOP_LIMIT
    requires c.at < c.fhOff + len
    ensures Stuck(segs, c.fhOff, len)
  {
    StartNext(segs, c.k);
    assert Exhausts(segs, p.k, c.fhOff, len);
  }

  /** A frame that was filled in one call is not stuck. */
  lemma {:induction false} Filled(segs: Segments, p: Pace, c: Cursor, len: nat)
    requires Positioned(segs, c) && Within(segs, p.k, c.fhOff) && p.k <= c.k < p.k + LOOP_LIMIT && c.at == c.fhOff + len
    ensures !Stuck(segs, c.fhOff, len)
  {
    hide Start, Flatten;
    forall k: nat ensures !Exhausts(segs, k, c.fhOff, len) {
      if Within(segs, k, c.fhOff) && k + LOOP_LIMIT <= |segs| {
        WithinOnce(segs, k, p.k, c.fhOff);
        StartNext(segs, c.k);
        StartOrder(segs, c.k + 1, k + LOOP_LIMIT);
      }
    }
  }

  // --------------------------------------------------------------------------
  // One pass
  // --------------------------------------------------------------------------

  /** Between two passes. */
  predicate Going(t: Transfer, segs: Segments, sent: nat, c: Cursor, p: Pace, loopLimit: nat, budget: nat) {
    && t.data == Flatten(segs) && Positioned(segs, c) && Filling(t, sent, c)
    && Budgeted(t, segs, c, loopLimit, budget) && Paced(segs, p, c, loopLimit)
  }

  /** Before the first frame of a call is out, the pace is that of the call itself. */
  predicate FirstFrame(p: Pace, c: Cursor, k0: nat, loopLimit: nat) {
    if c.frameLen == 0 then loopLimit == LOOP_LIMIT && c.k == k0 && c.memLen > 0 else p == Pace(k0, LOOP_LIMIT)
  }

  lemma {:induction false} Starts(t: Transfer, segs: Segments, c: Cursor)
    requires t.data == Flatten(segs) && t.maxPayload > 0 && c.k < |segs| && c.memOff < |segs[c.k]|
    requires c == Cursor(c.k, c.memOff, |segs[c.k]| - c.memOff, c.at, 0, 0, [])
    requires Start(segs, c.k) + c.memOff == c.at < |t.data| && c.at < t.respLen
    ensures var budget := |segs| - c.k + FramesFor(t.respLen - c.at, t.maxPayload);
            Going(t, segs, c.at, c, Pace(c.k, LOOP_LIMIT), LOOP_LIMIT, budget)
    ensures FirstFrame(Pace(c.k, LOOP_LIMIT), c, c.k, LOOP_LIMIT)
  {
    BudgetStart(t, segs, c);
  }

  lemma {:induction false} GoingFacts(t: Transfer, segs: Segments, sent: nat, c: Cursor, p: Pace, loopLimit: nat,
                                      budget: nat)
    requires Going(t, segs, sent, c, p, loopLimit, budget)
    ensures Positioned(segs, c)
    ensures sent <= c.at <= t.respLen && sent + |c.payload| == c.at <= |t.data|
    ensures c.frameLen <= t.respLen - c.at
    ensures c.frameLen == 0 ==> sent == c.at && c.payload == []
    ensures c.frameLen > 0 ==> c.fhOff == sent && c.at < sent + Min(t.maxPayload, t.respLen - sent)
  {
  }

  /** Out of passes: there were more segments and frames than passes, and if not even the first frame is out, it is
      stuck. */
  lemma {:induction false} LimitHit(t: Transfer, segs: Segments, sent: nat, c: Cursor, p: Pace, budget: nat)
    requires Going(t, segs, sent, c, p, 0, budget) && c.at < t.respLen
    ensures budget > LOOP_LIMIT
    ensures forall k0: nat :: FirstFrame(p, c, k0, 0) ==> Stuck(segs, sent, Min(t.maxPayload, t.respLen - sent))
  {
    hide FramesFor, Flatten, Start, Stuck;
    BudgetSpent(t, segs, c, budget);
    if c.frameLen > 0 && p.left == LOOP_LIMIT {
      OutOfPasses(segs, p, c, Min(t.maxPayload, t.respLen - sent));
    }
  }

  /** In the middle of a pass: a segment is mapped and a frame is open. */
  predicate Ready(t: Transfer, segs: Segments, sent: nat, c: Cursor, p: Pace, loopLimit: nat, budget: nat) {
    && t.data == Flatten(segs) && Positioned(segs, c) && Filling(t, sent, c) && c.memLen > 0 && c.frameLen > 0
    && Budgeted(t, segs, c, loopLimit + 1, budget)
    && Within(segs, p.k, c.fhOff) && p.k <= c.k && loopLimit < p.left <= LOOP_LIMIT
    && p.left - loopLimit == c.k - p.k + 1
  }

  /** Mapping a segment and opening a frame where there is none. */
  lemma {:induction false} Opened(t: Transfer, segs: Segments, sent: nat, b: Cursor, m: Cursor, c: Cursor, p: Pace,
                                  loopLimit: nat, budget: nat)
    returns (p': Pace)
    requires Going(t, segs, sent, b, p, loopLimit + 1, budget) && b.at < t.respLen && loopLimit < LOOP_LIMIT
    requires Positioned(segs, m) && m.memLen > 0 && m.k == b.k + if b.memLen == 0 then 1 else 0
    requires m == b.(k := m.k, memOff := m.memOff, memLen := m.memLen) && c == Open(m, t)
    ensures Ready(t, segs, sent, c, p', loopLimit, budget)
    ensures p' == if b.frameLen == 0 then Pace(c.k, loopLimit + 1) else p
  {
    hide FramesFor, Flatten, Start;
    assert Budgeted(t, segs, m, loopLimit + 1, budget);
    BudgetOpen(t, segs, m, loopLimit + 1, budget);
    p' := if b.frameLen == 0 then Pace(c.k, loopLimit + 1) else p;
  }

  lemma {:induction false} ReadyFacts(t: Transfer, segs: Segments, sent: nat, c: Cursor, p: Pace, loopLimit: nat,
                                      budget: nat)
    requires Ready(t, segs, sent, c, p, loopLimit, budget)
    ensures c.k < |segs| && c.memOff + c.memLen == |segs[c.k]| && c.memLen > 0
    ensures c.at < t.respLen && 0 < c.frameLen <= t.respLen - c.at
  {
  }

  /** The copy of a pass: either the frame stays open, or it is complete and one call was enough for it. */
  lemma {:induction false} StepDone(t: Transfer, segs: Segments, sent: nat, c: Cursor, p: Pace, loopLimit: nat,
                                    budget: nat)
    requires Ready(t, segs, sent, c, p, loopLimit, budget)
    ensures var d := Copy(segs, c);
            && d.at > c.at
            && (d.frameLen > 0 ==> Going(t, segs, sent, d, p, loopLimit, budget))
            && (d.frameLen == 0 ==>
                  && ReadyToSend(t, segs, sent, d)
                  && Going(t, segs, d.at, d.(payload := []), p, loopLimit, budget))
  {
    hide FramesFor, Flatten, Start, Stuck, Work;
    CopyFills(t, segs, sent, c);
    BudgetStep(t, segs, c, loopLimit + 1, budget);
    var d := Copy(segs, c);
    if d.frameLen == 0 {
      Filled(segs, p, d, |d.payload|);
    }
  }

  /** A frame that is ready to be sent. */
  ghost predicate ReadyToSend(t: Transfer, segs: Segments, sent: nat, d: Cursor) {
    && d.fhOff == sent < t.respLen && d.at == sent + |d.payload| <= t.respLen
    && |d.payload| == Min(t.maxPayload, t.respLen - sent) > 0
    && Piece(t.data, sent, d.at, d.payload)
    && !Stuck(segs, sent, |d.payload|)
  }
}
