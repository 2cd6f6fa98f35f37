/** The per-command object of the FCoE target and the operations that change it in place. */
module FtCmd {
  import opened Buffers
  import opened FcpData
  import opened Memory
  import opened Reassembly
  import opened SendLoop
  import opened CmdProtocol
  import opened Response

  /** What libfc does with the n-th frame of one call: whether `fc_frame_alloc` returns a frame, and how
      `seq_send` comes back. */
  datatype Link = Link(allocOk: nat -> bool, send: nat -> SendOutcome)

  /** How a pass of the send loop comes out. */
  datatype PassResult = Goes | Ends | Refused(res: TgtRes)

  /** Nothing fails. */
  ghost predicate Accepting(link: Link) {
    forall i :: link.allocOk(i) && link.send(i) == Accepted
  }

  /** Some send fails for another reason than memory. */
  ghost predicate Fails(link: Link) {
    exists i :: link.send(i) == Failed
  }

  /** Why a call that has sent `m` frames stops there: a fatal result is frame `m` failing; and if the next frame could
      be made, it was not accepted, and the result says how. */
  ghost predicate StoppedBy(link: Link, m: nat, res: TgtRes, ended: bool) {
    && (res.FatalError? ==> link.send(m) == Failed)
    && (!ended && link.allocOk(m) ==>
          link.send(m) != Accepted && res == if link.send(m) == Failed then FatalError else QueueFull)
  }

  lemma {:induction false} AcceptingOrFails(link: Link, n: nat)
    ensures Accepting(link) ==> link.allocOk(n) && link.send(n) == Accepted && !Fails(link)
    ensures link.send(n) == Failed ==> Fails(link)
  {
  }

  /** How a call comes back that gets as far as the status frame. */
  function StatusResult(allocOk: bool, sent: SendOutcome): TgtRes {
    if !allocOk then QueueFull
    else
      match sent
      case Accepted => Success
      case NoMemory => QueueFull
      case Failed => FatalError
  }

  function CallsIn(marks: seq<Mark>): seq<RxStatus> {
    if marks == [] then []
    else CallsIn(marks[..|marks| - 1]) + if marks[|marks| - 1].Called? then [marks[|marks| - 1].status] else []
  }

  /** The locked section `sec` of the command state machine leads from the first state and call log to the second. */
  ghost predicate Took(sec: Section, s: CmdState, calls: seq<RxStatus>, s': CmdState, calls': seq<RxStatus>) {
    var m := Step(Machine(s, [], false), sec);
    s' == m.state && calls' == calls + CallsIn(m.marks)
  }

  /** The end of the write receiver is the data section of the state machine. */
  lemma {:induction false} ReceiveTakesDataSection(rx: Rx, bufflen: nat, f: Frame)
    requires !Dropped(f, bufflen)
    ensures var r := Receive(rx, bufflen, f);
            Took(DataFrame(r.written == bufflen), rx.state, rx.calls, r.state, r.calls)
  {
    assert CallsIn([Called(RxSuccess)]) == [RxSuccess];
  }

  lemma {:induction false} ReceiveDropped(rx: Rx, bufflen: nat, f: Frame)
    requires Dropped(f, bufflen)
    ensures Receive(rx, bufflen, f) == rx
  {
  }

  lemma {:induction false} ReceivePlaced(rx: Rx, bufflen: nat, f: Frame, len: nat, r: Rx)
    requires !Dropped(f, bufflen) && len == Min(|f.payload|, bufflen - f.off)
    requires r.written == Add32(rx.written, Fits(f.off, len, |rx.flat|))
    requires r.flat == Overwrite(rx.flat, f.off, f.payload[..len][..Fits(f.off, len, |rx.flat|)])
    requires var fires := r.written == bufflen && rx.state.NeedData?;
             && r.state == (if fires then DataIn else rx.state)
             && r.calls == if fires then rx.calls + [RxSuccess] else rx.calls
    ensures r == Receive(rx, bufflen, f)
  {
    hide Overwrite, Add32;
    var n := CopyLen(f, bufflen, |rx.flat|);
    assert f.payload[..len][..n] == f.payload[..n];
  }

  lemma {:induction false} NothingYet(flat: seq<byte>, off: nat, payload: seq<byte>)
    ensures Overwrite(flat, off, payload[..0]) == flat
  {
  }

  lemma {:induction false} TiledAppend(t: Transfer, wire: seq<Frame>, sent: nat, payload: seq<byte>)
    requires Tiled(t, wire, sent) && sent < t.respLen && t.maxPayload > 0
    requires |payload| == Min(t.maxPayload, t.respLen - sent) && sent + |payload| <= |t.data|
    requires payload == t.data[sent..sent + |payload|]
    ensures Tiled(t, wire + [Frame(true, sent, payload, sent + |payload| == t.respLen)], sent + |payload|)
  {
    var f := Frame(true, sent, payload, sent + |payload| == t.respLen);
    assert (wire + [f])[..|wire|] == wire;
  }

  class FtCmd {
    const maxLsoPayload: nat
    var state: CmdState
    var readDataLen: nat
    var writeDataLen: nat
    var wire: seq<Frame>        // read data frames libfc accepted
    var rxCalls: seq<RxStatus>  // calls of scst_rx_data
    var statuses: seq<Status>   // response frames libfc accepted
    var finished: nat           // calls of scst_tgt_cmd_done
    var warned: bool            // a WARN_ON on the command state fired

    constructor (maxLsoPayload: nat)
      ensures this.maxLsoPayload == maxLsoPayload
      ensures state.New? && readDataLen == 0 && writeDataLen == 0 && wire == [] && rxCalls == []
      ensures statuses == [] && finished == 0 && !warned
    {
      this.maxLsoPayload := maxLsoPayload;
      state := New;
      readDataLen := 0;
      writeDataLen := 0;
      wire, rxCalls, statuses := [], [], [];
      finished, warned := 0, false;
    }

    ghost function Job(segs: Segments, respLen: nat): Transfer {
      Transfer(Flatten(segs), respLen, maxLsoPayload)
    }

    /** One call has passes for all that is left. */
    ghost predicate Enough(segs: Segments, respLen: nat)
      requires maxLsoPayload > 0 && readDataLen <= respLen
      reads this`readDataLen
    {
      SegmentsFrom(segs, readDataLen) + FramesFor(respLen - readDataLen, maxLsoPayload) <= LOOP_LIMIT
    }

    /** All has been sent, or the buffer does not hold the next frame. */
    ghost predicate Ended(segs: Segments, respLen: nat)
      reads this`readDataLen
    {
      readDataLen >= respLen || |Flatten(segs)| < readDataLen + Min(maxLsoPayload, respLen - readDataLen)
    }

    /** Steps over the segments that were sent by earlier calls; `k == |segs|` means the list ran out. */
    static method SkipSent(segs: Segments, off: nat) returns (k: nat, into: nat)
      requires NonEmpty(segs) && segs != []
      ensures k <= |segs|
      ensures k == |segs| <==> |Flatten(segs)| <= off
      ensures k < |segs| ==> into < |segs[k]| && Start(segs, k) + into == off
      ensures k < |segs| ==> SegmentsFrom(segs, off) == |segs| - k
    {
      k, into := 0, off;
      assert segs[0..] == segs;
      while k < |segs| && |segs[k]| <= into
        invariant k <= |segs|
        invariant Start(segs, k) + into == off
        invariant SegmentsFrom(segs, off) == SegmentsFrom(segs[k..], into)
      {
        StartNext(segs, k);
        assert segs[k..][1..] == segs[k + 1..];
        into := into - |segs[k]|;
        k := k + 1;
      }
      StartMonotone(segs, k);
      if k < |segs| {
        SegmentSlice(segs, k);
      }
    }

    /** Hands one frame to libfc; only an accepted frame counts as sent. */
    method Transmit(ghost t: Transfer, ghost segs: Segments, c: Cursor, last: bool, outcome: SendOutcome)
      requires Tiled(t, wire, readDataLen) && Passable(segs, wire)
      requires c.fhOff == readDataLen < t.respLen && t.maxPayload > 0
      requires |c.payload| == Min(t.maxPayload, t.respLen - c.fhOff)
      requires Piece(t.data, c.fhOff, c.fhOff + |c.payload|, c.payload) && !Stuck(segs, c.fhOff, |c.payload|)
      requires last <==> c.fhOff + |c.payload| == t.respLen
      modifies this`readDataLen, this`wire
      ensures Tiled(t, wire, readDataLen) && Passable(segs, wire) && old(wire) <= wire
      ensures outcome.Accepted? ==>
                wire == old(wire) + [Frame(true, c.fhOff, c.payload, last)] && readDataLen == c.fhOff + |c.payload|
      ensures !outcome.Accepted? ==> unchanged(this)
    {
      hide Tiled, Passable, Stuck;
      if outcome.Accepted? {
        TiledAppend(t, wire, readDataLen, c.payload);
        PassableAppend(segs, wire, Frame(true, c.fhOff, c.payload, last));
        wire := wire + [Frame(true, c.fhOff, c.payload, last)];
        readDataLen := c.fhOff + |c.payload|;
      }
    }

    /** Maps the next segment if the current one is used up; fails when there is none. */
    static method CurrentSegment(segs: Segments, c: Cursor) returns (ok: bool, d: Cursor)
      requires NonEmpty(segs) && Positioned(segs, c)
      ensures ok ==> Positioned(segs, d) && d.memLen > 0
      ensures ok ==> d == c.(k := d.k, memOff := d.memOff, memLen := d.memLen)
      ensures ok ==> d.k == c.k + if c.memLen == 0 then 1 else 0
      ensures !ok ==> c.memLen == 0 && c.at == |Flatten(segs)|
    {
      if c.memLen > 0 {
        return true, c;
      }
      StartNext(segs, c.k);
      StartMonotone(segs, c.k + 1);
      if c.k + 1 == |segs| {
        return false, c;
      }
      return true, c.(k := c.k + 1, memOff := 0, memLen := |segs[c.k + 1]|);
    }

    /** Copies from the mapped segment into the open frame. */
    static method CopyStep(segs: Segments, c: Cursor, ghost remaining: nat) returns (d: Cursor)
      requires c.k < |segs| && c.memOff + c.memLen == |segs[c.k]| && c.memLen > 0 && 0 < c.frameLen <= remaining
      ensures d == Copy(segs, c) && d.k == c.k
    {
      var tlen := Min(c.memLen, c.frameLen);
      assert tlen != 0 && tlen <= remaining && tlen <= c.memLen && tlen <= c.frameLen; // the four BUG_ONs
      d := c.(payload := c.payload + segs[c.k][c.memOff..c.memOff + tlen]);
      d := d.(frameLen := d.frameLen - tlen);
      d := d.(memOff := d.memOff + tlen, memLen := d.memLen - tlen, at := d.at + tlen);
    }

    /** One pass of the send loop: maps a segment and opens a frame if need be, copies, and sends a full frame. It
        leaves the loop if there is no segment or no frame to be had, and gives up on a frame that is not accepted. */
    method Pass(segs: Segments, respLen: nat, link: Link, c: Cursor, n: nat,
                ghost p: Pace, ghost loopLimit: nat, ghost budget: nat)
      returns (step: PassResult, d: Cursor, ghost p': Pace)
      requires NonEmpty(segs) && maxLsoPayload > 0 && c.at < respLen && loopLimit < LOOP_LIMIT
      requires Tiled(Job(segs, respLen), wire, readDataLen) && Passable(segs, wire)
      requires Going(Job(segs, respLen), segs, readDataLen, c, p, loopLimit + 1, budget)
      modifies this`readDataLen, this`wire
      ensures Tiled(Job(segs, respLen), wire, readDataLen) && Passable(segs, wire) && old(wire) <= wire
      ensures step.Goes? ==> Going(Job(segs, respLen), segs, readDataLen, d, p', loopLimit, budget) && d.at > c.at
      ensures step.Goes? && d.frameLen == 0 ==> readDataLen > old(readDataLen)
      ensures step.Goes? && d.frameLen > 0 ==>
                && readDataLen == old(readDataLen)
                && p' == (if c.frameLen == 0 then Pace(d.k, loopLimit + 1) else p)
                && (c.frameLen == 0 ==> d.k == c.k + if c.memLen == 0 then 1 else 0)
      ensures !step.Goes? ==> unchanged(this)
      ensures step.Goes? ==> |wire| == |old(wire)| + if d.frameLen == 0 then 1 else 0
      ensures step.Ends? && link.allocOk(n) ==> c.at == |Flatten(segs)|
      ensures step.Refused? ==>
                && link.send(n) != Accepted
                && step.res == if link.send(n) == Failed then FatalError else QueueFull
    {
      hide NonEmpty, Tiled, Passable, Flatten, Start, Stuck, Positioned, Going, Ready, Copy;
      ghost var t := Job(segs, respLen);
      GoingFacts(t, segs, readDataLen, c, p, loopLimit + 1, budget);
      p' := p;
      var mapped, open := CurrentSegment(segs, c);
      if !mapped {
        return Ends, c, p;
      }
      ghost var m := open;
      if open.frameLen == 0 {
        if !link.allocOk(n) {
          return Ends, c, p;
        }
        open := open.(frameLen := Min(maxLsoPayload, respLen - open.at), fhOff := open.at);
      }
      p' := Opened(t, segs, readDataLen, c, m, open, p, loopLimit, budget);
      ReadyFacts(t, segs, readDataLen, open, p', loopLimit, budget);
      d := CopyStep(segs, open, respLen - open.at);
      StepDone(t, segs, readDataLen, open, p', loopLimit, budget);
      if d.frameLen > 0 {
        return Goes, d, p';
      }
      var outcome := link.send(n);
      Transmit(t, segs, d, d.at == respLen, outcome);
      if outcome != Accepted {
        return Refused(if outcome == NoMemory then QueueFull else FatalError), d, p';
      }
      return Goes, d.(payload := []), p';
    }

    /** The send loop, entered with segment `k0` mapped and `off0` bytes of it already sent. */
    method SendFrames(segs: Segments, respLen: nat, link: Link, k0: nat, off0: nat)
      returns (res: TgtRes, hitLimit: bool)
      requires NonEmpty(segs) && maxLsoPayload > 0
      requires Tiled(Job(segs, respLen), wire, readDataLen) && Passable(segs, wire) && readDataLen < respLen
      requires k0 < |segs| && off0 < |segs[k0]| && Start(segs, k0) + off0 == readDataLen < |Flatten(segs)|
      modifies this`readDataLen, this`wire
      ensures old(wire) <= wire && old(readDataLen) <= readDataLen
      ensures Tiled(Job(segs, respLen), wire, readDataLen) && Passable(segs, wire)
      ensures res.Success? <==> readDataLen == respLen
      ensures hitLimit ==> res.QueueFull?
      ensures !hitLimit ==> StoppedBy(link, |wire| - |old(wire)|, res, Ended(segs, respLen))
      ensures res.FatalError? ==> Fails(link)
      ensures hitLimit ==> |segs| - k0 + FramesFor(respLen - old(readDataLen), maxLsoPayload) > LOOP_LIMIT
      ensures Accepting(link) && !hitLimit ==> Ended(segs, respLen)
      ensures Accepting(link) && hitLimit && readDataLen == old(readDataLen) ==>
                Stuck(segs, readDataLen, Min(maxLsoPayload, respLen - readDataLen))
    {
      hide Accepting, Fails, NonEmpty, Tiled, Passable, Flatten, Start, Stuck, Positioned, Going, FramesFor;
      ghost var t := Job(segs, respLen);
      var c := Cursor(k0, off0, |segs[k0]| - off0, readDataLen, 0, 0, []);
      var loopLimit: nat, n: nat := LOOP_LIMIT, 0;
      ghost var budget, p := |segs| - k0 + FramesFor(respLen - readDataLen, maxLsoPayload), Pace(k0, LOOP_LIMIT);
      Starts(t, segs, c);
      while c.at < respLen
        invariant old(wire) <= wire && n == |wire| - |old(wire)| && old(readDataLen) <= readDataLen
        invariant Tiled(t, wire, readDataLen) && Passable(segs, wire)
        invariant Going(t, segs, readDataLen, c, p, loopLimit, budget) && loopLimit <= LOOP_LIMIT
        invariant readDataLen == old(readDataLen) ==> FirstFrame(p, c, k0, loopLimit)
        decreases respLen - c.at
      {
        GoingFacts(t, segs, readDataLen, c, p, loopLimit, budget);
        AcceptingOrFails(link, n);
        if loopLimit == 0 {
          LimitHit(t, segs, readDataLen, c, p, budget);
          return QueueFull, true;
        }
        loopLimit := loopLimit - 1;
        var step, d;
        step, d, p := Pass(segs, respLen, link, c, n, p, loopLimit, budget);
        if step.Ends? {
          return QueueFull, false;
        }
        if step.Refused? {
          return step.res, false;
        }
        if d.frameLen == 0 {
          n := n + 1;
        }
        c := d;
      }
      GoingFacts(t, segs, readDataLen, c, p, loopLimit, budget);
      return Success, false;
    }

    /** Sends the rest of the read data. `hitLimit` tells whether the iteration guard fired. */
    method SendReadData(segs: Segments, respLen: nat, link: Link) returns (res: TgtRes, hitLimit: bool)
      requires NonEmpty(segs) && maxLsoPayload > 0
      requires Tiled(Job(segs, respLen), wire, readDataLen) && Passable(segs, wire)
      modifies this`readDataLen, this`wire
      ensures ReadAttempt(Job(segs, respLen), old(readDataLen), old(wire), readDataLen, wire, res)
      ensures Passable(segs, wire)
      ensures hitLimit ==> res.QueueFull?
      ensures !hitLimit ==> StoppedBy(link, |wire| - |old(wire)|, res, Ended(segs, respLen))
      ensures res.FatalError? ==> Fails(link)
      ensures hitLimit ==>
                SegmentsFrom(segs, old(readDataLen)) + FramesFor(respLen - old(readDataLen), maxLsoPayload) > LOOP_LIMIT
      ensures Accepting(link) && !hitLimit ==> Ended(segs, respLen)
      ensures Accepting(link) && hitLimit && readDataLen == old(readDataLen) ==>
                Stuck(segs, readDataLen, Min(maxLsoPayload, respLen - readDataLen))
    {
      hide Stuck, Passable;
      if respLen <= readDataLen {
        return Success, false;
      }
      if segs == [] {
        return Success, false;
      }
      var k, memOff := SkipSent(segs, readDataLen);
      if k == |segs| {
        return Success, false;
      }
      StartMonotone(segs, k);
      res, hitLimit := SendFrames(segs, respLen, link, k, memOff);
    }

    ghost function Received(mem: seq<array<byte>>): Rx
      reads this, mem
    {
      Rx(Flatten(Contents(mem)), writeDataLen, state, rxCalls)
    }

    /** Places one received write frame, wherever in the buffer it belongs. */
    method RecvWriteData(mem: seq<array<byte>>, bufflen: nat, f: Frame)
      requires Mapped(mem) && bufflen < U32 && writeDataLen < U32
      modifies this`writeDataLen, this`state, this`rxCalls, mem
      ensures Received(mem) == Receive(old(Received(mem)), bufflen, f)
      ensures Delivered(old(Received(mem)), bufflen, f, Received(mem))
      ensures writeDataLen < U32
    {
      hide Flatten, Overwrite, Contents, Base, Add32, Fits, Receive, CopyLen, Delivered;
      ghost var rx := Received(mem);
      ReceiveDelivers(rx, bufflen, f);
      if Dropped(f, bufflen) {
        ReceiveDropped(rx, bufflen, f);
        return;
      }
      var len := Min(|f.payload|, bufflen - f.off);
      BaseIsSize(mem);
      CopyPayload(mem, f.off, f.payload[..len]);
      ghost var flat := Flatten(Contents(mem));
      DataArrived(bufflen);
      assert Flatten(Contents(mem)) == flat;
      ReceivePlaced(rx, bufflen, f, len, Received(mem));
    }

    /** Places frames one after another, in the order in which they arrive. */
    method RecvAll(mem: seq<array<byte>>, bufflen: nat, frames: seq<Frame>)
      requires Mapped(mem) && bufflen < U32 && writeDataLen < U32
      modifies this`writeDataLen, this`state, this`rxCalls, mem
      ensures Received(mem) == ReceiveAll(old(Received(mem)), bufflen, frames)
      ensures writeDataLen < U32
    {
      hide Received, Receive;
      ghost var rx := Received(mem);
      for i := 0 to |frames|
        invariant Received(mem) == ReceiveAll(rx, bufflen, frames[..i])
        invariant writeDataLen < U32
      {
        RecvWriteData(mem, bufflen, frames[i]);
        assert frames[..i + 1][..i] == frames[..i];
      }
      assert frames[..|frames|] == frames;
    }

    /** Tells SCST, under the command's lock, if the counter says that the data is complete. */
    method DataArrived(bufflen: nat)
      modifies this`state, this`rxCalls
      ensures var fires := writeDataLen == bufflen && old(state).NeedData?;
              && state == (if fires then DataIn else old(state))
              && rxCalls == if fires then old(rxCalls) + [RxSuccess] else old(rxCalls)
    {
      if writeDataLen == bufflen {
        if state.NeedData? {
          state := DataIn;
          rxCalls := rxCalls + [RxSuccess];
        }
      }
    }

    /** Copies `tlen` payload bytes to the place in segment `k` where they belong, behind the `done` ones. */
    method CopyPiece(mem: seq<array<byte>>, k: nat, at: nat, payload: seq<byte>, ghost off: nat, done: nat, tlen: nat,
                     ghost flat: seq<byte>, ghost counter: nat)
      requires Mapped(mem) && k < |mem| && at + tlen <= mem[k].Length && 0 < tlen && done + tlen <= |payload|
      requires Base(mem, k) + at == off + done && off + done + tlen <= |flat|
      requires Flatten(Contents(mem)) == Overwrite(flat, off, payload[..done])
      requires writeDataLen == Add32(counter, done)
      modifies this`writeDataLen, mem[k]
      ensures Flatten(Contents(mem)) == Overwrite(flat, off, payload[..done + tlen])
      ensures writeDataLen == Add32(counter, done + tlen)
    {
      hide Flatten, Overwrite, Patch, Base, Contents, Add32;
      OverwriteMore(flat, off, payload, done, tlen);
      Add32Twice(counter, done, tlen);
      CopyInto(mem, k, at, payload[done..done + tlen]);
      writeDataLen := Add32(writeDataLen, tlen);
    }

    /** The copy loop: `rel` bytes of the list are still to be skipped, `frameLen` still to be copied. */
    method CopyPayload(mem: seq<array<byte>>, off: nat, payload: seq<byte>)
      requires Mapped(mem) && writeDataLen < U32
      modifies this`writeDataLen, mem
      ensures Base(mem, |mem|) == |old(Flatten(Contents(mem)))|
      ensures writeDataLen == Add32(old(writeDataLen), Fits(off, |payload|, Base(mem, |mem|)))
      ensures Flatten(Contents(mem))
              == Overwrite(old(Flatten(Contents(mem))), off, payload[..Fits(off, |payload|, Base(mem, |mem|))])
    {
      hide Flatten, Overwrite, Patch, Base, Contents, Add32;
      Add32Twice(writeDataLen, 0, 0);
      ghost var flat := Flatten(Contents(mem));
      BaseIsSize(mem);
      NothingYet(flat, off, payload);
      var k, rel: nat, frameLen: nat, done: nat := 0, off, |payload|, 0;
      var memLen: nat := if mem == [] then 0 else mem[0].Length;
      ghost var pos: nat := 0;    // the place in the flattened buffer that `to` points at
      if mem != [] {
        BaseStep(mem, 0, |mem|);
      }
      BaseZero(mem);
      while frameLen > 0
        invariant done + frameLen == |payload|
        invariant mem == [] ==> k == 0 && memLen == 0
        invariant mem != [] ==> 0 <= k < |mem| && memLen <= mem[k].Length
        invariant pos == if mem == [] then 0 else Base(mem, k) + mem[k].Length - memLen
        invariant pos + rel == off + done && (rel > 0 ==> done == 0) && (done > 0 ==> off + done <= Base(mem, |mem|))
        invariant writeDataLen == Add32(old(writeDataLen), done)
        invariant Flatten(Contents(mem)) == Overwrite(flat, off, payload[..done])
        decreases |mem| - k, memLen
      {
        if memLen == 0 {
          if mem != [] {
            BaseStep(mem, k, |mem|);
          }
          if k + 1 >= |mem| {
            break;
          }
          k := k + 1;
          memLen := mem[k].Length;
        }
        if rel > 0 {
          if rel >= memLen {
            rel, pos, memLen := rel - memLen, pos + memLen, 0;
            continue;
          }
          memLen, rel, pos := memLen - rel, 0, pos + rel;
        }
        var tlen := Min(memLen, frameLen);
        BaseStep(mem, k, |mem|);
        CopyPiece(mem, k, mem[k].Length - memLen, payload, off, done, tlen, flat, old(writeDataLen));
        done, frameLen, memLen, pos := done + tlen, frameLen - tlen, memLen - tlen, pos + tlen;
      }
    }

    // ------------------------------------------------------------------------
    // Command state
    // ------------------------------------------------------------------------

    method SetCmdState(next: CmdState) returns (previous: CmdState)
      modifies this`state
      ensures previous == old(state)
      ensures state == if old(state).Done? then Done else next
      ensures Took(Set(next), old(state), rxCalls, state, rxCalls)
    {
      previous := state;
      if previous != Done {
        state := next;
      }
    }

    method TestAndSetCmdState(expected: CmdState, next: CmdState) returns (was: bool)
      modifies this`state
      ensures was <==> old(state) == expected
      ensures state == if was then next else old(state)
      ensures Took(TestAndSet(expected, next), old(state), rxCalls, state, rxCalls)
    {
      was := state == expected;
      if was {
        state := next;
      }
    }

    method AbortCmd()
      modifies this`state, this`rxCalls, this`warned
      ensures Took(Abort, old(state), old(rxCalls), state, rxCalls)
      ensures old(state).NeedData? ==> state == DataIn && rxCalls == old(rxCalls) + [RxFatal]
      ensures !old(state).NeedData? ==> rxCalls == old(rxCalls)
      ensures old(state).New? || old(state).DataIn? || old(state).Mgmt? || old(state).CmdRspSent? ==>
                state == old(state)
      ensures old(state).MgmtRspSent? || old(state).Done? ==> state.Done?
      ensures warned <==> old(warned) || old(state).MgmtRspSent? || old(state).Done?
    {
      assert CallsIn([Called(RxFatal)]) == [RxFatal];
      match state {
        case New | DataIn | Mgmt | CmdRspSent =>
        case NeedData =>
          state := DataIn;
          rxCalls := rxCalls + [RxFatal];
        case MgmtRspSent | Done =>
          warned := true;
          state := Done;
      }
    }

    /** Asks for write data. A failed send takes the command back to where it was. */
    method SendXferRdy(allocOk: bool, outcome: SendOutcome) returns (res: TgtRes)
      modifies this`state, this`warned
      ensures res.Success? <==> allocOk && outcome.Accepted?
      ensures res.FatalError? <==> allocOk && outcome.Failed?
      ensures warned <==> old(warned) || (allocOk && !old(state).New?)
      ensures old(state).New? ==> state == if res.Success? then NeedData else New
      ensures !old(state).New? ==> state == if !allocOk || res.Success? || old(state).Done? then old(state) else New
    {
      if !allocOk {
        return QueueFull;
      }
      var was := TestAndSetCmdState(New, NeedData);
      if !was {
        warned := true;
      }
      match outcome {
        case Accepted => res := Success;
        case NoMemory =>
          var _ := SetCmdState(New);
          res := QueueFull;
        case Failed =>
          var _ := SetCmdState(New);
          res := FatalError;
      }
    }

    // ------------------------------------------------------------------------
    // Response
    // ------------------------------------------------------------------------

    ghost function Seen(): Conversation
      reads this
    {
      Conversation(readDataLen, wire, statuses)
    }

    /** Sends the status frame with its residual, or puts the command back to where it was. */
    method SendStatusFrame(resid: int, previous: CmdState, statusAlloc: bool, statusSend: SendOutcome)
      returns (res: TgtRes)
      requires previous.Done? <==> state.Done?
      modifies this`state, this`statuses, this`finished
      ensures res.Success? <==> statusAlloc && statusSend.Accepted?
      ensures res.FatalError? <==> statusAlloc && statusSend.Failed?
      ensures statuses == old(statuses) + if res.Success? then [Encode(resid)] else []
      ensures finished == old(finished) + if res.Success? then 1 else 0
      ensures state == if res.Success? then old(state) else previous
    {
      if !statusAlloc {
        var _ := SetCmdState(previous);
        return QueueFull;
      }
      var frame := Status(false, false, 0);
      if resid != 0 {
        frame := if resid < 0 then Status(true, false, -resid) else Status(false, true, resid);
      }
      if statusSend != Accepted {
        var _ := SetCmdState(previous);
        return if statusSend == NoMemory then QueueFull else FatalError;
      }
      statuses := statuses + [frame];
      finished := finished + 1;
      return Success;
    }

    /** The part of a response that sends something. */
    method DataThenStatus(q: Request, previous: CmdState, link: Link, statusAlloc: bool, statusSend: SendOutcome)
      returns (res: TgtRes)
      requires NonEmpty(q.segs) && maxLsoPayload > 0 && q.sendStatus && (previous.Done? <==> state.Done?)
      requires Tiled(TransferOf(q, maxLsoPayload), wire, readDataLen) && Passable(q.segs, wire)
      modifies this`state, this`readDataLen, this`wire, this`statuses, this`finished
      ensures Attempt(q, maxLsoPayload, old(Seen()), Seen(), Call(false, writeDataLen, res))
      ensures Tiled(TransferOf(q, maxLsoPayload), wire, readDataLen) && Passable(q.segs, wire)
      ensures finished == old(finished) + if res.Success? then 1 else 0
      ensures state == if res.Success? then old(state) else previous
      ensures q.dir.Read? && Accepting(link) && readDataLen == old(readDataLen) < q.respLen ==>
                var len := Min(maxLsoPayload, q.respLen - readDataLen);
                Stuck(q.segs, readDataLen, len) || |Flatten(q.segs)| < readDataLen + len
      ensures statusAlloc && statusSend.Accepted? && !res.Success? ==>
                q.dir.Read? && readDataLen != q.respLen && old(readDataLen) < |Flatten(q.segs)|
      ensures statusSend != Failed && res.FatalError? ==> Fails(link)
      ensures q.dir.Read? && old(Enough(q.segs, q.respLen)) && !Ended(q.segs, q.respLen) ==>
                StoppedBy(link, |wire| - |old(wire)|, res, false)
      ensures !q.dir.Read? || readDataLen == q.respLen || |Flatten(q.segs)| <= old(readDataLen) ==>
                res == StatusResult(statusAlloc, statusSend)
      ensures res.FatalError? ==>
                (statusAlloc && statusSend.Failed?) || (q.dir.Read? && link.send(|wire| - |old(wire)|) == Failed)
    {
      hide Tiled, Passable, Stuck, Flatten, Took, ToInt32, Attempt, Residual, Encode, Accepting, Fails;
      ghost var before := Seen();
      var resid := 0;
      if q.dir.Write? {
        resid := ToInt32(q.bufflen - writeDataLen);
      }
      ghost var read := Success;
      if q.dir.Read? {
        var sent, _ := SendReadData(q.segs, q.respLen, link);
        read := sent;
        if sent != Success {
          var _ := SetCmdState(previous);
          AttemptMade(q, maxLsoPayload, before, Seen(), Call(false, writeDataLen, sent), read);
          return sent;
        }
        resid := ToInt32(q.bufflen - q.respLen);
      }
      res := SendStatusFrame(resid, previous, statusAlloc, statusSend);
      ResidualIs(q, writeDataLen);
      AttemptMade(q, maxLsoPayload, before, Seen(), Call(false, writeDataLen, res), read);
    }

    /** Sends the read data, if any, and then the status frame; to be called again after QUEUE_FULL. */
    method SendResponse(q: Request, aborted: bool, link: Link, statusAlloc: bool, statusSend: SendOutcome)
      returns (res: TgtRes)
      requires NonEmpty(q.segs) && maxLsoPayload > 0
      requires Tiled(TransferOf(q, maxLsoPayload), wire, readDataLen) && Passable(q.segs, wire)
      modifies this`state, this`readDataLen, this`wire, this`statuses, this`finished, this`warned, this`rxCalls
      ensures Attempt(q, maxLsoPayload, old(Seen()), Seen(), Call(aborted, writeDataLen, res))
      ensures Tiled(TransferOf(q, maxLsoPayload), wire, readDataLen) && Passable(q.segs, wire)
      ensures finished == old(finished) + if res.Success? then 1 else 0
      ensures state == if res.Success? && !old(state).Done? then CmdRspSent else old(state)
      ensures rxCalls == old(rxCalls)
      ensures !old(state).Done? ==> (warned <==> old(warned) || !(old(state).New? || old(state).DataIn?))
      ensures !aborted && q.sendStatus && q.dir.Read? && Accepting(link) &&
              readDataLen == old(readDataLen) < q.respLen ==>
                var len := Min(maxLsoPayload, q.respLen - readDataLen);
                Stuck(q.segs, readDataLen, len) || |Flatten(q.segs)| < readDataLen + len
      ensures !aborted && q.sendStatus && statusAlloc && statusSend.Accepted? && !res.Success? ==>
                q.dir.Read? && readDataLen != q.respLen && old(readDataLen) < |Flatten(q.segs)|
      ensures !aborted && q.sendStatus && statusSend != Failed && res.FatalError? ==> Fails(link)
      ensures !aborted && q.sendStatus && q.dir.Read? && old(Enough(q.segs, q.respLen)) && !Ended(q.segs, q.respLen) ==>
                StoppedBy(link, |wire| - |old(wire)|, res, false)
      ensures aborted ==> res.Success? && Seen() == old(Seen())
      ensures !aborted && !q.sendStatus ==> res.FatalError? && Seen() == old(Seen())
      ensures !aborted && q.sendStatus &&
              (!q.dir.Read? || readDataLen == q.respLen || |Flatten(q.segs)| <= old(readDataLen)) ==>
                res == StatusResult(statusAlloc, statusSend)
    {
      hide Tiled, Passable, Stuck, Flatten, Took, Attempt, Accepting, Fails;
      if state != New && state != DataIn {
        warned := true;
      }
      var previous := SetCmdState(CmdRspSent);
      if aborted {
        AbortCmd();
        finished := finished + 1;
        AttemptQuiet(q, maxLsoPayload, Seen(), Call(aborted, writeDataLen, Success));
        return Success;
      }
      if !q.sendStatus {
        var _ := SetCmdState(previous);
        AttemptQuiet(q, maxLsoPayload, Seen(), Call(aborted, writeDataLen, FatalError));
        return FatalError;
      }
      res := DataThenStatus(q, previous, link, statusAlloc, statusSend);
    }

    /** SCST hands over a response and calls again after every QUEUE_FULL, at most `tries` times: whatever happens in
        the calls, they are a run of the responder, and status is in front of data only if the buffer ends on a
        frame. */
    method Respond(q: Request, env: nat -> Surroundings, tries: nat)
      returns (res: TgtRes, ghost run: seq<Conversation>, ghost calls: seq<Call>)
      requires NonEmpty(q.segs) && maxLsoPayload > 0 && Seen() == SILENCE
      modifies this`state, this`readDataLen, this`wire, this`statuses, this`finished, this`warned, this`rxCalls
      ensures Retried(q, maxLsoPayload, run, calls) && run[|calls|] == Seen()
      ensures calls != [] ==> res == calls[|calls| - 1].res
      ensures forall i :: 0 <= i < |calls| ==> calls[i].written == writeDataLen
      ensures q.dir.Read? && statuses != [] && readDataLen < q.respLen ==> EndsOnFrame(q, maxLsoPayload)
    {
      hide Tiled, Passable, Stuck, Flatten, Attempt, EndsOnFrame;
      res, run, calls := QueueFull, [SILENCE], [];
      StartsTiled(q, maxLsoPayload);
      var n := 0;
      while n < tries && res.QueueFull?
        invariant Tiled(TransferOf(q, maxLsoPayload), wire, readDataLen) && Passable(q.segs, wire)
        invariant Retried(q, maxLsoPayload, run, calls) && run[|calls|] == Seen()
        invariant calls != [] ==> res == calls[|calls| - 1].res
        invariant calls == [] ==> res.QueueFull?
        invariant forall i :: 0 <= i < |calls| ==> calls[i].written == writeDataLen
        decreases tries - n
      {
        var e := env(n);
        ghost var before := Seen();
        res := SendResponse(q, e.aborted, e.link, e.statusAlloc, e.statusSend);
        RetriedAppend(q, maxLsoPayload, run, calls, Seen(), Call(e.aborted, writeDataLen, res));
        run, calls := run + [Seen()], calls + [Call(e.aborted, writeDataLen, res)];
        n := n + 1;
      }
      if q.dir.Read? && statuses != [] && readDataLen < q.respLen {
        PrematureOnlyOnExactMultiple(q, maxLsoPayload, run, calls);
      }
    }

    /** A write: the frames that arrive, overlapping or not, and then the response. The residual of the status frame
        that goes out decodes to the buffer length minus the bytes copied, exactly if that fits a signed 32-bit
        integer. */
    method ReceiveAndRespond(q: Request, mem: seq<array<byte>>, frames: seq<Frame>, env: nat -> Surroundings,
                             tries: nat)
      requires NonEmpty(q.segs) && maxLsoPayload > 0 && Seen() == SILENCE
      requires q.dir.Write? && q.bufflen < U32 && Mapped(mem)
      requires state.NeedData? && writeDataLen == 0 && rxCalls == []
      modifies this, mem
      ensures |statuses| <= 1
      ensures statuses != [] ==>
                var missing := q.bufflen - Copied(frames, q.bufflen, Base(mem, |mem|));
                && (Decode(statuses[0]) == missing <==> FitsInt32(missing))
                && (FitsInt32(missing) ==> (statuses[0].over <==> missing < 0) && (statuses[0].under <==> missing > 0))
    {
      hide Flatten, Contents, Base, Retried, ReceiveAll, Encode, Decode, Residual, Copied;
      BaseIsSize(mem);
      ghost var rx := Received(mem);
      RecvAll(mem, q.bufflen, frames);
      var _, run, calls := Respond(q, env, tries);
      RetriedResponse(q, maxLsoPayload, run, calls);
      CopiedResidual(q, rx, frames);
    }

    /** With every buffer that ends on a frame it happens, and with nothing going wrong: every call is accepted, the
        calls up to the last come back QUEUE_FULL, and the last one sends status in front of data. */
    method StatusBeforeData(q: Request, link: Link)
      requires NonEmpty(q.segs) && maxLsoPayload > 0 && Seen() == SILENCE
      requires q.dir.Read? && q.sendStatus && Accepting(link) && EndsOnFrame(q, maxLsoPayload)
      modifies this`state, this`readDataLen, this`wire, this`statuses, this`finished, this`warned, this`rxCalls
      ensures Premature(q, Seen()) && finished == old(finished) + 1
    {
      hide Tiled, Passable, Stuck, Flatten, Attempt, Times;
      StartsTiled(q, maxLsoPayload);
      var res := QueueFull;
      while res.QueueFull?
        invariant Tiled(TransferOf(q, maxLsoPayload), wire, readDataLen) && Passable(q.segs, wire)
        invariant readDataLen <= |Flatten(q.segs)|
        invariant res.QueueFull? ==> statuses == [] && finished == old(finished)
        invariant !res.QueueFull? ==> statuses != [] && finished == old(finished) + 1
        decreases |Flatten(q.segs)| - readDataLen, res.QueueFull?
      {
        ghost var before := Seen();
        AcceptingOrFails(link, 0);
        res := SendResponse(q, false, link, true, Accepted);
        AcceptedCall(q, maxLsoPayload, before, Seen(), Call(false, writeDataLen, res));
      }
    }
  }

  /** A read sent by one command and received by another as write data: with any scatter lists on both sides, any
      failures and retries, and any order of arrival, a response that has been sent completely is in the destination,
      byte for byte, and SCST there has been told so once. */
  method SendAndReceive(source: FtCmd, q: Request, env: nat -> Surroundings, tries: nat,
                        sink: FtCmd, mem: seq<array<byte>>, reorder: seq<Frame> -> seq<Frame>)
    requires source != sink && source.maxLsoPayload > 0 && source.Seen() == SILENCE
    requires q.dir.Read? && NonEmpty(q.segs) && 0 < q.respLen < U32
    requires Mapped(mem) && Base(mem, |mem|) == q.respLen
    requires sink.state.NeedData? && sink.writeDataLen == 0 && sink.rxCalls == []
    requires forall w :: multiset(reorder(w)) == multiset(w)
    modifies source, sink, mem
    ensures source.readDataLen == q.respLen ==>
              && q.respLen <= |Flatten(q.segs)|
              && Flatten(Contents(mem)) == Flatten(q.segs)[..q.respLen]
              && sink.rxCalls == [RxSuccess]
    ensures q.respLen <= |Flatten(q.segs)| && source.statuses != [] ==> source.readDataLen == q.respLen
  {
    hide Flatten, Retried, ReceiveAll, Contents, Base;
    BaseIsSize(mem);
    ghost var rx := sink.Received(mem);
    var _, run, calls := source.Respond(q, env, tries);
    RetriedResponse(q, source.maxLsoPayload, run, calls);
    assert sink.Received(mem) == rx;
    var arrived := reorder(source.wire);
    sink.RecvAll(mem, q.respLen, arrived);
    if source.readDataLen == q.respLen {
      RetriedRoundTrip(q, source.maxLsoPayload, run, calls, arrived, rx);
    }
  }

  /** What one call of the responder meets: an abort by SCST, the fabric for its data frames and its status frame. */
  datatype Surroundings = Surroundings(aborted: bool, link: Link, statusAlloc: bool, statusSend: SendOutcome)

  lemma {:induction false} AttemptQuiet(q: Request, maxPayload: nat, a: Conversation, c: Call)
    requires if c.aborted then c.res.Success? else !q.sendStatus && c.res.FatalError?
    ensures Attempt(q, maxPayload, a, a, c)
  {
  }

  lemma {:induction false} AttemptMade(q: Request, maxPayload: nat, a: Conversation, b: Conversation, c: Call,
                                       r: TgtRes)
    requires !c.aborted && q.sendStatus && Passable(q.segs, b.wire)
    requires q.dir.Read? ==>
               ReadAttempt(TransferOf(q, maxPayload), a.sent, a.wire, b.sent, b.wire, r) && (r.Success? || c.res == r)
    requires !q.dir.Read? ==> b.sent == a.sent && b.wire == a.wire
    requires b.statuses == a.statuses + if c.res.Success? then [Encode(Residual(q, c.written))] else []
    ensures Attempt(q, maxPayload, a, b, c)
  {
  }

  lemma {:induction false} ResidualIs(q: Request, written: nat)
    ensures Residual(q, written) == if q.dir.Read? then ToInt32(q.bufflen - q.respLen)
                                    else if q.dir.Write? then ToInt32(q.bufflen - written) else 0
  {
  }

  lemma {:induction false} RetriedAppend(q: Request, maxPayload: nat, run: seq<Conversation>, calls: seq<Call>,
                                         b: Conversation, c: Call)
    requires Retried(q, maxPayload, run, calls) && (calls != [] ==> calls[|calls| - 1].res.QueueFull?)
    requires Attempt(q, maxPayload, run[|calls|], b, c)
    ensures Retried(q, maxPayload, run + [b], calls + [c])
  {
    hide Attempt;
  }

  /** With an accepting link and a buffer that ends on a frame, a call sends status or gets further. */
  lemma {:induction false} AcceptedCall(q: Request, maxPayload: nat, a: Conversation, b: Conversation, c: Call)
    requires maxPayload > 0 && q.dir.Read? && q.sendStatus && EndsOnFrame(q, maxPayload) && !c.aborted
    requires a.statuses == [] && Tiled(TransferOf(q, maxPayload), a.wire, a.sent)
    requires Attempt(q, maxPayload, a, b, c)
    requires b.sent == a.sent ==>
               var len := Min(maxPayload, q.respLen - a.sent);
               Stuck(q.segs, a.sent, len) || |Flatten(q.segs)| < a.sent + len
    requires !c.res.FatalError? && (!c.res.Success? ==> b.sent != q.respLen && a.sent < |Flatten(q.segs)|)
    ensures a.sent <= b.sent <= |Flatten(q.segs)|
    ensures c.res.Success? ==> b.statuses != []
    ensures c.res.QueueFull? ==> b.statuses == [] && b.sent > a.sent
  {
    hide Stuck, Times, Flatten, Passable;
    var t := TransferOf(q, maxPayload);
    TiledMultiple(t, a.wire, a.sent);
    var k: nat :| Times(k, maxPayload) == |t.data|;
    if a.sent < |t.data| {
      if k <= |a.wire| {
        TimesOrder(k, |a.wire|, maxPayload);
      }
      TimesOrder(|a.wire|, k, maxPayload);
      assert !Stuck(q.segs, a.sent, maxPayload);
    }
  }
}
