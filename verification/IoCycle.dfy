/** One I/O after another through a command buffer of the MPT target, with a firmware and an SCST that do their part:
    the flag word tells how far the I/O is, the buffer comes back, and exactly which events spoil that. */
module IoCycle {
  import opened IoState

  /** A command buffer: its flag word, whether it still points to an SCST command and whether that one waits for data.
      `warned` records that a WARN_ON or BUG_ON of the reply handler fired, or the one on a pointer that is replaced. */
  datatype Unit = Unit(io: Flags, hasCmd: bool, needData: bool, warned: bool)

  /** How far the I/O is: posted, with the firmware; with SCST; write data on its way in; data on its way out with
      status held back; status on its way, together with data or alone. */
  datatype Stage = Waiting | Executing | Collecting | Sending | Finishing(data: bool)

  datatype Happening =
    | Arrives(priority: bool, local: bool)                // a new command
    | Asks                                                // SCST wants the write data
    | Answers(data: bool, good: bool, sense: bool)        // SCST responds
    | Completes                                           // what is on its way has arrived
    | Fails(kind: ErrorKind)                              // or has not
    | Retransmits(s: Srr, kind: ErrorKind, local: bool)   // an SRR, and the reply to the request it aborts

  // --------------------------------------------------------------------------
  // What the handlers do
  // --------------------------------------------------------------------------

  function At(u: Unit, local: bool): Found {
    Found(u.hasCmd, u.needData, local)
  }

  /** The reply handler. It cannot tell a new command from a completion but by the pointer. */
  function Replied(c: Adapter, u: Unit, local: bool): Unit {
    var io := TgtReply(c, u.io, At(u, local));
    if !u.hasCmd then Unit(io, true, false, u.warned || u.io - {HighPriority} != {Posted})
    else if u.needData then Unit(io, true, false, u.warned || DataSent !in u.io)
    else if StatusSent in u.io then Unit(io, false, false, u.warned)
    else Unit(io, true, false, u.warned || DataSent !in u.io)
  }

  /** The error reply handler. */
  function Errored(c: Adapter, u: Unit, kind: ErrorKind, local: bool): Unit {
    var o := ReplyError(c, u.io, kind, At(u, local));
    if {RequestAborted, ReissueRequest} <= u.io then
      (if Redone in o.acts then Unit(o.io, true, false, u.warned || (u.hasCmd && !local)) else u.(io := o.io))
    else if kind.PriorityIo? then u.(io := o.io, needData := false)
    else if kind.StatusDataNotSent? && c.scsi && (AutoRepost in u.io || StatusSent in u.io)
    then Replied(c, u.(io := u.io - {RequestAborted}), local).(io := o.io)
    else u.(io := o.io)
  }

  function Happen(c: Adapter, u: Unit, h: Happening): Unit {
    match h
    case Arrives(priority, local) => Replied(c, if priority then u.(io := u.io + {HighPriority}) else u, local)
    case Asks => u.(io := SendData(u.io, false), needData := true)
    case Answers(data, good, sense) => u.(io := Xmit(c, u.io, data, good, sense))
    case Completes => Replied(c, u, false)
    case Fails(kind) => Errored(c, u, kind, false)
    case Retransmits(s, kind, local) => Errored(c, u.(io := SrrProcess(u.io, s)), kind, local)
  }

  // --------------------------------------------------------------------------
  // What should come of it
  // --------------------------------------------------------------------------

  /** Something is on its way. Status data can only stay behind if status is. */
  predicate Allowed(at: Stage, h: Happening) {
    match h
    case Arrives(_, _) => at.Waiting?
    case Asks => at.Executing?
    case Answers(_, _, _) => at.Executing?
    case Completes => !at.Waiting? && !at.Executing?
    case Fails(kind) => !at.Waiting? && !at.Executing? && (kind.StatusDataNotSent? ==> at.Finishing?)
    case Retransmits(_, kind, _) =>
      !at.Waiting? && !at.Executing? && (kind.StatusDataNotSent? ==> at.Finishing?)
  }

  function AfterFailure(kind: ErrorKind): Stage {
    if kind.StillActive? || kind.PriorityIo? then Finishing(false) else Waiting
  }

  function Next(at: Stage, h: Happening): Stage {
    match h
    case Arrives(_, local) => if local then Finishing(true) else Executing
    case Asks => Collecting
    case Answers(data, good, _) => if data && !good then Sending else Finishing(data)
    case Completes => if at.Collecting? then Executing else if at.Sending? then Finishing(false) else Waiting
    case Fails(kind) => AfterFailure(kind)
    case Retransmits(s, kind, local) =>
      match RecoveryFor(Core(at), s)
      case Whole => at
      case Rest => at
      case StatusOnly => Finishing(false)
      case Again => if local then Finishing(true) else Executing
      case Rejected => AfterFailure(kind)
  }

  /** The flags of a stage, besides HIGH_PRIORITY and AUTO_REPOST. */
  function Core(at: Stage): Flags {
    match at
    case Waiting => {Posted}
    case Executing => {}
    case Collecting => {DataSent}
    case Sending => {DataSent, StatusDeferred}
    case Finishing(data) => if data then {DataSent, StatusSent} else {StatusSent}
  }

  /** The buffer shows the stage; it points to a command exactly while there is one, which waits for data exactly while
      that is on its way in; and nothing has been warned about. */
  ghost predicate Clean(u: Unit, at: Stage) {
    && (forall f :: f != HighPriority && f != AutoRepost ==> (f in u.io <==> f in Core(at)))
    && (at.Waiting? ==> AutoRepost !in u.io)
    && (u.hasCmd <==> !at.Waiting?)
    && (u.needData <==> at.Collecting?)
    && !u.warned
  }

  /** An error that ends the I/O leaves the pointer to its command in the buffer; one that has an error status sent for
      it leaves a command that waits for data waiting, except for a priority I/O. */
  predicate Spoils(c: Adapter, at: Stage, kind: ErrorKind) {
    match kind
    case Gone => true
    case StatusDataNotSent => !c.scsi
    case StillActive => at.Collecting?
    case PriorityIo => false
  }

  /** So does turning the transfer of write data into status; turning a transfer with status held back into status
      leaves STATUS_DEFERRED, and doing a command again leaves INCOMPLETE, neither of which a completion clears, and
      finds the pointer to the command taken. */
  predicate Harmful(c: Adapter, at: Stage, h: Happening) {
    match h
    case Fails(kind) => Spoils(c, at, kind)
    case Retransmits(s, kind, _) =>
      (match RecoveryFor(Core(at), s)
       case Whole => false
       case Rest => false
       case StatusOnly => !at.Finishing?
       case Again => true
       case Rejected => Spoils(c, at, kind))
    case _ => false
  }

  // --------------------------------------------------------------------------
  // One event
  // --------------------------------------------------------------------------

  lemma {:induction false} ReplyCleans(c: Adapter, u: Unit, at: Stage, local: bool)
    requires Clean(u, at) && !at.Executing?
    ensures Clean(Replied(c, u, local), if at.Waiting? then Next(at, Arrives(false, local)) else Next(at, Completes))
  {
    var idle := u.io - {StatusSent, DataSent};
    if at.Finishing? {
      assert idle <= {HighPriority, AutoRepost};
      assert AutoRepost in idle ==> idle - {HighPriority} == {AutoRepost};
      assert AutoRepost !in idle ==> idle - {HighPriority} == {};
    }
  }

  lemma {:induction false} AnswerCleans(c: Adapter, u: Unit, data: bool, good: bool, sense: bool)
    requires Clean(u, Executing)
    ensures Clean(Happen(c, u, Answers(data, good, sense)), Next(Executing, Answers(data, good, sense)))
    ensures Clean(Happen(c, u, Asks), Collecting)
  {
  }

  /** An error reply to an I/O with no recovery in progress keeps the buffer clean exactly if it does not spoil it. */
  lemma {:induction false} FailureCleans(c: Adapter, u: Unit, at: Stage, kind: ErrorKind, local: bool)
    requires Clean(u, at) && Allowed(at, Fails(kind))
    ensures !Spoils(c, at, kind) ==> Clean(Errored(c, u, kind, local), AfterFailure(kind))
    ensures Spoils(c, at, kind) ==> Spoilt(Errored(c, u, kind, local))
  {
    assert RequestAborted !in u.io;
    assert u.io - {RequestAborted} == u.io;
    match kind
    case PriorityIo => assert u.io + {HighPriority} - {RequestAborted} == u.io + {HighPriority};
    case StillActive =>
    case StatusDataNotSent =>
      if c.scsi {
        NotSentCompletes(c, u.io, At(u, local));
        ReplyCleans(c, u, at, local);
      } else {
        CleanedUp(c, u.io);
      }
    case Gone => CleanedUp(c, u.io);
  }

  /** On parallel SCSI, status whose sense data stayed behind is a completion. */
  lemma {:induction false} NotSentCompletes(c: Adapter, io: Flags, at: Found)
    requires c.scsi && StatusSent in io && RequestAborted !in io
    ensures Step(c, io, ErrorReply(StatusDataNotSent, at)) == Step(c, io, TurboReply(at))
  {
    assert io - {RequestAborted} == io;
  }

  /** Cleanup after an error that ends the I/O has the driver post the buffer, even if the firmware was to do it. */
  lemma {:induction false} CleanedUp(c: Adapter, io: Flags)
    ensures Cleanup(c, io - {AutoRepost}) == Post(c, io * {HighPriority})
    ensures Cleanup(c, io - {AutoRepost}) - {HighPriority} == {Posted}
    ensures forall at :: TargetError(c, io, Gone, at) == Out(Post(c, io * {HighPriority}), {Cleaned})
    ensures forall at :: !c.scsi ==>
              TargetError(c, io, StatusDataNotSent, at) == Out(Post(c, io * {HighPriority}), {Cleaned})
  {
    var idle := io - {AutoRepost} - RECOVERY - {DataSent, StatusSent, StatusDeferred, Incomplete, Aborted, Posted};
    forall f ensures f in idle ==> f in io * {HighPriority} {
      assert f.HighPriority? || f.AutoRepost? || f in RECOVERY ||
             f in {DataSent, StatusSent, StatusDeferred, Incomplete, Aborted, Posted};
    }
  }

  /** What goes wrong: a warning; a posted buffer that still points to a command; status on its way for a command that
      still waits for data, or with a flag that nothing clears. */
  predicate Spoilt(u: Unit) {
    || u.warned
    || (u.hasCmd && u.io - {HighPriority} == {Posted})
    || (u.hasCmd && u.needData && DataSent !in u.io && StatusSent in u.io)
    || (&& u.hasCmd && !u.needData && Posted !in u.io && StatusSent in u.io
        && (Incomplete in u.io || StatusDeferred in u.io))
  }

  lemma {:induction false} SameRecovery(u: Unit, at: Stage, s: Srr)
    requires Clean(u, at) && !at.Waiting?
    ensures RecoveryFor(u.io, s) == RecoveryFor(Core(at), s)
    ensures u.io !! RECOVERY && Aborted !in u.io && Posted !in u.io
  {
  }

  /** What the unit looks like behind a recovery, flag by flag. */
  lemma {:induction false} Recovered(c: Adapter, u: Unit, at: Stage, r: Recovery, kind: ErrorKind, local: bool)
    requires Clean(u, at) && !at.Waiting? && !at.Executing? && u.io !! RECOVERY && !r.Rejected?
    ensures var v := Errored(c, u.(io := u.io + FlagsFor(r)), kind, local);
            && v.hasCmd && (v.warned <==> r.Again? && !local)
            && (r.Whole? || r.Rest? ==> Clean(v, at))
            && (r.StatusOnly? ==>
                  && v.needData == u.needData && DataSent !in v.io && StatusSent in v.io
                  && forall f :: f !in {HighPriority, AutoRepost, DataSent, StatusSent} ==> (f in v.io <==> f in u.io))
            && (r.Again? ==>
                  !v.needData && Incomplete in v.io && Posted !in v.io && (local ==> StatusSent in v.io))
  {
    hide ReplyError, SendStatus;
    var was := if kind.PriorityIo? then u.io + {HighPriority} else u.io;
    assert {RequestAborted, ReissueRequest} <= u.io + FlagsFor(r);
    RecoveryDone(c, u.io, r, kind, At(u, local));
    StatusOut(c, was - {DataSent, StatusSent});
  }

  lemma {:induction false} StatusOut(c: Adapter, io: Flags)
    requires DataSent !in io
    ensures var s := SendStatus(c, io, true, false);
            StatusSent in s && forall f :: f != StatusSent && f != AutoRepost ==> (f in s <==> f in io)
  {
  }

  lemma {:induction false} RecoveryCleans(c: Adapter, u: Unit, at: Stage, s: Srr, kind: ErrorKind, local: bool)
    requires var h := Retransmits(s, kind, local); Clean(u, at) && Allowed(at, h)
    ensures var h := Retransmits(s, kind, local);
            && (!Harmful(c, at, h) ==> Clean(Happen(c, u, h), Next(at, h)))
            && (Harmful(c, at, h) ==> Spoilt(Happen(c, u, h)))
  {
    hide RecoveryFor, SrrProcess, Errored;
    var r := RecoveryFor(u.io, s);
    SameRecovery(u, at, s);
    SrrAsks(u.io, s);
    if r.Rejected? {
      assert u.io + {} == u.io;
      FailureCleans(c, u, at, kind, local);
    } else {
      Recovered(c, u, at, r, kind, local);
    }
  }

  /** One event keeps the buffer clean, at the stage it should be, exactly if it is not harmful. */
  lemma {:induction false} HappeningCleansIff(c: Adapter, u: Unit, at: Stage, h: Happening)
    requires Clean(u, at) && Allowed(at, h)
    ensures !Harmful(c, at, h) ==> Clean(Happen(c, u, h), Next(at, h))
    ensures Harmful(c, at, h) ==> Spoilt(Happen(c, u, h)) && forall at' :: !Clean(Happen(c, u, h), at')
  {
    match h
    case Arrives(priority, local) =>
      hide Replied;
      ReplyCleans(c, if priority then u.(io := u.io + {HighPriority}) else u, at, local);
    case Asks => AnswerCleans(c, u, false, true, false);
    case Answers(data, good, sense) => AnswerCleans(c, u, data, good, sense);
    case Completes =>
      hide Replied;
      ReplyCleans(c, u, at, false);
    case Fails(kind) =>
      hide Errored, Spoilt, Clean;
      FailureCleans(c, u, at, kind, false);
      NeverBoth(Errored(c, u, kind, false));
    case Retransmits(s, kind, local) =>
      hide Happen, Spoilt, Clean, Harmful;
      RecoveryCleans(c, u, at, s, kind, local);
      NeverBoth(Happen(c, u, h));
  }

  lemma {:induction false} NeverBoth(u: Unit)
    ensures Spoilt(u) ==> forall at :: !Clean(u, at)
  {
    assert Posted in u.io - {HighPriority} <==> Posted in u.io;
    assert forall at :: Posted in Core(at) <==> at.Waiting?;
  }

  // --------------------------------------------------------------------------
  // Runs
  // --------------------------------------------------------------------------

  /** A buffer that has just been posted, as a port that comes online does it. */
  const POSTED := Unit({Posted}, false, false, false)

  lemma {:induction false} OnlinePosts(c: Adapter)
    ensures Online(c, true) == POSTED.io && Clean(POSTED, Waiting)
  {
  }

  /** The adapter may change from event to event. */
  function After(evs: seq<(Adapter, Happening)>): Unit {
    if evs == [] then POSTED
    else
      var (c, h) := evs[|evs| - 1];
      Happen(c, After(evs[..|evs| - 1]), h)
  }

  function StageAfter(evs: seq<(Adapter, Happening)>): Stage {
    if evs == [] then Waiting else Next(StageAfter(evs[..|evs| - 1]), evs[|evs| - 1].1)
  }

  ghost predicate Orderly(evs: seq<(Adapter, Happening)>) {
    forall i :: 0 <= i < |evs| ==> Allowed(StageAfter(evs[..i]), evs[i].1)
  }

  ghost predicate Harmless(evs: seq<(Adapter, Happening)>) {
    forall i :: 0 <= i < |evs| ==> !Harmful(evs[i].0, StageAfter(evs[..i]), evs[i].1)
  }

  /** Something is visibly wrong: a WARN_ON or BUG_ON has fired, or SCST is done with the command and the firmware has
      not got the buffer back. */
  predicate Wrong(u: Unit) {
    u.warned || (!u.hasCmd && Posted !in u.io)
  }

  /** Over every run without a harmful event, with data and status, errors and retransmissions: the flag word shows how
      far the I/O is, no WARN_ON or BUG_ON fires, and the firmware has the buffer whenever there is no command. */
  lemma {:induction false} CyclesAreClean(evs: seq<(Adapter, Happening)>)
    requires Orderly(evs) && Harmless(evs)
    ensures Clean(After(evs), StageAfter(evs)) && !Wrong(After(evs))
  {
    hide Happen, Next, Allowed, Harmful;
    if evs == [] {
      OnlinePosts(Adapter(false, false, false));
    } else {
      var front, c, h := evs[..|evs| - 1], evs[|evs| - 1].0, evs[|evs| - 1].1;
      assert forall i :: 0 <= i < |front| ==> front[..i] == evs[..i] && front[i] == evs[i];
      CyclesAreClean(front);
      HappeningCleansIff(c, After(front), StageAfter(front), h);
    }
  }

  /** A spoilt buffer needs no further trouble than the next reply: the completion of what is on its way, or, if the
      buffer is posted, the next command. */
  lemma {:induction false} SpoiltGoesWrong(c: Adapter, u: Unit)
    requires Spoilt(u)
    ensures Wrong(u) || Wrong(Replied(c, u, false))
  {
    if u.io - {HighPriority} == {Posted} {
      assert DataSent !in u.io - {HighPriority} && StatusSent !in u.io - {HighPriority};
    } else if !u.warned && !u.needData {
      NotPosted(c, u.io);
    }
  }

  lemma {:induction false} NotPosted(c: Adapter, io: Flags)
    requires Posted !in io && (Incomplete in io || StatusDeferred in io)
    ensures Posted !in Repost(c, io - {StatusSent, DataSent})
  {
    var idle := io - {StatusSent, DataSent};
    assert Incomplete in idle - {HighPriority} || StatusDeferred in idle - {HighPriority};
  }

  /** And the condition is exact: in every run up to its first harmful event something is wrong at once or with the next
      reply, be it a completion or the next command. */
  lemma {:induction false} HarmGoesWrong(evs: seq<(Adapter, Happening)>, c: Adapter)
    requires evs != [] && Orderly(evs) && Harmless(evs[..|evs| - 1])
    requires var n := |evs| - 1; Harmful(evs[n].0, StageAfter(evs[..n]), evs[n].1)
    ensures Wrong(After(evs)) || Wrong(Replied(c, After(evs), false))
  {
    hide Replied, Happen, Next, Allowed, Harmful, Spoilt, Clean, Wrong;
    var front, d, h := evs[..|evs| - 1], evs[|evs| - 1].0, evs[|evs| - 1].1;
    assert forall i :: 0 <= i < |front| ==> front[..i] == evs[..i] && front[i] == evs[i];
    CyclesAreClean(front);
    HappeningCleansIff(d, After(front), StageAfter(front), h);
    SpoiltGoesWrong(c, After(evs));
  }

  /** Who posts the buffer when the I/O is over. The firmware does if the I/O has high priority; besides, if status goes
      out by itself, unless the adapter is exiting or a parallel SCSI status carries sense data. */
  lemma {:induction false} FirmwareReposts(c: Adapter, io: Flags, data: bool, good: bool, sense: bool)
    requires AutoRepost !in io
    ensures AutoRepost in Xmit(c, io, data, good, sense)
            <==> HighPriority in io || (!(data && good) && !c.exiting && !(c.scsi && !good && sense))
  {
  }

  // --------------------------------------------------------------------------
  // Aborts and high priority
  // --------------------------------------------------------------------------

  /** When the abort of an I/O is done that has nothing on its way, the buffer is posted, with no other flag left. If
      something is, that is left to its own reply, and only a recovery that has come too late is called off. */
  lemma {:induction false} AbortEnds(c: Adapter, io: Flags, at: Found)
    ensures Aborted in io && DataSent !in io && StatusSent !in io ==>
              AbortReply(c, io, at).io - {HighPriority} == {Posted} && AbortReply(c, io, at).acts == {Cleaned}
    ensures Aborted !in io || DataSent in io || StatusSent in io ==>
              && AbortReply(c, io, at).acts == {}
              && forall f :: f in AbortReply(c, io, at).io <==>
                   f in io && !(RequestAborted in io &&
                                f in {RequestAborted, ReissueRequest, AdjustOffset, ConvertTaToTss, RedoCommand})
  {
    CleanedUp(c, io);
    assert Aborted in io && DataSent !in io && StatusSent !in io ==>
        RequestAborted !in Cleanup(c, io - {AutoRepost}) - {HighPriority};
  }

  /** A high-priority reply to a posted buffer is a command, which keeps the priority, or is answered at once with a
      status behind which the firmware posts the buffer. */
  lemma {:induction false} PriorityAnswers(c: Adapter, io: Flags, reason: PriorityReason)
    requires io - {HighPriority} == {Posted}
    ensures var o := HighPriorityReply(c, io, reason, Found(false, false, false));
            o.io == if reason.NoDisconnect? || reason.TaskManagement? then {HighPriority}
                    else {HighPriority, AutoRepost, StatusSent}
  {
    assert forall f :: f in io && f != HighPriority ==> f in io - {HighPriority};
    assert Posted in io - {HighPriority};
    assert io + {HighPriority} - {Posted} == {HighPriority};
  }
}
