/** The flag word of an MPT command buffer: what every handler does to it, and what holds over every run. */
module IoState {

  datatype Flag =
    | Posted | DataSent | StatusSent | StatusDeferred | Incomplete | AutoRepost | Aborted | HighPriority
    | RequestAborted | ReissueRequest | AdjustOffset | ConvertTaToTss | RedoCommand

  type Flags = set<Flag>

  /** The flags that drive the recovery of an I/O after a sequence retransmission request (SRR). */
  const RECOVERY: Flags := {RequestAborted, ReissueRequest, AdjustOffset, ConvertTaToTss, RedoCommand}

  /** Adapter conditions a handler looks at. */
  datatype Adapter = Adapter(exiting: bool, sas: bool, scsi: bool)

  /** The groups of IOCStatus values that the error handler tells apart. */
  datatype ErrorKind = PriorityIo | StillActive | StatusDataNotSent | Gone

  /** What a reply handler finds at the command buffer: a command, one that waits for data, or none; and, for a
      new command, whether the driver answers it itself from cached sense data. */
  datatype Found = Found(hasCmd: bool, needData: bool, local: bool)

  /** `Adjusted`: the transfer is cut down to what is behind the offset an SRR asks for; `Reissued`: it goes out again;
      `Converted`: good status goes out in its place; `Redone`: the command starts over. */
  datatype Action = Adjusted | Reissued | Converted | Redone | Cleaned | Restarted

  /** New flags, and the noteworthy things done on the way. */
  datatype Out = Out(io: Flags, acts: set<Action>)

  // --------------------------------------------------------------------------
  // Handlers
  // --------------------------------------------------------------------------

  function Post(c: Adapter, io: Flags): Flags {
    (if c.exiting || c.sas then io else io - {HighPriority}) + {Posted}
  }

  /** Gives a buffer without further flags back to the firmware. */
  function Repost(c: Adapter, io: Flags): Flags {
    if io - {HighPriority} == {AutoRepost} then {Posted}
    else if io - {HighPriority} == {} then Post(c, io)
    else io
  }

  function Cleanup(c: Adapter, io: Flags): Flags {
    Repost(c, io - RECOVERY - {DataSent, StatusSent, StatusDeferred, Incomplete, Aborted, Posted})
  }

  function SendData(io: Flags, autoStatus: bool): Flags {
    io + {DataSent}
    + (if autoStatus then {StatusSent} else {})
    + (if autoStatus && HighPriority in io then {AutoRepost} else {})
  }

  function SendStatus(c: Adapter, io: Flags, autoGood: bool, sense: bool): Flags {
    var repost := HighPriority in io || (AutoRepost in io && !c.exiting && !(c.scsi && !autoGood && sense));
    io - {AutoRepost}
    + (if repost then {AutoRepost} else {})
    + {if DataSent in io then StatusDeferred else StatusSent}
  }

  function NewCommand(io: Flags, local: bool): Flags {
    if local then SendData(io, true) else io
  }

  function TgtReply(c: Adapter, io: Flags, at: Found): Flags {
    if !at.hasCmd then NewCommand(io - {Posted}, at.local)
    else if at.needData then io - {DataSent}
    else if StatusSent in io then Repost(c, io - {StatusSent, DataSent})
    else if DataSent in io && StatusDeferred in io then io - {DataSent, StatusDeferred} + {StatusSent}
    else io - {DataSent}
  }

  function TargetError(c: Adapter, io: Flags, kind: ErrorKind, at: Found): Out {
    match kind
    case PriorityIo => Out(SendStatus(c, {HighPriority}, false, true), {Cleaned})
    case StillActive => Out(SendStatus(c, {}, false, true), {Cleaned})
    case StatusDataNotSent =>
      if c.scsi && (AutoRepost in io || StatusSent in io) then Out(TgtReply(c, io, at), {})
      else Out(Cleanup(c, io - {AutoRepost}), {Cleaned})
    case Gone => Out(Cleanup(c, io - {AutoRepost}), {Cleaned})
  }

  function ReplyError(c: Adapter, was: Flags, kind: ErrorKind, at: Found): Out {
    var io := if kind.PriorityIo? then was + {HighPriority} else was;
    if !({RequestAborted, ReissueRequest} <= io) then TargetError(c, io - {RequestAborted}, kind, at)
    else
      var left := io - {RequestAborted, ReissueRequest, AdjustOffset};
      var adjusted := if AdjustOffset in io then {Adjusted} else {};
      if ConvertTaToTss in left then
        Out(SendStatus(c, left - {ConvertTaToTss, DataSent, StatusSent}, true, false), adjusted + {Converted})
      else if RedoCommand in left then
        Out(NewCommand(left - {RedoCommand, DataSent, StatusSent}, at.local), adjusted + {Redone})
      else Out(left, adjusted + {Reissued})
  }

  /** The reply to an abort of one I/O or of one request. */
  function AbortReply(c: Adapter, io: Flags, at: Found): Out {
    var silent := Aborted in io && DataSent !in io && StatusSent !in io;
    var o := if silent then TargetError(c, io, Gone, at) else Out(io, {});
    if RequestAborted in o.io then o.(io := o.io - RECOVERY) else o
  }

  function Abts(io: Flags): Flags {
    if Aborted in io || Posted in io then io else io - RECOVERY + {Aborted}
  }

  /** The recovery an SRR asks for: which information unit, from which offset, against the transfer in progress. */
  datatype Srr = Srr(rctl: nat, offset: nat, relOff: nat, len: nat)

  const BLOCK_SIZE: nat := 512

  function Wanted(io: Flags, s: Srr): Flags {
    if DataSent in io then
      if s.rctl == 1 || s.rctl == 5 then
        if s.offset < s.relOff then
          (if s.offset % BLOCK_SIZE == 0 then {Incomplete, RedoCommand, ReissueRequest} else {})
        else if s.offset > s.relOff + s.len then {}
        else if s.offset == s.relOff then {ReissueRequest}
        else if s.offset == s.relOff + s.len then {ConvertTaToTss, ReissueRequest}
        else {AdjustOffset, ReissueRequest}
      else if s.rctl == 7 then
        (if StatusSent in io then {ConvertTaToTss, ReissueRequest} else {})
        + (if StatusDeferred in io then {ReissueRequest} else {})
      else {}
    else if StatusSent in io && s.rctl == 7 then {ReissueRequest}
    else {}
  }

  function SrrProcess(io: Flags, s: Srr): Flags {
    if Aborted in io || Posted in io || Wanted(io, s) == {} then io
    else io + Wanted(io, s) + {RequestAborted}
  }

  datatype PriorityReason = NoDisconnect | TaskManagement | TargetBusy | OtherReason

  function HighPriorityReply(c: Adapter, was: Flags, reason: PriorityReason, at: Found): Out {
    var io := was + {HighPriority};
    match reason
    case NoDisconnect | TaskManagement => Out(TgtReply(c, io, at), {})
    case TargetBusy => Out(SendStatus(c, io - {Posted}, false, false), {})
    case OtherReason => TargetError(c, io, PriorityIo, at)
  }

  /** SCST hands over a response: data, status, or both. */
  function Xmit(c: Adapter, io: Flags, data: bool, good: bool, sense: bool): Flags {
    var io1 := if data then SendData(io, good) else io;
    if data && good then io1 else SendStatus(c, io1 + {AutoRepost}, good, sense)
  }

  function Online(c: Adapter, targetMode: bool): Flags {
    if !targetMode then {} else if c.sas then {Posted} else Post(c, {})
  }

  // --------------------------------------------------------------------------
  // Runs
  // --------------------------------------------------------------------------

  datatype Event =
    | TurboReply(at: Found)
    | PriorityReply(reason: PriorityReason, at: Found)
    | ErrorReply(kind: ErrorKind, at: Found)
    | AbortDone(at: Found)
    | AbtsReceived
    | SrrReceived(s: Srr)
    | Response(data: bool, good: bool, sense: bool)
    | ReadyToTransfer
    | IocReset
    | IocOnline(targetMode: bool)

  function Step(c: Adapter, io: Flags, ev: Event): Out {
    match ev
    case TurboReply(at) => Out(TgtReply(c, io, at), {})
    case PriorityReply(reason, at) => HighPriorityReply(c, io, reason, at)
    case ErrorReply(kind, at) => ReplyError(c, io, kind, at)
    case AbortDone(at) => AbortReply(c, io, at)
    case AbtsReceived => Out(Abts(io), {})
    case SrrReceived(s) => Out(SrrProcess(io, s), {})
    case Response(data, good, sense) => Out(Xmit(c, io, data, good, sense), {})
    case ReadyToTransfer => Out(SendData(io, false), {})
    case IocReset => Out({}, {Restarted})
    case IocOnline(targetMode) => Out(Online(c, targetMode), {Restarted})
  }

  /** The buffer's flags before each event and after the last one; the adapter may change from event to event. */
  ghost predicate IsRun(ios: seq<Flags>, evs: seq<(Adapter, Event)>) {
    && |ios| == |evs| + 1
    && ios[0] == {}
    && forall i :: 0 <= i < |evs| ==> ios[i + 1] == Step(evs[i].0, ios[i], evs[i].1).io
  }

  /** An I/O that is being aborted has no recovery in progress. */
  predicate AbortWins(io: Flags) {
    Aborted in io ==> io !! RECOVERY
  }

  const REISSUING: set<Action> := {Adjusted, Reissued, Converted, Redone}

  lemma {:induction false} RepostKeeps(c: Adapter, io: Flags)
    ensures AbortWins(io) ==> AbortWins(Repost(c, io))
    ensures Aborted in io <==> Aborted in Repost(c, io)
  {
    if io - {HighPriority} == {AutoRepost} || io - {HighPriority} == {} {
      assert Aborted !in io - {HighPriority};
    }
  }

  lemma {:induction false} CleanupKeeps(c: Adapter, io: Flags)
    ensures Aborted !in Cleanup(c, io) && Cleanup(c, io) !! RECOVERY
    ensures Cleanup(c, io) !! {DataSent, StatusSent, StatusDeferred, Incomplete}
  {
    RepostKeeps(c, io - RECOVERY - {DataSent, StatusSent, StatusDeferred, Incomplete, Aborted, Posted});
  }

  lemma {:induction false} TgtReplyKeeps(c: Adapter, io: Flags, at: Found)
    ensures AbortWins(io) ==> AbortWins(TgtReply(c, io, at))
    ensures Aborted in io <==> Aborted in TgtReply(c, io, at)
  {
    RepostKeeps(c, io - {StatusSent, DataSent});
  }

  lemma {:induction false} TargetErrorKeeps(c: Adapter, io: Flags, kind: ErrorKind, at: Found)
    ensures AbortWins(io) ==> AbortWins(TargetError(c, io, kind, at).io)
    ensures Aborted in TargetError(c, io, kind, at).io ==> Aborted in io
    ensures Aborted in io && Aborted !in TargetError(c, io, kind, at).io ==>
              Cleaned in TargetError(c, io, kind, at).acts
    ensures TargetError(c, io, kind, at).acts !! REISSUING
  {
    CleanupKeeps(c, io - {AutoRepost});
    TgtReplyKeeps(c, io, at);
  }

  /** What a handler owes to an abort: it starts no recovery, reissues nothing, and ends the abort only by cleaning the
      buffer up or with the adapter restarted. */
  predicate Upholds(was: Flags, io: Flags, acts: set<Action>) {
    AbortWins(was) ==>
      && AbortWins(io)
      && (Aborted in was ==> acts !! REISSUING)
      && (Aborted in was && Aborted !in io ==> Cleaned in acts || Restarted in acts)
  }

  lemma {:induction false} ReplyErrorKeeps(c: Adapter, io: Flags, kind: ErrorKind, at: Found)
    ensures Upholds(io, ReplyError(c, io, kind, at).io, ReplyError(c, io, kind, at).acts)
  {
    hide TargetError;
    var io' := if kind.PriorityIo? then io + {HighPriority} else io;
    TargetErrorKeeps(c, io' - {RequestAborted}, kind, at);
  }

  /** Every handler does what it owes. */
  lemma {:induction false} StepKeeps(c: Adapter, io: Flags, ev: Event)
    ensures Upholds(io, Step(c, io, ev).io, Step(c, io, ev).acts)
  {
    hide TargetError, TgtReply, ReplyError;
    match ev
    case TurboReply(at) => TgtReplyKeeps(c, io, at);
    case PriorityReply(reason, at) =>
      TgtReplyKeeps(c, io + {HighPriority}, at);
      TargetErrorKeeps(c, io + {HighPriority}, PriorityIo, at);
    case ErrorReply(kind, at) => ReplyErrorKeeps(c, io, kind, at);
    case AbortDone(at) => TargetErrorKeeps(c, io, Gone, at);
    case AbtsReceived =>
    case SrrReceived(s) =>
    case Response(data, good, sense) =>
    case ReadyToTransfer =>
    case IocReset =>
    case IocOnline(targetMode) =>
  }

  /** No reachable flag word has ABORTED together with any recovery flag. */
  lemma {:induction false} AbortOverridesRecovery(ios: seq<Flags>, evs: seq<(Adapter, Event)>, n: nat)
    requires IsRun(ios, evs) && n <= |evs|
    ensures AbortWins(ios[n])
  {
    if n > 0 {
      AbortOverridesRecovery(ios, evs, n - 1);
      StepKeeps(evs[n - 1].0, ios[n - 1], evs[n - 1].1);
    }
  }

  /** What event `i` of a run did besides changing flags. */
  ghost function Acts(ios: seq<Flags>, evs: seq<(Adapter, Event)>, i: nat): set<Action>
    requires IsRun(ios, evs) && i < |evs|
  {
    Step(evs[i].0, ios[i], evs[i].1).acts
  }

  lemma {:induction false} AbortedStays(ios: seq<Flags>, evs: seq<(Adapter, Event)>, i: nat, j: nat)
    requires IsRun(ios, evs) && i <= j <= |evs|
    requires Aborted in ios[i]
    requires forall k :: i <= k < j ==> Acts(ios, evs, k) !! {Cleaned, Restarted}
    ensures Aborted in ios[j]
    decreases j
  {
    if i < j {
      AbortedStays(ios, evs, i, j - 1);
      AbortOverridesRecovery(ios, evs, j - 1);
      assert Acts(ios, evs, j - 1) !! {Cleaned, Restarted};
      StepKeeps(evs[j - 1].0, ios[j - 1], evs[j - 1].1);
    }
  }

  /** Over whole runs: from an ABTS that finds the I/O active until the buffer is cleaned up or the adapter
      restarted, the I/O is never reissued, converted or redone, whatever SRRs came before the ABTS or come
      after it. */
  lemma {:induction false} AbortedIsNeverReissued(ios: seq<Flags>, evs: seq<(Adapter, Event)>, i: nat, j: nat)
    requires IsRun(ios, evs) && i < j < |evs|
    requires evs[i].1.AbtsReceived? && Posted !in ios[i]
    requires forall k :: i < k < j ==> Acts(ios, evs, k) !! {Cleaned, Restarted}
    ensures Acts(ios, evs, j) !! REISSUING
  {
    assert Aborted in ios[i + 1];
    AbortedStays(ios, evs, i + 1, j);
    AbortOverridesRecovery(ios, evs, j);
    StepKeeps(evs[j].0, ios[j], evs[j].1);
  }

  /** An SRR does recover an I/O that is not being aborted: accepted, its request aborted, then reissued. */
  lemma {:induction false} SrrRecovers(c: Adapter, io: Flags, s: Srr, kind: ErrorKind, at: Found)
    requires Aborted !in io && Posted !in io && Wanted(io, s) != {}
    ensures Step(c, SrrProcess(io, s), ErrorReply(kind, at)).acts <= REISSUING
    ensures Step(c, SrrProcess(io, s), ErrorReply(kind, at)).acts != {}
    ensures Step(c, Abts(SrrProcess(io, s)), ErrorReply(kind, at)).acts !! REISSUING
  {
    TargetErrorKeeps(c, Abts(SrrProcess(io, s)), kind, at);
  }

  /** Which recovery an SRR gets: how the transfer in progress, or the status, is sent again. */
  datatype Recovery = Whole | Rest | StatusOnly | Again | Rejected

  /** A transfer is sent again from its start, or cut down to the rest behind the offset, or, if the offset is its end,
      replaced by good status; an offset in front of it needs the whole command done again, from a block boundary. An
      SRR for the status has that sent, alone if it went with the data, and behind the data if it is held back. Anything
      else is rejected. */
  function RecoveryFor(io: Flags, s: Srr): Recovery {
    var forData, forStatus := s.rctl == 1 || s.rctl == 5, s.rctl == 7;
    if DataSent in io && forData then
      if s.offset == s.relOff then Whole
      else if s.relOff < s.offset < s.relOff + s.len then Rest
      else if s.offset == s.relOff + s.len then StatusOnly
      else if s.offset < s.relOff && s.offset % 512 == 0 then Again
      else Rejected
    else if DataSent in io && forStatus then
      if StatusSent in io then StatusOnly else if StatusDeferred in io then Whole else Rejected
    else if DataSent !in io && StatusSent in io && forStatus then Whole
    else Rejected
  }

  /** The actions of a recovery. */
  function ActionsOf(r: Recovery): set<Action> {
    match r
    case Whole => {Reissued}
    case Rest => {Adjusted, Reissued}
    case StatusOnly => {Converted}
    case Again => {Redone}
    case Rejected => {}
  }

  /** The flags with which an SRR asks for a recovery. */
  function FlagsFor(r: Recovery): Flags {
    match r
    case Whole => {RequestAborted, ReissueRequest}
    case Rest => {RequestAborted, ReissueRequest, AdjustOffset}
    case StatusOnly => {RequestAborted, ReissueRequest, ConvertTaToTss}
    case Again => {RequestAborted, ReissueRequest, RedoCommand, Incomplete}
    case Rejected => {}
  }

  lemma {:induction false} SrrAsks(io: Flags, s: Srr)
    requires Aborted !in io && Posted !in io
    ensures SrrProcess(io, s) == io + FlagsFor(RecoveryFor(io, s))
  {
  }

  /** The flags of a recovery are gone when it is done. Sent again, the I/O is as it was before the SRR. Turned into
      status, status is out and data is not; done again, neither is. */
  lemma {:induction false} RecoveryDone(c: Adapter, io: Flags, r: Recovery, kind: ErrorKind, at: Found)
    requires io !! RECOVERY && !r.Rejected?
    ensures var o := ReplyError(c, io + FlagsFor(r), kind, at);
            var was := if kind.PriorityIo? then io + {HighPriority} else io;
            && o.acts == ActionsOf(r)
            && (r.Whole? || r.Rest? ==> o.io == was)
            && (r.StatusOnly? ==> o.io == SendStatus(c, was - {DataSent, StatusSent}, true, false))
            && (r.Again? ==> o.io == NewCommand(was + {Incomplete} - {DataSent, StatusSent}, at.local))
  {
    hide TargetError, SendStatus, NewCommand;
    var was := if kind.PriorityIo? then io + {HighPriority} else io;
    var all := if kind.PriorityIo? then io + FlagsFor(r) + {HighPriority} else io + FlagsFor(r);
    var left := all - {RequestAborted, ReissueRequest, AdjustOffset};
    match r
    case Whole => assert left == was;
    case Rest => assert left == was;
    case StatusOnly => assert left - {ConvertTaToTss, DataSent, StatusSent} == was - {DataSent, StatusSent};
    case Again => assert left - {RedoCommand, DataSent, StatusSent} == was + {Incomplete} - {DataSent, StatusSent};
  }

  /** Status for an I/O without data out goes out; data with its own status puts both out. */
  lemma {:induction false} StatusGoesOut(c: Adapter, io: Flags, autoGood: bool, sense: bool)
    ensures DataSent !in io ==> SendStatus(c, io, autoGood, sense) - {AutoRepost} == io - {AutoRepost} + {StatusSent}
    ensures DataSent in io ==> SendStatus(c, io, autoGood, sense) - {AutoRepost} == io - {AutoRepost} + {StatusDeferred}
    ensures SendData(io, true) - {AutoRepost} == io - {AutoRepost} + {DataSent, StatusSent}
    ensures SendData(io, false) == io + {DataSent}
  {
  }

  /** An active I/O with no recovery in progress gets, from an SRR and the reply to the request that it has aborted,
      exactly the recovery that is for it. */
  lemma {:induction false} SrrDoes(c: Adapter, io: Flags, s: Srr, kind: ErrorKind, at: Found)
    requires Aborted !in io && Posted !in io && io !! RECOVERY
    ensures var r := RecoveryFor(io, s);
            var o := Step(c, SrrProcess(io, s), ErrorReply(kind, at));
            var was := if kind.PriorityIo? then io + {HighPriority} else io;
            && (r.Rejected? <==> SrrProcess(io, s) == io)
            && (!r.Rejected? ==> o.acts == ActionsOf(r))
            && (r.Whole? || r.Rest? ==> o.io == was)
            && (r.StatusOnly? ==> o.io - {AutoRepost} == was - {DataSent, AutoRepost} + {StatusSent})
            && (r.Again? && !at.local ==> o.io == was - {DataSent, StatusSent} + {Incomplete})
  {
    hide ReplyError, SrrProcess, RecoveryFor, SendStatus;
    var r := RecoveryFor(io, s);
    var was := if kind.PriorityIo? then io + {HighPriority} else io;
    SrrAsks(io, s);
    if r.Rejected? {
      assert io + {} == io;
    } else {
      RecoveryDone(c, io, r, kind, at);
      StatusGoesOut(c, was - {DataSent, StatusSent}, true, false);
      assert RequestAborted in io + FlagsFor(r) && RequestAborted !in io;
    }
  }
}
