/** The command state machine of the FCoE target, as the sequence of its locked sections, and that machine
    driven in the order in which SCST calls the target. */
module CmdProtocol {
  import opened FcpData

  // --------------------------------------------------------------------------
  // One locked section at a time, in any order whatsoever
  // --------------------------------------------------------------------------

  /** What happened, in order: the state became NEED_DATA, or `scst_rx_data` was called. */
  datatype Mark = Entered | Called(status: RxStatus)

  /** `unexpected` records that the abort handler took its default arm. */
  datatype Machine = Machine(state: CmdState, marks: seq<Mark>, unexpected: bool)

  datatype Section =
    | Set(next: CmdState)                       // ft_set_cmd_state
    | TestAndSet(expected: CmdState, next: CmdState) // ft_test_and_set_cmd_state
    | DataFrame(complete: bool)                 // the locked end of ft_recv_write_data
    | Abort                                     // ft_abort_cmd

  function MoveTo(m: Machine, s: CmdState): Machine {
    if s.NeedData? && !m.state.NeedData? then m.(state := s, marks := m.marks + [Entered])
    else m.(state := s)
  }

  function Deliver(m: Machine, status: RxStatus): Machine {
    m.(state := DataIn, marks := m.marks + [Called(status)])
  }

  function Step(m: Machine, sec: Section): Machine {
    match sec
    case Set(s) => if m.state.Done? then m else MoveTo(m, s)
    case TestAndSet(expected, s) => if m.state == expected then MoveTo(m, s) else m
    case DataFrame(complete) => if complete && m.state.NeedData? then Deliver(m, RxSuccess) else m
    case Abort =>
      (match m.state
       case New | DataIn | Mgmt | CmdRspSent => m
       case NeedData => Deliver(m, RxFatal)
       case MgmtRspSent | Done => m.(state := Done, unexpected := true))
  }

  function Run(m: Machine, secs: seq<Section>): Machine {
    if secs == [] then m else Step(Run(m, secs[..|secs| - 1]), secs[|secs| - 1])
  }

  const ZEROED := Machine(New, [], false)

  /** Entries to NEED_DATA not yet answered by a call of `scst_rx_data`: never negative, never two calls in a row. */
  ghost predicate Alternates(marks: seq<Mark>) {
    forall i :: 0 <= i < |marks| && marks[i].Called? ==> i > 0 && marks[i - 1].Entered?
  }

  ghost predicate Sound(m: Machine) {
    && Alternates(m.marks)
    && (m.state.NeedData? ==> m.marks != [] && m.marks[|m.marks| - 1].Entered?)
  }

  lemma {:induction false} RunSound(m: Machine, secs: seq<Section>)
    requires Sound(m)
    ensures Sound(Run(m, secs))
  {
    if secs != [] {
      RunSound(m, secs[..|secs| - 1]);
    }
  }

  /** However the locked sections interleave, every call of `scst_rx_data` directly answers an entry to
      NEED_DATA of its own, so there is at most one call, good or fatal, between successive entries. */
  lemma {:induction false} AtMostOneCallPerEntry(secs: seq<Section>, i: nat, j: nat)
    requires i < j < |Run(ZEROED, secs).marks|
    requires Run(ZEROED, secs).marks[i].Called? && Run(ZEROED, secs).marks[j].Called?
    ensures exists k :: i < k < j && Run(ZEROED, secs).marks[k].Entered?
  {
    RunSound(ZEROED, secs);
    assert Run(ZEROED, secs).marks[j - 1].Entered?;
  }

  /** Section `i` finds the command waiting for data and is of the kind that makes the target tell SCST `status`: the
      frame that completes the data for success, an abort for failure. */
  ghost predicate Causes(m: Machine, secs: seq<Section>, i: nat, status: RxStatus) {
    && i < |secs|
    && Run(m, secs[..i]).state.NeedData?
    && secs[i] == if status.RxSuccess? then DataFrame(true) else Abort
  }

  /** SCST is told of success only because the data is complete, and of failure only because of an abort; and it is told
      whenever one of these finds the command waiting. */
  lemma {:induction false} ToldWhatHappened(m: Machine, secs: seq<Section>, status: RxStatus)
    ensures Called(status) in Run(m, secs).marks
            <==> Called(status) in m.marks || exists i: nat :: Causes(m, secs, i, status)
  {
    if secs != [] {
      var n := |secs| - 1;
      var front := secs[..n];
      ToldWhatHappened(m, front, status);
      assert forall i :: 0 <= i <= n ==> front[..i] == secs[..i];
      assert forall i: nat :: i < n ==> (Causes(m, front, i, status) <==> Causes(m, secs, i, status));
      var r := Run(m, front);
      assert Called(status) in Step(r, secs[n]).marks <==> Called(status) in r.marks || Causes(m, secs, n, status);
    }
  }

  /** Without a frame that completes the data SCST is never told of success. */
  lemma {:induction false} NoDataNoSuccess(m: Machine, secs: seq<Section>)
    requires Called(RxSuccess) !in m.marks && DataFrame(true) !in secs
    ensures Called(RxSuccess) !in Run(m, secs).marks
  {
    ToldWhatHappened(m, secs, RxSuccess);
  }

  /** DONE is absorbing: the only section that could leave it is a test-and-set that expects DONE, which the
      source warns about. */
  lemma {:induction false} DoneAbsorbs(m: Machine, secs: seq<Section>)
    requires m.state.Done?
    requires forall i :: 0 <= i < |secs| && secs[i].TestAndSet? ==> !secs[i].expected.Done?
    ensures Run(m, secs).state.Done? && Run(m, secs).marks == m.marks
  {
    if secs != [] {
      DoneAbsorbs(m, secs[..|secs| - 1]);
    }
  }

  // --------------------------------------------------------------------------
  // The sections of a SCSI command, as its calls issue them
  // --------------------------------------------------------------------------

  /** A call that is inside the target: transfer ready before its frame is sent, or a response with the state it found
      on entry. */
  datatype InFlight = Requesting | Replying(found: CmdState)

  /** A command and the calls that are inside the target on its behalf, any number of them at once. */
  datatype Traffic = Traffic(m: Machine, inside: seq<InFlight>)

  datatype Move =
    | XferRdyEnters                              // ft_send_xfer_rdy up to its test-and-set
    | XferRdyLeaves(i: nat, sent: bool)          // and what it does once the frame is sent or not
    | ResponseEnters                             // ft_send_response up to its state change
    | ResponseLeaves(i: nat, failed: bool)       // and its way out, restoring the state it found if it failed
    | DataMove(complete: bool)
    | AbortMove                                  // timeout, exchange error, or aborted on transmission

  function Remove(inside: seq<InFlight>, i: nat): seq<InFlight>
    requires i < |inside|
  {
    inside[..i] + inside[i + 1..]
  }

  /** The locked section a move goes through, if any. */
  function SectionOf(t: Traffic, mv: Move): (secs: seq<Section>)
    ensures |secs| <= 1
  {
    match mv
    case XferRdyEnters => [TestAndSet(New, NeedData)]
    case XferRdyLeaves(i, sent) => if i < |t.inside| && t.inside[i].Requesting? && !sent then [Set(New)] else []
    case ResponseEnters => [Set(CmdRspSent)]
    case ResponseLeaves(i, failed) =>
      if i < |t.inside| && t.inside[i].Replying? && failed then [Set(t.inside[i].found)] else []
    case DataMove(complete) => [DataFrame(complete)]
    case AbortMove => [Abort]
  }

  function Act(t: Traffic, mv: Move): Traffic {
    var inside :=
      match mv
      case XferRdyEnters => t.inside + [Requesting]
      case XferRdyLeaves(i, _) => if i < |t.inside| && t.inside[i].Requesting? then Remove(t.inside, i) else t.inside
      case ResponseEnters => t.inside + [Replying(t.m.state)]
      case ResponseLeaves(i, _) => if i < |t.inside| && t.inside[i].Replying? then Remove(t.inside, i) else t.inside
      case _ => t.inside;
    Traffic(Run(t.m, SectionOf(t, mv)), inside)
  }

  function Acts(moves: seq<Move>): Traffic {
    if moves == [] then Traffic(ZEROED, []) else Act(Acts(moves[..|moves| - 1]), moves[|moves| - 1])
  }

  /** The sections of a whole run of moves, in order. */
  function SectionsOf(moves: seq<Move>): seq<Section> {
    if moves == [] then []
    else SectionsOf(moves[..|moves| - 1]) + SectionOf(Acts(moves[..|moves| - 1]), moves[|moves| - 1])
  }

  predicate ScsiState(s: CmdState) {
    s.New? || s.NeedData? || s.DataIn? || s.CmdRspSent?
  }

  /** A SCSI command, with any number of responses and transfer readies overlapping each other, data, timeouts and
      exchange errors in any way, is never in a management state or DONE, although a failing response writes back
      whatever state it found; so the default arm of the abort handler is dead for it. */
  lemma {:induction false} ScsiStaysScsi(moves: seq<Move>)
    ensures ScsiState(Acts(moves).m.state) && !Acts(moves).m.unexpected
    ensures forall i :: 0 <= i < |Acts(moves).inside| && Acts(moves).inside[i].Replying? ==>
              ScsiState(Acts(moves).inside[i].found)
  {
    if moves != [] {
      ScsiStaysScsi(moves[..|moves| - 1]);
      var t := Acts(moves[..|moves| - 1]);
      var mv := moves[|moves| - 1];
      var secs := SectionOf(t, mv);
      if secs != [] {
        assert secs[..0] == [];
        assert Run(t.m, secs) == Step(t.m, secs[0]);
      }
    }
  }

  lemma {:induction false} RunEmpty(m: Machine)
    ensures Run(m, []) == m
  {
  }

  lemma {:induction false} RunAppend(m: Machine, s: seq<Section>, more: seq<Section>)
    requires |more| <= 1
    ensures Run(m, s + more) == Run(Run(m, s), more)
  {
    if more == [] {
      assert s + more == s;
    } else {
      assert (s + more)[..|s|] == s && more[..0] == [];
    }
  }

  /** What the calls of a command do together is a run of its locked sections, so in every such run, too, SCST is told
      at most once, good or fatal, between successive entries to NEED_DATA. */
  lemma {:induction false} CallsAreSections(moves: seq<Move>)
    ensures Acts(moves).m == Run(ZEROED, SectionsOf(moves))
    ensures Alternates(Acts(moves).m.marks)
  {
    hide SectionOf, Run, Alternates;
    if moves != [] {
      CallsAreSections(moves[..|moves| - 1]);
      var t := Acts(moves[..|moves| - 1]);
      RunAppend(ZEROED, SectionsOf(moves[..|moves| - 1]), SectionOf(t, moves[|moves| - 1]));
    }
    RunEmpty(ZEROED);
    RunSound(ZEROED, SectionsOf(moves));
  }

  // --------------------------------------------------------------------------
  // The sections of a task management request
  // --------------------------------------------------------------------------

  datatype TmMove = TmDone | TmAbort

  /** The request is received, completed by SCST, and, if anything ever does that to it, aborted. */
  function TmActs(moves: seq<TmMove>): Machine {
    if moves == [] then Step(ZEROED, Set(Mgmt))
    else Step(TmActs(moves[..|moves| - 1]), if moves[|moves| - 1].TmDone? then Set(MgmtRspSent) else Abort)
  }

  predicate LateAbortAt(moves: seq<TmMove>, i: nat, j: nat) {
    i < j < |moves| && moves[i].TmDone? && moves[j].TmAbort?
  }

  ghost predicate AbortedLate(moves: seq<TmMove>) {
    exists i: nat, j: nat :: LateAbortAt(moves, i, j)
  }

  lemma {:induction false} LateAbortGrows(moves: seq<TmMove>)
    requires moves != []
    ensures var front := moves[..|moves| - 1];
            AbortedLate(moves) <==> AbortedLate(front) || (moves[|moves| - 1].TmAbort? && TmDone in front)
  {
    var n := |moves| - 1;
    var front := moves[..n];
    if AbortedLate(front) {
      var i: nat, j: nat :| LateAbortAt(front, i, j);
      assert LateAbortAt(moves, i, j);
    }
    if moves[n].TmAbort? && TmDone in front {
      var i :| 0 <= i < n && front[i] == TmDone;
      assert LateAbortAt(moves, i, n);
    }
    if AbortedLate(moves) {
      var i: nat, j: nat :| LateAbortAt(moves, i, j);
      assert front[i] == moves[i];
      if j < n {
        assert LateAbortAt(front, i, j);
      }
    }
  }

  /** A task management request never enters a data state and never calls `scst_rx_data`. It meets the default arm of
      the abort handler, and ends up in DONE, exactly if it is aborted after it has been completed. */
  lemma {:induction false} ManagementStaysManagement(moves: seq<TmMove>)
    ensures var m := TmActs(moves);
            && m.marks == []
            && (m.unexpected <==> AbortedLate(moves))
            && m.state == if AbortedLate(moves) then Done else if TmDone in moves then MgmtRspSent else Mgmt
  {
    if moves != [] {
      var n := |moves| - 1;
      ManagementStaysManagement(moves[..n]);
      LateAbortGrows(moves);
      assert moves == moves[..n] + [moves[n]];
    }
  }

  // --------------------------------------------------------------------------
  // The same machine under SCST's call order
  // --------------------------------------------------------------------------

  /** How `seq_send` came back: accepted, -ENOMEM, or any other error. */
  datatype SendOutcome = Accepted | NoMemory | Failed

  /** Where SCST is with the command: may ask for data or answer; is inside `ft_send_xfer_rdy`, and may have been told
      about data meanwhile; waits for data; may only answer; is inside `ft_send_response`, which remembers the state
      it found; has been told the command is finished. */
  datatype Phase = Fresh | Asking(told: bool) | Waiting | Executing | Answering(found: CmdState) | Over

  datatype Cmd = Cmd(m: Machine, phase: Phase)

  datatype Event =
    | XferRdyBegin(allocOk: bool)
    | XferRdyEnd(sent: SendOutcome)
    | Data(complete: bool)
    | Trouble                        // timeout or exchange error
    | ResponseBegin
    | ResponseEnd(res: TgtRes)

  /** Data frames, timeouts and exchange errors come at any time; SCST's own calls come in order. */
  predicate Allowed(c: Cmd, ev: Event) {
    match ev
    case XferRdyBegin(_) => c.phase.Fresh?
    case XferRdyEnd(_) => c.phase.Asking?
    case Data(_) => true
    case Trouble => true
    case ResponseBegin => c.phase.Fresh? || c.phase.Executing?
    case ResponseEnd(_) => c.phase.Answering?
  }

  /** `scst_rx_data` wakes SCST up. */
  function Wake(c: Cmd, m: Machine): Cmd {
    if |m.marks| == |c.m.marks| then c.(m := m)
    else if c.phase.Waiting? then Cmd(m, Executing)
    else if c.phase.Asking? then Cmd(m, Asking(true))
    else c.(m := m)
  }

  function Advance(c: Cmd, ev: Event): Cmd {
    match ev
    case XferRdyBegin(allocOk) =>
      if !allocOk then c
      else Cmd(Step(c.m, TestAndSet(New, NeedData)), Asking(false))
    case XferRdyEnd(sent) =>
      if !c.phase.Asking? then c
      else (match sent
            case Accepted => c.(phase := if c.phase.told then Executing else Waiting)
            case NoMemory => Cmd(Step(c.m, Set(New)), Fresh)
            case Failed => Cmd(Step(c.m, Set(New)), Executing))
    case Data(complete) => Wake(c, Step(c.m, DataFrame(complete)))
    case Trouble => Wake(c, Step(c.m, Abort))
    case ResponseBegin =>
      Cmd(Step(c.m, Set(CmdRspSent)), Answering(c.m.state))
    case ResponseEnd(res) =>
      if !c.phase.Answering? then c
      else if res.Success? then c.(phase := Over)
      else Cmd(Step(c.m, Set(c.phase.found)), if res.QueueFull? then Executing else Over)
  }

  const ARRIVED := Cmd(ZEROED, Fresh)

  function Outcome(evs: seq<Event>): Cmd {
    if evs == [] then ARRIVED else Advance(Outcome(evs[..|evs| - 1]), evs[|evs| - 1])
  }

  /** A run the environment can produce. */
  ghost predicate Orderly(evs: seq<Event>) {
    forall i :: 0 <= i < |evs| ==> Allowed(Outcome(evs[..i]), evs[i])
  }

  lemma {:induction false} OrderlyFront(evs: seq<Event>)
    requires Orderly(evs) && evs != []
    ensures Orderly(evs[..|evs| - 1]) && Allowed(Outcome(evs[..|evs| - 1]), evs[|evs| - 1])
  {
    hide Outcome, Allowed;
    var front := evs[..|evs| - 1];
    assert forall i :: 0 <= i < |front| ==> front[..i] == evs[..i] && front[i] == evs[i];
  }

  lemma {:induction false} OrderlyMore(evs: seq<Event>, ev: Event)
    requires Orderly(evs) && Allowed(Outcome(evs), ev)
    ensures Orderly(evs + [ev]) && Outcome(evs + [ev]) == Advance(Outcome(evs), ev)
  {
    hide Allowed, Advance;
    var all := evs + [ev];
    assert all[..|evs|] == evs;
    forall i | 0 <= i < |all| ensures Allowed(Outcome(all[..i]), all[i]) {
      if i < |evs| {
        assert all[..i] == evs[..i] && all[i] == evs[i];
      }
    }
  }

  /** SCST's view and the command state, in step. */
  predicate InStep(c: Cmd) {
    && !c.m.unexpected
    && (match c.phase
        case Fresh => c.m.state.New?
        case Asking(told) => c.m.state == if told then DataIn else NeedData
        case Waiting => c.m.state.NeedData?
        case Executing => c.m.state.New? || c.m.state.DataIn?
        case Answering(found) => c.m.state.CmdRspSent? && (found.New? || found.DataIn?)
        case Over => c.m.state.New? || c.m.state.DataIn? || c.m.state.CmdRspSent?)
  }

  /** The WARN_ON of `ft_send_xfer_rdy`, or that of `ft_send_response`, fires. */
  predicate Warns(c: Cmd, ev: Event) {
    match ev
    case XferRdyBegin(allocOk) => allocOk && !c.m.state.New?
    case ResponseBegin => !c.m.state.New? && !c.m.state.DataIn?
    case _ => false
  }

  lemma {:induction false} AdvanceKeepsStep(c: Cmd, ev: Event)
    requires InStep(c) && Allowed(c, ev)
    ensures InStep(Advance(c, ev)) && !Warns(c, ev)
  {
  }

  /** Under SCST's call order, with QUEUE_FULL retries and with data, timeouts and exchange errors arriving at any
      moment, also while a response or a transfer ready is being sent: neither WARN_ON fires, the abort handler never
      meets an unexpected state, and the command waits for data exactly while SCST does. */
  lemma {:induction false} OrderlyRunsNeverWarn(evs: seq<Event>)
    requires Orderly(evs)
    ensures InStep(Outcome(evs))
    ensures forall i :: 0 <= i < |evs| ==> !Warns(Outcome(evs[..i]), evs[i])
    ensures !Outcome(evs).m.unexpected
    ensures Outcome(evs).m.state.NeedData? <==> Outcome(evs).phase.Waiting? || Outcome(evs).phase == Asking(false)
  {
    if evs != [] {
      hide Advance, Allowed, Orderly, Warns;
      var front := evs[..|evs| - 1];
      assert forall i :: 0 <= i < |front| ==> front[..i] == evs[..i] && front[i] == evs[i];
      OrderlyFront(evs);
      OrderlyRunsNeverWarn(front);
      AdvanceKeepsStep(Outcome(front), evs[|evs| - 1]);
    }
  }

  /** SCST's calls as moves of calls that may overlap; in its order at most one is inside the target. */
  function MovesOf(evs: seq<Event>): seq<Move> {
    if evs == [] then []
    else
      MovesOf(evs[..|evs| - 1]) +
      (match evs[|evs| - 1]
       case XferRdyBegin(allocOk) => if allocOk then [XferRdyEnters] else []
       case XferRdyEnd(sent) => [XferRdyLeaves(0, sent.Accepted?)]
       case Data(complete) => [DataMove(complete)]
       case Trouble => [AbortMove]
       case ResponseBegin => [ResponseEnters]
       case ResponseEnd(res) => [ResponseLeaves(0, !res.Success?)])
  }

  function InsideOf(phase: Phase): seq<InFlight> {
    match phase
    case Asking(_) => [Requesting]
    case Answering(found) => [Replying(found)]
    case _ => []
  }

  lemma {:induction false} RunOne(m: Machine, sec: Section)
    ensures Run(m, [sec]) == Step(m, sec)
  {
    assert [sec][..0] == [];
  }

  /** One event is the move that stands for it. */
  lemma {:induction false} AdvanceIsAct(c: Cmd, ev: Event, mv: Move)
    requires Allowed(c, ev)
    requires match ev
             case XferRdyBegin(allocOk) => allocOk && mv == XferRdyEnters
             case XferRdyEnd(sent) => mv == XferRdyLeaves(0, sent.Accepted?)
             case Data(complete) => mv == DataMove(complete)
             case Trouble => mv == AbortMove
             case ResponseBegin => mv == ResponseEnters
             case ResponseEnd(res) => mv == ResponseLeaves(0, !res.Success?)
    ensures Act(Traffic(c.m, InsideOf(c.phase)), mv) == Traffic(Advance(c, ev).m, InsideOf(Advance(c, ev).phase))
  {
    hide Run;
    var t := Traffic(c.m, InsideOf(c.phase));
    var secs := SectionOf(t, mv);
    RunEmpty(c.m);
    if secs != [] {
      assert secs == [secs[0]];
      RunOne(c.m, secs[0]);
    }
  }

  /** The machine under SCST's call order is a case of the machine with overlapping calls. */
  lemma {:induction false} OrderlyRunsAreCalls(evs: seq<Event>)
    requires Orderly(evs)
    ensures Acts(MovesOf(evs)) == Traffic(Outcome(evs).m, InsideOf(Outcome(evs).phase))
  {
    if evs != [] {
      hide Advance, Allowed, Orderly, Act, InsideOf;
      var n := |evs| - 1;
      OrderlyFront(evs);
      OrderlyRunsAreCalls(evs[..n]);
      var front, all := MovesOf(evs[..n]), MovesOf(evs);
      if all == front {
        NothingBegun(Outcome(evs[..n]), evs[n]);
      } else {
        assert |all| == |front| + 1 && all[..|front|] == front;
        AdvanceIsAct(Outcome(evs[..n]), evs[n], all[|front|]);
      }
    } else {
      assert InsideOf(ARRIVED.phase) == [];
    }
  }

  lemma {:induction false} NothingBegun(c: Cmd, ev: Event)
    requires ev == XferRdyBegin(false)
    ensures Advance(c, ev) == c
  {
  }

  /** A call with nothing in between. Transfer ready leaves a new command waiting for data if it went out, and new
      otherwise; a response leaves a command answered if it went out, and otherwise as it was. */
  lemma {:induction false} UndisturbedCalls(c: Cmd, sent: SendOutcome, res: TgtRes)
    requires InStep(c)
    ensures c.phase.Fresh? ==>
              var d := Advance(Advance(c, XferRdyBegin(true)), XferRdyEnd(sent));
              && d.m.state == (if sent.Accepted? then NeedData else New)
              && d.phase == (if sent.Accepted? then Waiting else if sent.NoMemory? then Fresh else Executing)
    ensures c.phase.Fresh? || c.phase.Executing? ==>
              var d := Advance(Advance(c, ResponseBegin), ResponseEnd(res));
              && d.m.state == (if res.Success? then CmdRspSent else c.m.state)
              && d.m.marks == c.m.marks
              && d.phase == (if res.QueueFull? then Executing else Over)
  {
  }

  // --------------------------------------------------------------------------
  // How often SCST is told
  // --------------------------------------------------------------------------

  /** A transfer ready comes back for want of memory, so that SCST will try again, although SCST has been told meanwhile
      that the command failed. */
  predicate Overtaken(c: Cmd, ev: Event) {
    ev.XferRdyEnd? && ev.sent.NoMemory? && c.phase.Asking? && c.phase.told
  }

  ghost predicate NeverOvertaken(evs: seq<Event>) {
    forall i :: 0 <= i < |evs| ==> !Overtaken(Outcome(evs[..i]), evs[i])
  }

  function Calls(marks: seq<Mark>): nat {
    if marks == [] then 0 else Calls(marks[..|marks| - 1]) + if marks[|marks| - 1].Called? then 1 else 0
  }

  /** SCST has been told at most once, and not at all while it may still ask. */
  predicate ToldOnce(c: Cmd) {
    match c.phase
    case Fresh => Calls(c.m.marks) == 0
    case Asking(told) => Calls(c.m.marks) == if told then 1 else 0
    case Waiting => Calls(c.m.marks) == 0
    case _ => Calls(c.m.marks) <= 1
  }

  lemma {:induction false} CallsAppend(marks: seq<Mark>, x: Mark)
    ensures Calls(marks + [x]) == Calls(marks) + if x.Called? then 1 else 0
  {
    assert (marks + [x])[..|marks|] == marks;
  }

  /** An overtaken transfer ready is the one event after which SCST may be told again. */
  lemma {:induction false} AdvanceKeepsToldOnce(c: Cmd, ev: Event)
    requires InStep(c) && ToldOnce(c) && Allowed(c, ev)
    ensures ToldOnce(Advance(c, ev)) <==> !Overtaken(c, ev)
  {
    hide Calls;
    CallsAppend(c.m.marks, Entered);
    CallsAppend(c.m.marks, Called(RxSuccess));
    CallsAppend(c.m.marks, Called(RxFatal));
  }

  /** As long as no transfer ready is overtaken, SCST is told about the data, good or fatal, at most once in the life of
      the command. */
  lemma {:induction false} OrderlyRunsTellOnce(evs: seq<Event>)
    requires Orderly(evs) && NeverOvertaken(evs)
    ensures ToldOnce(Outcome(evs)) && Calls(Outcome(evs).m.marks) <= 1
  {
    if evs != [] {
      hide Advance, Allowed, Calls;
      var front := evs[..|evs| - 1];
      assert forall i :: 0 <= i < |front| ==> front[..i] == evs[..i] && front[i] == evs[i];
      OrderlyFront(evs);
      OrderlyRunsTellOnce(front);
      OrderlyRunsNeverWarn(front);
      AdvanceKeepsToldOnce(Outcome(front), evs[|evs| - 1]);
    }
  }

  /** And the condition is exact: every run up to its first overtaken transfer ready goes on, with SCST's retry and one
      more timeout, to a run that tells SCST twice. */
  lemma {:induction false} OvertakenTellsTwice(evs: seq<Event>)
    requires evs != [] && Orderly(evs) && NeverOvertaken(evs[..|evs| - 1])
    requires Overtaken(Outcome(evs[..|evs| - 1]), evs[|evs| - 1])
    ensures var all := evs + [XferRdyBegin(true), Trouble]; Orderly(all) && Calls(Outcome(all).m.marks) == 2
  {
    hide Calls, Advance, Allowed, Orderly, InStep, ToldOnce, Overtaken;
    var front := evs[..|evs| - 1];
    OrderlyFront(evs);
    OrderlyRunsTellOnce(front);
    OrderlyRunsNeverWarn(front);
    OvertakenRetries(Outcome(front), evs[|evs| - 1]);
    OrderlyMore(evs, XferRdyBegin(true));
    OrderlyMore(evs + [XferRdyBegin(true)], Trouble);
    assert evs + [XferRdyBegin(true)] + [Trouble] == evs + [XferRdyBegin(true), Trouble];
  }

  lemma {:induction false} OvertakenRetries(c: Cmd, ev: Event)
    requires InStep(c) && ToldOnce(c) && Overtaken(c, ev)
    ensures var d := Advance(c, ev);
            var asked := Advance(d, XferRdyBegin(true));
            && Allowed(d, XferRdyBegin(true)) && Allowed(asked, Trouble)
            && Calls(Advance(asked, Trouble).m.marks) == 2
  {
    hide Calls;
    var asked := Advance(Advance(c, ev), XferRdyBegin(true));
    CallsAppend(c.m.marks, Entered);
    CallsAppend(asked.m.marks, Called(RxFatal));
  }

  /** Such a run of a command that has just arrived: asked for data, timed out meanwhile, no memory, asked again, timed
      out again. */
  lemma {:induction false} ArrivedToldTwice()
    ensures var evs := [XferRdyBegin(true), Trouble, XferRdyEnd(NoMemory), XferRdyBegin(true), Trouble];
            Orderly(evs) && Calls(Outcome(evs).m.marks) == 2
  {
    hide Orderly, NeverOvertaken, Calls, Outcome;
    var none: seq<Event> := [];
    var asked, told := none + [XferRdyBegin(true)], [XferRdyBegin(true), Trouble];
    var failed := told + [XferRdyEnd(NoMemory)];
    ArrivedOrderly();
    OrderlyMore(none, XferRdyBegin(true));
    OrderlyMore(asked, Trouble);
    assert asked + [Trouble] == told;
    OrderlyMore(told, XferRdyEnd(NoMemory));
    assert failed[..2] == told;
    ToldNotOvertaken();
    OvertakenTellsTwice(failed);
    assert failed + [XferRdyBegin(true), Trouble]
        == [XferRdyBegin(true), Trouble, XferRdyEnd(NoMemory), XferRdyBegin(true), Trouble];
  }

  lemma {:induction false} ArrivedOrderly()
    ensures Orderly([]) && Outcome([]) == ARRIVED
  {
  }

  lemma {:induction false} ToldNotOvertaken()
    ensures NeverOvertaken([XferRdyBegin(true), Trouble])
  {
  }
}
