/** The sense cache of the MPT target on a parallel SCSI bus: sense data that could not travel with its status
    is kept, per initiator, for a REQUEST SENSE that the driver then answers itself. */
module SenseCache {
  import opened Buffers

  /** SCSI_SENSE_BUFFERSIZE. */
  const BUFFER_SIZE: nat := 96

  datatype Pending = Idle | Attempt | NotSent | HandleRq

  /** The one command an initiator may have outstanding (tagged queueing is off): at SCST; answered, its status
      on the way, with the sense data it carries; or served by the driver from the cache. */
  datatype Outstanding = Nothing | AtScst(id: nat) | Answered(id: nat, sense: seq<byte>) | Local(id: nat)

  /** A REQUEST SENSE served from the cache: allocation length, the bytes sent, and the sense data of the command
      completed just before it. */
  datatype Service = Service(alloc: nat, bytes: seq<byte>, owed: seq<byte>)

  /** `toScst`, `done`, `local` and `freed` list commands in order: handed to SCST, reported by
      `scst_tgt_cmd_done`, taken by the driver, and their containers freed. `owed` is the sense data of the last
      completed command if it did not reach the initiator. */
  datatype Cache = Cache(pending: Pending, buffer: seq<byte>, out: Outstanding, owed: seq<byte>,
                         toScst: seq<nat>, done: seq<nat>, local: seq<nat>, freed: seq<nat>, served: seq<Service>)

  /** The response information unit of the command buffer as earlier commands left it: its sense-length-valid bit and
      its sense area. Neither is cleared for a new command. */
  datatype Iu = Iu(valid: bool, area: seq<byte>)

  /** `Respond` is SCST's answer: the status, and the sense data if there is valid sense data. */
  datatype Event =
    | Command(id: nat, requestSense: bool, alloc: nat, containerOk: bool, scstOk: bool)
    | Respond(good: bool, sense: seq<byte>, iu: Iu)
    | Completed(notSent: bool)      // the reply to the status, with or without STS_DATA_NOT_SENT

  function Zeros(n: nat): (z: seq<byte>)
    ensures |z| == n
  {
    if n == 0 then [] else Zeros(n - 1) + [0]
  }

  function Fresh(): Cache {
    Cache(Idle, Zeros(BUFFER_SIZE), Nothing, [], [], [], [], [], [])
  }

  /** One command at a time, SCST answers what it was given, with sense data that fits the response, and the adapter
      completes what it was given. */
  predicate Allowed(c: Cache, ev: Event) {
    match ev
    case Command(_, _, _, _, _) => c.out.Nothing?
    case Respond(_, sense, iu) => c.out.AtScst? && |sense| <= Min(|iu.area|, BUFFER_SIZE)
    case Completed(_) => c.out.Answered? || c.out.Local?
  }

  function Smallest(a: nat, b: nat, c: nat): nat {
    Min(Min(a, b), c)
  }

  function ToScst(c: Cache, ev: Event): Cache
    requires ev.Command?
  {
    if ev.scstOk then c.(pending := Idle, out := AtScst(ev.id), toScst := c.toScst + [ev.id], owed := [])
    else c.(pending := Idle, owed := [])
  }

  function Serve(c: Cache, ev: Event): Cache
    requires ev.Command? && |c.buffer| == BUFFER_SIZE
  {
    var n := Smallest(ev.alloc, BUFFER_SIZE, c.buffer[7] as int + 8);
    c.(out := Local(ev.id), local := c.local + [ev.id],
       served := c.served + [Service(ev.alloc, c.buffer[..n], c.owed)])
  }

  /** The beginning of the response's sense area, once the command's sense data has been put there. */
  function Cached(sense: seq<byte>, iu: Iu): (b: seq<byte>)
    requires |sense| <= |iu.area|
    ensures |b| == Min(|iu.area|, BUFFER_SIZE)
    ensures |sense| <= BUFFER_SIZE ==> sense <= b
  {
    (sense + iu.area[|sense|..])[..Min(|iu.area|, BUFFER_SIZE)]
  }

  function Step(c: Cache, ev: Event): Cache {
    if |c.buffer| != BUFFER_SIZE then c else
    match ev
    case Command(_, requestSense, _, containerOk, _) =>
      if c.pending.HandleRq? && requestSense && containerOk then Serve(c, ev) else ToScst(c, ev)
    case Respond(good, sense, iu) =>
      if !c.out.AtScst? || |sense| > |iu.area| then c
      else if good || (sense == [] && !iu.valid) then c.(out := Answered(c.out.id, []))
      else
        var cached := Cached(sense, iu);
        c.(pending := Attempt, buffer := cached + c.buffer[|cached|..], out := Answered(c.out.id, sense))
    case Completed(notSent) =>
      if !(c.out.Answered? || c.out.Local?) then c
      else
        var sense := if c.out.Answered? then c.out.sense else [];
        var id := c.out.id;
        (match if notSent && c.pending.Attempt? then NotSent else c.pending
         case NotSent => c.(pending := HandleRq, out := Nothing, done := c.done + [id], owed := sense)
         case HandleRq => c.(pending := Idle, out := Nothing, freed := c.freed + [id], owed := [])
         case _ => c.(pending := Idle, out := Nothing, done := c.done + [id], owed := []))
  }

  function Run(evs: seq<Event>): Cache {
    if evs == [] then Fresh() else Step(Run(evs[..|evs| - 1]), evs[|evs| - 1])
  }

  ghost predicate Orderly(evs: seq<Event>) {
    forall i :: 0 <= i < |evs| ==> Allowed(Run(evs[..i]), evs[i])
  }

  /** As far as the sense data goes, the bytes sent are its beginning; their number is the smallest of the allocation
      length, the buffer size and what the length byte says, which is not the sense data's own if that is short. */
  predicate Right(s: Service) {
    && |s.bytes| <= s.alloc
    && |s.owed| <= BUFFER_SIZE
    && (if |s.owed| > 7 then |s.bytes| == Smallest(s.alloc, BUFFER_SIZE, s.owed[7] as int + 8)
        else |s.bytes| == s.alloc || |s.bytes| >= 8)
    && s.bytes[..Min(|s.bytes|, |s.owed|)] == s.owed[..Min(|s.bytes|, |s.owed|)]
  }

  ghost predicate Inv(c: Cache) {
    && |c.buffer| == BUFFER_SIZE
    && c.owed <= c.buffer
    && c.toScst == c.done + (if c.out.AtScst? || c.out.Answered? then [c.out.id] else [])
    && c.local == c.freed + (if c.out.Local? then [c.out.id] else [])
    && (forall i :: 0 <= i < |c.served| ==> Right(c.served[i]))
    && (match c.out
        case Nothing => c.pending.HandleRq? || (c.pending.Idle? && c.owed == [])
        case AtScst(_) => c.pending.Idle? && c.owed == []
        case Answered(_, sense) =>
          && c.owed == []
          && (if c.pending.Attempt? then sense <= c.buffer else c.pending.Idle? && sense == [])
        case Local(_) => c.pending.HandleRq?)
  }

  lemma {:induction false} ServeKeeps(c: Cache, ev: Event)
    requires Inv(c) && Allowed(c, ev) && ev.Command? && c.pending.HandleRq?
    ensures Inv(Serve(c, ev))
  {
    var n := Smallest(ev.alloc, BUFFER_SIZE, c.buffer[7] as int + 8);
    var s := Service(ev.alloc, c.buffer[..n], c.owed);
    assert Right(s);
  }

  lemma {:induction false} StepKeeps(c: Cache, ev: Event)
    requires Inv(c) && Allowed(c, ev)
    ensures Inv(Step(c, ev))
  {
    match ev
    case Command(_, requestSense, _, containerOk, _) =>
      if c.pending.HandleRq? && requestSense && containerOk {
        ServeKeeps(c, ev);
      }
    case Respond(_, _, _) =>
    case Completed(notSent) =>
  }

  /** Over every orderly run: `scst_tgt_cmd_done` has been called once for each command that went to SCST and is
      not still open, in order, and for no other; the containers freed are those of the commands the driver
      served, once each, and each only when its own completion comes. */
  lemma {:induction false} RunKeeps(evs: seq<Event>)
    requires Orderly(evs)
    ensures Inv(Run(evs))
  {
    if evs != [] {
      hide Run, Orderly, Step, Allowed, Inv;
      OrderlyFront(evs);
      RunKeeps(evs[..|evs| - 1]);
      StepKeeps(Run(evs[..|evs| - 1]), evs[|evs| - 1]);
    }
  }

  // --------------------------------------------------------------------------
  // Which commands the driver answers
  // --------------------------------------------------------------------------

  /** A command that is no REQUEST SENSE goes to SCST, whatever is cached. */
  lemma {:induction false} OthersGoToScst(c: Cache, ev: Event)
    requires |c.buffer| == BUFFER_SIZE && ev.Command? && !ev.requestSense
    ensures Step(c, ev).served == c.served && Step(c, ev).local == c.local
    ensures Step(c, ev).toScst == c.toScst + (if ev.scstOk then [ev.id] else [])
    ensures Step(c, ev).pending.Idle?
  {
  }

  /** A response with a bad status whose information unit says that it has sense data. */
  predicate CarriesSense(ev: Event) {
    ev.Respond? && !ev.good && (ev.sense != [] || ev.iu.valid)
  }

  /** The last two events are such a response and its completion, without the sense data. */
  predicate SenseStayed(evs: seq<Event>) {
    |evs| >= 2 && evs[|evs| - 1] == Completed(true) && CarriesSense(evs[|evs| - 2])
  }

  predicate Answerable(ev: Event) {
    ev.Command? && ev.requestSense && ev.containerOk
  }

  /** A REQUEST SENSE: its id, its allocation length, and the sense data it is about. */
  datatype Ask = Ask(id: nat, alloc: nat, sense: seq<byte>)

  /** The commands for the driver: every REQUEST SENSE, with a container to be had, directly behind a completion whose
      sense data was not sent. */
  function Asks(evs: seq<Event>): seq<Ask> {
    if evs == [] then []
    else
      var front, ev := evs[..|evs| - 1], evs[|evs| - 1];
      Asks(front) +
      if Answerable(ev) && SenseStayed(front) then [Ask(ev.id, ev.alloc, front[|front| - 2].sense)] else []
  }

  /** The commands for SCST: all others that it takes. */
  function Passed(evs: seq<Event>): seq<nat> {
    if evs == [] then []
    else
      var front, ev := evs[..|evs| - 1], evs[|evs| - 1];
      Passed(front) +
      if ev.Command? && ev.scstOk && !(Answerable(ev) && SenseStayed(front)) then [ev.id] else []
  }

  /** The cache state tells what the last events were. */
  ghost predicate Remembers(c: Cache, evs: seq<Event>) {
    && (c.pending.HandleRq? && c.out.Nothing? <==> SenseStayed(evs))
    && (SenseStayed(evs) ==> c.owed == evs[|evs| - 2].sense)
    && (c.pending.Attempt? && c.out.Answered? <==> evs != [] && CarriesSense(evs[|evs| - 1]))
    && (evs != [] && CarriesSense(evs[|evs| - 1]) ==> c.out.sense == evs[|evs| - 1].sense)
  }

  ghost predicate Logged(c: Cache, asks: seq<Ask>) {
    && |c.local| == |c.served| == |asks|
    && (forall k :: 0 <= k < |asks| ==> c.local[k] == asks[k].id)
    && (forall k :: 0 <= k < |asks| ==> c.served[k].alloc == asks[k].alloc && c.served[k].owed == asks[k].sense)
  }

  lemma {:induction false} RemembersStep(c: Cache, evs: seq<Event>, ev: Event)
    requires Inv(c) && Allowed(c, ev) && Remembers(c, evs)
    ensures Remembers(Step(c, ev), evs + [ev])
  {
  }

  lemma {:induction false} AsksMore(evs: seq<Event>, ev: Event)
    ensures Asks(evs + [ev])
            == Asks(evs)
               + if Answerable(ev) && SenseStayed(evs) then [Ask(ev.id, ev.alloc, evs[|evs| - 2].sense)] else []
    ensures Passed(evs + [ev])
            == Passed(evs) + if ev.Command? && ev.scstOk && !(Answerable(ev) && SenseStayed(evs)) then [ev.id] else []
  {
    assert (evs + [ev])[..|evs|] == evs;
  }

  /** What a command does to the records. */
  lemma {:induction false} StepLogs(c: Cache, ev: Event)
    requires Inv(c) && Allowed(c, ev)
    ensures var d := Step(c, ev);
            var answered := Answerable(ev) && c.pending.HandleRq?;
            && d.local == c.local + (if answered then [ev.id] else [])
            && |d.served| == |c.served| + (if answered then 1 else 0) && c.served <= d.served
            && (answered ==> d.served[|c.served|].alloc == ev.alloc && d.served[|c.served|].owed == c.owed)
            && d.toScst == c.toScst + if ev.Command? && ev.scstOk && !answered then [ev.id] else []
  {
  }

  lemma {:induction false} LoggedStep(c: Cache, evs: seq<Event>, ev: Event)
    requires Inv(c) && Allowed(c, ev) && Remembers(c, evs) && Logged(c, Asks(evs)) && c.toScst == Passed(evs)
    ensures Logged(Step(c, ev), Asks(evs + [ev])) && Step(c, ev).toScst == Passed(evs + [ev])
  {
    StepLogs(c, ev);
    AsksMore(evs, ev);
    CommandFindsNothing(c, ev);
    hide Inv, Step, Asks, Passed, SenseStayed, Allowed;
  }

  lemma {:induction false} CommandFindsNothing(c: Cache, ev: Event)
    requires Allowed(c, ev)
    ensures Answerable(ev) ==> c.out.Nothing?
  {
  }

  lemma {:induction false} OrderlyFront(evs: seq<Event>)
    requires Orderly(evs) && evs != []
    ensures Orderly(evs[..|evs| - 1]) && Allowed(Run(evs[..|evs| - 1]), evs[|evs| - 1])
    ensures Run(evs) == Step(Run(evs[..|evs| - 1]), evs[|evs| - 1])
    ensures evs == evs[..|evs| - 1] + [evs[|evs| - 1]]
  {
    hide Allowed, Step;
    var front := evs[..|evs| - 1];
    assert forall i :: 0 <= i < |front| ==> front[..i] == evs[..i] && front[i] == evs[i];
  }

  /** Over every orderly run the driver has answered exactly the commands that are for it, in order, each with the sense
      data it is about; SCST has been handed exactly the others that it takes, in order. */
  lemma {:induction false} DriverAnswersExactly(evs: seq<Event>)
    requires Orderly(evs)
    ensures Logged(Run(evs), Asks(evs)) && Run(evs).toScst == Passed(evs)
    ensures Remembers(Run(evs), evs)
  {
    if evs != [] {
      hide Run, Orderly, Step, Allowed, Inv, Remembers, Logged, Asks, Passed;
      OrderlyFront(evs);
      var front, ev := evs[..|evs| - 1], evs[|evs| - 1];
      DriverAnswersExactly(front);
      RunKeeps(front);
      RemembersStep(Run(front), front, ev);
      LoggedStep(Run(front), front, ev);
    }
  }

  /** What a REQUEST SENSE may ask for to get nothing but the cached sense data: no more than there is, or anything
      if the data fills the buffer or is complete by its own length byte (fixed format: byte 7 counts the bytes
      behind it). */
  predicate Covers(sense: seq<byte>, alloc: nat) {
    || alloc <= |sense|
    || |sense| >= BUFFER_SIZE
    || (|sense| > 7 && sense[7] as int + 8 <= |sense|)
  }

  /** Every REQUEST SENSE the driver ever served got no more than its allocation length, and it got a beginning of the
      sense data of the command completed just before it exactly if that data, none for a command that had none, covers
      the request. */
  lemma {:induction false} ServedSense(evs: seq<Event>, i: nat)
    requires Orderly(evs) && i < |Run(evs).served|
    ensures var s := Run(evs).served[i];
            && |s.bytes| <= s.alloc
            && (s.bytes <= s.owed <==> Covers(s.owed, s.alloc))
  {
    RunKeeps(evs);
    var s := Run(evs).served[i];
    assert Right(s);
    if |s.bytes| <= |s.owed| {
      assert s.bytes == s.bytes[..|s.bytes|] == s.owed[..|s.bytes|];
    }
  }

  /** The sense area of a 64-byte response. */
  const AREA_SIZE: nat := 52

  /** Two ways in which it does not. Fixed-format sense data of 14 bytes whose length byte announces 18 is sent with
      four more that are not its own; and a command that fails without sense data, in a buffer whose response still
      carries the 18 bytes of an earlier one, has those sent. */
  lemma {:induction false} StaleBytes(sense: seq<byte>, area: seq<byte>)
    requires |sense| == 14 && sense[0] == 0x70 && sense[7] == 10
    requires |area| == AREA_SIZE && area[0] == 0x70 && area[7] == 10
    ensures var c := Step(Fresh(), Command(1, false, 0, true, true));
            var short := Step(Step(c, Respond(false, sense, Iu(false, Zeros(AREA_SIZE)))), Completed(true));
            var none := Step(Step(c, Respond(false, [], Iu(true, area))), Completed(true));
            var rq := Command(2, true, 18, true, true);
            && |Step(short, rq).served| == 1 && Step(short, rq).served[0].owed == sense
            && |Step(short, rq).served[0].bytes| == 18 && !(Step(short, rq).served[0].bytes <= sense)
            && |Step(none, rq).served| == 1 && Step(none, rq).served[0].owed == []
            && Step(none, rq).served[0].bytes == area[..18]
  {
    assert Cached([], Iu(true, area)) == area;
    assert Cached(sense, Iu(false, Zeros(AREA_SIZE)))[7] == sense[7];
  }

  /** The driver's per-initiator fields, and the handlers that update them. */
  class Initiator {
    var pending: Pending
    var buffer: seq<byte>
    var out: Outstanding
    var owed: seq<byte>
    var toScst: seq<nat>
    var done: seq<nat>
    var local: seq<nat>
    var freed: seq<nat>
    var served: seq<Service>

    constructor ()
      ensures State() == Fresh()
    {
      pending, buffer, out := Idle, Zeros(BUFFER_SIZE), Nothing;
      owed, toScst, done, local, freed, served := [], [], [], [], [], [];
    }

    function State(): Cache
      reads this
    {
      Cache(pending, buffer, out, owed, toScst, done, local, freed, served)
    }

    /** A new command: answer it from the cache, or pass it on. */
    method TgtCommand(id: nat, requestSense: bool, alloc: nat, containerOk: bool, scstOk: bool)
      requires |buffer| == BUFFER_SIZE
      modifies this
      ensures State() == Step(old(State()), Command(id, requestSense, alloc, containerOk, scstOk))
      ensures !requestSense ==> served == old(served) && local == old(local) && pending == Idle
      ensures !requestSense ==> toScst == old(toScst) + (if scstOk then [id] else [])
    {
      var handled := false;
      if pending == HandleRq {
        if requestSense {
          if containerOk {
            var len := Min(alloc, BUFFER_SIZE);
            len := Min(len, buffer[7] as int + 8);
            out := Local(id);
            local := local + [id];
            served := served + [Service(alloc, buffer[..len], owed)];
            handled := true;
          } else {
            pending := Idle;
          }
        } else {
          pending := Idle;
        }
      } else {
        pending := Idle;
      }
      if !handled {
        owed := [];
        if scstOk {
          out := AtScst(id);
          toScst := toScst + [id];
        }
      }
    }

    /** SCST's answer goes out; what the response then says is sense data is cached on the way. */
    method SendStatus(good: bool, sense: seq<byte>, iu: Iu)
      requires |buffer| == BUFFER_SIZE && out.AtScst? && |sense| <= |iu.area|
      modifies this
      ensures State() == Step(old(State()), Respond(good, sense, iu))
    {
      var valid, area := iu.valid, iu.area;
      if sense != [] {
        valid, area := true, sense + area[|sense|..];
      }
      if !good && valid {
        var size := Min(|area|, BUFFER_SIZE);
        buffer := area[..size] + buffer[size..];
        pending := Attempt;
        out := Answered(out.id, sense);
        assert area == sense + iu.area[|sense|..];
      } else {
        out := Answered(out.id, []);
      }
    }

    /** The status reply, or the error reply that says the sense data stayed behind. */
    method StatusReply(notSent: bool)
      requires |buffer| == BUFFER_SIZE && (out.Answered? || out.Local?)
      modifies this
      ensures State() == Step(old(State()), Completed(notSent))
    {
      if notSent {
        if pending == Attempt {
          pending := NotSent;
        }
      }
      var id, sense := out.id, if out.Answered? then out.sense else [];
      out, owed := Nothing, [];
      match pending {
        case Attempt =>
          pending := Idle;
          done := done + [id];
        case NotSent =>
          pending := HandleRq;
          done, owed := done + [id], sense;
        case HandleRq =>
          pending := Idle;
          freed := freed + [id];
        case Idle =>
          done := done + [id];
      }
    }
  }
}
