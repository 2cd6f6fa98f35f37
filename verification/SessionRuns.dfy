/** Whole runs of logins, logouts, releases, lock-free lookups and RCU callbacks, in every interleaving. */
module SessionRuns {
  import opened Sessions
  import opened SessionLife

  /** Every event of the run is one its thread, the allocator or RCU can make at that point. */
  ghost predicate Orderly(w: World, evs: seq<Event>) {
    forall n {:trigger evs[n]} :: 0 <= n < |evs| ==> Allowed(Run(w, evs[..n]), evs[n])
  }

  /** No release of the run reads a session's link after that session's memory has been freed. */
  ghost predicate NeverLost(w: World, evs: seq<Event>) {
    forall n {:trigger evs[n]} :: 0 <= n < |evs| ==> !Lost(Run(w, evs[..n]), evs[n])
  }

  lemma {:induction false} OrderlyFront(w: World, evs: seq<Event>)
    requires Orderly(w, evs) && evs != []
    ensures Orderly(w, evs[..|evs| - 1]) && Allowed(Run(w, evs[..|evs| - 1]), evs[|evs| - 1])
  {
    hide Allowed, Run;
    var f := evs[..|evs| - 1];
    forall n | 0 <= n < |f| ensures Allowed(Run(w, f[..n]), f[n]) {
      assert f[..n] == evs[..n] && f[n] == evs[n];
    }
  }

  lemma {:induction false} NeverLostFront(w: World, evs: seq<Event>)
    requires evs != []
    ensures var f := evs[..|evs| - 1];
            NeverLost(w, evs) <==> NeverLost(w, f) && !Lost(Run(w, f), evs[|evs| - 1])
  {
    hide Lost, Run;
    var f := evs[..|evs| - 1];
    assert forall n :: 0 <= n < |f| ==> f[..n] == evs[..n] && f[n] == evs[n];
  }

  lemma {:induction false} RunKeeps(w: World, evs: seq<Event>)
    requires Inv(w) && Orderly(w, evs) && NeverLost(w, evs)
    ensures Inv(Run(w, evs)) && RegistryOf(Run(w, evs)) == RegistryRun(RegistryOf(w), evs)
  {
    hide Inv, Step, RegistryStep, Orderly, NeverLost, RegistryOf, Distinct, Lost;
    InvShape(w);
    if evs != [] {
      OrderlyFront(w, evs);
      NeverLostFront(w, evs);
      RunKeeps(w, evs[..|evs| - 1]);
      StepKeeps(Run(w, evs[..|evs| - 1]), evs[|evs| - 1]);
    }
    InvShape(Run(w, evs));
  }

  lemma {:induction false} StartInv()
    ensures Inv(Start()) && RegistryOf(Start()) == Registry(map[], false)
  {
    EmptyTotal(EmptyTable());
    assert Entries(Start().port) == map[];
  }

  /** The event touches a session that is not allocated, or meets a BUG_ON: a count of sessions or of references that is
      zero and would be decremented. */
  predicate Faults(w: World, ev: Event) {
    match ev
    case PrloDelete(a) =>
      && |w.port.table| == HASH_SIZE && Lookup(w.port, a).Some?
      && (Lookup(w.port, a).value !in w.port.sess || w.port.count == 0)
    case ReleaseClose(id) =>
      || id !in w.port.sess
      || (w.port.sess[id].portId != NO_PORT && (w.port.count == 0 || w.port.sess[id].kref == 0))
    case ReleaseNext => w.walk.Closed? && w.walk.id !in w.port.sess
    case PrloPut(id) => id !in w.port.sess || w.port.sess[id].kref == 0
    case RecvPut(id) => id !in w.port.sess || w.port.sess[id].kref == 0
    case Visit(_, id) => id !in w.port.sess
    case TryGet(t) => t in w.readers && w.readers[t].found.Some? && w.readers[t].found.value !in w.port.sess
    case RcuFree(id) => id !in w.port.sess
    case _ => false
  }

  lemma {:induction false} LookupLinked(w: World, a: nat)
    requires Inv(w) && a < ID_LIMIT
    ensures |w.port.table| == HASH_SIZE
    ensures Lookup(w.port, a).Some? ==> Lookup(w.port, a).value in w.port.sess && w.port.count > 0
  {
    hide Lookup, SessHash;
    LookupAgrees(w.port, a);
    if Lookup(w.port, a).Some? {
      UnhashKeeps(w.port, Lookup(w.port, a).value);
    }
  }

  lemma {:induction false} CloseFinds(w: World, id: SessId)
    requires Inv(w) && Allowed(w, ReleaseClose(id))
    ensures id in w.port.sess && w.port.sess[id].kref > 0 && w.port.count > 0
  {
    hide SessHash;
    HeadPlaced(w.port, w.walk.b);
    UnhashKeeps(w.port, id);
    assert Accounted(w, id);
  }

  lemma {:induction false} ReadersFind(w: World, t: Thread)
    requires AllSafe(w) && t in w.readers
    ensures forall id :: id in w.readers[t].seen ==> id in w.port.sess
    ensures w.readers[t].found.Some? ==> w.readers[t].found.value in w.port.sess
  {
    assert Safe(w, t);
  }

  lemma {:induction false} HoldersFind(w: World, id: SessId)
    requires AllAccounted(w) && RefsAllocated(w)
    ensures id in w.holders || id in w.puts ==> id in w.port.sess && w.port.sess[id].kref > 0
    ensures id in w.rcu ==> id in w.port.sess
  {
    assert id in w.port.sess ==> Accounted(w, id);
  }

  lemma {:induction false} InvParts(w: World)
    requires Inv(w)
    ensures AllSafe(w) && AllAccounted(w) && RefsAllocated(w)
  {
    hide AllSafe, AllAccounted, RefsAllocated;
  }

  /** An event faults exactly if it is a release that reads a link from freed memory. */
  lemma {:induction false} OnlyTheLostFault(w: World, ev: Event)
    requires Inv(w) && Allowed(w, ev)
    ensures Faults(w, ev) <==> Lost(w, ev)
  {
    hide Inv, Lookup, AllSafe, AllAccounted, RefsAllocated;
    InvParts(w);
    match ev
    case PrloDelete(a) => LookupLinked(w, a);
    case ReleaseClose(id) => CloseFinds(w, id);
    case PrloPut(id) => HoldersFind(w, id);
    case RecvPut(id) => HoldersFind(w, id);
    case Visit(t, id) => ReadersFind(w, t);
    case TryGet(t) => ReadersFind(w, t);
    case RcuFree(id) => HoldersFind(w, id);
    case _ =>
  }

  ghost predicate Faultless(w: World, evs: seq<Event>) {
    forall n {:trigger evs[n]} :: 0 <= n < |evs| ==> !Faults(Run(w, evs[..n]), evs[n])
  }

  lemma {:induction false} FaultlessFront(w: World, evs: seq<Event>)
    requires evs != []
    ensures var f := evs[..|evs| - 1];
            Faultless(w, evs) <==> Faultless(w, f) && !Faults(Run(w, f), evs[|evs| - 1])
  {
    hide Faults, Run;
    var f := evs[..|evs| - 1];
    assert forall n :: 0 <= n < |f| ==> f[..n] == evs[..n] && f[n] == evs[n];
  }

  lemma {:induction false} RunsAreFaultless(w: World, evs: seq<Event>)
    requires Inv(w) && Orderly(w, evs) && NeverLost(w, evs)
    ensures Faultless(w, evs)
  {
    if evs != [] {
      hide Inv, Orderly, NeverLost, Run, Faults, Lost, Faultless, RegistryOf, RegistryRun;
      OrderlyFront(w, evs);
      NeverLostFront(w, evs);
      FaultlessFront(w, evs);
      RunsAreFaultless(w, evs[..|evs| - 1]);
      RunKeeps(w, evs[..|evs| - 1]);
      OnlyTheLostFault(Run(w, evs[..|evs| - 1]), evs[|evs| - 1]);
    }
  }

  /** In every run, with releases under the lock, in which no release loses its place: no BUG_ON fires and no freed
      session is touched; every reference count is the table's reference plus those in flight; a session is released
      once, when its count reaches zero; whatever a lookup can reach is allocated. The table is the map that the
      logins, logouts, closes and enables alone would have made, its count the number of logged-in ports, and it is
      empty while the port is disabled and no release is under way. */
  lemma {:induction false} SessionsAreSafe(evs: seq<Event>)
    requires Orderly(Start(), evs) && NeverLost(Start(), evs)
    ensures var w := Run(Start(), evs);
            && Faultless(Start(), evs) && !w.port.bug && !w.stray
            && WellFormed(w.port) && AllAccounted(w) && RefsAllocated(w) && AllSafe(w)
            && RegistryOf(w) == RegistryRun(Registry(map[], false), evs)
            && |Entries(w.port)| == w.port.count
            && (!w.port.enabled && w.walk.Idle? ==> Entries(w.port) == map[])
  {
    StartInv();
    RunsAreFaultless(Start(), evs);
    hide Start, Run, RegistryRun, WellFormed, AllAccounted, RefsAllocated, AllSafe, Entries, Distinct, Walking,
         WaitersRead, Faultless;
    RunKeeps(Start(), evs);
    var w := Run(Start(), evs);
    if !w.port.enabled && w.walk.Idle? {
      NoneLinked(w.port);
    }
  }

  // --------------------------------------------------------------------------
  // When a release loses its place
  // --------------------------------------------------------------------------

  /** Every release of the run holds a read section or begins with nobody logged in. */
  ghost predicate Sheltered(w: World, evs: seq<Event>) {
    forall n {:trigger evs[n]} :: 0 <= n < |evs| && evs[n].ReleaseBegin? ==>
      evs[n].guard.Some? || Nobody(Run(w, evs[..n]).port)
  }

  /** Nobody is logged in. */
  ghost predicate Nobody(p: Port) {
    forall x :: !Linked(p, x)
  }

  /** What a read section is good for: the session whose link will be read is allocated, and its callback waits. */
  predicate Held(w: World) {
    !w.walk.Idle? ==>
      && w.walk.guard.Some? && w.walk.guard.value in w.readers
      && (w.walk.Closed? ==>
            && w.walk.id in w.port.sess
            && (w.walk.id in w.rcu ==> w.walk.guard.value in w.rcu[w.walk.id]))
  }

  lemma {:induction false} CloseHeld(w: World, id: SessId)
    requires Inv(w) && Held(w) && Allowed(w, ReleaseClose(id))
    ensures Held(Step(w, ReleaseClose(id)))
  {
    BaseWellFormed(w);
    CursorLinked(w, id);
    BaseFacts(w, 0);
    WithdrawKeeps(w, id);
    assert Accounted(w, id);
    hide Base, WellFormed, CloseIn, SessHash, Walking, Counted;
    ClosePort(w, id);
    CloseSound(w, id);
  }

  lemma {:induction false} PutHeld(w: World, w': World, id: SessId)
    requires Held(w) && w'.walk == w.walk && w'.readers == w.readers && w'.port.sess.Keys == w.port.sess.Keys
    requires w'.rcu == w.rcu || w'.rcu == w.rcu[id := w.readers.Keys]
    ensures Held(w')
  {
  }

  lemma {:induction false} ReferenceHeld(w: World, ev: Event)
    requires |w.port.table| == HASH_SIZE && Held(w) && Allowed(w, ev) && (ev.RecvPut? || ev.PrloPut? || ev.RcuFree?)
    ensures Held(Step(w, ev))
  {
    hide Step, PutIn, Held;
    StepOfReference(w, ev.id);
    if ev.RcuFree? {
      FreeHeld(w, ev.id);
    } else {
      PutWaiters(w, ev.id);
      PutKeys(w, ev.id);
      PutHeld(w, Step(w, ev), ev.id);
    }
  }

  lemma {:induction false} FreeHeld(w: World, id: SessId)
    requires Held(w) && id in w.rcu && w.rcu[id] == {}
    ensures Held(Reclaimed(w, id))
  {
  }

  lemma {:induction false} PutKeys(w: World, id: SessId)
    ensures PutIn(w, id).port.sess.Keys == w.port.sess.Keys
  {
  }

  lemma {:induction false} LeaveHeld(w: World, t: Thread)
    requires |w.port.table| == HASH_SIZE && Held(w) && Allowed(w, Leave(t))
    ensures Held(Step(w, Leave(t)))
  {
    hide Step;
    StepOfReader(w, t);
  }

  /** The other steps touch neither the callbacks nor what a release stands on. */
  lemma {:induction false} OtherHeld(w: World, ev: Event)
    requires |w.port.table| == HASH_SIZE && Held(w) && Allowed(w, ev) && (ev.ReleaseBegin? ==> ev.guard.Some?)
    requires !ev.PrloPut? && !ev.RecvPut? && !ev.ReleaseClose? && !ev.Leave? && !ev.RcuFree?
    ensures Held(Step(w, ev))
  {
    OtherWaiters(w, ev);
    hide Prli, Lookup, Unhash, TableIds, First;
  }

  lemma {:induction false} HeldStep(w: World, ev: Event)
    requires Inv(w) && Held(w) && Allowed(w, ev) && (ev.ReleaseBegin? ==> ev.guard.Some?)
    ensures Held(Step(w, ev))
  {
    hide Inv, Held, Step, Allowed;
    InvShape(w);
    match ev
    case ReleaseClose(id) => CloseHeld(w, id);
    case Leave(t) => LeaveHeld(w, t);
    case RecvPut(_) => ReferenceHeld(w, ev);
    case PrloPut(_) => ReferenceHeld(w, ev);
    case RcuFree(_) => ReferenceHeld(w, ev);
    case _ => OtherHeld(w, ev);
  }

  /** A release is held, or has nothing to close. */
  ghost predicate Harmless(w: World) {
    Held(w) || (w.walk.At? && w.walk.guard.None? && Nobody(w.port))
  }

  lemma {:induction false} NobodyMeansEmpty(p: Port)
    requires Distinct(p.sess)
    ensures Entries(p) == map[] <==> Nobody(p)
  {
    hide Entries, Distinct;
    if Entries(p) != map[] {
      var a :| a in Entries(p);
      var id := EntriesKey(p, a);
    }
    forall x | Linked(p, x) ensures p.sess[x].portId in Entries(p) {
      EntriesAt(p, x);
    }
  }

  lemma {:induction false} WalkStays(w: World, ev: Event)
    requires !ev.ReleaseBegin? && !ev.ReleaseClose? && !ev.ReleaseNext? && !ev.ReleaseBucket?
    ensures Step(w, ev).walk == w.walk
  {
    hide Prli, Lookup, Unhash, Put, Get, TableIds;
  }

  lemma {:induction false} NothingToClose(w: World, id: SessId)
    requires Inv(w) && Nobody(w.port)
    ensures !Allowed(w, ReleaseClose(id))
  {
    hide WellFormed, Counted, AllAccounted, AllSafe;
    if w.walk.At? && w.walk.cur == Some(id) {
      CursorLinked(w, id);
    }
  }

  lemma {:induction false} NobodyStays(w: World, ev: Event)
    requires Inv(w) && Inv(Step(w, ev)) && RegistryOf(Step(w, ev)) == RegistryStep(RegistryOf(w), ev)
    requires Nobody(w.port) && !ev.PrliEvent?
    ensures Nobody(Step(w, ev).port)
  {
    hide Inv, Step, Nobody, Entries;
    InvShape(w);
    InvShape(Step(w, ev));
    NobodyMeansEmpty(w.port);
    NobodyMeansEmpty(Step(w, ev).port);
  }

  /** With nobody logged in the walk is through empty buckets, and nobody can log in during it. */
  lemma {:induction false} EmptyWalk(w: World, ev: Event)
    requires Inv(w) && w.walk.At? && w.walk.guard.None? && Nobody(w.port) && Allowed(w, ev)
    ensures !Lost(w, ev) && Harmless(Step(w, ev))
  {
    hide Inv, Step, Nobody, Entries;
    InvShape(w);
    StepKeeps(w, ev);
    NobodyStays(w, ev);
    match ev
    case ReleaseClose(id) => NothingToClose(w, id);
    case ReleaseBucket => BucketMoves(w);
    case _ => WalkStays(w, ev);
  }

  lemma {:induction false} BucketMoves(w: World)
    requires |w.port.table| == HASH_SIZE && Allowed(w, ReleaseBucket)
    ensures var walk := Step(w, ReleaseBucket).walk; walk.Idle? || (walk.At? && walk.guard == w.walk.guard)
  {
    hide First;
  }

  lemma {:induction false} HarmlessStep(w: World, ev: Event)
    requires Inv(w) && Harmless(w) && Allowed(w, ev)
    requires ev.ReleaseBegin? ==> ev.guard.Some? || Nobody(w.port)
    ensures !Lost(w, ev) && Harmless(Step(w, ev))
  {
    hide Inv, Step, Nobody;
    InvShape(w);
    if !Held(w) {
      EmptyWalk(w, ev);
    } else if ev.ReleaseBegin? && ev.guard.None? {
      StepKeeps(w, ev);
      NobodyStays(w, ev);
      BeginMoves(w, ev);
    } else {
      HeldStep(w, ev);
    }
  }

  lemma {:induction false} BeginMoves(w: World, ev: Event)
    requires |w.port.table| == HASH_SIZE && ev.ReleaseBegin? && Allowed(w, ev)
    ensures Step(w, ev).walk.At? && Step(w, ev).walk.guard == ev.guard
  {
    hide First;
  }

  lemma {:induction false} ShelteredFront(w: World, evs: seq<Event>)
    requires Sheltered(w, evs) && evs != []
    ensures var f := evs[..|evs| - 1];
            && Sheltered(w, f)
            && (evs[|f|].ReleaseBegin? ==> evs[|f|].guard.Some? || Nobody(Run(w, f).port))
  {
    hide Nobody, Run;
    var f := evs[..|evs| - 1];
    assert forall n :: 0 <= n < |f| ==> f[..n] == evs[..n] && f[n] == evs[n];
  }

  lemma {:induction false} ShelteredRuns(w: World, evs: seq<Event>)
    requires Inv(w) && Harmless(w) && Orderly(w, evs) && Sheltered(w, evs)
    ensures NeverLost(w, evs) && Inv(Run(w, evs)) && Harmless(Run(w, evs))
  {
    hide Inv, Step, Orderly, NeverLost, Sheltered, Harmless, Nobody;
    if evs == [] {
      NothingLost(w);
    } else {
      var f := evs[..|evs| - 1];
      OrderlyFront(w, evs);
      ShelteredFront(w, evs);
      ShelteredRuns(w, f);
      NeverLostFront(w, evs);
      HarmlessStep(Run(w, f), evs[|evs| - 1]);
      StepKeeps(Run(w, f), evs[|evs| - 1]);
    }
  }

  lemma {:induction false} NothingLost(w: World)
    ensures NeverLost(w, [])
  {
  }

  lemma {:induction false} InvMeansSafe(w: World)
    requires Inv(w)
    ensures !w.stray && !w.port.bug
  {
  }

  /** No run loses its place in which every release holds a read section or begins with nobody logged in, so every such
      run is safe. */
  lemma {:induction false} ShelteredReleaseIsSafe(evs: seq<Event>)
    requires Orderly(Start(), evs) && Sheltered(Start(), evs)
    ensures NeverLost(Start(), evs) && !Run(Start(), evs).stray && !Run(Start(), evs).port.bug
  {
    hide Inv, Orderly, Sheltered, NeverLost, Run;
    StartInv();
    ShelteredRuns(Start(), evs);
    InvMeansSafe(Run(Start(), evs));
  }

  ghost predicate NoneBegins(evs: seq<Event>) {
    forall n :: 0 <= n < |evs| ==> !evs[n].ReleaseBegin?
  }

  /** Some run from here, in which further releases begin only if `more`, touches freed memory. */
  ghost predicate CanStray(w: World, more: bool) {
    exists evs :: Orderly(w, evs) && (more || NoneBegins(evs)) && Run(w, evs).stray
  }

  lemma {:induction false} RunFrom(w: World, ev: Event, evs: seq<Event>)
    ensures Run(w, [ev] + evs) == Run(Step(w, ev), evs)
  {
    hide Step;
    if evs == [] {
      assert [ev] + evs == [ev] && [ev][..0] == [];
    } else {
      var n := |evs| - 1;
      RunFrom(w, ev, evs[..n]);
      assert ([ev] + evs)[..n + 1] == [ev] + evs[..n];
    }
  }

  lemma {:induction false} StrayLater(w: World, ev: Event, more: bool)
    requires Allowed(w, ev) && CanStray(Step(w, ev), more) && (more || !ev.ReleaseBegin?)
    ensures CanStray(w, more)
  {
    hide Step, Allowed, Run;
    var evs :| Orderly(Step(w, ev), evs) && (more || NoneBegins(evs)) && Run(Step(w, ev), evs).stray;
    var all := [ev] + evs;
    RunFrom(w, ev, evs);
    forall n | 0 <= n < |all| ensures Allowed(Run(w, all[..n]), all[n]) {
      if n == 0 {
        RunNothing(w);
        assert all[..0] == [];
      } else {
        assert all[..n] == [ev] + evs[..n - 1] && all[n] == evs[n - 1];
        RunFrom(w, ev, evs[..n - 1]);
      }
    }
    assert Orderly(w, all);
  }

  lemma {:induction false} MoreStrays(w: World)
    requires CanStray(w, false)
    ensures CanStray(w, true)
  {
    hide Orderly, NoneBegins, Run;
  }

  lemma {:induction false} RunNothing(w: World)
    ensures Run(w, []) == w
  {
  }

  lemma {:induction false} StrayNow(w: World)
    requires w.stray
    ensures CanStray(w, false)
  {
    RunNothing(w);
    assert Orderly(w, []) && NoneBegins([]);
  }

  /** The lookups that have settled on a session and not yet tried for a reference. */
  function Settled(w: World): set<Thread> {
    set t | t in w.readers && w.readers[t].found.Some?
  }

  /** What is still in the way of freeing the session behind which a release stands. */
  ghost predicate Closer(w: World, w': World, id: SessId) {
    || |w'.readers.Keys| < |w.readers.Keys|
    || (|w'.readers.Keys| == |w.readers.Keys| && |Settled(w')| < |Settled(w)|)
    || (w'.readers == w.readers && w'.holders[id] + w'.puts[id] < w.holders[id] + w.puts[id])
    || (w'.readers == w.readers && w'.holders == w.holders && w'.puts == w.puts
        && id in w.port.sess && id !in w'.port.sess)
  }

  lemma {:induction false} DrainReader(w: World, t: Thread) returns (ev: Event)
    requires |w.port.table| == HASH_SIZE && w.walk.Closed? && w.walk.guard.None? && t in w.readers
    ensures Allowed(w, ev) && !Lost(w, ev) && !ev.ReleaseBegin?
    ensures Step(w, ev).walk == w.walk && Closer(w, Step(w, ev), w.walk.id)
  {
    hide Step, Get;
    StepOfReader(w, t);
    if w.readers[t].found.Some? {
      ev := TryGet(t);
      var w' := TryGetIn(w, t);
      assert w'.readers.Keys == w.readers.Keys;
      assert t in Settled(w) && Settled(w') == Settled(w) - {t};
    } else {
      ev := Leave(t);
      assert (w.readers - {t}).Keys == w.readers.Keys - {t};
    }
  }

  lemma {:induction false} DrainReference(w: World) returns (ev: Event)
    requires |w.port.table| == HASH_SIZE && w.walk.Closed?
    requires var id := w.walk.id; id in w.holders || id in w.puts
    ensures Allowed(w, ev) && !Lost(w, ev) && !ev.ReleaseBegin?
    ensures Step(w, ev).walk == w.walk && Closer(w, Step(w, ev), w.walk.id)
  {
    var id := w.walk.id;
    hide Step, Put;
    StepOfReference(w, id);
    ev := if id in w.holders then RecvPut(id) else PrloPut(id);
  }

  lemma {:induction false} NothingLeft(w: World)
    requires Inv(w) && w.walk.Closed? && w.readers == map[]
    requires var id := w.walk.id; id !in w.holders && id !in w.puts && id in w.port.sess
    ensures Allowed(w, RcuFree(w.walk.id))
  {
    ClosedUnlinked(w);
    InvParts(w);
    WaitersGone(w, w.walk.id);
  }

  lemma {:induction false} ClosedUnlinked(w: World)
    requires Inv(w) && w.walk.Closed?
    ensures !Linked(w.port, w.walk.id) && WaitersRead(w)
  {
    hide Base, Counted, EmptyUnlessEnabled, WaitersRead, Swept;
  }

  lemma {:induction false} WaitersGone(w: World, id: SessId)
    requires AllAccounted(w) && WaitersRead(w) && w.readers == map[]
    requires id !in w.holders && id !in w.puts && id in w.port.sess && !Linked(w.port, id)
    ensures id in w.rcu && w.rcu[id] == {}
  {
    assert Accounted(w, id);
    assert w.rcu[id] <= {};
  }

  lemma {:induction false} DrainMemory(w: World)
    requires |w.port.table| == HASH_SIZE && w.walk.Closed? && Allowed(w, RcuFree(w.walk.id)) && w.walk.id in w.port.sess
    ensures Step(w, RcuFree(w.walk.id)).walk == w.walk && Closer(w, Step(w, RcuFree(w.walk.id)), w.walk.id)
  {
    hide Step;
    StepOfReference(w, w.walk.id);
  }

  /** From a release that is about to read a link, outside any read section: let the lookups finish, the references be
      dropped and the callback run; then the link is read from freed memory. */
  lemma {:induction false} UnguardedStrays(w: World)
    requires Inv(w) && w.walk.Closed? && w.walk.guard.None?
    ensures CanStray(w, false)
    decreases |w.readers.Keys|, |Settled(w)|, w.holders[w.walk.id] + w.puts[w.walk.id], w.walk.id in w.port.sess
  {
    var id := w.walk.id;
    hide Inv, CanStray, Step, Allowed;
    InvShape(w);
    var ev := ReleaseNext;
    NextAllowed(w);
    if t :| t in w.readers {
      ev := DrainReader(w, t);
    } else if id in w.holders || id in w.puts {
      ev := DrainReference(w);
    } else if id in w.port.sess {
      assert w.readers == map[];
      NothingLeft(w);
      DrainMemory(w);
      ev := RcuFree(id);
    }
    StepKeeps(w, ev);
    if Lost(w, ev) {
      StrayNow(Step(w, ev));
    } else {
      UnguardedStrays(Step(w, ev));
    }
    StrayLater(w, ev, false);
  }

  lemma {:induction false} NextAllowed(w: World)
    requires w.walk.Closed?
    ensures Allowed(w, ReleaseNext)
  {
  }

  /** The source's release holds no read section: whenever it has a session to close, in any state of any safe run, it
      can go on to read that session's link after the memory has been freed. */
  lemma {:induction false} ReleaseCanStray(w: World, id: SessId)
    requires Inv(w) && w.walk.At? && w.walk.cur == Some(id) && w.walk.guard.None?
    ensures CanStray(w, false)
  {
    hide Inv, CanStray, Step;
    CloseWalks(w, id);
    StepKeeps(w, ReleaseClose(id));
    UnguardedStrays(Step(w, ReleaseClose(id)));
    StrayLater(w, ReleaseClose(id), false);
  }

  lemma {:induction false} BucketWalks(w: World, x: SessId)
    requires Inv(w) && w.walk.At? && w.walk.cur.None? && Linked(w.port, x)
    ensures Allowed(w, ReleaseBucket) && !Lost(w, ReleaseBucket)
    ensures var w' := Step(w, ReleaseBucket);
            w'.port == w.port && w'.walk.At? && w'.walk.b == w.walk.b + 1 < HASH_SIZE && w'.walk.guard == w.walk.guard
  {
    hide Inv, Entries, Distinct;
    InvShape(w);
    BucketKeeps(w);
    EntriesAt(w.port, x);
  }

  /** A release that still has somebody to close comes to it. */
  lemma {:induction false} WalkCanStray(w: World, x: SessId)
    requires Inv(w) && w.walk.At? && w.walk.guard.None? && Linked(w.port, x)
    ensures CanStray(w, false)
    decreases HASH_SIZE - w.walk.b
  {
    hide Inv, CanStray, Step, Linked, Allowed;
    if w.walk.cur.Some? {
      ReleaseCanStray(w, w.walk.cur.value);
    } else {
      BucketWalks(w, x);
      StepKeeps(w, ReleaseBucket);
      WalkCanStray(Step(w, ReleaseBucket), x);
      StrayLater(w, ReleaseBucket, false);
    }
  }

  /** Whenever anybody is logged in, a release, as the source does it, can stray. */
  lemma {:induction false} AnyReleaseCanStray(w: World, x: SessId)
    requires Inv(w) && w.walk.Idle? && Linked(w.port, x)
    ensures Allowed(w, ReleaseBegin(None)) && CanStray(Step(w, ReleaseBegin(None)), false)
  {
    hide Inv, CanStray, Linked;
    InvShape(w);
    StepKeeps(w, ReleaseBegin(None));
    var w' := Step(w, ReleaseBegin(None));
    SwitchLinked(w.port, x);
    WalkCanStray(w', x);
  }

  lemma {:induction false} SwitchLinked(p: Port, x: SessId)
    requires Linked(p, x)
    ensures Linked(p.(enabled := false), x)
  {
  }

  /** Exactly when the release as the source does it, without a read section, can stray before it ends: somebody is
      logged in when it begins. */
  lemma {:induction false} ReleaseStraysIff(w: World)
    requires Inv(w) && w.walk.Idle?
    ensures CanStray(Step(w, ReleaseBegin(None)), false) <==> Entries(w.port) != map[]
  {
    hide Inv, CanStray, Nobody, Entries, Step;
    InvShape(w);
    NobodyMeansEmpty(w.port);
    if Nobody(w.port) {
      EmptyReleaseIsSafe(w);
    } else {
      var x := Somebody(w.port);
      AnyReleaseCanStray(w, x);
    }
  }

  lemma {:induction false} Somebody(p: Port) returns (x: SessId)
    requires !Nobody(p)
    ensures Linked(p, x)
  {
    x :| Linked(p, x);
  }

  lemma {:induction false} EmptyReleaseIsSafe(w: World)
    requires Inv(w) && w.walk.Idle? && Nobody(w.port)
    ensures !CanStray(Step(w, ReleaseBegin(None)), false)
  {
    hide Inv, Nobody, Step, Run, Orderly, NoneBegins;
    BeginAllowed(w);
    StepKeeps(w, ReleaseBegin(None));
    HarmlessStep(w, ReleaseBegin(None));
    var w' := Step(w, ReleaseBegin(None));
    forall evs | Orderly(w', evs) && NoneBegins(evs) ensures !Run(w', evs).stray {
      NoneMeansSheltered(w', evs);
      ShelteredRuns(w', evs);
      InvMeansSafe(Run(w', evs));
    }
  }

  lemma {:induction false} BeginAllowed(w: World)
    requires w.walk.Idle?
    ensures Allowed(w, ReleaseBegin(None)) && Held(w)
  {
  }

  lemma {:induction false} NoneMeansSheltered(w: World, evs: seq<Event>)
    requires NoneBegins(evs)
    ensures Sheltered(w, evs)
  {
    hide Run, Nobody;
  }

  /** So there is a run from the very start: enable, one login, one release. */
  lemma {:induction false} StartCanStray()
    ensures CanStray(Start(), true)
  {
    var w0 := Start();
    var page := Some(Page(false, true, false, true));
    var l := Login(1, 2048, None, 0, Some(7));
    StartInv();
    hide CanStray, Inv;
    StepKeeps(w0, EnableEvent);
    var w1 := Step(w0, EnableEvent);
    StepKeeps(w1, PrliEvent(page, l));
    var w2 := Step(w1, PrliEvent(page, l));
    FirstLogin(page, l);
    AnyReleaseCanStray(w2, 7);
    MoreStrays(Step(w2, ReleaseBegin(None)));
    StrayLater(w2, ReleaseBegin(None), true);
    StrayLater(w1, PrliEvent(page, l), true);
    StrayLater(w0, EnableEvent, true);
  }

  lemma {:induction false} FirstLogin(page: Option<Page>, l: Login)
    requires page == Some(Page(false, true, false, true)) && l == Login(1, 2048, None, 0, Some(7))
    ensures var w := Step(Step(Start(), EnableEvent), PrliEvent(page, l)); w.walk.Idle? && Linked(w.port, 7)
  {
    hide SessHash;
    var p := Start().port.(enabled := true);
    assert Lookup(p, 1) == None;
    assert Prli(p, page, l).0 == Insert(p, l, 7);
  }

  lemma {:induction false} CloseWalks(w: World, id: SessId)
    requires Inv(w) && w.walk.At? && w.walk.cur == Some(id)
    ensures Allowed(w, ReleaseClose(id))
    ensures Step(w, ReleaseClose(id)).walk.Closed? && Step(w, ReleaseClose(id)).walk.guard == w.walk.guard
  {
    hide Inv, CloseIn, After;
    InvShape(w);
    InvWalking(w);
  }

  lemma {:induction false} InvWalking(w: World)
    requires Inv(w) && w.walk.At?
    ensures w.walk.b < HASH_SIZE
  {
  }

  // --------------------------------------------------------------------------
  // A lookup, and a released session
  // --------------------------------------------------------------------------

  /** A lookup settles on a session exactly if the map holds that session for its port id at that moment. */
  lemma {:induction false} VisitIsCurrent(w: World, t: Thread, id: SessId)
    requires Inv(w) && t in w.readers && id in w.readers[t].seen
    ensures Distinct(w.port.sess)
    ensures var a := w.readers[t].a;
            && (a in Entries(w.port) && Entries(w.port)[a].id == id ==>
                  Visited(w, t, id) == w.(readers := w.readers[t := w.readers[t].(found := Some(id))]))
            && (!(a in Entries(w.port) && Entries(w.port)[a].id == id) ==> Visited(w, t, id) == w)
  {
    hide Entries, Inv, Distinct, AllSafe, AllAccounted, RefsAllocated;
    InvShape(w);
    InvParts(w);
    ReadersFind(w, t);
    ReaderSeeks(w, t);
    VisitMatches(w.port, w.readers[t].a, id);
  }

  lemma {:induction false} ReaderSeeks(w: World, t: Thread)
    requires AllSafe(w) && t in w.readers
    ensures w.readers[t].a < ID_LIMIT
  {
    assert Safe(w, t);
  }

  lemma {:induction false} VisitMatches(p: Port, a: nat, id: SessId)
    requires Distinct(p.sess) && id in p.sess && a < ID_LIMIT
    ensures p.sess[id].portId == a <==> a in Entries(p) && Entries(p)[a].id == id
  {
    hide Entries, Distinct;
    if a in Entries(p) {
      var x := EntriesKey(p, a);
    }
    if p.sess[id].portId == a {
      EntriesAt(p, id);
    }
  }

  /** A lookup of somebody who is logged in, with nothing in between, gets a reference to the session of the map. */
  lemma {:induction false} LookupGets(w: World, t: Thread, a: nat)
    requires Inv(w) && Allowed(w, Enter(t, a)) && Distinct(w.port.sess) && a in Entries(w.port)
    ensures var id := Entries(w.port)[a].id;
            var entered := Step(w, Enter(t, a));
            var visited := Step(entered, Visit(t, id));
            var got := Step(visited, TryGet(t));
            && Allowed(entered, Visit(t, id)) && Allowed(visited, TryGet(t))
            && got.holders == w.holders + multiset{id}
            && id in w.port.sess && got.port == Get(w.port, id) && got.port != w.port
  {
    hide Entries, Inv, Distinct, Step, Allowed, Get;
    InvShape(w);
    var id := EntriesKey(w.port, a);
    LinkedReferenced(w, id);
    ReaderEnters(w, t, a, id);
    var entered := Step(w, Enter(t, a));
    ReaderVisits(entered, t, id);
    ReaderGets(Step(entered, Visit(t, id)), t, id);
  }

  lemma {:induction false} LinkedReferenced(w: World, id: SessId)
    requires Inv(w) && Linked(w.port, id)
    ensures w.port.sess[id].kref > 0
  {
    assert Accounted(w, id);
  }

  lemma {:induction false} ReaderEnters(w: World, t: Thread, a: nat, id: SessId)
    requires |w.port.table| == HASH_SIZE && Allowed(w, Enter(t, a)) && Linked(w.port, id)
    ensures var v := Step(w, Enter(t, a));
            && v == w.(readers := v.readers)
            && t in v.readers && v.readers[t].a == a && v.readers[t].found.None? && id in v.readers[t].seen
  {
  }

  lemma {:induction false} ReaderVisits(w: World, t: Thread, id: SessId)
    requires |w.port.table| == HASH_SIZE && t in w.readers && w.readers[t].found.None? && id in w.readers[t].seen
    requires id in w.port.sess && w.port.sess[id].portId == w.readers[t].a
    ensures Allowed(w, Visit(t, id))
    ensures var v := Step(w, Visit(t, id));
            v == w.(readers := v.readers) && t in v.readers && v.readers[t].found == Some(id)
  {
  }

  lemma {:induction false} ReaderGets(w: World, t: Thread, id: SessId)
    requires |w.port.table| == HASH_SIZE && t in w.readers && w.readers[t].found == Some(id)
    requires id in w.port.sess && w.port.sess[id].kref > 0
    ensures Allowed(w, TryGet(t))
    ensures var v := Step(w, TryGet(t));
            && v.holders == w.holders + multiset{id} && v.port == Get(w.port, id) && v.port != w.port
  {
    assert Get(w.port, id).sess[id].kref == w.port.sess[id].kref + 1;
  }

  /** Session `id` is as it was, or its memory is gone. */
  predicate Frozen(w: World, w': World, id: SessId)
    requires id in w.port.sess
  {
    id in w'.port.sess ==> w'.port.sess[id] == w.port.sess[id]
  }

  lemma {:induction false} WithdrawFrozen(w: World, x: SessId, id: SessId)
    requires |w.port.table| == HASH_SIZE && x in w.port.sess && id in w.port.sess && x != id
    ensures Frozen(w, Withdraw(w, x), id) && id in Withdraw(w, x).port.sess
  {
  }

  lemma {:induction false} PutFrozen(w: World, x: SessId, id: SessId)
    requires id in w.port.sess && x != id
    ensures Frozen(w, PutIn(w, x), id) && id in PutIn(w, x).port.sess
  {
  }

  lemma {:induction false} CloseFrozen(w: World, x: SessId, id: SessId)
    requires id in w.port.sess && !Linked(w.port, id)
    ensures Frozen(w, CloseIn(w, x), id)
  {
    hide Put, Unhash, PutIn;
    if |w.port.table| == HASH_SIZE && Linked(w.port, x) {
      WithdrawFrozen(w, x, id);
      PutFrozen(Withdraw(w, x), x, id);
    }
  }

  lemma {:induction false} LoginFrozen(p: Port, page: Option<Page>, l: Login, id: SessId)
    requires |p.table| == HASH_SIZE && id in p.sess && !Linked(p, id) && l.a < ID_LIMIT
    requires l.memory.Some? ==> l.memory.value !in p.sess
    ensures id in Prli(p, page, l).0.sess && Prli(p, page, l).0.sess[id] == p.sess[id]
  {
    hide SessHash;
  }

  /** A session whose count has reached zero keeps it, whatever happens, until its memory is freed. */
  lemma {:induction false} FrozenStep(w: World, ev: Event, id: SessId)
    requires Inv(w) && Allowed(w, ev) && id in w.port.sess && w.port.sess[id].kref == 0
    ensures Frozen(w, Step(w, ev), id)
  {
    hide Inv, Step, Prli, Lookup, Unhash, PutIn, CloseIn;
    ZeroMeansNone(w, id);
    InvShape(w);
    match ev
    case PrliEvent(page, l) =>
      StepOfLock(w, ev);
      LoginFrozen(w.port, page, l, id);
    case PrloDelete(a) =>
      StepOfLock(w, ev);
      LookupAgrees(w.port, a);
      if Lookup(w.port, a).Some? {
        WithdrawFrozen(w, Lookup(w.port, a).value, id);
      }
    case PrloPut(x) =>
      StepOfReference(w, x);
      PutFrozen(w, x, id);
    case ReleaseClose(x) =>
      StepOfLock(w, ev);
      CloseFrozen(w, x, id);
    case RecvPut(x) =>
      StepOfReference(w, x);
      PutFrozen(w, x, id);
    case RcuFree(x) => StepOfReference(w, x);
    case TryGet(t) => StepOfReader(w, t);
    case _ => StepOfNone(w, ev);
  }

  lemma {:induction false} ZeroMeansNone(w: World, id: SessId)
    requires Inv(w) && id in w.port.sess && w.port.sess[id].kref == 0
    ensures id !in w.holders && id !in w.puts && !Linked(w.port, id)
  {
    assert Accounted(w, id);
  }

  /** Once a session's count is zero, no event hands out a reference to it while its memory lasts. */
  lemma {:induction false} NeverHandedOut(w: World, evs: seq<Event>, id: SessId)
    requires Inv(w) && Orderly(w, evs) && NeverLost(w, evs) && id in w.port.sess && w.port.sess[id].kref == 0
    requires forall n :: 0 <= n <= |evs| ==> id in Run(w, evs[..n]).port.sess
    ensures id in Run(w, evs).port.sess && Run(w, evs).port.sess[id] == w.port.sess[id]
    ensures id !in Run(w, evs).holders && id !in Run(w, evs).puts
  {
    hide Inv, Step, Orderly, Allowed, NeverLost, Lost;
    assert evs[..|evs|] == evs;
    if evs != [] {
      var f := evs[..|evs| - 1];
      OrderlyFront(w, evs);
      NeverLostFront(w, evs);
      forall n | 0 <= n <= |f| ensures id in Run(w, f[..n]).port.sess {
        assert f[..n] == evs[..n];
      }
      NeverHandedOut(w, f, id);
      RunKeeps(w, f);
      FrozenStep(Run(w, f), evs[|evs| - 1], id);
    }
    RunKeeps(w, evs);
    ZeroMeansNone(Run(w, evs), id);
  }

  /** In every state of a safe run what the BUG_ONs of a release demand holds. */
  lemma {:induction false} DemandsMet(w: World)
    requires Inv(w)
    ensures WellFormed(w.port) && Referenced(w.port)
  {
    hide WellFormed;
    assert forall x :: x in w.port.sess ==> Accounted(w, x);
  }
}
