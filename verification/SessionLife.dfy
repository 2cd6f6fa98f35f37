/** The life of sessions under every interleaving of logins, logouts, target release and lock-free lookups. */
module SessionLife {
  import opened Sessions

  type Thread = nat

  /** A lookup inside its RCU read section. `seen` is every session that was in the table at some time since the
      section began, so every session the walk can still reach; `found` is the one whose port id matched. */
  datatype Reader = Reader(a: nat, seen: set<SessId>, found: Option<SessId>)

  /** A release of the target that walks the table, holding the lock: at a bucket, with the session it will close next
      or none left; or behind a session it has just closed, whose link, still in that session's memory, it reads next.
      `guard` is a read section it runs in, if it has entered one: the source's release has none. */
  datatype Walk =
    | Idle
    | At(guard: Option<Thread>, b: nat, cur: Option<SessId>)
    | Closed(guard: Option<Thread>, b: nat, id: SessId, next: Option<SessId>)

  /** `holders` are the references of frames being received, `puts` those of logouts that have left the lock and not
      yet dropped theirs. `rcu` are the queued callbacks, each with the readers it still waits for. `stray` is an
      access to a session that is not allocated. */
  datatype World = World(port: Port, readers: map<Thread, Reader>, holders: multiset<SessId>,
                         puts: multiset<SessId>, rcu: map<SessId, set<Thread>>, walk: Walk, stray: bool)

  datatype Event =
    | PrliEvent(page: Option<Page>, login: Login)
    | PrloDelete(a: nat)
    | PrloPut(id: SessId)
    | ReleaseBegin(guard: Option<Thread>)
    | ReleaseClose(id: SessId)
    | ReleaseNext
    | ReleaseBucket
    | EnableEvent
    | Enter(t: Thread, a: nat)
    | Visit(t: Thread, id: SessId)
    | TryGet(t: Thread)
    | Leave(t: Thread)
    | RecvPut(id: SessId)
    | RcuFree(id: SessId)

  // --------------------------------------------------------------------------
  // Steps
  // --------------------------------------------------------------------------

  function TableIds(p: Port): set<SessId> {
    set id | id in p.sess && p.sess[id].portId != NO_PORT
  }

  /** Readers in their section may come across a session that has just been added. */
  function Noticed(readers: map<Thread, Reader>, p: Port): map<Thread, Reader> {
    map t | t in readers :: readers[t].(seen := readers[t].seen + TableIds(p))
  }

  function Dropped(rcu: map<SessId, set<Thread>>, t: Thread): map<SessId, set<Thread>> {
    map id | id in rcu :: rcu[id] - {t}
  }

  /** Drops a reference; the last one queues the callback, which waits for the readers of this moment. */
  function PutIn(w: World, id: SessId): World {
    w.(port := Put(w.port, id),
       rcu := if id in w.port.sess && w.port.sess[id].kref == 1 then w.rcu[id := w.readers.Keys] else w.rcu,
       stray := w.stray || id !in w.port.sess)
  }

  /** Takes the session out of the table; the caller now owns the table's reference. */
  function Withdraw(w: World, id: SessId): World
    requires |w.port.table| == HASH_SIZE && id in w.port.sess
  {
    w.(port := Unhash(w.port, id), puts := w.puts + multiset{id})
  }

  function DropPut(w: World, id: SessId): World {
    PutIn(w, id).(puts := w.puts - multiset{id})
  }

  function CloseIn(w: World, id: SessId): World {
    if |w.port.table| == HASH_SIZE && Linked(w.port, id) then DropPut(Withdraw(w, id), id) else w
  }

  function CloseStep(w: World, id: SessId): World
    requires |w.port.table| == HASH_SIZE && w.walk.At? && w.walk.b < HASH_SIZE
  {
    CloseIn(w, id).(walk := Closed(w.walk.guard, w.walk.b, id, After(w.port.table[w.walk.b], id)),
                    stray := w.stray || id !in w.port.sess)
  }

  function NextBucket(w: World): World
    requires |w.port.table| == HASH_SIZE && w.walk.At?
  {
    var n := w.walk.b + 1;
    w.(walk := if n < HASH_SIZE then At(w.walk.guard, n, First(w.port.table[n])) else Idle)
  }

  function TryGetIn(w: World, t: Thread): World
    requires t in w.readers && w.readers[t].found.Some?
  {
    var id := w.readers[t].found.value;
    var w' := w.(readers := w.readers[t := Reader(w.readers[t].a, {}, None)]);
    if id !in w.port.sess then w'.(stray := true)
    else if w.port.sess[id].kref == 0 then w'
    else w'.(port := Get(w.port, id), holders := w.holders + multiset{id})
  }

  function Visited(w: World, t: Thread, id: SessId): World
    requires t in w.readers
  {
    if id !in w.port.sess then w.(stray := true)
    else if w.port.sess[id].portId == w.readers[t].a
    then w.(readers := w.readers[t := w.readers[t].(found := Some(id))])
    else w
  }

  /** The RCU callback frees the memory. */
  function Reclaimed(w: World, id: SessId): World {
    w.(port := w.port.(sess := w.port.sess - {id}), rcu := w.rcu - {id})
  }

  /** What each thread, the allocator and RCU can do next. The lock keeps logins, logouts and releases apart. */
  predicate Allowed(w: World, ev: Event) {
    match ev
    case PrliEvent(_, l) =>
      w.walk.Idle? && l.a < ID_LIMIT && (l.memory.Some? ==> l.memory.value !in w.port.sess)
    case PrloDelete(a) => w.walk.Idle? && a < ID_LIMIT
    case PrloPut(id) => id in w.puts
    case ReleaseBegin(g) => w.walk.Idle? && (g.Some? ==> g.value in w.readers)
    case ReleaseClose(id) => w.walk.At? && w.walk.b < HASH_SIZE && w.walk.cur == Some(id)
    case ReleaseNext => w.walk.Closed?
    case ReleaseBucket => w.walk.At? && w.walk.cur.None?
    case EnableEvent => true
    case Enter(t, a) => t !in w.readers && a < ID_LIMIT
    case Visit(t, id) => t in w.readers && w.readers[t].found.None? && id in w.readers[t].seen
    case TryGet(t) => t in w.readers && w.readers[t].found.Some?
    case Leave(t) => t in w.readers && w.readers[t].found.None? && (w.walk.Idle? || w.walk.guard != Some(t))
    case RecvPut(id) => id in w.holders
    case RcuFree(id) => id in w.rcu && w.rcu[id] == {}
  }

  function Step(w: World, ev: Event): World {
    if |w.port.table| != HASH_SIZE || !Allowed(w, ev) then w
    else
      match ev
      case PrliEvent(page, l) =>
        var p := Prli(w.port, page, l).0;
        w.(port := p, readers := Noticed(w.readers, p))
      case PrloDelete(a) =>
        (match Lookup(w.port, a)
         case Some(id) => if id in w.port.sess then Withdraw(w, id) else w.(stray := true)
         case None => w)
      case PrloPut(id) => DropPut(w, id)
      case ReleaseBegin(g) =>
        w.(port := w.port.(enabled := false), walk := At(g, 0, First(w.port.table[0])))
      case ReleaseClose(id) => CloseStep(w, id)
      case ReleaseNext =>
        if w.walk.id !in w.port.sess then w.(stray := true, walk := Idle)
        else w.(walk := At(w.walk.guard, w.walk.b, w.walk.next))
      case ReleaseBucket => NextBucket(w)
      case EnableEvent => w.(port := w.port.(enabled := true))
      case Enter(t, a) => w.(readers := w.readers[t := Reader(a, TableIds(w.port), None)])
      case Visit(t, id) => Visited(w, t, id)
      case TryGet(t) => TryGetIn(w, t)
      case Leave(t) => w.(readers := w.readers - {t}, rcu := Dropped(w.rcu, t))
      case RecvPut(id) => PutIn(w, id).(holders := w.holders - multiset{id})
      case RcuFree(id) => Reclaimed(w, id)
  }

  lemma {:induction false} StepOfReader(w: World, t: Thread)
    requires |w.port.table| == HASH_SIZE
    ensures Allowed(w, TryGet(t)) ==> Step(w, TryGet(t)) == TryGetIn(w, t)
    ensures Allowed(w, Leave(t)) ==> Step(w, Leave(t)) == w.(readers := w.readers - {t}, rcu := Dropped(w.rcu, t))
  {
  }

  lemma {:induction false} StepOfReference(w: World, id: SessId)
    requires |w.port.table| == HASH_SIZE
    ensures id in w.holders ==> Step(w, RecvPut(id)) == PutIn(w, id).(holders := w.holders - multiset{id})
    ensures id in w.puts ==> Step(w, PrloPut(id)) == PutIn(w, id).(puts := w.puts - multiset{id})
    ensures Allowed(w, RcuFree(id)) ==> Step(w, RcuFree(id)) == Reclaimed(w, id)
  {
    hide Put;
  }

  lemma {:induction false} StepOfLock(w: World, ev: Event)
    requires |w.port.table| == HASH_SIZE && Allowed(w, ev)
    ensures ev.PrliEvent? ==> Step(w, ev).port == Prli(w.port, ev.page, ev.login).0
    ensures ev.PrloDelete? ==>
              match Lookup(w.port, ev.a)
              case Some(id) => id in w.port.sess ==> Step(w, ev) == Withdraw(w, id)
              case None => Step(w, ev) == w
    ensures ev.ReleaseClose? ==> Step(w, ev).port == CloseIn(w, ev.id).port
  {
    hide Prli, Lookup, CloseIn, Withdraw;
  }

  lemma {:induction false} StepOfNone(w: World, ev: Event)
    requires ev.Enter? || ev.Visit? || ev.Leave? || ev.ReleaseBegin? || ev.ReleaseNext? || ev.ReleaseBucket? ||
             ev.EnableEvent?
    ensures Step(w, ev).port.sess == w.port.sess
  {
  }

  function Run(w: World, evs: seq<Event>): World {
    if evs == [] then w else Step(Run(w, evs[..|evs| - 1]), evs[|evs| - 1])
  }

  function EmptyTable(): seq<seq<SessId>> {
    seq(HASH_SIZE, _ => [])
  }

  function Start(): World {
    World(Port(EmptyTable(), map[], 0, false, false), map[], multiset{}, multiset{}, map[], Idle, false)
  }

  // --------------------------------------------------------------------------
  // What every step keeps
  // --------------------------------------------------------------------------

  /** The reference count is the table's reference plus those in flight; a session without references has been
      released exactly once and waits for its callback, one with references has not. */
  predicate Accounted(w: World, id: SessId)
    requires id in w.port.sess
  {
    var s := w.port.sess[id];
    && s.kref == (if s.portId != NO_PORT then 1 else 0) + w.holders[id] + w.puts[id]
    && s.frees == (if s.kref == 0 then 1 else 0)
    && (id in w.rcu <==> s.kref == 0)
  }

  predicate AllAccounted(w: World) {
    forall id :: id in w.port.sess ==> Accounted(w, id)
  }

  /** Every reference and every queued callback is of an allocated session. */
  ghost predicate RefsAllocated(w: World) {
    forall id :: id in w.holders || id in w.puts || id in w.rcu ==> id in w.port.sess
  }

  /** All that a reader can reach is allocated, and what is about to be freed waits for it. */
  predicate Safe(w: World, t: Thread)
    requires t in w.readers
  {
    && (forall id :: id in w.readers[t].seen ==> id in w.port.sess && (id in w.rcu ==> t in w.rcu[id]))
    && (w.readers[t].found.Some? ==> w.readers[t].found.value in w.readers[t].seen)
    && w.readers[t].a < ID_LIMIT
  }

  predicate AllSafe(w: World) {
    forall t :: t in w.readers ==> Safe(w, t)
  }

  predicate EmptyUnlessEnabled(w: World) {
    w.port.enabled || !w.walk.Idle? || forall id :: id in w.port.sess ==> w.port.sess[id].portId == NO_PORT
  }

  ghost predicate Base(w: World) {
    && WellFormed(w.port)
    && AllAccounted(w)
    && RefsAllocated(w)
    && AllSafe(w)
    && !w.stray && !w.port.bug
  }

  lemma {:induction false} PutPortKeeps(p: Port, id: SessId)
    requires WellFormed(p) && id in p.sess && p.sess[id].kref > 0
    ensures WellFormed(Put(p, id))
  {
    hide WellFormed;
    SameTable(p, Put(p, id));
  }

  lemma {:induction false} DropPutKeeps(w: World, id: SessId)
    requires Base(w) && id in w.puts
    ensures Base(DropPut(w, id))
  {
    hide WellFormed;
    assert Accounted(w, id);
    PutPortKeeps(w.port, id);
    var w' := DropPut(w, id);
    forall x | x in w'.port.sess ensures Accounted(w', x) {
      assert Accounted(w, x);
    }
    forall t | t in w'.readers ensures Safe(w', t) {
      assert Safe(w, t);
    }
  }

  lemma {:induction false} RecvPutKeeps(w: World, id: SessId)
    requires Base(w) && id in w.holders
    ensures Base(PutIn(w, id).(holders := w.holders - multiset{id}))
  {
    hide WellFormed;
    assert Accounted(w, id);
    PutPortKeeps(w.port, id);
    var w' := PutIn(w, id).(holders := w.holders - multiset{id});
    forall x | x in w'.port.sess ensures Accounted(w', x) {
      assert Accounted(w, x);
    }
    forall t | t in w'.readers ensures Safe(w', t) {
      assert Safe(w, t);
    }
  }

  lemma {:induction false} WithdrawKeeps(w: World, id: SessId)
    requires Base(w) && Linked(w.port, id)
    ensures |w.port.table| == HASH_SIZE && w.port.count > 0 && Base(Withdraw(w, id))
  {
    UnhashKeeps(w.port, id);
    hide WellFormed, SessHash, Without;
    assert Accounted(w, id);
    var w' := Withdraw(w, id);
    forall x | x in w'.port.sess ensures Accounted(w', x) {
      assert Accounted(w, x);
    }
    forall t | t in w'.readers ensures Safe(w', t) {
      assert Safe(w, t);
    }
  }

  // --------------------------------------------------------------------------
  // The table as a map, in every interleaving
  // --------------------------------------------------------------------------

  ghost predicate Counted(p: Port) {
    Distinct(p.sess) && |Entries(p)| == p.count
  }

  /** A release has emptied all buckets in front of it and is at the head of its own. */
  ghost predicate Walking(w: World) {
    !w.walk.Idle? ==>
      && w.walk.b < HASH_SIZE == |w.port.table| && Swept(w.port, w.walk.b)
      && (w.walk.At? ==> w.walk.cur == First(w.port.table[w.walk.b]))
      && (w.walk.Closed? ==> w.walk.next == First(w.port.table[w.walk.b]) && !Linked(w.port, w.walk.id))
  }

  /** Callbacks wait for readers only. */
  predicate WaitersRead(w: World) {
    forall id :: id in w.rcu ==> w.rcu[id] <= w.readers.Keys
  }

  ghost predicate Inv(w: World) {
    Base(w) && Counted(w.port) && EmptyUnlessEnabled(w) && Walking(w) && WaitersRead(w)
  }

  ghost function RegistryOf(w: World): Registry
    requires Distinct(w.port.sess)
  {
    Registry(Entries(w.port), w.port.enabled)
  }

  function Others(m: map<nat, Entry>, id: SessId): map<nat, Entry> {
    map a | a in m && m[a].id != id :: m[a]
  }

  /** What an event does to the map: only logins, logouts, release and enabling touch it. */
  function RegistryStep(r: Registry, ev: Event): Registry {
    match ev
    case PrliEvent(page, l) => MapPrli(r, page, l).0
    case PrloDelete(a) => r.(entries := r.entries - {a})
    case ReleaseBegin(_) => r.(enabled := false)
    case ReleaseClose(id) => r.(entries := Others(r.entries, id))
    case EnableEvent => r.(enabled := true)
    case _ => r
  }

  function RegistryRun(r: Registry, evs: seq<Event>): Registry {
    if evs == [] then r else RegistryStep(RegistryRun(r, evs[..|evs| - 1]), evs[|evs| - 1])
  }

  lemma {:induction false} WithdrawEntries(w: World, id: SessId)
    requires Base(w) && Counted(w.port) && Linked(w.port, id) && w.port.count > 0 && |w.port.table| == HASH_SIZE
    requires Distinct(Unhash(w.port, id).sess)
    ensures Counted(Unhash(w.port, id))
    ensures Entries(Unhash(w.port, id)) == Entries(w.port) - {w.port.sess[id].portId}
  {
    hide WellFormed, SessHash, Without, AllAccounted, AllSafe, Distinct, Entries;
    var p, q, a := w.port, Unhash(w.port, id), w.port.sess[id].portId;
    RemoveEntries(p, q, id);
    EntriesAt(p, id);
    assert Entries(p).Keys == Entries(q).Keys + {a};
  }

  ghost predicate Sound(w: World) {
    Base(w) && Counted(w.port)
  }

  lemma {:induction false} BaseFacts(w: World, id: SessId)
    requires Base(w)
    ensures |w.port.table| == HASH_SIZE && Distinct(w.port.sess) && !w.port.bug
    ensures id in w.puts || id in w.holders ==> id in w.port.sess && w.port.sess[id].kref > 0
  {
    assert id in w.port.sess ==> Accounted(w, id);
  }

  /** Two ports with the same linked sessions. */
  predicate SameLinks(p: Port, q: Port) {
    && Carried(p.sess, q.sess) && Carried(q.sess, p.sess)
    && q.count == p.count && q.enabled == p.enabled && q.sess.Keys == p.sess.Keys && q.table == p.table
  }

  lemma {:induction false} PutLinks(p: Port, id: SessId)
    requires id in p.sess && p.sess[id].kref > 0
    ensures SameLinks(p, Put(p, id))
  {
  }

  lemma {:induction false} LinksCounted(p: Port, q: Port)
    requires Counted(p) && SameLinks(p, q) && Distinct(q.sess)
    ensures Counted(q) && Entries(q) == Entries(p)
  {
    hide Entries, Distinct;
    SameEntries(p, q);
  }

  lemma {:induction false} DropPutSound(w: World, id: SessId)
    requires Sound(w) && id in w.puts
    ensures Sound(DropPut(w, id)) && SameLinks(w.port, DropPut(w, id).port)
    ensures Entries(DropPut(w, id).port) == Entries(w.port)
  {
    hide Base, Put, SameLinks, Entries, Distinct;
    BaseFacts(w, id);
    DropPutKeeps(w, id);
    BaseFacts(DropPut(w, id), id);
    PutLinks(w.port, id);
    LinksCounted(w.port, DropPut(w, id).port);
  }

  lemma {:induction false} RecvPutSound(w: World, id: SessId)
    requires Sound(w) && id in w.holders
    ensures var w' := PutIn(w, id).(holders := w.holders - multiset{id});
            Sound(w') && SameLinks(w.port, w'.port) && Entries(w'.port) == Entries(w.port)
  {
    hide Base, Put, SameLinks, Entries, Distinct;
    var w' := PutIn(w, id).(holders := w.holders - multiset{id});
    BaseFacts(w, id);
    RecvPutKeeps(w, id);
    BaseFacts(w', id);
    PutLinks(w.port, id);
    LinksCounted(w.port, w'.port);
  }

  lemma {:induction false} WithdrawSound(w: World, id: SessId)
    requires Sound(w) && Linked(w.port, id)
    ensures |w.port.table| == HASH_SIZE && Sound(Withdraw(w, id))
    ensures Entries(Withdraw(w, id).port) == Entries(w.port) - {w.port.sess[id].portId}
  {
    hide AllAccounted, AllSafe, AllPlaced, AllHomed, Distinct, Entries, Total;
    WithdrawKeeps(w, id);
    WithdrawEntries(w, id);
  }

  /** `w'` has the sessions of `w`, of which those in `ids` have left the table. */
  ghost predicate Left(w: World, w': World, ids: seq<SessId>) {
    && w'.port.enabled == w.port.enabled
    && w'.port.sess.Keys == w.port.sess.Keys
    && forall x :: x in w.port.sess ==>
         && (Linked(w'.port, x) <==> Linked(w.port, x) && x !in ids)
         && (Linked(w'.port, x) ==> w'.port.sess[x].portId == w.port.sess[x].portId)
  }

  lemma {:induction false} SameLinksLinked(p: Port, q: Port, x: SessId)
    requires SameLinks(p, q)
    ensures Linked(q, x) <==> Linked(p, x)
    ensures Linked(q, x) ==> q.sess[x].portId == p.sess[x].portId
  {
  }

  lemma {:induction false} WithdrawLeft(w: World, id: SessId)
    requires |w.port.table| == HASH_SIZE && Linked(w.port, id) && w.port.count > 0
    ensures id in w.port.sess && Left(w, Withdraw(w, id), [id])
  {
  }

  lemma {:induction false} LeftThenSame(w: World, w1: World, w': World, ids: seq<SessId>)
    requires Left(w, w1, ids) && SameLinks(w1.port, w'.port)
    ensures Left(w, w', ids)
  {
    hide SameLinks, Linked;
    SameLinksKeys(w1.port, w'.port);
    forall x {
      SameLinksLinked(w1.port, w'.port, x);
    }
  }

  lemma {:induction false} CloseSound(w: World, id: SessId)
    requires Sound(w)
    ensures Sound(CloseIn(w, id)) && Left(w, CloseIn(w, id), [id])
  {
    hide Base, Counted, SameLinks, Put, Unhash, Linked, Left, Withdraw, DropPut;
    if Linked(w.port, id) {
      WithdrawKeeps(w, id);
      WithdrawLeft(w, id);
      WithdrawSound(w, id);
      var w1 := Withdraw(w, id);
      WithdrawOwed(w, id);
      DropPutSound(w1, id);
      LeftThenSame(w, w1, DropPut(w1, id), [id]);
    } else {
      LeftNone(w, id);
    }
  }

  lemma {:induction false} WithdrawOwed(w: World, id: SessId)
    requires |w.port.table| == HASH_SIZE && id in w.port.sess
    ensures id in Withdraw(w, id).puts
  {
  }

  lemma {:induction false} LeftNone(w: World, id: SessId)
    requires !Linked(w.port, id)
    ensures Left(w, w, [id])
  {
  }

  lemma {:induction false} SameLinksKeys(p: Port, q: Port)
    requires SameLinks(p, q)
    ensures q.sess.Keys == p.sess.Keys && q.enabled == p.enabled
  {
  }

  lemma {:induction false} SwitchTable(p: Port, on: bool)
    requires WellFormed(p)
    ensures WellFormed(p.(enabled := on))
  {
    hide WellFormed;
    SameTable(p, p.(enabled := on));
  }

  lemma {:induction false} SwitchBase(w: World, on: bool)
    requires Base(w)
    ensures Base(w.(port := w.port.(enabled := on)))
  {
    hide WellFormed;
    SwitchTable(w.port, on);
    var w' := w.(port := w.port.(enabled := on));
    forall x | x in w'.port.sess ensures Accounted(w', x) {
      assert Accounted(w, x);
    }
    forall t | t in w'.readers ensures Safe(w', t) {
      assert Safe(w, t);
    }
  }

  lemma {:induction false} SwitchSound(w: World, on: bool)
    requires Sound(w)
    ensures Sound(w.(port := w.port.(enabled := on)))
  {
    hide Base, Distinct, Entries;
    SwitchBase(w, on);
    SameEntries(w.port, w.port.(enabled := on));
  }

  // --------------------------------------------------------------------------
  // The remaining steps
  // --------------------------------------------------------------------------

  lemma {:induction false} CreateSessions(p: Port, l: Login, x: SessId)
    requires |p.table| == HASH_SIZE
    ensures var q := Create(p, l).0;
            && q.bug == p.bug && q.enabled == p.enabled && p.sess.Keys <= q.sess.Keys
            && (x in p.sess && Some(x) != l.memory ==>
                  q.sess[x].(params := p.sess[x].params) == p.sess[x])
            && (x in q.sess && x !in p.sess ==> l.memory == Some(x) && q.sess[x] == NewSess(l))
  {
    hide Lookup, SessHash;
  }

  function LoggedIn(w: World, l: Login): World
    requires |w.port.table| == HASH_SIZE
  {
    var p := Create(w.port, l).0;
    w.(port := p, readers := Noticed(w.readers, p))
  }

  lemma {:induction false} LoginAccounted(w: World, l: Login, x: SessId)
    requires Base(w) && l.a < ID_LIMIT && (l.memory.Some? ==> l.memory.value !in w.port.sess)
    requires |w.port.table| == HASH_SIZE && x in LoggedIn(w, l).port.sess
    ensures Accounted(LoggedIn(w, l), x)
  {
    hide WellFormed, Create, AllSafe, Noticed;
    CreateSessions(w.port, l, x);
    assert x in w.port.sess ==> Accounted(w, x);
  }

  lemma {:induction false} LoginSafe(w: World, l: Login, t: Thread)
    requires |w.port.table| == HASH_SIZE && AllSafe(w) && t in w.readers
    requires forall x :: x in LoggedIn(w, l).port.sess ==> Accounted(LoggedIn(w, l), x)
    ensures Safe(LoggedIn(w, l), t)
  {
    hide Create;
    var w' := LoggedIn(w, l);
    assert Safe(w, t);
    CreateSessions(w.port, l, 0);
    forall x | x in w'.readers[t].seen ensures x in w'.port.sess && (x in w'.rcu ==> t in w'.rcu[x]) {
      if x !in w.readers[t].seen {
        assert Accounted(w', x);
      }
    }
  }

  lemma {:induction false} LoginBase(w: World, l: Login)
    requires Base(w) && l.a < ID_LIMIT && (l.memory.Some? ==> l.memory.value !in w.port.sess)
    ensures |w.port.table| == HASH_SIZE && Base(LoggedIn(w, l))
  {
    CreateKeeps(w.port, l);
    BaseFacts(w, 0);
    hide WellFormed, Create, Accounted, Safe;
    CreateSessions(w.port, l, 0);
    var w' := LoggedIn(w, l);
    forall x | x in w'.port.sess ensures Accounted(w', x) {
      LoginAccounted(w, l, x);
    }
    forall t | t in w'.readers ensures Safe(w', t) {
      LoginSafe(w, l, t);
    }
  }

  lemma {:induction false} CountLogin(p: Port, l: Login)
    requires WellFormed(p) && Counted(p) && l.a < ID_LIMIT && (l.memory.Some? ==> l.memory.value !in p.sess)
    ensures Counted(Create(p, l).0)
  {
    hide WellFormed, Distinct, Entries, Lookup;
    CreateAgrees(p, l);
    WellFormedFacts(p);
    WellFormedFacts(Create(p, l).0);
    LookupAgrees(p, l.a);
    var m, m' := Entries(p), Entries(Create(p, l).0);
    assert m'.Keys == m.Keys || (l.a !in m && m'.Keys == m.Keys + {l.a});
  }

  lemma {:induction false} WellFormedFacts(p: Port)
    requires WellFormed(p)
    ensures |p.table| == HASH_SIZE && Distinct(p.sess)
  {
  }

  lemma {:induction false} NoticedNothing(w: World)
    requires Base(w)
    ensures Base(w.(readers := Noticed(w.readers, w.port)))
  {
    hide WellFormed;
    var w' := w.(readers := Noticed(w.readers, w.port));
    forall x | x in w'.port.sess ensures Accounted(w', x) {
      assert Accounted(w, x);
    }
    forall t | t in w'.readers ensures Safe(w', t) {
      assert Safe(w, t);
    }
  }

  /** A login keeps the invariant, and does to the table what the map version does, with the same answer. */
  lemma {:induction false} PrliKeeps(w: World, page: Option<Page>, l: Login)
    requires Inv(w) && Allowed(w, PrliEvent(page, l))
    ensures |w.port.table| == HASH_SIZE && Inv(Step(w, PrliEvent(page, l)))
    ensures MapPrli(RegistryOf(w), page, l) == (RegistryOf(Step(w, PrliEvent(page, l))), Prli(w.port, page, l).1)
  {
    hide Base, WellFormed, Distinct, Entries, Create, MapCreate;
    BaseFacts(w, 0);
    if page.Some? && Refusal(page.value, w.port.enabled).None? {
      BaseWellFormed(w);
      LoginBase(w, l);
      CountLogin(w.port, l);
      CreateAgrees(w.port, l);
      CreateSessions(w.port, l, 0);
      assert Step(w, PrliEvent(page, l)) == LoggedIn(w, l);
    } else {
      NoticedNothing(w);
      assert Step(w, PrliEvent(page, l)) == w.(readers := Noticed(w.readers, w.port));
    }
  }

  lemma {:induction false} BaseWellFormed(w: World)
    requires Base(w)
    ensures WellFormed(w.port)
  {
  }

  /** A logout removes exactly its port id from the map. */
  lemma {:induction false} PrloKeeps(w: World, a: nat)
    requires Inv(w) && Allowed(w, PrloDelete(a))
    ensures Inv(Step(w, PrloDelete(a)))
    ensures RegistryOf(Step(w, PrloDelete(a))) == RegistryStep(RegistryOf(w), PrloDelete(a))
  {
    hide Base, WellFormed, Entries, Unhash, Lookup, Counted, SessHash;
    BaseFacts(w, 0);
    BaseWellFormed(w);
    LookupAgrees(w.port, a);
    match Lookup(w.port, a)
    case Some(id) =>
      WithdrawSound(w, id);
      WithdrawKeeps(w, id);
      WithdrawLeft(w, id);
    case None =>
  }

  lemma {:induction false} EnterKeeps(w: World, t: Thread, a: nat)
    requires Base(w) && t !in w.readers && a < ID_LIMIT
    ensures Base(w.(readers := w.readers[t := Reader(a, TableIds(w.port), None)]))
  {
    hide WellFormed;
    var w' := w.(readers := w.readers[t := Reader(a, TableIds(w.port), None)]);
    forall x | x in w'.port.sess ensures Accounted(w', x) {
      assert Accounted(w, x);
    }
    forall u | u in w'.readers ensures Safe(w', u) {
      if u != t {
        assert Safe(w, u);
      } else {
        forall x | x in TableIds(w.port) ensures x in w.port.sess && x !in w.rcu {
          assert Accounted(w, x);
        }
      }
    }
  }

  lemma {:induction false} VisitKeeps(w: World, t: Thread, id: SessId)
    requires Base(w) && Allowed(w, Visit(t, id))
    ensures Base(Visited(w, t, id)) && Visited(w, t, id).port == w.port && Visited(w, t, id).walk == w.walk
  {
    hide WellFormed;
    assert Safe(w, t);
    var w' := Visited(w, t, id);
    forall x | x in w'.port.sess ensures Accounted(w', x) {
      assert Accounted(w, x);
    }
    forall u | u in w'.readers ensures Safe(w', u) {
      assert Safe(w, u);
    }
  }

  lemma {:induction false} LeaveKeeps(w: World, t: Thread)
    requires Base(w)
    ensures Base(w.(readers := w.readers - {t}, rcu := Dropped(w.rcu, t)))
  {
    hide WellFormed;
    var w' := w.(readers := w.readers - {t}, rcu := Dropped(w.rcu, t));
    forall x | x in w'.port.sess ensures Accounted(w', x) {
      assert Accounted(w, x);
    }
    forall u | u in w'.readers ensures Safe(w', u) {
      assert Safe(w, u);
    }
  }

  lemma {:induction false} GetKeeps(p: Port, id: SessId)
    requires WellFormed(p) && id in p.sess
    ensures WellFormed(Get(p, id)) && SameLinks(p, Get(p, id))
  {
    hide WellFormed;
    SameTable(p, Get(p, id));
  }

  lemma {:induction false} TryGetKeeps(w: World, t: Thread)
    requires Base(w) && Allowed(w, TryGet(t))
    ensures Base(TryGetIn(w, t)) && SameLinks(w.port, TryGetIn(w, t).port)
  {
    hide WellFormed, SameLinks;
    assert Safe(w, t);
    GetKeeps(w.port, w.readers[t].found.value);
    SameLinksSelf(w.port);
    var w' := TryGetIn(w, t);
    forall x | x in w'.port.sess ensures Accounted(w', x) {
      assert Accounted(w, x);
    }
    forall u | u in w'.readers ensures Safe(w', u) {
      assert Safe(w, u);
    }
  }

  /** Memory of a released session goes away only when no reader can reach it, and after exactly one release. */
  lemma {:induction false} FreedOnce(w: World, id: SessId)
    requires Base(w) && Allowed(w, RcuFree(id))
    ensures id in w.port.sess && w.port.sess[id].kref == 0 && w.port.sess[id].frees == 1 && !Linked(w.port, id)
    ensures forall t :: t in w.readers ==> id !in w.readers[t].seen
    ensures id !in w.holders && id !in w.puts
  {
    hide WellFormed;
    assert Accounted(w, id);
    assert forall t :: t in w.readers ==> Safe(w, t);
  }

  lemma {:induction false} FreeTable(p: Port, id: SessId)
    requires WellFormed(p) && id in p.sess && !Linked(p, id)
    ensures WellFormed(p.(sess := p.sess - {id}))
  {
    var q := p.(sess := p.sess - {id});
    forall c, x | 0 <= c < HASH_SIZE && x in q.table[c] ensures Placed(q, x, c) {
      assert Placed(p, x, c);
    }
    forall x | x in q.sess ensures Homed(q, x) {
      assert Homed(p, x);
    }
  }

  lemma {:induction false} FreeLinks(p: Port, q: Port, id: SessId)
    requires Distinct(p.sess) && id in p.sess && !Linked(p, id) && q == p.(sess := p.sess - {id})
    ensures Distinct(q.sess) && Carried(p.sess, q.sess) && Carried(q.sess, p.sess)
  {
    assert forall x :: x in q.sess <==> x in p.sess && x != id;
    assert forall x :: x in q.sess ==> q.sess[x] == p.sess[x];
  }

  lemma {:induction false} FreeEntries(p: Port, id: SessId)
    requires Counted(p) && id in p.sess && !Linked(p, id)
    ensures Counted(p.(sess := p.sess - {id})) && Entries(p.(sess := p.sess - {id})) == Entries(p)
  {
    hide Distinct, Entries, Carried;
    var q := p.(sess := p.sess - {id});
    FreeLinks(p, q, id);
    SameEntries(p, q);
  }

  lemma {:induction false} RcuFreeBase(w: World, id: SessId)
    requires Base(w) && Allowed(w, RcuFree(id))
    ensures Base(Reclaimed(w, id))
  {
    FreedOnce(w, id);
    hide WellFormed;
    FreeTable(w.port, id);
    var w' := Reclaimed(w, id);
    forall x | x in w'.port.sess ensures Accounted(w', x) {
      assert Accounted(w, x);
    }
    forall t | t in w'.readers ensures Safe(w', t) {
      assert Safe(w, t);
    }
  }

  lemma {:induction false} SameLinksSelf(p: Port)
    ensures SameLinks(p, p)
  {
  }

  lemma {:induction false} SameWaiters(w: World, w': World, id: SessId)
    requires WaitersRead(w) && w.readers.Keys <= w'.readers.Keys
    requires w'.rcu == w.rcu || w'.rcu == w.rcu[id := w.readers.Keys]
    ensures WaitersRead(w')
  {
  }

  lemma {:induction false} PutWaiters(w: World, id: SessId)
    ensures PutIn(w, id).readers == w.readers && PutIn(w, id).walk == w.walk
    ensures PutIn(w, id).rcu == w.rcu || PutIn(w, id).rcu == w.rcu[id := w.readers.Keys]
  {
    hide Put;
  }

  lemma {:induction false} CloseWaiters(w: World, id: SessId)
    ensures CloseIn(w, id).readers == w.readers && CloseIn(w, id).walk == w.walk
    ensures CloseIn(w, id).rcu == w.rcu || CloseIn(w, id).rcu == w.rcu[id := w.readers.Keys]
  {
    hide PutIn, Unhash;
    if |w.port.table| == HASH_SIZE && Linked(w.port, id) {
      PutWaiters(Withdraw(w, id), id);
    }
  }

  lemma {:induction false} LeaveWaiters(w: World, t: Thread)
    requires WaitersRead(w)
    ensures WaitersRead(w.(readers := w.readers - {t}, rcu := Dropped(w.rcu, t)))
  {
  }

  lemma {:induction false} FreeWaiters(w: World, id: SessId)
    requires WaitersRead(w)
    ensures WaitersRead(Reclaimed(w, id))
  {
  }

  /** Only references dropped, readers leaving and callbacks touch the callbacks' waiters. */
  lemma {:induction false} OtherWaiters(w: World, ev: Event)
    requires !ev.PrloPut? && !ev.RecvPut? && !ev.ReleaseClose? && !ev.Leave? && !ev.RcuFree?
    ensures Step(w, ev).rcu == w.rcu && w.readers.Keys <= Step(w, ev).readers.Keys
  {
    hide Prli, Lookup, Unhash, Get, TableIds, First;
  }

  lemma {:induction false} WaitersKeep(w: World, ev: Event)
    requires WaitersRead(w)
    ensures WaitersRead(Step(w, ev))
  {
    hide Prli, Lookup, PutIn, CloseIn, Unhash, Get, After, WaitersRead, TryGetIn, Reclaimed, Dropped;
    match ev
    case PrloPut(id) =>
      PutWaiters(w, id);
      SameWaiters(w, Step(w, ev), id);
    case RecvPut(id) =>
      PutWaiters(w, id);
      SameWaiters(w, Step(w, ev), id);
    case ReleaseClose(id) =>
      CloseWaiters(w, id);
      SameWaiters(w, Step(w, ev), id);
    case Leave(t) => LeaveWaiters(w, t);
    case RcuFree(id) => FreeWaiters(w, id);
    case _ =>
      OtherWaiters(w, ev);
      SameWaiters(w, Step(w, ev), 0);
  }

  /** Steps that leave the lists alone leave a release where it is. */
  lemma {:induction false} RestingKeeps(w: World, w': World)
    requires Walking(w) && EmptyUnlessEnabled(w)
    requires w'.walk == w.walk && w'.port.table == w.port.table && (w'.port.enabled || !w.port.enabled)
    requires Carried(w'.port.sess, w.port.sess)
    ensures Walking(w') && EmptyUnlessEnabled(w')
  {
    hide SessHash;
    assert forall x :: x in w'.port.sess && w'.port.sess[x].portId != NO_PORT ==>
                         x in w.port.sess && w.port.sess[x].portId == w'.port.sess[x].portId;
  }

  lemma {:induction false} SameLinksInv(w: World, w': World)
    requires Inv(w) && Base(w') && SameLinks(w.port, w'.port) && w'.walk == w.walk && WaitersRead(w')
    ensures Inv(w') && RegistryOf(w') == RegistryOf(w)
  {
    hide Base, Entries, Walking, EmptyUnlessEnabled, Distinct;
    BaseFacts(w, 0);
    BaseFacts(w', 0);
    LinksCounted(w.port, w'.port);
    RestingKeeps(w, w');
  }

  lemma {:induction false} RcuFreeKeeps(w: World, id: SessId)
    requires Inv(w) && Allowed(w, RcuFree(id)) && WaitersRead(Reclaimed(w, id))
    ensures Inv(Reclaimed(w, id)) && RegistryOf(Reclaimed(w, id)) == RegistryOf(w)
  {
    hide Base, Counted, Entries, Distinct, Walking, EmptyUnlessEnabled, Carried;
    FreedOnce(w, id);
    RcuFreeBase(w, id);
    FreeEntries(w.port, id);
    BaseFacts(w, id);
    BaseFacts(Reclaimed(w, id), id);
    FreeLinks(w.port, Reclaimed(w, id).port, id);
    RestingKeeps(w, Reclaimed(w, id));
  }

  lemma {:induction false} EnableKeeps(w: World)
    requires Inv(w)
    ensures var w' := w.(port := w.port.(enabled := true));
            Inv(w') && RegistryOf(w') == RegistryStep(RegistryOf(w), EnableEvent)
  {
    hide Base, Entries, Walking, EmptyUnlessEnabled, Distinct;
    SwitchSound(w, true);
    var w' := w.(port := w.port.(enabled := true));
    SameEntries(w.port, w'.port);
    RestingKeeps(w, w');
  }

  // --------------------------------------------------------------------------
  // A release, session by session
  // --------------------------------------------------------------------------

  lemma {:induction false} MoveWalk(w: World, walk: Walk)
    requires Base(w)
    ensures Base(w.(walk := walk))
  {
    hide WellFormed;
    var w' := w.(walk := walk);
    forall x | x in w'.port.sess ensures Accounted(w', x) {
      assert Accounted(w, x);
    }
    forall t | t in w'.readers ensures Safe(w', t) {
      assert Safe(w, t);
    }
  }

  lemma {:induction false} BeginKeeps(w: World, g: Option<Thread>)
    requires Inv(w) && w.walk.Idle?
    ensures |w.port.table| == HASH_SIZE
    ensures var w' := w.(port := w.port.(enabled := false), walk := At(g, 0, First(w.port.table[0])));
            Inv(w') && RegistryOf(w') == RegistryStep(RegistryOf(w), ReleaseBegin(g))
  {
    hide Base, Entries, Distinct, SessHash;
    BaseFacts(w, 0);
    SwitchSound(w, false);
    var w1 := w.(port := w.port.(enabled := false));
    SameEntries(w.port, w1.port);
    MoveWalk(w1, At(g, 0, First(w.port.table[0])));
  }

  /** The session a release is about to close is in the table, at the head of its bucket. */
  lemma {:induction false} CursorLinked(w: World, id: SessId)
    requires WellFormed(w.port) && Walking(w) && w.walk.At? && w.walk.cur == Some(id)
    ensures Linked(w.port, id) && SessHash(w.port.sess[id].portId) == w.walk.b
    ensures w.port.table[w.walk.b] != [] && w.port.table[w.walk.b][0] == id
  {
    assert Placed(w.port, id, w.walk.b);
  }

  lemma {:induction false} ClosePort(w: World, id: SessId)
    requires |w.port.table| == HASH_SIZE && Linked(w.port, id) && w.port.count > 0
    ensures CloseIn(w, id).port == Close(w.port, id)
    ensures var b := SessHash(w.port.sess[id].portId);
            CloseIn(w, id).port.table == w.port.table[b := Without(w.port.table[b], id)]
    ensures CloseIn(w, id).walk == w.walk && CloseIn(w, id).readers == w.readers
    ensures CloseIn(w, id).rcu == w.rcu || CloseIn(w, id).rcu == w.rcu[id := w.readers.Keys]
  {
    hide SessHash, Without;
  }

  lemma {:induction false} OthersIs(p: Port, id: SessId)
    requires Distinct(p.sess) && Linked(p, id)
    ensures Others(Entries(p), id) == Entries(p) - {p.sess[id].portId}
  {
    hide Entries;
    EntriesAt(p, id);
    forall a | a in Entries(p) && Entries(p)[a].id == id ensures a == p.sess[id].portId {
      var x := EntriesKey(p, a);
    }
  }

  lemma {:induction false} SweptStays(w: World, w': World, n: nat, id: SessId)
    requires Swept(w.port, n) && Left(w, w', [id])
    ensures Swept(w'.port, n)
  {
    hide SessHash;
    assert forall x :: x in w'.port.sess && w'.port.sess[x].portId != NO_PORT ==> Linked(w'.port, x);
  }

  lemma {:induction false} CloseEntries(w: World, id: SessId)
    requires Sound(w) && Linked(w.port, id)
    ensures Distinct(CloseIn(w, id).port.sess) && Distinct(w.port.sess)
    ensures Entries(CloseIn(w, id).port) == Entries(w.port) - {w.port.sess[id].portId}
  {
    hide Base, Put, Unhash, Linked, Withdraw, DropPut, Entries, SameLinks;
    WithdrawKeeps(w, id);
    WithdrawLeft(w, id);
    WithdrawSound(w, id);
    WithdrawOwed(w, id);
    DropPutSound(Withdraw(w, id), id);
  }

  /** Closing a session takes it out of the map and leaves the release at the head of what is left of the bucket. */
  lemma {:induction false} CloseKeeps(w: World, id: SessId)
    requires Inv(w) && w.walk.At? && w.walk.cur == Some(id)
    ensures |w.port.table| == HASH_SIZE && w.walk.b < HASH_SIZE
    ensures var w' := CloseStep(w, id);
            && Base(w') && Counted(w'.port) && EmptyUnlessEnabled(w') && Walking(w')
            && RegistryOf(w') == RegistryStep(RegistryOf(w), ReleaseClose(id))
            && w'.port == Close(w.port, id)
  {
    hide Base, Entries, Distinct, SessHash, CloseIn, Left, Swept, Counted, Unhash, Put, WellFormed;
    BaseWellFormed(w);
    CursorLinked(w, id);
    BaseFacts(w, 0);
    WithdrawKeeps(w, id);
    CloseSound(w, id);
    ClosePort(w, id);
    CloseEntries(w, id);
    OthersIs(w.port, id);
    var b := w.walk.b;
    var w1 := CloseIn(w, id);
    WithoutHead(w.port.table[b], id);
    SweptStays(w, w1, b, id);
    LeftGone(w, w1, id);
    NotStray(w);
    NotStray(w1);
    MoveWalk(w1, Closed(w.walk.guard, b, id, After(w.port.table[b], id)));
    BaseFacts(w1, 0);
  }

  lemma {:induction false} NotStray(w: World)
    requires Base(w)
    ensures !w.stray
  {
  }

  lemma {:induction false} LeftGone(w: World, w': World, id: SessId)
    requires Left(w, w', [id]) && id in w.port.sess
    ensures !Linked(w'.port, id) && w'.port.enabled == w.port.enabled
  {
  }

  /** Behind the last bucket the release is over and the table is empty. */
  lemma {:induction false} BucketKeeps(w: World)
    requires Inv(w) && w.walk.At? && w.walk.cur.None?
    ensures |w.port.table| == HASH_SIZE
    ensures var w' := NextBucket(w);
            && Inv(w') && RegistryOf(w') == RegistryOf(w)
            && (w'.walk.Idle? ==> Entries(w'.port) == map[])
  {
    hide Base, Entries, Distinct, SessHash, WellFormed;
    BaseFacts(w, 0);
    BaseWellFormed(w);
    BucketSwept(w.port, w.walk.b);
    var w' := NextBucket(w);
    MoveWalk(w, w'.walk);
    assert w' == w.(walk := w'.walk);
    if w'.walk.Idle? {
      NoneLinked(w.port);
    }
  }

  /** Reading a closed session's link after its memory has been freed. */
  predicate Lost(w: World, ev: Event) {
    ev.ReleaseNext? && w.walk.Closed? && w.walk.id !in w.port.sess
  }

  lemma {:induction false} NextKeeps(w: World)
    requires Inv(w) && w.walk.Closed?
    ensures var w' := w.(walk := At(w.walk.guard, w.walk.b, w.walk.next)); Inv(w') && RegistryOf(w') == RegistryOf(w)
  {
    hide Base, Entries, Distinct, SessHash;
    BaseFacts(w, 0);
    MoveWalk(w, At(w.walk.guard, w.walk.b, w.walk.next));
  }

  /** Every step keeps the invariant and means to the map what it should, with one exception: a release that reads a
      session's link after its memory has been freed. */
  lemma {:induction false} StepKeeps(w: World, ev: Event)
    requires Inv(w) && Allowed(w, ev)
    ensures Lost(w, ev) ==> Step(w, ev).stray
    ensures !Lost(w, ev) ==> Inv(Step(w, ev)) && RegistryOf(Step(w, ev)) == RegistryStep(RegistryOf(w), ev)
  {
    hide Inv, RegistryOf, RegistryStep;
    InvShape(w);
    if Lost(w, ev) {
      LostStrays(w);
    } else {
      NotLostKeeps(w, ev);
    }
  }

  lemma {:induction false} InvShape(w: World)
    requires Inv(w)
    ensures |w.port.table| == HASH_SIZE && Distinct(w.port.sess) && WellFormed(w.port)
  {
  }

  lemma {:induction false} LostStrays(w: World)
    requires |w.port.table| == HASH_SIZE && Lost(w, ReleaseNext)
    ensures Step(w, ReleaseNext).stray
  {
  }

  lemma {:induction false} NotLostKeeps(w: World, ev: Event)
    requires Inv(w) && Allowed(w, ev) && !Lost(w, ev)
    ensures Inv(Step(w, ev)) && RegistryOf(Step(w, ev)) == RegistryStep(RegistryOf(w), ev)
  {
    hide Base, Entries, Distinct, Counted, CloseStep, NextBucket, Prli, MapPrli, Lookup, Put, Unhash,
         EmptyUnlessEnabled, SameLinks, TryGetIn, PutIn, Walking, Visited;
    BaseFacts(w, 0);
    WaitersKeep(w, ev);
    match ev
    case PrliEvent(page, l) => PrliKeeps(w, page, l);
    case PrloDelete(a) => PrloKeeps(w, a);
    case PrloPut(id) =>
      DropPutSound(w, id);
      PutWalk(w, id);
      SameLinksInv(w, DropPut(w, id));
    case ReleaseBegin(g) => BeginKeeps(w, g);
    case ReleaseClose(id) => CloseKeeps(w, id);
    case ReleaseNext => NextKeeps(w);
    case ReleaseBucket => BucketKeeps(w);
    case EnableEvent => EnableKeeps(w);
    case TryGet(t) =>
      TryGetKeeps(w, t);
      GetWalk(w, t);
      SameLinksInv(w, TryGetIn(w, t));
    case RecvPut(id) =>
      RecvPutSound(w, id);
      PutWalk(w, id);
      SameLinksInv(w, PutIn(w, id).(holders := w.holders - multiset{id}));
    case RcuFree(id) => RcuFreeKeeps(w, id);
    case Enter(t, a) =>
      EnterKeeps(w, t, a);
      SameLinksSelf(w.port);
      SameLinksInv(w, Step(w, ev));
    case Visit(t, id) =>
      VisitKeeps(w, t, id);
      SameLinksSelf(w.port);
      SameLinksInv(w, Visited(w, t, id));
    case Leave(t) =>
      LeaveKeeps(w, t);
      SameLinksSelf(w.port);
      SameLinksInv(w, Step(w, ev));
  }

  lemma {:induction false} PutWalk(w: World, id: SessId)
    ensures PutIn(w, id).walk == w.walk
  {
  }

  lemma {:induction false} GetWalk(w: World, t: Thread)
    requires t in w.readers && w.readers[t].found.Some?
    ensures TryGetIn(w, t).walk == w.walk
  {
  }
}
