/** The session table of a local port: 64 hash buckets of logged-in remote ports, as a map from port id to session. */
module Sessions {

  const HASH_SIZE: nat := 64
  const NO_PORT: nat := 0xFFFF_FFFF      // the port id of a session that left the table
  const ID_LIMIT: nat := 0x100_0000      // Fibre Channel port ids have 24 bits

  type SessId = nat                      // the address of a session

  datatype Option<T> = None | Some(value: T)

  /** `frees` counts the calls of the release function: each unregisters the session and queues its RCU callback. */
  datatype Sess = Sess(portId: nat, params: nat, maxPayload: nat, maxLso: nat, kref: nat, frees: nat)

  /** `sess` is the allocated session memory, `bug` a failed BUG_ON. */
  datatype Port = Port(table: seq<seq<SessId>>, sess: map<SessId, Sess>, count: nat, enabled: bool, bug: bool)

  /** The multiplicative hash of the kernel, to six bits. Nothing below depends on which hash it is. */
  function SessHash(a: nat): (b: nat)
    ensures b < HASH_SIZE
  {
    a * 0x9E37_0001 % 0x1_0000_0000 / 0x400_0000
  }

  // --------------------------------------------------------------------------
  // Operations on the table
  // --------------------------------------------------------------------------

  predicate Matches(m: map<SessId, Sess>, id: SessId, a: nat) {
    id in m && m[id].portId == a
  }

  /** The first entry of a bucket with port id `a`, from position `i` on. */
  function Find(m: map<SessId, Sess>, bucket: seq<SessId>, a: nat, i: nat): (k: nat)
    requires i <= |bucket|
    ensures i <= k <= |bucket|
    ensures k < |bucket| ==> Matches(m, bucket[k], a)
    ensures forall n :: i <= n < k ==> !Matches(m, bucket[n], a)
    decreases |bucket| - i
  {
    if i == |bucket| || Matches(m, bucket[i], a) then i else Find(m, bucket, a, i + 1)
  }

  function Lookup(p: Port, a: nat): Option<SessId>
    requires |p.table| == HASH_SIZE
  {
    var bucket := p.table[SessHash(a)];
    var k := Find(p.sess, bucket, a, 0);
    if k == |bucket| then None else Some(bucket[k])
  }

  datatype Response = Ack | NoProcessAssociator | Invalid | Conflict | NoResources

  /** What a login asks for. `largest` is the offload limit of a port that can segment in hardware; `memory` is
      where a new session would be allocated and registered, if it can be. */
  datatype Login = Login(a: nat, maxFrame: nat, largest: Option<nat>, params: nat, memory: Option<SessId>)

  function NewSess(l: Login): Sess {
    Sess(l.a, l.params, l.maxFrame, if l.largest.Some? then l.largest.value else l.maxFrame, 1, 0)
  }

  function Insert(p: Port, l: Login, id: SessId): Port
    requires |p.table| == HASH_SIZE
  {
    var b := SessHash(l.a);
    p.(table := p.table[b := [id] + p.table[b]], sess := p.sess[id := NewSess(l)], count := p.count + 1)
  }

  function Create(p: Port, l: Login): (Port, Response)
    requires |p.table| == HASH_SIZE
  {
    if l.maxFrame == 0 then (p, Conflict)
    else
      match Lookup(p, l.a)
      case Some(id) =>
        if id in p.sess then (p.(sess := p.sess[id := p.sess[id].(params := l.params)]), Ack) else (p, Ack)
      case None =>
        match l.memory
        case None => (p, NoResources)
        case Some(id) => (Insert(p, l, id), Ack)
  }

  /** The service parameter page of a login request. */
  datatype Page = Page(processAssociator: bool, initiator: bool, target: bool, imagePair: bool)

  /** The answer to a page that does not get as far as a session. */
  function Refusal(page: Page, enabled: bool): Option<Response> {
    if page.processAssociator then Some(NoProcessAssociator)
    else if !page.initiator && !page.target then Some(Invalid)
    else if !page.imagePair then Some(Ack)
    else if !page.initiator || !enabled then Some(Conflict)
    else None
  }

  function Prli(p: Port, page: Option<Page>, l: Login): (Port, Response)
    requires |p.table| == HASH_SIZE
  {
    if page.None? then (p, Ack)
    else
      match Refusal(page.value, p.enabled)
      case Some(r) => (p, r)
      case None => Create(p, l)
  }

  function Without(s: seq<SessId>, id: SessId): seq<SessId> {
    if s == [] then [] else if s[0] == id then s[1..] else [s[0]] + Without(s[1..], id)
  }

  function First(bucket: seq<SessId>): Option<SessId> {
    if bucket == [] then None else Some(bucket[0])
  }

  /** The link stored in an entry of a bucket; taking the entry out does not change it. */
  function After(bucket: seq<SessId>, id: SessId): Option<SessId> {
    if bucket == [] then None
    else if bucket[0] == id then First(bucket[1..])
    else After(bucket[1..], id)
  }

  function Unhash(p: Port, id: SessId): Port
    requires |p.table| == HASH_SIZE && id in p.sess
  {
    var s := p.sess[id];
    var b := SessHash(s.portId);
    if p.count == 0 then p.(bug := true)
    else p.(table := p.table[b := Without(p.table[b], id)], sess := p.sess[id := s.(portId := NO_PORT, params := 0)],
            count := p.count - 1)
  }

  /** Takes a reference unless there is none left. */
  function Get(p: Port, id: SessId): Port
    requires id in p.sess
  {
    var s := p.sess[id];
    if s.kref == 0 then p else p.(sess := p.sess[id := s.(kref := s.kref + 1)])
  }

  function Put(p: Port, id: SessId): Port {
    if id !in p.sess || p.sess[id].kref == 0 then p.(bug := true)
    else
      var s := p.sess[id];
      p.(sess := p.sess[id := s.(kref := s.kref - 1, frees := if s.kref == 1 then s.frees + 1 else s.frees)])
  }

  predicate Linked(p: Port, id: SessId) {
    id in p.sess && p.sess[id].portId != NO_PORT
  }

  function Close(p: Port, id: SessId): Port {
    if |p.table| == HASH_SIZE && Linked(p, id) then Put(Unhash(p, id), id) else p
  }

  function CloseEach(p: Port, ids: seq<SessId>): Port {
    if ids == [] then p else Close(CloseEach(p, ids[..|ids| - 1]), ids[|ids| - 1])
  }

  /** Closes what is found in the first `n` buckets, one bucket after another. */
  function Sweep(p: Port, n: nat): Port {
    if n == 0 then p
    else
      var q := Sweep(p, n - 1);
      if n <= |q.table| then CloseEach(q, q.table[n - 1]) else q
  }

  function Release(p: Port): Port {
    Sweep(p.(enabled := false), HASH_SIZE)
  }

  // --------------------------------------------------------------------------
  // A well-formed table
  // --------------------------------------------------------------------------

  function Total(t: seq<seq<SessId>>): nat {
    if t == [] then 0 else Total(t[..|t| - 1]) + |t[|t| - 1]|
  }

  /** An entry of bucket `b` is a session whose port id hashes to `b`. */
  predicate Placed(p: Port, id: SessId, b: nat) {
    id in p.sess && p.sess[id].portId < ID_LIMIT && SessHash(p.sess[id].portId) == b
  }

  predicate Homed(p: Port, id: SessId)
    requires id in p.sess && |p.table| == HASH_SIZE
  {
    p.sess[id].portId == NO_PORT || (p.sess[id].portId < ID_LIMIT && id in p.table[SessHash(p.sess[id].portId)])
  }

  predicate NoRepeats(s: seq<SessId>) {
    forall i, j :: 0 <= i < j < |s| ==> s[i] != s[j]
  }

  ghost predicate Distinct(m: map<SessId, Sess>) {
    forall x, y :: x in m && y in m && m[x].portId != NO_PORT && m[x].portId == m[y].portId ==> x == y
  }

  ghost predicate AllPlaced(p: Port)
    requires |p.table| == HASH_SIZE
  {
    forall b, id :: 0 <= b < HASH_SIZE && id in p.table[b] ==> Placed(p, id, b)
  }

  predicate NoneRepeated(p: Port)
    requires |p.table| == HASH_SIZE
  {
    forall b :: 0 <= b < HASH_SIZE ==> NoRepeats(p.table[b])
  }

  predicate AllHomed(p: Port)
    requires |p.table| == HASH_SIZE
  {
    forall id :: id in p.sess ==> Homed(p, id)
  }

  /** Every entry is in the bucket of its own hash, every session with a port id is in the table, port ids are
      distinct and the count is the number of entries. */
  ghost predicate WellFormed(p: Port) {
    && |p.table| == HASH_SIZE
    && AllPlaced(p)
    && NoneRepeated(p)
    && AllHomed(p)
    && Distinct(p.sess)
    && p.count == Total(p.table)
  }

  /** The demand of the BUG_ONs: a session in the table has a reference. */
  predicate Referenced(p: Port) {
    forall id :: id in p.sess && p.sess[id].portId != NO_PORT ==> p.sess[id].kref > 0
  }

  lemma {:induction false} TotalUpdate(t: seq<seq<SessId>>, b: nat, s: seq<SessId>)
    requires b < |t|
    ensures Total(t[b := s]) == Total(t) - |t[b]| + |s|
    ensures Total(t) >= |t[b]|
  {
    var n := |t| - 1;
    if b == n {
      assert t[b := s][..n] == t[..n];
    } else {
      TotalUpdate(t[..n], b, s);
      assert t[b := s][..n] == t[..n][b := s];
    }
  }

  lemma {:induction false} WithoutContents(s: seq<SessId>, id: SessId)
    requires NoRepeats(s) && id in s
    ensures |Without(s, id)| == |s| - 1
    ensures forall x :: x in Without(s, id) <==> x in s && x != id
    ensures NoRepeats(Without(s, id))
  {
    if s[0] == id {
      assert forall x :: x in s <==> x == s[0] || x in s[1..];
      assert forall i :: 0 <= i < |s[1..]| ==> s[1..][i] == s[i + 1];
    } else {
      var r := s[1..];
      assert forall i :: 0 <= i < |r| ==> r[i] == s[i + 1];
      assert s == [s[0]] + r;
      WithoutContents(r, id);
      assert s[0] !in r;
      assert Without(s, id) == [s[0]] + Without(r, id);
    }
  }

  /** Changes to neither the lists nor the port ids leave a table well formed. */
  lemma {:induction false} SameTable(p: Port, q: Port)
    requires WellFormed(p) && q.table == p.table && q.count == p.count && q.sess.Keys == p.sess.Keys
    requires forall id :: id in p.sess ==> q.sess[id].portId == p.sess[id].portId
    ensures WellFormed(q)
  {
    forall c, x | 0 <= c < HASH_SIZE && x in q.table[c] ensures Placed(q, x, c) {
      assert Placed(p, x, c);
    }
    forall x | x in q.sess ensures Homed(q, x) {
      assert Homed(p, x);
    }
  }

  lemma {:induction false} Missing(p: Port, a: nat)
    requires WellFormed(p) && Lookup(p, a).None? && a < ID_LIMIT
    ensures forall x :: x in p.sess ==> p.sess[x].portId != a
  {
    hide SessHash, Total;
    var bucket := p.table[SessHash(a)];
    assert forall x :: x in bucket ==> !Matches(p.sess, x, a);
    forall x | x in p.sess ensures p.sess[x].portId != a {
      assert Homed(p, x);
    }
  }

  lemma {:induction false} InsertPlaces(p: Port, l: Login, id: SessId)
    requires |p.table| == HASH_SIZE && AllPlaced(p) && l.a < ID_LIMIT && id !in p.sess
    ensures AllPlaced(Insert(p, l, id))
    ensures id !in p.table[SessHash(l.a)]
  {
    var q, b := Insert(p, l, id), SessHash(l.a);
    assert forall x :: x in p.table[b] ==> Placed(p, x, b);
    forall c, x | 0 <= c < HASH_SIZE && x in q.table[c] ensures Placed(q, x, c) {
      assert x == id || x in p.table[c];
      assert x != id ==> Placed(p, x, c);
    }
  }

  lemma {:induction false} InsertHomes(p: Port, l: Login, id: SessId)
    requires |p.table| == HASH_SIZE && AllHomed(p) && l.a < ID_LIMIT && id !in p.sess
    ensures AllHomed(Insert(p, l, id))
  {
    var q := Insert(p, l, id);
    forall x | x in q.sess ensures Homed(q, x) {
      assert x != id ==> Homed(p, x);
    }
  }

  lemma {:induction false} InsertKeeps(p: Port, l: Login, id: SessId)
    requires WellFormed(p) && l.a < ID_LIMIT && id !in p.sess && Lookup(p, l.a).None?
    ensures WellFormed(Insert(p, l, id))
  {
    hide SessHash, AllHomed, AllPlaced;
    Missing(p, l.a);
    InsertPlaces(p, l, id);
    InsertHomes(p, l, id);
    var q, b := Insert(p, l, id), SessHash(l.a);
    TotalUpdate(p.table, b, q.table[b]);
    forall c | 0 <= c < HASH_SIZE ensures NoRepeats(q.table[c]) {
      assert NoRepeats(p.table[c]);
    }
  }

  lemma {:induction false} CreateKeeps(p: Port, l: Login)
    requires WellFormed(p) && l.a < ID_LIMIT && (l.memory.Some? ==> l.memory.value !in p.sess)
    ensures WellFormed(Create(p, l).0)
  {
    hide SessHash, AllHomed, AllPlaced, Total, NoneRepeated;
    if l.maxFrame != 0 {
      match Lookup(p, l.a)
      case Some(id) =>
        SameTable(p, Create(p, l).0);
      case None =>
        if l.memory.Some? {
          InsertKeeps(p, l, l.memory.value);
        }
    }
  }

  lemma {:induction false} UnhashPlaces(p: Port, id: SessId)
    requires |p.table| == HASH_SIZE && AllPlaced(p) && NoneRepeated(p) && AllHomed(p)
    requires Linked(p, id) && p.count > 0
    ensures AllPlaced(Unhash(p, id)) && NoneRepeated(Unhash(p, id)) && AllHomed(Unhash(p, id))
  {
    assert Homed(p, id);
    var b := SessHash(p.sess[id].portId);
    assert NoRepeats(p.table[b]);
    WithoutContents(p.table[b], id);
    var q := Unhash(p, id);
    forall c, x | 0 <= c < HASH_SIZE && x in q.table[c] ensures Placed(q, x, c) {
      assert Placed(p, x, c);
      assert c == b ==> x != id;
    }
    forall x | x in q.sess ensures Homed(q, x) {
      assert Homed(p, x);
    }
  }

  lemma {:induction false} UnhashKeeps(p: Port, id: SessId)
    requires WellFormed(p) && Linked(p, id)
    ensures p.count > 0 && WellFormed(Unhash(p, id))
    ensures var s := Unhash(p, id).sess[id];
            s.portId == NO_PORT && s.params == 0 && s.kref == p.sess[id].kref && s.frees == p.sess[id].frees
  {
    assert Homed(p, id);
    var b := SessHash(p.sess[id].portId);
    WithoutContents(p.table[b], id);
    TotalUpdate(p.table, b, Without(p.table[b], id));
    UnhashPlaces(p, id);
  }

  // --------------------------------------------------------------------------
  // The table is a map
  // --------------------------------------------------------------------------

  datatype Entry = Entry(id: SessId, params: nat, maxPayload: nat, maxLso: nat)

  function EntryOf(m: map<SessId, Sess>, id: SessId): Entry
    requires id in m
  {
    Entry(id, m[id].params, m[id].maxPayload, m[id].maxLso)
  }

  ghost function Entries(p: Port): map<nat, Entry>
    requires Distinct(p.sess)
  {
    map id | id in p.sess && p.sess[id].portId != NO_PORT :: p.sess[id].portId := EntryOf(p.sess, id)
  }

  lemma {:induction false} EntriesAt(p: Port, id: SessId)
    requires Distinct(p.sess) && Linked(p, id)
    ensures p.sess[id].portId in Entries(p) && Entries(p)[p.sess[id].portId] == EntryOf(p.sess, id)
  {
  }

  lemma {:induction false} EntriesKey(p: Port, a: nat) returns (id: SessId)
    requires Distinct(p.sess) && a in Entries(p)
    ensures Linked(p, id) && p.sess[id].portId == a && Entries(p)[a] == EntryOf(p.sess, id)
  {
    id :| Linked(p, id) && p.sess[id].portId == a;
    EntriesAt(p, id);
  }

  /** The linked sessions of the first are linked, with the same entry, in the second. */
  predicate Carried(m: map<SessId, Sess>, m': map<SessId, Sess>) {
    forall id :: id in m && m[id].portId != NO_PORT ==>
      id in m' && m'[id].portId == m[id].portId && EntryOf(m', id) == EntryOf(m, id)
  }

  lemma {:induction false} CarriedEntries(p: Port, q: Port, a: nat)
    requires Distinct(p.sess) && Distinct(q.sess) && Carried(p.sess, q.sess) && a in Entries(p)
    ensures a in Entries(q) && Entries(q)[a] == Entries(p)[a]
  {
    hide Entries, Distinct;
    var id := EntriesKey(p, a);
    EntriesAt(q, id);
  }

  lemma {:induction false} SameEntries(p: Port, q: Port)
    requires Distinct(p.sess) && Distinct(q.sess) && Carried(p.sess, q.sess) && Carried(q.sess, p.sess)
    ensures Entries(q) == Entries(p)
  {
    hide Entries, Distinct, Carried;
    forall a | a in Entries(p) ensures a in Entries(q) && Entries(q)[a] == Entries(p)[a] {
      CarriedEntries(p, q, a);
    }
    forall a | a in Entries(q) ensures a in Entries(p) {
      CarriedEntries(q, p, a);
    }
  }

  /** A lookup finds exactly what the map holds. */
  lemma {:induction false} LookupAgrees(p: Port, a: nat)
    requires WellFormed(p) && a < ID_LIMIT
    ensures Lookup(p, a) == if a in Entries(p) then Some(Entries(p)[a].id) else None
    ensures Lookup(p, a).Some? ==> Matches(p.sess, Lookup(p, a).value, a)
  {
    match Lookup(p, a)
    case Some(id) => EntriesAt(p, id);
    case None => Missing(p, a);
  }

  /** The abstract port: who is logged in, and whether logins are accepted. */
  datatype Registry = Registry(entries: map<nat, Entry>, enabled: bool)

  function MapCreate(m: map<nat, Entry>, l: Login): (map<nat, Entry>, Response) {
    if l.maxFrame == 0 then (m, Conflict)
    else if l.a in m then (m[l.a := m[l.a].(params := l.params)], Ack)
    else if l.memory.None? then (m, NoResources)
    else
      var lso := match l.largest case Some(limit) => limit case None => l.maxFrame;
      (m[l.a := Entry(l.memory.value, l.params, l.maxFrame, lso)], Ack)
  }

  /** A login gets as far as a session if its page asks for an image pair, names an initiator and no process associator,
      and the port is enabled. */
  predicate Admitted(page: Option<Page>, enabled: bool) {
    && page.Some?
    && page.value.imagePair && page.value.initiator && !page.value.processAssociator
    && enabled
  }

  function MapPrli(r: Registry, page: Option<Page>, l: Login): (Registry, Response) {
    if Admitted(page, r.enabled) then
      var (entries, answer) := MapCreate(r.entries, l);
      (r.(entries := entries), answer)
    else
      (r, match page
          case None => Ack
          case Some(Page(processAssociator, initiator, target, imagePair)) =>
            if processAssociator then NoProcessAssociator
            else if initiator || target then (if imagePair then Conflict else Ack)
            else Invalid)
  }

  lemma {:induction false} UpdateEntries(p: Port, q: Port, id: SessId)
    requires Distinct(p.sess) && Distinct(q.sess) && q.sess.Keys == p.sess.Keys + {id} && Linked(q, id)
    requires forall x :: x in p.sess && x != id ==> q.sess[x] == p.sess[x]
    requires id in p.sess ==> p.sess[id].portId == q.sess[id].portId
    ensures Entries(q) == Entries(p)[q.sess[id].portId := EntryOf(q.sess, id)]
  {
    hide Entries;
    EntriesAt(q, id);
    var k := q.sess[id].portId;
    forall a | a in Entries(q) && a != k ensures a in Entries(p) && Entries(p)[a] == Entries(q)[a] {
      var x := EntriesKey(q, a);
      EntriesAt(p, x);
    }
    forall a | a in Entries(p) && a != k ensures a in Entries(q) {
      var x := EntriesKey(p, a);
      EntriesAt(q, x);
    }
  }

  /** A login that creates a session gives it a payload limit the read sender can work with, except if the port can
      segment in hardware but has a limit of zero for that; a session that exists keeps its limits. */
  lemma {:induction false} CreatedPayload(p: Port, l: Login)
    requires WellFormed(p) && l.a < ID_LIMIT && (l.memory.Some? ==> l.memory.value !in p.sess)
    requires l.a in MapCreate(Entries(p), l).0
    ensures var m := MapCreate(Entries(p), l).0;
            && (l.a !in Entries(p) ==> (m[l.a].maxLso > 0 <==> l.largest != Some(0)) && m[l.a].maxPayload > 0)
            && (l.a in Entries(p) ==> m[l.a].maxLso == Entries(p)[l.a].maxLso)
  {
    hide Entries, WellFormed;
  }

  lemma {:induction false} RemoveEntries(p: Port, q: Port, id: SessId)
    requires Distinct(p.sess) && Distinct(q.sess) && q.sess.Keys == p.sess.Keys && Linked(p, id) && !Linked(q, id)
    requires forall x :: x in p.sess && x != id ==> q.sess[x] == p.sess[x]
    ensures Entries(q) == Entries(p) - {p.sess[id].portId}
  {
    hide Entries;
    EntriesAt(p, id);
    var k := p.sess[id].portId;
    forall a | a in Entries(q) ensures a in Entries(p) && a != k && Entries(p)[a] == Entries(q)[a] {
      var x := EntriesKey(q, a);
      EntriesAt(p, x);
    }
    forall a | a in Entries(p) && a != k ensures a in Entries(q) {
      var x := EntriesKey(p, a);
      EntriesAt(q, x);
    }
  }

  /** Logging in refines updating the map, with the same answer. */
  lemma {:induction false} CreateAgrees(p: Port, l: Login)
    requires WellFormed(p) && l.a < ID_LIMIT && (l.memory.Some? ==> l.memory.value !in p.sess)
    ensures WellFormed(Create(p, l).0)
    ensures MapCreate(Entries(p), l) == (Entries(Create(p, l).0), Create(p, l).1)
  {
    hide SessHash, AllHomed, AllPlaced, Total, NoneRepeated, Distinct, Lookup, Entries;
    CreateKeeps(p, l);
    LookupAgrees(p, l.a);
    var q := Create(p, l).0;
    if l.maxFrame != 0 {
      match Lookup(p, l.a)
      case Some(id) =>
        EntriesAt(p, id);
        UpdateEntries(p, q, id);
      case None =>
        if l.memory.Some? {
          UpdateEntries(p, q, l.memory.value);
        }
    }
  }

  /** What a login means for the map, case by case. One with a frame size of zero is a conflict. A repeated one changes
      the parameters and nothing else. A first one needs memory; its entry then has the parameters, the frame size, and
      as its payload limit the offload limit of the port or, without one, the frame size. All others keep their
      entries. */
  lemma {:induction false} CreateMeans(p: Port, l: Login)
    requires WellFormed(p) && l.a < ID_LIMIT && (l.memory.Some? ==> l.memory.value !in p.sess)
    ensures WellFormed(Create(p, l).0)
    ensures var m, m', answer := Entries(p), Entries(Create(p, l).0), Create(p, l).1;
            && (l.maxFrame == 0 ==> m' == m && answer == Conflict)
            && (l.maxFrame > 0 && l.a in m ==> m' == m[l.a := m[l.a].(params := l.params)] && answer == Ack)
            && (l.maxFrame > 0 && l.a !in m && l.memory.None? ==> m' == m && answer == NoResources)
            && (l.maxFrame > 0 && l.a !in m && l.memory.Some? ==>
                  && m'.Keys == m.Keys + {l.a} && (forall a :: a in m ==> m'[a] == m[a]) && answer == Ack
                  && m'[l.a].id == l.memory.value && m'[l.a].params == l.params && m'[l.a].maxPayload == l.maxFrame
                  && m'[l.a].maxLso == if l.largest.Some? then l.largest.value else l.maxFrame)
  {
    hide WellFormed, Create, Entries;
    CreateAgrees(p, l);
  }

  /** The answer to a login request, by its page; a request that is not admitted changes nothing. */
  lemma {:induction false} PrliMeans(p: Port, page: Option<Page>, l: Login)
    requires |p.table| == HASH_SIZE
    ensures Admitted(page, p.enabled) ==> Prli(p, page, l) == Create(p, l)
    ensures !Admitted(page, p.enabled) ==> Prli(p, page, l).0 == p
    ensures page.None? ==> Prli(p, page, l).1 == Ack
    ensures page.Some? && page.value.processAssociator ==> Prli(p, page, l).1 == NoProcessAssociator
    ensures page.Some? && !page.value.processAssociator && !page.value.initiator ==>
              Prli(p, page, l).1 == if !page.value.target then Invalid
                                    else if page.value.imagePair then Conflict else Ack
    ensures page.Some? && !page.value.processAssociator && page.value.initiator && !Admitted(page, p.enabled) ==>
              Prli(p, page, l).1 == if page.value.imagePair then Conflict else Ack
  {
    hide Create;
  }

  // --------------------------------------------------------------------------
  // Emptying the table
  // --------------------------------------------------------------------------

  /** Nothing is left in the first `n` buckets. */
  ghost predicate Swept(p: Port, n: nat) {
    forall x :: x in p.sess && p.sess[x].portId != NO_PORT ==> SessHash(p.sess[x].portId) >= n
  }

  lemma {:induction false} WithoutHead(s: seq<SessId>, id: SessId)
    requires s != [] && s[0] == id
    ensures Without(s, id) == s[1..] && After(s, id) == First(Without(s, id))
  {
  }

  lemma {:induction false} BucketSwept(p: Port, b: nat)
    requires WellFormed(p) && Swept(p, b) && b < HASH_SIZE && p.table[b] == []
    ensures Swept(p, b + 1)
  {
    hide SessHash;
    forall x | x in p.sess && p.sess[x].portId != NO_PORT ensures SessHash(p.sess[x].portId) >= b + 1 {
      assert Homed(p, x);
    }
  }

  lemma {:induction false} EmptyTotal(t: seq<seq<SessId>>)
    requires forall b :: 0 <= b < |t| ==> t[b] == []
    ensures Total(t) == 0
  {
    if t != [] {
      EmptyTotal(t[..|t| - 1]);
    }
  }

  lemma {:induction false} NoneLinked(p: Port)
    requires Distinct(p.sess) && forall x :: x in p.sess ==> p.sess[x].portId == NO_PORT
    ensures Entries(p) == map[]
  {
  }

  lemma {:induction false} HeadPlaced(p: Port, b: nat)
    requires WellFormed(p) && b < HASH_SIZE
    ensures p.table[b] == [] || Placed(p, p.table[b][0], b)
  {
  }

  /** A well-formed table without entries has a count of zero. */
  lemma {:induction false} SweptAll(p: Port)
    requires WellFormed(p) && Swept(p, HASH_SIZE)
    ensures Entries(p) == map[] && p.count == 0
  {
    NoneLinked(p);
    forall b | 0 <= b < |p.table| ensures p.table[b] == [] {
      HeadPlaced(p, b);
      assert forall x :: !Placed(p, x, b);
    }
    EmptyTotal(p.table);
  }
}
