/** Disabling a port walks its table without the lock that logins and logouts take: what those can do to it meanwhile.
    */
module Disable {
  import opened Sessions
  import opened FtSess

  // --------------------------------------------------------------------------
  // A login that is already past its test
  // --------------------------------------------------------------------------

  /** Where the walk is: at a bucket, with the session it closes next or none; or at its end. */
  datatype Phase = Sweeping(b: nat, cur: Option<SessId>) | Done

  /** A disable under way. `login` has found the port enabled and has yet to look for its session; `late` is the session
      it has added behind the walk. */
  datatype Race = Race(port: Port, login: Option<Login>, late: Option<SessId>, phase: Phase)

  datatype Event = CloseNext | NextBucket | LoginCreates

  function Begin(p: Port, login: Option<Login>): Race
    requires |p.table| == HASH_SIZE
  {
    Race(p.(enabled := false), login, None, Sweeping(0, First(p.table[0])))
  }

  predicate Allowed(r: Race, ev: Event) {
    match ev
    case CloseNext => r.phase.Sweeping? && r.phase.b < HASH_SIZE && r.phase.cur.Some?
    case NextBucket => r.phase.Sweeping? && r.phase.b < HASH_SIZE && r.phase.cur.None?
    case LoginCreates =>
      r.login.Some? && (r.login.value.memory.Some? ==> r.login.value.memory.value !in r.port.sess)
  }

  /** The walk has read the head of bucket `b` already. */
  predicate Passed(phase: Phase, b: nat) {
    phase.Done? || b <= phase.b
  }

  /** The login would add a session. */
  predicate Inserts(p: Port, l: Login)
    requires |p.table| == HASH_SIZE
  {
    l.maxFrame > 0 && l.memory.Some? && Lookup(p, l.a).None?
  }

  function Step(r: Race, ev: Event): Race {
    if |r.port.table| != HASH_SIZE || !Allowed(r, ev) then r
    else
      match ev
      case CloseNext =>
        var id := r.phase.cur.value;
        r.(port := Close(r.port, id), phase := Sweeping(r.phase.b, After(r.port.table[r.phase.b], id)))
      case NextBucket =>
        var n := r.phase.b + 1;
        r.(phase := if n < HASH_SIZE then Sweeping(n, First(r.port.table[n])) else Done)
      case LoginCreates =>
        var l := r.login.value;
        r.(port := Create(r.port, l).0, login := None,
           late := if Inserts(r.port, l) && Passed(r.phase, SessHash(l.a)) then l.memory else None)
  }

  function Run(r: Race, evs: seq<Event>): Race {
    if evs == [] then r else Step(Run(r, evs[..|evs| - 1]), evs[|evs| - 1])
  }

  /** A bucket without a late session at its head. */
  function Ahead(bucket: seq<SessId>, late: Option<SessId>): seq<SessId> {
    if bucket != [] && late == Some(bucket[0]) then bucket[1..] else bucket
  }

  /** Everything in front of the walk is in its reach, everything behind it is late. */
  ghost predicate Inv(r: Race) {
    && WellFormed(r.port) && Referenced(r.port) && !r.port.bug && !r.port.enabled
    && (r.login.Some? ==> r.login.value.a < ID_LIMIT && r.late.None?)
    && (r.late.Some? ==>
          && Linked(r.port, r.late.value)
          && Passed(r.phase, SessHash(r.port.sess[r.late.value].portId))
          && First(r.port.table[SessHash(r.port.sess[r.late.value].portId)]) == r.late)
    && (forall x :: Linked(r.port, x) && Some(x) != r.late ==>
          r.phase.Sweeping? && SessHash(r.port.sess[x].portId) >= r.phase.b)
    && (r.phase.Sweeping? ==>
          r.phase.b < HASH_SIZE && r.phase.cur == First(Ahead(r.port.table[r.phase.b], r.late)))
  }

  lemma {:induction false} BeginInv(p: Port, login: Option<Login>)
    requires WellFormed(p) && Referenced(p) && !p.bug && (login.Some? ==> login.value.a < ID_LIMIT)
    ensures |p.table| == HASH_SIZE && Inv(Begin(p, login))
  {
    SwitchKeeps(p);
    hide WellFormed, Referenced, SessHash;
    Shape(p);
  }

  /** Taking out the next session of a bucket that may have a late one at its head. */
  lemma {:induction false} TakeNext(s: seq<SessId>, late: Option<SessId>, id: SessId)
    requires NoRepeats(s) && (late.Some? ==> late.value !in s || First(s) == late)
    requires First(Ahead(s, late)) == Some(id)
    ensures id in s && Some(id) != late
    ensures After(s, id) == First(Ahead(Without(s, id), late))
    ensures First(s) == late ==> First(Without(s, id)) == late
  {
    if s[0] == id {
      WithoutHead(s, id);
      assert |s| > 1 ==> s[1] != s[0] && s[1] in s;
    } else {
      WithoutHead(s[1..], id);
      assert Without(s, id) == [s[0]] + s[1..][1..];
    }
  }

  lemma {:induction false} BucketFacts(p: Port, b: nat)
    requires WellFormed(p) && b < HASH_SIZE
    ensures |p.table| == HASH_SIZE && NoRepeats(p.table[b])
    ensures forall x :: x in p.table[b] ==> Linked(p, x) && SessHash(p.sess[x].portId) == b
    ensures forall x :: Linked(p, x) && SessHash(p.sess[x].portId) == b ==> x in p.table[b]
  {
    hide SessHash;
    forall x | x in p.table[b] ensures Linked(p, x) && SessHash(p.sess[x].portId) == b {
      assert Placed(p, x, b);
    }
    forall x | Linked(p, x) && SessHash(p.sess[x].portId) == b ensures x in p.table[b] {
      assert Homed(p, x);
    }
  }

  lemma {:induction false} CloseTable(p: Port, id: SessId)
    requires WellFormed(p) && Linked(p, id)
    ensures var b := SessHash(p.sess[id].portId);
            |p.table| == HASH_SIZE && Close(p, id).table == p.table[b := Without(p.table[b], id)]
    ensures Close(p, id).enabled == p.enabled
  {
    UnhashKeeps(p, id);
    hide WellFormed, SessHash, Without;
  }

  lemma {:induction false} CloseKeepsInv(r: Race)
    requires Inv(r) && Allowed(r, CloseNext)
    ensures Inv(Step(r, CloseNext))
  {
    hide WellFormed, Referenced, SessHash, Close, Without, After, Linked;
    var p, b, id := r.port, r.phase.b, r.phase.cur.value;
    BucketFacts(p, b);
    TakeNext(p.table[b], r.late, id);
    CloseKeeps(p, id);
    CloseTable(p, id);
    var q := Close(p, id);
    forall x | x in p.sess
      ensures x in q.sess && (Linked(q, x) <==> Linked(p, x) && x != id)
      ensures Linked(q, x) ==> q.sess[x].portId == p.sess[x].portId
    {
      CloseLinks(p, id, x);
    }
    LinkedKnown(p);
    LinkedKnown(q);
  }

  lemma {:induction false} LinkedKnown(p: Port)
    ensures forall x :: Linked(p, x) ==> x in p.sess
  {
  }

  lemma {:induction false} BucketKeepsInv(r: Race)
    requires Inv(r) && Allowed(r, NextBucket)
    ensures Inv(Step(r, NextBucket))
  {
    hide WellFormed, Referenced, SessHash, Linked;
    var p, b := r.port, r.phase.b;
    BucketFacts(p, b);
    LinkedKnown(p);
    HashBound(p);
    if b + 1 < HASH_SIZE {
      BucketFacts(p, b + 1);
    }
  }

  lemma {:induction false} HashBound(p: Port)
    ensures forall x :: Linked(p, x) ==> x in p.sess && SessHash(p.sess[x].portId) < HASH_SIZE
  {
  }

  lemma {:induction false} CreateLinks(p: Port, l: Login, x: SessId)
    requires |p.table| == HASH_SIZE && l.a < ID_LIMIT && (l.memory.Some? ==> l.memory.value !in p.sess)
    ensures var q := Create(p, l).0;
            && q.enabled == p.enabled && q.bug == p.bug
            && (Linked(q, x) <==> Linked(p, x) || (Inserts(p, l) && Some(x) == l.memory))
            && (Linked(p, x) ==> q.sess[x].portId == p.sess[x].portId && q.sess[x].kref == p.sess[x].kref)
            && (Inserts(p, l) && Some(x) == l.memory ==> q.sess[x].portId == l.a && q.sess[x].kref == 1)
            && var b := SessHash(l.a);
               q.table == if Inserts(p, l) then p.table[b := [l.memory.value] + p.table[b]] else p.table
  {
    hide Lookup, SessHash;
  }

  lemma {:induction false} LoginKeepsInv(r: Race)
    requires Inv(r) && Allowed(r, LoginCreates)
    ensures Inv(Step(r, LoginCreates))
  {
    hide WellFormed, SessHash, Create, Linked, Lookup, Inserts;
    var p, l := r.port, r.login.value;
    Shape(p);
    var q := Create(p, l).0;
    CreateKeeps(p, l);
    LinkedKnown(p);
    LinkedKnown(q);
    InsertsKnown(p, l);
    CreateLinks(p, l, 0);
    forall x: SessId
      ensures Linked(q, x) <==> Linked(p, x) || (Inserts(p, l) && Some(x) == l.memory)
      ensures Linked(p, x) ==> x in p.sess && x in q.sess
      ensures Linked(p, x) ==> q.sess[x].portId == p.sess[x].portId && q.sess[x].kref == p.sess[x].kref
      ensures Inserts(p, l) && Some(x) == l.memory ==> x in q.sess && q.sess[x].portId == l.a && q.sess[x].kref == 1
    {
      CreateLinks(p, l, x);
    }
    ReferencedLinks(p);
    ReferencedLinks(q);
    if r.phase.Sweeping? {
      BucketFacts(p, r.phase.b);
    }
  }

  lemma {:induction false} InsertsKnown(p: Port, l: Login)
    requires |p.table| == HASH_SIZE
    ensures Inserts(p, l) ==> l.memory.Some?
  {
  }

  lemma {:induction false} ReferencedLinks(p: Port)
    ensures Referenced(p) <==> forall x :: Linked(p, x) ==> x in p.sess && p.sess[x].kref > 0
  {
  }

  lemma {:induction false} StepKeeps(r: Race, ev: Event)
    requires Inv(r) && Allowed(r, ev)
    ensures Inv(Step(r, ev))
  {
    hide Inv, Step, Allowed;
    match ev
    case CloseNext => CloseKeepsInv(r);
    case NextBucket => BucketKeepsInv(r);
    case LoginCreates => LoginKeepsInv(r);
  }

  ghost predicate Orderly(r: Race, evs: seq<Event>) {
    forall n {:trigger evs[n]} :: 0 <= n < |evs| ==> Allowed(Run(r, evs[..n]), evs[n])
  }

  lemma {:induction false} OrderlyFront(r: Race, evs: seq<Event>)
    requires Orderly(r, evs) && evs != []
    ensures Orderly(r, evs[..|evs| - 1]) && Allowed(Run(r, evs[..|evs| - 1]), evs[|evs| - 1])
  {
    hide Allowed, Run;
    var f := evs[..|evs| - 1];
    assert forall n :: 0 <= n < |f| ==> f[..n] == evs[..n] && f[n] == evs[n];
  }

  lemma {:induction false} RunKeeps(r: Race, evs: seq<Event>)
    requires Inv(r) && Orderly(r, evs)
    ensures Inv(Run(r, evs))
  {
    hide Inv, Step, Orderly;
    if evs != [] {
      OrderlyFront(r, evs);
      RunKeeps(r, evs[..|evs| - 1]);
      StepKeeps(Run(r, evs[..|evs| - 1]), evs[|evs| - 1]);
    }
  }

  ghost predicate Somebody(p: Port) {
    exists x :: Linked(p, x)
  }

  /** However a login overlaps a disable: no BUG_ON fires, and at the end somebody is logged in exactly if the login
      added its session behind the walk, and then nobody else is. */
  lemma {:induction false} OnlyTheLateLogin(p: Port, login: Option<Login>, evs: seq<Event>)
    requires WellFormed(p) && Referenced(p) && !p.bug && (login.Some? ==> login.value.a < ID_LIMIT)
    requires |p.table| == HASH_SIZE && Orderly(Begin(p, login), evs) && Run(Begin(p, login), evs).phase.Done?
    ensures var r := Run(Begin(p, login), evs);
            && WellFormed(r.port) && !r.port.bug && !r.port.enabled
            && (Somebody(r.port) <==> r.late.Some?)
            && forall x: SessId :: Linked(r.port, x) ==> Some(x) == r.late
  {
    hide WellFormed, Referenced, Begin, Run, Orderly, Linked;
    BeginInv(p, login);
    RunKeeps(Begin(p, login), evs);
  }

  // --------------------------------------------------------------------------
  // When a disabled port can be left with a session
  // --------------------------------------------------------------------------

  /** The login has what it takes to add a session. */
  predicate Ready(login: Option<Login>) {
    login.Some? && login.value.maxFrame > 0 && login.value.memory.Some?
  }

  /** Some way of the disable and the login to overlap ends with the port disabled and somebody logged in. */
  ghost predicate CanLeave(r: Race) {
    exists evs :: Orderly(r, evs) && Run(r, evs).phase.Done? && Somebody(Run(r, evs).port)
  }

  lemma {:induction false} NeverLate(r: Race, evs: seq<Event>)
    requires r.late.None? && !Ready(r.login)
    ensures Run(r, evs).late.None? && !Ready(Run(r, evs).login)
  {
    if evs != [] {
      NeverLate(r, evs[..|evs| - 1]);
      hide Close, Create, Lookup;
    }
  }

  lemma {:induction false} RunFrom(r: Race, ev: Event, evs: seq<Event>)
    ensures Run(r, [ev] + evs) == Run(Step(r, ev), evs)
  {
    hide Step;
    if evs == [] {
      assert [ev] + evs == [ev] && [ev][..0] == [];
    } else {
      var n := |evs| - 1;
      RunFrom(r, ev, evs[..n]);
      assert ([ev] + evs)[..n + 1] == [ev] + evs[..n];
    }
  }

  lemma {:induction false} RunNothing(r: Race)
    ensures Run(r, []) == r
  {
  }

  lemma {:induction false} LeavesLater(r: Race, ev: Event)
    requires Allowed(r, ev) && CanLeave(Step(r, ev))
    ensures CanLeave(r)
  {
    hide Step, Allowed, Run, Somebody;
    var evs :| Orderly(Step(r, ev), evs) && Run(Step(r, ev), evs).phase.Done? && Somebody(Run(Step(r, ev), evs).port);
    var all := [ev] + evs;
    RunFrom(r, ev, evs);
    forall n | 0 <= n < |all| ensures Allowed(Run(r, all[..n]), all[n]) {
      if n == 0 {
        RunNothing(r);
        assert all[..0] == [];
      } else {
        assert all[..n] == [ev] + evs[..n - 1] && all[n] == evs[n - 1];
        RunFrom(r, ev, evs[..n - 1]);
      }
    }
    assert Orderly(r, all);
  }

  lemma {:induction false} LeavesNow(r: Race)
    requires r.phase.Done? && Somebody(r.port)
    ensures CanLeave(r)
  {
    RunNothing(r);
    assert Orderly(r, []);
  }

  /** Behind the whole walk, a login that can adds its session. */
  lemma {:induction false} LastLogin(r: Race)
    requires Inv(r) && r.phase.Done? && Ready(r.login) && r.login.value.memory.value !in r.port.sess
    ensures CanLeave(r)
  {
    hide WellFormed, Referenced, SessHash, Create, Lookup;
    var l := r.login.value;
    Shape(r.port);
    LookupMisses(r.port, l.a);
    CreateLinks(r.port, l, l.memory.value);
    assert Linked(Create(r.port, l).0, l.memory.value);
    LeavesNow(Step(r, LoginCreates));
    LeavesLater(r, LoginCreates);
  }

  lemma {:induction false} LookupMisses(p: Port, a: nat)
    requires WellFormed(p) && a < ID_LIMIT && forall x :: !Linked(p, x)
    ensures Lookup(p, a).None?
  {
    LookupAgrees(p, a);
    if Lookup(p, a).Some? {
      assert Linked(p, Lookup(p, a).value);
    }
  }

  /** Let the walk go first. */
  lemma {:induction false} WalkFirst(r: Race)
    requires Inv(r) && Ready(r.login) && r.login.value.memory.value !in r.port.sess
    ensures CanLeave(r)
    decreases if r.phase.Sweeping? then HASH_SIZE - r.phase.b else 0,
              if r.phase.Sweeping? && r.phase.b < |r.port.table| then |r.port.table[r.phase.b]| else 0
  {
    hide WellFormed, Referenced, CanLeave, Close, After, Without, SessHash;
    Shape(r.port);
    if r.phase.Done? {
      LastLogin(r);
    } else if r.phase.cur.Some? {
      var b, id := r.phase.b, r.phase.cur.value;
      StepKeeps(r, CloseNext);
      BucketFacts(r.port, b);
      TakeNext(r.port.table[b], r.late, id);
      WithoutContents(r.port.table[b], id);
      CloseTable(r.port, id);
      CloseKeeps(r.port, id);
      WalkFirst(Step(r, CloseNext));
      LeavesLater(r, CloseNext);
    } else {
      StepKeeps(r, NextBucket);
      WalkFirst(Step(r, NextBucket));
      LeavesLater(r, NextBucket);
    }
  }

  /** A disable can leave the port disabled with somebody logged in exactly if, when it begins, a login is past its test
      that has a frame size and memory for a session. */
  lemma {:induction false} DisableLeavesIff(p: Port, login: Option<Login>)
    requires WellFormed(p) && Referenced(p) && !p.bug && |p.table| == HASH_SIZE
    requires login.Some? ==> login.value.a < ID_LIMIT
    requires login.Some? && login.value.memory.Some? ==> login.value.memory.value !in p.sess
    ensures CanLeave(Begin(p, login)) <==> Ready(login)
  {
    BeginInv(p, login);
    hide Inv, WellFormed, Referenced, Run, Orderly, Somebody;
    var r := Begin(p, login);
    if Ready(login) {
      hide CanLeave;
      WalkFirst(r);
    } else {
      forall evs | Orderly(r, evs) && Run(r, evs).phase.Done? ensures !Somebody(Run(r, evs).port) {
        NeverLate(r, evs);
        OnlyTheLateLogin(p, login, evs);
      }
    }
  }

  // --------------------------------------------------------------------------
  // A logout in the middle of a close
  // --------------------------------------------------------------------------

  /** Closing tests the session's port id and then takes it out. A logout between the two is harmless exactly if it is
      of another port: otherwise the session is taken out twice, and either the BUG_ON on the count fires or the count
      is wrong from then on. */
  lemma {:induction false} LogoutInTheMiddle(p: Port, id: SessId, a: nat)
    requires WellFormed(p) && !p.bug && Linked(p, id) && a < ID_LIMIT && |p.table| == HASH_SIZE
    ensures var q := match Lookup(p, a) case Some(x) => (if x in p.sess then Unhash(p, x) else p) case None => p;
            && id in q.sess && |q.table| == HASH_SIZE
            && (WellFormed(Unhash(q, id)) && !Unhash(q, id).bug <==> a != p.sess[id].portId)
  {
    LookupAgrees(p, a);
    match Lookup(p, a)
    case None =>
      EntriesAt(p, id);
      UnhashKeeps(p, id);
    case Some(x) =>
      UnhashKeeps(p, x);
      if x == id {
        TwiceOut(p, id);
      } else {
        OtherStays(p, x, id);
        UnhashKeeps(Unhash(p, x), id);
      }
  }

  /** The second time the list has nothing to lose, but the count goes down. */
  lemma {:induction false} TwiceOut(p: Port, id: SessId)
    requires WellFormed(p) && !p.bug && Linked(p, id) && p.count > 0 && |p.table| == HASH_SIZE
    requires WellFormed(Unhash(p, id))
    ensures var r := Unhash(Unhash(p, id), id);
            && (p.count == 1 ==> r.bug)
            && (p.count > 1 ==> r.count != Total(r.table))
  {
    var q, b := Unhash(p, id), SessHash(NO_PORT);
    NotListed(q, id, b);
    WithoutAbsent(q.table[b], id);
    hide SessHash, Total;
    assert q.table[b := q.table[b]] == q.table;
  }

  lemma {:induction false} NotListed(p: Port, id: SessId, b: nat)
    requires WellFormed(p) && id in p.sess && p.sess[id].portId == NO_PORT && b < HASH_SIZE
    ensures |p.table| == HASH_SIZE && id !in p.table[b]
  {
    assert !Placed(p, id, b);
  }

  lemma {:induction false} WithoutAbsent(s: seq<SessId>, id: SessId)
    requires id !in s
    ensures Without(s, id) == s
  {
    if s != [] {
      WithoutAbsent(s[1..], id);
    }
  }

  lemma {:induction false} OtherStays(p: Port, x: SessId, id: SessId)
    requires |p.table| == HASH_SIZE && Linked(p, x) && Linked(p, id) && x != id && p.count > 0
    ensures Linked(Unhash(p, x), id) && !Unhash(p, x).bug == !p.bug && Unhash(p, x).sess[id] == p.sess[id]
    ensures |Unhash(p, x).table| == HASH_SIZE
  {
  }
}
