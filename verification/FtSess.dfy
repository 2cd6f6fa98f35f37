/** The session operations of a local port, in place. */
module FtSess {
  import opened Sessions

  lemma {:induction false} CloseKeeps(p: Port, id: SessId)
    requires WellFormed(p) && Referenced(p)
    ensures WellFormed(Close(p, id)) && Referenced(Close(p, id)) && Close(p, id).bug == p.bug
    ensures Close(p, id).sess.Keys == p.sess.Keys
  {
    if Linked(p, id) {
      UnhashKeeps(p, id);
      hide WellFormed, SessHash, Without;
      var q := Unhash(p, id);
      SameTable(q, Put(q, id));
    }
  }

  lemma {:induction false} CloseEachKeeps(p: Port, ids: seq<SessId>)
    requires WellFormed(p) && Referenced(p)
    ensures WellFormed(CloseEach(p, ids)) && Referenced(CloseEach(p, ids)) && CloseEach(p, ids).bug == p.bug
    ensures CloseEach(p, ids).sess.Keys == p.sess.Keys
  {
    hide WellFormed, Referenced, Close;
    if ids != [] {
      CloseEachKeeps(p, ids[..|ids| - 1]);
      CloseKeeps(CloseEach(p, ids[..|ids| - 1]), ids[|ids| - 1]);
    }
  }

  lemma {:induction false} CloseLinks(p: Port, id: SessId, x: SessId)
    requires WellFormed(p) && Referenced(p) && x in p.sess
    ensures x in Close(p, id).sess
    ensures Linked(Close(p, id), x) <==> Linked(p, x) && x != id
    ensures Linked(Close(p, id), x) ==> Close(p, id).sess[x].portId == p.sess[x].portId
  {
    if Linked(p, id) {
      UnhashKeeps(p, id);
      hide WellFormed, SessHash, Without;
    }
  }

  lemma {:induction false} CloseEachLinks(p: Port, ids: seq<SessId>, x: SessId)
    requires WellFormed(p) && Referenced(p) && x in p.sess
    ensures x in CloseEach(p, ids).sess
    ensures Linked(CloseEach(p, ids), x) <==> Linked(p, x) && x !in ids
    ensures Linked(CloseEach(p, ids), x) ==> CloseEach(p, ids).sess[x].portId == p.sess[x].portId
  {
    hide WellFormed, Referenced, Close, Linked;
    if ids != [] {
      var n := |ids| - 1;
      CloseEachLinks(p, ids[..n], x);
      CloseEachKeeps(p, ids[..n]);
      CloseLinks(CloseEach(p, ids[..n]), ids[n], x);
      assert ids == ids[..n] + [ids[n]];
    }
  }

  lemma {:induction false} SweepStep(p: Port, b: nat)
    requires WellFormed(p) && Referenced(p) && Swept(p, b) && b < HASH_SIZE == |p.table|
    ensures Swept(CloseEach(p, p.table[b]), b + 1)
  {
    hide SessHash, CloseEach, Referenced;
    var q := CloseEach(p, p.table[b]);
    CloseEachKeeps(p, p.table[b]);
    forall x | x in q.sess && q.sess[x].portId != NO_PORT ensures SessHash(q.sess[x].portId) >= b + 1 {
      CloseEachLinks(p, p.table[b], x);
      assert Homed(p, x);
    }
  }

  lemma {:induction false} SweepKeeps(p: Port, n: nat)
    requires WellFormed(p) && Referenced(p) && n <= HASH_SIZE
    ensures var q := Sweep(p, n);
            WellFormed(q) && Referenced(q) && Swept(q, n) && q.enabled == p.enabled && q.bug == p.bug
  {
    hide WellFormed, Referenced, CloseEach, Swept;
    if n == 0 {
      SweptNone(p);
    } else {
      SweepKeeps(p, n - 1);
      var q := Sweep(p, n - 1);
      Shape(q);
      CloseEachKeeps(q, q.table[n - 1]);
      CloseEachEnabled(q, q.table[n - 1]);
      SweepStep(q, n - 1);
    }
  }

  lemma {:induction false} SweptNone(p: Port)
    ensures Swept(p, 0)
  {
  }

  lemma {:induction false} CloseEachEnabled(p: Port, ids: seq<SessId>)
    ensures CloseEach(p, ids).enabled == p.enabled
  {
    if ids != [] {
      CloseEachEnabled(p, ids[..|ids| - 1]);
    }
  }

  /** A release closes everything: nobody is logged in, the count is zero, the port is disabled, and no BUG_ON fires. */
  lemma {:induction false} ReleaseEmpties(p: Port)
    requires WellFormed(p) && Referenced(p)
    ensures var q := Release(p);
            && WellFormed(q) && Referenced(q) && Entries(q) == map[]
            && q.count == 0 && !q.enabled && q.bug == p.bug
  {
    hide WellFormed, Referenced, Sweep, Entries, Swept;
    SwitchKeeps(p);
    SweepKeeps(p.(enabled := false), HASH_SIZE);
    SweptAll(Sweep(p.(enabled := false), HASH_SIZE));
  }

  lemma {:induction false} EntryPlaced(p: Port, b: nat, i: nat)
    requires WellFormed(p) && b < HASH_SIZE && i < |p.table[b]|
    ensures Linked(p, p.table[b][i])
  {
    assert Placed(p, p.table[b][i], b);
  }

  lemma {:induction false} Shape(p: Port)
    requires WellFormed(p)
    ensures |p.table| == HASH_SIZE
  {
  }

  class Tport {
    const hash: array<seq<SessId>>
    var sess: map<SessId, Sess>
    var sessCount: nat
    var enabled: bool
    var links: map<SessId, Option<SessId>>   // what the link of a session that left its list still says

    constructor ()
      ensures fresh(hash) && hash.Length == 64
      ensures View() == Port(seq(HASH_SIZE, _ => []), map[], 0, false, false)
    {
      hash := new seq<SessId>[HASH_SIZE](_ => []);
      sess, sessCount, enabled, links := map[], 0, false, map[];
      new;
      assert hash[..] == seq(HASH_SIZE, _ => []);
    }

    ghost function View(): Port
      reads this, hash
    {
      Port(hash[..], sess, sessCount, enabled, false)
    }

    /** Walks a bucket to the first session with port id `a`. */
    method Walk(a: nat) returns (i: nat)
      requires WellFormed(View())
      ensures hash.Length == HASH_SIZE
      ensures i == Find(sess, hash[SessHash(a)], a, 0)
    {
      hide WellFormed, SessHash;
      Shape(View());
      var bucket := hash[SessHash(a)];
      i := 0;
      while i < |bucket|
        invariant i <= |bucket|
        invariant Find(sess, bucket, a, 0) == Find(sess, bucket, a, i)
      {
        EntryPlaced(View(), SessHash(a), i);
        if sess[bucket[i]].portId == a {
          return;
        }
        i := i + 1;
      }
    }

    /** The lookup of a received frame: a reference to the session of the map, if it still has one. */
    method SessGet(a: nat) returns (found: Option<SessId>)
      requires WellFormed(View())
      modifies this`sess
      ensures match Lookup(old(View()), a)
              case None => found == None && View() == old(View())
              case Some(id) =>
                && id in old(sess) && View() == Get(old(View()), id)
                && found == if old(sess)[id].kref == 0 then None else Some(id)
    {
      hide WellFormed, SessHash;
      Shape(View());
      var b := SessHash(a);
      var i := Walk(a);
      if i == |hash[b]| {
        return None;
      }
      EntryPlaced(View(), b, i);
      var id := hash[b][i];
      var s := sess[id];
      if s.kref == 0 {
        return None;
      }
      sess := sess[id := s.(kref := s.kref + 1)];
      return Some(id);
    }

    method SessCreate(l: Login) returns (r: Response)
      requires WellFormed(View())
      modifies this`sess, this`sessCount, hash
      ensures (View(), r) == Create(old(View()), l)
      ensures sessCount > old(sessCount) ==>
                && l.memory.Some? && l.memory.value in sess
                && sess[l.memory.value]
                   == Sess(l.a, l.params, l.maxFrame, if l.largest.Some? then l.largest.value else l.maxFrame, 1, 0)
    {
      hide WellFormed, SessHash;
      Shape(View());
      if l.maxFrame == 0 {
        return Conflict;
      }
      var b := SessHash(l.a);
      var i := Walk(l.a);
      if i < |hash[b]| {
        EntryPlaced(View(), b, i);
        var id := hash[b][i];
        sess := sess[id := sess[id].(params := l.params)];
        return Ack;
      }
      if l.memory.None? {
        return NoResources;
      }
      var id := l.memory.value;
      var lso := l.maxFrame;
      if l.largest.Some? {
        lso := l.largest.value;
      }
      sess := sess[id := Sess(l.a, l.params, l.maxFrame, lso, 1, 0)];
      hash[b] := [id] + hash[b];
      sessCount := sessCount + 1;
      return Ack;
    }

    method PrliLocked(page: Option<Page>, l: Login) returns (r: Response)
      requires WellFormed(View())
      modifies this`sess, this`sessCount, hash
      ensures (View(), r) == Prli(old(View()), page, l)
      ensures !Admitted(page, old(enabled)) ==> View() == old(View())
    {
      hide WellFormed, Create;
      Shape(View());
      if page.Some? {
        var p := page.value;
        if p.processAssociator {
          return NoProcessAssociator;
        }
        if !(p.initiator || p.target) {
          return Invalid;
        }
        if p.imagePair {
          if !p.initiator {
            return Conflict;
          }
          if !enabled {
            return Conflict;
          }
          r := SessCreate(l);
          return;
        }
      }
      return Ack;
    }

    /** Unlinks the session from its bucket and forgets its port id. */
    method SessUnhash(id: SessId)
      requires WellFormed(View()) && Linked(View(), id)
      modifies this`sess, this`sessCount, this`links, hash
      ensures View() == Unhash(old(View()), id)
      ensures hash.Length == HASH_SIZE && id in links && links[id] == After(old(hash[SessHash(sess[id].portId)]), id)
    {
      UnhashKeeps(View(), id);
      hide WellFormed, SessHash, Without, After;
      Shape(View());
      var b := SessHash(sess[id].portId);
      links := links[id := After(hash[b], id)];
      hash[b] := Without(hash[b], id);
      assert sessCount > 0;
      sessCount := sessCount - 1;
      sess := sess[id := sess[id].(portId := NO_PORT, params := 0)];
    }

    method SessDelete(a: nat) returns (found: Option<SessId>)
      requires WellFormed(View())
      modifies this`sess, this`sessCount, this`links, hash
      ensures found == Lookup(old(View()), a)
      ensures found.Some? ==> Linked(old(View()), found.value) && old(sessCount) > 0
      ensures View() == if found.Some? then Unhash(old(View()), found.value) else old(View())
    {
      hide WellFormed, SessHash, Unhash;
      Shape(View());
      var i := Walk(a);
      if i == |hash[SessHash(a)]| {
        return None;
      }
      EntryPlaced(View(), SessHash(a), i);
      found := Some(hash[SessHash(a)][i]);
      UnhashKeeps(View(), found.value);
      SessUnhash(found.value);
    }

    method SessPut(id: SessId)
      requires id in sess && sess[id].kref > 0
      modifies this`sess
      ensures View() == Put(old(View()), id)
    {
      var s := sess[id].(kref := sess[id].kref - 1);
      if s.kref == 0 {
        s := s.(frees := s.frees + 1);
      }
      sess := sess[id := s];
    }

    /** Logs a port out. */
    method Prlo(a: nat)
      requires WellFormed(View()) && Referenced(View())
      modifies this`sess, this`sessCount, this`links, hash
      ensures match Lookup(old(View()), a)
              case None => View() == old(View())
              case Some(id) => id in old(sess) && View() == Put(Unhash(old(View()), id), id)
    {
      hide WellFormed, SessHash, Lookup;
      Shape(View());
      var found := SessDelete(a);
      if found.Some? {
        SessPut(found.value);
      }
    }

    method SessClose(id: SessId)
      requires WellFormed(View()) && Referenced(View()) && id in sess
      modifies this`sess, this`sessCount, this`links, hash
      ensures View() == Close(old(View()), id)
      ensures old(sess)[id].portId != NO_PORT ==>
                hash.Length == HASH_SIZE && id in links && links[id] == After(old(hash[SessHash(sess[id].portId)]), id)
    {
      hide WellFormed, SessHash, Without, After;
      Shape(View());
      if sess[id].portId == NO_PORT {
        return;
      }
      UnhashKeeps(View(), id);
      SessUnhash(id);
      SessPut(id);
    }

    /** Closes the head of a bucket and then reads its link, which leads to what is now the head. */
    method CloseHead(b: nat, id: SessId) returns (next: Option<SessId>)
      requires WellFormed(View()) && Referenced(View()) && b < HASH_SIZE
      requires hash.Length == HASH_SIZE && hash[b] != [] && hash[b][0] == id
      modifies this`sess, this`sessCount, this`links, hash
      ensures View() == Close(old(View()), id)
      ensures hash.Length == HASH_SIZE && hash[b] == old(hash[b])[1..] && next == First(hash[b])
    {
      hide WellFormed, Referenced, Close, SessHash, After, Without;
      HeadCloses(View(), b);
      SessClose(id);
      next := links[id];
    }

    /** Closes the sessions of one bucket, following the links of those it has closed. */
    method CloseBucket(b: nat)
      requires WellFormed(View()) && Referenced(View()) && b < HASH_SIZE
      modifies this`sess, this`sessCount, this`links, hash
      ensures hash.Length == HASH_SIZE && View() == CloseEach(old(View()), old(hash[b]))
    {
      hide WellFormed, Referenced, Close;
      Shape(View());
      ghost var p, list, i := View(), hash[b], 0;
      var cur := First(hash[b]);
      while cur.Some?
        invariant 0 <= i <= |list| && cur == First(list[i..]) && hash[b] == list[i..]
        invariant View() == CloseEach(p, list[..i])
        decreases |list| - i
      {
        CloseEachKeeps(p, list[..i]);
        cur := CloseHead(b, cur.value);
        assert list[..i + 1][..i] == list[..i] && list[..i + 1][i] == list[i] && list[i..][1..] == list[i + 1..];
        i := i + 1;
      }
      assert list[..|list|] == list;
    }

    /** Closes all sessions, one bucket after another. */
    method TgtRelease()
      requires WellFormed(View()) && Referenced(View())
      modifies this`sess, this`sessCount, this`enabled, this`links, hash
      ensures View() == Release(old(View()))
      ensures WellFormed(View()) && Entries(View()) == map[] && sessCount == 0 && !enabled
    {
      hide WellFormed, Referenced, CloseEach, Entries, Swept;
      ReleaseEmpties(View());
      Shape(View());
      ghost var p := View().(enabled := false);
      SwitchKeeps(View());
      enabled := false;
      for head := 0 to HASH_SIZE
        invariant View() == Sweep(p, head)
      {
        SweepKeeps(p, head);
        Shape(View());
        CloseBucket(head);
      }
    }

    /** Enabling lets logins in and leaves those that are there; disabling logs everybody out. */
    method TgtEnable(enable: bool)
      requires WellFormed(View()) && Referenced(View())
      modifies this`sess, this`sessCount, this`enabled, this`links, hash
      ensures View() == if enable then old(View()).(enabled := true) else Release(old(View()))
      ensures enabled == enable && WellFormed(View())
      ensures enable ==> Entries(View()) == Entries(old(View())) && sessCount == old(sessCount)
      ensures !enable ==> Entries(View()) == map[] && sessCount == 0
    {
      hide Entries;
      if enable {
        EnabledEntries(View());
        enabled := true;
      } else {
        TgtRelease();
      }
    }
  }

  lemma {:induction false} EnabledEntries(p: Port)
    requires WellFormed(p)
    ensures var q := p.(enabled := true); WellFormed(q) && Entries(q) == Entries(p)
  {
    SameTable(p, p.(enabled := true));
    hide WellFormed, Entries, Distinct;
    SameEntries(p, p.(enabled := true));
  }

  /** Closing the head of a bucket leaves the rest of it, and the head's link leads there. */
  lemma {:induction false} HeadCloses(p: Port, b: nat)
    requires WellFormed(p) && b < HASH_SIZE && p.table[b] != []
    ensures var id := p.table[b][0];
            && Linked(p, id) && SessHash(p.sess[id].portId) == b && |p.table| == HASH_SIZE
            && After(p.table[b], id) == First(p.table[b][1..])
            && |Close(p, id).table| == HASH_SIZE && Close(p, id).table[b] == p.table[b][1..]
            && id in Close(p, id).sess && Close(p, id).sess[id].portId == NO_PORT
  {
    var id := p.table[b][0];
    assert Placed(p, id, b);
    UnhashKeeps(p, id);
    WithoutHead(p.table[b], id);
    hide WellFormed, SessHash, Without;
  }

  lemma {:induction false} SwitchKeeps(p: Port)
    requires WellFormed(p) && Referenced(p)
    ensures WellFormed(p.(enabled := false)) && Referenced(p.(enabled := false))
  {
    hide WellFormed;
    SameTable(p, p.(enabled := false));
  }
}
