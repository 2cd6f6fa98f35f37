/** The SATA register-set allocator of the Marvell 64xx: a bitmap split over two registers that other code writes too.
    A 32-bit register is the set of its one bits. */
module RegSets {

  const NOT_MAPPED: nat := 0x7f
  const EN_SATA_REG_SHIFT: nat := 16

  type Register = set<nat>

  /** The two registers, and the register set each device holds. */
  datatype Chip = Chip(pcs: Register, ctl: Register, held: seq<nat>)

  function BitOf(i: nat): nat {
    i % 16 + EN_SATA_REG_SHIFT
  }

  predicate Taken(c: Chip, i: nat) {
    BitOf(i) in if i < 16 then c.pcs else c.ctl
  }

  /** The number of register sets of a chip of this family. */
  predicate KnownSize(size: nat) {
    size == 16 || size == 32
  }

  /** The lowest free register set from `i` on, or `size` if there is none. */
  function LowestFree(c: Chip, size: nat, i: nat): (k: nat)
    requires i <= size
    ensures i <= k <= size
    ensures k < size ==> !Taken(c, k)
    ensures forall n :: i <= n < k ==> Taken(c, n)
    decreases size - i
  {
    if i == size || !Taken(c, i) then i else LowestFree(c, size, i + 1)
  }

  function Take(c: Chip, d: nat, k: nat): Chip
    requires d < |c.held|
  {
    if k < 16 then c.(pcs := c.pcs + {BitOf(k)}, held := c.held[d := k])
    else c.(ctl := c.ctl + {BitOf(k)}, held := c.held[d := k])
  }

  function Assign(c: Chip, size: nat, d: nat): Chip
    requires d < |c.held|
  {
    if c.held[d] != NOT_MAPPED || LowestFree(c, size, 0) == size then c else Take(c, d, LowestFree(c, size, 0))
  }

  function Free(c: Chip, d: nat): Chip
    requires d < |c.held|
  {
    if c.held[d] == NOT_MAPPED then c
    else if c.held[d] < 16 then c.(pcs := c.pcs - {BitOf(c.held[d])}, held := c.held[d := NOT_MAPPED])
    else c.(ctl := c.ctl - {BitOf(c.held[d])}, held := c.held[d := NOT_MAPPED])
  }

  const STOP_BITS: Register := {8, 9, 10, 11, 12, 13, 14, 15}   // 0xFF00

  // --------------------------------------------------------------------------
  // Runs
  // --------------------------------------------------------------------------

  datatype Event = AssignTo(d: nat) | FreeFrom(d: nat) | IssueStop | ClearActive

  function Step(c: Chip, size: nat, ev: Event): Chip {
    match ev
    case AssignTo(d) => if d < |c.held| then Assign(c, size, d) else c
    case FreeFrom(d) => if d < |c.held| then Free(c, d) else c
    case IssueStop => c.(pcs := c.pcs + STOP_BITS)
    case ClearActive => c
  }

  function Run(c: Chip, size: nat, evs: seq<Event>): Chip {
    if evs == [] then c else Step(Run(c, size, evs[..|evs| - 1]), size, evs[|evs| - 1])
  }

  ghost predicate Holds(c: Chip, d: nat, i: nat) {
    d < |c.held| && c.held[d] == i
  }

  ghost predicate InUse(c: Chip, i: nat) {
    exists d :: Holds(c, d, i)
  }

  /** A register set is marked in the bitmap exactly if some device holds it, and no two devices hold the same. */
  ghost predicate Consistent(c: Chip, size: nat) {
    && (forall d :: 0 <= d < |c.held| ==> c.held[d] == NOT_MAPPED || c.held[d] < size)
    && (forall i :: 0 <= i < size ==> (Taken(c, i) <==> InUse(c, i)))
    && (forall d, e :: 0 <= d < e < |c.held| && c.held[d] != NOT_MAPPED ==> c.held[d] != c.held[e])
  }

  /** No device holds anything and no register set is marked. */
  predicate Reset(c: Chip, size: nat) {
    && (forall d :: 0 <= d < |c.held| ==> c.held[d] == NOT_MAPPED)
    && (forall i :: 0 <= i < size ==> !Taken(c, i))
  }

  lemma {:induction false} TakeKeeps(c: Chip, size: nat, d: nat, k: nat)
    requires KnownSize(size) && Consistent(c, size)
    requires d < |c.held| && c.held[d] == NOT_MAPPED && k < size && !Taken(c, k)
    ensures Consistent(Take(c, d, k), size)
  {
    var c' := Take(c, d, k);
    forall i | 0 <= i < size ensures Taken(c', i) <==> InUse(c', i) {
      assert BitOf(i) == BitOf(k) && (i < 16 <==> k < 16) ==> i == k;
      assert Taken(c', i) <==> Taken(c, i) || i == k;
      if i == k {
        assert Holds(c', d, i);
      } else {
        if e :| Holds(c, e, i) {
          assert Holds(c', e, i);
        }
        if e :| Holds(c', e, i) {
          assert Holds(c, e, i);
        }
      }
    }
    forall e | 0 <= e < |c.held| && c.held[e] == k ensures false {
      assert Holds(c, e, k);
    }
  }

  lemma {:induction false} FreeKeeps(c: Chip, size: nat, d: nat)
    requires KnownSize(size) && Consistent(c, size) && d < |c.held| && c.held[d] != NOT_MAPPED
    ensures Consistent(Free(c, d), size)
  {
    var k, c' := c.held[d], Free(c, d);
    forall i | 0 <= i < size ensures Taken(c', i) <==> InUse(c', i) {
      assert BitOf(i) == BitOf(k) && (i < 16 <==> k < 16) ==> i == k;
      assert Taken(c', i) <==> Taken(c, i) && i != k;
      if i != k {
        if e :| Holds(c, e, i) {
          assert Holds(c', e, i);
        }
        if e :| Holds(c', e, i) {
          assert Holds(c, e, i);
        }
      }
    }
  }

  lemma {:induction false} StepKeeps(c: Chip, size: nat, ev: Event)
    requires KnownSize(size) && Consistent(c, size)
    ensures Consistent(Step(c, size, ev), size)
  {
    match ev
    case AssignTo(d) =>
      if d < |c.held| && c.held[d] == NOT_MAPPED && LowestFree(c, size, 0) < size {
        TakeKeeps(c, size, d, LowestFree(c, size, 0));
      }
    case FreeFrom(d) =>
      if d < |c.held| && c.held[d] != NOT_MAPPED {
        FreeKeeps(c, size, d);
      }
    case IssueStop =>
      var c' := c.(pcs := c.pcs + STOP_BITS);
      forall i | 0 <= i < size ensures Taken(c', i) <==> InUse(c', i) {
        assert Taken(c', i) <==> Taken(c, i);
        if d :| Holds(c, d, i) {
          assert Holds(c', d, i);
        }
        if d :| Holds(c', d, i) {
          assert Holds(c, d, i);
        }
      }
    case ClearActive =>
  }

  /** Over every run of assignments, releases and the other writers of the two registers, bitmap and devices agree. */
  lemma {:induction false} RunsStayConsistent(c: Chip, size: nat, evs: seq<Event>)
    requires KnownSize(size) && Reset(c, size)
    ensures Consistent(Run(c, size, evs), size)
  {
    if evs == [] {
      forall i, d | 0 <= i < size && Holds(c, d, i) ensures false {
      }
    } else {
      RunsStayConsistent(c, size, evs[..|evs| - 1]);
      StepKeeps(Run(c, size, evs[..|evs| - 1]), size, evs[|evs| - 1]);
    }
  }

  /** In a consistent chip an assignment to a device without a register set gives it the lowest one nobody holds,
      and gives it none exactly if every register set is held by some device. */
  lemma {:induction false} AssignIsLowestFree(c: Chip, size: nat, d: nat)
    requires KnownSize(size) && Consistent(c, size) && d < |c.held| && c.held[d] == NOT_MAPPED
    ensures var k := Assign(c, size, d).held[d];
            && (k == NOT_MAPPED <==> forall i :: 0 <= i < size ==> InUse(c, i))
            && (k != NOT_MAPPED ==> k < size && !InUse(c, k) && forall i :: 0 <= i < k ==> InUse(c, i))
  {
    var k := LowestFree(c, size, 0);
    assert forall i :: 0 <= i < k ==> Taken(c, i);
    assert k < size ==> !InUse(c, k);
  }

  /** An assignment leaves a device that holds a register set alone; it touches no other device, and of the two
      registers no bit but the enable bit of the register set it assigns. */
  lemma {:induction false} AssignTouchesOne(c: Chip, size: nat, d: nat)
    requires KnownSize(size) && d < |c.held|
    ensures var r := Step(c, size, AssignTo(d));
            && |r.held| == |c.held|
            && (c.held[d] != NOT_MAPPED ==> r == c)
            && (forall e :: 0 <= e < |c.held| && e != d ==> r.held[e] == c.held[e])
            && (r.held[d] == NOT_MAPPED ==> r == c)
            && (forall b: nat :: b in r.pcs <==> b in c.pcs || (r != c && r.held[d] < 16 && b == r.held[d] + 16))
            && (forall b: nat :: b in r.ctl <==> b in c.ctl || (r != c && r.held[d] >= 16 && b == r.held[d]))
  {
  }

  /** A release gives back what the device held, and likewise touches nothing else. */
  lemma {:induction false} FreeTouchesOne(c: Chip, size: nat, d: nat)
    requires KnownSize(size) && d < |c.held| && (c.held[d] == NOT_MAPPED || c.held[d] < size)
    ensures var r := Step(c, size, FreeFrom(d));
            && r.held == c.held[d := NOT_MAPPED]
            && (c.held[d] == NOT_MAPPED ==> r == c)
            && (forall b: nat :: b in r.pcs <==> b in c.pcs && !(c.held[d] < 16 && b == c.held[d] + 16))
            && (forall b: nat :: b in r.ctl <==> b in c.ctl && !(16 <= c.held[d] < size && b == c.held[d]))
  {
  }

  // --------------------------------------------------------------------------
  // In place
  // --------------------------------------------------------------------------

  class Mvs {
    const size: nat
    var pcs: Register
    var ctl: Register
    var held: seq<nat>

    constructor (size: nat, devices: nat)
      requires KnownSize(size)
      ensures this.size == size && Reset(View(), size) && |held| == devices
    {
      this.size := size;
      pcs, ctl := {}, {};
      held := seq(devices, _ => NOT_MAPPED);
    }

    function View(): Chip
      reads this
    {
      Chip(pcs, ctl, held)
    }

    method AssignRegSet(d: nat) returns (res: nat)
      requires d < |held| && KnownSize(size)
      modifies this`pcs, this`ctl, this`held
      ensures View() == Step(old(View()), size, AssignTo(d))
      ensures res == if held[d] == NOT_MAPPED then NOT_MAPPED else 0
      ensures old(held)[d] != NOT_MAPPED ==> res == 0 && View() == old(View())
    {
      if held[d] != NOT_MAPPED {
        return 0;
      }
      var tmp := pcs;
      for i := 0 to size
        invariant unchanged(this)
        invariant tmp == if i <= 16 then pcs else ctl
        invariant forall n :: 0 <= n < i ==> Taken(View(), n)
        invariant LowestFree(View(), size, 0) == LowestFree(View(), size, i)
      {
        if i == 16 {
          tmp := ctl;
        }
        var bit := BitOf(i);
        if bit !in tmp {
          held := held[d := i];
          if i < 16 {
            pcs := tmp + {bit};
          } else {
            ctl := tmp + {bit};
          }
          return 0;
        }
      }
      return NOT_MAPPED;
    }

    method FreeRegSet(d: nat)
      requires d < |held|
      modifies this`pcs, this`ctl, this`held
      ensures View() == Step(old(View()), size, FreeFrom(d))
      ensures held[d] == NOT_MAPPED && forall e :: 0 <= e < |held| && e != d ==> held[e] == old(held)[e]
      ensures KnownSize(size) && Consistent(old(View()), size) ==>
                && Consistent(View(), size)
                && (old(held)[d] != NOT_MAPPED ==> !Taken(View(), old(held)[d]))
    {
      ghost var was := View();
      if KnownSize(size) && Consistent(was, size) {
        StepKeeps(was, size, FreeFrom(d));
      }
      if held[d] == NOT_MAPPED {
        return;
      }
      var bit := BitOf(held[d]);
      if held[d] < 16 {
        pcs := pcs - {bit};
      } else {
        ctl := ctl - {bit};
      }
      held := held[d := NOT_MAPPED];
    }

    method StopIssue()
      modifies this`pcs
      ensures View() == Step(old(View()), size, IssueStop)
      ensures forall b: nat :: b in pcs <==> b in old(pcs) || 8 <= b < 16
      ensures forall i: nat :: Taken(View(), i) <==> Taken(old(View()), i)
      ensures KnownSize(size) && Consistent(old(View()), size) ==> Consistent(View(), size)
    {
      ghost var was := View();
      if KnownSize(size) && Consistent(was, size) {
        StepKeeps(was, size, IssueStop);
      }
      pcs := pcs + STOP_BITS;
    }

    /** Pulses the enable bits: clears them all and puts the registers back. */
    method ClearActiveCmds()
      modifies this`pcs, this`ctl
      ensures View() == Step(old(View()), size, ClearActive)
      ensures pcs == old(pcs) && ctl == old(ctl)
    {
      var tmp := pcs;
      pcs := set b | b in tmp && b < 16;
      pcs := tmp;
      tmp := ctl;
      ctl := set b | b in tmp && b < 16;
      ctl := tmp;
    }
  }
}
