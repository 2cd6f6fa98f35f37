/** The chained scatter/gather list of the MPT target, as a list of equal-sized slots: what it should look like,
    and what its readers get out of it. */
module SglList {

  const NUM_SGES: nat := 64
  const NUM_CHAINS: nat := NUM_SGES / 8
  const SLOT_BYTES: nat := 12     // SGESimple64_t and SGEChain64_t
  const SLOT_WORDS: nat := 3

  /** One piece of the data buffer. */
  datatype Sge = Sge(addr: nat, len: nat)

  /** A slot holds a simple element with its LAST_ELEMENT and END_OF_LIST flags, or a chain element: the
      chain-area slot its address names, the byte length of the segment there, and the word offset of the next
      chain element in that segment (0 if there is none). */
  datatype Slot =
    | Simple(sge: Sge, last: bool, end: bool)
    | Chain(target: nat, length: nat, next: nat)

  // --------------------------------------------------------------------------
  // What is built
  // --------------------------------------------------------------------------

  function Plain(es: seq<Sge>): (s: seq<Slot>)
    ensures |s| == |es|
    ensures forall i :: 0 <= i < |es| ==> s[i] == Simple(es[i], false, false)
  {
    seq(|es|, i requires 0 <= i < |es| => Simple(es[i], false, false))
  }

  /** `slots` with flags or-ed into its final element. */
  function MarkFinal(slots: seq<Slot>, end: bool): (s: seq<Slot>)
    requires slots != [] && slots[|slots| - 1].Simple?
    ensures |s| == |slots|
  {
    slots[|slots| - 1 := Simple(slots[|slots| - 1].sge, true, slots[|slots| - 1].end || end)]
  }

  /** The chain element that points at slot `target`, where `left` elements are still to come: the fields are
      16 and 8 bits wide. */
  function ChainTo(target: nat, left: nat, cap: nat): Slot
    requires cap > 0
  {
    if left <= cap then Chain(target, (SLOT_BYTES * left) % 0x1_0000, 0)
    else Chain(target, (SLOT_BYTES * cap) % 0x1_0000, (SLOT_WORDS * (cap - 1)) % 0x100)
  }

  /** The chain area from slot `base` on, holding the elements `es` in segments of `cap` slots. */
  function Area(es: seq<Sge>, base: nat, cap: nat): seq<Slot>
    requires es != [] && cap >= 2
    decreases |es|
  {
    if |es| <= cap then MarkFinal(Plain(es), true)
    else MarkFinal(Plain(es[..cap - 1]), false)
         + [ChainTo(base + cap, |es| - (cap - 1), cap)]
         + Area(es[cap - 1..], base + cap, cap)
  }

  /** The request frame: everything, or all but one slot and a chain to the start of the chain area. */
  function FrameSlots(es: seq<Sge>, frameCap: nat, cap: nat): seq<Slot>
    requires es != [] && frameCap >= 2 && cap >= 2
  {
    if |es| <= frameCap then MarkFinal(Plain(es), true)
    else MarkFinal(Plain(es[..frameCap - 1]), false) + [ChainTo(0, |es| - (frameCap - 1), cap)]
  }

  function AreaSlots(es: seq<Sge>, frameCap: nat, cap: nat): seq<Slot>
    requires es != [] && frameCap >= 2 && cap >= 2
  {
    if |es| <= frameCap then [] else Area(es[frameCap - 1..], 0, cap)
  }

  // --------------------------------------------------------------------------
  // What is read
  // --------------------------------------------------------------------------

  /** Reads on from slot `p` of the chain area to END_OF_LIST. A reader either follows a chain element's address
      or steps over the element to the next slot. */
  function ReadArea(area: seq<Slot>, p: nat, byAddress: bool): seq<Sge>
    decreases |area| - p
  {
    if p >= |area| then []
    else match area[p]
      case Simple(sge, _, end) => [sge] + if end then [] else ReadArea(area, p + 1, byAddress)
      case Chain(target, _, _) =>
        if !byAddress then ReadArea(area, p + 1, byAddress)
        else if p < target then ReadArea(area, target, byAddress)
        else []
  }

  /** Reads on from slot `p` of the request frame; its chain element is always followed by address. */
  function ReadFrame(frame: seq<Slot>, area: seq<Slot>, p: nat, byAddress: bool): seq<Sge>
    decreases |frame| - p
  {
    if p >= |frame| then []
    else match frame[p]
      case Simple(sge, _, end) => [sge] + if end then [] else ReadFrame(frame, area, p + 1, byAddress)
      case Chain(target, _, _) => ReadArea(area, target, byAddress)
  }

  /** `area` holds the elements `es` in simple slots from `p` on, END_OF_LIST on none of them. */
  ghost predicate Holds(area: seq<Slot>, p: nat, es: seq<Sge>) {
    && p + |es| <= |area|
    && forall q :: p <= q < p + |es| ==> area[q].Simple? && area[q].sge == es[q - p] && !area[q].end
  }

  /** The last or only segment of the area, slot by slot. */
  lemma {:induction false} AreaLast(es: seq<Sge>, base: nat, cap: nat)
    requires es != [] && |es| <= cap && cap >= 2
    ensures var a := Area(es, base, cap);
            && |a| == |es|
            && Holds(a, 0, es[..|es| - 1])
            && (forall q :: 0 <= q < |es| - 1 ==> !a[q].last)
            && a[|es| - 1] == Simple(es[|es| - 1], true, true)
  {
  }

  /** A segment that is followed by another one, slot by slot. */
  lemma {:induction false} AreaMore(es: seq<Sge>, base: nat, cap: nat)
    requires |es| > cap >= 2
    ensures var a := Area(es, base, cap);
            && |a| == cap + |Area(es[cap - 1..], base + cap, cap)|
            && Holds(a, 0, es[..cap - 1])
            && (forall q :: 0 <= q < cap - 1 ==> (a[q].last <==> q == cap - 2))
            && a[cap - 1] == ChainTo(base + cap, |es| - (cap - 1), cap)
            && a[cap..] == Area(es[cap - 1..], base + cap, cap)
  {
  }

  lemma {:induction false} AreaAtLeast(es: seq<Sge>, base: nat, cap: nat)
    requires es != [] && cap >= 2
    ensures |Area(es, base, cap)| >= |es|
    decreases |es|
  {
    if |es| > cap {
      AreaAtLeast(es[cap - 1..], base + cap, cap);
    }
  }

  lemma {:induction false} HoldsBehind(done: seq<Slot>, a: seq<Slot>, es: seq<Sge>)
    requires Holds(a, 0, es)
    ensures Holds(done + a, |done|, es)
  {
    forall q | |done| <= q < |done| + |es|
      ensures var x := (done + a)[q]; x.Simple? && x.sge == es[q - |done|] && !x.end
    {
      assert (done + a)[q] == a[q - |done|];
    }
  }

  lemma {:induction false} HoldsRest(area: seq<Slot>, p: nat, es: seq<Sge>)
    requires Holds(area, p, es) && es != []
    ensures p < |area| && area[p].Simple? && area[p].sge == es[0] && !area[p].end
    ensures Holds(area, p + 1, es[1..])
  {
  }

  lemma {:induction false} ReadOne(area: seq<Slot>, p: nat, byAddress: bool)
    requires p < |area| && area[p].Simple?
    ensures ReadArea(area, p, byAddress) == [area[p].sge] + if area[p].end then [] else ReadArea(area, p + 1, byAddress)
  {
  }

  lemma {:induction false} ReadChain(area: seq<Slot>, p: nat, byAddress: bool)
    requires p < |area| && area[p].Chain? && area[p].target == p + 1
    ensures ReadArea(area, p, byAddress) == ReadArea(area, p + 1, byAddress)
  {
  }

  lemma {:induction false} ReadFrameOne(frame: seq<Slot>, area: seq<Slot>, p: nat, byAddress: bool)
    requires p < |frame| && frame[p].Simple?
    ensures ReadFrame(frame, area, p, byAddress)
            == [frame[p].sge] + if frame[p].end then [] else ReadFrame(frame, area, p + 1, byAddress)
  {
  }

  /** A stretch of simple elements without END_OF_LIST is read as it stands. */
  lemma {:induction false} ReadStretch(area: seq<Slot>, p: nat, es: seq<Sge>, byAddress: bool)
    requires Holds(area, p, es)
    ensures ReadArea(area, p, byAddress) == es + ReadArea(area, p + |es|, byAddress)
    decreases |es|
  {
    hide ReadArea, Holds;
    if es != [] {
      HoldsRest(area, p, es);
      ReadOne(area, p, byAddress);
      ReadStretch(area, p + 1, es[1..], byAddress);
      assert es == [es[0]] + es[1..];
    }
  }

  lemma {:induction false} ReadFrameStretch(frame: seq<Slot>, area: seq<Slot>, p: nat, es: seq<Sge>, byAddress: bool)
    requires Holds(frame, p, es)
    ensures ReadFrame(frame, area, p, byAddress) == es + ReadFrame(frame, area, p + |es|, byAddress)
    decreases |es|
  {
    hide ReadFrame, Holds;
    if es != [] {
      HoldsRest(frame, p, es);
      ReadFrameOne(frame, area, p, byAddress);
      ReadFrameStretch(frame, area, p + 1, es[1..], byAddress);
      assert es == [es[0]] + es[1..];
    }
  }

  lemma {:induction false} ReadBuiltArea(es: seq<Sge>, done: seq<Slot>, cap: nat, byAddress: bool)
    requires es != [] && cap >= 2
    ensures ReadArea(done + Area(es, |done|, cap), |done|, byAddress) == es
    decreases |es|
  {
    hide Area, Holds, Plain, MarkFinal, ReadArea;
    var base := |done|;
    var a := Area(es, base, cap);
    var area := done + a;
    if |es| <= cap {
      var n := |es| - 1;
      AreaLast(es, base, cap);
      HoldsBehind(done, a, es[..n]);
      ReadStretch(area, base, es[..n], byAddress);
      assert area[base + n] == a[n];
      ReadOne(area, base + n, byAddress);
      assert es == es[..n] + [es[n]];
    } else {
      var n := cap - 1;
      AreaMore(es, base, cap);
      HoldsBehind(done, a, es[..n]);
      ReadStretch(area, base, es[..n], byAddress);
      assert area[base + n] == a[n];
      ReadChain(area, base + n, byAddress);
      var done' := done + a[..cap];
      assert area == done' + a[cap..];
      ReadBuiltArea(es[n..], done', cap, byAddress);
      assert es == es[..n] + es[n..];
    }
  }

  /** The chained list means what the flat list meant: whichever way a reader follows the chains of the area, it
      sees exactly the original elements in order. */
  lemma {:induction false} ReadBack(es: seq<Sge>, frameCap: nat, cap: nat, byAddress: bool)
    requires es != [] && frameCap >= 2 && cap >= 2
    ensures ReadFrame(FrameSlots(es, frameCap, cap), AreaSlots(es, frameCap, cap), 0, byAddress) == es
  {
    hide ReadFrame, ReadArea, Area, Holds;
    var frame, area := FrameSlots(es, frameCap, cap), AreaSlots(es, frameCap, cap);
    var n := if |es| <= frameCap then |es| - 1 else frameCap - 1;
    FrameHolds(es, frameCap, cap);
    ReadFrameStretch(frame, area, 0, es[..n], byAddress);
    if |es| <= frameCap {
      ReadFrameOne(frame, area, n, byAddress);
      assert es == es[..n] + [es[n]];
    } else {
      ReadFrameChain(frame, area, n, byAddress);
      ReadBuiltArea(es[n..], [], cap, byAddress);
      assert [] + Area(es[n..], 0, cap) == area;
      assert es == es[..n] + es[n..];
    }
  }

  lemma {:induction false} FrameHolds(es: seq<Sge>, frameCap: nat, cap: nat)
    requires es != [] && frameCap >= 2 && cap >= 2
    ensures Holds(FrameSlots(es, frameCap, cap), 0, es[..if |es| <= frameCap then |es| - 1 else frameCap - 1])
  {
  }

  lemma {:induction false} ReadFrameChain(frame: seq<Slot>, area: seq<Slot>, p: nat, byAddress: bool)
    requires p < |frame| && frame[p].Chain?
    ensures ReadFrame(frame, area, p, byAddress) == ReadArea(area, frame[p].target, byAddress)
  {
  }

  // --------------------------------------------------------------------------
  // Flags and segment headers
  // --------------------------------------------------------------------------

  /** LAST_ELEMENT is on a simple element exactly if a chain element or nothing follows it, END_OF_LIST exactly if
      it is the final element and the list ends here at all. */
  predicate FlagsRightAt(slots: seq<Slot>, p: nat, endsHere: bool)
    requires p < |slots|
  {
    slots[p].Simple? ==>
      && (slots[p].last <==> (p == |slots| - 1 || slots[p + 1].Chain?))
      && (slots[p].end <==> (endsHere && p == |slots| - 1))
  }

  ghost predicate FlagsRight(slots: seq<Slot>, endsHere: bool) {
    forall p :: 0 <= p < |slots| ==> FlagsRightAt(slots, p, endsHere)
  }

  lemma {:induction false} AreaFlags(es: seq<Sge>, base: nat, cap: nat)
    requires es != [] && cap >= 2
    ensures FlagsRight(Area(es, base, cap), true)
    decreases |es|
  {
    hide Area, Plain, MarkFinal;
    var a := Area(es, base, cap);
    if |es| <= cap {
      AreaLast(es, base, cap);
    } else {
      AreaMore(es, base, cap);
      AreaFlags(es[cap - 1..], base + cap, cap);
      var rest := a[cap..];
      forall p | 0 <= p < |a| ensures FlagsRightAt(a, p, true) {
        if p >= cap {
          assert FlagsRightAt(rest, p - cap, true);
        }
      }
    }
  }

  lemma {:induction false} ListFlags(es: seq<Sge>, frameCap: nat, cap: nat)
    requires es != [] && frameCap >= 2 && cap >= 2
    ensures FlagsRight(FrameSlots(es, frameCap, cap), |es| <= frameCap)
    ensures FlagsRight(AreaSlots(es, frameCap, cap), true)
  {
    if |es| > frameCap {
      AreaFlags(es[frameCap - 1..], 0, cap);
    }
  }

  /** The number of simple elements from slot `p` up to the next chain element or the end. */
  function Stretch(area: seq<Slot>, p: nat): (n: nat)
    ensures p <= |area| ==> p + n <= |area|
    decreases |area| - p
  {
    if p >= |area| || area[p].Chain? then 0 else 1 + Stretch(area, p + 1)
  }

  /** A chain element's header describes the segment it points at: all its slots, at most `cap` of them and exactly as
      many if the list goes on behind it, and where its own chain is. */
  predicate HeaderRight(chain: Slot, area: seq<Slot>, cap: nat)
    requires chain.Chain?
  {
    var n := Stretch(area, chain.target);
    var more := chain.target + n < |area|;
    && chain.target < |area|
    && (if more then n + 1 == cap else n <= cap)
    && chain.length == SLOT_BYTES * (n + if more then 1 else 0)
    && chain.next == if more then SLOT_WORDS * n else 0
  }

  lemma {:induction false} StretchIs(area: seq<Slot>, p: nat, n: nat)
    requires p + n <= |area|
    requires forall i :: p <= i < p + n ==> area[i].Simple?
    requires p + n == |area| || area[p + n].Chain?
    ensures Stretch(area, p) == n
    decreases n
  {
    if n > 0 {
      StretchIs(area, p + 1, n - 1);
    }
  }

  /** A chain element in front of the segment it was made for has the right header: its 16-bit and 8-bit fields
      are wide enough for any segment of a list that respects NUM_SGES. */
  lemma {:induction false} ChainHeader(es: seq<Sge>, done: seq<Slot>, cap: nat)
    requires es != [] && |es| <= NUM_SGES && cap >= 2
    ensures HeaderRight(ChainTo(|done|, |es|, cap), done + Area(es, |done|, cap), cap)
  {
    hide Area, Plain, MarkFinal, Stretch;
    var a := Area(es, |done|, cap);
    var area := done + a;
    if |es| <= cap {
      AreaLast(es, |done|, cap);
      HoldsBehind(done, a, es[..|es| - 1]);
      assert area[|done| + |es| - 1] == a[|es| - 1];
      StretchIs(area, |done|, |es|);
    } else {
      AreaMore(es, |done|, cap);
      HoldsBehind(done, a, es[..cap - 1]);
      assert area[|done| + cap - 1] == a[cap - 1];
      StretchIs(area, |done|, cap - 1);
    }
  }

  lemma {:induction false} AreaHeaders(es: seq<Sge>, done: seq<Slot>, cap: nat, p: nat)
    requires es != [] && |es| <= NUM_SGES && cap >= 2
    requires |done| <= p < |done| + |Area(es, |done|, cap)| && (done + Area(es, |done|, cap))[p].Chain?
    ensures var area := done + Area(es, |done|, cap);
            area[p].target == p + 1 && HeaderRight(area[p], area, cap)
    decreases |es|
  {
    hide Area, Plain, MarkFinal, HeaderRight;
    var base := |done|;
    var a := Area(es, base, cap);
    var area := done + a;
    assert area[p] == a[p - base];
    if |es| <= cap {
      AreaLast(es, base, cap);
    } else {
      AreaMore(es, base, cap);
      var done' := done + a[..cap];
      assert area == done' + a[cap..];
      if p < base + cap {
        ChainHeader(es[cap - 1..], done', cap);
      } else {
        AreaHeaders(es[cap - 1..], done', cap, p);
      }
    }
  }

  lemma {:induction false} FrameChain(es: seq<Sge>, frameCap: nat, cap: nat)
    requires frameCap >= 2 && cap >= 2 && frameCap < |es|
    ensures |FrameSlots(es, frameCap, cap)| == frameCap
    ensures FrameSlots(es, frameCap, cap)[frameCap - 1] == ChainTo(0, |es| - (frameCap - 1), cap)
    ensures AreaSlots(es, frameCap, cap) == Area(es[frameCap - 1..], 0, cap)
  {
    hide ChainTo, Area;
  }

  lemma {:induction false} ChainToIs(target: nat, left: nat, cap: nat)
    requires cap > 0
    ensures ChainTo(target, left, cap).Chain? && ChainTo(target, left, cap).target == target
  {
  }

  /** Every chain element of the area names the very next slot, so following its address and stepping over it
      are the same move, and every chain element, also the one in the frame, has the right header. */
  lemma {:induction false} ListHeaders(es: seq<Sge>, frameCap: nat, cap: nat)
    requires frameCap >= 2 && cap >= 2 && frameCap < |es| <= NUM_SGES
    ensures var frame, area := FrameSlots(es, frameCap, cap), AreaSlots(es, frameCap, cap);
            && |frame| == frameCap && frame[frameCap - 1].Chain? && frame[frameCap - 1].target == 0
            && HeaderRight(frame[frameCap - 1], area, cap)
            && forall p :: 0 <= p < |area| && area[p].Chain? ==>
                 area[p].target == p + 1 && HeaderRight(area[p], area, cap)
  {
    hide Area, HeaderRight, FrameSlots, AreaSlots, ChainTo;
    FrameChain(es, frameCap, cap);
    ChainToIs(0, |es| - (frameCap - 1), cap);
    var rest := es[frameCap - 1..];
    var area := AreaSlots(es, frameCap, cap);
    assert [] + Area(rest, 0, cap) == area;
    ChainHeader(rest, [], cap);
    forall p | 0 <= p < |area| && area[p].Chain? ensures area[p].target == p + 1 && HeaderRight(area[p], area, cap) {
      AreaHeaders(rest, [], cap, p);
    }
  }

  // --------------------------------------------------------------------------
  // Size
  // --------------------------------------------------------------------------

  lemma {:induction false} AreaSize(es: seq<Sge>, base: nat, cap: nat)
    requires es != [] && cap >= 9
    ensures 8 * (|Area(es, base, cap)| - |es|) <= |es| - 1
    decreases |es|
  {
    if |es| > cap {
      AreaSize(es[cap - 1..], base + cap, cap);
    }
  }

  /** The slots used outside the request frame fit into the chain area of a command buffer. */
  lemma {:induction false} AreaFits(es: seq<Sge>, frameCap: nat, cap: nat)
    requires es != [] && |es| <= NUM_SGES && frameCap >= 2 && cap >= 9
    ensures |AreaSlots(es, frameCap, cap)| <= NUM_SGES + NUM_CHAINS
  {
    if |es| > frameCap {
      AreaSize(es[frameCap - 1..], 0, cap);
    }
  }
}
