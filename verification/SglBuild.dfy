/** Building the chained scatter/gather list in place, and the driver's own walk over it. */
module SglBuild {
  import opened Buffers
  import opened SglList

  // --------------------------------------------------------------------------
  // Clipping the SCST scatter list to the transfer length
  // --------------------------------------------------------------------------

  /** The bus addresses a list describes, in order. */
  function Bytes(es: seq<Sge>): seq<nat> {
    if es == [] then [] else Bytes(es[..|es| - 1]) + Addresses(es[|es| - 1])
  }

  function Addresses(e: Sge): seq<nat> {
    seq(e.len, i requires 0 <= i < e.len => e.addr + i)
  }

  /** Copies the mapped scatter list, cutting it off after `bufflen` bytes; the list keeps its number of entries. */
  method Clip(sg: seq<Sge>, bufflen: nat) returns (es: seq<Sge>)
    ensures |es| == |sg|
    ensures forall i :: 0 <= i < |sg| ==> es[i].addr == sg[i].addr && es[i].len <= sg[i].len
    ensures Bytes(es) == Bytes(sg)[..Min(bufflen, |Bytes(sg)|)]
  {
    hide Addresses;
    es := [];
    var left := bufflen;
    for i := 0 to |sg|
      invariant |es| == i
      invariant forall k :: 0 <= k < i ==> es[k].addr == sg[k].addr && es[k].len <= sg[k].len
      invariant left == bufflen - Min(bufflen, |Bytes(sg[..i])|)
      invariant Bytes(es) == Bytes(sg[..i])[..Min(bufflen, |Bytes(sg[..i])|)]
    {
      var len := if left < sg[i].len then left else sg[i].len;
      ClipStep(sg, i, es, bufflen, len);
      es := es + [Sge(sg[i].addr, len)];
      left := left - len;
    }
    assert sg[..|sg|] == sg;
  }

  lemma {:induction false} BytesAppend(es: seq<Sge>, e: Sge)
    ensures Bytes(es + [e]) == Bytes(es) + Addresses(e)
  {
    assert (es + [e])[..|es|] == es;
  }

  lemma {:induction false} TakeConcat(b: seq<nat>, a: seq<nat>, n: nat)
    ensures var k := Min(n, |b|); b[..k] + a[..Min(n - k, |a|)] == (b + a)[..Min(n, |b| + |a|)]
  {
    if n <= |b| {
      assert (b + a)[..n] == b[..n];
    } else {
      assert (b + a)[..Min(n, |b| + |a|)] == b + a[..Min(n - |b|, |a|)];
    }
  }

  lemma {:induction false} ClipStep(sg: seq<Sge>, i: nat, es: seq<Sge>, bufflen: nat, len: nat)
    requires i < |sg|
    requires Bytes(es) == Bytes(sg[..i])[..Min(bufflen, |Bytes(sg[..i])|)]
    requires len == Min(bufflen - Min(bufflen, |Bytes(sg[..i])|), sg[i].len)
    ensures Bytes(es + [Sge(sg[i].addr, len)]) == Bytes(sg[..i + 1])[..Min(bufflen, |Bytes(sg[..i + 1])|)]
    ensures |Bytes(sg[..i + 1])| == |Bytes(sg[..i])| + sg[i].len
  {
    hide Bytes;
    var e := Sge(sg[i].addr, len);
    BytesAppend(es, e);
    BytesAppend(sg[..i], sg[i]);
    assert sg[..i + 1] == sg[..i] + [sg[i]];
    assert Addresses(e) == Addresses(sg[i])[..len];
    TakeConcat(Bytes(sg[..i]), Addresses(sg[i]), bufflen);
  }

  // --------------------------------------------------------------------------
  // Building
  // --------------------------------------------------------------------------

  /** From slot `b` on, `area` is the layout of the elements from `e` on. */
  ghost predicate Suffix(area: seq<Slot>, b: nat, es: seq<Sge>, e: nat, cap: nat) {
    cap >= 2 && e < |es| && b <= |area| && area[b..] == Area(es[e..], b, cap)
  }

  lemma {:induction false} SuffixRoom(area: seq<Slot>, b: nat, es: seq<Sge>, e: nat, cap: nat)
    requires Suffix(area, b, es, e, cap)
    ensures |area| >= b + |es| - e
  {
    AreaAtLeast(es[e..], b, cap);
  }

  lemma {:induction false} SuffixLast(area: seq<Slot>, b: nat, es: seq<Sge>, e: nat, cap: nat)
    requires Suffix(area, b, es, e, cap) && |es| - e <= cap
    ensures |area| == b + |es| - e
    ensures forall p :: b <= p < |area| ==> area[p] == Simple(es[e + p - b], p == |area| - 1, p == |area| - 1)
  {
    AreaLast(es[e..], b, cap);
    var seg := Area(es[e..], b, cap);
    forall p | b <= p < |area| ensures area[p] == Simple(es[e + p - b], p == |area| - 1, p == |area| - 1) {
      assert area[p] == seg[p - b];
    }
  }

  lemma {:induction false} SuffixMore(area: seq<Slot>, b: nat, es: seq<Sge>, e: nat, cap: nat)
    requires Suffix(area, b, es, e, cap) && |es| - e > cap
    ensures |area| > b + cap + 1
    ensures forall p :: b <= p < b + cap - 1 ==> area[p] == Simple(es[e + p - b], p == b + cap - 2, false)
    ensures area[b + cap - 1] == ChainTo(b + cap, |es| - (e + cap - 1), cap)
    ensures Suffix(area, b + cap, es, e + cap - 1, cap)
  {
    var rest := es[e..];
    var seg := Area(rest, b, cap);
    AreaMore(rest, b, cap);
    AreaAtLeast(rest[cap - 1..], b + cap, cap);
    assert rest[cap - 1..] == es[e + cap - 1..];
    assert seg[cap..] == area[b + cap..];
    forall p | b <= p < b + cap ensures area[p] == seg[p - b] {
    }
  }

  lemma {:induction false} FrameFits(es: seq<Sge>, frameCap: nat, cap: nat)
    requires es != [] && frameCap >= 2 && cap >= 2 && |es| <= frameCap
    ensures var f := FrameSlots(es, frameCap, cap);
            && |f| == |es| && AreaSlots(es, frameCap, cap) == []
            && forall p :: 0 <= p < |f| ==> f[p] == Simple(es[p], p == |f| - 1, p == |f| - 1)
  {
  }

  lemma {:induction false} FrameChains(es: seq<Sge>, frameCap: nat, cap: nat)
    requires es != [] && frameCap >= 2 && cap >= 2 && |es| > frameCap
    ensures var f := FrameSlots(es, frameCap, cap);
            && |f| == frameCap && |AreaSlots(es, frameCap, cap)| > 1
            && (forall p :: 0 <= p < frameCap - 1 ==> f[p] == Simple(es[p], p == frameCap - 2, false))
            && f[frameCap - 1] == ChainTo(0, |es| - (frameCap - 1), cap)
            && Suffix(AreaSlots(es, frameCap, cap), 0, es, frameCap - 1, cap)
  {
    hide Area, ChainTo;
    var rest := es[frameCap - 1..];
    AreaAtLeast(rest, 0, cap);
    var head := MarkFinal(Plain(es[..frameCap - 1]), false);
    assert FrameSlots(es, frameCap, cap) == head + [ChainTo(0, |rest|, cap)];
    assert AreaSlots(es, frameCap, cap)[0..] == Area(rest, 0, cap);
  }

  /** Bits 0-15 and 16-23 of a simple element's first word, read by a chain element as Length and NextChainOffset. */
  function Overlay(s: Slot, target: nat): Slot {
    if s.Chain? then s
    else Chain(target, s.sge.len % 0x1_0000, (s.sge.len / 0x1_0000) % 0x100)
  }

  lemma {:induction false} OverlayIsChain(s: Slot, target: nat)
    requires s.Simple?
    ensures Overlay(s, target).Chain? && Overlay(s, target).target == target
  {
  }

  function WithLast(s: Slot): Slot {
    if s.Chain? then s else s.(last := true)
  }

  function WithEnd(s: Slot): Slot {
    if s.Chain? then s else s.(last := true, end := true)
  }

  /** The first `i` elements are in the frame, unflagged. */
  ghost predicate InFrame(frame: array<Slot>, es: seq<Sge>, i: nat)
    reads frame
  {
    && i <= |es| && i <= frame.Length
    && forall p :: 0 <= p < i ==> frame[p] == Simple(es[p], false, false)
  }

  /** The loop's place once it has chained `k` times: the current segment starts at slot `b` with element `e`, holds
      `j` elements and ends in front of `pos`; the chain element that leads to it, at `cpos`, lacks its lengths;
      everything else is as in the layouts `f` and `a`. */
  datatype Place = Place(i: nat, j: nat, k: nat, pos: nat, cpos: nat, b: nat, e: nat)

  ghost predicate FrameSide(frame: array<Slot>, es: seq<Sge>, f: seq<Slot>, cap: nat, w: Place)
    reads frame
  {
    && 2 <= |f| <= frame.Length && w.k > 0 && w.e < |es| && cap >= 2
    && (forall p :: 0 <= p < |f| - 1 ==> frame[p] == f[p])
    && if w.k > 1 then frame[|f| - 1] == f[|f| - 1]
       else w.cpos == |f| - 1 && frame[w.cpos].Chain? && frame[w.cpos].target == 0 == w.b
            && f[w.cpos] == ChainTo(0, |es| - w.e, cap)
  }

  /** The current segment: the elements written so far, unflagged. */
  ghost predicate Segment(area: array<Slot>, es: seq<Sge>, a: seq<Slot>, cap: nat, w: Place)
    reads area
  {
    && |a| <= area.Length && w.i <= |es| && w.k > 0 && Suffix(a, w.b, es, w.e, cap)
    && 1 <= w.j <= cap && w.e + w.j == w.i && w.pos == w.b + w.j <= |a|
    && forall p :: w.b <= p < w.pos ==> area[p] == Simple(es[w.e + p - w.b], false, false)
  }

  ghost predicate AreaSide(area: array<Slot>, es: seq<Sge>, a: seq<Slot>, cap: nat, w: Place)
    reads area
  {
    && Segment(area, es, a, cap, w)
    && if w.k == 1 then w.b == 0
       else && w.b > 0 && w.cpos == w.b - 1 && area[w.cpos].Chain? && area[w.cpos].target == w.b
            && a[w.cpos] == ChainTo(w.b, |es| - w.e, cap)
            && forall p :: 0 <= p < w.cpos ==> area[p] == a[p]
  }

  /** Overwrites the last slot of the full frame by a chain element and writes its element again in the area. */
  method ChainOutOfFrame(frame: array<Slot>, area: array<Slot>, es: seq<Sge>, frameCap: nat, cap: nat,
                         ghost f: seq<Slot>, ghost a: seq<Slot>)
    returns (w: Place)
    requires frameCap >= 2 && cap >= 2 && |es| > frameCap && frame != area
    requires f == FrameSlots(es, frameCap, cap) && a == AreaSlots(es, frameCap, cap) && |a| <= area.Length
    requires InFrame(frame, es, frameCap)
    modifies frame, area
    ensures FrameSide(frame, es, f, cap, w) && AreaSide(area, es, a, cap, w)
    ensures w.i == frameCap && w.j == 1
  {
    hide FrameSlots, AreaSlots, Suffix, ChainTo, Overlay;
    FrameChains(es, frameCap, cap);
    var cpos := frameCap - 1;
    OverlayIsChain(frame[cpos], 0);
    frame[cpos] := Overlay(frame[cpos], 0);
    frame[cpos - 1] := WithLast(frame[cpos - 1]);
    area[0] := Simple(es[cpos], false, false);
    w := Place(frameCap, 1, 1, 1, cpos, 0, frameCap - 1);
  }

  /** As `AreaSide`, with everything in front of the current segment complete. */
  ghost predicate Settled(area: array<Slot>, es: seq<Sge>, a: seq<Slot>, cap: nat, w: Place)
    reads area
  {
    && Segment(area, es, a, cap, w)
    && forall p :: 0 <= p < w.b ==> area[p] == a[p]
  }

  /** Fills in the lengths of the pending chain element, which is in the frame if it is the first one. */
  method FixChain(frame: array<Slot>, area: array<Slot>, es: seq<Sge>, cap: nat,
                  ghost f: seq<Slot>, ghost a: seq<Slot>, w: Place, length: nat, next: nat)
    requires frame != area && FrameSide(frame, es, f, cap, w) && AreaSide(area, es, a, cap, w)
    requires ChainTo(w.b, |es| - w.e, cap) == Chain(w.b, length % 0x1_0000, next % 0x100)
    modifies frame, area
    ensures forall p :: 0 <= p < |f| ==> frame[p] == f[p]
    ensures Settled(area, es, a, cap, w)
  {
    hide Suffix, ChainTo;
    if w.k == 1 {
      frame[w.cpos] := Chain(frame[w.cpos].target, length % 0x1_0000, next % 0x100);
    } else {
      area[w.cpos] := Chain(area[w.cpos].target, length % 0x1_0000, next % 0x100);
    }
  }

  /** The three slot writes of a new link. */
  method Relink(area: array<Slot>, cpos: nat, again: Sge)
    requires 0 < cpos < area.Length - 1 && area[cpos].Simple? && area[cpos - 1].Simple?
    modifies area
    ensures area[cpos].Chain? && area[cpos].target == cpos + 1
    ensures area[cpos - 1] == old(area[cpos - 1]).(last := true)
    ensures area[cpos + 1] == Simple(again, false, false)
    ensures forall p :: 0 <= p < area.Length && (p < cpos - 1 || p > cpos + 1) ==> area[p] == old(area[p])
  {
    area[cpos] := Overlay(area[cpos], cpos + 1);
    area[cpos - 1] := WithLast(area[cpos - 1]);
    area[cpos + 1] := Simple(again, false, false);
  }

  /** What a full segment lacks to be as in the layout: a flag on the last slot but one, and a chain in the last. */
  lemma {:induction false} SegmentFull(area: array<Slot>, es: seq<Sge>, a: seq<Slot>, cap: nat, w: Place)
    requires Settled(area, es, a, cap, w) && w.j == cap && w.i < |es|
    ensures 2 <= w.pos < |a| - 1 < area.Length && cap >= 2 && w.i == w.e + cap && w.k > 0
    ensures forall p :: 0 <= p < w.pos - 2 ==> area[p] == a[p]
    ensures area[w.pos - 2].Simple? && area[w.pos - 1].Simple?
    ensures a[w.pos - 2] == area[w.pos - 2].(last := true)
    ensures a[w.pos - 1] == ChainTo(w.pos, |es| - (w.i - 1), cap)
    ensures Suffix(a, w.pos, es, w.i - 1, cap)
  {
    SuffixMore(a, w.b, es, w.e, cap);
  }

  /** Overwrites the last slot of a full segment by a chain element and writes its element again behind it. */
  method OverwriteLast(area: array<Slot>, es: seq<Sge>, cap: nat, ghost a: seq<Slot>, w: Place) returns (w': Place)
    requires Settled(area, es, a, cap, w) && w.j == cap && w.i < |es|
    modifies area
    ensures AreaSide(area, es, a, cap, w')
    ensures w'.i == w.i && w'.j == 1 && w'.k == w.k + 1 && w'.e < |es|
  {
    hide Suffix, ChainTo, Settled;
    SegmentFull(area, es, a, cap, w);
    Relink(area, w.pos - 1, es[w.i - 1]);
    w' := Place(w.i, 1, w.k + 1, w.pos + 1, w.pos - 1, w.pos, w.i - 1);
  }

  method ChainWithinArea(frame: array<Slot>, area: array<Slot>, es: seq<Sge>, cap: nat,
                         ghost f: seq<Slot>, ghost a: seq<Slot>, w: Place)
    returns (w': Place)
    requires frame != area && FrameSide(frame, es, f, cap, w) && AreaSide(area, es, a, cap, w)
    requires w.j == cap && w.i < |es|
    modifies frame, area
    ensures FrameSide(frame, es, f, cap, w') && AreaSide(area, es, a, cap, w')
    ensures w'.i == w.i && w'.j == 1
  {
    FixChain(frame, area, es, cap, f, a, w, SLOT_BYTES * cap, SLOT_WORDS * (cap - 1));
    hide Settled, AreaSide;
    w' := OverwriteLast(area, es, cap, a, w);
  }

  method EmitInArea(area: array<Slot>, es: seq<Sge>, cap: nat, ghost a: seq<Slot>, w: Place) returns (w': Place)
    requires AreaSide(area, es, a, cap, w) && w.j < cap && w.i < |es|
    modifies area
    ensures AreaSide(area, es, a, cap, w')
    ensures w' == w.(i := w.i + 1, j := w.j + 1, pos := w.pos + 1)
  {
    SuffixRoom(a, w.b, es, w.e, cap);
    hide Suffix, ChainTo;
    area[w.pos] := Simple(es[w.i], false, false);
    w' := w.(i := w.i + 1, j := w.j + 1, pos := w.pos + 1);
  }

  method FinishInArea(frame: array<Slot>, area: array<Slot>, es: seq<Sge>, cap: nat,
                      ghost f: seq<Slot>, ghost a: seq<Slot>, w: Place)
    requires frame != area && FrameSide(frame, es, f, cap, w) && AreaSide(area, es, a, cap, w) && w.i == |es|
    modifies frame, area
    ensures |f| <= frame.Length && frame[..|f|] == f
    ensures |a| <= area.Length && area[..|a|] == a
  {
    SuffixLast(a, w.b, es, w.e, cap);
    FixChain(frame, area, es, cap, f, a, w, SLOT_BYTES * w.j, 0);
    hide Suffix, ChainTo;
    area[w.pos - 1] := WithEnd(area[w.pos - 1]);
  }

  /** Writes the list into the request frame and, where that is full, into the chain area: the last element of a
      full segment is overwritten by a chain element and written again at the start of the next segment. */
  method Build(frame: array<Slot>, area: array<Slot>, es: seq<Sge>, frameCap: nat, cap: nat)
    requires es != [] && frameCap >= 2 && cap >= 2
    requires frame != area && frame.Length >= frameCap
    requires area.Length >= |AreaSlots(es, frameCap, cap)|
    modifies frame, area
    ensures var f := FrameSlots(es, frameCap, cap); |f| <= frame.Length && frame[..|f|] == f
    ensures var a := AreaSlots(es, frameCap, cap); area[..|a|] == a
  {
    hide FrameSlots, AreaSlots, AreaSide, ChainTo;
    ghost var f, a := FrameSlots(es, frameCap, cap), AreaSlots(es, frameCap, cap);
    var i, chained, w := 0, false, Place(0, 0, 0, 0, 0, 0, 0);
    while i < |es|
      invariant i <= |es|
      invariant !chained ==> i <= frameCap && InFrame(frame, es, i)
      invariant chained ==> |es| > frameCap && w.i == i && w.j <= cap
      invariant chained ==> FrameSide(frame, es, f, cap, w) && AreaSide(area, es, a, cap, w)
    {
      if !chained {
        if i == frameCap {
          w := ChainOutOfFrame(frame, area, es, frameCap, cap, f, a);
          chained := true;
        }
      } else if w.j == cap {
        w := ChainWithinArea(frame, area, es, cap, f, a, w);
      }
      if !chained {
        frame[i] := Simple(es[i], false, false);
      } else {
        w := EmitInArea(area, es, cap, a, w);
      }
      i := i + 1;
    }
    if chained {
      FinishInArea(frame, area, es, cap, f, a, w);
    } else {
      FrameFits(es, frameCap, cap);
      frame[i - 1] := WithEnd(frame[i - 1]);
    }
  }

  // --------------------------------------------------------------------------
  // From scatter list to request
  // --------------------------------------------------------------------------

  /** Sends a command's data: in the chain area of the driver's size, the list that is built reads back as one that
      describes exactly the first `bufflen` bytes of the mapped scatter list, and `bufflen` is the announced length. */
  method SendTargetData(frame: array<Slot>, area: array<Slot>, sg: seq<Sge>, bufflen: nat, frameCap: nat, cap: nat)
    returns (dataLength: nat, ghost es: seq<Sge>)
    requires 1 <= |sg| <= NUM_SGES && frameCap >= 2 && cap >= 9
    requires frame != area && frame.Length >= frameCap && area.Length == NUM_SGES + NUM_CHAINS
    modifies frame, area
    ensures dataLength == bufflen && |es| == |sg|
    ensures Built(frame, area, es, frameCap, cap)
    ensures forall byAddress ::
              ReadFrame(FrameSlots(es, frameCap, cap), AreaSlots(es, frameCap, cap), 0, byAddress) == es
    ensures Bytes(es) == Bytes(sg)[..Min(dataLength, |Bytes(sg)|)]
  {
    hide FrameSlots, AreaSlots, ReadFrame, Bytes;
    var sgl := Clip(sg, bufflen);
    es := sgl;
    AreaFits(es, frameCap, cap);
    Build(frame, area, sgl, frameCap, cap);
    forall byAddress
      ensures ReadFrame(FrameSlots(es, frameCap, cap), AreaSlots(es, frameCap, cap), 0, byAddress) == es
    {
      ReadBack(es, frameCap, cap, byAddress);
    }
    dataLength := bufflen;
  }

  // --------------------------------------------------------------------------
  // Walking
  // --------------------------------------------------------------------------

  function Total(es: seq<Sge>): nat {
    if es == [] then 0 else Total(es[..|es| - 1]) + es[|es| - 1].len
  }

  lemma {:induction false} TotalNext(es: seq<Sge>, m: nat)
    requires m < |es|
    ensures Total(es[..m + 1]) == Total(es[..m]) + es[m].len
  {
    assert es[..m + 1][..m] == es[..m];
  }

  /** The contents of memory that `Build` leaves behind. */
  ghost predicate Built(frame: array<Slot>, area: array<Slot>, es: seq<Sge>, frameCap: nat, cap: nat)
    reads frame, area
  {
    && es != [] && frameCap >= 2 && cap >= 2
    && var f, a := FrameSlots(es, frameCap, cap), AreaSlots(es, frameCap, cap);
       |f| <= frame.Length && |a| <= area.Length && frame[..|f|] == f && area[..|a|] == a
  }

  /** What remains to be read at a cursor. */
  ghost function Ahead(f: seq<Slot>, a: seq<Slot>, inFrame: bool, p: nat): seq<Sge> {
    if inFrame then ReadFrame(f, a, p, false) else ReadArea(a, p, false)
  }

  lemma {:induction false} AheadSimple(f: seq<Slot>, a: seq<Slot>, inFrame: bool, p: nat)
    requires Ahead(f, a, inFrame, p) != []
    ensures var s := if inFrame then f else a;
            && p < |s|
            && (s[p].Simple? ==> Ahead(f, a, inFrame, p)[0] == s[p].sge)
            && (s[p].Simple? && |Ahead(f, a, inFrame, p)| > 1 ==>
                  Ahead(f, a, inFrame, p + 1) == Ahead(f, a, inFrame, p)[1..])
            && (s[p].Chain? && inFrame ==> Ahead(f, a, false, s[p].target) == Ahead(f, a, inFrame, p))
            && (s[p].Chain? && !inFrame ==> Ahead(f, a, false, p + 1) == Ahead(f, a, inFrame, p))
  {
  }

  /** The first element that reaches beyond `target`, from element `m` on, when the list starts at `base`. */
  function StopAt(es: seq<Sge>, base: nat, target: nat, m: nat): (k: nat)
    requires m <= |es|
    ensures m <= k <= |es|
    ensures k < |es| ==> target < base + Total(es[..k + 1])
    ensures forall n :: m < n <= k ==> base + Total(es[..n]) <= target
    decreases |es| - m
  {
    if m == |es| || target < base + Total(es[..m + 1]) then m else StopAt(es, base, target, m + 1)
  }

  /** The driver's walk to the element that holds `newOffset`, when the list starts at `oldOffset`: it passes the
      original elements one by one, in order, and stops at the first one that reaches beyond the offset. */
  method Walk(frame: array<Slot>, area: array<Slot>, oldOffset: nat, newOffset: nat,
              ghost es: seq<Sge>, ghost frameCap: nat, ghost cap: nat)
    returns (inFrame: bool, p: nat, offset: nat)
    requires Built(frame, area, es, frameCap, cap) && newOffset < oldOffset + Total(es)
    ensures var m := StopAt(es, oldOffset, newOffset, 0);
            && m < |es| && offset == oldOffset + Total(es[..m]) && newOffset < offset + es[m].len
            && (inFrame ==> p < frame.Length && frame[p].Simple? && frame[p].sge == es[m])
            && (!inFrame ==> p < area.Length && area[p].Simple? && area[p].sge == es[m])
  {
    hide FrameSlots, AreaSlots, Ahead, Total, ReadFrame;
    ghost var f, a := FrameSlots(es, frameCap, cap), AreaSlots(es, frameCap, cap);
    ReadBack(es, frameCap, cap, false);
    AheadStart(f, a);
    TotalEnds(es);
    inFrame, p, offset := true, 0, oldOffset;
    ghost var m, rest := 0, es;
    while true
      invariant m < |es| && rest == es[m..] && rest != []
      invariant offset == oldOffset + Total(es[..m])
      invariant StopAt(es, oldOffset, newOffset, 0) == StopAt(es, oldOffset, newOffset, m)
      invariant Ahead(f, a, inFrame, p) == rest
      decreases inFrame, (if inFrame then |f| else |a|) - p
    {
      AheadSimple(f, a, inFrame, p);
      var slot := SlotAt(frame, area, inFrame, p, f, a);
      if slot.Chain? {
        if inFrame {
          inFrame, p := false, slot.target;
        } else {
          p := p + 1;
        }
      } else {
        TotalNext(es, m);
        if offset + slot.sge.len > newOffset {
          break;
        }
        offset := offset + slot.sge.len;
        p, m, rest := p + 1, m + 1, rest[1..];
      }
    }
  }

  method SlotAt(frame: array<Slot>, area: array<Slot>, inFrame: bool, p: nat, ghost f: seq<Slot>, ghost a: seq<Slot>)
    returns (slot: Slot)
    requires |f| <= frame.Length && |a| <= area.Length && frame[..|f|] == f && area[..|a|] == a
    requires p < if inFrame then |f| else |a|
    ensures slot == if inFrame then f[p] else a[p]
    ensures inFrame ==> slot == frame[p]
    ensures !inFrame ==> slot == area[p]
  {
    if inFrame {
      slot := frame[p];
      assert frame[..|f|][p] == frame[p];
    } else {
      slot := area[p];
      assert area[..|a|][p] == area[p];
    }
  }

  lemma {:induction false} TotalEnds(es: seq<Sge>)
    ensures Total(es[..0]) == 0 && Total(es[..|es|]) == Total(es)
  {
    assert es[..|es|] == es;
  }

  lemma {:induction false} AheadStart(f: seq<Slot>, a: seq<Slot>)
    ensures Ahead(f, a, true, 0) == ReadFrame(f, a, 0, false)
  {
  }
}
