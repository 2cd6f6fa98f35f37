/** The data buffer of a write as it lies in memory: a list of arrays that frames are copied into. */
module Memory {
  import opened Buffers

  /** Distinct, non-empty pieces of memory. */
  predicate Mapped(mem: seq<array<byte>>) {
    && (forall i :: 0 <= i < |mem| ==> mem[i].Length > 0)
    && (forall i, j :: 0 <= i < j < |mem| ==> mem[i] != mem[j])
  }

  ghost function Contents(mem: seq<array<byte>>): (segs: Segments)
    reads mem
    ensures |segs| == |mem|
    ensures forall i :: 0 <= i < |mem| ==> segs[i] == mem[i][..]
  {
    if mem == [] then [] else Contents(mem[..|mem| - 1]) + [mem[|mem| - 1][..]]
  }

  /** The bytes in front of segment `k`. */
  function Base(mem: seq<array<byte>>, k: nat): nat
    requires k <= |mem|
  {
    if k == 0 then 0 else Base(mem, k - 1) + mem[k - 1].Length
  }

  lemma {:induction false} BaseIsStart(mem: seq<array<byte>>, k: nat)
    requires k <= |mem|
    ensures Base(mem, k) == Start(Contents(mem), k)
  {
    if k > 0 {
      BaseIsStart(mem, k - 1);
      StartNext(Contents(mem), k - 1);
    }
  }

  lemma {:induction false} BaseStep(mem: seq<array<byte>>, k: nat, n: nat)
    requires k < n <= |mem|
    ensures Base(mem, k) + mem[k].Length == Base(mem, k + 1) <= Base(mem, n)
  {
    if k + 1 < n {
      BaseStep(mem, k, n - 1);
    }
  }

  lemma {:induction false} BaseZero(mem: seq<array<byte>>)
    ensures Base(mem, 0) == 0
  {
  }

  lemma {:induction false} BaseIsSize(mem: seq<array<byte>>)
    ensures Base(mem, |mem|) == |Flatten(Contents(mem))|
  {
    BaseIsStart(mem, |mem|);
    StartMonotone(Contents(mem), |mem|);
  }

  method Memcpy(to: array<byte>, at: nat, from: seq<byte>)
    requires at + |from| <= to.Length
    modifies to
    ensures to[..] == Patch(old(to[..]), at, from)
  {
    for i := 0 to |from|
      invariant to[..] == Patch(old(to[..]), at, from[..i])
    {
      to[at + i] := from[i];
    }
    assert from[..|from|] == from;
  }

  /** Copies into segment `k`; seen from outside, overwrites that part of the flattened buffer. */
  method CopyInto(mem: seq<array<byte>>, k: nat, at: nat, from: seq<byte>)
    requires Mapped(mem) && k < |mem| && at + |from| <= mem[k].Length
    modifies mem[k]
    ensures Base(mem, k) + at + |from| <= |old(Flatten(Contents(mem)))|
    ensures Flatten(Contents(mem)) == Patch(old(Flatten(Contents(mem))), Base(mem, k) + at, from)
  {
    hide Flatten;
    ghost var before := Contents(mem);
    Memcpy(mem[k], at, from);
    assert Contents(mem) == before[k := Patch(before[k], at, from)];
    PatchSegment(before, k, at, from);
    BaseIsStart(mem, k);
    assert Contents(mem)[..k] == before[..k];
  }
}
