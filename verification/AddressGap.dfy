/** The two searches for a hole in the address space: upwards over an array of mappings, and downwards over a
    list built by inserting at its head. */
module AddressGap {
  import opened Representable
  import opened Words

  datatype Mapping = Mapping(start: Word64, end: Word64)

  /** The mappings of a process, as the kernel lists them: non-empty, disjoint and ascending. */
  ghost predicate Sorted(m: seq<Mapping>) {
    && (forall i :: 0 <= i < |m| ==> m[i].start < m[i].end)
    && (forall i, j :: 0 <= i < j < |m| ==> m[i].end <= m[j].start)
  }

  ghost predicate Alignment(a: nat) { 0 < a < TWO64 && MultipleOf(TWO64, a) }

  /** What is looked for: an aligned address between the first and the last mapping from which len bytes lie
      outside every mapping. */
  ghost predicate Hole(m: seq<Mapping>, len: nat, a: nat, t: nat) {
    && m != [] && m[0].end <= t && t + len <= m[|m| - 1].start && MultipleOf(t, a)
    && forall i :: 0 <= i < |m| ==> t + len <= m[i].start || m[i].end <= t
  }

  ghost predicate SomeHole(m: seq<Mapping>, len: nat, a: nat) { exists t: nat :: Hole(m, len, a, t) }

  // ---- one gap ----------------------------------------------------------------------------------

  /** The test both loops make on the gap between two neighbours. */
  predicate Accepts(below: Mapping, above: Mapping, len: Word64, a: nat)
    requires 0 < a < TWO64
  {
    AlignUp(below.end, a) <= above.start && above.start - AlignUp(below.end, a) >= len
  }

  /** The aligned start of the gap would lie beyond the address space, and wraps to zero. */
  predicate Misled(below: Mapping, above: Mapping, len: Word64, a: nat) {
    below.end + a > TWO64 && above.start >= len
  }

  ghost predicate InGap(below: Mapping, above: Mapping, len: nat, a: nat, t: nat) {
    below.end <= t && t + len <= above.start && MultipleOf(t, a)
  }

  /** The test succeeds where the gap holds the range, and then finds the lowest place; or it is misled. */
  lemma GapTest(below: Mapping, above: Mapping, len: Word64, a: nat)
    requires Alignment(a) && below.start < below.end
    ensures var s := AlignUp(below.end, a);
      && (Accepts(below, above, len, a) <==> InGap(below, above, len, a, s) || Misled(below, above, len, a))
      && (Accepts(below, above, len, a) ==> (s == 0 <==> Misled(below, above, len, a)))
      && (forall t: nat | InGap(below, above, len, a, t) ::
            s <= t && InGap(below, above, len, a, s) && !Misled(below, above, len, a))
  {
    if below.end + a <= TWO64 {
      AlignUpIs(below.end, a);
    } else {
      AlignUpWraps(below.end, a);
    }
  }

  /** t lies in the gap below mapping i. */
  ghost predicate GapAt(m: seq<Mapping>, i: nat, len: nat, a: nat, t: nat) {
    0 < i < |m| && InGap(m[i - 1], m[i], len, a, t)
  }

  ghost predicate NoGap(m: seq<Mapping>, low: nat, high: nat, len: nat, a: nat) {
    forall i: nat, t: nat | low <= i < high :: !GapAt(m, i, len, a, t)
  }

  lemma GapIsHole(m: seq<Mapping>, i: nat, len: nat, a: nat, t: nat)
    requires Sorted(m) && GapAt(m, i, len, a, t)
    ensures Hole(m, len, a, t)
  {}

  lemma {:induction false} HoleIsInGap(m: seq<Mapping>, len: nat, a: nat, t: nat, n: nat) returns (i: nat)
    requires Sorted(m) && Hole(m, len, a, t) && n < |m| && t + len <= m[n].start
    ensures i <= n && GapAt(m, i, len, a, t)
  {
    if m[n - 1].end <= t {
      i := n;
    } else {
      i := HoleIsInGap(m, len, a, t, n - 1);
    }
  }

  // ---- the answers ------------------------------------------------------------------------------

  /** Zero when there is no hole, and otherwise the lowest one. */
  ghost predicate LowestHole(m: seq<Mapping>, len: nat, a: nat, addr: nat) {
    && (addr == 0 <==> !SomeHole(m, len, a))
    && (addr != 0 ==> Hole(m, len, a, addr) && forall t: nat | Hole(m, len, a, t) :: addr <= t)
  }

  /** Some mapping lies between len bytes at t and the higher address s. */
  ghost predicate MappedBetween(m: seq<Mapping>, t: nat, len: nat, s: nat) {
    exists j :: 0 <= j < |m| && t + len <= m[j].start && m[j].end <= s
  }

  /** The gap below the last mapping makes the search's alignment wrap. */
  predicate TopMisled(m: seq<Mapping>, len: Word64, a: nat) {
    |m| >= 2 && Misled(m[|m| - 2], m[|m| - 1], len, a)
  }

  /** Zero when there is no hole or the top gap misleads; otherwise the lowest hole of the highest gap that has
      one: nothing is mapped between it and any higher hole, and something is below. */
  ghost predicate HighestHole(m: seq<Mapping>, len: Word64, a: nat, addr: nat) {
    && (addr == 0 <==> !SomeHole(m, len, a) || TopMisled(m, len, a))
    && (addr != 0 ==>
          && Hole(m, len, a, addr)
          && (forall t: nat | Hole(m, len, a, t) && t < addr :: MappedBetween(m, t, len, addr))
          && (forall t: nat | Hole(m, len, a, t) && addr <= t :: !MappedBetween(m, addr, len, t)))
  }

  ghost predicate PowerOfTwo(a: nat) { exists n: nat :: n < 64 && a == Pow2(n) }

  lemma PowerIsAlignment(a: nat)
    requires PowerOfTwo(a)
    ensures Alignment(a)
  {
    var n: nat :| n < 64 && a == Pow2(n);
    Pow2Small(n);
  }

  lemma AlignmentNeeded(len: Word64, align0: Word64, align: nat, mantissa: nat)
    requires mantissa >= 1 && align == if align0 == 0 then Granule(len, mantissa) else align0
    requires align0 != 0 ==> PowerOfTwo(align0)
    ensures Alignment(align)
  {
    if align0 == 0 {
      GranuleIsPow2(len, mantissa);
    } else {
      PowerIsAlignment(align0);
    }
  }

  // ---- the array search -------------------------------------------------------------------------

  /** With an alignment given it is honoured; align0 == 0 asks for a range that a capability can describe. */
  method FindUpwards(kivp: array<Mapping>, len0: Word64, align0: Word64, mantissa: nat) returns (addr: Word64)
    requires Sorted(kivp[..]) && mantissa >= 1 && (align0 != 0 ==> PowerOfTwo(align0))
    ensures align0 != 0 ==> LowestHole(kivp[..], len0, align0, addr)
    ensures align0 == 0 ==>
      var l := RepresentableLength(len0, mantissa); LowestHole(kivp[..], l, Granule(l, mantissa), addr)
  {
    addr := 0;
    var len, align := len0, align0;
    if align == 0 {
      len := RepresentableLength(len, mantissa);
      align := Granule(len, mantissa);
    }
    AlignmentNeeded(len, align0, align, mantissa);
    ghost var m := kivp[..];
    var i := 1;
    while i < kivp.Length
      invariant addr == 0 && 1 <= i
      invariant NoGap(m, 1, i, len, align)
    {
      var alignedStart := AlignUp(kivp[i - 1].end, align);
      var end := kivp[i].start;
      if alignedStart <= end && end - alignedStart >= len {
        addr := alignedStart;
        FoundUpwards(m, len, align, i);
        return;
      }
      RefusedGap(m, len, align, i);
      i := i + 1;
    }
    NoneLeft(m, len, align);
  }

  lemma RefusedGap(m: seq<Mapping>, len: Word64, a: nat, i: nat)
    requires Sorted(m) && Alignment(a) && 0 < i < |m| && !Accepts(m[i - 1], m[i], len, a)
    ensures NoGap(m, i, i + 1, len, a)
  {
    GapTest(m[i - 1], m[i], len, a);
  }

  lemma FoundUpwards(m: seq<Mapping>, len: Word64, a: nat, i: nat)
    requires Sorted(m) && Alignment(a) && 0 < i < |m| && Accepts(m[i - 1], m[i], len, a)
    requires NoGap(m, 1, i, len, a)
    ensures LowestHole(m, len, a, AlignUp(m[i - 1].end, a))
  {
    var s := AlignUp(m[i - 1].end, a);
    GapTest(m[i - 1], m[i], len, a);
    forall t: nat | Hole(m, len, a, t) ensures s != 0 && s <= t {
      var j := HoleIsInGap(m, len, a, t, |m| - 1);
      GapTest(m[j - 1], m[j], len, a);
      assert i <= j;
      assert m[i - 1].end <= m[j - 1].end;
    }
    if s != 0 {
      GapIsHole(m, i, len, a, s);
    }
  }

  lemma NoneLeft(m: seq<Mapping>, len: nat, a: nat)
    requires Sorted(m) && NoGap(m, 1, |m|, len, a)
    ensures !SomeHole(m, len, a)
  {
    forall t: nat ensures !Hole(m, len, a, t) {
      if Hole(m, len, a, t) {
        var j := HoleIsInGap(m, len, a, t, |m| - 1);
      }
    }
  }

  // ---- the list search --------------------------------------------------------------------------

  /** A node of the list. Its link is set once, when the node is put at the head. */
  class Vma {
    const start: Word64
    const end: Word64
    const link: Vma?

    constructor (v: Mapping, next: Vma?)
      ensures start == v.start && end == v.end && link == next
    {
      start, end, link := v.start, v.end, next;
    }
  }

  /** Walking from the head meets the mappings from the last one down. */
  ghost predicate Linked(head: Vma?, m: seq<Mapping>)
    decreases |m|
  {
    if m == [] then head == null
    else
      var n := |m| - 1;
      head != null && Mapping(head.start, head.end) == m[n] && Linked(head.link, m[..n])
  }

  /** The list made from the lines read, each put at the head. */
  method BuildList(lines: seq<Mapping>) returns (head: Vma?)
    ensures Linked(head, lines)
  {
    head := null;
    for i := 0 to |lines|
      invariant Linked(head, lines[..i])
    {
      head := new Vma(lines[i], head);
      assert lines[..i + 1][..i] == lines[..i];
    }
    assert lines[..|lines|] == lines;
  }

  lemma NextNode(it: Vma?, m: seq<Mapping>, k: nat)
    requires 0 < k < |m| && Linked(it, m[..k + 1])
    ensures it != null && it.start == m[k].start
    ensures it.link != null && it.link.end == m[k - 1].end && Linked(it.link, m[..k])
  {
    assert m[..k + 1][..k] == m[..k];
  }

  lemma RefusedDownwards(m: seq<Mapping>, len: Word64, a: nat, k: nat)
    requires Sorted(m) && Alignment(a) && 0 < k < |m| && !Accepts(m[k - 1], m[k], len, a)
    requires NoGap(m, k + 1, |m|, len, a) && (k + 1 < |m| ==> !TopMisled(m, len, a))
    ensures NoGap(m, k, |m|, len, a) && !TopMisled(m, len, a)
  {
    RefusedGap(m, len, a, k);
    GapTest(m[k - 1], m[k], len, a);
  }

  /** The loop down the list; maps has at least one entry, and the bound is an unsigned count less one. */
  method SearchList(head: Vma, vmcnt: nat, len: Word64, align: nat, ghost m: seq<Mapping>) returns (addr: Word64)
    requires Sorted(m) && vmcnt == |m| && Linked(head, m) && Alignment(align)
    ensures HighestHole(m, len, align, addr)
  {
    addr := 0;
    var it := head;
    var i := 0;
    ghost var k := vmcnt - 1;
    assert m[..k + 1] == m;
    while i < vmcnt - 1
      invariant 0 <= i < vmcnt && k == vmcnt - 1 - i && Linked(it, m[..k + 1])
      invariant NoGap(m, k + 1, |m|, len, align) && (k + 1 < |m| ==> !TopMisled(m, len, align))
    {
      NextNode(it, m, k);
      var end := it.start;
      it := it.link;
      var alignedStart := AlignUp(it.end, align);
      if alignedStart <= end && end - alignedStart >= len {
        FoundDownwards(m, len, align, k);
        return alignedStart;
      }
      RefusedDownwards(m, len, align, k);
      i, k := i + 1, k - 1;
    }
    NoneLeft(m, len, align);
  }

  method FindDownwards(lines: seq<Mapping>, len0: Word64, align0: Word64, mantissa: nat) returns (addr: Word64)
    requires Sorted(lines) && lines != []
    requires mantissa >= 1 && (align0 != 0 ==> PowerOfTwo(align0))
    ensures align0 != 0 ==> HighestHole(lines, len0, align0, addr)
    ensures align0 == 0 ==>
      var l := RepresentableLength(len0, mantissa); HighestHole(lines, l, Granule(l, mantissa), addr)
  {
    var head := BuildList(lines);
    var len, align := len0, align0;
    if align == 0 {
      len := RepresentableLength(len, mantissa);
      align := Granule(len, mantissa);
    }
    AlignmentNeeded(len, align0, align, mantissa);
    addr := SearchList(head, |lines|, len, align, lines);
  }

  /** Only the top gap can mislead, and then no other gap is looked at. */
  lemma MisledIsTop(m: seq<Mapping>, len: Word64, a: nat, i: nat)
    requires Sorted(m) && 0 < i < |m| && Misled(m[i - 1], m[i], len, a)
    ensures TopMisled(m, len, a)
  {
    assert m[i - 1].end <= m[|m| - 2].end && m[i].start <= m[|m| - 1].start;
  }

  lemma FoundDownwards(m: seq<Mapping>, len: Word64, a: nat, i: nat)
    requires Sorted(m) && Alignment(a) && 0 < i < |m| && Accepts(m[i - 1], m[i], len, a)
    requires NoGap(m, i + 1, |m|, len, a) && (i + 1 < |m| ==> !TopMisled(m, len, a))
    ensures HighestHole(m, len, a, AlignUp(m[i - 1].end, a))
  {
    var s := AlignUp(m[i - 1].end, a);
    GapTest(m[i - 1], m[i], len, a);
    if s == 0 {
      MisledIsTop(m, len, a, i);
      return;
    }
    GapIsHole(m, i, len, a, s);
    if TopMisled(m, len, a) {
      assert false;
    }
    forall t: nat | Hole(m, len, a, t)
      ensures t < s ==> MappedBetween(m, t, len, s)
      ensures s <= t ==> !MappedBetween(m, s, len, t)
    {
      var j := HoleIsInGap(m, len, a, t, |m| - 1);
      GapTest(m[j - 1], m[j], len, a);
      if j < i {
        assert t + len <= m[i - 1].start && m[i - 1].end <= s;
      }
    }
  }

  // ---- the two searches together ----------------------------------------------------------------

  /** Both fail on the same inputs exactly when the top gap does not mislead or there is nothing to find; when
      both succeed the array search is never higher. */
  lemma SearchesAgreeExactly(m: seq<Mapping>, len: Word64, a: nat, up: nat, down: nat)
    requires LowestHole(m, len, a, up) && HighestHole(m, len, a, down)
    ensures (up == 0 <==> down == 0) <==> !TopMisled(m, len, a) || !SomeHole(m, len, a)
    ensures down != 0 ==> 0 < up <= down
  {
    if up != 0 {
      assert SomeHole(m, len, a);
    }
  }

  /** The list search reports failure here, although a range of the length asked for is free. */
  lemma ListSearchCanMiss()
    ensures var m := [Mapping(0x1000, 0x2000), Mapping(0x4000_0000, TWO64 - 0x2000),
                      Mapping(TWO64 - 0x1000, TWO64 - 1)];
      && Sorted(m) && Alignment(0x10000)
      && LowestHole(m, 0x1000, 0x10000, 0x10000) && HighestHole(m, 0x1000, 0x10000, 0)
  {
    var m := [Mapping(0x1000, 0x2000), Mapping(0x4000_0000, TWO64 - 0x2000), Mapping(TWO64 - 0x1000, TWO64 - 1)];
    assert TWO64 == 0x1_0000_0000_0000 * 0x10000;
    assert 0x10000 == 1 * 0x10000;
    assert Hole(m, 0x1000, 0x10000, 0x10000);
    forall t: nat | Hole(m, 0x1000, 0x10000, t) ensures 0x10000 <= t {
      var k: nat :| t == k * 0x10000;
    }
  }

  /** A range that a capability can describe exactly: base and length are multiples of the length's granule. */
  ghost predicate Describable(base: nat, len: Word64, mantissa: nat)
    requires mantissa >= 1
  {
    && MultipleOf(base, Granule(len, mantissa)) && MultipleOf(len, Granule(len, mantissa))
    && RepresentableLength(len, mantissa) == len
  }

  /** With no alignment given, what either search finds is a free range that a capability can describe, and it
      holds the length asked for, unless rounding that up leaves the 64-bit range. */
  lemma FoundIsDescribable(m: seq<Mapping>, len: Word64, mantissa: nat, addr: nat)
    requires mantissa >= 1 && len + Granule(len, mantissa) <= TWO64 && addr != 0
    requires var l := RepresentableLength(len, mantissa);
      LowestHole(m, l, Granule(l, mantissa), addr) || HighestHole(m, l, Granule(l, mantissa), addr)
    ensures var l := RepresentableLength(len, mantissa);
      len <= l && Describable(addr, l, mantissa) && Hole(m, len, Granule(l, mantissa), addr)
  {
    RepresentableExactly(len, mantissa);
    RoundedIsRepresentable(len, mantissa);
    RepresentableExactly(RepresentableLength(len, mantissa), mantissa);
  }
}
