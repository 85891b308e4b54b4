/** Flash ranges of the A/B firmware target and the layout test made before programming is enabled. */
module OtaLayout {
  import opened Words

  datatype Range = Range(base: uint32, size: uint32)

  predicate Inside(r: Range, x: int) {
    r.base <= x < r.base + r.size
  }

  predicate Contains(outer: Range, inner: Range) {
    && outer.size != 0 && inner.size != 0
    && inner.base >= outer.base
    && inner.base + inner.size <= outer.base + outer.size
    && outer.base + outer.size <= TWO_32
  }

  predicate Overlaps(a: Range, b: Range) {
    a.base < b.base + b.size && b.base < a.base + a.size
  }

  /** Containment is: both nonempty, every inner address an outer one, no address past 32 bits. */
  lemma ContainsMeansSubset(outer: Range, inner: Range)
    ensures Contains(outer, inner) <==>
            && inner.size != 0
            && (forall x :: Inside(inner, x) ==> Inside(outer, x))
            && outer.base + outer.size <= TWO_32
  {
    if inner.size != 0 && (forall x :: Inside(inner, x) ==> Inside(outer, x)) {
      assert Inside(inner, inner.base) && Inside(inner, inner.base + inner.size - 1);
    }
  }

  /** An empty range at an address strictly inside the other. */
  predicate EmptyWithin(empty: Range, r: Range) {
    empty.size == 0 && Inside(r, empty.base) && empty.base != r.base
  }

  /** The test says that an address is shared, except that it also refuses an empty range strictly inside the other. */
  lemma OverlapsMeansShared(a: Range, b: Range)
    ensures Overlaps(a, b) <==> (exists x :: Inside(a, x) && Inside(b, x)) || EmptyWithin(a, b) || EmptyWithin(b, a)
  {
    if Overlaps(a, b) && a.size != 0 && b.size != 0 {
      var x := if a.base >= b.base then a.base else b.base;
      assert Inside(a, x) && Inside(b, x);
    }
  }

  datatype Layout = Layout(flash: Range, bootloader: Range, slots: seq<Range>)

  /** Two slots and a bootloader region, inside flash and pairwise apart. */
  predicate Separated(l: Layout) {
    && |l.slots| == 2
    && Contains(l.flash, l.bootloader) && Contains(l.flash, l.slots[0]) && Contains(l.flash, l.slots[1])
    && !Overlaps(l.bootloader, l.slots[0]) && !Overlaps(l.bootloader, l.slots[1])
    && !Overlaps(l.slots[0], l.slots[1])
  }

  ghost predicate IsPartOf(r: Range, flash: Range) {
    r.size != 0 && forall x :: Inside(r, x) ==> Inside(flash, x)
  }

  ghost predicate Apart(a: Range, b: Range) {
    forall x :: !(Inside(a, x) && Inside(b, x))
  }

  /** What the tests amount to: two slots and a bootloader, nonempty parts of a 32-bit flash that share nothing. */
  lemma SeparatedIff(l: Layout)
    ensures Separated(l) <==>
            && |l.slots| == 2 && l.flash.base + l.flash.size <= 0x1_0000_0000
            && IsPartOf(l.bootloader, l.flash) && IsPartOf(l.slots[0], l.flash) && IsPartOf(l.slots[1], l.flash)
            && Apart(l.bootloader, l.slots[0]) && Apart(l.bootloader, l.slots[1]) && Apart(l.slots[0], l.slots[1])
  {
    if |l.slots| == 2 {
      ContainsMeansSubset(l.flash, l.bootloader);
      ContainsMeansSubset(l.flash, l.slots[0]);
      ContainsMeansSubset(l.flash, l.slots[1]);
      OverlapsMeansShared(l.bootloader, l.slots[0]);
      OverlapsMeansShared(l.bootloader, l.slots[1]);
      OverlapsMeansShared(l.slots[0], l.slots[1]);
    }
  }

  /** In a separated layout each address belongs to at most one of the three regions. */
  lemma RegionsAreDisjoint(l: Layout, x: int)
    requires Separated(l)
    ensures !(Inside(l.slots[0], x) && Inside(l.slots[1], x))
    ensures forall i :: 0 <= i < 2 ==> !(Inside(l.bootloader, x) && Inside(l.slots[i], x))
    ensures forall i :: 0 <= i < 2 && Inside(l.slots[i], x) ==> 0 <= x < TWO_32
  {
  }
}
