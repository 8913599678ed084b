/**
  Memory layouts and the bump-packing step every planner of the container uses: the standard
  library's `Layout::extend` on a 64-bit target, written on unbounded integers with the
  platform limits made explicit. A running layout starts at size 0 and alignment 8; each bean is
  placed at the running size rounded up to the bean's alignment, and the running size becomes
  that offset plus the bean's size.
*/
module Layouts {
  import opened Wrappers

  const USIZE_MAX: nat := 0xFFFF_FFFF_FFFF_FFFF
  const ISIZE_MAX: nat := 0x7FFF_FFFF_FFFF_FFFF

  predicate IsPowerOfTwo(a: nat)
    decreases a
  {
    a == 1 || (a >= 2 && a % 2 == 0 && IsPowerOfTwo(a / 2))
  }

  function Max(a: nat, b: nat): nat { if a < b then b else a }

  /** A size in bytes and an alignment. */
  datatype Layout = Layout(size: nat, align: nat) {
    /** What `Layout::from_size_align` guarantees of every layout it hands out. */
    predicate Valid() {
      IsPowerOfTwo(align) && size + (align - 1) <= ISIZE_MAX
    }
  }

  /** `Layout::from_size_align(0, 8)`, the start of every running layout. */
  const Start: Layout := Layout(0, 8)

  lemma StartValid()
    ensures Start.Valid()
  {
    assert IsPowerOfTwo(8) by { assert IsPowerOfTwo(4) by { assert IsPowerOfTwo(2); } }
  }

  /** `Layout::from_size_align`: the isize limit on the size once rounded up to the alignment. */
  function FromSizeAlign(size: nat, align: nat): (r: Option<Layout>)
    ensures r.Some? <==> IsPowerOfTwo(align) && size + (align - 1) <= ISIZE_MAX
    ensures r.Some? ==> r.value.Valid() && r.value == Layout(size, align)
  {
    if IsPowerOfTwo(align) && size + (align - 1) <= ISIZE_MAX then Some(Layout(size, align)) else None
  }

  lemma MultipleMod(q: nat, a: nat)
    requires a >= 1
    ensures (q * a) % a == 0
  {
    var r := q * a;
    assert r == q * a + 0;
    LemmaFundamentalDivMod(r, a, q, 0);
  }

  /** The quotient and remainder of a division are unique. */
  lemma LemmaFundamentalDivMod(x: nat, a: nat, q: nat, r: nat)
    requires a >= 1 && r < a && x == q * a + r
    ensures x / a == q && x % a == r
  {
    var q', r' := x / a, x % a;
    if q' != q {
      var lo, hi := if q' < q then q' else q, if q' < q then q else q';
      MulDistance(lo, hi, a);
    }
  }

  lemma MulDistance(lo: nat, hi: nat, a: nat)
    requires lo < hi && a >= 1
    ensures hi * a >= lo * a + a
    decreases hi - lo
  {
    assert hi * a == (hi - 1) * a + a;
    if hi - 1 > lo {
      MulDistance(lo, hi - 1, a);
    }
  }

  /**
    The running size rounded up to `align`, that is the running size plus
    `padding_needed_for(align)`; for a power-of-two alignment this is what the standard
    library's bit trick computes.
  */
  function RoundUp(n: nat, align: nat): (r: nat)
    requires align >= 1
    ensures r % align == 0
    ensures n <= r < n + align
    ensures n % align == 0 ==> r == n
  {
    if n % align == 0 then n
    else
      var q := n / align;
      assert n == q * align + n % align;
      MultipleMod(q + 1, align);
      assert (q + 1) * align == n + (align - n % align);
      n + (align - n % align)
  }

  /** The new running layout and the offset at which the appended layout starts. */
  datatype Extended = Extended(layout: Layout, offset: nat)

  /**
    `Layout::extend(self, next)`: the offset is `self.size` rounded up to `next.align`, the new
    size is that offset plus `next.size`, the new alignment the larger of the two; the two
    `checked_add`s and the final `from_size_align` turn an overflow into a `LayoutError`
    (here `None`).
  */
  function Extend(self: Layout, next: Layout): (r: Option<Extended>)
    requires self.Valid() && next.Valid()
    ensures r.Some? ==> r.value.layout.Valid()
    ensures r.Some? ==> r.value.offset % next.align == 0
    ensures r.Some? ==> self.size <= r.value.offset < self.size + next.align
    ensures r.Some? ==> r.value.layout.size == r.value.offset + next.size
    ensures r.Some? ==> r.value.layout.align == Max(self.align, next.align)
    ensures r.None? <==> RoundUp(self.size, next.align) + next.size + (Max(self.align, next.align) - 1) > ISIZE_MAX
  {
    var newAlign := Max(self.align, next.align);
    var offset := RoundUp(self.size, next.align);
    if offset > USIZE_MAX then None
    else
      var newSize := offset + next.size;
      if newSize > USIZE_MAX then None
      else
        match FromSizeAlign(newSize, newAlign)
        case None => None
        case Some(l) => Some(Extended(l, offset))
  }

  /** The packing of a whole list of layouts: the final running layout and one offset per layout. */
  datatype Packing = Packing(layout: Layout, offsets: seq<nat>)

  predicate AllValid(ls: seq<Layout>)
  {
    forall i :: 0 <= i < |ls| ==> ls[i].Valid()
  }

  /** Folding `Extend` over `ls` from `Start`; `None` as soon as one step fails. */
  function Pack(ls: seq<Layout>): (r: Option<Packing>)
    requires AllValid(ls)
    ensures r.Some? ==> |r.value.offsets| == |ls| && r.value.layout.Valid()
    decreases |ls|
  {
    if ls == [] then StartValid(); Some(Packing(Start, []))
    else
      match Pack(ls[..|ls| - 1])
      case None => None
      case Some(p) =>
        match Extend(p.layout, ls[|ls| - 1])
        case None => None
        case Some(e) => Some(Packing(e.layout, p.offsets + [e.offset]))
  }

  /**
    The packing property: every offset is a multiple of its layout's alignment, the slots
    `offset .. offset + size` lie in increasing, non-overlapping order, and all fit in the
    running layout's size.
  */
  ghost predicate Packed(ls: seq<Layout>, offsets: seq<nat>, total: Layout)
  {
    && |offsets| == |ls|
    && (forall i :: 0 <= i < |ls| ==> ls[i].align >= 1 && offsets[i] % ls[i].align == 0)
    && (forall i, j :: 0 <= i < j < |ls| ==> offsets[i] + ls[i].size <= offsets[j])
    && (forall i :: 0 <= i < |ls| ==> offsets[i] + ls[i].size <= total.size)
    && (|ls| > 0 ==> total.size == offsets[|ls| - 1] + ls[|ls| - 1].size)
  }

  /** Appending one extended slot keeps a packing packed. */
  lemma ExtendKeepsPacked(ls: seq<Layout>, offsets: seq<nat>, total: Layout, next: Layout)
    requires Packed(ls, offsets, total) && total.Valid() && next.Valid()
    requires Extend(total, next).Some?
    ensures Packed(ls + [next], offsets + [Extend(total, next).value.offset], Extend(total, next).value.layout)
  {
    var e := Extend(total, next).value;
    var ls', offs' := ls + [next], offsets + [e.offset];
    assert IsPowerOfTwo(next.align);
    assert next.align >= 1 by { PowerOfTwoPositive(next.align); }
    forall i | 0 <= i < |ls'|
      ensures ls'[i].align >= 1 && offs'[i] % ls'[i].align == 0
    {
      if i < |ls| { assert ls'[i] == ls[i]; }
    }
  }

  lemma PowerOfTwoPositive(a: nat)
    requires IsPowerOfTwo(a)
    ensures a >= 1
  {
  }

  /** What `Pack` computes is a packing of its input, starting from `Start`. */
  lemma {:induction false} PackIsPacked(ls: seq<Layout>)
    requires AllValid(ls) && Pack(ls).Some?
    ensures Packed(ls, Pack(ls).value.offsets, Pack(ls).value.layout)
    decreases |ls|
  {
    if ls != [] {
      var init := ls[..|ls| - 1];
      assert AllValid(init);
      PackIsPacked(init);
      var p := Pack(init).value;
      assert ls == init + [ls[|ls| - 1]];
      ExtendKeepsPacked(init, p.offsets, p.layout, ls[|ls| - 1]);
    }
  }
}
