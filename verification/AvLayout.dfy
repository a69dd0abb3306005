// How an array body's bookkeeping moves: the allocation size, the offset of the
// first element, fill and max, together with a count of the slots that Move and
// Copy have touched.  The class in AvBody.dfy is proved to follow these functions;
// the growth theorems below are about them.
module AvLayout {
  import opened Common

  const SV_PTR_SIZE: nat := 8       // sizeof(SV*)
  const MALLOC_OVERHEAD: nat := 16

  // cap: slots in AvALLOC (0 when there is none); off: AvARRAY - AvALLOC.
  datatype Layout = Layout(cap: nat, off: nat, fill: int, max: int, moved: nat)

  predicate Shape(l: Layout) {
    -1 <= l.fill <= l.max && l.off + l.max + 1 <= l.cap
  }

  const EMPTY: Layout := Layout(0, 0, -1, -1, 0)

  // The doubling loop that turns a byte count into a block malloc likes.
  function RoundUp(itmp: nat, bytes: nat): (r: nat)
    requires itmp >= MALLOC_OVERHEAD
    ensures r - MALLOC_OVERHEAD >= bytes && r >= itmp
    decreases bytes + MALLOC_OVERHEAD - itmp
  {
    if itmp - MALLOC_OVERHEAD < bytes then RoundUp(itmp + itmp, bytes) else itmp
  }

  // Slots of the new block when index newmax must fit.
  function BlockSlots(newmax: nat): (n: nat)
    ensures n > newmax
  {
    var r := RoundUp(MALLOC_OVERHEAD, (newmax + 1) * SV_PTR_SIZE);
    (r - MALLOC_OVERHEAD) / SV_PTR_SIZE
  }

  function Regrow(l: Layout, newmax: nat): Layout
    requires Shape(l)
  {
    var n := BlockSlots(newmax);
    l.(cap := n, max := n - 1, moved := l.moved + l.max + 1)
  }

  function Extend(l: Layout, key: int): (r: Layout)
    requires Shape(l)
    ensures Shape(r) && r.fill == l.fill
    ensures key <= r.max && l.max <= r.max
  {
    if key <= l.max then l
    else if l.off != 0 then
      var slid := l.(off := 0, max := l.max + l.off, moved := l.moved + l.fill + 1);
      if key > slid.max - 10 then Regrow(slid, key + slid.max) else slid
    else if l.cap != 0 then
      Regrow(l, key + (if l.max < 0 then 0 else l.max / 5))   // C division truncates
    else
      var newmax := if key < 3 then 3 else key;
      l.(cap := newmax + 1, max := newmax)
  }

  // av_store at an index that is at least 0.
  function Store(l: Layout, key: nat): (r: Layout)
    requires Shape(l)
    ensures Shape(r) && r.fill == if l.fill < key then key else l.fill
  {
    var e := if key > l.max then Extend(l, key) else l;
    e.(fill := if e.fill < key then key else e.fill)
  }

  function Push(l: Layout): (r: Layout)
    requires Shape(l)
    ensures Shape(r) && r.fill == l.fill + 1
  {
    Store(l, l.fill + 1)
  }

  // The part of av_unshift that reuses front slack.
  function Reuse(l: Layout, i: nat): (r: Layout)
    requires Shape(l) && i <= l.off
    ensures Shape(r)
  {
    l.(off := l.off - i, fill := l.fill + i, max := l.max + i)
  }

  // The part that makes room, and leaves slack for the next time.
  function MakeRoom(l: Layout, num: nat): (r: Layout)
    requires Shape(l) && l.off == 0 && num > 0
    ensures Shape(r) && r.fill == l.fill + num
  {
    var slide := if l.fill > 0 then l.fill else 0;
    var e := Extend(l, l.fill + num + slide);
    e.(off := slide, fill := e.fill + num, max := e.max - slide, moved := e.moved + l.fill + 1)
  }

  function Unshift(l: Layout, num: int): (r: Layout)
    requires Shape(l)
    ensures Shape(r) && r.fill == l.fill + if num <= 0 then 0 else num
  {
    if num <= 0 then l
    else
      var i := if l.off > num then num else l.off;
      if i < num then MakeRoom(Reuse(l, i), num - i) else Reuse(l, i)
  }

  function Shift(l: Layout): (r: Layout)
    requires Shape(l)
    ensures Shape(r)
  {
    if l.fill < 0 then l else l.(off := l.off + 1, fill := l.fill - 1, max := l.max - 1)
  }

  // av_clear and CLEAR_ARGARRAY both slide the start back to the allocation.
  function Rewind(l: Layout): (r: Layout)
    requires Shape(l)
    ensures Shape(r)
  {
    l.(off := 0, fill := -1, max := l.max + l.off)
  }

  function Fill(l: Layout, fill: int): (r: Layout)
    requires Shape(l) && fill >= -1
    ensures Shape(r) && r.fill == fill
  {
    if fill <= l.max then l.(fill := fill) else Store(l, fill)
  }

  function Pushes(l: Layout, n: nat): (r: Layout)
    requires Shape(l)
    ensures Shape(r) && r.fill == l.fill + n
  {
    if n == 0 then l else Push(Pushes(l, n - 1))
  }

  function Unshifts(l: Layout, n: nat): (r: Layout)
    requires Shape(l)
    ensures Shape(r) && r.fill == l.fill + n
  {
    if n == 0 then l else Unshift(Unshifts(l, n - 1), 1)
  }

  // The loop stops at the first doubling that is large enough.
  lemma {:induction false} RoundUpPow2(itmp: nat, bytes: nat, scale: nat)
    requires itmp >= MALLOC_OVERHEAD
    requires IsPow2(scale) && scale > 1
    requires itmp * (scale / 2) < bytes + MALLOC_OVERHEAD <= itmp * scale
    ensures RoundUp(itmp, bytes) == itmp * scale
    decreases scale
  {
    var half := scale / 2;
    assert scale == 2 * half && half >= 1;
    assert itmp * half >= itmp by { MulGe(itmp, half); }
    assert (itmp + itmp) * half == itmp * scale by { MulDouble(itmp, half); }
    if half > 1 {
      assert (itmp + itmp) * (half / 2) == itmp * half by { MulDouble(itmp, half / 2); }
      RoundUpPow2(itmp + itmp, bytes, half);
    } else {
      assert itmp * scale == itmp + itmp;
    }
  }

  lemma MulGe(a: nat, b: nat)
    requires b >= 1
    ensures a * b >= a
  {
  }

  lemma MulDouble(a: nat, b: nat)
    ensures (a + a) * b == a * (2 * b)
  {
  }

  // Every block holds a power of two of slots, less the two that malloc's
  // overhead takes.
  lemma BlockSlotsPow2(newmax: nat, p: nat)
    requires IsPow2(p) && p > 2
    requires p / 2 < newmax + 3 <= p
    ensures BlockSlots(newmax) == p - 2
  {
    var scale := p / 2;
    var bytes := (newmax + 1) * SV_PTR_SIZE;
    assert p == 2 * scale;
    assert IsPow2(scale);
    RoundUpPow2(MALLOC_OVERHEAD, bytes, scale);
  }

  // ---- amortised growth: pushing ----

  // From the fifth push on the capacity is 2^m - 2.
  predicate PushState(l: Layout, n: nat) {
    && Shape(l) && l.off == 0 && l.fill == n - 1 && l.max == l.cap - 1
    && l.cap >= 6 && IsPow2(l.cap + 2)
    && l.moved <= l.cap && l.moved <= 2 * n
  }

  // A push that does not fit copies the whole block into a new one.
  lemma PushWhenFull(l: Layout)
    requires Shape(l) && l.off == 0 && l.fill == l.max == l.cap - 1 && l.cap > 0
    ensures var r := Push(l);
      && r.off == 0 && r.fill == l.fill + 1 && r.max == r.cap - 1
      && r.cap == BlockSlots(l.cap + l.max / 5) && r.moved == l.moved + l.cap
  {
  }

  lemma PushWhenRoom(l: Layout)
    requires Shape(l) && l.fill < l.max
    ensures Push(l) == l.(fill := l.fill + 1)
  {
  }

  // A regrowth takes the capacity from C to 2C + 2.
  lemma CapacityDoubles(c: nat)
    requires c >= 6 && IsPow2(c + 2)
    ensures BlockSlots(c + (c - 1) / 5) == 2 * c + 2 && IsPow2(2 * c + 4)
  {
    var p := 2 * (c + 2);
    assert IsPow2(p) by { assert p / 2 == c + 2; }
    BlockSlotsPow2(c + (c - 1) / 5, p);
  }

  lemma PushFits(l: Layout, n: nat)
    requires PushState(l, n) && n < l.cap
    ensures PushState(Push(l), n + 1)
  {
    PushWhenRoom(l);
  }

  lemma PushRegrows(l: Layout, n: nat)
    requires PushState(l, n) && n == l.cap
    ensures PushState(Push(l), n + 1) && Push(l).cap == 2 * l.cap + 2
  {
    PushWhenFull(l);
    CapacityDoubles(n);
    Regrown(l, Push(l), n);
  }

  lemma Regrown(l: Layout, r: Layout, n: nat)
    requires PushState(l, n) && n == l.cap
    requires r.off == 0 && r.fill == n && r.max == r.cap - 1 && r.moved == l.moved + n
    requires r.cap == 2 * n + 2 && IsPow2(2 * n + 4)
    ensures PushState(r, n + 1) && r.cap == 2 * l.cap + 2
  {
    assert r.cap + 2 == 2 * n + 4;
  }

  // The first block has four slots.
  lemma FirstPushes()
    ensures Pushes(EMPTY, 1) == Layout(4, 0, 0, 3, 0)
    ensures Pushes(EMPTY, 2) == Layout(4, 0, 1, 3, 0)
    ensures Pushes(EMPTY, 3) == Layout(4, 0, 2, 3, 0)
    ensures Pushes(EMPTY, 4) == Layout(4, 0, 3, 3, 0)
  {
  }

  // The second has six.
  lemma FifthPush(l: Layout)
    requires Shape(l) && l.off == 0 && l.fill == 3 && l.max == 3 && l.cap == 4 && l.moved <= 2
    ensures PushState(Push(l), 5)
  {
    assert IsPow2(8) && IsPow2(4);
    BlockSlotsPow2(4, 8);
    PushWhenFull(l);
  }

  lemma FivePushes()
    ensures PushState(Pushes(EMPTY, 5), 5)
  {
    FirstPushes();
    FifthPush(Pushes(EMPTY, 4));
  }

  lemma {:induction false} PushesReach(start: Layout, n: nat)
    requires n >= 5 && Shape(start) && PushState(Pushes(start, 5), 5)
    ensures PushState(Pushes(start, n), n)
  {
    if n > 5 {
      PushesReach(start, n - 1);
      var l := Pushes(start, n - 1);
      if n - 1 < l.cap {
        PushFits(l, n - 1);
      } else {
        PushRegrows(l, n - 1);
      }
    }
  }

  // n pushes onto a new array copy at most 2n slots in all.
  lemma PushesAreAmortized(n: nat)
    ensures Pushes(EMPTY, n).moved <= 2 * n
  {
    if n >= 5 {
      FivePushes();
      PushesReach(EMPTY, n);
    } else {
      FirstPushes();
    }
  }

  // ---- amortised growth: unshifting ----

  // After the slow unshift at p elements the body plus its slack fill 2p slots,
  // p a power of two, of a block of 4p - 2.
  predicate UnshiftState(l: Layout, n: nat, p: nat) {
    && Shape(l) && l.fill == n - 1 && l.off + l.max + 1 == l.cap
    && IsPow2(p) && p >= 4
    && n + l.off == 2 * p && p < n
    && l.cap == 4 * p - 2
    && l.moved <= 6 * p
  }

  lemma UnshiftFast(l: Layout, n: nat, p: nat)
    requires UnshiftState(l, n, p) && l.off > 0
    ensures UnshiftState(Unshift(l, 1), n + 1, p)
  {
    assert Unshift(l, 1) == l.(off := l.off - 1, fill := l.fill + 1, max := l.max + 1);
  }

  // No slack left and too small a block: it is copied whole, and then the
  // elements are moved up.
  lemma UnshiftWhenFull(l: Layout)
    requires Shape(l) && l.off == 0 && l.fill > 0 && l.max == l.cap - 1 < 2 * l.fill + 1
    ensures var r := Unshift(l, 1);
      && r.off == l.fill && r.fill == l.fill + 1 && r.off + r.max + 1 == r.cap
      && r.cap == BlockSlots(2 * l.fill + 1 + l.max / 5) && r.moved == l.moved + l.cap + l.fill + 1
  {
  }

  lemma UnshiftCapacity(n: nat, cap: nat)
    requires n >= 4 && IsPow2(n) && cap == if n == 4 then 4 else 2 * n - 2
    ensures BlockSlots(2 * n - 1 + (cap - 1) / 5) == 4 * n - 2
  {
    assert IsPow2(2 * n) && IsPow2(4 * n) by { assert 2 * n / 2 == n && 4 * n / 2 == 2 * n; }
    BlockSlotsPow2(2 * n - 1 + (cap - 1) / 5, 4 * n);
  }

  // A slow unshift leaves as much front slack as the fill was.
  lemma UnshiftSlow(l: Layout, n: nat, p: nat)
    requires UnshiftState(l, n, p) && l.off == 0
    ensures UnshiftState(Unshift(l, 1), n + 1, n)
    ensures Unshift(l, 1).off == l.fill
  {
    assert IsPow2(n) by { assert n / 2 == p; }
    UnshiftWhenFull(l);
    UnshiftCapacity(n, l.cap);
  }

  // The first four unshifts stay within the first block.
  lemma FirstUnshifts()
    ensures Unshifts(EMPTY, 1) == Layout(4, 0, 0, 3, 0)
    ensures Unshifts(EMPTY, 2) == Layout(4, 0, 1, 3, 1)
    ensures Unshifts(EMPTY, 3) == Layout(4, 1, 2, 2, 3)
    ensures Unshifts(EMPTY, 4) == Layout(4, 0, 3, 3, 3)
  {
  }

  lemma FifthUnshift(l: Layout)
    requires Shape(l) && l.off == 0 && l.fill == 3 && l.max == 3 && l.cap == 4 && l.moved <= 3
    ensures UnshiftState(Unshift(l, 1), 5, 4)
  {
    assert IsPow2(4);
    UnshiftWhenFull(l);
    UnshiftCapacity(4, 4);
  }

  lemma FiveUnshifts()
    ensures UnshiftState(Unshifts(EMPTY, 5), 5, 4)
  {
    FirstUnshifts();
    FifthUnshift(Unshifts(EMPTY, 4));
  }

  lemma {:induction false} UnshiftsReach(start: Layout, n: nat) returns (p: nat)
    requires n >= 5 && Shape(start) && UnshiftState(Unshifts(start, 5), 5, 4)
    ensures UnshiftState(Unshifts(start, n), n, p)
  {
    if n == 5 {
      p := 4;
    } else {
      p := UnshiftsReach(start, n - 1);
      var l := Unshifts(start, n - 1);
      if l.off > 0 {
        UnshiftFast(l, n - 1, p);
      } else {
        UnshiftSlow(l, n - 1, p);
        p := n - 1;
      }
    }
  }

  // n one-element unshifts onto a new array move or copy at most 6n slots.
  lemma UnshiftsAreAmortized(n: nat)
    ensures Unshifts(EMPTY, n).moved <= 6 * n
  {
    if n >= 5 {
      FiveUnshifts();
      var p := UnshiftsReach(EMPTY, n);
    } else {
      FirstUnshifts();
    }
  }
}
