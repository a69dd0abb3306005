// The argument array @_ across a subroutine call: cleared in place if it still
// borrows its elements, abandoned for a new one if it came to own them.
module ArgArray {
  import opened Scalars
  import opened AvSpec
  import opened AvBody
  import opened AvRun
  import L = AvLayout

  // CLEAR_ARGARRAY
  method ClearArgArray(av: AV)
    requires av.Valid() && !av.isReal
    modifies av`off, av`fill, av`max, av`elems
    ensures av.Valid() && av.elems == []
    ensures av.Layout() == L.Rewind(old(av.Layout()))
    ensures av.Slots() == old(av.Slots())
  {
    av.max := av.max + av.off;
    av.off := 0;
    av.fill := -1;
    av.elems := [];
  }

  // On two borrowing arrays in the same state, the macro and av_clear leave the
  // same fields when there is room for an element, and no element in any case.
  method ClearsAgree(a: AV, b: AV)
    requires a != b && (a.alloc != b.alloc || a.alloc == null) && a.arena == b.arena
    requires a.Valid() && b.Valid() && !a.readonly
    requires !a.isReal && !b.isReal && a.isReify == b.isReify
    requires a.Layout() == b.Layout() && a.Slots() == b.Slots()
    modifies a, a.alloc, b, a.arena
    ensures a.View() == b.View() && a.elems == []
    ensures a.Slots() == b.Slots()
    ensures a.Layout() == b.Layout() <==> old(a.max) >= 0 || old(a.off) == 0
    ensures a.arena.refs == old(a.arena.refs)
  {
    var c := a.Clear();
    ClearArgArray(b);
  }

  // An array of one element, shifted, has an offset and no room.
  method ClearsDiffer(arena: Arena, x: Sv) returns (a: AV, b: AV)
    modifies arena
    ensures a.Valid() && b.Valid() && a.elems == [] && b.elems == []
    ensures a.Layout() == L.Layout(2, 1, -1, -1, 0) && b.Layout() == L.Layout(2, 0, -1, 0, 0)
  {
    a := new AV.Fake(arena, [x]);
    var r := a.Shift();
    b := new AV.Fake(arena, [x]);
    r := b.Shift();
    var c := a.Clear();
    ClearArgArray(b);
  }

  // The argument array part of POPSUB.  Returns what the context and the pad
  // slot hold afterwards.
  method PopSub(argarray: AV) returns (next: AV)
    requires argarray.Valid() && argarray.refcnt > 0
    modifies argarray, argarray.arena
    ensures next.Valid() && next.arena == argarray.arena
    ensures next.elems == [] && !next.isReal
    ensures !old(argarray.isReal) ==>
      && next == argarray && next.arena.refs == old(argarray.arena.refs)
      && next.Layout() == L.Rewind(old(argarray.Layout())) && next.isReify == old(argarray.isReify)
    ensures old(argarray.isReal) ==>
      && fresh(next) && next.isReify && next.refcnt == 1
      && next.max >= old(argarray.fill)
      && argarray.refcnt == old(argarray.refcnt) - 1
    // a captured @_ survives with its elements; an uncaptured one gives them up
    ensures old(argarray.isReal) && old(argarray.refcnt) > 1 ==>
      argarray.Valid() && argarray.View() == old(argarray.View())
    ensures old(argarray.isReal) && old(argarray.refcnt) == 1 ==>
      next.arena.refs == Minus(old(argarray.arena.refs), old(argarray.elems))
  {
    if argarray.isReal {
      var fill := argarray.fill;
      Release(argarray);
      next := NewArgArray(argarray.arena, fill);
    } else {
      ClearArgArray(argarray);
      next := argarray;
    }
  }

  // SvREFCNT_dec on the array itself; sv_clear undefines it when that was the
  // last reference.
  method Release(av: AV)
    requires av.Valid() && av.isReal && av.refcnt > 0
    modifies av, av.arena
    ensures av.refcnt == old(av.refcnt) - 1
    ensures old(av.refcnt) > 1 ==> av.Valid() && av.View() == old(av.View())
    ensures old(av.refcnt) == 1 ==> av.arena.refs == Minus(old(av.arena.refs), old(av.elems))
  {
    av.refcnt := av.refcnt - 1;
    if av.refcnt == 0 {
      av.Undefine();
    }
  }

  // A new array with room up to fill, borrowing from now on.
  method NewArgArray(arena: Arena, fill: int) returns (next: AV)
    ensures fresh(next) && next.Valid() && next.arena == arena
    ensures next.elems == [] && !next.isReal && next.isReify && next.refcnt == 1
    ensures next.max >= fill
  {
    next := new AV.New(arena);
    next.Extend(fill);
    next.isReal := false;
    next.isReify := true;
  }

  // A call that never modifies @_, or only gets it promoted, leaves every count
  // as it was.
  method CallLeavesCounts(arena: Arena, args: seq<Sv>, promoted: bool) returns (next: AV)
    modifies arena
    ensures next.Valid() && next.elems == [] && !next.isReal && next.isReify
    ensures arena.refs == old(arena.refs)
  {
    var av := new AV.Fake(arena, args);
    if promoted {
      av.Reify();
      PlusMinus(old(arena.refs), args);
    }
    next := PopSub(av);
  }

  lemma PlusMinus(c: Counts, s: seq<Sv>)
    ensures Minus(Plus(c, s), s) == c
  {
    PartOfSum(c.of, Owned(s));
  }

  // A call that does anything to @_.  Until an operation promotes it, operation p,
  // the array takes part in no counting; from there on what the call took out it
  // holds and what it put in it has given away.  The array itself keeps nothing.
  method CallWith(arena: Arena, args: seq<Sv>, ops: seq<Op>) returns (next: AV, ghost p: nat)
    requires EnabledFor(false, args, arena.refs.of, ops)
    modifies arena
    ensures next.Valid() && next.elems == [] && !next.isReal && next.isReify
    ensures p <= |ops| && MayLast(args, ops, p)
    ensures arena.refs.of == HeldRun(args, old(arena.refs.of), ops, p, |ops|)
  {
    ghost var held := arena.refs.of;
    var av := new AV.Fake(arena, args);
    p := Run(av, ops, held);
    ghost var left := HeldRun(args, held, ops, p, |ops|);
    PartOfSum(left, Owned(av.elems));
    assert av.isReal ==> Minus(arena.refs, av.elems) == Counts(left);
    next := PopSub(av);
  }
}
