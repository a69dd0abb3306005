// The array body (AV).  An allocation, a start that moves through it, a fill and
// a max; three ownership states.  REAL arrays own their elements; REIFY arrays
// borrow them and become REAL when modified; with neither flag the body is a raw
// stack.
module AvBody {
  import opened Common
  import opened Scalars
  import opened AvSpec
  import opened AvLayout

  datatype StoreResult = Stored(slot: nat) | NotStored | Croaked

  // memmove of n slots within one body, or from an old body to a new one.
  method Move(src: array<Sv>, s: nat, dst: array<Sv>, d: nat, n: nat)
    requires s + n <= src.Length && d + n <= dst.Length
    modifies dst
    ensures forall k {:trigger dst[k]} :: d <= k < d + n ==> dst[k] == old(src[s + k - d])
    ensures forall k {:trigger dst[k]} :: 0 <= k < d || d + n <= k < dst.Length ==> dst[k] == old(dst[k])
  {
    forall k | 0 <= k < n {
      dst[d + k] := src[s + k];
    }
  }

  // while (tmp) ary[--tmp] = &PL_sv_undef, with ary at slot lo.
  method UndefSlots(a: array<Sv>, lo: nat, n: nat)
    requires lo + n <= a.Length
    modifies a
    ensures forall k :: 0 <= k < a.Length ==>
      a[k] == if lo <= k < lo + n then Undef else old(a[k])
  {
    var tmp := n;
    while tmp > 0
      invariant 0 <= tmp <= n
      invariant forall k :: 0 <= k < a.Length ==>
        a[k] == if lo + tmp <= k < lo + n then Undef else old(a[k])
    {
      tmp := tmp - 1;
      a[lo + tmp] := Undef;
    }
  }

  method CopyOne(arena: Arena, src: Sv) returns (sv: Sv)
    modifies arena
    ensures sv.Ref? && sv !in old(arena.refs).of
    ensures arena.refs == Inc(old(arena.refs), sv)
    ensures src != sv ==> ValueOf(arena.value, sv) == ValueOf(old(arena.value), src)
    ensures forall x :: x != sv ==> ValueOf(arena.value, x) == ValueOf(old(arena.value), x)
  {
    sv := arena.NewSv();
    arena.SetSv(sv, src);
  }

  // The loop of av_make: a fresh scalar for each original, with its value.
  method CopyScalars(arena: Arena, strp: seq<Sv>, ary: array<Sv>) returns (ghost made: seq<Sv>)
    requires ary.Length == |strp|
    requires forall e :: e in strp ==> e == Undef || e in arena.refs.of
    modifies arena, ary
    ensures |made| == |strp| && forall j {:trigger ary[j]} :: 0 <= j < |made| ==> ary[j] == made[j]
    ensures Fresh(old(arena.refs), made)
    ensures Copies(old(arena.value), strp, arena.value, made)
    ensures Kept(old(arena.refs), old(arena.value), arena.value)
    ensures arena.refs == Plus(old(arena.refs), made)
  {
    ghost var held, was := arena.refs, arena.value;
    made := [];
    PlusNone(held);
    var i := 0;
    while i < |strp|
      invariant 0 <= i <= |strp| && |made| == i
      invariant forall j {:trigger ary[j]} :: 0 <= j < i ==> ary[j] == made[j]
      invariant Fresh(held, made) && Copies(was, strp, arena.value, made)
      invariant Kept(held, was, arena.value)
      invariant arena.refs == Plus(held, made)
      modifies arena, ary
    {
      var sv := CopyOne(arena, strp[i]);
      ary[i] := sv;
      NewIsFresh(held, made, sv);
      PlusOne(held, made, sv);
      made := made + [sv];
      i := i + 1;
    }
  }

  // The body of av_make's array: none at all for no elements.
  method MakeBody(arena: Arena, strp: seq<Sv>) returns (ary: array?<Sv>, ghost made: seq<Sv>)
    requires forall e :: e in strp ==> e == Undef || e in arena.refs.of
    modifies arena
    ensures |made| == |strp|
    ensures if strp == [] then ary == null else ary != null && fresh(ary) && ary.Length == |strp|
    ensures ary != null ==> forall j {:trigger ary[j]} :: 0 <= j < |made| ==> ary[j] == made[j]
    ensures Fresh(old(arena.refs), made) && Copies(old(arena.value), strp, arena.value, made)
    ensures Kept(old(arena.refs), old(arena.value), arena.value)
    ensures arena.refs == Plus(old(arena.refs), made)
  {
    if strp == [] {
      PlusNone(arena.refs);
      return null, [];
    }
    var body := new Sv[|strp|];
    made := CopyScalars(arena, strp, body);
    ary := body;
  }

  // None of these scalars had a reference before, and no two are the same.
  ghost predicate Fresh(held: Counts, s: seq<Sv>) {
    && (forall i :: 0 <= i < |s| ==> s[i].Ref? && s[i] !in held.of)
    && (forall i, j :: 0 <= i < j < |s| ==> s[i] != s[j])
  }

  // to holds, now, the values that as many of from held.
  ghost predicate Copies(was: map<Sv, int>, from: seq<Sv>, now: map<Sv, int>, to: seq<Sv>) {
    |to| <= |from| && forall i :: 0 <= i < |to| ==> ValueOf(now, to[i]) == ValueOf(was, from[i])
  }

  // Every scalar that was in use keeps its value.
  ghost predicate Kept(held: Counts, was: map<Sv, int>, now: map<Sv, int>) {
    forall x :: x == Undef || x in held.of ==> ValueOf(now, x) == ValueOf(was, x)
  }

  lemma NewIsFresh(held: Counts, made: seq<Sv>, sv: Sv)
    requires Fresh(held, made) && sv.Ref? && sv !in Plus(held, made).of
    ensures Fresh(held, made + [sv])
  {
    forall i | 0 <= i < |made| ensures made[i] != sv {
      if made[i] == sv {
        Occurs(made, |made|, i);
        OwnedOccurrences(made, |made|, sv);
      }
    }
  }

  class AV {
    const arena: Arena
    var alloc: array?<Sv>   // AvALLOC
    var off: nat            // AvARRAY - AvALLOC
    var fill: int           // AvFILLp
    var max: int            // AvMAX
    var isReal: bool        // AVf_REAL
    var isReify: bool       // AVf_REIFY
    var readonly: bool      // SvREADONLY
    var refcnt: nat         // SvREFCNT of the array itself
    ghost var elems: seq<Sv>   // AvARRAY[0..AvFILLp]
    ghost var moved: nat       // slots touched by Move and Copy so far

    ghost function Layout(): Layout
      reads this
    {
      AvLayout.Layout(if alloc == null then 0 else alloc.Length, off, fill, max, moved)
    }

    ghost function View(): View
      reads this, arena
    {
      AvSpec.View(elems, isReal, isReify, arena.refs)
    }

    ghost predicate WellShaped()
      reads this, alloc
    {
      && Shape(Layout())
      && (alloc != null ==> alloc.Length > 0)
      && |elems| == fill + 1
      && (alloc != null ==> forall j {:trigger alloc[j]} :: off <= j <= off + fill ==> alloc[j] == elems[j - off])
    }

    // Slots from AvALLOC to AvARRAY + AvMAX that hold no element.
    ghost predicate SlackIsUndef()
      requires WellShaped()
      reads this, alloc
    {
      alloc != null ==>
        forall j :: 0 <= j <= off + max && !(off <= j <= off + fill) ==> alloc[j] == Undef
    }

    // The invariant that makes gap stores and slack reuse right without
    // writing; it binds REAL arrays only.
    ghost predicate Tidy()
      reads this, alloc
    {
      WellShaped() && (isReal ==> SlackIsUndef())
    }

    ghost predicate Valid()
      reads this, alloc, arena
    {
      Tidy() && Sound(View())
    }

    ghost function Slots(): seq<Sv>
      reads this, alloc
    {
      if alloc == null then [] else alloc[..]
    }

    // What only the owner of the array changes.
    twostate predicate SameOwner()
      reads this
    {
      readonly == old(readonly) && refcnt == old(refcnt)
    }

    // Nothing about the array itself has changed.
    twostate predicate Untouched()
      reads this, alloc
    {
      alloc == old(alloc) && Slots() == old(Slots()) && Layout() == old(Layout())
      && elems == old(elems) && isReal == old(isReal) && isReify == old(isReify)
    }

    // AvARRAY(av)[k]
    function Slot(k: nat): (sv: Sv)
      requires WellShaped() && k <= fill
      reads this, alloc
      ensures sv == elems[k]
    {
      assert alloc[off + k] == elems[k];
      alloc[off + k]
    }

    // newAV
    constructor New(arena: Arena)
      ensures Valid() && this.arena == arena
      ensures isReal && !isReify && !readonly && refcnt == 1
      ensures alloc == null && Layout() == EMPTY && elems == []
    {
      this.arena := arena;
      alloc, off, fill, max := null, 0, -1, -1;
      isReal, isReify, readonly, refcnt := true, false, false, 1;
      elems, moved := [], 0;
    }

    // av_fake: borrows the elements, with one spare slot.
    constructor Fake(arena: Arena, strp: seq<Sv>)
      ensures Valid() && this.arena == arena && fresh(alloc)
      ensures !isReal && isReify && !readonly && refcnt == 1
      ensures Layout() == AvLayout.Layout(|strp| + 1, 0, |strp| - 1, |strp| - 1, 0)
      ensures elems == strp
    {
      this.arena := arena;
      var ary := new Sv[|strp| + 1];
      forall k | 0 <= k < |strp| {
        ary[k] := strp[k];
      }
      alloc, off, fill, max := ary, 0, |strp| - 1, |strp| - 1;
      isReal, isReify, readonly, refcnt := false, true, false, 1;
      elems, moved := strp, 0;
    }

    // av_make: owns copies of the scalars it is given.
    constructor Make(arena: Arena, strp: seq<Sv>)
      requires forall e :: e in strp ==> e == Undef || e in arena.refs.of
      modifies arena
      ensures Valid() && this.arena == arena && (alloc == null || fresh(alloc))
      ensures isReal && !isReify && !readonly && refcnt == 1
      ensures Layout() == AvLayout.Layout(|strp|, 0, |strp| - 1, |strp| - 1, 0)
      ensures Fresh(old(arena.refs), elems) && Copies(old(arena.value), strp, arena.value, elems)
      ensures Kept(old(arena.refs), old(arena.value), arena.value)
      ensures arena.refs == Plus(old(arena.refs), elems)
    {
      var ary; ghost var made;
      ary, made := MakeBody(arena, strp);
      PartOfSum(old(arena.refs).of, Owned(made));
      this.arena := arena;
      alloc, off, fill, max := ary, 0, |strp| - 1, |strp| - 1;
      isReal, isReify, readonly, refcnt := true, false, false, 1;
      elems, moved := made, 0;
    }

    // The resize: path of av_extend.  The body starts at the allocation.
    method Resize(request: nat)
      requires Tidy() && alloc != null && off == 0 && request >= max
      modifies this`alloc, this`max, this`moved
      ensures fresh(alloc) && Tidy()
      ensures Layout() == Regrow(old(Layout()), request) && max >= request
    {
      var bytes := (request + 1) * SV_PTR_SIZE;
      var itmp := MALLOC_OVERHEAD;
      while itmp - MALLOC_OVERHEAD < bytes
        invariant itmp >= MALLOC_OVERHEAD
        invariant RoundUp(itmp, bytes) == RoundUp(MALLOC_OVERHEAD, bytes)
        decreases bytes + MALLOC_OVERHEAD - itmp
      {
        itmp := itmp + itmp;
      }
      itmp := itmp - MALLOC_OVERHEAD;
      itmp := itmp / SV_PTR_SIZE;
      assert itmp == BlockSlots(request);
      CopyOut(itmp - 1);
    }

    // The copy into a new block, which then replaces the old one.
    method CopyOut(newmax: nat)
      requires Tidy() && alloc != null && off == 0 && newmax >= max
      modifies this`alloc, this`max, this`moved
      ensures fresh(alloc) && Tidy()
      ensures Layout() == old(Layout()).(cap := newmax + 1, max := newmax, moved := old(moved) + old(max) + 1)
    {
      var ary := new Sv[newmax + 1];
      Move(alloc, 0, ary, 0, max + 1);
      moved := moved + max + 1;
      if isReal {
        UndefSlots(ary, max + 1, newmax - max);
      }
      alloc := ary;
      max := newmax;
    }

    // The first half of av_extend: slide the body back to the allocation.
    method SlideDown()
      requires Tidy() && off != 0
      modifies this`off, this`max, this`moved, alloc
      ensures Tidy()
      ensures Layout() == old(Layout()).(off := 0, max := old(max) + old(off), moved := old(moved) + fill + 1)
    {
      var tmp := off;
      SlideBody();
      if isReal {
        // the stale copies all lie in the tmp slots after the body
        UndefSlots(alloc, fill + 1, tmp);
      }
    }

    method SlideBody()
      requires WellShaped() && off != 0
      modifies this`off, this`max, this`moved, alloc
      ensures WellShaped()
      ensures Layout() == old(Layout()).(off := 0, max := old(max) + old(off), moved := old(moved) + fill + 1)
      ensures forall j :: fill < j < alloc.Length ==> alloc[j] == old(alloc[j])
    {
      Move(alloc, off, alloc, 0, fill + 1);
      moved := moved + fill + 1;
      max := max + off;
      off := 0;
    }

    // The branch of av_extend that starts from no allocation at all.
    method FirstBlock(newmax: nat)
      requires Tidy() && alloc == null
      modifies this`alloc, this`max
      ensures fresh(alloc) && Tidy()
      ensures Layout() == old(Layout()).(cap := newmax + 1, max := newmax)
    {
      alloc := new Sv[newmax + 1];
      alloc[0] := Undef;
      if isReal {
        UndefSlots(alloc, 1, newmax);
      }
      max := newmax;
    }

    // av_extend
    method Extend(key: int)
      requires Tidy()
      modifies this`alloc, this`off, this`max, this`moved, alloc
      ensures SameOwner()
      ensures Tidy()
      ensures alloc == old(alloc) || fresh(alloc)
      ensures Layout() == AvLayout.Extend(old(Layout()), key)
      ensures key <= old(max) ==> Untouched()
    {
      if key > max {
        if off != 0 {
          SlideDown();
          ghost var slid := Layout();
          if key > max - 10 {
            var newmax := key + max;
            Resize(newmax);
            assert Layout() == Regrow(slid, newmax);
          }
        } else if alloc != null {
          ghost var flat := Layout();
          var newmax := key + (if max < 0 then 0 else max / 5);
          Resize(newmax);
          assert Layout() == Regrow(flat, newmax);
        } else {
          FirstBlock(if key < 3 then 3 else key);
        }
      }
    }

    // The loops of av_reify that turn unused slots into placeholders.
    method UndefTail()
      requires WellShaped() && alloc != null
      modifies alloc
      ensures WellShaped()
      ensures forall j :: off + fill < j <= off + max ==> alloc[j] == Undef
    {
      var key := max + 1;
      while key > fill + 1
        invariant WellShaped() && fill + 1 <= key <= max + 1
        invariant forall j :: off + key <= j <= off + max ==> alloc[j] == Undef
      {
        key := key - 1;
        alloc[off + key] := Undef;
      }
    }

    method UndefFront()
      requires WellShaped() && alloc != null
      requires forall j :: off + fill < j <= off + max ==> alloc[j] == Undef
      modifies alloc
      ensures WellShaped() && SlackIsUndef()
    {
      var key := off;
      while key > 0
        invariant WellShaped() && 0 <= key <= off
        invariant forall j :: key <= j < off ==> alloc[j] == Undef
        invariant forall j :: off + fill < j <= off + max ==> alloc[j] == Undef
      {
        key := key - 1;
        alloc[key] := Undef;
      }
    }

    // The loop that adds one reference to each element.
    method CountElements()
      requires WellShaped()
      modifies arena`refs
      ensures arena.refs == Plus(old(arena.refs), elems)
    {
      var key := fill + 1;
      ghost var held := arena.refs;
      while key > 0
        invariant 0 <= key <= fill + 1
        invariant arena.refs == Taken(held, elems, key)
        modifies arena`refs
      {
        key := key - 1;
        var sv := Slot(key);
        assert Taken(held, elems, key) == Inc(arena.refs, sv);
        arena.Increment(sv);
      }
      AllElements(held, elems);
    }

    // av_reify: start owning what was borrowed.
    method Reify()
      requires Valid()
      modifies this`isReal, this`isReify, alloc, arena`refs
      ensures Valid()
      ensures View() == Reified(old(View())) && isReal && elems == old(elems)
      ensures old(isReal) ==> Untouched()
      ensures Layout() == old(Layout())
    {
      if isReal {
        return;
      }
      ReifiedSound(View());
      if alloc != null {
        UndefTail();
        UndefFront();
      }
      CountElements();
      isReify := false;
      isReal := true;
    }

    // AvARRAY(av)[k] = val, for an element that is there.
    method Put(k: nat, val: Sv)
      requires Tidy() && k <= fill
      modifies this`elems, alloc
      ensures Tidy()
      ensures elems == old(elems)[k := val]
    {
      alloc[off + k] := val;
      elems := elems[k := val];
    }

    // The gap between the old fill and a new, larger one: REAL arrays rely on
    // the placeholders already there, the others write them.
    method GrowTo(k: nat)
      requires Tidy() && fill < k <= max
      modifies this`fill, this`elems, alloc
      ensures Tidy() && fill == k
      ensures elems == Padded(old(elems), k + 1)
    {
      ghost var was := fill;
      elems := Padded(elems, k + 1);
      if !isReal {
        while fill < k
          invariant was <= fill <= k
          invariant forall j {:trigger alloc[j]} :: off <= j <= off + fill ==> alloc[j] == elems[j - off]
          modifies this`fill, alloc
        {
          fill := fill + 1;
          alloc[off + fill] := Undef;
        }
      }
      fill := k;
    }

    // The part of av_store before the slot is written: own the elements, and
    // have room for subscript k.
    method MakeReady(k: nat)
      requires Valid()
      modifies this`alloc, this`off, this`max, this`moved, this`isReal, this`isReify
      modifies alloc, arena`refs
      ensures Valid() && k <= max
      ensures alloc == old(alloc) || fresh(alloc)
      ensures View() == Promoted(old(View()))
      ensures Layout() == if k > old(max) then AvLayout.Extend(old(Layout()), k) else old(Layout())
    {
      if !isReal && isReify {
        Reify();
      }
      if k > max {
        Extend(k);
      }
    }

    // The part that writes it.
    method WriteSlot(k: nat, val: Sv)
      requires Tidy() && val != Null && k <= max
      modifies this`fill, this`elems, alloc, arena`refs
      ensures Tidy()
      ensures elems == StoreAt(old(elems), k, val)
      ensures arena.refs == if isReal && k <= old(fill)
        then Dec(old(arena.refs), old(elems)[k]) else old(arena.refs)
      ensures Layout() == old(Layout()).(fill := if old(fill) < k then k else old(fill))
    {
      if fill < k {
        AppendSlot(k, val);
      } else {
        ReplaceSlot(k, val);
      }
    }

    method AppendSlot(k: nat, val: Sv)
      requires Tidy() && val != Null && fill < k <= max
      modifies this`fill, this`elems, alloc
      ensures Tidy() && fill == k
      ensures elems == StoreAt(old(elems), k, val)
    {
      GrowTo(k);
      Put(k, val);
    }

    method ReplaceSlot(k: nat, val: Sv)
      requires Tidy() && val != Null && k <= fill
      modifies this`elems, alloc, arena`refs
      ensures Tidy()
      ensures elems == StoreAt(old(elems), k, val)
      ensures arena.refs == if isReal then Dec(old(arena.refs), old(elems)[k]) else old(arena.refs)
    {
      if isReal {
        arena.Decrement(Slot(k));
      }
      Put(k, val);
    }

    // What av_store does once the subscript is known to be good.
    method StoreInRange(k: nat, val: Sv)
      requires Valid() && val != Null && MayStore(View(), val)
      modifies this`alloc, this`off, this`fill, this`max, this`moved, this`isReal, this`isReify, this`elems
      modifies alloc, arena`refs
      ensures SameOwner()
      ensures Valid()
      ensures alloc == old(alloc) || fresh(alloc)
      ensures View() == AvSpec.Stored(old(View()), k, val)
      ensures Layout() == AvLayout.Store(old(Layout()), k)
    {
      StoredSound(View(), k, val);
      MakeReady(k);
      WriteSlot(k, val);
    }

    // av_store.  The caller hands over one reference to val, and keeps it when
    // nothing is stored.
    method Store(key: int, value: Sv) returns (r: StoreResult)
      requires Valid() && MayStore(View(), value)
      modifies this`alloc, this`off, this`fill, this`max, this`moved, this`isReal, this`isReify, this`elems
      modifies alloc, arena`refs
      ensures SameOwner()
      ensures Valid()
      ensures alloc == old(alloc) || fresh(alloc)
      ensures var k := Index(|old(elems)|, key);
        r == if k < 0 then NotStored else if readonly && k >= old(fill) then Croaked else Stored(k)
      ensures !r.Stored? ==> Untouched() && arena.refs == old(arena.refs)
      ensures View() == if r.Stored? then AvSpec.Stored(old(View()), r.slot, value) else old(View())
      ensures r.Stored? ==> Layout() == AvLayout.Store(old(Layout()), r.slot)
      ensures r.Stored? ==>
        && r.slot == (if key < 0 then |old(elems)| + key else key)
        && |elems| == (if r.slot < |old(elems)| then |old(elems)| else r.slot + 1)
        && elems[r.slot] == (if value == Null then Undef else value)
        && KeptBut(old(elems), elems, r.slot)
    {
      var val := if value == Null then Undef else value;
      var k := if key < 0 then key + fill + 1 else key;
      if k < 0 {
        return NotStored;
      }
      if readonly && k >= fill {
        return Croaked;
      }
      StoredElements(View(), k, value);
      StoreInRange(k, val);
      return Stored(k);
    }

    // av_push
    method Push(val: Sv) returns (croaked: bool)
      requires Valid() && MayStore(View(), val)
      modifies this`alloc, this`off, this`fill, this`max, this`moved, this`isReal, this`isReify, this`elems
      modifies alloc, arena`refs
      ensures SameOwner()
      ensures Valid()
      ensures alloc == old(alloc) || fresh(alloc)
      ensures croaked == readonly
      ensures croaked ==> Untouched() && arena.refs == old(arena.refs)
      ensures !croaked ==> View() == AvSpec.Stored(old(View()), |old(elems)|, val)
      ensures !croaked ==> Layout() == AvLayout.Push(old(Layout()))
      ensures !croaked ==> elems == old(elems) + [if val == Null then Undef else val]
    {
      if readonly {
        return true;
      }
      var r := Store(fill + 1, val);
      return false;
    }

    // Forget the elements from n on; a REAL array has wiped them.
    method Shrink(n: nat)
      requires Tidy() && n <= fill + 1
      requires isReal ==> forall j :: n <= j <= fill ==> elems[j] == Undef
      modifies this`fill, this`elems
      ensures Tidy() && fill == n - 1
      ensures elems == old(elems)[..n]
    {
      fill := n - 1;
      elems := elems[..n];
    }

    // av_pop: hands the element to the caller, and from a REAL array the reference
    // to it as well.
    method Pop() returns (r: Result<Sv>)
      requires Valid()
      modifies this`fill, this`elems, alloc
      ensures SameOwner()
      ensures Valid()
      ensures r == if readonly then Croak else if old(fill) < 0 then Ok(Undef) else Ok(old(elems)[old(fill)])
      ensures readonly || old(fill) < 0 ==> Untouched()
      ensures !readonly && old(fill) >= 0 ==>
        View() == Popped(old(View())) && Layout() == old(Layout()).(fill := old(fill) - 1)
      ensures !readonly && old(elems) != [] ==> elems + [r.value] == old(elems)
    {
      if readonly {
        return Croak;
      }
      if fill < 0 {
        return Ok(Undef);
      }
      ShorterSound(View());
      var retval := Slot(fill);
      Put(fill, Undef);
      Shrink(fill);
      return Ok(retval);
    }

    // SvPVX += n, with the fill and the max adjusted.
    method Advance(n: nat)
      requires Tidy() && n <= fill + 1
      requires isReal ==> elems[..n] == Undefs(n)
      modifies this`off, this`fill, this`max, this`elems
      ensures Tidy()
      ensures elems == old(elems)[n..]
      ensures Layout() == old(Layout()).(off := old(off) + n, fill := old(fill) - n, max := old(max) - n)
    {
      assert isReal ==> forall j :: 0 <= j < n ==> elems[j] == elems[..n][j];
      off := off + n;
      max := max - n;
      fill := fill - n;
      elems := elems[n..];
    }

    // av_shift: only REAL arrays wipe the slot they leave behind.
    method Shift() returns (r: Result<Sv>)
      requires Valid()
      modifies this`off, this`fill, this`max, this`elems, alloc
      ensures SameOwner()
      ensures Valid()
      ensures r == if readonly then Croak else if old(fill) < 0 then Ok(Undef) else Ok(old(elems)[0])
      ensures readonly || old(fill) < 0 ==> Untouched()
      ensures !readonly && old(fill) >= 0 ==>
        View() == Shifted(old(View())) && Layout() == AvLayout.Shift(old(Layout()))
      ensures !readonly && old(elems) != [] ==>
        |elems| == |old(elems)| - 1 && forall j :: 0 <= j < |elems| ==> elems[j] == old(elems)[j + 1]
    {
      if readonly {
        return Croak;
      }
      if fill < 0 {
        return Ok(Undef);
      }
      ShorterSound(View());
      var retval := Slot(0);
      LeaveFirst();
      return Ok(retval);
    }

    method LeaveFirst()
      requires Tidy() && fill >= 0
      modifies this`off, this`fill, this`max, this`elems, alloc
      ensures Tidy() && elems == Rest(old(elems)) && Layout() == AvLayout.Shift(old(Layout()))
    {
      ghost var was := elems;
      if isReal {
        Put(0, Undef);
      }
      RestOfUpdate(was, elems);
      Advance(1);
    }

    // The i slots in front of the first element hold s.
    ghost predicate InFront(i: nat, s: seq<Sv>)
      requires WellShaped() && i <= off
      reads this, alloc
    {
      |s| == i && (alloc != null ==> forall j {:trigger alloc[j]} :: off - i <= j < off ==> alloc[j] == s[j - off + i])
    }

    // The half of av_unshift that moves the start back over front slack,
    // without writing to it.
    method ReuseSlack(i: nat, ghost exposed: seq<Sv>)
      requires Tidy() && i <= off && InFront(i, exposed)
      modifies this`off, this`fill, this`max, this`elems
      ensures Tidy()
      ensures Layout() == Reuse(old(Layout()), i)
      ensures elems == exposed + old(elems)
    {
      max := max + i;
      fill := fill + i;
      off := off - i;
      elems := exposed + elems;
    }

    // Move the body up by n slots; the fill already counts the new ones.
    method RaiseBody(n: nat)
      requires Tidy() && off == 0 && fill + n <= max && alloc != null
      modifies this`fill, this`moved, alloc
      ensures fill == old(fill) + n && moved == old(moved) + old(fill) + 1
      ensures forall j {:trigger alloc[j]} :: n <= j <= fill ==> alloc[j] == elems[j - n]
      ensures isReal ==> forall j :: fill < j <= max ==> alloc[j] == Undef
    {
      var i := fill;
      fill := fill + n;
      Move(alloc, 0, alloc, n, i + 1);
      moved := moved + i + 1;
    }

    // Slide the body up by n slots and write placeholders under it.
    method SlideUp(n: nat)
      requires Tidy() && off == 0 && fill + n <= max && alloc != null
      modifies this`fill, this`moved, this`elems, alloc
      ensures Tidy()
      ensures elems == Undefs(n) + old(elems)
      ensures Layout() == old(Layout()).(fill := old(fill) + n, moved := old(moved) + old(fill) + 1)
    {
      RaiseBody(n);
      UndefSlots(alloc, 0, n);
      elems := Undefs(n) + elems;
    }

    // Extend, then slide up by n.
    method OpenGap(n: nat)
      requires Tidy() && off == 0 && n > 0
      modifies this`alloc, this`off, this`fill, this`max, this`moved, this`elems, alloc
      ensures Tidy() && off == 0
      ensures alloc == old(alloc) || fresh(alloc)
      ensures elems == Undefs(n) + old(elems)
      ensures var e := AvLayout.Extend(old(Layout()), old(fill) + n);
        Layout() == e.(fill := e.fill + n, moved := e.moved + old(fill) + 1)
    {
      Extend(fill + n);
      assert off == 0;
      SlideUp(n);
    }

    // The half that makes room, and as much slack again as there were elements.
    method Widen(num: nat)
      requires Tidy() && off == 0 && num > 0
      modifies this`alloc, this`off, this`fill, this`max, this`moved, this`elems, alloc
      ensures Tidy()
      ensures alloc == old(alloc) || fresh(alloc)
      ensures elems == Undefs(num) + old(elems)
      ensures Layout() == AvLayout.MakeRoom(old(Layout()), num)
    {
      var slide := if fill > 0 then fill else 0;
      UndefsSplit(num + slide, slide, elems);
      OpenGap(num + slide);
      Advance(slide);
    }

    method MakeRoom(num: nat)
      requires Valid() && !isReify && off == 0 && num > 0
      modifies this`alloc, this`off, this`fill, this`max, this`moved, this`elems, alloc
      ensures Valid()
      ensures alloc == old(alloc) || fresh(alloc)
      ensures View() == Unshifted(old(View()), num, [])
      ensures Layout() == AvLayout.MakeRoom(old(Layout()), num)
    {
      UnshiftedSound(View(), num, []);
      UnshiftUndefs(View(), num);
      Widen(num);
    }

    // What front slack becomes when i of it turns into elements: placeholders
    // if the array is or gets counted, whatever is there in a raw stack.
    ghost function Exposed(i: nat): seq<Sv>
      requires i <= off && WellShaped()
      reads this, alloc
    {
      if isReal || isReify || alloc == null then Undefs(i) else alloc[off - i..off]
    }

    lemma ExposedIsInFront(i: nat)
      requires Tidy() && i <= off
      ensures |Exposed(i)| == i && (isReify || InFront(i, Exposed(i)))
    {
    }

    // The reuse of front slack in av_unshift, for an array that is not borrowing.
    method ReuseOwned(i: nat, ghost exposed: seq<Sv>)
      requires Valid() && !isReify && i <= off && InFront(i, exposed)
      requires isReal ==> exposed == Undefs(i)
      modifies this`off, this`fill, this`max, this`elems
      ensures Valid()
      ensures View() == Unshifted(old(View()), i, exposed)
      ensures Layout() == Reuse(old(Layout()), i)
    {
      UnshiftedSound(View(), i, exposed);
      UnshiftExposed(View(), exposed);
      ReuseSlack(i, exposed);
    }

    // The rest of av_unshift, once a borrowing array has been promoted.
    method UnshiftOwned(num: nat, ghost exposed: seq<Sv>)
      requires Valid() && !isReify && num > 0
      requires InFront(if off > num then num else off, exposed)
      requires isReal ==> exposed == Undefs(|exposed|)
      modifies this`alloc, this`off, this`fill, this`max, this`moved, this`elems, alloc
      ensures Valid()
      ensures alloc == old(alloc) || fresh(alloc)
      ensures View() == Unshifted(old(View()), num, exposed)
      ensures Layout() == AvLayout.Unshift(old(Layout()), num)
    {
      var i := if off > num then num else off;
      ghost var v := View();
      ReuseOwned(i, exposed);
      if num > i {
        UnshiftTwice(v, exposed, num);
        MakeRoom(num - i);
      }
    }

    method UnshiftSome(num: nat)
      requires Valid() && num > 0
      modifies this`alloc, this`off, this`fill, this`max, this`moved, this`isReal, this`isReify, this`elems
      modifies alloc, arena`refs
      ensures Valid()
      ensures alloc == old(alloc) || fresh(alloc)
      ensures View() == Unshifted(old(View()), num, old(Exposed(if off > num then num else off)))
      ensures Layout() == AvLayout.Unshift(old(Layout()), num)
    {
      ghost var i := if off > num then num else off;
      ghost var exposed := Exposed(i);
      ExposedIsInFront(i);
      if !isReal && isReify {
        Reify();
      }
      UnshiftOwned(num, exposed);
    }

    // av_unshift
    method Unshift(num: int) returns (croaked: bool)
      requires Valid()
      modifies this`alloc, this`off, this`fill, this`max, this`moved, this`isReal, this`isReify, this`elems
      modifies alloc, arena`refs
      ensures SameOwner()
      ensures Valid()
      ensures alloc == old(alloc) || fresh(alloc)
      ensures croaked == readonly
      ensures croaked || num <= 0 ==> Untouched() && arena.refs == old(arena.refs)
      ensures !croaked && num > 0 ==>
        && View() == Unshifted(old(View()), num, old(Exposed(if off > num then num else off)))
        && Layout() == AvLayout.Unshift(old(Layout()), num)
      ensures !croaked && num > 0 ==>
        && |elems| == num + |old(elems)|
        && (forall j :: 0 <= j < |old(elems)| ==> elems[num + j] == old(elems)[j])
        && (old(isReal || isReify) ==> forall j :: 0 <= j < num ==> elems[j] == Undef)
    {
      if readonly {
        return true;
      }
      if num <= 0 {
        return false;
      }
      UnshiftedElements(View(), num, Exposed(if off > num then num else off));
      UnshiftSome(num);
      return false;
    }

    // The loops below have got down to lo: the elements from there on are
    // placeholders, and their references are gone.
    ghost predicate WipedTo(was: seq<Sv>, held: Counts, lo: nat)
      reads this, arena
    {
      lo <= |was| && elems == Wiped(was, lo) && arena.refs == Dropped(held, was, lo)
    }

    lemma NothingWiped()
      ensures WipedTo(elems, arena.refs, |elems|)
    {
      WipedNone(elems);
    }

    // SvREFCNT_dec(ary[key]) with the slot wiped, when everything after key has
    // been dealt with.
    method WipeStep(key: nat, ghost was: seq<Sv>, ghost held: Counts)
      requires Tidy() && key <= fill && |was| == fill + 1
      requires WipedTo(was, held, key + 1)
      modifies this`elems, alloc, arena`refs
      ensures Tidy() && WipedTo(was, held, key)
    {
      WipeOne(was, key);
      var sv := Slot(key);
      assert sv == was[key];
      assert Dropped(held, was, key) == Dec(arena.refs, sv);
      Put(key, Undef);
      arena.Decrement(sv);
    }

    // The loops of av_clear and av_fill: drop the elements from lo to the fill,
    // last one first.
    method WipeFrom(lo: nat)
      requires Tidy() && lo <= fill + 1
      modifies this`elems, alloc, arena`refs
      ensures Tidy() && WipedTo(old(elems), old(arena.refs), lo)
    {
      ghost var was := elems;
      ghost var held := arena.refs;
      var key := fill + 1;
      NothingWiped();
      while key > lo
        invariant Tidy() && lo <= key <= fill + 1 && |was| == fill + 1
        invariant WipedTo(was, held, key)
        modifies this`elems, alloc, arena`refs
      {
        key := key - 1;
        WipeStep(key, was, held);
      }
    }

    // Slide the start back to the allocation and forget the elements.
    method Rewound()
      requires Tidy()
      requires isReal ==> elems == Undefs(|elems|)
      modifies this`off, this`fill, this`max, this`elems
      ensures Tidy() && elems == []
      ensures Layout() == Rewind(old(Layout()))
    {
      if off != 0 {
        max := max + off;
        off := 0;
      }
      fill := -1;
      elems := [];
    }

    // av_clear.  An array whose max is negative is left as it is.
    method Clear() returns (croaked: bool)
      requires Valid()
      modifies this`off, this`fill, this`max, this`elems, alloc, arena`refs
      ensures SameOwner()
      ensures Valid()
      ensures croaked == readonly
      ensures croaked ==> Untouched() && arena.refs == old(arena.refs)
      ensures !croaked ==> View() == Cleared(old(View())) && elems == []
      ensures !croaked ==> Layout() == if old(max) < 0 then old(Layout()) else Rewind(old(Layout()))
      ensures !croaked && !isReal ==> Slots() == old(Slots())
    {
      if readonly {
        return true;
      }
      if max < 0 {
        DropNone(arena.refs.of);
        return false;
      }
      ClearBody();
      return false;
    }

    // av_clear on an array that has room for something.
    method ClearBody()
      requires Valid() && max >= 0
      modifies this`off, this`fill, this`max, this`elems, alloc, arena`refs
      ensures Valid()
      ensures View() == Cleared(old(View()))
      ensures Layout() == Rewind(old(Layout()))
      ensures !isReal ==> Slots() == old(Slots())
    {
      ClearedSound(View());
      if isReal {
        AllElements(arena.refs, elems);
        WipeFrom(0);
      }
      Rewound();
    }

    // The loop of av_undef: the slots are about to be freed.
    method ReleaseAll()
      requires WellShaped()
      modifies arena`refs
      ensures arena.refs == Dropped(old(arena.refs), elems, 0)
    {
      ghost var held := arena.refs;
      var key := fill + 1;
      while key > 0
        invariant 0 <= key <= fill + 1
        invariant arena.refs == Dropped(held, elems, key)
        modifies arena`refs
      {
        key := key - 1;
        var sv := Slot(key);
        assert Dropped(held, elems, key) == Dec(arena.refs, sv);
        arena.Decrement(sv);
      }
    }

    // av_undef, apart from the $#array scalar.
    method Undefine()
      requires Valid()
      modifies this`alloc, this`off, this`fill, this`max, this`elems, arena`refs
      ensures SameOwner()
      ensures Valid()
      ensures alloc == null && elems == []
      ensures View() == Cleared(old(View()))
      ensures Layout() == EMPTY.(moved := old(moved))
    {
      ClearedSound(View());
      if isReal {
        AllElements(arena.refs, elems);
        ReleaseAll();
      }
      alloc := null;
      off := 0;
      max := -1;
      fill := -1;
      elems := [];
    }

    // av_fill within the allocation: nothing is promoted.
    method FillWithin(want: int)
      requires Valid() && -1 <= want <= max
      modifies this`fill, this`elems, alloc, arena`refs
      ensures SameOwner()
      ensures Valid()
      ensures View() == Filled(old(View()), want + 1, true)
      ensures Layout() == old(Layout()).(fill := want)
    {
      FilledSound(View(), want + 1);
      if want > fill {
        GrowTo(want);
      } else {
        CutTo(want + 1);
      }
    }

    // Down to n elements, giving up the references to the others.
    method CutTo(n: nat)
      requires Tidy() && n <= fill + 1
      modifies this`fill, this`elems, alloc, arena`refs
      ensures Tidy() && fill == n - 1 && elems == AvSpec.Resize(old(elems), n)
      ensures arena.refs == if isReal then Dropped(old(arena.refs), old(elems), n) else old(arena.refs)
    {
      if isReal {
        WipeFrom(n);
      }
      Shrink(n);
      assert elems == AvSpec.Resize(old(elems), n);
    }

    // av_fill
    method Fill(request: int) returns (croaked: bool)
      requires Valid()
      modifies this`alloc, this`off, this`fill, this`max, this`moved, this`isReal, this`isReify, this`elems
      modifies alloc, arena`refs
      ensures SameOwner()
      ensures Valid()
      ensures alloc == old(alloc) || fresh(alloc)
      // the readonly check is left to av_store, so it is skipped within the allocation
      ensures croaked == (readonly && request > old(max) && request >= 0)
      ensures croaked ==> Untouched() && arena.refs == old(arena.refs)
      ensures !croaked ==> var want := if request < 0 then -1 else request;
        && View() == Filled(old(View()), want + 1, want <= old(max))
        && Layout() == AvLayout.Fill(old(Layout()), want)
      ensures !croaked ==> |elems| == (if request < 0 then 0 else request + 1) && KeptBut(old(elems), elems, -1)
    {
      var want := if request < 0 then -1 else request;
      FilledElements(View(), want + 1, want <= max);
      if want <= max {
        FillWithin(want);
        return false;
      }
      assert Counted(Undef) == multiset{};
      var r := Store(want, Undef);
      return r.Croaked?;
    }

    // The do-while of av_delete: give up the last element, and every
    // placeholder that is now last.
    method TrimEnd()
      requires Tidy() && fill >= 0 && elems[fill] == Undef
      modifies this`fill, this`elems
      ensures Tidy()
      ensures elems == old(elems)[..TrimTo(old(elems), old(fill))]
      ensures fill == |elems| - 1
    {
      Shrink(fill);
      var key := fill;
      while key >= 0 && Slot(key) == Undef
        invariant Tidy() && key == fill && elems == old(elems)[..key + 1]
        invariant TrimTo(old(elems), key + 1) == TrimTo(old(elems), old(fill))
        decreases key
        modifies this`fill, this`elems
      {
        Shrink(fill);
        key := key - 1;
      }
    }

    method DeleteLast()
      requires Tidy() && fill >= 0
      modifies this`fill, this`elems, alloc
      ensures Tidy()
      ensures elems == AvSpec.Delete(old(elems), old(fill))
      ensures fill == |elems| - 1
    {
      ghost var was := elems;
      Put(fill, Undef);
      TrimPrefix(was[..fill], was, fill);
      TrimPrefix(was[..fill], elems, fill);
      TrimEnd();
    }

    // The element goes; the last one takes the placeholders before it along.
    method DropSlot(k: nat)
      requires Tidy() && k <= fill
      modifies this`fill, this`elems, alloc
      ensures Tidy() && elems == AvSpec.Delete(old(elems), k)
      ensures Layout() == old(Layout()).(fill := |elems| - 1)
    {
      if k == fill {
        DeleteLast();
      } else {
        Put(k, Undef);
      }
    }

    // av_delete on an element that is there.
    method DeleteInRange(k: nat, discard: bool) returns (sv: Sv)
      requires Valid() && k <= fill
      modifies this`fill, this`elems, alloc, arena`refs
      ensures Valid()
      ensures View() == Deleted(old(View()), k, discard)
      ensures sv == if discard then Null else old(elems)[k]
      ensures Layout() == old(Layout()).(fill := |elems| - 1)
    {
      DeletedSound(View(), k, discard);
      sv := Slot(k);
      DropSlot(k);
      if discard {
        arena.Decrement(sv);
        sv := Null;
      }
    }

    // av_delete; Ok(Null) is Nullsv.
    method Delete(key: int, discard: bool) returns (r: Result<Sv>)
      requires Valid()
      modifies this`fill, this`elems, alloc, arena`refs
      ensures SameOwner()
      ensures Valid()
      ensures r == Croak <==> readonly
      ensures var k := Index(|old(elems)|, key);
        if readonly || !(0 <= k <= old(fill)) then
          Untouched() && arena.refs == old(arena.refs) && (r.Ok? ==> r.value == Null)
        else
          && View() == Deleted(old(View()), k, discard)
          && Layout() == old(Layout()).(fill := |elems| - 1)
          && r == Ok(if discard then Null else old(elems)[k])
      ensures var k := if key < 0 then |old(elems)| + key else key;
        !readonly && 0 <= k < |old(elems)| ==>
          if k == |old(elems)| - 1 then Trimmed(old(elems), |elems|) && elems == old(elems)[..|elems|]
          else |elems| == |old(elems)| && elems[k] == Undef && KeptBut(old(elems), elems, k)
    {
      if readonly {
        return Croak;
      }
      var k := if key < 0 then key + fill + 1 else key;
      if k < 0 || k > fill {
        return Ok(Null);
      }
      DeletedElements(View(), k, discard);
      var sv := DeleteInRange(k, discard);
      return Ok(sv);
    }

    // av_exists
    method ExistsAt(key: int) returns (b: bool)
      requires Valid()
      ensures b == Exists(elems, key)
      ensures var k := if key < 0 then |elems| + key else key;
        b <==> 0 <= k < |elems| && elems[k] != Undef && elems[k] != Null
    {
      var k := if key < 0 then key + fill + 1 else key;
      if k < 0 {
        return false;
      }
      b := k <= fill && Slot(k) != Undef && Slot(k) != Null;
    }

    // The emptyness: label of av_fetch, and its twin beyond the fill.
    method Vivify(k: nat, lval: bool) returns (r: StoreResult, ghost sv: Sv)
      requires Valid() && (k <= fill ==> elems[k] == Undef)
      modifies this`alloc, this`off, this`fill, this`max, this`moved, this`isReal, this`isReify, this`elems
      modifies alloc, arena
      ensures Valid()
      ensures alloc == old(alloc) || fresh(alloc)
      ensures !lval ==> r == NotStored && Untouched() && arena.refs == old(arena.refs)
      ensures lval ==> r == if readonly && k >= old(fill) then Croaked else Stored(k)
      ensures lval ==> sv.Ref? && sv !in old(arena.refs).of
      ensures lval && r.Stored? ==> View() == AvSpec.Stored(old(View()).(refs := Inc(old(arena.refs), sv)), k, sv)
      ensures lval && r.Croaked? ==> Untouched() && arena.refs == Inc(old(arena.refs), sv)
    {
      if !lval {
        return NotStored, Undef;
      }
      var made := arena.NewSv();
      NewMayStore(old(View()), made);
      r := Store(k, made);
      sv := made;
    }

    // av_fetch.  A scalar made for lval is sv.
    method Fetch(key: int, lval: bool) returns (r: StoreResult, ghost sv: Sv)
      requires Valid()
      modifies this`alloc, this`off, this`fill, this`max, this`moved, this`isReal, this`isReify, this`elems
      modifies alloc, arena
      ensures Valid()
      ensures alloc == old(alloc) || fresh(alloc)
      ensures var k := Index(|old(elems)|, key);
        if k < 0 then r == NotStored && Untouched() && arena.refs == old(arena.refs)
        else if !Hole(old(View()), k) then r == Stored(k) && Untouched() && arena.refs == old(arena.refs)
        else if !lval then r == NotStored && View() == Patched(old(View()), k)
        else
          && r == (if readonly && k >= old(fill) then Croaked else Stored(k))
          && sv.Ref? && sv !in old(arena.refs).of
          && View() == if r.Croaked? then Refused(old(View()), k, sv) else Vivified(old(View()), k, sv)
      ensures r.Stored? ==>
        && r.slot == (if key < 0 then |old(elems)| + key else key)
        && |elems| == (if r.slot < |old(elems)| then |old(elems)| else r.slot + 1)
        && elems[r.slot] == (if r.slot < |old(elems)| && Readable(old(elems)[r.slot], old(isReify), old(arena.refs))
                             then old(elems)[r.slot] else sv)
        && Readable(elems[r.slot], old(isReify), arena.refs) && elems[r.slot] != Undef
        && KeptBut(old(elems), elems, r.slot)
      ensures !r.Stored? ==> var k := if key < 0 then |old(elems)| + key else key;
        && |elems| == |old(elems)| && KeptBut(old(elems), elems, k)
        && (0 <= k < |elems| ==> elems[k] == Undef)
        && (!lval && 0 <= k < |elems| ==> !Readable(old(elems)[k], old(isReify), old(arena.refs)))
      // where no null pointers are, it finds what av_exists says is there
      ensures !lval && !old(isReify) && (forall j :: 0 <= j < |old(elems)| ==> old(elems)[j] != Null) ==>
        (r.Stored? <==> Exists(old(elems), key))
    {
      sv := Undef;
      var k := if key < 0 then key + fill + 1 else key;
      if k < 0 {
        return NotStored, sv;
      }
      ghost var v := View();
      r, sv := FetchInRange(k, lval);
      FetchedElements(v, View(), k, lval, r.Stored?, sv);
    }

    // av_fetch, once the subscript is known not to be negative.
    method FetchInRange(k: nat, lval: bool) returns (r: StoreResult, ghost sv: Sv)
      requires Valid()
      modifies this`alloc, this`off, this`fill, this`max, this`moved, this`isReal, this`isReify, this`elems
      modifies alloc, arena
      ensures Valid()
      ensures alloc == old(alloc) || fresh(alloc)
      ensures if !Hole(old(View()), k) then r == Stored(k) && Untouched() && arena.refs == old(arena.refs)
        else if !lval then r == NotStored && View() == Patched(old(View()), k)
        else
          && r == (if readonly && k >= old(fill) then Croaked else Stored(k))
          && sv.Ref? && sv !in old(arena.refs).of
          && View() == if r.Croaked? then Refused(old(View()), k, sv) else Vivified(old(View()), k, sv)
    {
      if k <= fill {
        var found := Occupied(k);
        if found {
          return Stored(k), Undef;
        }
      }
      r, sv := Vivify(k, lval);
    }

    // Whether av_fetch can return the slot as it is; if not, the slot holds a
    // placeholder afterwards.
    method Occupied(k: nat) returns (found: bool)
      requires Valid() && k <= fill
      modifies this`elems, alloc
      ensures Valid()
      ensures found == !Hole(old(View()), k)
      ensures found ==> Untouched()
      ensures !found ==> View() == Patched(old(View()), k) && elems[k] == Undef
    {
      var x := Slot(k);
      if x == Undef {
        PatchedSound(View(), k);
        assert elems[k := Undef] == elems;
        return false;
      }
      if isReify && (x == Null || arena.Freed(x)) {
        PatchedSound(View(), k);
        Put(k, Undef);   // 1/2 reify
        return false;
      }
      return true;
    }
  }
}
