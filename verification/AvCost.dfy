// The amortised bounds of AvLayout, carried out on the array body itself.
module AvCost {
  import opened Scalars
  import opened AvSpec
  import opened AvBody
  import opened AvRun
  import L = AvLayout

  // The first n of vals as an array holds them.
  function Cleaned(vals: seq<Sv>, n: nat): (s: seq<Sv>)
    requires n <= |vals|
    ensures |s| == n
  {
    if n == 0 then [] else Cleaned(vals, n - 1) + [Clean(vals[n - 1])]
  }

  lemma CleanedNext(vals: seq<Sv>, n: nat)
    requires n < |vals|
    ensures Owned(Cleaned(vals, n + 1)) == Owned(Cleaned(vals, n)) + Counted(vals[n])
  {
    OwnedSnoc(Cleaned(vals, n), Clean(vals[n]));
  }

  lemma PassOn(all: multiset<Sv>, done: multiset<Sv>, next: multiset<Sv>, rest: multiset<Sv>)
    requires all == done + (next + rest)
    ensures all == done + next + rest
  {
  }

  lemma {:induction false} OwnedCleaned(vals: seq<Sv>, n: nat)
    requires n <= |vals|
    ensures Owned(vals) == Owned(Cleaned(vals, n)) + Owned(vals[n..])
  {
    if n > 0 {
      OwnedCleaned(vals, n - 1);
      OwnedCons(vals, n - 1);
      PassOn(Owned(vals), Owned(Cleaned(vals, n - 1)), Counted(vals[n - 1]), Owned(vals[n..]));
      CleanedNext(vals, n - 1);
    } else {
      assert vals[0..] == vals;
      SumsAssociate(multiset{}, multiset{}, Owned(vals));
    }
  }

  // The references to all of vals cover the array so far and the next element.
  lemma NextIsCovered(v: View, vals: seq<Sv>, i: nat)
    requires i < |vals| && Owned(vals) <= v.refs.of
    requires v.isReal && !v.isReify && v.elems == Cleaned(vals, i)
    ensures MayStore(v, vals[i])
  {
    var own, next, rest := Owned(Cleaned(vals, i)), Counted(vals[i]), Owned(vals[i + 1..]);
    OwnedCleaned(vals, i);
    OwnedCons(vals, i);
    SumsAssociate(own, next, rest);
    PartOfSum(rest, own + next);
  }

  // Pushing onto a new array: the slots copied, over all regrowths, are at most
  // two for each element.  The array takes over one reference to each of vals.
  method PushAll(arena: Arena, vals: seq<Sv>) returns (av: AV)
    requires Owned(vals) <= arena.refs.of
    modifies arena
    ensures fresh(av) && av.Valid() && av.elems == Cleaned(vals, |vals|)
    ensures av.moved <= 2 * |vals|
    ensures av.Layout() == L.Pushes(L.EMPTY, |vals|)
    ensures arena.refs == old(arena.refs)
  {
    av := new AV.New(arena);
    PushRest(av, vals, 0);
    L.PushesAreAmortized(|vals|);
  }

  // From the ith on.
  method PushRest(av: AV, vals: seq<Sv>, i: nat)
    requires av.Valid() && !av.readonly && av.isReal
    requires i <= |vals| && av.elems == Cleaned(vals, i) && Owned(vals) <= av.arena.refs.of
    requires av.Layout() == L.Pushes(L.EMPTY, i)
    modifies av, av.alloc, av.arena
    ensures av.Valid() && av.elems == Cleaned(vals, |vals|)
    ensures av.Layout() == L.Pushes(L.EMPTY, |vals|)
    ensures av.arena.refs == old(av.arena.refs)
    decreases |vals| - i
  {
    if i < |vals| {
      PushNext(av, vals, i);
      PushRest(av, vals, i + 1);
    }
  }

  method PushNext(av: AV, vals: seq<Sv>, i: nat)
    requires av.Valid() && !av.readonly && av.isReal
    requires i < |vals| && av.elems == Cleaned(vals, i) && Owned(vals) <= av.arena.refs.of
    modifies av, av.alloc, av.arena
    ensures av.Valid() && !av.readonly && av.isReal
    ensures av.alloc == null || av.alloc == old(av.alloc) || fresh(av.alloc)
    ensures av.elems == Cleaned(vals, i + 1) && av.arena.refs == old(av.arena.refs)
    ensures av.Layout() == L.Push(old(av.Layout()))
  {
    NextIsCovered(av.View(), vals, i);
    PushedView(av.View(), vals[i]);
    var c := av.Push(vals[i]);
  }

  lemma PushedView(v: View, val: Sv)
    requires v.isReal
    ensures AvSpec.Stored(v, |v.elems|, val) == v.(elems := v.elems + [Clean(val)])
  {
  }

  // Unshifting one element at a time: at most six slots for each.
  method UnshiftAll(arena: Arena, n: nat) returns (av: AV)
    modifies arena
    ensures fresh(av) && av.Valid() && av.elems == Undefs(n)
    ensures av.moved <= 6 * n
    ensures av.Layout() == L.Unshifts(L.EMPTY, n)
    ensures arena.refs == old(arena.refs)
  {
    av := new AV.New(arena);
    assert av.elems == Undefs(0);
    UnshiftRest(av, 0, n);
    L.UnshiftsAreAmortized(n);
  }

  // After the first i.
  method UnshiftRest(av: AV, i: nat, n: nat)
    requires av.Valid() && !av.readonly && av.isReal
    requires i <= n && av.elems == Undefs(i) && av.Layout() == L.Unshifts(L.EMPTY, i)
    modifies av, av.alloc, av.arena
    ensures av.Valid() && av.elems == Undefs(n)
    ensures av.Layout() == L.Unshifts(L.EMPTY, n)
    ensures av.arena.refs == old(av.arena.refs)
    decreases n - i
  {
    if i < n {
      UnshiftOne(av, i);
      UnshiftRest(av, i + 1, n);
    }
  }

  // av_unshift of one element on an array of placeholders.
  method UnshiftOne(av: AV, n: nat)
    requires av.Valid() && !av.readonly && av.isReal && av.elems == Undefs(n)
    modifies av, av.alloc, av.arena
    ensures av.Valid() && !av.readonly && av.isReal
    ensures av.alloc == null || av.alloc == old(av.alloc) || fresh(av.alloc)
    ensures av.elems == Undefs(n + 1) && av.arena.refs == old(av.arena.refs)
    ensures av.Layout() == L.Unshift(old(av.Layout()), 1)
  {
    UnshiftsAlike(av.View(), 1, if av.off > 1 then 1 else av.off);
    UnshiftUndefs(av.View(), 1);
    UndefsAdd(1, n);
    var c := av.Unshift(1);
  }

  lemma UndefsAdd(a: nat, b: nat)
    ensures Undefs(a) + Undefs(b) == Undefs(a + b)
  {
  }
}
