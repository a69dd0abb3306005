// What the array operations mean: the visible sequence of elements, who owns
// them, and the table of reference counts they share with everything else.
module AvSpec {
  import opened Scalars

  // What can be seen of an array together with all reference counts.
  datatype View = View(elems: seq<Sv>, isReal: bool, isReify: bool, refs: Counts)

  // A REAL array owns one counted reference for each of its elements.
  predicate Sound(v: View) {
    && !(v.isReal && v.isReify)
    && (v.isReal ==> Owned(v.elems) <= v.refs.of)
  }

  // The caller of av_store owns a reference to val besides the array's own.
  predicate MayStore(v: View, val: Sv) {
    && (v.isReal ==> Owned(v.elems) + Counted(val) <= v.refs.of)
    && (v.isReify ==> Counted(val) <= v.refs.of)
  }

  function Reified(v: View): View {
    if v.isReal then v
    else v.(isReal := true, isReify := false, refs := Plus(v.refs, v.elems))
  }

  // Functions that modify a borrowing array call av_reify first.
  function Promoted(v: View): View {
    if !v.isReal && v.isReify then Reified(v) else v
  }

  function Stored(v: View, k: nat, val: Sv): View {
    var w := Promoted(v);
    w.(elems := StoreAt(w.elems, k, if val == Null then Undef else val),
       refs := if w.isReal && k < |w.elems| then Dec(w.refs, w.elems[k]) else w.refs)
  }

  function Cleared(v: View): View {
    v.(elems := [], refs := if v.isReal then Minus(v.refs, v.elems) else v.refs)
  }

  function Popped(v: View): View
    requires v.elems != []
  {
    v.(elems := v.elems[..|v.elems| - 1])
  }

  function Shifted(v: View): View
    requires v.elems != []
  {
    v.(elems := Rest(v.elems))
  }

  // s without its first element.
  function Rest(s: seq<Sv>): (r: seq<Sv>)
    requires s != []
    ensures |r| == |s| - 1
    ensures forall i :: 0 <= i < |r| ==> r[i] == s[i + 1]
  {
    seq(|s| - 1, i requires 0 <= i < |s| - 1 => s[i + 1])
  }

  lemma RestIsTail(s: seq<Sv>)
    requires s != []
    ensures Rest(s) == s[1..]
  {
  }

  lemma RestOfUpdate(s: seq<Sv>, t: seq<Sv>)
    requires s != [] && |t| == |s| && forall i :: 1 <= i < |s| ==> t[i] == s[i]
    ensures t[1..] == Rest(s)
  {
  }

  // av_unshift; `exposed` is what front slack turned into elements.
  function Unshifted(v: View, num: nat, exposed: seq<Sv>): View
    requires |exposed| <= num
  {
    var w := Promoted(v);
    w.(elems := Undefs(num - |exposed|) + exposed + w.elems)
  }

  // av_delete; with G_DISCARD it also drops a reference, owned or not.
  function Deleted(v: View, k: nat, discard: bool): View
    requires k < |v.elems|
  {
    v.(elems := Delete(v.elems, k),
       refs := if discard then Dec(v.refs, v.elems[k]) else v.refs)
  }

  // av_fetch finds nothing at k: past the end, a placeholder, or (in a
  // borrowing array) a null or a head that has been freed.
  predicate Hole(v: View, k: nat) {
    || k >= |v.elems|
    || v.elems[k] == Undef
    || (v.isReify && (v.elems[k] == Null || (v.elems[k].Ref? && v.elems[k] !in v.refs.of)))
  }

  // av_fetch for lval: a new scalar goes into the hole, through av_store.
  function Vivified(v: View, k: nat, sv: Sv): View {
    Stored(Refused(v, k, sv), k, sv)
  }

  // What is left when that av_store croaks; the new scalar leaks.
  function Refused(v: View, k: nat, sv: Sv): View {
    var p := Patched(v, k);
    p.(refs := Inc(p.refs, sv))
  }

  // "1/2 reify": a hole inside a borrowing array becomes a placeholder.
  function Patched(v: View, k: nat): View {
    if k < |v.elems| then v.(elems := v.elems[k := Undef]) else v
  }

  // av_fill: within the allocation nothing is promoted; beyond it av_store is.
  function Filled(v: View, n: nat, fits: bool): View
    requires n == 0 ==> fits
  {
    if fits then
      v.(elems := Resize(v.elems, n),
         refs := if v.isReal && n <= |v.elems| then Dropped(v.refs, v.elems, n) else v.refs)
    else
      Stored(v, n - 1, Undef)
  }

  lemma ReifiedSound(v: View)
    requires Sound(v)
    ensures Sound(Reified(v))
  {
    PartOfSum(v.refs.of, Owned(v.elems));
  }

  lemma PromotedMayStore(v: View, val: Sv)
    requires Sound(v) && MayStore(v, val)
    ensures Sound(Promoted(v)) && MayStore(Promoted(v), val)
  {
    ReifiedSound(v);
    SumsPreserveOrder(Counted(val), v.refs.of, Owned(v.elems));
  }

  lemma ShorterSound(v: View)
    requires Sound(v) && v.elems != []
    ensures Sound(Popped(v)) && Sound(Shifted(v))
  {
    OwnedLast(v.elems);
    OwnedSplit(v.elems, 1);
    RestIsTail(v.elems);
  }

  lemma UnshiftExposed(v: View, exposed: seq<Sv>)
    requires !v.isReify
    ensures Unshifted(v, |exposed|, exposed) == v.(elems := exposed + v.elems)
  {
    assert Undefs(0) + exposed + v.elems == exposed + v.elems;
  }

  lemma UnshiftUndefs(v: View, num: nat)
    requires !v.isReify
    ensures Unshifted(v, num, []) == v.(elems := Undefs(num) + v.elems)
  {
    assert Undefs(num) + [] + v.elems == Undefs(num) + v.elems;
  }

  // Taking the extra slack off again leaves just the new placeholders.
  lemma UndefsSplit(n: nat, slide: nat, elems: seq<Sv>)
    requires slide <= n
    ensures (Undefs(n) + elems)[..slide] == Undefs(slide)
    ensures (Undefs(n) + elems)[slide..] == Undefs(n - slide) + elems
  {
  }

  // Reusing slack and making room add up to one unshift.
  lemma UnshiftTwice(v: View, exposed: seq<Sv>, num: nat)
    requires !v.isReify && |exposed| <= num
    ensures Unshifted(Unshifted(v, |exposed|, exposed), num - |exposed|, []) == Unshifted(v, num, exposed)
  {
    var n := num - |exposed|;
    UnshiftExposed(v, exposed);
    UnshiftUndefs(v.(elems := exposed + v.elems), n);
    assert Undefs(n) + exposed + v.elems == Undefs(n) + (exposed + v.elems);
  }

  lemma UnshiftedSound(v: View, num: nat, exposed: seq<Sv>)
    requires Sound(v) && |exposed| <= num
    requires (v.isReal || v.isReify) && exposed != [] ==> exposed == Undefs(|exposed|)
    ensures Sound(Unshifted(v, num, exposed))
  {
    ReifiedSound(v);
    var w := Promoted(v);
    if w.isReal {
      OwnedUndefs(num - |exposed|);
      OwnedUndefs(|exposed|);
      assert exposed == Undefs(|exposed|);
      OwnedConcat(Undefs(num - |exposed|), exposed);
      OwnedConcat(Undefs(num - |exposed|) + exposed, w.elems);
    }
  }

  lemma DeletedSound(v: View, k: nat, discard: bool)
    requires Sound(v) && k < |v.elems|
    ensures Sound(Deleted(v, k, discard))
  {
    OwnedDelete(v.elems, k);
  }

  lemma FilledSound(v: View, n: nat)
    requires Sound(v)
    ensures Sound(Filled(v, n, true))
  {
    OwnedResize(v.elems, n);
    if n <= |v.elems| {
      DroppedIsMinus(v.refs, v.elems, n);
    }
  }

  lemma ClearedSound(v: View)
    requires Sound(v)
    ensures Sound(Cleared(v))
  {
  }

  lemma PatchedSound(v: View, k: nat)
    requires Sound(v) && Hole(v, k)
    ensures Sound(Patched(v, k))
  {
    if k < |v.elems| {
      OwnedUpdate(v.elems, k, Undef);
    }
  }

  // A scalar fresh from NEWSV may be stored anywhere.
  lemma NewMayStore(v: View, sv: Sv)
    requires Sound(v)
    ensures Sound(v.(refs := Inc(v.refs, sv)))
    ensures MayStore(v.(refs := Inc(v.refs, sv)), sv)
  {
    PartOfSum(v.refs.of, Counted(sv));
    SumsPreserveOrder(Owned(v.elems), v.refs.of, Counted(sv));
    assert Owned(v.elems) <= v.refs.of ==> Owned(v.elems) + Counted(sv) <= v.refs.of + Counted(sv);
  }

  lemma StoredSound(v: View, k: nat, val: Sv)
    requires Sound(v) && MayStore(v, val)
    ensures Sound(Stored(v, k, val))
  {
    PromotedMayStore(v, val);
    var w := Promoted(v);
    var x := if val == Null then Undef else val;
    OwnedStore(w.elems, k, x);
    if w.isReal {
      DropOneAddOne(w.refs.of, Owned(w.elems), Displaced(w.elems, k), Counted(x));
      if k >= |w.elems| {
        assert w.refs.of - Displaced(w.elems, k) == w.refs.of;
      }
    }
  }

  // Negative subscripts count from the end.
  function Index(n: nat, key: int): int {
    if key < 0 then key + n else key
  }

  function Padded(s: seq<Sv>, n: nat): (r: seq<Sv>)
    ensures |r| == if |s| < n then n else |s|
  {
    if |s| < n then s + Undefs(n - |s|) else s
  }

  function StoreAt(s: seq<Sv>, k: nat, v: Sv): (r: seq<Sv>)
    ensures |r| == if |s| <= k then k + 1 else |s|
  {
    Padded(s, k + 1)[k := v]
  }

  function Resize(s: seq<Sv>, n: nat): (r: seq<Sv>)
    ensures |r| == n
  {
    if n <= |s| then s[..n] else s + Undefs(n - |s|)
  }

  // How much of the first n elements is left without the placeholders that
  // end it.
  function TrimTo(s: seq<Sv>, n: nat): (m: nat)
    requires n <= |s|
    ensures m <= n
    ensures m == 0 || s[m - 1] != Undef
    ensures forall i :: m <= i < n ==> s[i] == Undef
  {
    if n > 0 && s[n - 1] == Undef then TrimTo(s, n - 1) else n
  }

  function Delete(s: seq<Sv>, k: nat): (r: seq<Sv>)
    requires k < |s|
    ensures |r| <= |s|
  {
    if k == |s| - 1 then s[..TrimTo(s, k)] else s[k := Undef]
  }

  predicate Exists(s: seq<Sv>, key: int) {
    var k := Index(|s|, key);
    0 <= k < |s| && s[k] != Undef && s[k] != Null
  }

  // The reference the array stops owning when v lands on k.
  function Displaced(s: seq<Sv>, k: nat): multiset<Sv> {
    if k < |s| then Counted(s[k]) else multiset{}
  }

  lemma OwnedPadded(s: seq<Sv>, n: nat)
    ensures Owned(Padded(s, n)) == Owned(s)
  {
    if |s| < n {
      OwnedConcat(s, Undefs(n - |s|));
      OwnedUndefs(n - |s|);
    }
  }

  lemma OwnedStore(s: seq<Sv>, k: nat, v: Sv)
    ensures Displaced(s, k) <= Owned(s)
    ensures Owned(StoreAt(s, k, v)) == Owned(s) - Displaced(s, k) + Counted(v)
  {
    OwnedPadded(s, k + 1);
    OwnedUpdate(Padded(s, k + 1), k, v);
  }

  lemma OwnedResize(s: seq<Sv>, n: nat)
    ensures n <= |s| ==> Owned(s) == Owned(Resize(s, n)) + Owned(s[n..])
    ensures n > |s| ==> Owned(Resize(s, n)) == Owned(s)
  {
    if n <= |s| {
      OwnedSplit(s, n);
    } else {
      OwnedPadded(s, n);
    }
  }

  lemma {:induction false} OwnedTrim(s: seq<Sv>, n: nat)
    requires n <= |s|
    ensures OwnedTo(s, TrimTo(s, n)) == OwnedTo(s, n)
  {
    if n > 0 && s[n - 1] == Undef {
      OwnedTrim(s, n - 1);
      PlusEmpty(OwnedTo(s, n - 1));
    }
  }

  lemma OwnedTake(s: seq<Sv>, n: nat)
    requires n <= |s|
    ensures Owned(s[..n]) == OwnedTo(s, n)
  {
    OwnedToSame(s, s[..n], n);
  }

  lemma OwnedDelete(s: seq<Sv>, k: nat)
    requires k < |s|
    ensures Owned(s) == Owned(Delete(s, k)) + Counted(s[k])
  {
    if k == |s| - 1 {
      OwnedTrim(s, k);
      OwnedTake(s, TrimTo(s, k));
    } else {
      OwnedUpdate(s, k, Undef);
      PartOfSum(Owned(s) - Counted(s[k]), Counted(s[k]));
    }
  }

  // A null pointer, which only an array that once borrowed its elements can hold,
  // comes last when the placeholders at the end of s[..n] are taken off.
  predicate EndsInNull(s: seq<Sv>, n: nat)
    requires n <= |s|
  {
    exists i :: 0 <= i < n && s[i] == Null && forall j :: i < j < n ==> s[j] == Undef
  }

  // Deleting one element leaves exists() alone everywhere else, whatever the
  // trim did to the length.  The trim stops at the first element that is not the
  // placeholder: there is no element left or the new last one exists, unless
  // what stopped it is a null pointer.
  lemma DeleteLeavesOthers(s: seq<Sv>, k: nat)
    requires k < |s|
    ensures !Exists(Delete(s, k), k)
    ensures forall j: nat :: j != k ==> (Exists(Delete(s, k), j) <==> Exists(s, j))
    ensures k == |s| - 1 ==>
      (Delete(s, k) == [] || Exists(Delete(s, k), -1) <==> !EndsInNull(s, k))
    ensures k < |s| - 1 ==> |Delete(s, k)| == |s|
  {
    if k == |s| - 1 {
      TrimStops(s, k);
    }
  }

  lemma TrimStops(s: seq<Sv>, n: nat)
    requires n <= |s|
    ensures var m := TrimTo(s, n); m > 0 && s[m - 1] == Null <==> EndsInNull(s, n)
  {
    var m := TrimTo(s, n);
    if m > 0 && s[m - 1] == Null {
      assert EndsInNull(s, n);
    }
  }

  // Such a null is left as a last element that does not exist.
  lemma NullStopsTrim(sv: Sv)
    requires sv != Undef
    ensures Delete([Null, sv], 1) == [Null] && !Exists([Null], -1) && !Exists([Null], 0)
  {
    assert TrimTo([Null, sv], 1) == 1;
  }

  // Storing and then deleting at an empty position gives back the array, up to
  // placeholders at its end.
  lemma DeleteUndoesStore(s: seq<Sv>, k: nat, v: Sv)
    requires k >= |s|
    ensures Delete(StoreAt(s, k, v), k) == s[..TrimTo(s, |s|)]
  {
    TrimPadding(s, StoreAt(s, k, v), k);
  }

  lemma {:induction false} TrimPadding(s: seq<Sv>, t: seq<Sv>, n: nat)
    requires |s| <= n <= |t| && s <= t
    requires forall i :: |s| <= i < n ==> t[i] == Undef
    ensures TrimTo(t, n) == TrimTo(s, |s|)
  {
    if n > |s| {
      TrimPadding(s, t, n - 1);
    } else {
      TrimPrefix(s, t, n);
    }
  }

  lemma {:induction false} TrimPrefix(s: seq<Sv>, t: seq<Sv>, n: nat)
    requires n <= |s| && s <= t
    ensures TrimTo(t, n) == TrimTo(s, n)
  {
    if n > 0 {
      TrimPrefix(s, t, n - 1);
    }
  }

  // ---- element by element ----

  // Elements stay where they are, and where there was none there is a placeholder,
  // except perhaps at k.
  predicate KeptBut(was: seq<Sv>, now: seq<Sv>, k: int) {
    forall j :: 0 <= j < |now| && j != k ==> now[j] == if j < |was| then was[j] else Undef
  }

  // s[..m] is what is left when x is taken off the end of s along with every
  // placeholder that then comes last.
  predicate Trimmed(s: seq<Sv>, m: nat) {
    && m < |s|
    && (forall j :: m <= j < |s| - 1 ==> s[j] == Undef)
    && (m > 0 ==> s[m - 1] != Undef)
  }

  lemma StoredElements(v: View, k: nat, val: Sv)
    ensures var now := Stored(v, k, val).elems;
      && |now| == (if k < |v.elems| then |v.elems| else k + 1)
      && now[k] == (if val == Null then Undef else val)
      && KeptBut(v.elems, now, k)
  {
  }

  // A borrowing array takes a reference to each of its elements first; then one to
  // the element that was replaced is given up, by an array that owns them.
  lemma StoredReferences(v: View, k: nat, val: Sv)
    ensures Stored(v, k, val).refs.of ==
      (if !v.isReal && v.isReify then v.refs.of + Owned(v.elems) else v.refs.of)
      - (if (v.isReal || v.isReify) && k < |v.elems| then Counted(v.elems[k]) else multiset{})
  {
  }

  // The one reference to a new scalar is the array's, or leaks.
  lemma FetchedReferences(v: View, w: View, k: nat, lval: bool, stored: bool, sv: Sv)
    requires Fetches(v, w, k, lval, stored, sv)
    ensures w.refs.of == v.refs.of + Made(v, k, lval, sv)
      + if w.isReal && !v.isReal then Owned(Patched(v, k).elems) else multiset{}
  {
    if Hole(v, k) {
      StoredReferences(Refused(v, k, sv), k, sv);
    }
  }

  function Made(v: View, k: nat, lval: bool, sv: Sv): multiset<Sv> {
    if lval && !(k < |v.elems| && Readable(v.elems[k], v.isReify, v.refs)) then multiset{sv} else multiset{}
  }

  lemma FilledElements(v: View, n: nat, fits: bool)
    requires n == 0 ==> fits
    requires !fits ==> n > |v.elems|
    ensures |Filled(v, n, fits).elems| == n && KeptBut(v.elems, Filled(v, n, fits).elems, -1)
  {
  }

  lemma DeletedElements(v: View, k: nat, discard: bool)
    requires k < |v.elems|
    ensures var now := Deleted(v, k, discard).elems;
      if k == |v.elems| - 1 then Trimmed(v.elems, |now|) && now == v.elems[..|now|]
      else |now| == |v.elems| && now[k] == Undef && KeptBut(v.elems, now, k)
  {
  }

  lemma UnshiftedElements(v: View, num: nat, exposed: seq<Sv>)
    requires |exposed| <= num
    ensures var now := Unshifted(v, num, exposed).elems;
      && |now| == num + |v.elems|
      && (forall j :: 0 <= j < |v.elems| ==> now[num + j] == v.elems[j])
      && ((forall j :: 0 <= j < |exposed| ==> exposed[j] == Undef) ==> forall j :: 0 <= j < num ==> now[j] == Undef)
  {
  }

  // What av_fetch can return: an element, but not the placeholder, nor in a
  // borrowing array a null or a scalar that has been freed.
  predicate Readable(x: Sv, borrowing: bool, refs: Counts) {
    x != Undef && (borrowing ==> x != Null && (x.Ref? ==> x in refs.of))
  }

  // What av_fetch does at k >= 0.
  ghost predicate Fetches(v: View, w: View, k: nat, lval: bool, stored: bool, sv: Sv) {
    if !Hole(v, k) then stored && w == v
    else if !lval then !stored && w == Patched(v, k)
    else sv.Ref? && w == if stored then Vivified(v, k, sv) else Refused(v, k, sv)
  }

  // In terms of the elements: what is readable is found and nothing changes; a new
  // scalar goes where nothing was; otherwise what was there becomes a placeholder.
  lemma FetchedElements(v: View, w: View, k: nat, lval: bool, stored: bool, sv: Sv)
    requires Fetches(v, w, k, lval, stored, sv)
    ensures KeptBut(v.elems, w.elems, k)
    ensures stored ==> |w.elems| == (if k < |v.elems| then |v.elems| else k + 1)
    ensures stored ==>
      w.elems[k] == (if k < |v.elems| && Readable(v.elems[k], v.isReify, v.refs) then v.elems[k] else sv)
    ensures stored ==> Readable(w.elems[k], v.isReify, w.refs)
    ensures !stored ==> |w.elems| == |v.elems| && (k < |v.elems| ==> w.elems[k] == Undef)
    ensures !lval ==> (stored <==> k < |v.elems| && Readable(v.elems[k], v.isReify, v.refs))
  {
    if Hole(v, k) {
      StoredReferences(Refused(v, k, sv), k, sv);
    }
  }
}
