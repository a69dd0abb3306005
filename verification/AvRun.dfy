// Runs of operations on one array that owns its elements or still borrows them: it
// behaves like a plain sequence, and what happens to the references is accounted for.
module AvRun {
  import opened Scalars
  import opened AvSpec
  import opened AvBody

  datatype Op =
    | Store(key: int, val: Sv)
    | Push(val: Sv)
    | Pop
    | Shift
    | Unshift(num: int)
    | Extend(key: int)
    | Fill(want: int)
    | Delete(key: int, discard: bool)
    | Clear
    | Undefine

  // A null pointer is stored as the placeholder.
  function Clean(val: Sv): Sv {
    if val == Null then Undef else val
  }

  // The operation on a plain sequence of scalars.
  function Plain(s: seq<Sv>, op: Op): seq<Sv> {
    match op
    case Store(key, val) => var k := Index(|s|, key); if k < 0 then s else StoreAt(s, k, Clean(val))
    case Push(val) => s + [Clean(val)]
    case Pop => if s == [] then s else s[..|s| - 1]
    case Shift => if s == [] then s else Rest(s)
    case Unshift(num) => if num <= 0 then s else Undefs(num) + s
    case Extend(_) => s
    case Fill(want) => AvSpec.Resize(s, if want < 0 then 0 else want + 1)
    case Delete(key, _) => var k := Index(|s|, key); if 0 <= k < |s| then AvSpec.Delete(s, k) else s
    case Clear => []
    case Undefine => []
  }

  // The references not owned by the array that are left afterwards.  An element put
  // in costs one.  An element taken out comes with one if the array owned it; if it
  // was borrowed it comes without, and discarding it drops a reference all the same.
  function Held(s: seq<Sv>, held: multiset<Sv>, op: Op, owned: bool): multiset<Sv> {
    match op
    case Store(key, val) => if Index(|s|, key) < 0 then held else held - Counted(val)
    case Push(val) => held - Counted(val)
    case Pop => if s == [] || !owned then held else held + Counted(s[|s| - 1])
    case Shift => if s == [] || !owned then held else held + Counted(s[0])
    case Delete(key, discard) =>
      var k := Index(|s|, key);
      if !(0 <= k < |s|) || discard == owned then held
      else if owned then held + Counted(s[k])
      else held - Counted(s[k])
    case _ => held
  }

  // Whoever stores a scalar has a reference to give away.
  predicate Enabled(held: multiset<Sv>, op: Op) {
    (op.Store? || op.Push?) ==> Counted(op.val) <= held
  }

  // The operation as av.c performs it.  fits: av_fill stays within the allocation.
  function After(v: View, op: Op, fits: bool): View {
    match op
    case Store(key, val) => var k := Index(|v.elems|, key); if k < 0 then v else AvSpec.Stored(v, k, val)
    case Push(val) => AvSpec.Stored(v, |v.elems|, val)
    case Pop => if v.elems == [] then v else Popped(v)
    case Shift => if v.elems == [] then v else Shifted(v)
    case Unshift(num) => if num <= 0 then v else Unshifted(v, num, [])
    case Extend(_) => v
    case Fill(want) => Filled(v, Want(want), fits || want < |v.elems|)
    case Delete(key, discard) =>
      var k := Index(|v.elems|, key);
      if 0 <= k < |v.elems| then Deleted(v, k, discard) else v
    case Clear => Cleared(v)
    case Undefine => Cleared(v)
  }

  // The length av_fill asks for.
  function Want(want: int): nat {
    if want < 0 then 0 else want + 1
  }

  // The operations that make a borrowing array own its elements first.
  predicate Promotes(v: View, op: Op, fits: bool) {
    match op
    case Store(key, _) => Index(|v.elems|, key) >= 0
    case Push(_) => true
    case Unshift(num) => num > 0
    case Fill(want) => !(fits || want < |v.elems|)
    case _ => false
  }

  // Those that do so whatever the allocation.
  predicate Must(s: seq<Sv>, op: Op) {
    match op
    case Store(key, _) => Index(|s|, key) >= 0
    case Push(_) => true
    case Unshift(num) => num > 0
    case _ => false
  }

  // Every reference is the array's own or held elsewhere.
  ghost predicate Conserved(v: View, held: multiset<Sv>) {
    v.isReal != v.isReify && v.refs.of == if v.isReal then held + Owned(v.elems) else held
  }

  lemma MayStoreHeld(v: View, held: multiset<Sv>, val: Sv)
    requires Conserved(v, held) && Counted(val) <= held
    ensures MayStore(v, val)
  {
  }

  lemma RefinesPlain(v: View, op: Op, fits: bool)
    requires v.isReal
    ensures After(v, op, fits).elems == Plain(v.elems, op)
    ensures After(v, op, fits).isReal == v.isReal && After(v, op, fits).isReify == v.isReify
  {
    if op.Unshift? && op.num > 0 {
      UnshiftUndefs(v.(isReify := false), op.num);
    } else if op.Fill? {
      FillsAlike(v, Want(op.want), fits || op.want < |v.elems|);
    }
  }

  // av_fill beyond the allocation goes through av_store, to the same effect on an
  // array that owns its elements.
  lemma FillsAlike(v: View, n: nat, fits: bool)
    requires v.isReal && (fits || n > |v.elems|)
    ensures Filled(v, n, fits) == Filled(v, n, true)
  {
    if !fits {
      assert StoreAt(v.elems, n - 1, Undef) == AvSpec.Resize(v.elems, n);
    }
  }

  lemma StoredConserves(v: View, held: multiset<Sv>, k: nat, val: Sv)
    requires v.isReal && Conserved(v, held) && Counted(val) <= held
    ensures Conserved(AvSpec.Stored(v, k, val), held - Counted(val))
  {
    var own, out, add := Owned(v.elems), Displaced(v.elems, k), Counted(val);
    OwnedStore(v.elems, k, Clean(val));
    Exchange(held, own, out, add);
    assert k >= |v.elems| ==> v.refs.of == held + own - out;
  }

  lemma Exchange(held: multiset<Sv>, own: multiset<Sv>, out: multiset<Sv>, add: multiset<Sv>)
    requires out <= own && add <= held
    ensures held + own - out == held - add + (own - out + add)
  {
  }

  lemma DeletedConserves(v: View, held: multiset<Sv>, k: nat, discard: bool)
    requires v.isReal && Conserved(v, held) && k < |v.elems|
    ensures Conserved(Deleted(v, k, discard), if discard then held else held + Counted(v.elems[k]))
  {
    var rest := Owned(AvSpec.Delete(v.elems, k));
    OwnedDelete(v.elems, k);
    TakeOut(held, rest, Counted(v.elems[k]));
  }

  lemma TakeOut(held: multiset<Sv>, rest: multiset<Sv>, out: multiset<Sv>)
    ensures held + (rest + out) == held + out + rest
    ensures held + (rest + out) - out == held + rest
  {
  }

  lemma ShorterConserves(v: View, held: multiset<Sv>)
    requires v.isReal && Conserved(v, held) && v.elems != []
    ensures Conserved(Popped(v), held + Counted(v.elems[|v.elems| - 1]))
    ensures Conserved(Shifted(v), held + Counted(v.elems[0]))
  {
    var s := v.elems;
    TakeOut(held, Owned(s[..|s| - 1]), Counted(s[|s| - 1]));
    OwnedLast(s);
    OwnedAt(s, 0);
    RestIsTail(s);
    assert Owned(s[..0]) == multiset{} && multiset{} + Owned(s[1..]) == Owned(s[1..]);
    TakeOut(held, Owned(s[1..]), Counted(s[0]));
  }

  lemma FilledConserves(v: View, held: multiset<Sv>, n: nat)
    requires v.isReal && Conserved(v, held)
    ensures Conserved(Filled(v, n, true), held)
  {
    OwnedResize(v.elems, n);
    if n <= |v.elems| {
      DroppedIsMinus(v.refs, v.elems, n);
      TakeOut(held, Owned(v.elems[..n]), Owned(v.elems[n..]));
    }
  }

  lemma UnshiftedConserves(v: View, held: multiset<Sv>, num: nat)
    requires v.isReal && Conserved(v, held)
    ensures Conserved(Unshifted(v, num, []), held)
  {
    UnshiftUndefs(v, num);
    OwnedConcat(Undefs(num), v.elems);
    OwnedUndefs(num);
    assert multiset{} + Owned(v.elems) == Owned(v.elems);
  }

  lemma ClearedConserves(v: View, held: multiset<Sv>)
    requires Conserved(v, held)
    ensures Conserved(Cleared(v), held)
  {
    TakeOut(held, multiset{}, Owned(v.elems));
    assert multiset{} + Owned(v.elems) == Owned(v.elems);
  }

  lemma PuttingConserves(v: View, held: multiset<Sv>, op: Op, fits: bool)
    requires v.isReal && Conserved(v, held) && Enabled(held, op) && (op.Store? || op.Push?)
    ensures Conserved(After(v, op, fits), Held(v.elems, held, op, true))
  {
    if op.Push? {
      StoredConserves(v, held, |v.elems|, op.val);
    } else if Index(|v.elems|, op.key) >= 0 {
      StoredConserves(v, held, Index(|v.elems|, op.key), op.val);
    }
  }

  lemma TakingConserves(v: View, held: multiset<Sv>, op: Op, fits: bool)
    requires v.isReal && Conserved(v, held) && (op.Pop? || op.Shift? || op.Delete?)
    ensures Conserved(After(v, op, fits), Held(v.elems, held, op, true))
  {
    if op.Delete? {
      var k := Index(|v.elems|, op.key);
      if 0 <= k < |v.elems| {
        DeletedConserves(v, held, k, op.discard);
      }
    } else if v.elems != [] {
      ShorterConserves(v, held);
    }
  }

  // One operation on an array that owns its elements keeps the books balanced.
  lemma OwnedConserves(v: View, held: multiset<Sv>, op: Op, fits: bool)
    requires v.isReal && Conserved(v, held) && Enabled(held, op)
    ensures Conserved(After(v, op, fits), Held(v.elems, held, op, true))
  {
    match op
    case Store(_, _) => PuttingConserves(v, held, op, fits);
    case Push(_) => PuttingConserves(v, held, op, fits);
    case Pop => TakingConserves(v, held, op, fits);
    case Shift => TakingConserves(v, held, op, fits);
    case Delete(_, _) => TakingConserves(v, held, op, fits);
    case Unshift(num) => if num > 0 { UnshiftedConserves(v, held, num); }
    case Extend(_) =>
    case Fill(want) =>
      FillsAlike(v, Want(want), fits || want < |v.elems|);
      FilledConserves(v, held, Want(want));
    case Clear => ClearedConserves(v, held);
    case Undefine => ClearedConserves(v, held);
  }

  // A promoting operation is av_reify and then the operation.
  lemma PromotesFirst(v: View, held: multiset<Sv>, op: Op, fits: bool)
    requires !v.isReal && Conserved(v, held) && Promotes(v, op, fits)
    ensures After(v, op, fits) == After(Reified(v), op, fits)
    ensures Reified(v).elems == v.elems && Reified(v).isReal && Conserved(Reified(v), held)
  {
  }

  // The other operations leave it borrowing.
  lemma StaysBorrowing(v: View, held: multiset<Sv>, op: Op, fits: bool)
    requires !v.isReal && Conserved(v, held) && !Promotes(v, op, fits)
    ensures var w := After(v, op, fits);
      w.elems == Plain(v.elems, op) && !w.isReal && Conserved(w, Held(v.elems, held, op, false))
  {
    DropNone(held);
  }

  // Does the array own its elements once op is under way?
  predicate Owns(v: View, op: Op, fits: bool) {
    v.isReal || Promotes(v, op, fits)
  }

  lemma Step(v: View, held: multiset<Sv>, op: Op, fits: bool)
    requires Conserved(v, held) && Enabled(held, op)
    ensures After(v, op, fits).elems == Plain(v.elems, op)
    ensures After(v, op, fits).isReal == Owns(v, op, fits)
    ensures Conserved(After(v, op, fits), Held(v.elems, held, op, Owns(v, op, fits)))
  {
    if v.isReal {
      RefinesPlain(v, op, fits);
      OwnedConserves(v, held, op, fits);
    } else if Promotes(v, op, fits) {
      PromotesFirst(v, held, op, fits);
      RefinesPlain(Reified(v), op, fits);
      OwnedConserves(Reified(v), held, op, fits);
    } else {
      StaysBorrowing(v, held, op, fits);
    }
  }

  // ---- whole runs: the state after the first n of the operations ----

  function PlainRun(s: seq<Sv>, ops: seq<Op>, n: nat): seq<Sv>
    requires n <= |ops|
  {
    if n == 0 then s else Plain(PlainRun(s, ops, n - 1), ops[n - 1])
  }

  // The array owns its elements from operation p on: 0 for one that always did.
  function HeldRun(s: seq<Sv>, held: multiset<Sv>, ops: seq<Op>, p: nat, n: nat): multiset<Sv>
    requires n <= |ops|
  {
    if n == 0 then held
    else Held(PlainRun(s, ops, n - 1), HeldRun(s, held, ops, p, n - 1), ops[n - 1], p < n)
  }

  function AfterRun(v: View, ops: seq<Op>, fits: seq<bool>, n: nat): View
    requires n <= |ops| && n <= |fits|
  {
    if n == 0 then v else After(AfterRun(v, ops, fits, n - 1), ops[n - 1], fits[n - 1])
  }

  // How many of the first n operations come before the array owns its elements.
  function Borrowed(v: View, ops: seq<Op>, fits: seq<bool>, n: nat): (p: nat)
    requires n <= |ops| && n <= |fits|
    ensures p <= n
  {
    if n == 0 then 0
    else if AfterRun(v, ops, fits, n).isReal then Borrowed(v, ops, fits, n - 1)
    else n
  }

  predicate EnabledAt(s: seq<Sv>, held: multiset<Sv>, ops: seq<Op>, p: nat, i: nat)
    requires i < |ops|
  {
    Enabled(HeldRun(s, held, ops, p, i), ops[i])
  }

  predicate EnabledRun(s: seq<Sv>, held: multiset<Sv>, ops: seq<Op>, p: nat, n: nat)
    requires n <= |ops|
  {
    forall i {:trigger EnabledAt(s, held, ops, p, i)} :: 0 <= i < n ==> EnabledAt(s, held, ops, p, i)
  }

  // An array that borrows may still do so when the first q operations are over.
  predicate MayLast(s: seq<Sv>, ops: seq<Op>, q: nat)
    requires q <= |ops|
  {
    q == 0 || (MayLast(s, ops, q - 1) && !Must(PlainRun(s, ops, q - 1), ops[q - 1]))
  }

  // Whoever stores has a reference to give away, wherever a borrowing array may
  // come to own its elements; one that owns them has no say in that.
  ghost predicate EnabledFor(owned: bool, s: seq<Sv>, held: multiset<Sv>, ops: seq<Op>) {
    if owned then EnabledRun(s, held, ops, 0, |ops|)
    else
      forall q {:trigger MayLast(s, ops, q)} :: 0 <= q <= |ops| && MayLast(s, ops, q) ==>
        EnabledRun(s, held, ops, q, |ops|)
  }

  // Before either point of promotion the two accounts are the same.
  lemma {:induction false} SameBefore(s: seq<Sv>, held: multiset<Sv>, ops: seq<Op>, p: nat, q: nat, n: nat)
    requires n <= |ops| && (p == q || (n <= p && n <= q))
    ensures HeldRun(s, held, ops, p, n) == HeldRun(s, held, ops, q, n)
  {
    if n > 0 {
      SameBefore(s, held, ops, p, q, n - 1);
    }
  }

  // What the account says of one more operation.
  lemma HeldNext(s: seq<Sv>, held: multiset<Sv>, ops: seq<Op>, p: nat, q: nat, n: nat, owns: bool)
    requires n < |ops| && (if owns then p == q <= n else p == n && q == n + 1)
    ensures HeldRun(s, held, ops, q, n + 1) ==
      Held(PlainRun(s, ops, n), HeldRun(s, held, ops, p, n), ops[n], owns)
  {
    SameBefore(s, held, ops, p, q, n);
  }

  // Over any run the array refines the plain sequence, and at its end every count
  // is what is held elsewhere plus, once the array owns them, its elements.
  lemma {:induction false} RunConserves(v: View, held: multiset<Sv>, ops: seq<Op>, fits: seq<bool>, n: nat)
    requires n <= |ops| && n <= |fits| && Conserved(v, held)
    requires EnabledRun(v.elems, held, ops, Borrowed(v, ops, fits, n), n)
    ensures var w, p := AfterRun(v, ops, fits, n), Borrowed(v, ops, fits, n);
      && w.elems == PlainRun(v.elems, ops, n)
      && w.isReal == (v.isReal || p < n) && (v.isReal ==> p == 0)
      && Conserved(w, HeldRun(v.elems, held, ops, p, n))
  {
    if n > 0 {
      var m := n - 1;
      var p, q := Borrowed(v, ops, fits, m), Borrowed(v, ops, fits, n);
      EnabledBefore(v.elems, held, ops, q, p, m, n);
      RunConserves(v, held, ops, fits, m);
      var w := AfterRun(v, ops, fits, m);
      var h := HeldRun(v.elems, held, ops, p, m);
      Step(w, h, ops[m], fits[m]);
      HeldNext(v.elems, held, ops, p, q, m, Owns(w, ops[m], fits[m]));
    }
  }

  // An enabled run is enabled up to and including m, wherever a later promotion is.
  lemma EnabledBefore(s: seq<Sv>, held: multiset<Sv>, ops: seq<Op>, q: nat, p: nat, m: nat, n: nat)
    requires m < n <= |ops| && EnabledRun(s, held, ops, q, n) && (p == q || (m <= p && m <= q))
    ensures EnabledRun(s, held, ops, p, m) && Enabled(HeldRun(s, held, ops, p, m), ops[m])
  {
    forall i | 0 <= i <= m ensures EnabledAt(s, held, ops, p, i) {
      assert EnabledAt(s, held, ops, q, i);
      SameBefore(s, held, ops, p, q, i);
    }
    assert EnabledAt(s, held, ops, p, m);
  }

  // Clearing or undefining the array after any run leaves exactly the references
  // held elsewhere: nothing has leaked.
  lemma NothingLeaks(v: View, held: multiset<Sv>, ops: seq<Op>, fits: seq<bool>)
    requires |fits| == |ops| && Conserved(v, held)
    requires EnabledRun(v.elems, held, ops, Borrowed(v, ops, fits, |ops|), |ops|)
    ensures After(AfterRun(v, ops, fits, |ops|), Undefine, true).refs.of
      == HeldRun(v.elems, held, ops, Borrowed(v, ops, fits, |ops|), |ops|)
  {
    RunConserves(v, held, ops, fits, |ops|);
    ClearingGivesBack(AfterRun(v, ops, fits, |ops|), HeldRun(v.elems, held, ops, Borrowed(v, ops, fits, |ops|), |ops|));
  }

  lemma ClearingGivesBack(v: View, held: multiset<Sv>)
    requires Conserved(v, held)
    ensures After(v, Undefine, true).refs.of == held
  {
    PartOfSum(held, Owned(v.elems));
  }

  // ---- borrowed elements ----

  // The operation discards an element that the array does not own and somebody
  // else has a reference to.
  predicate Strays(s: seq<Sv>, held: multiset<Sv>, op: Op) {
    op.Delete? && op.discard && var k := Index(|s|, op.key); 0 <= k < |s| && s[k].Ref? && s[k] in held
  }

  predicate NoneStrays(s: seq<Sv>, held: multiset<Sv>, ops: seq<Op>, n: nat)
    requires n <= |ops|
  {
    n == 0 || (NoneStrays(s, held, ops, n - 1) && !Strays(PlainRun(s, ops, n - 1), held, ops[n - 1]))
  }

  // As long as the array borrows, stores being promotions, no reference comes or
  // goes, exactly when no operation discards a counted element.
  lemma {:induction false} BorrowingLeavesCounts(s: seq<Sv>, held: multiset<Sv>, ops: seq<Op>, p: nat, n: nat)
    requires n <= p && n <= |ops| && forall i :: 0 <= i < n ==> !ops[i].Store? && !ops[i].Push?
    ensures HeldRun(s, held, ops, p, n) <= held
    ensures HeldRun(s, held, ops, p, n) == held <==> NoneStrays(s, held, ops, n)
  {
    if n > 0 {
      BorrowingLeavesCounts(s, held, ops, p, n - 1);
      StillTheSame(PlainRun(s, ops, n - 1), held, HeldRun(s, held, ops, p, n - 1), ops[n - 1]);
    }
  }

  lemma StillTheSame(s: seq<Sv>, held: multiset<Sv>, left: multiset<Sv>, op: Op)
    requires left <= held && !op.Store? && !op.Push?
    ensures Held(s, left, op, false) <= held
    ensures Held(s, left, op, false) == held <==> left == held && !Strays(s, held, op)
  {
    BorrowedStep(s, left, op);
    Squeezed(Held(s, left, op, false), left, held);
  }

  lemma Squeezed(a: multiset<Sv>, b: multiset<Sv>, c: multiset<Sv>)
    requires a <= b <= c
    ensures a <= c && (a == c ==> b == c)
  {
  }

  lemma BorrowedStep(s: seq<Sv>, held: multiset<Sv>, op: Op)
    requires !op.Store? && !op.Push?
    ensures Held(s, held, op, false) <= held
    ensures Held(s, held, op, false) == held <==> !Strays(s, held, op)
  {
    if Strays(s, held, op) {
      var x := s[Index(|s|, op.key)];
      assert (held - multiset{x})[x] < held[x];
    }
  }

  // One borrowed element, discarded: its owner's only reference is gone.
  lemma DiscardStrays(x: Sv)
    requires x.Ref?
    ensures var v := AvSpec.View([x], false, true, Counts(multiset{x}));
      && Sound(v) && Conserved(v, multiset{x})
      && After(v, Op.Delete(0, true), true).refs == Counts(multiset{})
  {
  }

  // The slack that av_unshift reuses holds placeholders by the time it does.
  lemma UnshiftsAlike(v: View, num: nat, i: nat)
    requires i <= num
    ensures Unshifted(v, num, Undefs(i)) == Unshifted(v, num, [])
  {
    assert Undefs(num - i) + Undefs(i) == Undefs(num);
    assert Undefs(num) + [] == Undefs(num);
  }

  // A stored scalar comes with a reference of its own.
  predicate CanPerform(v: View, op: Op) {
    (op.Store? || op.Push?) ==> MayStore(v, op.val)
  }

  ghost predicate Ready(av: AV)
    reads av, av.alloc, av.arena
  {
    av.Valid() && (av.isReal || av.isReify) && !av.readonly
  }

  // What no operation changes, and what it does to the allocation.
  twostate predicate Framed(av: AV)
    reads av
  {
    && av.SameOwner()
    && (av.alloc == null || av.alloc == old(av.alloc) || fresh(av.alloc))
  }

  method PerformStore(av: AV, key: int, val: Sv)
    requires Ready(av) && MayStore(av.View(), val)
    modifies av, av.alloc, av.arena
    ensures av.Valid() && Framed(av)
    ensures av.View() == After(old(av.View()), Op.Store(key, val), true)
  {
    var r := av.Store(key, val);
  }

  method PerformPush(av: AV, val: Sv)
    requires Ready(av) && MayStore(av.View(), val)
    modifies av, av.alloc, av.arena
    ensures av.Valid() && Framed(av)
    ensures av.View() == After(old(av.View()), Op.Push(val), true)
  {
    var c := av.Push(val);
  }

  method PerformPop(av: AV)
    requires Ready(av)
    modifies av, av.alloc, av.arena
    ensures av.Valid() && Framed(av)
    ensures av.View() == After(old(av.View()), Op.Pop, true)
  {
    var r := av.Pop();
  }

  method PerformShift(av: AV)
    requires Ready(av)
    modifies av, av.alloc, av.arena
    ensures av.Valid() && Framed(av)
    ensures av.View() == After(old(av.View()), Op.Shift, true)
  {
    var r := av.Shift();
  }

  method PerformDelete(av: AV, key: int, discard: bool)
    requires Ready(av)
    modifies av, av.alloc, av.arena
    ensures av.Valid() && Framed(av)
    ensures av.View() == After(old(av.View()), Op.Delete(key, discard), true)
  {
    var r := av.Delete(key, discard);
  }

  method PerformExtend(av: AV, key: int)
    requires Ready(av)
    modifies av, av.alloc, av.arena
    ensures av.Valid() && Framed(av)
    ensures av.View() == After(old(av.View()), Op.Extend(key), true)
  {
    av.Extend(key);
  }

  method PerformClear(av: AV)
    requires Ready(av)
    modifies av, av.alloc, av.arena
    ensures av.Valid() && Framed(av)
    ensures av.View() == After(old(av.View()), Op.Clear, true)
  {
    var c := av.Clear();
  }

  method PerformUndefine(av: AV)
    requires Ready(av)
    modifies av, av.alloc, av.arena
    ensures av.Valid() && Framed(av)
    ensures av.View() == After(old(av.View()), Op.Undefine, true)
  {
    av.Undefine();
  }

  method PerformFill(av: AV, want: int)
    requires Ready(av)
    modifies av, av.alloc, av.arena
    ensures av.Valid() && Framed(av)
    ensures av.View() == After(old(av.View()), Op.Fill(want), old(want <= av.max))
  {
    var c := av.Fill(want);
  }

  method PerformUnshift(av: AV, num: int)
    requires Ready(av)
    modifies av, av.alloc, av.arena
    ensures av.Valid() && Framed(av)
    ensures av.View() == After(old(av.View()), Op.Unshift(num), true)
  {
    if num > 0 {
      UnshiftsAlike(av.View(), num, if av.off > num then num else av.off);
    }
    var c := av.Unshift(num);
  }

  // Perform one operation on a real array.
  method Perform(av: AV, op: Op) returns (ghost fits: bool)
    requires Ready(av) && CanPerform(av.View(), op)
    modifies av, av.alloc, av.arena
    ensures av.Valid() && Framed(av)
    ensures av.View() == After(old(av.View()), op, fits)
  {
    fits := op.Fill? ==> op.want <= av.max;
    match op
    case Store(key, val) => PerformStore(av, key, val);
    case Push(val) => PerformPush(av, val);
    case Pop => PerformPop(av);
    case Shift => PerformShift(av);
    case Unshift(num) => PerformUnshift(av, num);
    case Extend(key) => PerformExtend(av, key);
    case Fill(want) => PerformFill(av, want);
    case Delete(key, discard) => PerformDelete(av, key, discard);
    case Clear => PerformClear(av);
    case Undefine => PerformUndefine(av);
  }

  // Any run of operations, carried out on the array body.  p is where it came to
  // own its elements, 0 for an array that always did and |ops| for one that never
  // does.
  method Run(av: AV, ops: seq<Op>, ghost held: multiset<Sv>) returns (ghost p: nat)
    requires Ready(av) && Conserved(av.View(), held)
    requires EnabledFor(av.isReal, av.elems, held, ops)
    modifies av, av.alloc, av.arena
    ensures av.Valid() && Framed(av)
    ensures p <= |ops| && if old(av.isReal) then av.isReal && p == 0 else av.isReal == (p < |ops|)
    ensures !old(av.isReal) ==> MayLast(old(av.elems), ops, p)
    ensures av.elems == PlainRun(old(av.elems), ops, |ops|)
    ensures Conserved(av.View(), HeldRun(old(av.elems), held, ops, p, |ops|))
  {
    p := RunFrom(av, ops, 0, av.elems, held, 0);
  }

  // A run that has got to i goes on: an array that owns its elements came to do so at
  // p, any other may still come to.
  ghost predicate GoesOn(owned: bool, s: seq<Sv>, held: multiset<Sv>, ops: seq<Op>, p: nat, i: nat) {
    && p <= i <= |ops|
    && if owned then EnabledRun(s, held, ops, p, |ops|)
       else p == i && MayLast(s, ops, i) && EnabledFor(false, s, held, ops)
  }

  lemma NextEnabled(owned: bool, s: seq<Sv>, held: multiset<Sv>, ops: seq<Op>, p: nat, i: nat)
    requires GoesOn(owned, s, held, ops, p, i) && i < |ops|
    ensures EnabledRun(s, held, ops, p, |ops|) && Enabled(HeldRun(s, held, ops, p, i), ops[i])
  {
    assert EnabledAt(s, held, ops, p, i);
  }

  lemma NextGoesOn(owned: bool, s: seq<Sv>, held: multiset<Sv>, ops: seq<Op>, p: nat, i: nat, still: bool)
    requires GoesOn(owned, s, held, ops, p, i) && i < |ops|
    requires !still ==> !owned && !Must(PlainRun(s, ops, i), ops[i])
    ensures GoesOn(still, s, held, ops, if still then p else i + 1, i + 1)
  {
    NextEnabled(owned, s, held, ops, p, i);
  }

  method RunFrom(av: AV, ops: seq<Op>, i: nat, ghost s: seq<Sv>, ghost held: multiset<Sv>, ghost p: nat)
    returns (ghost q: nat)
    requires Ready(av) && GoesOn(av.isReal, s, held, ops, p, i)
    requires av.elems == PlainRun(s, ops, i) && Conserved(av.View(), HeldRun(s, held, ops, p, i))
    modifies av, av.alloc, av.arena
    ensures av.Valid() && Framed(av)
    ensures q <= |ops| && if old(av.isReal) then av.isReal && q == p else av.isReal == (q < |ops|)
    ensures !old(av.isReal) ==> MayLast(s, ops, q)
    ensures av.elems == PlainRun(s, ops, |ops|)
    ensures Conserved(av.View(), HeldRun(s, held, ops, q, |ops|))
    decreases |ops| - i
  {
    q := p;
    if i < |ops| {
      ghost var r := RunNext(av, ops, i, s, held, p);
      q := RunFrom(av, ops, i + 1, s, held, r);
    }
  }

  method RunNext(av: AV, ops: seq<Op>, i: nat, ghost s: seq<Sv>, ghost held: multiset<Sv>, ghost p: nat)
    returns (ghost q: nat)
    requires Ready(av) && i < |ops| && GoesOn(av.isReal, s, held, ops, p, i)
    requires av.elems == PlainRun(s, ops, i) && Conserved(av.View(), HeldRun(s, held, ops, p, i))
    modifies av, av.alloc, av.arena
    ensures Ready(av) && Framed(av) && GoesOn(av.isReal, s, held, ops, q, i + 1)
    ensures av.isReal ==> q == p
    ensures av.isReal || !old(av.isReal)
    ensures av.elems == PlainRun(s, ops, i + 1) && Conserved(av.View(), HeldRun(s, held, ops, q, i + 1))
  {
    ghost var owned := av.isReal;
    NextEnabled(owned, s, held, ops, p, i);
    q := RunOne(av, ops, i, s, held, p);
    NextGoesOn(owned, s, held, ops, p, i, av.isReal);
  }

  method RunOne(av: AV, ops: seq<Op>, i: nat, ghost s: seq<Sv>, ghost held: multiset<Sv>, ghost p: nat)
    returns (ghost q: nat)
    requires Ready(av) && i < |ops| && p <= i && (!av.isReal ==> p == i)
    requires av.elems == PlainRun(s, ops, i) && Conserved(av.View(), HeldRun(s, held, ops, p, i))
    requires Enabled(HeldRun(s, held, ops, p, i), ops[i])
    modifies av, av.alloc, av.arena
    ensures Ready(av) && Framed(av) && q <= i + 1
    ensures if av.isReal then q == p else q == i + 1 && !Must(PlainRun(s, ops, i), ops[i])
    ensures av.isReal || !old(av.isReal)
    ensures av.elems == PlainRun(s, ops, i + 1) && Conserved(av.View(), HeldRun(s, held, ops, q, i + 1))
  {
    ghost var v, h := av.View(), HeldRun(s, held, ops, p, i);
    if ops[i].Store? || ops[i].Push? {
      MayStoreHeld(v, h, ops[i].val);
    }
    ghost var fits := Perform(av, ops[i]);
    Step(v, h, ops[i], fits);
    q := if Owns(v, ops[i], fits) then p else i + 1;
    HeldNext(s, held, ops, p, q, i, Owns(v, ops[i], fits));
  }

  // An array that owns the only reference to its element may give it up and take
  // it back.
  lemma PopThenPush(x: Sv)
    requires x.Ref?
    ensures EnabledFor(true, [x], multiset{}, [Pop, Push(x)])
    ensures HeldRun([x], multiset{}, [Pop, Push(x)], 0, 2) == multiset{}
  {
    var ops := [Pop, Push(x)];
    assert HeldRun([x], multiset{}, ops, 0, 1) == multiset{x};
    assert EnabledAt([x], multiset{}, ops, 0, 0) && EnabledAt([x], multiset{}, ops, 0, 1);
  }
}
