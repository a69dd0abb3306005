// Scalars as an array sees them: opaque references, the immortal placeholder
// &PL_sv_undef, and the table of reference counts.
module Scalars {
  import opened Common

  // A slot of an array body.  `Undef` is &PL_sv_undef, which is immortal and
  // takes no part in the counting; `Null` is a C null pointer.
  datatype Sv = Null | Undef | Ref(id: nat)

  // The table of reference counts: of[sv] is the count of sv, and a scalar
  // whose count is zero is not in it.
  datatype Counts = Counts(of: multiset<Sv>)

  function Inc(c: Counts, sv: Sv): Counts {
    if sv.Ref? then Counts(c.of + multiset{sv}) else c
  }

  function Dec(c: Counts, sv: Sv): Counts {
    if sv.Ref? then Counts(c.of - multiset{sv}) else c
  }

  function Counted(sv: Sv): multiset<Sv> {
    if sv.Ref? then multiset{sv} else multiset{}
  }

  // The references that a counted array with these elements owns.
  function Owned(s: seq<Sv>): multiset<Sv> {
    OwnedTo(s, |s|)
  }

  // Those to the first n of them.
  function OwnedTo(s: seq<Sv>, n: nat): multiset<Sv>
    requires n <= |s|
  {
    if n == 0 then multiset{} else OwnedTo(s, n - 1) + Counted(s[n - 1])
  }

  // One more, or one fewer, reference to each element.
  function Plus(c: Counts, s: seq<Sv>): Counts {
    Counts(c.of + Owned(s))
  }

  function Minus(c: Counts, s: seq<Sv>): Counts {
    Counts(c.of - Owned(s))
  }

  // What a scalar holds, if anything has been assigned to it.
  function ValueOf(value: map<Sv, int>, sv: Sv): Option<int> {
    if sv in value then Some(value[sv]) else None
  }

  function Undefs(n: nat): (s: seq<Sv>)
    ensures |s| == n
    ensures forall i :: 0 <= i < n ==> s[i] == Undef
  {
    seq(n, _ => Undef)
  }

  // How often sv is among the first n of s.
  function Occurrences(s: seq<Sv>, n: nat, sv: Sv): nat
    requires n <= |s|
  {
    if n == 0 then 0 else Occurrences(s, n - 1, sv) + if s[n - 1] == sv then 1 else 0
  }

  // One reference for each occurrence of a counted scalar.
  lemma {:induction false} OwnedOccurrences(s: seq<Sv>, n: nat, sv: Sv)
    requires n <= |s|
    ensures OwnedTo(s, n)[sv] == if sv.Ref? then Occurrences(s, n, sv) else 0
  {
    if n > 0 {
      OwnedOccurrences(s, n - 1, sv);
    }
  }

  lemma {:induction false} Occurs(s: seq<Sv>, n: nat, k: nat)
    requires k < n <= |s|
    ensures Occurrences(s, n, s[k]) > 0
  {
    if k < n - 1 {
      Occurs(s, n - 1, k);
    }
  }

  lemma {:induction false} OwnedToSame(s: seq<Sv>, t: seq<Sv>, n: nat)
    requires n <= |s| && n <= |t| && forall i :: 0 <= i < n ==> s[i] == t[i]
    ensures OwnedTo(s, n) == OwnedTo(t, n)
  {
    if n > 0 {
      OwnedToSame(s, t, n - 1);
    }
  }

  // b lies in s behind the first m elements.
  lemma {:induction false} OwnedJoin(s: seq<Sv>, m: nat, b: seq<Sv>, n: nat)
    requires n <= |b| && m + n <= |s| && forall i :: m <= i < m + n ==> s[i] == b[i - m]
    ensures OwnedTo(s, m + n) == OwnedTo(s, m) + OwnedTo(b, n)
  {
    if n == 0 {
      PlusEmpty(OwnedTo(s, m));
    } else {
      OwnedJoin(s, m, b, n - 1);
      assert s[m + n - 1] == b[n - 1];
      var own, next := OwnedTo(s, m), Counted(b[n - 1]);
      OneMore(OwnedTo(s, m + n), OwnedTo(s, m + n - 1), own, OwnedTo(b, n), OwnedTo(b, n - 1), next);
    }
  }

  lemma OneMore(x: multiset<Sv>, x': multiset<Sv>, a: multiset<Sv>, y: multiset<Sv>, y': multiset<Sv>,
                c: multiset<Sv>)
    requires x == x' + c && y == y' + c && x' == a + y'
    ensures x == a + y
  {
  }

  lemma OwnedConcat(a: seq<Sv>, b: seq<Sv>)
    ensures Owned(a + b) == Owned(a) + Owned(b)
  {
    OwnedToSame(a + b, a, |a|);
    OwnedJoin(a + b, |a|, b, |b|);
  }

  lemma OwnedSnoc(s: seq<Sv>, sv: Sv)
    ensures Owned(s + [sv]) == Owned(s) + Counted(sv)
  {
    OwnedToSame(s + [sv], s, |s|);
  }

  lemma OwnedLast(s: seq<Sv>)
    requires s != []
    ensures Owned(s) == Owned(s[..|s| - 1]) + Counted(s[|s| - 1])
  {
    OwnedToSame(s, s[..|s| - 1], |s| - 1);
  }

  lemma OwnedOne(sv: Sv)
    ensures Owned([sv]) == Counted(sv)
  {
    assert OwnedTo([sv], 0) == multiset{};
  }

  lemma OwnedAt(s: seq<Sv>, k: nat)
    requires k < |s|
    ensures Owned(s) == Owned(s[..k]) + Owned(s[k + 1..]) + Counted(s[k])
  {
    OwnedSplit(s, k);
    OwnedCons(s, k);
    SumOfThree(Owned(s[..k]), Counted(s[k]), Owned(s[k + 1..]));
  }

  lemma OwnedUpdate(s: seq<Sv>, k: nat, v: Sv)
    requires k < |s|
    ensures Counted(s[k]) <= Owned(s)
    ensures Owned(s[k := v]) == Owned(s) - Counted(s[k]) + Counted(v)
  {
    var rest := Owned(s[..k]) + Owned(s[k + 1..]);
    OwnedAt(s, k);
    OwnedAt(s[k := v], k);
    assert s[k := v][..k] == s[..k] && s[k := v][k + 1..] == s[k + 1..];
    PartOfSum(rest, Counted(s[k]));
  }

  lemma OwnedUndefs(n: nat)
    ensures Owned(Undefs(n)) == multiset{}
  {
    OwnedToUndefs(Undefs(n), n);
  }

  lemma {:induction false} OwnedToUndefs(s: seq<Sv>, n: nat)
    requires n <= |s| && forall i :: 0 <= i < n ==> s[i] == Undef
    ensures OwnedTo(s, n) == multiset{}
  {
    if n > 0 {
      OwnedToUndefs(s, n - 1);
    }
  }

  // Splitting off one end.
  lemma OwnedSplit(s: seq<Sv>, k: nat)
    requires k <= |s|
    ensures Owned(s) == Owned(s[..k]) + Owned(s[k..])
  {
    assert s == s[..k] + s[k..];
    OwnedConcat(s[..k], s[k..]);
  }

  lemma OwnedCons(s: seq<Sv>, k: nat)
    requires k < |s|
    ensures Owned(s[k..]) == Counted(s[k]) + Owned(s[k + 1..])
  {
    assert s[k..] == [s[k]] + s[k + 1..];
    OwnedConcat([s[k]], s[k + 1..]);
    OwnedOne(s[k]);
  }

  // ---- small facts about multisets ----

  lemma PlusOne(c: Counts, s: seq<Sv>, sv: Sv)
    ensures Plus(c, s + [sv]) == Inc(Plus(c, s), sv)
  {
    OwnedSnoc(s, sv);
    assert c.of + (Owned(s) + Counted(sv)) == c.of + Owned(s) + Counted(sv);
  }

  lemma PlusEmpty(a: multiset<Sv>)
    ensures a + multiset{} == a
  {
  }

  lemma PlusNone(c: Counts)
    ensures Plus(c, []) == c
  {
    assert c.of + multiset{} == c.of;
  }

  lemma PartOfSum(a: multiset<Sv>, b: multiset<Sv>)
    ensures b <= a + b && a + b - b == a
  {
  }

  lemma SumsAssociate(a: multiset<Sv>, b: multiset<Sv>, c: multiset<Sv>)
    ensures a + b + c == a + (b + c)
    ensures a + b + c == c + (a + b)
    ensures a == multiset{} ==> a + c == c
  {
  }

  lemma SumOfThree(a: multiset<Sv>, b: multiset<Sv>, c: multiset<Sv>)
    ensures a + (b + c) == a + c + b
  {
  }

  lemma SumsPreserveOrder(a: multiset<Sv>, b: multiset<Sv>, c: multiset<Sv>)
    ensures a <= b ==> c + a <= b + c
  {
  }

  lemma DropOneAddOne(refs: multiset<Sv>, own: multiset<Sv>, out: multiset<Sv>, add: multiset<Sv>)
    requires out <= own && own + add <= refs
    ensures own - out + add <= refs - out
  {
  }

  lemma MinusMinus(held: multiset<Sv>, a: multiset<Sv>, b: multiset<Sv>)
    ensures held - a - b == held - (b + a)
  {
  }

  lemma DropNone(refs: multiset<Sv>)
    ensures refs - multiset{} == refs
  {
  }

  // ---- loops that visit every element, last one first ----

  // The counts after taking one more reference to each of s[lo..].
  function Taken(held: Counts, s: seq<Sv>, lo: nat): Counts
    requires lo <= |s|
    decreases |s| - lo
  {
    if lo == |s| then held else Inc(Taken(held, s, lo + 1), s[lo])
  }

  lemma {:induction false} TakenIsPlus(held: Counts, s: seq<Sv>, lo: nat)
    requires lo <= |s|
    ensures Taken(held, s, lo) == Plus(held, s[lo..])
    decreases |s| - lo
  {
    if lo < |s| {
      TakenIsPlus(held, s, lo + 1);
      OwnedCons(s, lo);
      assert held.of + Owned(s[lo + 1..]) + Counted(s[lo]) == held.of + Owned(s[lo..]);
    } else {
      assert s[lo..] == [];
    }
  }

  // The counts after dropping the elements of s from the last one down to lo.
  function Dropped(held: Counts, s: seq<Sv>, lo: nat): Counts
    requires lo <= |s|
    decreases |s| - lo
  {
    if lo == |s| then held else Dec(Dropped(held, s, lo + 1), s[lo])
  }

  lemma {:induction false} DroppedIsMinus(held: Counts, s: seq<Sv>, lo: nat)
    requires lo <= |s|
    ensures Dropped(held, s, lo) == Minus(held, s[lo..])
    decreases |s| - lo
  {
    if lo < |s| {
      DroppedIsMinus(held, s, lo + 1);
      OwnedCons(s, lo);
      MinusMinus(held.of, Owned(s[lo + 1..]), Counted(s[lo]));
    } else {
      assert s[lo..] == [];
      DropNone(held.of);
    }
  }

  lemma AllElements(held: Counts, s: seq<Sv>)
    ensures Taken(held, s, 0) == Plus(held, s)
    ensures Dropped(held, s, 0) == Minus(held, s)
  {
    TakenIsPlus(held, s, 0);
    DroppedIsMinus(held, s, 0);
    assert s[0..] == s;
  }

  // Placeholders from lo on.
  function Wiped(s: seq<Sv>, lo: nat): (r: seq<Sv>)
    requires lo <= |s|
    ensures |r| == |s|
    ensures forall i :: 0 <= i < |s| ==> r[i] == if i < lo then s[i] else Undef
  {
    s[..lo] + Undefs(|s| - lo)
  }

  lemma WipedNone(s: seq<Sv>)
    ensures Wiped(s, |s|) == s
  {
  }

  lemma WipeOne(s: seq<Sv>, k: nat)
    requires k < |s|
    ensures Wiped(s, k + 1)[k := Undef] == Wiped(s, k)
  {
  }

  // Only finitely many heads carry a count, so NEWSV always finds a free one.
  lemma FreeHeadExists(refs: multiset<Sv>) returns (id: nat)
    ensures forall n: nat :: n >= id ==> Ref(n) !in refs
    decreases |refs|
  {
    if refs == multiset{} {
      id := 0;
    } else {
      var x :| x in refs;
      var rest := refs - multiset{x};
      var m := FreeHeadExists(rest);
      id := if x.Ref? && x.id >= m then x.id + 1 else m;
      forall n: nat | n >= id ensures Ref(n) !in refs {
        assert Ref(n) !in rest;
      }
    }
  }

  // The interpreter's scalar heads: reference counts (as a multiset, so that
  // refs[sv] is the count of sv) and the value each scalar holds.
  class Arena {
    var refs: Counts
    var value: map<Sv, int>

    constructor ()
      ensures refs == Counts(multiset{}) && value == map[]
    {
      refs := Counts(multiset{});
      value := map[];
    }

    // A head whose count is zero has type SVTYPEMASK.
    predicate Freed(sv: Sv)
      reads this
    {
      sv.Ref? && sv !in refs.of
    }

    // SvREFCNT_inc; null is passed through, the placeholder is not counted.
    method Increment(sv: Sv)
      modifies this`refs
      ensures refs == Inc(old(refs), sv)
    {
      refs := Inc(refs, sv);
    }

    // SvREFCNT_dec; a head that is already at zero only draws a warning.
    method Decrement(sv: Sv)
      modifies this`refs
      ensures refs == Dec(old(refs), sv)
    {
      refs := Dec(refs, sv);
    }

    // NEWSV: any head with a zero count, which now has one reference.
    method NewSv() returns (sv: Sv)
      modifies this
      ensures sv.Ref? && sv !in old(refs).of
      ensures refs == Inc(old(refs), sv)
      ensures ValueOf(value, sv) == None
      ensures forall x :: x != sv ==> ValueOf(value, x) == ValueOf(old(value), x)
    {
      ghost var bound := FreeHeadExists(refs.of);
      assert Ref(bound) !in refs.of;
      var id: nat :| Ref(id) !in refs.of;
      sv := Ref(id);
      refs := Inc(refs, sv);
      value := value - {sv};
    }

    // sv_setsv: copies a value; an unset source leaves the target unset.
    method SetSv(dst: Sv, src: Sv)
      modifies this`value
      ensures ValueOf(value, dst) == ValueOf(old(value), src)
      ensures forall x :: x != dst ==> ValueOf(value, x) == ValueOf(old(value), x)
    {
      value := if src in value then value[dst := value[src]] else value - {dst};
    }
  }
}
