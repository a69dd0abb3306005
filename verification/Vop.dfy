// do_vop on byte strings: the bitwise operators, a word at a time where they can be.
module Vop {
  import opened BitOps
  import opened Common
  import opened PvBuffer

  // & stops with the shorter string; | and ^ go on to the end of the longer one.
  function Length(op: Op, l: nat, r: nat): nat {
    if op.AND? == (l < r) then l else r
  }

  function OnBytes(op: Op, x: byte, y: byte): byte {
    ByteResult(op, x, y);
    Apply(op, x, y)
  }

  lemma ByteResult(op: Op, x: byte, y: byte)
    ensures Apply(op, x, y) < 256
  {
    Pow2Bytes();
    ApplyBelow(op, x, y, 8);
  }

  function Combined(op: Op, l: seq<byte>, r: seq<byte>): (v: seq<byte>)
    ensures |v| == Length(op, |l|, |r|)
  {
    seq(Length(op, |l|, |r|), i requires i >= 0 => OnBytes(op, At(l, i), At(r, i)))
  }

  // ---- words ----

  // n bytes of s from i on as one number, lowest byte first.
  function Word(s: seq<byte>, i: nat, n: nat): nat
    requires i + n <= |s|
    decreases n
  {
    if n == 0 then 0 else s[i] + 256 * Word(s, i + 1, n - 1)
  }

  lemma ApplyBytes(op: Op, b: byte, a: nat, d: byte, c: nat)
    ensures Apply(op, b + 256 * a, d + 256 * c) == OnBytes(op, b, d) + 256 * Apply(op, a, c)
  {
    Pow2Bytes();
    ShlIsTimes(a, 8);
    ShlIsTimes(c, 8);
    ShlIsTimes(Apply(op, a, c), 8);
    ApplySplits(op, b, a, d, c, 8);
  }

  // An operation on words is the operation on each of their bytes.
  lemma {:induction false} WordIsBytes(op: Op, l: seq<byte>, r: seq<byte>, i: nat, n: nat, k: nat)
    requires i + n <= |l| && i + n <= |r| && k < n
    ensures ByteOf(Apply(op, Word(l, i, n), Word(r, i, n)), k) == OnBytes(op, l[i + k], r[i + k])
    decreases n
  {
    var a, c := Word(l, i + 1, n - 1), Word(r, i + 1, n - 1);
    ApplyBytes(op, l[i], a, r[i], c);
    ByteAbove(OnBytes(op, l[i], r[i]), Apply(op, a, c), k);
    if k > 0 {
      WordIsBytes(op, l, r, i + 1, n - 1, k - 1);
    }
  }

  lemma ByteAbove(b: byte, v: nat, k: nat)
    ensures ByteOf(b + 256 * v, k) == if k == 0 then b else ByteOf(v, k - 1)
  {
    assert (b + 256 * v) % 256 == b && (b + 256 * v) / 256 == v;
  }

  const LONG := 8

  // *dl++ = *ll++ op *rl++
  method WordStep(op: Op, da: array<byte>, la: array<byte>, ra: array<byte>, i: nat)
    requires i + LONG <= da.Length && i + LONG <= la.Length && i + LONG <= ra.Length
    modifies da
    ensures forall k :: i <= k < i + LONG ==> da[k] == OnBytes(op, old(la[k]), old(ra[k]))
    ensures forall k :: 0 <= k < da.Length && !(i <= k < i + LONG) ==> da[k] == old(da[k])
  {
    var l, r := la[i..i + LONG], ra[i..i + LONG];
    var w := Apply(op, Word(l, 0, LONG), Word(r, 0, LONG));
    forall k | i <= k < i + LONG ensures ByteOf(w, k - i) == OnBytes(op, la[k], ra[k]) {
      WordIsBytes(op, l, r, 0, LONG, k - i);
    }
    forall k | i <= k < i + LONG {
      da[k] := ByteOf(w, k - i);
    }
  }

  // What is done up to i and not yet read from there on.
  twostate predicate Done(op: Op, da: array<byte>, la: array<byte>, ra: array<byte>, i: nat)
    reads da, la, ra
  {
    && i <= da.Length && i <= la.Length && i <= ra.Length
    && (forall k :: 0 <= k < i ==> da[k] == OnBytes(op, old(la[k]), old(ra[k])))
    && (forall k :: i <= k < da.Length ==> da[k] == old(da[k]))
    && (la != da ==> forall k :: 0 <= k < la.Length ==> la[k] == old(la[k]))
    && (ra != da ==> forall k :: 0 <= k < ra.Length ==> ra[k] == old(ra[k]))
  }

  // The LIBERAL loop: four words at a time, as often as they fit.
  method WordLoop(op: Op, da: array<byte>, la: array<byte>, ra: array<byte>, n: nat)
    requires n * 4 * LONG <= da.Length && n * 4 * LONG <= la.Length && n * 4 * LONG <= ra.Length
    modifies da
    ensures Done(op, da, la, ra, n * 4 * LONG)
  {
    var len: nat, i := n, 0;
    while len > 0
      modifies da
      invariant len <= n && i == (n - len) * 4 * LONG
      invariant Done(op, da, la, ra, i)
    {
      WordStep(op, da, la, ra, i);
      WordStep(op, da, la, ra, i + LONG);
      WordStep(op, da, la, ra, i + 2 * LONG);
      WordStep(op, da, la, ra, i + 3 * LONG);
      i := i + 4 * LONG;
      len := len - 1;
    }
  }

  // *dc++ = *lc++ op *rc++, from start on.
  method ByteLoop(op: Op, da: array<byte>, la: array<byte>, ra: array<byte>, start: nat, n: nat)
    requires start + n <= da.Length && start + n <= la.Length && start + n <= ra.Length
    modifies da
    ensures forall k :: start <= k < start + n ==> da[k] == OnBytes(op, old(la[k]), old(ra[k]))
    ensures forall k :: 0 <= k < da.Length && !(start <= k < start + n) ==> da[k] == old(da[k])
  {
    var len: nat, i := n, start;
    while len > 0
      modifies da
      invariant len <= n && i == start + n - len
      invariant forall k :: start <= k < i ==> da[k] == OnBytes(op, old(la[k]), old(ra[k]))
      invariant forall k :: 0 <= k < da.Length && !(start <= k < i) ==> da[k] == old(da[k])
    {
      ByteResult(op, la[i], ra[i]);
      da[i] := Apply(op, la[i], ra[i]);
      i := i + 1;
      len := len - 1;
    }
  }

  // Both loops: with every pointer aligned the words come first, the remainder
  // after them.
  method Loops(op: Op, da: array<byte>, la: array<byte>, ra: array<byte>, len: nat, aligned: bool)
    requires len <= da.Length && len <= la.Length && len <= ra.Length
    modifies da
    ensures Done(op, da, la, ra, len)
  {
    if len >= LONG * 4 && aligned {
      var n := len / (LONG * 4);
      WordLoop(op, da, la, ra, n);
      ByteLoop(op, da, la, ra, n * 4 * LONG, len % (LONG * 4));
    } else {
      ByteLoop(op, da, la, ra, 0, len);
    }
  }

  // ---- do_vop ----

  // The target when it is not the left operand: cleared, then len zero bytes and a
  // NUL of room.
  method Cleared(sv: Pv, len: nat)
    requires sv.Valid()
    modifies sv, sv.buf
    ensures sv.Valid() && sv.buf.Length > len && (fresh(sv.buf) || sv.buf == old(sv.buf))
    ensures sv.cur == 0 && sv.buf[len] == 0
  {
    sv.Set([]);
    if sv.cur < len {
      sv.Grow(len + 1);
      forall i | 0 <= i <= len {
        sv.buf[i] := 0;
      }
    }
  }

  // After the loops: the rest of the longer string for | and ^, nothing for &.
  method MopUp(op: Op, sv: Pv, len: nat, rest: seq<byte>)
    requires sv.Valid() && len < sv.buf.Length
    modifies sv, sv.buf
    ensures sv.Valid() && (fresh(sv.buf) || sv.buf == old(sv.buf))
    ensures sv.Contents() == old(sv.buf[..len]) + if op.AND? then [] else rest
    ensures sv.Terminated() <==> !op.AND? || old(sv.buf[len] == 0)
  {
    sv.cur := len;
    if !op.AND? {
      if |rest| > 0 {
        sv.Append(rest);
      } else {
        sv.buf[len] := 0;
      }
    }
  }

  // The operands as do_vop sees them: a target that is the right operand, and not
  // the left one too, has been cleared before it is read.
  function RightOperand(same: bool, r: seq<byte>): seq<byte> {
    if same then [] else r
  }

  lemma CombinedParts(op: Op, l: seq<byte>, r: seq<byte>, v: seq<byte>, rest: seq<byte>)
    requires var len := if |l| < |r| then |l| else |r|;
      && |v| == len && (forall k :: 0 <= k < len ==> v[k] == OnBytes(op, l[k], r[k]))
      && rest == if |r| > len then r[len..] else l[len..]
    ensures Combined(op, l, r) == v + if op.AND? then [] else rest
  {
    var len, c, w := |v|, Combined(op, l, r), v + if op.AND? then [] else rest;
    forall i | 0 <= i < |c| ensures c[i] == w[i] {
      if i >= len {
        ApplyZero(op, At(l, i));
        ApplyZero(op, At(r, i));
      }
    }
  }

  method DoVop(op: Op, sv: Pv, left: Pv, right: Pv, aligned: bool)
    requires sv.Valid() && left.Valid() && right.Valid()
    requires sv != left ==> sv.buf != left.buf
    requires sv != right ==> sv.buf != right.buf
    modifies sv, sv.buf
    ensures sv.Valid()
    ensures sv.Contents() ==
      Combined(op, old(left.Contents()), RightOperand(sv == right && sv != left, old(right.Contents())))
    ensures sv.Terminated() <==>
      !(op.AND? && sv == left && old(left.buf[if right.cur < left.cur then right.cur else left.cur] != 0))
  {
    if sv == left {
      OntoLeft(op, sv, right, aligned);
    } else {
      OntoOther(op, sv, left, right, aligned);
    }
  }

  // sv is left: in place.
  method OntoLeft(op: Op, sv: Pv, right: Pv, aligned: bool)
    requires sv.Valid() && right.Valid()
    requires sv != right ==> sv.buf != right.buf
    modifies sv, sv.buf
    ensures sv.Valid() && (sv != right ==> right.Valid() && right.Contents() == old(right.Contents()))
    ensures sv.Contents() == Combined(op, old(sv.Contents()), old(right.Contents()))
    ensures sv.Terminated() <==>
      !(op.AND? && old(sv.buf[if right.cur < sv.cur then right.cur else sv.cur] != 0))
  {
    ghost var l, r := sv.Contents(), right.Contents();
    var leftlen, rightlen := sv.cur, right.cur;
    var len := if leftlen < rightlen then leftlen else rightlen;
    Loops(op, sv.buf, sv.buf, right.buf, len, aligned);
    var rest := if rightlen > len then right.buf[len..rightlen] else sv.buf[len..leftlen];
    assert rest == if rightlen > len then r[len..] else l[len..];
    CombinedParts(op, l, r, sv.buf[..len], rest);
    MopUp(op, sv, len, rest);
  }

  // sv is not left, but may be right.
  method OntoOther(op: Op, sv: Pv, left: Pv, right: Pv, aligned: bool)
    requires sv.Valid() && left.Valid() && right.Valid()
    requires sv != left && sv.buf != left.buf
    requires sv != right ==> sv.buf != right.buf
    modifies sv, sv.buf
    ensures sv.Valid() && sv.Terminated()
    ensures sv.Contents() == Combined(op, old(left.Contents()), RightOperand(sv == right, old(right.Contents())))
  {
    ghost var l, r := left.Contents(), RightOperand(sv == right, right.Contents());
    var leftlen, rightlen := left.cur, if sv == right then 0 else right.cur;
    var len := if leftlen < rightlen then leftlen else rightlen;
    Cleared(sv, len);
    Loops(op, sv.buf, left.buf, right.buf, len, aligned);
    var rest := if rightlen > len then right.buf[len..rightlen] else left.buf[len..leftlen];
    assert rest == if rightlen > len then r[len..] else l[len..];
    CombinedParts(op, l, r, sv.buf[..len], rest);
    MopUp(op, sv, len, rest);
  }

  // "ab" & "a", onto the left operand: "a" with the b still behind it.
  method AndLeavesNoNul() returns (sv: Pv)
    ensures sv.Valid() && sv.Contents() == [97] && !sv.Terminated()
  {
    sv := new Pv([97, 98]);
    var right := new Pv([97]);
    assert sv.Contents() == sv.buf[..2] && sv.Contents()[1] == sv.buf[1] == 98;
    AndSame(97);
    DoVop(AND, sv, sv, right, false);
  }

  lemma AndSame(x: byte)
    ensures Combined(AND, [x, 98], [x]) == [x]
  {
    Same(x);
  }

  lemma {:induction false} Same(x: nat)
    ensures Apply(AND, x, x) == x
  {
    if x > 0 {
      Same(x / 2);
    }
  }

  // ---- laws ----

  function ZeroPadded(s: seq<byte>, n: nat): seq<byte> {
    if |s| < n then s + seq(n - |s|, _ => 0) else s
  }

  // ^ with the same right operand twice gives the left one back, zero-padded to the
  // longer length.
  lemma XorTwiceIsPadding(l: seq<byte>, r: seq<byte>)
    ensures Combined(XOR, Combined(XOR, l, r), r) == ZeroPadded(l, |r|)
  {
    var once := Combined(XOR, l, r);
    forall i | 0 <= i < |once| ensures Combined(XOR, once, r)[i] == ZeroPadded(l, |r|)[i] {
      XorTwice(At(l, i), At(r, i));
    }
  }

  // Clearing a target that is the right operand is harmless for & when an operand
  // is empty anyway, for | when the right operand sets no bit that the left one has
  // not, for ^ when it is all zero; and neither may be the longer one.
  predicate ClearingIsHarmless(op: Op, l: seq<byte>, r: seq<byte>) {
    match op
    case AND => l == [] || r == []
    case OR => |r| <= |l| && forall i :: 0 <= i < |r| ==> OnBytes(AND, l[i], r[i]) == r[i]
    case XOR => |r| <= |l| && forall i :: 0 <= i < |r| ==> r[i] == 0
  }

  // The result is then, and only then, the one for distinct strings.
  lemma RightAlias(op: Op, l: seq<byte>, r: seq<byte>)
    ensures Combined(op, l, RightOperand(true, r)) == Combined(op, l, r) <==> ClearingIsHarmless(op, l, r)
  {
    if !op.AND? {
      KeepsLeft(op, l);
      if |r| <= |l| {
        forall i | 0 <= i < |r| ensures OnBytes(op, l[i], r[i]) == l[i] <==> Absorbed(op, l[i], r[i]) {
          Absorbs(l[i], r[i]);
        }
        forall i | |r| <= i < |l| ensures OnBytes(op, l[i], 0) == l[i] {
          ApplyZero(op, l[i]);
        }
        AgreesWithLeft(op, l, r);
      }
    }
  }

  predicate Absorbed(op: Op, x: byte, y: byte) {
    if op.OR? then OnBytes(AND, x, y) == y else y == 0
  }

  // With an empty right operand | and ^ give the left one.
  lemma KeepsLeft(op: Op, l: seq<byte>)
    requires !op.AND?
    ensures Combined(op, l, []) == l
  {
    forall i | 0 <= i < |l| ensures Combined(op, l, [])[i] == l[i] {
      ApplyZero(op, l[i]);
    }
  }

  lemma AgreesWithLeft(op: Op, l: seq<byte>, r: seq<byte>)
    requires !op.AND? && |r| <= |l| && forall i :: |r| <= i < |l| ==> OnBytes(op, l[i], 0) == l[i]
    ensures Combined(op, l, r) == l <==> forall i :: 0 <= i < |r| ==> OnBytes(op, l[i], r[i]) == l[i]
  {
    var c := Combined(op, l, r);
    if c == l {
      forall i | 0 <= i < |r| ensures OnBytes(op, l[i], r[i]) == l[i] {
        assert c[i] == l[i];
      }
    }
  }

  // The right operand 1 counts for nothing.
  lemma RightAliasShows()
    ensures Combined(XOR, [1], RightOperand(true, [1])) == [1] && Combined(XOR, [1], [1]) == [0]
  {
    assert Combined(XOR, [1], [])[0] == 1 && Combined(XOR, [1], [1])[0] == 0;
  }
}
