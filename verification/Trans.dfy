// tr/// on byte strings: do_trans_simple, do_trans_count and the byte branch of
// do_trans_complex, all of them in place.
module Trans {
  import opened Chunks
  import opened Common
  import opened PvBuffer
  import opened Squash

  // What the table says of a byte: at least 0, the byte to write; -1, leave it;
  // -2, delete it.  Entries below -2 drop the byte without counting it.
  predicate IsTable(tbl: seq<int>) {
    |tbl| >= 256
  }

  predicate Counted(entry: int) {
    entry >= 0 || entry == -2
  }

  function Emit(tbl: seq<int>, c: byte): seq<Token<byte>>
    requires IsTable(tbl)
  {
    if tbl[c] >= 0 then [Mapped(tbl[c] % 256)]
    else if tbl[c] == -1 then [Passed(c)]
    else []
  }

  // The first n bytes of s, as tokens.
  function Tokens(tbl: seq<int>, s: seq<byte>, n: nat): seq<Token<byte>>
    requires IsTable(tbl) && n <= |s|
  {
    if n == 0 then [] else Tokens(tbl, s, n - 1) + Emit(tbl, s[n - 1])
  }

  function Matches(tbl: seq<int>, s: seq<byte>, n: nat): nat
    requires IsTable(tbl) && n <= |s|
  {
    if n == 0 then 0 else Matches(tbl, s, n - 1) + if Counted(tbl[s[n - 1]]) then 1 else 0
  }

  // tr/// on a byte string.
  function Translated(tbl: seq<int>, squash: bool, s: seq<byte>): seq<byte>
    requires IsTable(tbl)
  {
    Output(squash, Tokens(tbl, s, |s|))
  }

  function Folded(tbl: seq<int>, s: seq<byte>, n: nat): State<byte>
    requires IsTable(tbl) && n <= |s|
  {
    if n == 0 then State([], None)
    else
      var st, c := Folded(tbl, s, n - 1), s[n - 1];
      if tbl[c] >= 0 then Feed(st, Mapped(tbl[c] % 256))
      else if tbl[c] == -1 then Feed(st, Passed(c))
      else st
  }

  lemma {:induction false} FoldedIsSqueezed(tbl: seq<int>, s: seq<byte>, n: nat)
    requires IsTable(tbl) && n <= |s|
    ensures Folded(tbl, s, n) == Squeezed(Tokens(tbl, s, n))
  {
    if n > 0 {
      FoldedIsSqueezed(tbl, s, n - 1);
      var ts, ch := Tokens(tbl, s, n - 1), tbl[s[n - 1]];
      if ch >= 0 {
        FeedSqueezes(ts, Mapped(ch % 256));
      } else if ch == -1 {
        FeedSqueezes(ts, Passed(s[n - 1]));
      } else {
        assert Tokens(tbl, s, n) == ts;
      }
    }
  }

  // Without /s, as the code does it.
  function Kept(tbl: seq<int>, s: seq<byte>, n: nat): seq<byte>
    requires IsTable(tbl) && n <= |s|
  {
    if n == 0 then []
    else
      var out, c := Kept(tbl, s, n - 1), s[n - 1];
      if tbl[c] >= 0 then out + [tbl[c] % 256]
      else if tbl[c] == -1 then out + [c]
      else out
  }

  lemma PlainEmit(tbl: seq<int>, ts: seq<Token<byte>>, c: byte)
    requires IsTable(tbl)
    ensures Plain(ts + Emit(tbl, c)) ==
      if tbl[c] >= 0 then Plain<byte>(ts) + [tbl[c] % 256]
      else if tbl[c] == -1 then Plain<byte>(ts) + [c] else Plain<byte>(ts)
  {
    if tbl[c] >= 0 {
      PlainSnoc(ts, Mapped(tbl[c] % 256));
    } else if tbl[c] == -1 {
      PlainSnoc(ts, Passed(c));
    } else {
      assert ts + [] == ts;
    }
  }

  lemma {:induction false} KeptIsPlain(tbl: seq<int>, s: seq<byte>, n: nat)
    requires IsTable(tbl) && n <= |s|
    ensures Kept(tbl, s, n) == Plain(Tokens(tbl, s, n))
  {
    if n > 0 {
      KeptIsPlain(tbl, s, n - 1);
      KeptNext(tbl, s, n, Tokens(tbl, s, n - 1), Tokens(tbl, s, n));
    } else {
      assert Plain<byte>([]) == [];
    }
  }

  lemma KeptNext(tbl: seq<int>, s: seq<byte>, n: nat, ts: seq<Token<byte>>, us: seq<Token<byte>>)
    requires IsTable(tbl) && 0 < n <= |s|
    requires us == ts + Emit(tbl, s[n - 1]) && Kept(tbl, s, n - 1) == Plain(ts)
    ensures Kept(tbl, s, n) == Plain(us)
  {
    PlainEmit(tbl, ts, s[n - 1]);
  }

  // ---- the code ----

  // The bytes of was that the read cursor has not reached are still there.
  ghost predicate Unread(a: array<byte>, was: seq<byte>, s: nat)
    reads a
  {
    |was| <= a.Length && forall i :: s <= i < |was| ==> a[i] == was[i]
  }

  // p points at the last byte written exactly when that byte was translated.
  ghost predicate Ends(p: int, st: State<byte>) {
    if p == |st.out| - 1 then |st.out| > 0 && st.last == Some(st.out[p]) else st.last == None
  }

  // Writes a translated byte at d, unless it repeats the one p points at.
  method WriteMapped(a: array<byte>, d: nat, p: int, v: byte, ghost st: State<byte>) returns (d': nat, p': int)
    requires |st.out| == d < a.Length && Holds(a, st.out) && Ends(p, st)
    modifies a
    ensures var st' := Feed(st, Mapped(v)); d' == |st'.out| && Holds(a, st'.out) && Ends(p', st')
    ensures d' <= d + 1 && (p' < d' || p' == p)
    ensures forall i :: d < i < a.Length ==> a[i] == old(a[i])
  {
    a[d] := v;
    if p != d - 1 || a[p] != a[d] {
      p', d' := d, d + 1;
    } else {
      p', d' := p, d;
    }
  }

  // With /s.  p is where the last translated byte was written.
  method SquashBytes(a: array<byte>, send: nat, tbl: seq<int>) returns (d: nat, matches: nat)
    requires IsTable(tbl) && send <= a.Length
    modifies a
    ensures d == |Squeeze(Tokens(tbl, old(a[..send]), send))| <= send
    ensures Holds(a, Squeeze(Tokens(tbl, old(a[..send]), send)))
    ensures matches == Matches(tbl, old(a[..send]), send)
  {
    ghost var was := a[..send];
    var s, p: int := 0, send;
    d, matches := 0, 0;
    while s < send
      modifies a
      invariant d <= s <= send && d == |Folded(tbl, was, s).out|
      invariant Unread(a, was, s) && Holds(a, Folded(tbl, was, s).out)
      invariant matches == Matches(tbl, was, s)
      invariant s < send ==> Ends(p, Folded(tbl, was, s))
      invariant p < d || p == send
    {
      ghost var st := Folded(tbl, was, s);
      var ch := tbl[a[s]];
      if ch >= 0 {
        matches := matches + 1;
        d, p := WriteMapped(a, d, p, ch % 256, st);
      } else if ch == -1 {
        a[d] := a[s];
        d := d + 1;
      } else if ch == -2 {
        matches := matches + 1;
      }
      s := s + 1;
    }
    FoldedIsSqueezed(tbl, was, send);
  }

  method PlainBytes(a: array<byte>, send: nat, tbl: seq<int>) returns (d: nat, matches: nat)
    requires IsTable(tbl) && send <= a.Length
    modifies a
    ensures d == |Plain(Tokens(tbl, old(a[..send]), send))| <= send
    ensures Holds(a, Plain(Tokens(tbl, old(a[..send]), send)))
    ensures matches == Matches(tbl, old(a[..send]), send)
  {
    ghost var was := a[..send];
    var s := 0;
    d, matches := 0, 0;
    while s < send
      modifies a
      invariant d <= s <= send && d == |Kept(tbl, was, s)|
      invariant Unread(a, was, s) && Holds(a, Kept(tbl, was, s))
      invariant matches == Matches(tbl, was, s)
    {
      var ch := tbl[a[s]];
      if ch >= 0 {
        matches := matches + 1;
        a[d] := ch % 256;
        d := d + 1;
      } else if ch == -1 {
        a[d] := a[s];
        d := d + 1;
      } else if ch == -2 {
        matches := matches + 1;
      }
      s := s + 1;
    }
    KeptIsPlain(tbl, was, send);
  }

  // The byte branch of do_trans_complex.
  method Complex(pv: Pv, tbl: seq<int>, squash: bool) returns (matches: nat)
    requires pv.Valid() && IsTable(tbl)
    modifies pv`cur, pv.buf
    ensures pv.Valid() && pv.Terminated()
    ensures pv.Contents() == Translated(tbl, squash, old(pv.Contents()))
    ensures matches == Matches(tbl, old(pv.Contents()), old(pv.cur))
  {
    var d: nat;
    if squash {
      d, matches := SquashBytes(pv.buf, pv.cur, tbl);
    } else {
      d, matches := PlainBytes(pv.buf, pv.cur, tbl);
    }
    pv.buf[d] := 0;
    pv.cur := d;
  }

  // do_trans_simple
  method Simple(pv: Pv, tbl: seq<int>) returns (matches: nat)
    requires pv.Valid() && IsTable(tbl)
    modifies pv.buf
    ensures pv.Valid()
    ensures pv.Contents() == Simplified(tbl, old(pv.Contents()), old(pv.cur))
    ensures matches == SimpleMatches(tbl, old(pv.Contents()), old(pv.cur))
  {
    ghost var was := pv.buf[..pv.cur];
    var s, send := 0, pv.cur;
    matches := 0;
    while s < send
      modifies pv.buf
      invariant s <= send
      invariant Unread(pv.buf, was, s)
      invariant Holds(pv.buf, Simplified(tbl, was, s))
      invariant matches == SimpleMatches(tbl, was, s)
    {
      var ch := tbl[pv.buf[s]];
      if ch >= 0 {
        matches := matches + 1;
        pv.buf[s] := ch % 256;
      }
      s := s + 1;
    }
  }

  function Simply(tbl: seq<int>, c: byte): byte
    requires IsTable(tbl)
  {
    if tbl[c] >= 0 then tbl[c] % 256 else c
  }

  function Simplified(tbl: seq<int>, s: seq<byte>, n: nat): (r: seq<byte>)
    requires IsTable(tbl) && n <= |s|
    ensures |r| == n
    ensures forall i :: 0 <= i < n ==> r[i] == if tbl[s[i]] >= 0 then tbl[s[i]] % 256 else s[i]
  {
    if n == 0 then [] else Simplified(tbl, s, n - 1) + [Simply(tbl, s[n - 1])]
  }

  // do_trans_count and do_trans_simple count the translated bytes only.
  function SimpleMatches(tbl: seq<int>, s: seq<byte>, n: nat): nat
    requires IsTable(tbl) && n <= |s|
  {
    if n == 0 then 0 else SimpleMatches(tbl, s, n - 1) + if tbl[s[n - 1]] >= 0 then 1 else 0
  }

  // do_trans_count
  method Count(s: seq<byte>, tbl: seq<int>) returns (matches: nat)
    requires IsTable(tbl)
    ensures matches == SimpleMatches(tbl, s, |s|)
  {
    var i := 0;
    matches := 0;
    while i < |s|
      invariant i <= |s|
      invariant matches == SimpleMatches(tbl, s, i)
    {
      if tbl[s[i]] >= 0 {
        matches := matches + 1;
      }
      i := i + 1;
    }
  }

  // ---- what tr/// means ----

  lemma {:induction false} FoldedPrefix(tbl: seq<int>, s: seq<byte>, t: seq<byte>, n: nat)
    requires IsTable(tbl) && n <= |s| && n <= |t|
    requires forall i :: 0 <= i < n ==> s[i] == t[i]
    ensures Folded(tbl, s, n) == Folded(tbl, t, n)
  {
    if n > 0 {
      FoldedPrefix(tbl, s, t, n - 1);
    }
  }

  // tr/a-z//s maps what it matches to itself.
  predicate OnlySquashes(tbl: seq<int>)
    requires IsTable(tbl)
  {
    forall c :: 0 <= c < 256 ==> tbl[c] == c || tbl[c] == -1
  }

  lemma {:induction false} FoldedAgain(tbl: seq<int>, s: seq<byte>, n: nat)
    requires IsTable(tbl) && OnlySquashes(tbl) && n <= |s|
    ensures var st := Folded(tbl, s, n); Folded(tbl, st.out, |st.out|) == st
  {
    if n > 0 {
      FoldedAgain(tbl, s, n - 1);
      var was, st := Folded(tbl, s, n - 1), Folded(tbl, s, n);
      if st.out != was.out {
        assert st.out == was.out + [s[n - 1]];
        FoldedPrefix(tbl, was.out, st.out, |was.out|);
      }
    }
  }

  // Squashing a second time changes nothing.
  lemma SquashTwice(tbl: seq<int>, s: seq<byte>)
    requires IsTable(tbl) && OnlySquashes(tbl)
    ensures var r := Translated(tbl, true, s); Translated(tbl, true, r) == r
  {
    FoldedIsSqueezed(tbl, s, |s|);
    FoldedAgain(tbl, s, |s|);
    var r := Translated(tbl, true, s);
    FoldedIsSqueezed(tbl, r, |r|);
  }

  // And no run of a squashed character is left.
  lemma {:induction false} NoRunsLeft(tbl: seq<int>, s: seq<byte>, n: nat, i: nat)
    requires IsTable(tbl) && OnlySquashes(tbl) && n <= |s|
    requires i + 1 < |Folded(tbl, s, n).out|
    ensures var r := Folded(tbl, s, n).out; r[i] == r[i + 1] ==> tbl[r[i]] == -1
  {
    var was, st := Folded(tbl, s, n - 1), Folded(tbl, s, n);
    EndsInLast(tbl, s, n - 1);
    if i + 1 < |was.out| {
      NoRunsLeft(tbl, s, n - 1, i);
    }
  }

  lemma {:induction false} EndsInLast(tbl: seq<int>, s: seq<byte>, n: nat)
    requires IsTable(tbl) && OnlySquashes(tbl) && n <= |s|
    ensures var st := Folded(tbl, s, n);
      |st.out| > 0 && tbl[st.out[|st.out| - 1]] >= 0 ==> st.last == Some(st.out[|st.out| - 1])
  {
    if n > 0 {
      EndsInLast(tbl, s, n - 1);
    }
  }

  // With nothing deleted and nothing squashed, do_trans_complex is do_trans_simple.
  lemma {:induction false} PlainIsSimple(tbl: seq<int>, s: seq<byte>, n: nat)
    requires IsTable(tbl) && n <= |s|
    requires forall c :: 0 <= c < 256 ==> tbl[c] >= -1
    ensures Kept(tbl, s, n) == Simplified(tbl, s, n)
    ensures Matches(tbl, s, n) == SimpleMatches(tbl, s, n)
  {
    if n > 0 {
      PlainIsSimple(tbl, s, n - 1);
    }
  }

  // ---- in terms of the table alone ----

  // How many of the first n bytes have an entry from lo to hi.
  function Entries(tbl: seq<int>, s: seq<byte>, n: nat, lo: int, hi: int): nat
    requires IsTable(tbl) && n <= |s|
  {
    if n == 0 then 0 else Entries(tbl, s, n - 1, lo, hi) + if lo <= tbl[s[n - 1]] <= hi then 1 else 0
  }

  // A byte is a match unless it is left alone.
  lemma {:induction false} MatchesOrStays(tbl: seq<int>, s: seq<byte>, n: nat)
    requires IsTable(tbl) && n <= |s|
    requires forall c :: 0 <= c < 256 ==> tbl[c] >= -2
    ensures Matches(tbl, s, n) + Entries(tbl, s, n, -1, -1) == n
    ensures Matches(tbl, s, n) == SimpleMatches(tbl, s, n) + Entries(tbl, s, n, -2, -2)
  {
    if n > 0 {
      MatchesOrStays(tbl, s, n - 1);
    }
  }

  // Entries below -2 drop bytes that are not counted.
  lemma {:induction false} DroppedUncounted(tbl: seq<int>, s: seq<byte>, n: nat, low: int)
    requires IsTable(tbl) && n <= |s|
    requires low <= -3 && forall c :: 0 <= c < 256 ==> tbl[c] >= low
    ensures Matches(tbl, s, n) + Entries(tbl, s, n, -1, -1) + Entries(tbl, s, n, low, -3) == n
    ensures |Kept(tbl, s, n)| + Entries(tbl, s, n, low, -2) == n
    ensures SimpleMatches(tbl, s, n) + Entries(tbl, s, n, low, -1) == n
  {
    if n > 0 {
      DroppedUncounted(tbl, s, n - 1, low);
    }
  }

  // Without /s every byte that is not dropped is written.
  lemma PlainLength(tbl: seq<int>, s: seq<byte>, low: int)
    requires IsTable(tbl)
    requires low <= -3 && forall c :: 0 <= c < 256 ==> tbl[c] >= low
    ensures |Translated(tbl, false, s)| + Entries(tbl, s, |s|, low, -2) == |s|
  {
    DroppedUncounted(tbl, s, |s|, low);
    KeptIsPlain(tbl, s, |s|);
  }

  // What happens to a byte.
  lemma TranslatedOne(tbl: seq<int>, squash: bool, c: byte)
    requires IsTable(tbl)
    ensures Translated(tbl, squash, [c]) ==
      if tbl[c] >= 0 then [tbl[c] % 256] else if tbl[c] == -1 then [c] else []
    ensures Matches(tbl, [c], 1) == if tbl[c] >= 0 || tbl[c] == -2 then 1 else 0
  {
    assert Matches(tbl, [c], 0) == 0;
    if squash {
      FoldedIsSqueezed(tbl, [c], 1);
      assert Folded(tbl, [c], 0) == State([], None);
    } else {
      KeptIsPlain(tbl, [c], 1);
      assert Kept(tbl, [c], 0) == [];
    }
  }

  lemma {:induction false} KeptPrefix(tbl: seq<int>, s: seq<byte>, t: seq<byte>, n: nat)
    requires IsTable(tbl) && n <= |s| && n <= |t|
    requires forall i :: 0 <= i < n ==> s[i] == t[i]
    ensures Kept(tbl, s, n) == Kept(tbl, t, n)
  {
    if n > 0 {
      KeptPrefix(tbl, s, t, n - 1);
    }
  }

  // Without /s the bytes are translated one by one.
  lemma PlainNext(tbl: seq<int>, s: seq<byte>, c: byte)
    requires IsTable(tbl)
    ensures Translated(tbl, false, s + [c]) == Translated(tbl, false, s) + Translated(tbl, false, [c])
  {
    var t := s + [c];
    KeptPrefix(tbl, s, t, |s|);
    KeptIsPlain(tbl, s, |s|);
    KeptIsPlain(tbl, t, |t|);
    TranslatedOne(tbl, false, c);
  }

  // Only dropped bytes from k on, as far as n.
  predicate OnlyDrops(tbl: seq<int>, s: seq<byte>, k: nat, n: nat)
    requires IsTable(tbl) && n <= |s|
  {
    forall i :: k <= i < n ==> tbl[s[i]] < -1
  }

  lemma {:induction false} DropsChangeNothing(tbl: seq<int>, s: seq<byte>, k: nat, n: nat)
    requires IsTable(tbl) && k <= n <= |s| && OnlyDrops(tbl, s, k, n)
    ensures Folded(tbl, s, n) == Folded(tbl, s, k)
  {
    if k < n {
      DropsChangeNothing(tbl, s, k, n - 1);
    }
  }

  // With /s a byte is dropped when it is translated to what the last byte that was
  // not dropped, at k, was translated to; any other is dealt with as on its own.
  lemma SquashNext(tbl: seq<int>, s: seq<byte>, c: byte, k: nat)
    requires IsTable(tbl) && k < |s| && tbl[s[k]] >= -1 && OnlyDrops(tbl, s, k + 1, |s|)
    ensures var e, ch, was := tbl[s[k]], tbl[c], Translated(tbl, true, s);
      Translated(tbl, true, s + [c]) ==
        if ch >= 0 then
          if e >= 0 && ch % 256 == e % 256 then was else was + [ch % 256]
        else
          if ch == -1 then was + [c] else was
  {
    DropsChangeNothing(tbl, s, k + 1, |s|);
    FoldedAppended(tbl, s, c);
    LastIs(tbl, s, k);
  }

  // What the last byte that was not dropped leaves behind.
  lemma LastIs(tbl: seq<int>, s: seq<byte>, k: nat)
    requires IsTable(tbl) && k < |s| && tbl[s[k]] >= -1
    ensures Folded(tbl, s, k + 1).last == if tbl[s[k]] >= 0 then Some(tbl[s[k]] % 256) else None
  {
  }

  lemma FoldedAppended(tbl: seq<int>, s: seq<byte>, c: byte)
    requires IsTable(tbl)
    ensures Folded(tbl, s, |s|).out == Translated(tbl, true, s)
    ensures var st := Folded(tbl, s, |s|);
      Translated(tbl, true, s + [c]) ==
        if tbl[c] >= 0 then Feed(st, Mapped(tbl[c] % 256)).out
        else if tbl[c] == -1 then st.out + [c] else st.out
  {
    var t := s + [c];
    FoldedPrefix(tbl, s, t, |s|);
    FoldedIsSqueezed(tbl, s, |s|);
    FoldedIsSqueezed(tbl, t, |t|);
  }

  // With nothing but dropped bytes before it, a byte is the first.
  lemma SquashFirst(tbl: seq<int>, s: seq<byte>, c: byte)
    requires IsTable(tbl) && OnlyDrops(tbl, s, 0, |s|)
    ensures Translated(tbl, true, s) == []
    ensures Translated(tbl, true, s + [c]) == Translated(tbl, true, [c])
  {
    DropsChangeNothing(tbl, s, 0, |s|);
    FoldedAppended(tbl, s, c);
    TranslatedOne(tbl, true, c);
    assert Folded(tbl, s, 0) == State([], None);
  }
}
