// The UTF-8 branch of do_trans_complex, writing into a buffer of its own, and how
// it compares with the byte branch.
module TransUtf8 {
  import opened Common
  import opened PvBuffer
  import opened Chunks
  import opened Utf8
  import opened Squash
  import Trans

  datatype Flags = Flags(squash: bool, complement: bool, del: bool)

  // With /c and no /d the table goes on: entry 0x100 says how many replacements
  // for the code points above 0xFF follow it.
  function Extra(tbl: seq<int>, f: Flags): int
    requires |tbl| >= 256
    requires f.complement && !f.del ==> |tbl| > 256
  {
    if f.complement && !f.del then tbl[0x100] else 0
  }

  // Entries are shorts.  The ones for ASCII stay below 0x800: that, and no more, is
  // what a buffer of twice the length needs.
  predicate IsWideTable(tbl: seq<int>, f: Flags) {
    && |tbl| >= 256
    && (forall i :: 0 <= i < 256 ==> tbl[i] < 0x8000)
    && (forall i :: 0 <= i < 0x80 ==> tbl[i] < 0x800)
    && (f.complement && !f.del ==>
          && |tbl| > 256 && 0 <= tbl[0x100] < |tbl| - 0x100
          && forall i :: 0x100 <= i <= 0x100 + tbl[0x100] ==> 0 <= tbl[i] < 0x8000)
  }

  // A code point assigned to an I32 and read as a UV again.
  function AsI32(c: cp): cp {
    var low := c % 0x1_0000_0000;
    if low < 0x8000_0000 then low else low + 0xFFFF_FFFF_0000_0000
  }

  // What a code point above 0xFF is translated to under /c.  Without replacements
  // /s means to leave it as it is, but it goes through an I32; otherwise the entry
  // after the last one is read, which is then the count itself, 0.
  function Replacement(tbl: seq<int>, f: Flags, c: cp): cp
    requires IsWideTable(tbl, f) && f.complement && !f.del && c > 0xFF
  {
    var rlen := tbl[0x100];
    if f.squash && rlen == 0 then AsI32(c)
    else if c - 0x100 < rlen then tbl[c + 1]
    else tbl[0x100 + rlen]
  }

  // Without replacements /s leaves a code point as it is exactly below 2^31.
  lemma LeftAsItIs(tbl: seq<int>, f: Flags, c: cp)
    requires IsWideTable(tbl, f) && f.complement && !f.del && c > 0xFF
    requires f.squash && tbl[0x100] == 0
    ensures Replacement(tbl, f, c) == c <==> c < 0x8000_0000 || c >= 0xFFFF_FFFF_8000_0000
  {
  }

  function Emit(tbl: seq<int>, f: Flags, c: cp): Token<cp>
    requires IsWideTable(tbl, f)
  {
    if c > 0xFF then
      if !f.complement then Passed(c)
      else if f.del then Gap
      else Mapped(Replacement(tbl, f, c))
    else if tbl[c] >= 0 then Mapped(tbl[c])
    else if tbl[c] == -1 then Passed(c)
    else Gap
  }

  function Step(squash: bool, st: State<cp>, t: Token<cp>): State<cp> {
    if squash then Feed(st, t)
    else State(if t.Gap? then st.out else st.out + [t.v], None)
  }

  // The first n code points of cs, translated.
  function Folded(tbl: seq<int>, f: Flags, cs: seq<cp>, n: nat): State<cp>
    requires IsWideTable(tbl, f) && n <= |cs|
  {
    if n == 0 then State([], None)
    else Step(f.squash, Folded(tbl, f, cs, n - 1), Emit(tbl, f, cs[n - 1]))
  }

  // tr/// on code points.
  function Translated(tbl: seq<int>, f: Flags, cs: seq<cp>): seq<cp>
    requires IsWideTable(tbl, f)
  {
    Folded(tbl, f, cs, |cs|).out
  }

  // Did the character count as a match?
  predicate Counted(tbl: seq<int>, f: Flags, c: cp)
    requires IsWideTable(tbl, f)
  {
    if c > 0xFF then f.complement else Trans.Counted(tbl[c])
  }

  function Matches(tbl: seq<int>, f: Flags, cs: seq<cp>, n: nat): nat
    requires IsWideTable(tbl, f) && n <= |cs|
  {
    if n == 0 then 0
    else Matches(tbl, f, cs, n - 1) + if Counted(tbl, f, cs[n - 1]) then 1 else 0
  }

  // ---- the code ----

  lemma EncodeSnoc(cs: seq<cp>, c: cp)
    ensures Encode(cs + [c]) == Encode(cs) + Enc(c)
  {
    ConcatSame(Encoded(cs + [c]), Encoded(cs), |cs|);
  }

  // out lies in a up to d.
  ghost predicate Wrote(a: array<byte>, d: nat, out: seq<byte>)
    reads a
  {
    d <= a.Length && a[..d] == out
  }

  // uvchr_to_utf8, and Copy of a character that is left alone.
  method PutChar(dst: array<byte>, d: nat, bytes: seq<byte>, ghost out: seq<cp>, ghost c: cp) returns (d': nat)
    requires Wrote(dst, d, Encode(out))
    requires bytes == Enc(c) && d + |bytes| <= dst.Length
    modifies dst
    ensures Wrote(dst, d', Encode(out + [c])) && d' == d + |bytes|
  {
    ghost var was := dst[..d];
    EncodeSnoc(out, c);
    d' := PutBytes(dst, d, bytes, was);
    assert dst[..d'] == was + bytes;
  }

  // No code point.
  const NO_CHAR := 0xFEED_FACE

  // pch holds the last translation, and no translation looks like none.
  predicate IsPch(pch: int, last: Option<cp>) {
    match last
    case None => pch == NO_CHAR
    case Some(v) => pch == v && v != NO_CHAR
  }

  // With /s: writes a translation unless it is the one just made.
  method PutMapped(dst: array<byte>, d: nat, pch: int, v: cp, ghost st: State<cp>) returns (d': nat, pch': int)
    requires Wrote(dst, d, Encode(st.out)) && IsPch(pch, st.last)
    requires v != NO_CHAR && d + |Enc(v)| <= dst.Length
    modifies dst
    ensures var st' := Feed(st, Mapped(v));
      Wrote(dst, d', Encode(st'.out)) && d' <= d + |Enc(v)| && IsPch(pch', st'.last)
  {
    d', pch' := d, v;
    if v != pch {
      d' := PutChar(dst, d, Enc(v), st.out, v);
    }
  }

  // Reading the next character of the source.
  method NextChar(src: array<byte>, send: nat, s: nat, ghost cs: seq<cp>, ghost chars: seq<chunk>, ghost n: nat)
    returns (c: cp, len: nat)
    requires send <= src.Length && src[..send] == Encode(cs)
    requires chars == Encoded(cs) && n <= |cs| && s == |Concat(chars, n)| && s < send
    ensures n < |cs| && c == cs[n] && len == |Enc(c)|
    ensures s + len == |Concat(chars, n + 1)| <= send && src[s..s + len] == Enc(c)
  {
    ChunkPlace(Encoded(cs), n, |cs|);
    CharAtEnc(src[..send], s, cs[n]);
    c := CharAt(src[..send], s);
    len := Skip(src[s]);
    SliceOfTake(src[..], send, s, s + len);
  }

  lemma SliceOfTake(a: seq<byte>, n: nat, i: nat, j: nat)
    requires i <= j <= n <= |a|
    ensures a[..n][i..j] == a[i..j]
  {
  }

  lemma AllRead(cs: seq<cp>, n: nat)
    requires n <= |cs| && |Concat(Encoded(cs), n)| >= |Encode(cs)|
    ensures n == |cs|
  {
    if n < |cs| {
      ChunkPlace(Encoded(cs), n, |cs|);
    }
  }

  // A code point through an I32 takes at most twice the room: from 2^31 on there are
  // seven bytes already.
  lemma AsI32Fits(c: cp)
    ensures Length(AsI32(c)) <= 2 * Length(c) && AsI32(c) != NO_CHAR
  {
    if c < 0x8000_0000 {
      assert AsI32(c) == c;
    } else {
      assert Length(c) >= 7;
    }
  }

  lemma ShortFits(v: cp, c: cp)
    requires v < 0x8000 && (c < 0x80 ==> v < 0x800)
    ensures Length(v) <= 2 * Length(c)
  {
  }

  lemma Fits(tbl: seq<int>, f: Flags, c: cp)
    requires IsWideTable(tbl, f) && !Emit(tbl, f, c).Gap?
    ensures |Enc(Emit(tbl, f, c).v)| <= 2 * |Enc(c)|
    ensures Emit(tbl, f, c).Mapped? ==> Emit(tbl, f, c).v != NO_CHAR
  {
    var t := Emit(tbl, f, c);
    if t.Mapped? {
      if c > 0xFF && f.squash && tbl[0x100] == 0 {
        AsI32Fits(c);
      } else {
        ShortFits(t.v, c);
      }
    }
  }

  // One character above 0xFF, with /s.
  method SquashHigh(dst: array<byte>, d: nat, pch: int, c: cp, bytes: seq<byte>,
                    tbl: seq<int>, f: Flags, ghost st: State<cp>)
    returns (d': nat, pch': int, hit: bool)
    requires Wrote(dst, d, Encode(st.out)) && IsPch(pch, st.last)
    requires IsWideTable(tbl, f) && f.squash && c > 0xFF
    requires bytes == Enc(c) && d + 2 * |bytes| <= dst.Length
    modifies dst
    ensures var st' := Feed(st, Emit(tbl, f, c));
      Wrote(dst, d', Encode(st'.out)) && d' <= d + 2 * |bytes| && IsPch(pch', st'.last)
    ensures hit == Counted(tbl, f, c)
  {
    var rlen := Extra(tbl, f);
    hit, d', pch' := f.complement, d, NO_CHAR;
    if !f.complement {
      d' := PutChar(dst, d, bytes, st.out, c);
    } else if !f.del {
      var ch := if rlen == 0 then AsI32(c) else if c - 0x100 < rlen then tbl[c + 1] else tbl[0x100 + rlen];
      Fits(tbl, f, c);
      d', pch' := PutMapped(dst, d, pch, ch, st);
    }
  }

  // One character up to 0xFF, with /s.
  method SquashLow(dst: array<byte>, d: nat, pch: int, c: cp, bytes: seq<byte>,
                   tbl: seq<int>, f: Flags, ghost st: State<cp>)
    returns (d': nat, pch': int, hit: bool)
    requires Wrote(dst, d, Encode(st.out)) && IsPch(pch, st.last)
    requires IsWideTable(tbl, f) && f.squash && c <= 0xFF
    requires bytes == Enc(c) && d + 2 * |bytes| <= dst.Length
    modifies dst
    ensures var st' := Feed(st, Emit(tbl, f, c));
      Wrote(dst, d', Encode(st'.out)) && d' <= d + 2 * |bytes| && IsPch(pch', st'.last)
    ensures hit == Counted(tbl, f, c)
  {
    var ch := tbl[c];
    hit, d', pch' := false, d, NO_CHAR;
    if ch >= 0 {
      hit := true;
      Fits(tbl, f, c);
      d', pch' := PutMapped(dst, d, pch, ch, st);
    } else if ch == -1 {
      d' := PutChar(dst, d, bytes, st.out, c);
    } else if ch == -2 {
      hit := true;
    }
  }

  method SquashChar(dst: array<byte>, d: nat, pch: int, c: cp, bytes: seq<byte>,
                    tbl: seq<int>, f: Flags, ghost st: State<cp>)
    returns (d': nat, pch': int, hit: bool)
    requires Wrote(dst, d, Encode(st.out)) && IsPch(pch, st.last)
    requires IsWideTable(tbl, f) && f.squash
    requires bytes == Enc(c) && d + 2 * |bytes| <= dst.Length
    modifies dst
    ensures var st' := Feed(st, Emit(tbl, f, c));
      Wrote(dst, d', Encode(st'.out)) && d' <= d + 2 * |bytes| && IsPch(pch', st'.last)
    ensures hit == Counted(tbl, f, c)
  {
    if c > 0xFF {
      d', pch', hit := SquashHigh(dst, d, pch, c, bytes, tbl, f, st);
    } else {
      d', pch', hit := SquashLow(dst, d, pch, c, bytes, tbl, f, st);
    }
  }

  // How far the first n characters of the source have been dealt with.
  ghost predicate ReadUpTo(src: array<byte>, send: nat, s: nat, cs: seq<cp>, chars: seq<chunk>, n: nat)
    reads src
  {
    && send <= src.Length && src[..send] == Encode(cs) && chars == Encoded(cs)
    && n <= |cs| && s == |Concat(chars, n)| <= send
  }

  method SquashNext(src: array<byte>, send: nat, s: nat, dst: array<byte>, d: nat, pch: int,
                    tbl: seq<int>, f: Flags, ghost cs: seq<cp>, ghost chars: seq<chunk>, ghost n: nat)
    returns (s': nat, d': nat, pch': int, hit: bool)
    requires ReadUpTo(src, send, s, cs, chars, n) && s < send && src != dst
    requires IsWideTable(tbl, f) && f.squash
    requires dst.Length > 2 * send && d <= 2 * s
    requires Wrote(dst, d, Encode(Folded(tbl, f, cs, n).out)) && IsPch(pch, Folded(tbl, f, cs, n).last)
    modifies dst
    ensures n < |cs| && ReadUpTo(src, send, s', cs, chars, n + 1) && d' <= 2 * s'
    ensures Wrote(dst, d', Encode(Folded(tbl, f, cs, n + 1).out)) && IsPch(pch', Folded(tbl, f, cs, n + 1).last)
    ensures Matches(tbl, f, cs, n + 1) == Matches(tbl, f, cs, n) + if hit then 1 else 0
  {
    ghost var st := Folded(tbl, f, cs, n);
    var c, len := NextChar(src, send, s, cs, chars, n);
    d', pch', hit := SquashChar(dst, d, pch, c, src[s..s + len], tbl, f, st);
    s' := s + len;
    assert Folded(tbl, f, cs, n + 1) == Feed(st, Emit(tbl, f, c));
  }

  method SquashChars(src: array<byte>, send: nat, tbl: seq<int>, f: Flags, ghost cs: seq<cp>)
    returns (dst: array<byte>, d: nat, matches: nat)
    requires send <= src.Length && src[..send] == Encode(cs)
    requires IsWideTable(tbl, f) && f.squash
    ensures Wrote(dst, d, Encode(Translated(tbl, f, cs)))
    ensures matches == Matches(tbl, f, cs, |cs|)
  {
    dst := new byte[send * 2 + 1];
    ghost var chars, n := Encoded(cs), 0;
    var s, pch := 0, NO_CHAR;
    d, matches := 0, 0;
    while s < send
      modifies dst
      invariant ReadUpTo(src, send, s, cs, chars, n)
      invariant d <= 2 * s && Wrote(dst, d, Encode(Folded(tbl, f, cs, n).out))
      invariant IsPch(pch, Folded(tbl, f, cs, n).last)
      invariant matches == Matches(tbl, f, cs, n)
    {
      var hit: bool;
      s, d, pch, hit := SquashNext(src, send, s, dst, d, pch, tbl, f, cs, chars, n);
      matches := matches + if hit then 1 else 0;
      n := n + 1;
    }
    AllRead(cs, n);
  }

  // One character, without /s.
  method PlainChar(dst: array<byte>, d: nat, c: cp, bytes: seq<byte>, tbl: seq<int>, f: Flags, ghost st: State<cp>)
    returns (d': nat, hit: bool)
    requires Wrote(dst, d, Encode(st.out))
    requires IsWideTable(tbl, f) && !f.squash
    requires bytes == Enc(c) && d + 2 * |bytes| <= dst.Length
    modifies dst
    ensures var st' := Step(false, st, Emit(tbl, f, c));
      Wrote(dst, d', Encode(st'.out)) && d' <= d + 2 * |bytes|
    ensures hit == Counted(tbl, f, c)
  {
    if c > 0xFF {
      d', hit := PlainHigh(dst, d, c, bytes, tbl, f, st);
    } else {
      d', hit := PlainLow(dst, d, c, bytes, tbl, f, st);
    }
  }

  method PlainHigh(dst: array<byte>, d: nat, c: cp, bytes: seq<byte>, tbl: seq<int>, f: Flags, ghost st: State<cp>)
    returns (d': nat, hit: bool)
    requires Wrote(dst, d, Encode(st.out))
    requires IsWideTable(tbl, f) && !f.squash && c > 0xFF
    requires bytes == Enc(c) && d + 2 * |bytes| <= dst.Length
    modifies dst
    ensures var st' := Step(false, st, Emit(tbl, f, c));
      Wrote(dst, d', Encode(st'.out)) && d' <= d + 2 * |bytes|
    ensures hit == Counted(tbl, f, c)
  {
    var rlen := Extra(tbl, f);
    d', hit := d, f.complement;
    if !f.complement {
      d' := PutChar(dst, d, bytes, st.out, c);
    } else if !f.del {
      var ch := if c - 0x100 < rlen then tbl[c + 1] else tbl[0x100 + rlen];
      Fits(tbl, f, c);
      d' := PutChar(dst, d, Enc(ch), st.out, ch);
    }
  }

  method PlainLow(dst: array<byte>, d: nat, c: cp, bytes: seq<byte>, tbl: seq<int>, f: Flags, ghost st: State<cp>)
    returns (d': nat, hit: bool)
    requires Wrote(dst, d, Encode(st.out))
    requires IsWideTable(tbl, f) && !f.squash && c <= 0xFF
    requires bytes == Enc(c) && d + 2 * |bytes| <= dst.Length
    modifies dst
    ensures var st' := Step(false, st, Emit(tbl, f, c));
      Wrote(dst, d', Encode(st'.out)) && d' <= d + 2 * |bytes|
    ensures hit == Counted(tbl, f, c)
  {
    var ch := tbl[c];
    d', hit := d, false;
    if ch >= 0 {
      Fits(tbl, f, c);
      d' := PutChar(dst, d, Enc(ch), st.out, ch);
      hit := true;
    } else if ch == -1 {
      d' := PutChar(dst, d, bytes, st.out, c);
    } else if ch == -2 {
      hit := true;
    }
  }

  method PlainNext(src: array<byte>, send: nat, s: nat, dst: array<byte>, d: nat,
                   tbl: seq<int>, f: Flags, ghost cs: seq<cp>, ghost chars: seq<chunk>, ghost n: nat)
    returns (s': nat, d': nat, hit: bool)
    requires ReadUpTo(src, send, s, cs, chars, n) && s < send && src != dst
    requires IsWideTable(tbl, f) && !f.squash
    requires dst.Length > 2 * send && d <= 2 * s
    requires Wrote(dst, d, Encode(Folded(tbl, f, cs, n).out))
    modifies dst
    ensures n < |cs| && ReadUpTo(src, send, s', cs, chars, n + 1) && d' <= 2 * s'
    ensures Wrote(dst, d', Encode(Folded(tbl, f, cs, n + 1).out))
    ensures Matches(tbl, f, cs, n + 1) == Matches(tbl, f, cs, n) + if hit then 1 else 0
  {
    ghost var st := Folded(tbl, f, cs, n);
    var c, len := NextChar(src, send, s, cs, chars, n);
    d', hit := PlainChar(dst, d, c, src[s..s + len], tbl, f, st);
    s' := s + len;
    assert Folded(tbl, f, cs, n + 1) == Step(false, st, Emit(tbl, f, c));
  }

  method PlainChars(src: array<byte>, send: nat, tbl: seq<int>, f: Flags, ghost cs: seq<cp>)
    returns (dst: array<byte>, d: nat, matches: nat)
    requires send <= src.Length && src[..send] == Encode(cs)
    requires IsWideTable(tbl, f) && !f.squash
    ensures Wrote(dst, d, Encode(Translated(tbl, f, cs)))
    ensures matches == Matches(tbl, f, cs, |cs|)
  {
    dst := new byte[send * 2 + 1];
    ghost var chars, n := Encoded(cs), 0;
    var s := 0;
    d, matches := 0, 0;
    while s < send
      modifies dst
      invariant ReadUpTo(src, send, s, cs, chars, n)
      invariant d <= 2 * s && Wrote(dst, d, Encode(Folded(tbl, f, cs, n).out))
      invariant matches == Matches(tbl, f, cs, n)
    {
      var hit: bool;
      s, d, hit := PlainNext(src, send, s, dst, d, tbl, f, cs, chars, n);
      matches := matches + if hit then 1 else 0;
      n := n + 1;
    }
    AllRead(cs, n);
  }

  // The UTF-8 branch of do_trans_complex when the result may grow.
  method Complex(pv: Pv, tbl: seq<int>, f: Flags, ghost cs: seq<cp>) returns (matches: nat)
    requires pv.Valid() && pv.Contents() == Encode(cs) && IsWideTable(tbl, f)
    modifies pv, pv.buf
    ensures pv.Valid() && pv.Terminated()
    ensures pv.Contents() == Encode(Translated(tbl, f, cs))
    ensures matches == Matches(tbl, f, cs, |cs|)
  {
    var dst, d;
    if f.squash {
      dst, d, matches := SquashChars(pv.buf, pv.cur, tbl, f, cs);
    } else {
      dst, d, matches := PlainChars(pv.buf, pv.cur, tbl, f, cs);
    }
    pv.Set(dst[..d]);
  }

  // ---- the two branches compared ----

  // The byte branch stores entries in a byte; these are the ones it stores whole.
  predicate Narrow(tbl: seq<int>) {
    |tbl| >= 256 && forall i :: 0 <= i < 256 ==> tbl[i] < 256
  }

  // Deletions, and entries below -2, end a run in the UTF-8 branch only.
  predicate Drops(tbl: seq<int>)
    requires |tbl| >= 256
  {
    exists c :: 0 <= c < 256 && tbl[c] < -1
  }

  predicate Maps(tbl: seq<int>)
    requires |tbl| >= 256
  {
    exists c :: 0 <= c < 256 && tbl[c] >= 0
  }

  function Wide(s: seq<byte>): seq<cp> {
    s
  }

  lemma {:induction false} MatchesAgree(tbl: seq<int>, f: Flags, s: seq<byte>, n: nat)
    requires IsWideTable(tbl, f) && n <= |s|
    ensures Matches(tbl, f, Wide(s), n) == Trans.Matches(tbl, s, n)
  {
    if n > 0 {
      MatchesAgree(tbl, f, s, n - 1);
    }
  }

  ghost predicate SameLast(a: Option<cp>, b: Option<byte>) {
    match a
    case None => b.None?
    case Some(v) => b.Some? && b.value == v
  }

  lemma {:induction false} SquashAgrees(tbl: seq<int>, f: Flags, s: seq<byte>, n: nat)
    requires IsWideTable(tbl, f) && Narrow(tbl) && f.squash && n <= |s|
    requires !Drops(tbl) || !Maps(tbl)
    ensures Folded(tbl, f, Wide(s), n).out == Trans.Folded(tbl, s, n).out
    ensures SameLast(Folded(tbl, f, Wide(s), n).last, Trans.Folded(tbl, s, n).last)
    ensures !Maps(tbl) ==> Trans.Folded(tbl, s, n).last == None
  {
    if n > 0 {
      SquashAgrees(tbl, f, s, n - 1);
    }
  }

  lemma {:induction false} PlainAgrees(tbl: seq<int>, f: Flags, s: seq<byte>, n: nat)
    requires IsWideTable(tbl, f) && Narrow(tbl) && !f.squash && n <= |s|
    ensures Folded(tbl, f, Wide(s), n).out == Trans.Kept(tbl, s, n)
  {
    if n > 0 {
      PlainAgrees(tbl, f, s, n - 1);
    }
  }

  lemma Agrees(tbl: seq<int>, f: Flags, s: seq<byte>)
    requires IsWideTable(tbl, f) && Narrow(tbl)
    requires !f.squash || !Drops(tbl) || !Maps(tbl)
    ensures Translated(tbl, f, Wide(s)) == Trans.Translated(tbl, f.squash, s)
  {
    if f.squash {
      SquashAgrees(tbl, f, s, |s|);
      Trans.FoldedIsSqueezed(tbl, s, |s|);
    } else {
      PlainAgrees(tbl, f, s, |s|);
      Trans.KeptIsPlain(tbl, s, |s|);
    }
  }

  // A dropped byte between two translated ones: one result in the byte branch, two
  // in the UTF-8 branch.
  lemma Disagrees(tbl: seq<int>, f: Flags, m: byte, x: byte)
    requires IsWideTable(tbl, f) && Narrow(tbl) && f.squash
    requires tbl[m] >= 0 && tbl[x] < -1
    ensures Trans.Translated(tbl, true, [m, x, m]) == [tbl[m]]
    ensures Translated(tbl, f, Wide([m, x, m])) == [tbl[m], tbl[m]]
  {
    var s := [m, x, m];
    ByteRuns(tbl, s);
    WideRuns(tbl, f, s);
    Trans.FoldedIsSqueezed(tbl, s, 3);
  }

  lemma ByteRuns(tbl: seq<int>, s: seq<byte>)
    requires Narrow(tbl) && |s| == 3 && s[0] == s[2] && tbl[s[0]] >= 0 && tbl[s[1]] < -1
    ensures Trans.Folded(tbl, s, 3).out == [tbl[s[0]]]
  {
    var v := tbl[s[0]];
    assert Trans.Folded(tbl, s, 0) == State([], None);
    assert Trans.Folded(tbl, s, 1) == State([v], Some(v));
    assert Trans.Folded(tbl, s, 2) == State([v], Some(v));
  }

  lemma WideRuns(tbl: seq<int>, f: Flags, s: seq<byte>)
    requires IsWideTable(tbl, f) && f.squash && |s| == 3 && s[0] == s[2] && tbl[s[0]] >= 0 && tbl[s[1]] < -1
    ensures Translated(tbl, f, Wide(s)) == [tbl[s[0]], tbl[s[0]]]
  {
    var v := tbl[s[0]];
    assert Folded(tbl, f, Wide(s), 0) == State([], None);
    assert Folded(tbl, f, Wide(s), 1) == State([v], Some(v));
    assert Folded(tbl, f, Wide(s), 2) == State([v], None);
  }

  // For strings of code points below 0x100 the UTF-8 branch gives the byte branch's
  // result on every string exactly when nothing is squashed, nothing is dropped or
  // nothing is translated.
  lemma BranchesAgree(tbl: seq<int>, f: Flags)
    requires IsWideTable(tbl, f) && Narrow(tbl)
    ensures (forall s: seq<byte> :: Translated(tbl, f, Wide(s)) == Trans.Translated(tbl, f.squash, s))
      <==> !f.squash || !Drops(tbl) || !Maps(tbl)
  {
    if !f.squash || !Drops(tbl) || !Maps(tbl) {
      forall s: seq<byte> ensures Translated(tbl, f, Wide(s)) == Trans.Translated(tbl, f.squash, s) {
        Agrees(tbl, f, s);
      }
    } else {
      var x: byte :| tbl[x] < -1;
      var m: byte :| tbl[m] >= 0;
      Disagrees(tbl, f, m, x);
      assert Translated(tbl, f, Wide([m, x, m])) != Trans.Translated(tbl, f.squash, [m, x, m]);
    }
  }

  // In terms of the bytes written: what the UTF-8 branch leaves decodes to the byte
  // branch's result.
  lemma ResultDecodes(tbl: seq<int>, f: Flags, s: seq<byte>)
    requires IsWideTable(tbl, f) && Narrow(tbl)
    requires !f.squash || !Drops(tbl) || !Maps(tbl)
    ensures Decode(Encode(Translated(tbl, f, Wide(s))), 0) == Some(Trans.Translated(tbl, f.squash, s))
  {
    Agrees(tbl, f, s);
    DecodeEncode(Translated(tbl, f, Wide(s)));
  }

  // ---- in terms of the table alone ----

  // Without /c a code point above 0xFF stays; with /cd it is deleted; with /c alone it
  // is translated.
  lemma HighOne(tbl: seq<int>, f: Flags, c: cp)
    requires IsWideTable(tbl, f) && c > 0xFF
    ensures !f.complement ==> Translated(tbl, f, [c]) == [c]
    ensures f.complement && f.del ==> Translated(tbl, f, [c]) == []
    ensures f.complement && !f.del ==> Translated(tbl, f, [c]) == [Replacement(tbl, f, c)]
    ensures Matches(tbl, f, [c], 1) == if f.complement then 1 else 0
  {
    OneStep(tbl, f, c);
  }

  // Namely to the replacement at its place, or to the last one past their end.
  lemma ReplacedBy(tbl: seq<int>, f: Flags, c: cp)
    requires IsWideTable(tbl, f) && c > 0xFF && f.complement && !f.del && tbl[0x100] > 0
    ensures var r := tbl[0x101..0x101 + tbl[0x100]];
      Translated(tbl, f, [c]) == [if c - 0x100 < |r| then r[c - 0x100] else r[|r| - 1]]
  {
    HighOne(tbl, f, c);
  }

  // Without replacements /s puts it through an I32, and otherwise it becomes 0.
  lemma NotReplaced(tbl: seq<int>, f: Flags, c: cp)
    requires IsWideTable(tbl, f) && c > 0xFF && f.complement && !f.del && tbl[0x100] == 0
    ensures !f.squash ==> Translated(tbl, f, [c]) == [0]
    ensures f.squash ==> |Translated(tbl, f, [c])| == 1 && SameLow32(Translated(tbl, f, [c])[0], c)
  {
    HighOne(tbl, f, c);
    I32KeepsLow(c);
  }

  lemma I32KeepsLow(c: cp)
    ensures SameLow32(AsI32(c), c)
  {
  }

  // v is the 32-bit signed number with the low 32 bits of c, read as a UV.
  predicate SameLow32(v: cp, c: cp) {
    v % 0x1_0000_0000 == c % 0x1_0000_0000 && (v < 0x8000_0000 || v >= 0xFFFF_FFFF_8000_0000)
  }

  lemma LowOne(tbl: seq<int>, f: Flags, c: cp)
    requires IsWideTable(tbl, f) && c <= 0xFF
    ensures Translated(tbl, f, [c]) == if tbl[c] >= 0 then [tbl[c]] else if tbl[c] == -1 then [c] else []
    ensures Matches(tbl, f, [c], 1) == if tbl[c] >= 0 || tbl[c] == -2 then 1 else 0
  {
    OneStep(tbl, f, c);
  }

  lemma OneStep(tbl: seq<int>, f: Flags, c: cp)
    requires IsWideTable(tbl, f)
    ensures Translated(tbl, f, [c]) == if Emit(tbl, f, c).Gap? then [] else [Emit(tbl, f, c).v]
    ensures Matches(tbl, f, [c], 1) == if Counted(tbl, f, c) then 1 else 0
  {
    assert Folded(tbl, f, [c], 0) == State([], None);
    assert Matches(tbl, f, [c], 0) == 0;
  }

  lemma {:induction false} FoldedPrefix(tbl: seq<int>, f: Flags, s: seq<cp>, t: seq<cp>, n: nat)
    requires IsWideTable(tbl, f) && n <= |s| && n <= |t|
    requires forall i :: 0 <= i < n ==> s[i] == t[i]
    ensures Folded(tbl, f, s, n) == Folded(tbl, f, t, n)
    ensures Matches(tbl, f, s, n) == Matches(tbl, f, t, n)
  {
    if n > 0 {
      FoldedPrefix(tbl, f, s, t, n - 1);
    }
  }

  lemma Appended(tbl: seq<int>, f: Flags, cs: seq<cp>, c: cp)
    requires IsWideTable(tbl, f)
    ensures var n := |cs|;
      && Folded(tbl, f, cs + [c], n + 1) == Step(f.squash, Folded(tbl, f, cs, n), Emit(tbl, f, c))
      && Matches(tbl, f, cs + [c], n + 1) == Matches(tbl, f, cs, n) + if Counted(tbl, f, c) then 1 else 0
  {
    FoldedPrefix(tbl, f, cs, cs + [c], |cs|);
    assert (cs + [c])[|cs|] == c;
  }

  // Without /s the code points are translated one by one; they are always counted so.
  lemma OneByOne(tbl: seq<int>, f: Flags, cs: seq<cp>, c: cp)
    requires IsWideTable(tbl, f)
    ensures !f.squash ==> Translated(tbl, f, cs + [c]) == Translated(tbl, f, cs) + Translated(tbl, f, [c])
    ensures Matches(tbl, f, cs + [c], |cs| + 1) == Matches(tbl, f, cs, |cs|) + Matches(tbl, f, [c], 1)
  {
    Appended(tbl, f, cs, c);
    OneStep(tbl, f, c);
  }

  // Whether c is translated, rather than left alone or deleted.
  predicate Replaced(tbl: seq<int>, f: Flags, c: cp)
    requires IsWideTable(tbl, f)
  {
    if c > 0xFF then f.complement && !f.del else tbl[c] >= 0
  }

  // With /s a code point is dropped when it and the one before it, p, are both
  // translated and to the same; any other is dealt with as on its own.
  lemma SquashNeighbours(tbl: seq<int>, f: Flags, cs: seq<cp>, p: cp, c: cp)
    requires IsWideTable(tbl, f) && f.squash
    ensures Translated(tbl, f, cs + [p] + [c]) == Translated(tbl, f, cs + [p]) +
      if Replaced(tbl, f, p) && Replaced(tbl, f, c) && Translated(tbl, f, [p]) == Translated(tbl, f, [c]) then []
      else Translated(tbl, f, [c])
  {
    SquashEmits(tbl, f, cs, p, c);
    OneStep(tbl, f, p);
    OneStep(tbl, f, c);
    SameOnes(Emit(tbl, f, p), Emit(tbl, f, c), Translated(tbl, f, [p]), Translated(tbl, f, [c]));
    ReplacedIs(tbl, f, p);
    ReplacedIs(tbl, f, c);
  }

  lemma ReplacedIs(tbl: seq<int>, f: Flags, c: cp)
    requires IsWideTable(tbl, f)
    ensures Replaced(tbl, f, c) <==> Emit(tbl, f, c).Mapped?
  {
  }

  lemma SameOnes(t: Token<cp>, u: Token<cp>, a: seq<cp>, b: seq<cp>)
    requires a == if t.Gap? then [] else [t.v]
    requires b == if u.Gap? then [] else [u.v]
    ensures t.Mapped? && u.Mapped? ==> (a == b <==> t.v == u.v)
  {
    if t.Mapped? && u.Mapped? {
      assert a == b ==> a[0] == b[0];
    }
  }

  lemma SquashEmits(tbl: seq<int>, f: Flags, cs: seq<cp>, p: cp, c: cp)
    requires IsWideTable(tbl, f) && f.squash
    ensures var t, u := Emit(tbl, f, p), Emit(tbl, f, c);
      Translated(tbl, f, cs + [p] + [c]) == Translated(tbl, f, cs + [p]) +
        if u.Gap? || (t.Mapped? && u.Mapped? && t.v == u.v) then [] else [u.v]
  {
    Appended(tbl, f, cs + [p], c);
    Appended(tbl, f, cs, p);
    FeedTwice(Folded(tbl, f, cs, |cs|), Emit(tbl, f, p), Emit(tbl, f, c));
  }

  lemma FeedTwice(st: State<cp>, t: Token<cp>, u: Token<cp>)
    ensures Feed(Feed(st, t), u).out == Feed(st, t).out +
      if u.Gap? || (t.Mapped? && u.Mapped? && t.v == u.v) then [] else [u.v]
  {
  }
}
