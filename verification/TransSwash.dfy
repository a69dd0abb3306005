// tr/// with a code point map: do_trans_simple_utf8 and do_trans_complex_utf8 when
// the result may grow.  They write into a buffer of their own and enlarge it, the
// first after a write that went past the mark, the second before the next one.
module TransSwash {
  import opened Chunks
  import opened Common

  // The map and the codec as the functions see them.  swash is swash_fetch: below
  // none, the code point to write; none, leave the character; none + 1, write the
  // final one.  ord and enc are utf8_to_uvuni and uvuni_to_utf8.
  datatype Map = Map(swash: chunk -> nat, ord: chunk -> nat, enc: nat -> chunk,
                     none: nat, final: Option<nat>, del: bool)

  ghost predicate IsCodec(m: Map) {
    forall v :: |m.enc(v)| <= UTF8_MAXLEN
  }

  ghost predicate IsText(src: seq<chunk>) {
    forall i :: 0 <= i < |src| ==> 1 <= |src[i]| <= UTF8_MAXLEN
  }

  // FINAL, or 0
  function Final(m: Map): nat {
    if m.final.Some? then m.final.value else 0
  }

  // ---- do_trans_simple_utf8 ----

  function SimpleOut(m: Map, c: chunk): chunk {
    var uv := m.swash(c);
    if uv < m.none then m.enc(uv)
    else if uv == m.none then c
    else if uv == m.none + 1 then m.enc(Final(m))
    else []
  }

  function SimpleHit(m: Map, c: chunk): bool {
    m.swash(c) < m.none || m.swash(c) == m.none + 1
  }

  function Simply(m: Map, src: seq<chunk>, n: nat): seq<byte>
    requires n <= |src|
  {
    if n == 0 then [] else Simply(m, src, n - 1) + SimpleOut(m, src[n - 1])
  }

  function SimpleMatches(m: Map, src: seq<chunk>, n: nat): nat
    requires n <= |src|
  {
    if n == 0 then 0 else SimpleMatches(m, src, n - 1) + if SimpleHit(m, src[n - 1]) then 1 else 0
  }

  // One character: at most UTF8_MAXLEN bytes from d on.
  method PutSimply(dst: array<byte>, d: nat, m: Map, c: chunk, ghost out: seq<byte>) returns (d': nat, hit: bool)
    requires IsCodec(m) && |c| <= UTF8_MAXLEN
    requires Holds(dst, out) && d == |out| && d + UTF8_MAXLEN <= dst.Length
    modifies dst
    ensures Holds(dst, out + SimpleOut(m, c)) && d' == |out + SimpleOut(m, c)| <= d + UTF8_MAXLEN
    ensures hit == SimpleHit(m, c)
  {
    var uv := m.swash(c);
    d', hit := d, false;
    if uv < m.none {
      hit := true;
      d' := PutBytes(dst, d, m.enc(uv), out);
    } else if uv == m.none {
      d' := PutBytes(dst, d, c, out);
    } else if uv == m.none + 1 {
      hit := true;
      d' := PutBytes(dst, d, m.enc(Final(m)), out);
    } else {
      assert out + [] == out;
    }
  }

  // dend is the mark; UTF8_MAXLEN bytes of the allocation lie beyond it.
  method Simple(m: Map, src: seq<chunk>) returns (dst: array<byte>, d: nat, matches: nat)
    requires IsCodec(m) && IsText(src)
    ensures Holds(dst, Simply(m, src, |src|)) && d == |Simply(m, src, |src|)|
    ensures matches == SimpleMatches(m, src, |src|)
  {
    var len := |Concat(src, |src|)|;
    dst := new byte[len * 3 + UTF8_MAXLEN];
    var dend: nat := len * 3;
    var i := 0;
    d, matches := 0, 0;
    while i < |src|
      invariant i <= |src|
      invariant d <= dend && dst.Length == dend + UTF8_MAXLEN && fresh(dst)
      invariant Holds(dst, Simply(m, src, i)) && d == |Simply(m, src, i)|
      invariant matches == SimpleMatches(m, src, i)
    {
      var hit: bool;
      d, hit := PutSimply(dst, d, m, src[i], Simply(m, src, i));
      matches := matches + if hit then 1 else 0;
      i := i + 1;
      if d > dend {
        var nlen := dend + len + UTF8_MAXLEN;
        dst := Renewed(dst, nlen + UTF8_MAXLEN);
        dend := nlen;
      }
    }
  }

  // ---- do_trans_complex_utf8 ----

  function ComplexOut(m: Map, c: chunk): chunk {
    var uv := m.swash(c);
    if uv < m.none then m.enc(uv)
    else if uv == m.none then c
    else if uv == m.none + 1 && !m.del then m.enc(Final(m))
    else []
  }

  function Plain(m: Map, src: seq<chunk>, n: nat): seq<byte>
    requires n <= |src|
  {
    if n == 0 then [] else Plain(m, src, n - 1) + ComplexOut(m, src[n - 1])
  }

  function Matches(m: Map, src: seq<chunk>, n: nat): nat
    requires n <= |src|
  {
    if n == 0 then 0 else Matches(m, src, n - 1) + if m.swash(src[n - 1]) != m.none then 1 else 0
  }

  // The value that stands for no code point.
  const NO_CHAR := 0xFEED_FACE

  // Squashing: what has been written, and what the last character was translated to.
  datatype Run = Run(out: seq<byte>, puv: nat)

  function Repeat(st: Run, v: nat, bytes: chunk): Run {
    if v != st.puv then Run(st.out + bytes, v) else st
  }

  // Without FINAL the characters past the map are squashed but left as they are.
  function Step(m: Map, st: Run, c: chunk): Run {
    var uv := m.swash(c);
    if uv < m.none then Repeat(st, uv, m.enc(uv))
    else if uv == m.none then Run(st.out + c, NO_CHAR)
    else if uv == m.none + 1 && !m.del then
      if m.final.Some? then Repeat(st, m.final.value, m.enc(m.final.value))
      else Repeat(st, m.ord(c), c)
    else st
  }

  function Squashed(m: Map, src: seq<chunk>, n: nat): Run
    requires n <= |src|
  {
    if n == 0 then Run([], NO_CHAR) else Step(m, Squashed(m, src, n - 1), src[n - 1])
  }

  // The check that comes before a write: afterwards UTF8_MAXLEN bytes are free.
  method MakeRoom(a: array<byte>, d: nat, mark: nat, len: nat, ghost out: seq<byte>)
    returns (dst: array<byte>, dend: nat)
    requires a.Length == mark + UTF8_MAXLEN && Holds(a, out) && d == |out|
    ensures dst.Length == dend + UTF8_MAXLEN && Holds(dst, out) && d <= dend
    ensures dst == a || fresh(dst)
  {
    dst, dend := a, mark;
    if d > dend {
      var nlen := dend + len + UTF8_MAXLEN;
      dst := Renewed(dst, nlen + UTF8_MAXLEN);
      dend := nlen;
    }
  }

  method PutPlain(dst: array<byte>, d: nat, m: Map, c: chunk, ghost out: seq<byte>) returns (d': nat, hit: bool)
    requires IsCodec(m) && |c| <= UTF8_MAXLEN
    requires Holds(dst, out) && d == |out| && d + UTF8_MAXLEN <= dst.Length
    modifies dst
    ensures Holds(dst, out + ComplexOut(m, c)) && d' == |out + ComplexOut(m, c)| <= dst.Length
    ensures hit == (m.swash(c) != m.none)
  {
    var uv := m.swash(c);
    d', hit := d, true;
    if uv < m.none {
      d' := PutBytes(dst, d, m.enc(uv), out);
    } else if uv == m.none {
      hit := false;
      d' := PutBytes(dst, d, c, out);
    } else if uv == m.none + 1 && !m.del {
      d' := PutBytes(dst, d, m.enc(Final(m)), out);
    } else {
      assert out + [] == out;
    }
  }

  method ComplexPlain(m: Map, src: seq<chunk>) returns (dst: array<byte>, d: nat, matches: nat)
    requires IsCodec(m) && IsText(src)
    ensures Holds(dst, Plain(m, src, |src|)) && d == |Plain(m, src, |src|)|
    ensures matches == Matches(m, src, |src|)
  {
    var len := |Concat(src, |src|)|;
    dst := new byte[len * 3 + UTF8_MAXLEN];
    var dend: nat := len * 3;
    var i := 0;
    d, matches := 0, 0;
    while i < |src|
      invariant i <= |src|
      invariant dst.Length == dend + UTF8_MAXLEN && fresh(dst)
      invariant Holds(dst, Plain(m, src, i)) && d == |Plain(m, src, i)|
      invariant matches == Matches(m, src, i)
    {
      dst, dend := MakeRoom(dst, d, dend, len, Plain(m, src, i));
      var hit: bool;
      d, hit := PutPlain(dst, d, m, src[i], Plain(m, src, i));
      matches := matches + if hit then 1 else 0;
      i := i + 1;
    }
  }

  method PutRepeat(dst: array<byte>, d: nat, puv: nat, v: nat, bytes: chunk, ghost st: Run) returns (d': nat, puv': nat)
    requires |bytes| <= UTF8_MAXLEN
    requires Holds(dst, st.out) && d == |st.out| && puv == st.puv && d + UTF8_MAXLEN <= dst.Length
    modifies dst
    ensures var st' := Repeat(st, v, bytes); Holds(dst, st'.out) && d' == |st'.out| <= dst.Length && puv' == st'.puv
  {
    d', puv' := d, puv;
    if v != puv {
      d' := PutBytes(dst, d, bytes, st.out);
      puv' := v;
    }
  }

  method PutSquashed(dst: array<byte>, d: nat, puv: nat, m: Map, c: chunk, ghost st: Run)
    returns (d': nat, puv': nat, hit: bool)
    requires IsCodec(m) && |c| <= UTF8_MAXLEN
    requires Holds(dst, st.out) && d == |st.out| && puv == st.puv && d + UTF8_MAXLEN <= dst.Length
    modifies dst
    ensures var st' := Step(m, st, c); Holds(dst, st'.out) && d' == |st'.out| <= dst.Length && puv' == st'.puv
    ensures hit == (m.swash(c) != m.none)
  {
    var uv := m.swash(c);
    d', puv', hit := d, puv, true;
    if uv < m.none {
      d', puv' := PutRepeat(dst, d, puv, uv, m.enc(uv), st);
    } else if uv == m.none {
      hit := false;
      d' := PutBytes(dst, d, c, st.out);
      puv' := NO_CHAR;
    } else if uv == m.none + 1 && !m.del {
      if m.final.Some? {
        d', puv' := PutRepeat(dst, d, puv, m.final.value, m.enc(m.final.value), st);
      } else {
        d', puv' := PutRepeat(dst, d, puv, m.ord(c), c, st);
      }
    }
  }

  method ComplexSquash(m: Map, src: seq<chunk>) returns (dst: array<byte>, d: nat, matches: nat)
    requires IsCodec(m) && IsText(src)
    ensures Holds(dst, Squashed(m, src, |src|).out) && d == |Squashed(m, src, |src|).out|
    ensures matches == Matches(m, src, |src|)
  {
    var len := |Concat(src, |src|)|;
    dst := new byte[len * 3 + UTF8_MAXLEN];
    var dend: nat := len * 3;
    var i, puv := 0, NO_CHAR;
    d, matches := 0, 0;
    while i < |src|
      invariant i <= |src|
      invariant dst.Length == dend + UTF8_MAXLEN && fresh(dst)
      invariant Holds(dst, Squashed(m, src, i).out) && d == |Squashed(m, src, i).out|
      invariant puv == Squashed(m, src, i).puv
      invariant matches == Matches(m, src, i)
    {
      ghost var st := Squashed(m, src, i);
      dst, dend := MakeRoom(dst, d, dend, len, st.out);
      var hit: bool;
      d, puv, hit := PutSquashed(dst, d, puv, m, src[i], st);
      matches := matches + if hit then 1 else 0;
      i := i + 1;
    }
  }

  // ---- what squashing means ----

  // What c is translated to.
  function Value(m: Map, c: chunk): Option<nat> {
    var uv := m.swash(c);
    if uv < m.none then Some(uv)
    else if uv == m.none + 1 && !m.del then
      if m.final.Some? then m.final else Some(m.ord(c))
    else None
  }

  // Deleted characters leave no trace: they do not end a run.
  predicate Deleted(m: Map, c: chunk) {
    m.swash(c) > m.none && (m.del || m.swash(c) != m.none + 1)
  }

  function Undeleted(m: Map, src: seq<chunk>, n: nat): seq<chunk>
    requires n <= |src|
  {
    if n == 0 then []
    else Undeleted(m, src, n - 1) + if Deleted(m, src[n - 1]) then [] else [src[n - 1]]
  }

  lemma {:induction false} SquashedPrefix(m: Map, s: seq<chunk>, t: seq<chunk>, n: nat)
    requires n <= |s| && n <= |t|
    requires forall i :: 0 <= i < n ==> s[i] == t[i]
    ensures Squashed(m, s, n) == Squashed(m, t, n)
  {
    if n > 0 {
      SquashedPrefix(m, s, t, n - 1);
    }
  }

  lemma {:induction false} DeletionsKeepRuns(m: Map, src: seq<chunk>, n: nat)
    requires n <= |src|
    ensures var kept := Undeleted(m, src, n); Squashed(m, src, n) == Squashed(m, kept, |kept|)
  {
    if n > 0 {
      DeletionsKeepRuns(m, src, n - 1);
      var was, kept := Undeleted(m, src, n - 1), Undeleted(m, src, n);
      if Deleted(m, src[n - 1]) {
        assert kept == was;
      } else {
        assert kept == was + [src[n - 1]];
        SquashedPrefix(m, was, kept, |was|);
      }
    }
  }

  // Squashing with no code point standing for none.
  datatype Clean = Clean(out: seq<byte>, last: Option<nat>)

  function CleanStep(m: Map, st: Clean, c: chunk): Clean {
    match Value(m, c)
    case Some(v) =>
      if st.last == Some(v) then st
      else Clean(st.out + if m.swash(c) < m.none || m.final.Some? then m.enc(v) else c, Some(v))
    case None =>
      if m.swash(c) == m.none then Clean(st.out + c, None) else st
  }

  function CleanSquash(m: Map, src: seq<chunk>, n: nat): Clean
    requires n <= |src|
  {
    if n == 0 then Clean([], None) else CleanStep(m, CleanSquash(m, src, n - 1), src[n - 1])
  }

  lemma {:induction false} SentinelUnused(m: Map, src: seq<chunk>, n: nat)
    requires n <= |src|
    requires forall i :: 0 <= i < n ==> Value(m, src[i]) != Some(NO_CHAR)
    ensures var st, clean := Squashed(m, src, n), CleanSquash(m, src, n);
      && st.out == clean.out && st.puv == (if clean.last.Some? then clean.last.value else NO_CHAR)
      && clean.last != Some(NO_CHAR)
  {
    if n > 0 {
      SentinelUnused(m, src, n - 1);
    }
  }

  // A character translated to that very value is lost at the start of a string.
  lemma SentinelLost(m: Map, c: chunk)
    requires Value(m, c) == Some(NO_CHAR)
    ensures Squashed(m, [c], 1).out == []
    ensures CleanSquash(m, [c], 1).out == if m.swash(c) < m.none || m.final.Some? then m.enc(NO_CHAR) else c
  {
    assert Squashed(m, [c], 0) == Run([], NO_CHAR);
    assert CleanSquash(m, [c], 0) == Clean([], None);
  }

  // Every string is squashed as it should be exactly when no character is
  // translated to the value that stands for none.
  lemma SentinelExact(m: Map)
    requires forall v :: |m.enc(v)| >= 1
    ensures (forall src :: IsText(src) ==> SquashesCleanly(m, src))
      <==> (forall c: chunk :: 1 <= |c| <= UTF8_MAXLEN ==> Value(m, c) != Some(NO_CHAR))
  {
    if forall c: chunk :: 1 <= |c| <= UTF8_MAXLEN ==> Value(m, c) != Some(NO_CHAR) {
      forall src | IsText(src) ensures SquashesCleanly(m, src) {
        SentinelUnused(m, src, |src|);
      }
    } else {
      var c: chunk :| 1 <= |c| <= UTF8_MAXLEN && Value(m, c) == Some(NO_CHAR);
      SentinelLost(m, c);
      assert IsText([c]) && !SquashesCleanly(m, [c]);
    }
  }

  ghost predicate SquashesCleanly(m: Map, src: seq<chunk>) {
    Squashed(m, src, |src|).out == CleanSquash(m, src, |src|).out
  }

  // ---- in terms of the map alone ----

  // A text with no mapped character comes back as it is.
  lemma {:induction false} UnmappedStays(m: Map, src: seq<chunk>, n: nat)
    requires n <= |src| && forall i :: 0 <= i < n ==> m.swash(src[i]) == m.none
    ensures Simply(m, src, n) == Concat(src, n) && SimpleMatches(m, src, n) == 0
    ensures Plain(m, src, n) == Concat(src, n) && Matches(m, src, n) == 0
    ensures Squashed(m, src, n).out == Concat(src, n)
  {
    if n > 0 {
      UnmappedStays(m, src, n - 1);
    }
  }

  lemma {:induction false} SimplyPrefix(m: Map, s: seq<chunk>, t: seq<chunk>, n: nat)
    requires n <= |s| && n <= |t|
    requires forall i :: 0 <= i < n ==> s[i] == t[i]
    ensures Simply(m, s, n) == Simply(m, t, n) && SimpleMatches(m, s, n) == SimpleMatches(m, t, n)
  {
    if n > 0 {
      SimplyPrefix(m, s, t, n - 1);
    }
  }

  // What one more character adds to the output of do_trans_simple_utf8, and to its
  // count.
  lemma SimplyNext(m: Map, src: seq<chunk>, c: chunk)
    ensures var t, n := src + [c], |src|;
      var out, matches := Simply(m, src, n), SimpleMatches(m, src, n);
      && (m.swash(c) < m.none ==>
            Simply(m, t, n + 1) == out + m.enc(m.swash(c)) && SimpleMatches(m, t, n + 1) == matches + 1)
      && (m.swash(c) == m.none ==> Simply(m, t, n + 1) == out + c && SimpleMatches(m, t, n + 1) == matches)
      && (m.swash(c) == m.none + 1 ==>
            && Simply(m, t, n + 1) == out + m.enc(if m.final.Some? then m.final.value else 0)
            && SimpleMatches(m, t, n + 1) == matches + 1)
      && (m.swash(c) > m.none + 1 ==> Simply(m, t, n + 1) == out && SimpleMatches(m, t, n + 1) == matches)
  {
    var t, n := src + [c], |src|;
    SimplyPrefix(m, src, t, n);
    assert t[n] == c;
    assert Simply(m, t, n + 1) == Simply(m, t, n) + SimpleOut(m, c);
    assert SimpleMatches(m, t, n + 1) == SimpleMatches(m, t, n) + if SimpleHit(m, c) then 1 else 0;
  }

  // How many of the first n characters are neither mapped, unmapped nor past the map.
  function Beyond(m: Map, src: seq<chunk>, n: nat): nat
    requires n <= |src|
  {
    if n == 0 then 0 else Beyond(m, src, n - 1) + if m.swash(src[n - 1]) > m.none + 1 then 1 else 0
  }

  // Without /d the simple and the complex function write the same; they count the
  // same but for the characters that both drop.
  lemma {:induction false} SimpleIsComplex(m: Map, src: seq<chunk>, n: nat)
    requires n <= |src| && !m.del
    ensures Plain(m, src, n) == Simply(m, src, n)
    ensures Matches(m, src, n) == SimpleMatches(m, src, n) + Beyond(m, src, n)
  {
    if n > 0 {
      SimpleIsComplex(m, src, n - 1);
    }
  }

  lemma {:induction false} PlainPrefix(m: Map, s: seq<chunk>, t: seq<chunk>, n: nat)
    requires n <= |s| && n <= |t|
    requires forall i :: 0 <= i < n ==> s[i] == t[i]
    ensures Plain(m, s, n) == Plain(m, t, n) && Matches(m, s, n) == Matches(m, t, n)
  {
    if n > 0 {
      PlainPrefix(m, s, t, n - 1);
    }
  }

  // With /d what lies past the map is deleted, and still counted.
  lemma PlainNext(m: Map, src: seq<chunk>, c: chunk)
    ensures var t, n := src + [c], |src|;
      var out, matches := Plain(m, src, n), Matches(m, src, n);
      && (m.swash(c) < m.none ==> Plain(m, t, n + 1) == out + m.enc(m.swash(c)))
      && (m.swash(c) == m.none ==> Plain(m, t, n + 1) == out + c && Matches(m, t, n + 1) == matches)
      && (m.swash(c) == m.none + 1 && !m.del ==>
            Plain(m, t, n + 1) == out + m.enc(if m.final.Some? then m.final.value else 0))
      && (m.swash(c) > m.none && (m.del || m.swash(c) > m.none + 1) ==> Plain(m, t, n + 1) == out)
      && (m.swash(c) != m.none ==> Matches(m, t, n + 1) == matches + 1)
  {
    var t, n := src + [c], |src|;
    PlainPrefix(m, src, t, n);
    assert t[n] == c;
    assert Plain(m, t, n + 1) == Plain(m, t, n) + ComplexOut(m, c);
  }

  // c is translated to the code point v.
  predicate GoesTo(m: Map, c: chunk, v: nat) {
    || (m.swash(c) == v && v < m.none)
    || (m.swash(c) == m.none + 1 && !m.del && (m.final == Some(v) || (m.final.None? && m.ord(c) == v)))
  }

  // Characters from k on, as far as n, that are deleted.
  predicate OnlyDeleted(m: Map, src: seq<chunk>, k: nat, n: nat)
    requires n <= |src|
  {
    forall i :: k <= i < n ==> m.swash(src[i]) > m.none && (m.del || m.swash(src[i]) > m.none + 1)
  }

  lemma {:induction false} DeletedChangeNothing(m: Map, src: seq<chunk>, k: nat, n: nat)
    requires k <= n <= |src| && OnlyDeleted(m, src, k, n)
    ensures Squashed(m, src, n) == Squashed(m, src, k)
  {
    if k < n {
      DeletedChangeNothing(m, src, k, n - 1);
    }
  }

  // A step over a character that is not deleted remembers what it was translated to.
  lemma StepRemembers(m: Map, st: Run, c: chunk, v: nat)
    requires !OnlyDeleted(m, [c], 0, 1) && v != NO_CHAR
    ensures Step(m, st, c).puv == v <==> GoesTo(m, c, v)
  {
  }

  lemma StepWrites(m: Map, st: Run, c: chunk, v: nat)
    requires GoesTo(m, c, v)
    ensures Step(m, st, c).out ==
      st.out + if st.puv == v then [] else if m.swash(c) > m.none && m.final.None? then c else m.enc(v)
  {
  }

  // With /s a translated character is dropped when the last one that was not
  // deleted, at k, was translated to the same.
  lemma SquashedNext(m: Map, src: seq<chunk>, c: chunk, v: nat, k: nat)
    requires k < |src| && !OnlyDeleted(m, [src[k]], 0, 1) && OnlyDeleted(m, src, k + 1, |src|)
    requires GoesTo(m, c, v) && v != NO_CHAR
    ensures Squashed(m, src + [c], |src| + 1).out == Squashed(m, src, |src|).out +
      if GoesTo(m, src[k], v) then [] else if m.swash(c) > m.none && m.final.None? then c else m.enc(v)
  {
    DeletedChangeNothing(m, src, k + 1, |src|);
    SquashedAppended(m, src, c);
    StepRemembers(m, Squashed(m, src, k), src[k], v);
    StepWrites(m, Squashed(m, src, |src|), c, v);
  }

  lemma SquashedAppended(m: Map, src: seq<chunk>, c: chunk)
    ensures Squashed(m, src + [c], |src| + 1) == Step(m, Squashed(m, src, |src|), c)
  {
    SquashedPrefix(m, src, src + [c], |src|);
  }

  // It is written when nothing but deleted characters comes before it; and whatever
  // comes before, an unmapped character is written and a deleted one is not.
  lemma SquashedFirst(m: Map, src: seq<chunk>, c: chunk, v: nat)
    ensures OnlyDeleted(m, src, 0, |src|) && GoesTo(m, c, v) && v != NO_CHAR ==>
      Squashed(m, src + [c], |src| + 1).out == if m.swash(c) > m.none && m.final.None? then c else m.enc(v)
    ensures m.swash(c) == m.none ==> Squashed(m, src + [c], |src| + 1).out == Squashed(m, src, |src|).out + c
    ensures OnlyDeleted(m, [c], 0, 1) ==> Squashed(m, src + [c], |src| + 1).out == Squashed(m, src, |src|).out
  {
    SquashedAppended(m, src, c);
    if OnlyDeleted(m, src, 0, |src|) {
      DeletedChangeNothing(m, src, 0, |src|);
      assert Squashed(m, src, 0) == Run([], NO_CHAR);
    }
  }
}
