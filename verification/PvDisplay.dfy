// pv_display: a byte string printed between quotes, with escapes, and read back.
module PvDisplay {
  import opened Chunks
  import opened Common
  import opened PvBuffer

  const QUOTE: byte := 34
  const BACKSLASH: byte := 92
  const DIGIT_0: byte := 48

  predicate IsDigit(c: byte) {
    48 <= c <= 57
  }

  predicate IsPrint(c: byte) {
    (c > 32 && c < 127) || c == 32
  }

  // %o
  function Octal(c: byte): seq<byte> {
    if c < 8 then [DIGIT_0 + c]
    else if c < 64 then [DIGIT_0 + c / 8, DIGIT_0 + c % 8]
    else Octal3(c)
  }

  // %03o
  function Octal3(c: byte): seq<byte> {
    [DIGIT_0 + c / 64, DIGIT_0 + c / 8 % 8, DIGIT_0 + c % 8]
  }

  // How c is printed.  Of the escapes only \" and \\ can come up: tab, newline,
  // carriage return and form feed are not printing characters and go out in octal.
  function Escape(c: byte, digitNext: bool): (r: chunk)
    ensures 1 <= |r| <= 4
  {
    if IsPrint(c) then
      if c == 9 then [BACKSLASH, 116]
      else if c == 10 then [BACKSLASH, 110]
      else if c == 13 then [BACKSLASH, 114]
      else if c == 12 then [BACKSLASH, 102]
      else if c == QUOTE then [BACKSLASH, QUOTE]
      else if c == BACKSLASH then [BACKSLASH, BACKSLASH]
      else [c]
    else if digitNext then [BACKSLASH] + Octal3(c)
    else [BACKSLASH] + Octal(c)
  }

  predicate DigitNext(s: seq<byte>, i: nat) {
    i + 1 < |s| && IsDigit(s[i + 1])
  }

  function Escapes(s: seq<byte>): (r: seq<chunk>)
    ensures |r| == |s|
  {
    seq(|s|, i requires 0 <= i < |s| => Escape(s[i], DigitNext(s, i)))
  }

  // The opening quote and the first n characters.
  function Start(s: seq<byte>, n: nat): seq<byte>
    requires n <= |s|
  {
    [QUOTE] + Concat(Escapes(s), n)
  }

  // Whether the limit stops the text after n characters.  A limit of 0 is none.
  predicate Reached(s: seq<byte>, lim: nat, n: nat)
    requires n <= |s|
  {
    lim != 0 && |Start(s, n)| >= lim
  }

  // How many characters are shown, n of them being out already.
  function Shown(s: seq<byte>, lim: nat, n: nat): (k: nat)
    requires n <= |s|
    ensures n <= k <= |s|
    decreases |s| - n
  {
    if n == |s| || Reached(s, lim, n) then n else Shown(s, lim, n + 1)
  }

  // What follows the characters shown.
  function Ending(truncated: bool, nulTerminated: bool): seq<byte> {
    [QUOTE] + (if truncated then [46, 46, 46] else []) + if nulTerminated then [BACKSLASH, DIGIT_0] else []
  }

  function Display(s: seq<byte>, nulTerminated: bool, lim: nat): seq<byte> {
    var k := Shown(s, lim, 0);
    Start(s, k) + Ending(k < |s|, nulTerminated)
  }

  // ---- the code ----

  method Print(dsv: Pv, pv: array<byte>, length: nat, len: nat, pvlim: nat)
    requires dsv.Valid() && dsv.buf != pv
    requires length <= pv.Length && len <= pv.Length
    modifies dsv, dsv.buf
    ensures dsv.Valid() && dsv.Terminated()
    ensures dsv.Contents() ==
      Display(old(pv[..length]), len > length && old(pv[length]) == 0, pvlim)
  {
    ghost var s := pv[..length];
    var nulTerminated := len > length && pv[length] == 0;
    var truncated := false;
    dsv.Set([QUOTE]);
    var cur: nat, i := length, 0;
    while cur > 0 && !truncated
      invariant dsv.Valid() && dsv.Terminated() && (fresh(dsv.buf) || dsv.buf == old(dsv.buf))
      invariant i + cur == length && pv[..length] == s
      invariant dsv.Contents() == Start(s, i)
      invariant Shown(s, pvlim, 0) == Shown(s, pvlim, i)
      invariant truncated ==> i < length && Shown(s, pvlim, i) == i
      decreases cur, !truncated
    {
      if pvlim != 0 && dsv.cur >= pvlim {
        truncated := true;
      } else {
        cur := cur - 1;
        var digit := cur > 0 && IsDigit(pv[i + 1]);
        PutEscape(dsv, pv[i], digit, s, i);
        i := i + 1;
      }
    }
    Finish(dsv, truncated, nulTerminated);
  }

  lemma StartNext(s: seq<byte>, i: nat)
    requires i < |s|
    ensures Start(s, i + 1) == Start(s, i) + Escape(s[i], DigitNext(s, i))
  {
    var e := Escapes(s);
    assert Concat(e, i + 1) == Concat(e, i) + e[i];
    Regroup([QUOTE], Concat(e, i), e[i]);
  }

  lemma Regroup(a: seq<byte>, b: seq<byte>, c: seq<byte>)
    ensures a + (b + c) == a + b + c
  {
  }

  method PutEscape(dsv: Pv, c: byte, digit: bool, ghost s: seq<byte>, ghost i: nat)
    requires dsv.Valid() && i < |s| && dsv.Contents() == Start(s, i)
    requires c == s[i] && digit == DigitNext(s, i)
    modifies dsv, dsv.buf
    ensures dsv.Valid() && dsv.Terminated() && (fresh(dsv.buf) || dsv.buf == old(dsv.buf))
    ensures dsv.Contents() == Start(s, i + 1)
  {
    StartNext(s, i);
    dsv.Append(Escape(c, digit));
  }

  method Finish(dsv: Pv, truncated: bool, nulTerminated: bool)
    requires dsv.Valid()
    modifies dsv, dsv.buf
    ensures dsv.Valid() && dsv.Terminated()
    ensures dsv.Contents() == old(dsv.Contents()) + Ending(truncated, nulTerminated)
  {
    dsv.Append([QUOTE]);
    if truncated {
      dsv.Append([46, 46, 46]);
    }
    if nulTerminated {
      dsv.Append([BACKSLASH, DIGIT_0]);
    }
  }

  // ---- reading it back ----

  predicate IsOctal(t: seq<byte>, i: nat) {
    i < |t| && 48 <= t[i] <= 55
  }

  // Up to n octal digits from i on, added to x, and where they end.
  function ReadOctal(t: seq<byte>, i: nat, n: nat, x: nat): (r: (nat, nat))
    ensures i <= r.1
    ensures IsOctal(t, i) && n > 0 ==> i < r.1
    decreases n
  {
    if n > 0 && IsOctal(t, i) then ReadOctal(t, i + 1, n - 1, 8 * x + t[i] - 48) else (x, i)
  }

  function Unescape(e: byte): Option<byte> {
    if e == 116 then Some(9)
    else if e == 110 then Some(10)
    else if e == 114 then Some(13)
    else if e == 102 then Some(12)
    else if e == QUOTE || e == BACKSLASH then Some(e)
    else None
  }

  // The characters from i up to the closing quote.
  function ReadFrom(t: seq<byte>, i: nat): Option<seq<byte>>
    decreases |t| - i
  {
    if i >= |t| then None
    else if t[i] == QUOTE then Some([])
    else if t[i] != BACKSLASH then Behind(t[i], ReadFrom(t, i + 1))
    else if IsOctal(t, i + 1) then
      var (x, end) := ReadOctal(t, i + 1, 3, 0);
      Behind(x % 256, ReadFrom(t, end))
    else if i + 1 < |t| && Unescape(t[i + 1]).Some? then
      Behind(Unescape(t[i + 1]).value, ReadFrom(t, i + 2))
    else None
  }

  function Behind(c: byte, rest: Option<seq<byte>>): Option<seq<byte>> {
    if rest.Some? then Some([c] + rest.value) else None
  }

  function Read(t: seq<byte>): Option<seq<byte>> {
    if |t| > 0 && t[0] == QUOTE then ReadFrom(t, 1) else None
  }

  // One printed character is read back, given that no digit follows one that was
  // printed in as few digits as it takes.
  lemma ReadEscape(t: seq<byte>, i: nat, c: byte, digitNext: bool)
    requires LiesAt(t, i, Escape(c, digitNext))
    requires !IsPrint(c) && !digitNext ==> !IsOctal(t, i + |Escape(c, digitNext)|)
    ensures ReadFrom(t, i) == Behind(c, ReadFrom(t, i + |Escape(c, digitNext)|))
  {
    InBytes(t, i, Escape(c, digitNext));
    if !IsPrint(c) {
      if digitNext || c >= 64 {
        ThreeDigits(t, i + 1, c);
      } else if c >= 8 {
        TwoDigits(t, i + 1, c);
      } else {
        OneDigit(t, i + 1, c);
      }
    }
  }

  lemma InBytes(s: seq<byte>, i: nat, c: chunk)
    requires LiesAt(s, i, c)
    ensures |c| > 0 ==> s[i] == c[0]
    ensures |c| > 1 ==> s[i + 1] == c[1]
    ensures |c| > 2 ==> s[i + 2] == c[2]
    ensures |c| > 3 ==> s[i + 3] == c[3]
  {
    var t := s[i..i + |c|];
    assert |c| > 0 ==> t[0] == s[i];
    assert |c| > 1 ==> t[1] == s[i + 1];
    assert |c| > 2 ==> t[2] == s[i + 2];
    assert |c| > 3 ==> t[3] == s[i + 3];
  }

  lemma ThreeDigits(t: seq<byte>, i: nat, c: byte)
    requires i + 2 < |t| && [t[i], t[i + 1], t[i + 2]] == Octal3(c)
    ensures IsOctal(t, i) && ReadOctal(t, i, 3, 0) == (c, i + 3)
  {
    var o := Octal3(c);
    assert t[i] == o[0] && t[i + 1] == o[1] && t[i + 2] == o[2];
    assert ReadOctal(t, i, 3, 0) == ReadOctal(t, i + 1, 2, c / 64);
    assert ReadOctal(t, i + 1, 2, c / 64) == ReadOctal(t, i + 2, 1, c / 8);
    assert ReadOctal(t, i + 2, 1, c / 8) == ReadOctal(t, i + 3, 0, c);
  }

  lemma TwoDigits(t: seq<byte>, i: nat, c: byte)
    requires i + 1 < |t| && 8 <= c < 64 && [t[i], t[i + 1]] == Octal(c) && !IsOctal(t, i + 2)
    ensures IsOctal(t, i) && ReadOctal(t, i, 3, 0) == (c, i + 2)
  {
    var o := Octal(c);
    assert t[i] == o[0] && t[i + 1] == o[1];
    assert ReadOctal(t, i, 3, 0) == ReadOctal(t, i + 1, 2, c / 8);
    assert ReadOctal(t, i + 1, 2, c / 8) == ReadOctal(t, i + 2, 1, c);
  }

  lemma OneDigit(t: seq<byte>, i: nat, c: byte)
    requires i < |t| && c < 8 && t[i] == DIGIT_0 + c && !IsOctal(t, i + 1)
    ensures IsOctal(t, i) && ReadOctal(t, i, 3, 0) == (c, i + 1)
  {
    assert ReadOctal(t, i, 3, 0) == ReadOctal(t, i + 1, 2, c);
  }

  // The escape of character n lies in the printed text.
  lemma EscapePlace(s: seq<byte>, t: seq<byte>, n: nat, k: nat)
    requires n < k <= |s| && Start(s, k) + [QUOTE] <= t
    ensures LiesAt(t, |Start(s, n)|, Escapes(s)[n])
  {
    assert Start(s, k) <= t;
    PlaceBehind([QUOTE], Escapes(s), t, n, k);
  }

  // What follows it is no octal digit unless it was printed with that in mind.
  lemma NoOctalNext(s: seq<byte>, t: seq<byte>, n: nat, k: nat)
    requires n < k <= |s| && Start(s, k) + [QUOTE] <= t && !DigitNext(s, n)
    ensures !IsOctal(t, |Start(s, n + 1)|)
  {
    var i := |Start(s, n + 1)|;
    if n + 1 < k {
      EscapePlace(s, t, n + 1, k);
      InBytes(t, i, Escapes(s)[n + 1]);
      FirstByte(s[n + 1], DigitNext(s, n + 1));
    } else {
      assert t[i] == (Start(s, k) + [QUOTE])[i];
    }
  }

  lemma FirstByte(c: byte, digitNext: bool)
    ensures !IsDigit(c) ==> !IsDigit(Escape(c, digitNext)[0])
  {
  }

  lemma StartLength(s: seq<byte>, n: nat)
    requires n < |s|
    ensures |Start(s, n + 1)| == |Start(s, n)| + |Escapes(s)[n]|
  {
  }

  lemma ReadEscapeOf(s: seq<byte>, n: nat, t: seq<byte>, i: nat, e: chunk)
    requires n < |s| && e == Escapes(s)[n] && LiesAt(t, i, e)
    requires !DigitNext(s, n) ==> !IsOctal(t, i + |e|)
    ensures ReadFrom(t, i) == Behind(s[n], ReadFrom(t, i + |e|))
  {
    ReadEscape(t, i, s[n], DigitNext(s, n));
  }

  lemma ReadStep(s: seq<byte>, t: seq<byte>, n: nat, k: nat)
    requires n < k <= |s| && Start(s, k) + [QUOTE] <= t
    ensures ReadFrom(t, |Start(s, n)|) == Behind(s[n], ReadFrom(t, |Start(s, n + 1)|))
  {
    EscapePlace(s, t, n, k);
    StartLength(s, n);
    if !DigitNext(s, n) {
      NoOctalNext(s, t, n, k);
    }
    ReadEscapeOf(s, n, t, |Start(s, n)|, Escapes(s)[n]);
  }

  lemma FirstOfSlice(s: seq<byte>, n: nat, k: nat)
    requires n < k <= |s|
    ensures s[n..k] == [s[n]] + s[n + 1..k]
  {
  }

  // Printed text is read back from any of its characters on.
  lemma {:induction false} ReadRest(s: seq<byte>, t: seq<byte>, n: nat, k: nat)
    requires n <= k <= |s| && Start(s, k) + [QUOTE] <= t
    ensures ReadFrom(t, |Start(s, n)|) == Some(s[n..k])
    decreases k - n
  {
    if n == k {
      assert t[|Start(s, k)|] == (Start(s, k) + [QUOTE])[|Start(s, k)|];
      assert s[n..k] == [];
    } else {
      ReadRest(s, t, n + 1, k);
      ReadStep(s, t, n, k);
      FirstOfSlice(s, n, k);
    }
  }

  // What is read back is the string when it was not truncated, and otherwise the
  // part that was shown.
  lemma ReadDisplay(s: seq<byte>, nulTerminated: bool, lim: nat)
    ensures var k := Shown(s, lim, 0);
      Read(Display(s, nulTerminated, lim)) == Some(s[..k]) && (s[..k] == s <==> k == |s|)
  {
    var k, t := Shown(s, lim, 0), Display(s, nulTerminated, lim);
    assert Start(s, k) + [QUOTE] <= t;
    ReadRest(s, t, 0, k);
    assert s[0..k] == s[..k];
    assert Start(s, 0) == [QUOTE];
    assert t[0] == Start(s, k)[0];
  }

  // With a limit the output is not much longer than that.
  lemma {:induction false} StartWithin(s: seq<byte>, lim: nat, n: nat)
    requires n <= |s| && lim > 0 && |Start(s, n)| < lim + 4
    ensures |Start(s, Shown(s, lim, n))| < lim + 4
    decreases |s| - n
  {
    if n < |s| && |Start(s, n)| < lim {
      StartNext(s, n);
      StartWithin(s, lim, n + 1);
    } else {
      assert Shown(s, lim, n) == n;
    }
  }

  lemma DisplayWithin(s: seq<byte>, nulTerminated: bool, lim: nat)
    requires lim > 0
    ensures |Display(s, nulTerminated, lim)| <= lim + 9
  {
    StartWithin(s, lim, 0);
  }

  // ---- character by character ----

  // The number that octal digits stand for.
  function OctalValue(o: seq<int>, n: nat): int
    requires n <= |o|
  {
    if n == 0 then 0 else 8 * OctalValue(o, n - 1) + o[n - 1] - 48
  }

  predicate OctalDigits(o: seq<int>) {
    forall i :: 0 <= i < |o| ==> 48 <= o[i] <= 55
  }

  lemma OctalOne(o: seq<int>)
    requires |o| == 1
    ensures OctalValue(o, 1) == o[0] - 48
  {
    assert OctalValue(o, 0) == 0;
  }

  lemma OctalTwo(o: seq<int>)
    requires |o| == 2
    ensures OctalValue(o, 2) == 8 * (o[0] - 48) + o[1] - 48
  {
    assert OctalValue(o, 0) == 0;
    assert OctalValue(o, 1) == o[0] - 48;
  }

  lemma OctalThree(o: seq<int>)
    requires |o| == 3
    ensures OctalValue(o, 3) == 64 * (o[0] - 48) + 8 * (o[1] - 48) + o[2] - 48
  {
    assert OctalValue(o, 0) == 0;
    assert OctalValue(o, 1) == o[0] - 48;
    assert OctalValue(o, 2) == 8 * (o[0] - 48) + o[1] - 48;
  }

  // %03o is three digits, %o as few as it takes.
  lemma OctalIs(c: byte)
    ensures OctalCode(Octal3(c), c, true) && OctalCode(Octal(c), c, false)
  {
    Octal3Is(c);
    if c < 8 {
      OctalOne(Octal(c));
    } else if c < 64 {
      OctalTwo(Octal(c));
    }
  }

  lemma Octal3Is(c: byte)
    ensures |Octal3(c)| == 3 && OctalDigits(Octal3(c)) && OctalValue(Octal3(c), 3) == c
  {
    OctalThree(Octal3(c));
  }

  // A printing character stands for itself, but quote and backslash have a backslash
  // before them; any other is a backslash and octal digits, three if a digit comes
  // next and otherwise as few as it takes.
  lemma EscapeIs(c: byte, digitNext: bool)
    ensures c == 34 || c == 92 ==> Escape(c, digitNext) == [92, c]
    ensures 32 <= c <= 126 && c != 34 && c != 92 ==> Escape(c, digitNext) == [c]
    ensures c < 32 || c > 126 ==> exists o :: Escape(c, digitNext) == [92] + o && OctalCode(o, c, digitNext)
  {
    if c < 32 || c > 126 {
      OctalIs(c);
      var o := if digitNext then Octal3(c) else Octal(c);
      assert Escape(c, digitNext) == [92] + o && OctalCode(o, c, digitNext);
    }
  }

  // o stands for c in octal, in three digits or in no more than it takes.
  predicate OctalCode(o: seq<byte>, c: byte, three: bool) {
    && OctalDigits(o) && OctalValue(o, |o|) == c
    && if three then |o| == 3 else |o| == 1 || (|o| > 1 && o[0] != 48)
  }

  // The text up to where it is cut.
  lemma {:induction false} StartAt(s: seq<byte>, n: nat)
    requires n <= |s|
    ensures Start(s, 0) == [34]
    ensures n > 0 ==>
      Start(s, n) == Start(s, n - 1) + Escape(s[n - 1], n < |s| && 48 <= s[n] <= 57)
  {
    if n > 0 {
      StartNext(s, n - 1);
    }
  }

  // It is cut at the first character that finds the limit reached, and only then.
  lemma {:induction false} ShownIs(s: seq<byte>, lim: nat, n: nat, j: nat)
    requires n <= j < |s|
    ensures j < Shown(s, lim, n) ==> !Reached(s, lim, j)
    ensures j == Shown(s, lim, n) ==> Reached(s, lim, j)
    decreases |s| - n
  {
    if n < j && !Reached(s, lim, n) {
      ShownIs(s, lim, n + 1, j);
    }
  }

  // What closes it: the quote, three dots if it was cut, and backslash zero if a NUL
  // follows the string.
  lemma DisplayEnds(s: seq<byte>, nulTerminated: bool, lim: nat)
    ensures var k := Shown(s, lim, 0);
      && (forall j :: 0 <= j < k ==> !Reached(s, lim, j))
      && (k < |s| ==> Reached(s, lim, k))
      && Display(s, nulTerminated, lim) == Start(s, k) +
        if k < |s| then
          if nulTerminated then [34, 46, 46, 46, 92, 48] else [34, 46, 46, 46]
        else
          if nulTerminated then [34, 92, 48] else [34]
  {
    forall j | 0 <= j < |s|
      ensures (j < Shown(s, lim, 0) ==> !Reached(s, lim, j)) && (j == Shown(s, lim, 0) ==> Reached(s, lim, j))
    {
      ShownIs(s, lim, 0, j);
    }
  }
}
