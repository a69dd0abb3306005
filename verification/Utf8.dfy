// UTF-8 as section 3 of RFC 3629 lays it out, carried on the way Perl does to every
// 64-bit number: up to seven bytes, and thirteen for the largest.  Surrogates are
// encoded like any other code point.
module Utf8 {
  import opened Chunks
  import opened Common

  type cp = x: int | 0 <= x < 0x1_0000_0000_0000_0000

  // UNISKIP: how many bytes c takes.
  function Length(c: cp): (n: nat)
    ensures 1 <= n <= UTF8_MAXLEN
  {
    if c < 0x80 then 1
    else if c < 0x800 then 2
    else if c < 0x1_0000 then 3
    else if c < 0x20_0000 then 4
    else if c < 0x400_0000 then 5
    else if c < 0x8000_0000 then 6
    else if c < 0x10_0000_0000 then 7
    else 13
  }

  // The first byte of n, apart from the bits of the character in it.
  function Mark(n: nat): byte {
    if n == 1 then 0 else if n == 2 then 0xC0 else if n == 3 then 0xE0 else if n == 4 then 0xF0
    else if n == 5 then 0xF8 else if n == 6 then 0xFC else if n == 7 then 0xFE else 0xFF
  }

  // How many values those bits have.
  function Room(n: nat): nat
    ensures Room(n) > 0
  {
    if n == 1 then 0x80 else if n == 2 then 0x20 else if n == 3 then 0x10 else if n == 4 then 8
    else if n == 5 then 4 else if n == 6 then 2 else 1
  }

  // The six low bits of x, in a continuation byte.
  function Tail(x: nat): byte {
    0x80 + x % 0x40
  }

  // What is left of c in front of n continuation bytes, and those bytes.
  function High(c: nat, n: nat): nat {
    if n == 0 then c else High(c / 0x40, n - 1)
  }

  function Tails(c: nat, n: nat): (r: seq<byte>)
    ensures |r| == n
  {
    if n == 0 then [] else Tails(c / 0x40, n - 1) + [Tail(c)]
  }

  function Enc(c: cp): (r: seq<byte>)
    ensures |r| == Length(c)
  {
    HighFits(c);
    var n := Length(c);
    [Mark(n) + High(c, n - 1)] + Tails(c, n - 1)
  }

  lemma {:induction false} HighBelow(c: nat, n: nat, m: nat)
    requires m > 0 && c < m * Power64(n)
    ensures High(c, n) < m
  {
    if n > 0 {
      HalfBelow(c, m * Power64(n - 1), m, n);
      HighBelow(c / 0x40, n - 1, m);
    }
  }

  function Power64(n: nat): nat {
    if n == 0 then 1 else 0x40 * Power64(n - 1)
  }

  lemma HalfBelow(c: nat, p: nat, m: nat, n: nat)
    requires n > 0 && p == m * Power64(n - 1) && c < m * Power64(n)
    ensures c / 0x40 < p
  {
    assert m * (0x40 * Power64(n - 1)) == 0x40 * p;
  }

  // What is left fits in the first byte.
  lemma HighFits(c: cp)
    ensures var n := Length(c); High(c, n - 1) < Room(n) && Mark(n) + High(c, n - 1) < 256
  {
    var n := Length(c);
    Powers();
    HighBelow(c, n - 1, Room(n));
  }

  lemma Powers()
    ensures Power64(1) == 0x40
    ensures Power64(2) == 0x1000
    ensures Power64(3) == 0x4_0000
    ensures Power64(4) == 0x100_0000
    ensures Power64(5) == 0x4000_0000
    ensures Power64(6) == 0x10_0000_0000
    ensures Power64(12) >= 0x1_0000_0000_0000_0000
  {
    assert Power64(7) == 0x400_0000_0000 && Power64(8) == 0x1_0000_0000_0000;
    assert Power64(10) == 0x1000 * Power64(8) && Power64(12) == 0x1000 * Power64(10);
  }

  // The forms of the RFC.
  lemma Forms(c: cp)
    ensures c < 0x80 ==> Enc(c) == [c]
    ensures 0x80 <= c < 0x800 ==> Enc(c) == [0xC0 + c / 0x40, Tail(c)]
    ensures 0x800 <= c < 0x1_0000 ==> Enc(c) == [0xE0 + c / 0x40 / 0x40, Tail(c / 0x40), Tail(c)]
    ensures 0x1_0000 <= c < 0x11_0000 ==>
      Enc(c) == [0xF0 + c / 0x40 / 0x40 / 0x40, Tail(c / 0x40 / 0x40), Tail(c / 0x40), Tail(c)]
  {
    var x, y := c / 0x40, c / 0x40 / 0x40;
    OneTail(c);
    TwoTails(x, c);
    ThreeTails(y, x, c);
    Highs(c);
    FirstAndRest(c);
  }

  lemma Highs(c: nat)
    ensures High(c, 1) == c / 0x40 && High(c, 2) == c / 0x40 / 0x40 && High(c, 3) == c / 0x40 / 0x40 / 0x40
  {
    var x, y := c / 0x40, c / 0x40 / 0x40;
    assert High(y, 1) == y / 0x40;
    assert High(x, 1) == y && High(x, 2) == High(y, 1);
    assert High(c, 1) == x && High(c, 2) == High(x, 1) && High(c, 3) == High(x, 2);
  }

  lemma OneTail(c: nat)
    ensures Tails(c, 0) == [] && Tails(c, 1) == [Tail(c)]
  {
    assert Tails(c / 0x40, 0) == [];
  }

  lemma TwoTails(x: nat, c: nat)
    requires x == c / 0x40
    ensures Tails(c, 2) == [Tail(x), Tail(c)]
  {
    OneTail(x);
    assert Tails(c, 2) == Tails(x, 1) + [Tail(c)];
  }

  lemma ThreeTails(y: nat, x: nat, c: nat)
    requires x == c / 0x40 && y == x / 0x40
    ensures Tails(c, 3) == [Tail(y), Tail(x), Tail(c)]
  {
    TwoTails(y, x);
    assert Tails(c, 3) == Tails(x, 2) + [Tail(c)];
  }

  // Beyond the RFC: five to seven bytes, then thirteen, all but the first with the
  // mark of a continuation byte.
  lemma LongForms(c: cp)
    requires c >= 0x11_0000
    ensures var e := Enc(c);
      && (if c < 0x20_0000 then |e| == 4 && 0xF4 <= e[0] <= 0xF7
          else if c < 0x400_0000 then |e| == 5 && 0xF8 <= e[0] <= 0xFB
          else if c < 0x8000_0000 then |e| == 6 && 0xFC <= e[0] <= 0xFD
          else if c < 0x10_0000_0000 then |e| == 7 && e[0] == 0xFE
          else |e| == 13 && e[0] == 0xFF)
      && forall i :: 0 < i < |e| ==> 0x80 <= e[i] < 0xC0
  {
    var n := Length(c);
    FirstAndRest(c);
    HighFits(c);
    TailsAreTails(c, n - 1);
    if n == 4 {
      Highs(c);
    }
  }

  lemma {:induction false} TailsAreTails(c: nat, n: nat)
    ensures forall i :: 0 <= i < n ==> 0x80 <= Tails(c, n)[i] < 0xC0
  {
    if n > 0 {
      TailsAreTails(c / 0x40, n - 1);
    }
  }

  lemma FirstAndRest(c: cp)
    ensures Enc(c) == [Mark(Length(c)) + High(c, Length(c) - 1)] + Tails(c, Length(c) - 1)
  {
  }

  // UTF8SKIP: how long the character starting with b is.
  function Skip(b: byte): nat {
    if b < 0x80 then 1 else if b < 0xE0 then 2 else if b < 0xF0 then 3 else if b < 0xF8 then 4
    else if b < 0xFC then 5 else if b < 0xFE then 6 else if b < 0xFF then 7 else 13
  }

  // The bits read so far and those of a continuation byte put together.
  function Join(x: nat, b: nat): nat {
    x * 0x40 + b % 0x40
  }

  // x and the bits of n bytes from i on.
  function Accumulate(s: seq<byte>, i: nat, n: nat, x: nat): nat
    requires i + n <= |s|
  {
    if n == 0 then x else Join(Accumulate(s, i, n - 1, x), s[i + n - 1])
  }

  // The code point whose bytes start at i, read without checking them.
  function CharAt(s: seq<byte>, i: nat): nat
    requires i < |s| && i + Skip(s[i]) <= |s|
  {
    var n := Skip(s[i]);
    Accumulate(s, i + 1, n - 1, s[i] % Room(n))
  }

  lemma Bytes(s: seq<byte>, i: nat, c: chunk)
    requires LiesAt(s, i, c)
    ensures forall j :: i <= j < i + |c| ==> s[j] == c[j - i]
  {
    forall j | i <= j < i + |c| ensures s[j] == c[j - i] {
      assert s[j] == s[i..i + |c|][j - i];
    }
  }

  lemma JoinTail(x: nat)
    ensures Join(x / 0x40, Tail(x)) == x
  {
  }

  // Continuation bytes put the rest of the code point back.
  lemma {:induction false} TailsAccumulate(s: seq<byte>, i: nat, n: nat, c: nat)
    requires i + n <= |s| && forall j :: i <= j < i + n ==> s[j] == Tails(c, n)[j - i]
    ensures Accumulate(s, i, n, High(c, n)) == c
  {
    if n > 0 {
      forall j | i <= j < i + (n - 1) ensures s[j] == Tails(c / 0x40, n - 1)[j - i] {
        assert s[j] == Tails(c, n)[j - i];
      }
      TailsAccumulate(s, i, n - 1, c / 0x40);
      assert s[i + n - 1] == Tails(c, n)[n - 1];
      JoinTail(c);
    }
  }

  // The marker bits tell the length, and come off.
  lemma MarkComesOff(n: nat, high: nat)
    requires (1 <= n <= 7 || n == 13) && high < Room(n)
    ensures Mark(n) + high < 256
    ensures Skip(Mark(n) + high) == n && (Mark(n) + high) % Room(n) == high
  {
  }

  lemma CharAtEnc(s: seq<byte>, i: nat, c: cp)
    requires LiesAt(s, i, Enc(c))
    ensures Skip(s[i]) == |Enc(c)| && CharAt(s, i) == c
  {
    var n, e := Length(c), Enc(c);
    var high := High(c, n - 1);
    HighFits(c);
    Bytes(s, i, e);
    assert s[i] == e[0] == Mark(n) + high;
    MarkComesOff(n, high);
    forall j | i + 1 <= j < i + 1 + (n - 1) ensures s[j] == Tails(c, n - 1)[j - (i + 1)] {
      assert s[j] == e[j - i];
    }
    TailsAccumulate(s, i + 1, n - 1, c);
  }

  function Encoded(cs: seq<cp>): (r: seq<chunk>)
    ensures |r| == |cs|
  {
    seq(|cs|, i requires 0 <= i < |cs| => Enc(cs[i]))
  }

  function Encode(cs: seq<cp>): seq<byte> {
    Concat(Encoded(cs), |cs|)
  }

  // Reading character after character; None when the last one is cut off.
  function Decode(s: seq<byte>, i: nat): Option<seq<nat>>
    requires i <= |s|
    decreases |s| - i
  {
    if i == |s| then Some([])
    else if i + Skip(s[i]) > |s| then None
    else
      match Decode(s, i + Skip(s[i]))
      case Some(rest) => Some([CharAt(s, i)] + rest)
      case None => None
  }

  lemma {:induction false} DecodeFrom(cs: seq<cp>, chars: seq<chunk>, n: nat)
    requires n <= |cs| && chars == Encoded(cs)
    ensures |Concat(chars, n)| <= |Concat(chars, |cs|)|
    ensures Decode(Concat(chars, |cs|), |Concat(chars, n)|) == Some(cs[n..])
    decreases |cs| - n
  {
    if n < |cs| {
      DecodeFrom(cs, chars, n + 1);
      ChunkPlace(chars, n, |cs|);
      DecodeNext(Concat(chars, |cs|), |Concat(chars, n)|, cs[n], cs[n + 1..]);
      assert cs[n..] == [cs[n]] + cs[n + 1..];
    } else {
      assert cs[n..] == [];
    }
  }

  lemma DecodeNext(s: seq<byte>, i: nat, c: cp, rest: seq<nat>)
    requires LiesAt(s, i, Enc(c)) && Decode(s, i + |Enc(c)|) == Some(rest)
    ensures Decode(s, i) == Some([c] + rest)
  {
    CharAtEnc(s, i, c);
  }

  // What is encoded is read back.
  lemma DecodeEncode(cs: seq<cp>)
    ensures Decode(Encode(cs), 0) == Some(cs)
  {
    DecodeFrom(cs, Encoded(cs), 0);
    assert cs[0..] == cs;
  }
}
