// vec(): fields of 1 to 64 bits in a byte string.  Inside a byte the fields are
// little-endian, across bytes big-endian; reads may run past the end.
module Vec {
  import opened Common
  import opened BitOps

  const TWO64: int := 0x1_0000_0000_0000_0000
  type UV = x: int | 0 <= x < 0x1_0000_0000_0000_0000

  predicate Legal(size: int) {
    size >= 1 && IsPow2(size)
  }

  lemma {:induction false} LegalSizes(size: int)
    requires Legal(size)
    ensures size in {1, 2, 4, 8, 16, 32, 64} || (size > 64 && size % 8 == 0)
  {
    if size > 1 {
      LegalSizes(size / 2);
    }
  }

  // Bytes a string needs so that the field lies inside it.
  function Needed(offset: nat, size: nat): nat {
    (offset * size + size + 7) / 8
  }

  // ---- the code ----

  // A 32-bit pattern read as an int.
  function Signed32(x: nat): int
    requires x < 0x1_0000_0000
  {
    if x >= 0x8000_0000 then x - 0x1_0000_0000 else x
  }

  // (UV) b
  function Wide(b: byte): nat {
    b
  }

  // The reads that stop at the end of the string.  The one term that is not
  // widened before its shift is a signed 32-bit number.
  function ShortGet(s: seq<byte>, o: nat, size: nat): UV
    requires o + size / 8 > |s|
  {
    if size == 16 then
      if o >= |s| then 0 else Wide(s[o]) * 0x100
    else if size == 32 then
      if o >= |s| then 0
      else if o + 1 >= |s| then Wide(s[o]) * 0x100_0000
      else if o + 2 >= |s| then Wide(s[o]) * 0x100_0000 + Wide(s[o + 1]) * 0x1_0000
      else Wide(s[o]) * 0x100_0000 + Wide(s[o + 1]) * 0x1_0000 + Wide(s[o + 2]) * 0x100
    else if size == 64 then
      if o >= |s| then 0
      else if o + 1 >= |s| then
        Wide(s[o]) * 0x100_0000_0000_0000
      else if o + 2 >= |s| then
        Wide(s[o]) * 0x100_0000_0000_0000 + Wide(s[o + 1]) * 0x1_0000_0000_0000
      else if o + 3 >= |s| then
        Wide(s[o]) * 0x100_0000_0000_0000 + Wide(s[o + 1]) * 0x1_0000_0000_0000 + Wide(s[o + 2]) * 0x100_0000_0000
      else if o + 4 >= |s| then
        Wide(s[o]) * 0x100_0000_0000_0000 + Wide(s[o + 1]) * 0x1_0000_0000_0000
        + Wide(s[o + 2]) * 0x100_0000_0000 + Wide(s[o + 3]) * 0x1_0000_0000
      else if o + 5 >= |s| then
        (Wide(s[o]) * 0x100_0000_0000_0000 + Wide(s[o + 1]) * 0x1_0000_0000_0000
         + Wide(s[o + 2]) * 0x100_0000_0000 + Wide(s[o + 3]) * 0x1_0000_0000
         + Signed32(Wide(s[o + 4]) * 0x100_0000)) % TWO64
      else if o + 6 >= |s| then
        Wide(s[o]) * 0x100_0000_0000_0000 + Wide(s[o + 1]) * 0x1_0000_0000_0000
        + Wide(s[o + 2]) * 0x100_0000_0000 + Wide(s[o + 3]) * 0x1_0000_0000
        + Wide(s[o + 4]) * 0x100_0000 + Wide(s[o + 5]) * 0x1_0000
      else
        Wide(s[o]) * 0x100_0000_0000_0000 + Wide(s[o + 1]) * 0x1_0000_0000_0000
        + Wide(s[o + 2]) * 0x100_0000_0000 + Wide(s[o + 3]) * 0x1_0000_0000
        + Wide(s[o + 4]) * 0x100_0000 + Wide(s[o + 5]) * 0x1_0000 + Wide(s[o + 6]) * 0x100
    else
      0
  }

  function FullGet(s: seq<byte>, o: nat, size: nat): UV
    requires o + size / 8 <= |s|
  {
    if size == 8 then Wide(s[o])
    else if size == 16 then Wide(s[o]) * 0x100 + Wide(s[o + 1])
    else if size == 32 then
      Wide(s[o]) * 0x100_0000 + Wide(s[o + 1]) * 0x1_0000 + Wide(s[o + 2]) * 0x100 + Wide(s[o + 3])
    else if size == 64 then
      Wide(s[o]) * 0x100_0000_0000_0000 + Wide(s[o + 1]) * 0x1_0000_0000_0000
      + Wide(s[o + 2]) * 0x100_0000_0000 + Wide(s[o + 3]) * 0x1_0000_0000
      + Wide(s[o + 4]) * 0x100_0000 + Wide(s[o + 5]) * 0x1_0000 + Wide(s[o + 6]) * 0x100 + Wide(s[o + 7])
    else 0
  }

  // do_vecget on the bytes of a string.
  function VecGet(s: seq<byte>, offset: int, size: int): Result<nat> {
    if offset < 0 then Ok(0)
    else if !Legal(size) then Croak
    else
      Places(offset, size);
      var bit := offset * size;
      if Needed(offset, size) > |s| then
        Ok(if size <= 8 then 0 else ShortGet(s, bit / 8, size))
      else if size < 8 then
        Ok(And(Shr(s[bit / 8], bit % 8), Mask(size)))
      else
        Ok(FullGet(s, bit / 8, size))
  }

  // The string after do_vecset has made room for the field.
  function Grown(s: seq<byte>, n: nat): (r: seq<byte>)
    ensures |r| == if n > |s| then n else |s|
    ensures forall i :: 0 <= i < |r| ==> r[i] == if i < |s| then s[i] else 0
  {
    if n > |s| then s + seq(n - |s|, _ => 0) else s
  }

  // A field inside a byte: its bits are cleared and those of lval merged in.
  function Poke(x: byte, sh: nat, w: nat, lval: UV): byte
    requires sh + w <= 8
  {
    PokeIsPut(x, sh, w, lval);
    Or(And(x, 255 - Shl(Mask(w), sh)), Shl(And(lval, Mask(w)), sh))
  }

  // do_vecset writing the field into a string that is long enough.
  function Written(s: seq<byte>, bit: nat, size: nat, lval: UV): (r: seq<byte>)
    requires size < 8 ==> bit % 8 + size <= 8
    requires bit / 8 + (if size < 8 then 1 else size / 8) <= |s|
    ensures |r| == |s|
  {
    var o := bit / 8;
    if size < 8 then s[o := Poke(s[o], bit % 8, size, lval)]
    else if size == 8 then s[o := lval % 256]
    else if size == 16 then s[o := lval / 0x100 % 256][o + 1 := lval % 256]
    else if size == 32 then
      s[o := lval / 0x100_0000 % 256][o + 1 := lval / 0x1_0000 % 256]
       [o + 2 := lval / 0x100 % 256][o + 3 := lval % 256]
    else if size == 64 then
      s[o := lval / 0x100_0000_0000_0000 % 256][o + 1 := lval / 0x1_0000_0000_0000 % 256]
       [o + 2 := lval / 0x100_0000_0000 % 256][o + 3 := lval / 0x1_0000_0000 % 256]
       [o + 4 := lval / 0x100_0000 % 256][o + 5 := lval / 0x1_0000 % 256]
       [o + 6 := lval / 0x100 % 256][o + 7 := lval % 256]
    else s
  }

  // do_vecset on the bytes of a string.
  function VecSet(s: seq<byte>, offset: int, size: int, lval: UV): Result<seq<byte>> {
    if offset < 0 || !Legal(size) then Croak
    else
      Places(offset, size);
      Ok(Written(Grown(s, Needed(offset, size)), offset * size, size, lval))
  }

  // Where a field of a legal size lies.
  lemma Places(k: nat, w: int)
    requires Legal(w)
    ensures w < 8 ==> w in {1, 2, 4} && (k * w) % 8 + w <= 8 && Needed(k, w) == k * w / 8 + 1
    ensures w >= 8 ==> w % 8 == 0 && k * w % 8 == 0 && Needed(k, w) == k * w / 8 + w / 8
    ensures w > 8 ==> w in {16, 32, 64} || w > 64
  {
    LegalSizes(w);
    if w < 8 {
      NarrowPlace(k, w);
    } else {
      WidePlace(k, w, w / 8);
    }
  }

  lemma NarrowPlace(k: nat, w: int)
    requires w in {1, 2, 4}
    ensures (k * w) % 8 + w <= 8
  {
    if w == 1 {
    } else if w == 2 {
      assert k * w == 2 * k;
    } else {
      assert k * w == 4 * k;
    }
  }

  lemma WidePlace(k: nat, w: nat, m: nat)
    requires w == 8 * m
    ensures k * w == 8 * (k * m)
  {
  }

  // ---- what a field is ----

  // n bytes from o on, most significant first.
  function BigEndian(s: seq<byte>, o: nat, n: nat): nat {
    if n == 0 then 0 else 256 * BigEndian(s, o, n - 1) + At(s, o + n - 1)
  }

  // The field as the string continued with zeros holds it; fields wider than 64
  // bits read as 0.
  function Field(s: seq<byte>, k: nat, w: nat): nat {
    FieldAt(s, k * w, w)
  }

  function FieldAt(s: seq<byte>, bit: nat, w: nat): nat {
    if w < 8 then Bits(At(s, bit / 8), bit % 8, w)
    else if w > 64 then 0
    else BigEndian(s, bit / 8, w / 8)
  }

  // A 64-bit read that finds exactly five bytes, the last with its top bit set.
  predicate Clipped(s: seq<byte>, k: nat, w: nat) {
    w == 64 && |s| == 8 * k + 5 && s[8 * k + 4] >= 0x80
  }

  // The widths that a read can have, byte by byte.
  lemma BigEndianNext(s: seq<byte>, o: nat, n: nat, x: nat)
    requires x == BigEndian(s, o, n)
    ensures BigEndian(s, o, n + 1) == 256 * x + At(s, o + n)
  {
  }

  lemma BigEndianBytes(s: seq<byte>, o: nat)
    ensures BigEndian(s, o, 1) == At(s, o)
    ensures BigEndian(s, o, 2) == At(s, o) * 0x100 + At(s, o + 1)
    ensures BigEndian(s, o, 4) == At(s, o) * 0x100_0000 + At(s, o + 1) * 0x1_0000 + At(s, o + 2) * 0x100 + At(s, o + 3)
  {
    BigEndianNext(s, o, 0, 0);
    BigEndianNext(s, o, 1, At(s, o));
    BigEndianNext(s, o, 2, At(s, o) * 0x100 + At(s, o + 1));
    BigEndianNext(s, o, 3, At(s, o) * 0x1_0000 + At(s, o + 1) * 0x100 + At(s, o + 2));
  }

  lemma BigEndianHalves(s: seq<byte>, o: nat)
    ensures BigEndian(s, o, 8) == BigEndian(s, o, 4) * 0x1_0000_0000 + BigEndian(s, o + 4, 4)
  {
    var x := BigEndian(s, o, 4);
    BigEndianBytes(s, o + 4);
    BigEndianNext(s, o, 4, x);
    BigEndianNext(s, o, 5, x * 0x100 + At(s, o + 4));
    BigEndianNext(s, o, 6, x * 0x1_0000 + At(s, o + 4) * 0x100 + At(s, o + 5));
    BigEndianNext(s, o, 7, x * 0x100_0000 + At(s, o + 4) * 0x1_0000 + At(s, o + 5) * 0x100 + At(s, o + 6));
  }

  // ---- reads are reads of the string continued with zeros ----

  lemma ShortReads(s: seq<byte>, o: nat, size: nat)
    requires size == 16 || size == 32
    requires o + size / 8 > |s|
    ensures ShortGet(s, o, size) == BigEndian(s, o, size / 8)
  {
    BigEndianBytes(s, o);
  }

  lemma LongShortReads(s: seq<byte>, k: nat)
    requires 8 * k + 8 > |s|
    ensures ShortGet(s, 8 * k, 64) ==
      if Clipped(s, k, 64) then (BigEndian(s, 8 * k, 8) - 0x1_0000_0000) % TWO64 else BigEndian(s, 8 * k, 8)
  {
    BigEndianEight(s, 8 * k);
  }

  lemma BigEndianEight(s: seq<byte>, o: nat)
    ensures BigEndian(s, o, 8) ==
      At(s, o) * 0x100_0000_0000_0000 + At(s, o + 1) * 0x1_0000_0000_0000
      + At(s, o + 2) * 0x100_0000_0000 + At(s, o + 3) * 0x1_0000_0000
      + At(s, o + 4) * 0x100_0000 + At(s, o + 5) * 0x1_0000 + At(s, o + 6) * 0x100 + At(s, o + 7)
  {
    BigEndianBytes(s, o);
    BigEndianBytes(s, o + 4);
    BigEndianHalves(s, o);
  }

  lemma FullReads(s: seq<byte>, o: nat, size: nat)
    requires size in {8, 16, 32, 64} && o + size / 8 <= |s|
    ensures FullGet(s, o, size) == BigEndian(s, o, size / 8)
  {
    BigEndianBytes(s, o);
    BigEndianEight(s, o);
  }

  // do_vecget reads the field of the zero-continued string, unless the widest
  // read is clipped.
  lemma GetReadsField(s: seq<byte>, k: nat, w: int)
    requires Legal(w)
    ensures VecGet(s, k, w) == Ok(Field(s, k, w)) <==> !Clipped(s, k, w)
    ensures Clipped(s, k, w) ==> VecGet(s, k, w) == Ok((Field(s, k, w) - 0x1_0000_0000) % TWO64)
  {
    Places(k, w);
    var o := k * w / 8;
    if w < 8 {
      if Needed(k, w) <= |s| {
        ShiftAndMask(s[o], k * w % 8, w);
      } else {
        BitsOfZero(k * w % 8, w);
      }
    } else if Needed(k, w) <= |s| {
      if w <= 64 {
        FullReads(s, o, w);
      }
    } else if w == 8 {
      BigEndianBytes(s, o);
    } else if w == 64 {
      LongShortReads(s, k);
      BigEndianBelow(s, o, 8);
    } else if w < 64 {
      ShortReads(s, o, w);
    }
  }

  lemma BigEndianBelow(s: seq<byte>, o: nat, n: nat)
    requires n == 8
    ensures BigEndian(s, o, n) < TWO64
  {
    BigEndianEight(s, o);
  }

  // Five bytes, the last with its top bit set: the missing cast shows.
  lemma MissingCast()
    ensures var s := [0, 0, 0, 0, 0x80];
      && Clipped(s, 0, 64)
      && VecGet(s, 0, 64) == Ok(0xFFFF_FFFF_8000_0000)
      && VecGet(s, 0, 32) == Ok(0) && VecGet(s, 1, 32) == Ok(0x8000_0000)
  {
    LegalWidths();
  }

  // ---- the width-doubling law ----

  // Inside a byte the wider field is its low half and, above it, its high half;
  // across bytes the first half is the more significant one.
  lemma FieldDoubles(s: seq<byte>, k: nat, w: nat)
    requires w in {1, 2, 4, 8, 16, 32}
    ensures w < 8 ==> Field(s, k, 2 * w) == Field(s, 2 * k, w) + Pow2(w) * Field(s, 2 * k + 1, w)
    ensures w >= 8 ==> Field(s, k, 2 * w) == Pow2(w) * Field(s, 2 * k, w) + Field(s, 2 * k + 1, w)
  {
    LegalWidths();
    Places(k, 2 * w);
    PairPlaces(k, w);
    if w < 8 {
      NarrowDoubles(s, k * (2 * w), w);
    } else {
      Pow2Bytes();
      WideDoubles(s, k * (2 * w), w, w / 8, Pow2(w));
    }
  }

  lemma PairPlaces(k: nat, w: nat)
    ensures 2 * k * w == k * (2 * w) && (2 * k + 1) * w == k * (2 * w) + w
  {
  }

  lemma NarrowDoubles(s: seq<byte>, bit: nat, w: nat)
    requires w in {1, 2, 4} && bit % 8 + 2 * w <= 8
    ensures FieldAt(s, bit, 2 * w) == FieldAt(s, bit, w) + Pow2(w) * FieldAt(s, bit + w, w)
  {
    var i, a := bit / 8, bit % 8;
    BitsDouble(At(s, i), a, w);
    assert (bit + w) / 8 == i && (bit + w) % 8 == a + w;
    if w == 4 {
      ByteIsField(s, bit);
    }
  }

  lemma BitsDouble(x: byte, a: nat, w: nat)
    ensures Bits(x, a, 2 * w) == Bits(x, a, w) + Pow2(w) * Bits(x, a + w, w)
  {
    BitsJoin(x, a, w, w);
    ShlIsTimes(Bits(x, a + w, w), w);
  }

  lemma ByteIsField(s: seq<byte>, bit: nat)
    requires bit % 8 == 0
    ensures FieldAt(s, bit, 8) == Bits(At(s, bit / 8), 0, 8)
  {
    ByteIsBits(At(s, bit / 8), 8);
    FieldIsBytes(s, bit, 8, 1);
    BigEndianNext(s, bit / 8, 0, 0);
  }

  lemma ByteIsBits(x: byte, c: nat)
    requires c == 8
    ensures Bits(x, 0, c) == x
  {
    Pow2Bytes();
    BitsAll(x, c);
  }

  lemma FieldIsBytes(s: seq<byte>, bit: nat, w: nat, n: nat)
    requires w == 8 * n && 1 <= n <= 8
    ensures FieldAt(s, bit, w) == BigEndian(s, bit / 8, n)
  {
  }

  lemma WideDoubles(s: seq<byte>, bit: nat, w: nat, n: nat, p: nat)
    requires (n == 1 && p == 0x100) || (n == 2 && p == 0x1_0000) || (n == 4 && p == 0x1_0000_0000)
    requires w == 8 * n && bit % 8 == 0
    ensures FieldAt(s, bit, 2 * w) == p * FieldAt(s, bit, w) + FieldAt(s, bit + w, w)
  {
    var o := bit / 8;
    FieldIsBytes(s, bit, 2 * w, 2 * n);
    FieldIsBytes(s, bit, w, n);
    FieldIsBytes(s, bit + w, w, n);
    assert (bit + w) / 8 == o + n;
    HalvesJoin(s, o, n, p);
  }

  lemma HalvesJoin(s: seq<byte>, o: nat, n: nat, p: nat)
    requires (n == 1 && p == 0x100) || (n == 2 && p == 0x1_0000) || (n == 4 && p == 0x1_0000_0000)
    ensures BigEndian(s, o, 2 * n) == p * BigEndian(s, o, n) + BigEndian(s, o + n, n)
  {
    BigEndianBytes(s, o);
    BigEndianBytes(s, o + n);
    BigEndianHalves(s, o);
  }

  // The same law for do_vecget: it holds of every string and index below 64 bits,
  // and of a 64-bit read exactly when that read is not clipped.
  lemma GetDoubles(s: seq<byte>, k: nat, w: nat)
    requires w in {1, 2, 4, 8, 16, 32}
    ensures VecGet(s, k, 2 * w).Ok? && VecGet(s, 2 * k, w).Ok? && VecGet(s, 2 * k + 1, w).Ok?
    ensures w < 8 ==>
      VecGet(s, k, 2 * w).value == VecGet(s, 2 * k, w).value + Pow2(w) * VecGet(s, 2 * k + 1, w).value
    ensures w >= 8 ==>
      (VecGet(s, k, 2 * w).value == Pow2(w) * VecGet(s, 2 * k, w).value + VecGet(s, 2 * k + 1, w).value
       <==> !Clipped(s, k, 2 * w))
  {
    LegalWidths();
    GetIsField(s, 2 * k, w);
    GetIsField(s, 2 * k + 1, w);
    GetReadsField(s, k, 2 * w);
    FieldDoubles(s, k, w);
  }

  // Reads of up to 32 bits are never clipped.
  lemma GetIsField(s: seq<byte>, k: nat, w: int)
    requires Legal(w) && w < 64
    ensures VecGet(s, k, w) == Ok(Field(s, k, w))
  {
    GetReadsField(s, k, w);
  }

  lemma LegalWidths()
    ensures forall w :: w in {1, 2, 4, 8, 16, 32, 64} ==> Legal(w)
  {
    assert IsPow2(1) && IsPow2(2) && IsPow2(4) && IsPow2(8);
    assert IsPow2(16) && IsPow2(32) && IsPow2(64);
  }

  // ---- writing ----

  lemma PokeIsPut(x: byte, sh: nat, w: nat, lval: UV)
    requires sh + w <= 8
    ensures Mask(8) == 255 && Shl(Mask(w), sh) <= 255
    ensures Or(And(x, 255 - Shl(Mask(w), sh)), Shl(And(lval, Mask(w)), sh)) == Put(x, Bits(lval, 0, w), sh, w) < 256
  {
    Pow2Bytes();
    MaskIsPow2(8);
    HoleIsNotMask(sh, w, 8);
    AndMask(lval, w);
    BitsAreMod(lval, w);
    Merge(x, Bits(lval, 0, w), sh, w, 8);
    PutBelow(x, Bits(lval, 0, w), sh, w, 8);
  }

  lemma {:induction false} ByteOfShift(v: nat, m: nat, p: nat)
    requires p == Pow2(8 * m)
    ensures ByteOf(v, m) == v / p % 256
  {
    if m > 0 {
      var q := Pow2(8 * (m - 1));
      Pow2Adds(8 * (m - 1), 8);
      Pow2Bytes();
      ByteOfShift(v / 256, m - 1, q);
      DivTwice(v, q);
    }
  }

  lemma DivTwice(v: nat, q: nat)
    requires q >= 1
    ensures v / (q * 256) == v / 256 / q
  {
    var a, r := v / 256 / q, v / 256 % q;
    assert v == a * (q * 256) + (256 * r + v % 256) by {
      assert 256 * (a * q) == a * (q * 256);
    }
    ModUnique(v, q * 256, a, 256 * r + v % 256);
  }

  lemma ByteShifts(v: nat)
    ensures ByteOf(v, 0) == v % 256
    ensures ByteOf(v, 1) == v / 0x100 % 256
    ensures ByteOf(v, 2) == v / 0x1_0000 % 256
    ensures ByteOf(v, 3) == v / 0x100_0000 % 256
    ensures ByteOf(v, 4) == v / 0x1_0000_0000 % 256
    ensures ByteOf(v, 5) == v / 0x100_0000_0000 % 256
    ensures ByteOf(v, 6) == v / 0x1_0000_0000_0000 % 256
    ensures ByteOf(v, 7) == v / 0x100_0000_0000_0000 % 256
  {
    Pow2Bytes();
    Pow2Adds(16, 8);
    Pow2Adds(32, 8);
    Pow2Adds(32, 16);
    Pow2Adds(48, 8);
    ByteOfShift(v, 1, 0x100);
    ByteOfShift(v, 2, 0x1_0000);
    ByteOfShift(v, 3, 0x100_0000);
    ByteOfShift(v, 4, 0x1_0000_0000);
    ByteOfShift(v, 5, 0x100_0000_0000);
    ByteOfShift(v, 6, 0x1_0000_0000_0000);
    ByteOfShift(v, 7, 0x100_0000_0000_0000);
  }

  // A whole-byte store, byte by byte.
  lemma StoredBytes(s: seq<byte>, bit: nat, n: nat, v: UV, i: nat)
    requires n in {1, 2, 4, 8} && bit / 8 + n <= |s|
    ensures At(Written(s, bit, 8 * n, v), i) ==
      if bit / 8 <= i < bit / 8 + n then ByteOf(v, bit / 8 + n - 1 - i) else At(s, i)
  {
    ByteShifts(v);
  }

  lemma StoredBits(s: seq<byte>, bit: nat, w: nat, v: UV, i: nat)
    requires w < 8 && bit % 8 + w <= 8 && bit / 8 < |s|
    ensures At(Written(s, bit, w, v), i) ==
      if i == bit / 8 then Put(At(s, i), Bits(v, 0, w), bit % 8, w) else At(s, i)
  {
    PokeIsPut(s[bit / 8], bit % 8, w, v);
  }

  // What do_vecset leaves in each byte.
  lemma SetBytes(s: seq<byte>, k: nat, w: int, v: UV, i: nat)
    requires Legal(w)
    ensures VecSet(s, k, w, v).Ok?
    ensures var t, o := VecSet(s, k, w, v).value, k * w / 8;
      && |t| == (if Needed(k, w) > |s| then Needed(k, w) else |s|)
      && At(t, i) ==
         if w < 8 && i == o then Put(At(s, i), Bits(v, 0, w), k * w % 8, w)
         else if 8 <= w <= 64 && o <= i < o + w / 8 then ByteOf(v, o + w / 8 - 1 - i)
         else At(s, i)
  {
    Places(k, w);
    var g := Grown(s, Needed(k, w));
    if w < 8 {
      StoredBits(g, k * w, w, v, i);
    } else if w <= 64 {
      StoredBytes(g, k * w, w / 8, v, i);
    }
  }

  predicate HoldsLow(t: seq<byte>, o: nat, n: nat, v: nat) {
    forall i :: o <= i < o + n ==> At(t, i) == ByteOf(v, o + n - 1 - i)
  }

  // n bytes holding the low end of v are v modulo 256^n.
  lemma {:induction false} BytesOf(t: seq<byte>, o: nat, n: nat, v: nat)
    requires HoldsLow(t, o, n, v)
    ensures BigEndian(t, o, n) == v % Pow2(8 * n)
  {
    if n > 0 {
      forall i | o <= i < o + (n - 1) ensures At(t, i) == ByteOf(v / 256, o + (n - 1) - 1 - i) {
        assert ByteOf(v, o + n - 1 - i) == ByteOf(v / 256, o + n - 2 - i);
      }
      BytesOf(t, o, n - 1, v / 256);
      assert At(t, o + n - 1) == ByteOf(v, 0);
      ByteMore(v, n);
    }
  }

  lemma ByteMore(v: nat, n: nat)
    requires n > 0
    ensures v % Pow2(8 * n) == 256 * (v / 256 % Pow2(8 * (n - 1))) + v % 256
  {
    Pow2Adds(8 * (n - 1), 8);
    Pow2Bytes();
    ByteMod(v, Pow2(8 * (n - 1)));
  }

  lemma ByteMod(v: nat, p: nat)
    requires p >= 1
    ensures v % (p * 256) == 256 * (v / 256 % p) + v % 256
  {
    var q, r := v / 256 / p, 256 * (v / 256 % p) + v % 256;
    assert 256 * (q * p) == q * (p * 256);
    ModUnique(v, p * 256, q, r);
  }

  // Reading back what was stored gives its low w bits.
  lemma GetAfterSet(s: seq<byte>, k: nat, w: int, v: UV)
    requires Legal(w)
    ensures VecSet(s, k, w, v).Ok?
    ensures VecGet(VecSet(s, k, w, v).value, k, w) == Ok(if w <= 64 then v % Pow2(w) else 0)
  {
    SetBytes(s, k, w, v, k * w / 8);
    Places(k, w);
    var t := VecSet(s, k, w, v).value;
    GetReadsField(t, k, w);
    if w < 8 {
      BitsOfPut(At(s, k * w / 8), Bits(v, 0, w), k * w % 8, w);
      BitsAgain(v, w);
    } else if w <= 64 {
      BytesAfterSet(s, k, w, v, w / 8);
    }
  }

  lemma BytesAfterSet(s: seq<byte>, k: nat, w: int, v: UV, n: nat)
    requires Legal(w) && w == 8 * n && n <= 8
    ensures VecSet(s, k, w, v).Ok?
    ensures Field(VecSet(s, k, w, v).value, k, w) == v % Pow2(w)
  {
    var o := k * w / 8;
    var t := VecSet(s, k, w, v).value;
    forall i | o <= i < o + n ensures At(t, i) == ByteOf(v, o + n - 1 - i) {
      SetBytes(s, k, w, v, i);
    }
    BytesOf(t, o, n, v);
    FieldIsBytes(t, k * w, w, n);
  }

  lemma BitsAgain(v: nat, w: nat)
    ensures Bits(Bits(v, 0, w), 0, w) == v % Pow2(w)
  {
    BitsAreMod(v, w);
    BitsAreMod(Bits(v, 0, w), w);
    ModMod(v, Pow2(w));
  }

  lemma ModMod(v: nat, p: nat)
    requires p >= 1
    ensures v % p % p == v % p
  {
  }

  lemma {:induction false} BigEndianSame(s: seq<byte>, t: seq<byte>, o: nat, n: nat)
    requires forall i :: o <= i < o + n ==> At(s, i) == At(t, i)
    ensures BigEndian(s, o, n) == BigEndian(t, o, n)
  {
    if n > 0 {
      BigEndianSame(s, t, o, n - 1);
    }
  }

  predicate Overlap(j: nat, u: nat, k: nat, w: nat) {
    j * u < k * w + w && k * w < j * u + u
  }

  // Every field that shares no bit with the stored one is still there.
  lemma FieldBesideSet(s: seq<byte>, k: nat, w: int, v: UV, j: nat, u: int)
    requires Legal(w) && Legal(u) && !Overlap(j, u, k, w)
    ensures VecSet(s, k, w, v).Ok?
    ensures Field(VecSet(s, k, w, v).value, j, u) == Field(s, j, u)
  {
    Places(k, w);
    Places(j, u);
    var o := j * u / 8;
    SetBytes(s, k, w, v, o);
    var t := VecSet(s, k, w, v).value;
    if u < 8 {
      if w < 8 && o == k * w / 8 {
        BitsBesidePut(At(s, o), Bits(v, 0, w), k * w % 8, w, j * u % 8, u);
      }
    } else if u <= 64 {
      forall i | o <= i < o + u / 8 ensures At(s, i) == At(t, i) {
        SetBytes(s, k, w, v, i);
      }
      BigEndianSame(s, t, o, u / 8);
    }
  }

  // do_vecget reads every such field as before, unless the store lengthened the
  // string past the end of a clipped read.
  lemma GetBesideSet(s: seq<byte>, k: nat, w: int, v: UV, j: nat, u: int)
    requires Legal(w) && Legal(u) && !Overlap(j, u, k, w)
    ensures VecSet(s, k, w, v).Ok?
    ensures VecGet(VecSet(s, k, w, v).value, j, u) == VecGet(s, j, u)
      <==> !(Clipped(s, j, u) && Needed(k, w) > |s|)
  {
    FieldBesideSet(s, k, w, v, j, u);
    ClippedBesideSet(s, k, w, v, j, u);
    GetReadsField(s, j, u);
    GetReadsField(VecSet(s, k, w, v).value, j, u);
  }

  // The read of MissingCast, and a byte stored behind it.
  lemma StoreUnclips()
    ensures var s := [0, 0, 0, 0, 0x80];
      && !Overlap(0, 64, 8, 8) && VecSet(s, 8, 8, 0).Ok?
      && VecGet(VecSet(s, 8, 8, 0).value, 0, 64) != VecGet(s, 0, 64)
  {
    LegalWidths();
    GetBesideSet([0, 0, 0, 0, 0x80], 8, 8, 0, 0, 64);
  }

  lemma ClippedBesideSet(s: seq<byte>, k: nat, w: int, v: UV, j: nat, u: int)
    requires Legal(w) && Legal(u) && !Overlap(j, u, k, w)
    ensures VecSet(s, k, w, v).Ok?
    ensures Clipped(VecSet(s, k, w, v).value, j, u) <==> Clipped(s, j, u) && Needed(k, w) <= |s|
  {
    var i := 8 * j + 4;
    SetBytes(s, k, w, v, i);
    if u == 64 {
      Places(k, w);
      WidePlace(j, u, 8);
      var t := VecSet(s, k, w, v).value;
      assert At(t, i) == At(s, i);
      assert i < |t| ==> At(t, i) == t[i];
      assert i < |s| ==> At(s, i) == s[i];
    }
  }

  // The string grows to hold the field and no further, and what it gains outside
  // the field is zero.
  lemma SetShape(s: seq<byte>, k: nat, w: int, v: UV)
    requires Legal(w)
    ensures VecSet(s, k, w, v).Ok?
    ensures var t, o := VecSet(s, k, w, v).value, k * w / 8;
      && |t| == (if Needed(k, w) > |s| then Needed(k, w) else |s|)
      && forall i :: 0 <= i < |t| && (w > 64 || !(o <= i < Needed(k, w))) ==> t[i] == if i < |s| then s[i] else 0
  {
    Places(k, w);
    SetBytes(s, k, w, v, 0);
    var t, o := VecSet(s, k, w, v).value, k * w / 8;
    forall i | 0 <= i < |t| && w <= 64 && !(o <= i < Needed(k, w)) ensures t[i] == if i < |s| then s[i] else 0 {
      SetBytes(s, k, w, v, i);
      assert At(t, i) == t[i];
    }
  }

  // Which arguments are refused: do_vecget has nothing at a negative index before it
  // looks at the width.
  lemma Refused(s: seq<byte>, offset: int, size: int, lval: UV)
    ensures offset < 0 ==> VecGet(s, offset, size) == Ok(0) && VecSet(s, offset, size, lval) == Croak
    ensures offset >= 0 ==>
      if IsPower(size) then VecGet(s, offset, size).Ok? && VecSet(s, offset, size, lval).Ok?
      else VecGet(s, offset, size) == Croak && VecSet(s, offset, size, lval) == Croak
  {
    LegalIs(size);
    if offset >= 0 {
      GetAccepts(s, offset, size);
      SetAccepts(s, offset, size, lval);
    }
  }

  lemma GetAccepts(s: seq<byte>, k: nat, size: int)
    ensures if Legal(size) then VecGet(s, k, size).Ok? else VecGet(s, k, size) == Croak
  {
    if Legal(size) {
      GetReadsField(s, k, size);
    }
  }

  lemma SetAccepts(s: seq<byte>, k: nat, size: int, lval: UV)
    ensures if Legal(size) then VecSet(s, k, size, lval).Ok? else VecSet(s, k, size, lval) == Croak
  {
  }

  // 1, 2, 4 and so on
  ghost predicate IsPower(size: int) {
    exists n: nat :: size == Pow2(n)
  }

  lemma LegalIs(size: int)
    ensures Legal(size) <==> IsPower(size)
  {
    if Legal(size) {
      assert size == Pow2(Exponent(size));
    }
    if n: nat :| size == Pow2(n) {
      Pow2IsLegal(n);
    }
  }

  function Exponent(size: nat): (n: nat)
    requires IsPow2(size)
    ensures size == Pow2(n)
  {
    if size == 1 then 0 else 1 + Exponent(size / 2)
  }

  lemma {:induction false} Pow2IsLegal(n: nat)
    ensures Legal(Pow2(n))
  {
    if n > 0 {
      Pow2IsLegal(n - 1);
      assert Pow2(n) / 2 == Pow2(n - 1);
    }
  }

  // Fields of eight bits are the bytes, fields of one bit their bits from the
  // lowest up; the doubling law gives the others.
  lemma SmallFields(s: seq<byte>, k: nat)
    ensures VecGet(s, k, 8) == Ok(At(s, k))
    ensures VecGet(s, k, 1) == Ok(Shr(At(s, k / 8), k % 8) % 2)
  {
    LegalWidths();
    GetIsField(s, k, 8);
    GetIsField(s, k, 1);
    ByteField(s, k);
    BitIsShift(At(s, k / 8), k % 8);
    assert k * 1 == k;
  }

  lemma ByteField(s: seq<byte>, k: nat)
    ensures Field(s, k, 8) == At(s, k)
  {
    assert k * 8 / 8 == k;
    BigEndianBytes(s, k);
  }

  lemma {:induction false} BitIsShift(x: nat, a: nat)
    ensures Bits(x, a, 1) == Shr(x, a) % 2
  {
    if a > 0 {
      BitIsShift(x / 2, a - 1);
    }
  }
}
