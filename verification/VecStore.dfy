// do_vecset on the string body of a scalar.
module VecStore {
  import opened Common
  import opened PvBuffer
  import opened Vec

  // The store itself, byte by byte, most significant byte first.
  method StoreField(a: array<byte>, n: nat, bit: nat, size: nat, lval: UV)
    requires n <= a.Length
    requires size < 8 ==> bit % 8 + size <= 8
    requires bit / 8 + (if size < 8 then 1 else size / 8) <= n
    modifies a
    ensures a[..n] == Written(old(a[..n]), bit, size, lval)
    ensures forall i :: n <= i < a.Length ==> a[i] == old(a[i])
  {
    var o := bit / 8;
    if size < 8 {
      a[o] := Poke(a[o], bit % 8, size, lval);
    } else if size == 8 {
      a[o] := lval % 256;
    } else if size == 16 {
      a[o] := lval / 0x100 % 256;
      a[o + 1] := lval % 256;
    } else if size == 32 {
      a[o] := lval / 0x100_0000 % 256;
      a[o + 1] := lval / 0x1_0000 % 256;
      a[o + 2] := lval / 0x100 % 256;
      a[o + 3] := lval % 256;
    } else if size == 64 {
      a[o] := lval / 0x100_0000_0000_0000 % 256;
      a[o + 1] := lval / 0x1_0000_0000_0000 % 256;
      a[o + 2] := lval / 0x100_0000_0000 % 256;
      a[o + 3] := lval / 0x1_0000_0000 % 256;
      a[o + 4] := lval / 0x100_0000 % 256;
      a[o + 5] := lval / 0x1_0000 % 256;
      a[o + 6] := lval / 0x100 % 256;
      a[o + 7] := lval % 256;
    }
  }

  method MakeRoom(pv: Pv, len: nat)
    requires pv.Valid()
    modifies pv, pv.buf
    ensures pv.Valid() && (fresh(pv.buf) || pv.buf == old(pv.buf))
    ensures pv.Contents() == Grown(old(pv.Contents()), len)
    ensures pv.Terminated() <==> len > old(pv.cur) || old(pv.Terminated())
  {
    if len > pv.cur {
      pv.Grow(len + 1);
      assert pv.buf[..pv.cur] == old(pv.Contents());
      ghost var was := pv.buf[..pv.cur];
      forall i | pv.cur <= i <= len {
        pv.buf[i] := 0;
      }
      assert pv.buf[..pv.cur] == was;
      pv.cur := len;
    }
  }

  method DoVecSet(pv: Pv, offset: int, size: int, lval: UV) returns (croaked: bool)
    requires pv.Valid()
    modifies pv, pv.buf
    ensures pv.Valid()
    ensures croaked <==> VecSet(old(pv.Contents()), offset, size, lval).Croak?
    ensures croaked ==> pv.Contents() == old(pv.Contents())
    ensures !croaked ==> Ok(pv.Contents()) == VecSet(old(pv.Contents()), offset, size, lval)
    ensures pv.Terminated() <==> pv.cur > old(pv.cur) || old(pv.Terminated())
  {
    if offset < 0 {
      return true;
    }
    if !Legal(size) {
      return true;
    }
    Places(offset, size);
    MakeRoom(pv, Needed(offset, size));
    ghost var terminated := pv.Terminated();
    StoreField(pv.buf, pv.cur, offset * size, size, lval);
    assert pv.Terminated() == terminated;
    return false;
  }
}
