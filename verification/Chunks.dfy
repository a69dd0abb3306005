// A string read and written a character at a time, each character a chunk of bytes.
module Chunks {
  import opened Common

  type chunk = seq<byte>

  // The longest character.
  const UTF8_MAXLEN := 13

  // The first n chunks, end to end.
  function Concat(cs: seq<chunk>, n: nat): seq<byte>
    requires n <= |cs|
  {
    if n == 0 then [] else Concat(cs, n - 1) + cs[n - 1]
  }

  // c lies in s from i on.
  predicate LiesAt(s: seq<byte>, i: nat, c: chunk) {
    i + |c| <= |s| && s[i..i + |c|] == c
  }

  // Chunk n is where the ones before it end.
  lemma {:induction false} ChunkPlace(cs: seq<chunk>, n: nat, m: nat)
    requires n < m <= |cs|
    ensures LiesAt(Concat(cs, m), |Concat(cs, n)|, cs[n])
  {
    if n + 1 < m {
      ChunkPlace(cs, n, m - 1);
      StillThere(Concat(cs, m - 1), cs[m - 1], |Concat(cs, n)|, cs[n]);
    } else {
      var s := Concat(cs, n);
      assert (s + cs[n])[|s|..|s| + |cs[n]|] == cs[n];
    }
  }

  lemma StillThere(s: seq<byte>, more: seq<byte>, i: nat, c: chunk)
    requires LiesAt(s, i, c)
    ensures LiesAt(s + more, i, c)
  {
    assert (s + more)[i..i + |c|] == s[i..i + |c|];
  }

  // The same behind some text.
  lemma PlaceBehind(head: seq<byte>, cs: seq<chunk>, t: seq<byte>, n: nat, m: nat)
    requires n < m <= |cs| && head + Concat(cs, m) <= t
    ensures LiesAt(t, |head| + |Concat(cs, n)|, cs[n])
  {
    ChunkPlace(cs, n, m);
    var h, i, c, body := |head|, |Concat(cs, n)|, cs[n], Concat(cs, m);
    assert t[h + i..h + i + |c|] == (head + body)[h + i..h + i + |c|];
    assert (head + body)[h + i..h + i + |c|] == body[i..i + |c|];
  }

  lemma {:induction false} ConcatSame(cs: seq<chunk>, ds: seq<chunk>, n: nat)
    requires n <= |cs| && n <= |ds|
    requires forall i :: 0 <= i < n ==> cs[i] == ds[i]
    ensures Concat(cs, n) == Concat(ds, n)
  {
    if n > 0 {
      ConcatSame(cs, ds, n - 1);
    }
  }

  // a starts with out.
  ghost predicate Holds(a: array<byte>, out: seq<byte>)
    reads a
  {
    |out| <= a.Length && forall i :: 0 <= i < |out| ==> a[i] == out[i]
  }

  // Copies bytes behind what has been written.
  method PutBytes(dst: array<byte>, d: nat, bytes: seq<byte>, ghost out: seq<byte>) returns (d': nat)
    requires Holds(dst, out) && d == |out| && d + |bytes| <= dst.Length
    modifies dst
    ensures Holds(dst, out + bytes) && d' == d + |bytes|
  {
    forall i | 0 <= i < |bytes| {
      dst[d + i] := bytes[i];
    }
    d' := d + |bytes|;
    forall i | 0 <= i < d' ensures dst[i] == (out + bytes)[i] {
      assert i >= d ==> dst[d + (i - d)] == bytes[i - d];
    }
  }

  // Renew
  method Renewed(a: array<byte>, size: nat) returns (r: array<byte>)
    requires a.Length <= size
    ensures fresh(r) && r.Length == size
    ensures forall i :: 0 <= i < a.Length ==> r[i] == a[i]
  {
    r := new byte[size];
    forall i | 0 <= i < a.Length {
      r[i] := a[i];
    }
  }
}
