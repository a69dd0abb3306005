// The string body of a scalar: a byte buffer, the bytes of it in use, and a NUL
// after them.
module PvBuffer {
  import opened Common

  class Pv {
    var buf: array<byte>  // SvPVX; its Length is SvLEN
    var cur: nat          // SvCUR

    ghost predicate Valid()
      reads this
    {
      cur < buf.Length
    }

    ghost function Contents(): (s: seq<byte>)
      requires Valid()
      reads this, buf
      ensures |s| == cur
    {
      buf[..cur]
    }

    ghost predicate Terminated()
      requires Valid()
      reads this, buf
    {
      buf[cur] == 0
    }

    constructor (s: seq<byte>)
      ensures Valid() && fresh(buf) && Contents() == s && Terminated()
    {
      cur := |s|;
      buf := new byte[|s| + 1](i => if 0 <= i < |s| then s[i] else 0);
    }

    // SvGROW
    method Grow(n: nat)
      requires Valid()
      modifies `buf
      ensures Valid() && buf.Length >= n && buf.Length >= old(buf.Length)
      ensures fresh(buf) || buf == old(buf)
      ensures forall i :: 0 <= i < old(buf.Length) ==> buf[i] == old(buf[i])
    {
      if buf.Length < n {
        var larger := new byte[n];
        forall i | 0 <= i < buf.Length {
          larger[i] := buf[i];
        }
        buf := larger;
      }
    }

    // sv_setpvn
    method Set(s: seq<byte>)
      requires Valid()
      modifies this, buf
      ensures Valid() && (fresh(buf) || buf == old(buf))
      ensures Contents() == s && Terminated()
    {
      Grow(|s| + 1);
      forall i | 0 <= i < |s| {
        buf[i] := s[i];
      }
      cur := |s|;
      buf[cur] := 0;
    }

    // sv_catpvn
    method Append(s: seq<byte>)
      requires Valid()
      modifies this, buf
      ensures Valid() && (fresh(buf) || buf == old(buf))
      ensures Contents() == old(Contents()) + s
      ensures Terminated()
    {
      Grow(cur + |s| + 1);
      ghost var was := buf[..cur];
      assert was == old(Contents());
      forall i | 0 <= i < |s| {
        buf[cur + i] := s[i];
      }
      assert buf[..cur] == was;
      assert buf[cur..cur + |s|] == s;
      assert buf[..cur + |s|] == buf[..cur] + buf[cur..cur + |s|];
      cur := cur + |s|;
      buf[cur] := 0;
    }
  }
}
