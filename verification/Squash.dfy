// What tr/// writes, told character by character, and how /s squashes it.
module Squash {
  import opened Common

  // A translated character, one left alone, or one whose deletion ends a run.
  datatype Token<T> = Mapped(v: T) | Passed(v: T) | Gap

  // Without /s every character is written.
  function Plain<T>(ts: seq<Token<T>>): seq<T> {
    PlainTo(ts, |ts|)
  }

  function PlainTo<T>(ts: seq<Token<T>>, n: nat): seq<T>
    requires n <= |ts|
  {
    if n == 0 then [] else PlainTo(ts, n - 1) + if ts[n - 1].Gap? then [] else [ts[n - 1].v]
  }

  // With /s a translated character is written unless the one before it was
  // translated to the same thing.
  function Squeeze<T(==)>(ts: seq<Token<T>>): seq<T> {
    SqueezeTo(ts, |ts|)
  }

  function SqueezeTo<T(==)>(ts: seq<Token<T>>, n: nat): seq<T>
    requires n <= |ts|
  {
    if n == 0 then []
    else SqueezeTo(ts, n - 1) + if ts[n - 1].Gap? || Repeats(ts, n - 1) then [] else [ts[n - 1].v]
  }

  predicate Repeats<T(==)>(ts: seq<Token<T>>, i: nat)
    requires i < |ts|
  {
    i > 0 && ts[i].Mapped? && ts[i - 1] == ts[i]
  }

  // What the last token was translated to, if it was.
  function LastMapped<T>(ts: seq<Token<T>>): Option<T> {
    if |ts| > 0 && ts[|ts| - 1].Mapped? then Some(ts[|ts| - 1].v) else None
  }

  function Output<T(==)>(squash: bool, ts: seq<Token<T>>): seq<T> {
    if squash then Squeeze(ts) else Plain(ts)
  }

  // Squashing as the code does it, one token at a time: what has been written and
  // what the last character was translated to.
  datatype State<T> = State(out: seq<T>, last: Option<T>)

  function Feed<T(==)>(st: State<T>, t: Token<T>): State<T> {
    match t
    case Gap => State(st.out, None)
    case Passed(v) => State(st.out + [v], None)
    case Mapped(v) => State(if st.last == Some(v) then st.out else st.out + [v], Some(v))
  }

  function Squeezed<T(==)>(ts: seq<Token<T>>): State<T> {
    State(Squeeze(ts), LastMapped(ts))
  }

  lemma FeedSqueezes<T>(ts: seq<Token<T>>, t: Token<T>)
    ensures Squeezed(ts + [t]) == Feed(Squeezed(ts), t)
  {
    ToSame(ts, ts + [t], |ts|);
  }

  lemma PlainSnoc<T>(ts: seq<Token<T>>, t: Token<T>)
    ensures Plain(ts + [t]) == Plain(ts) + if t.Gap? then [] else [t.v]
  {
    ToSame(ts, ts + [t], |ts|);
  }

  lemma {:induction false} ToSame<T>(ts: seq<Token<T>>, us: seq<Token<T>>, n: nat)
    requires n <= |ts| && n <= |us| && forall i :: 0 <= i < n ==> ts[i] == us[i]
    ensures PlainTo(ts, n) == PlainTo(us, n) && SqueezeTo(ts, n) == SqueezeTo(us, n)
  {
    if n > 0 {
      ToSame(ts, us, n - 1);
    }
  }
}
