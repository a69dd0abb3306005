// Small definitions shared by the models.
module Common {

  // Perl_croak ends the operation; everything else returns a value.
  datatype Result<T> = Ok(value: T) | Croak

  datatype Option<T> = None | Some(value: T)

  // U8
  type byte = x: int | 0 <= x < 256

  predicate IsPow2(n: nat) {
    n == 1 || (n > 1 && n % 2 == 0 && IsPow2(n / 2))
  }

  // A byte of the string continued with zeros.
  function At(s: seq<byte>, i: nat): byte {
    if i < |s| then s[i] else 0
  }
}
