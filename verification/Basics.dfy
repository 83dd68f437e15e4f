/** Shared value types: optional values, results that carry an error, and octets. */
module Basics {
  datatype Option<+T> = None | Some(value: T)

  datatype Result<+T, +E> = Ok(value: T) | Err(error: E)

  /** An octet of a wire format. Shifts and masks are written as arithmetic. */
  type Byte = b: int | 0 <= b < 256

  type Bytes = seq<Byte>

  function Flatten<T>(parts: seq<seq<T>>): seq<T> {
    if parts == [] then [] else parts[0] + Flatten(parts[1..])
  }

  lemma {:induction false} FlattenAppend<T>(a: seq<seq<T>>, b: seq<seq<T>>)
    ensures Flatten(a + b) == Flatten(a) + Flatten(b)
  {
    if a == [] {
      assert a + b == b;
    } else {
      var first, rest := a[0], a[1..];
      FlattenAppend(rest, b);
      assert (a + b)[1..] == rest + b && (a + b)[0] == first;
      assert Flatten(a + b) == first + Flatten(rest + b);
      Associate(first, Flatten(rest), Flatten(b));
    }
  }

  lemma Associate<T>(a: seq<T>, b: seq<T>, c: seq<T>)
    ensures a + (b + c) == (a + b) + c
  {
  }
}
