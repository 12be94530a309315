/** Byte strings, as `std::string` and the socket calls see them. */
module Octets {
  newtype Byte = x: int | 0 <= x < 256

  type Bytes = seq<Byte>

  datatype Option<+T> = None | Some(value: T)

  function Min(a: nat, b: nat): nat {
    if a <= b then a else b
  }

  function Zeros(n: nat): Bytes {
    seq(n, _ => 0)
  }

  // The bytes of a string literal of the program; all of its literals are ASCII.
  function Ascii(s: string): Bytes {
    seq(|s|, i requires 0 <= i < |s| => (s[i] as int % 256) as Byte)
  }

  lemma SomeElement(s: set<int>)
    ensures s == {} || exists x :: x in s
  {
    if forall x :: x !in s {
      assert s <= {};
    }
  }
}
