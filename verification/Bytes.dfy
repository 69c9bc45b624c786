/** Octets, sequences of octets and a little arithmetic, shared by the other modules. */
module Bytes {

  type Byte = x: int | 0 <= x < 256

  /** All the pieces, one after the other. */
  function Flatten(pieces: seq<seq<Byte>>): seq<Byte> {
    if pieces == [] then [] else pieces[0] + Flatten(pieces[1..])
  }

  lemma {:induction false} FlattenConcat(a: seq<seq<Byte>>, b: seq<seq<Byte>>)
    ensures Flatten(a + b) == Flatten(a) + Flatten(b)
  {
    if a == [] {
      assert a + b == b;
    } else {
      assert (a + b)[1..] == a[1..] + b;
      FlattenConcat(a[1..], b);
    }
  }

  lemma FlattenSnoc(a: seq<seq<Byte>>, piece: seq<Byte>)
    ensures Flatten(a + [piece]) == Flatten(a) + piece
  {
    FlattenConcat(a, [piece]);
    assert Flatten([piece]) == piece + Flatten([]);
  }

  function Min(a: int, b: int): int {
    if a <= b then a else b
  }

  function Max(a: int, b: int): int {
    if a >= b then a else b
  }

  function Pow2(n: nat): (p: nat)
    ensures p > 0
  {
    if n == 0 then 1 else 2 * Pow2(n - 1)
  }
}
