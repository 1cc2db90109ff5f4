/** What several of the models need and none of them owns. */
module Common {
  datatype Option<T> = None | Some(value: T)

  function Min(a: int, b: int): int { if a < b then a else b }

  function Max(a: int, b: int): int { if a < b then b else a }

  type Byte = int

  function Zeroes(n: nat): (z: seq<Byte>)
    ensures |z| == n && forall j :: 0 <= j < n ==> z[j] == 0
  {
    seq(n, _ => 0)
  }
}
