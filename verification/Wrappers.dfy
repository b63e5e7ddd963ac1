/** What every module shares: the Option type, 64-bit integers, and a law of sequences the solver
    needs by name. */
module Wrappers {

  datatype Option<+T> = None | Some(value: T)

  const LIMIT: int := 0x8000_0000_0000_0000

  /** Go's int. */
  type Int64 = n: int | -LIMIT <= n < LIMIT

  /** What 64 bits keep of a sum or a product. */
  function Wrap64(n: int): (r: Int64)
    ensures -LIMIT <= n < LIMIT ==> r == n
    ensures LIMIT <= n < 3 * LIMIT ==> r == n - 2 * LIMIT
  {
    (n + LIMIT) % (2 * LIMIT) - LIMIT
  }

  /** Wrapping after every addition is wrapping once. */
  lemma WrapAdd(a: int, b: int)
    ensures Wrap64(Wrap64(a) + b) == Wrap64(a + b)
  {
  }

  lemma Assoc<T>(a: seq<T>, b: seq<T>, c: seq<T>)
    ensures (a + b) + c == a + (b + c)
  {
  }
}
