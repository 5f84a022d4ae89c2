/** Small value wrappers shared by the whole model. */
module Basics {

  /** A value that may be absent: TypeScript's `T | undefined` / `T | null`. */
  datatype Option<T> = None | Some(value: T) {

    /** The carried value, or `default` when there is none (`x ?? default`). */
    function GetOr(default: T): T {
      match this
      case Some(v) => v
      case None => default
    }
  }

  /** The outcome of an operation that can fail: a value or an error. */
  datatype Result<T, E> = Ok(value: T) | Err(error: E)

  /** No element occurs twice. */
  predicate Distinct<T(==)>(s: seq<T>) {
    forall i, j :: 0 <= i < j < |s| ==> s[i] != s[j]
  }

  /** A list without repeats is its head, absent from the tail, followed by a tail without repeats. */
  lemma DistinctCons<T>(x: T, s: seq<T>)
    ensures Distinct([x] + s) <==> x !in s && Distinct(s)
  {
    var r := [x] + s;
    if x !in s && Distinct(s) {
      forall a, b | 0 <= a < b < |r| ensures r[a] != r[b] {
        if a == 0 {
          assert r[b] == s[b - 1];
        } else {
          assert r[a] == s[a - 1] && r[b] == s[b - 1];
        }
      }
    }
    if Distinct(r) {
      forall a, b | 0 <= a < b < |s| ensures s[a] != s[b] {
        assert s[a] == r[a + 1] && s[b] == r[b + 1];
      }
      forall j | 0 <= j < |s| ensures s[j] != x {
        assert r[0] == x && s[j] == r[j + 1];
      }
    }
  }

  /** The larger of two integers (`Math.max`). */
  function Max(a: int, b: int): (m: int)
    ensures m >= a && m >= b
    ensures m == a || m == b
  {
    if a >= b then a else b
  }

  /** The smaller of two integers (`Math.min`). */
  function Min(a: int, b: int): (m: int)
    ensures m <= a && m <= b
    ensures m == a || m == b
  {
    if a <= b then a else b
  }
}
