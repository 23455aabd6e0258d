/** Small definitions that several modules share. */
module Common {

  datatype Option<T> = None | Some(value: T)

  function Max(a: nat, b: nat): (m: nat)
    ensures a <= m && b <= m && (m == a || m == b)
  {
    if a < b then b else a
  }

  /** A byte of a text that ends with a NUL. */
  function At(s: string, i: nat): char {
    if i < |s| then s[i] else '\0'
  }

  predicate Distinct<T(==)>(s: seq<T>) {
    forall i, j :: 0 <= i < j < |s| ==> s[i] != s[j]
  }

  function Power(base: nat, n: nat): nat {
    if n == 0 then 1 else base * Power(base, n - 1)
  }

  lemma {:induction false} PowerPositive(base: nat, n: nat)
    requires base > 0
    ensures Power(base, n) > 0
  {
    if n > 0 {
      PowerPositive(base, n - 1);
      Positive(base, Power(base, n - 1));
    }
  }

  lemma Positive(a: nat, b: nat)
    requires a > 0 && b > 0
    ensures a * b > 0
  {
  }

  /** Division with a remainder. */
  lemma Divide(x: int, n: int) returns (q: int)
    requires n > 0
    ensures x == q * n + x % n && q == x / n && (x >= 0 ==> q >= 0)
  {
    q := x / n;
  }

  function Turned(x: int, m: int, n: int): int {
    x + m * n
  }

  /** The two numbers differ by a multiple of n. */
  ghost predicate Congruent(x: int, y: int, n: int) {
    exists m: int :: x == Turned(y, m, n)
  }
}
