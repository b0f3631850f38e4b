/** What several modules share: optional values, sequences without repetition, the smaller and larger of
    two numbers, products and powers of two. */
module Basics {

  datatype Option<T> = None | Some(value: T)

  /** No element twice. */
  ghost predicate Distinct<T>(s: seq<T>) {
    forall i, j :: 0 <= i < j < |s| ==> s[i] != s[j]
  }

  function Max(x: int, y: int): int { if x > y then x else y }

  function Min(x: int, y: int): int { if x < y then x else y }

  lemma MulMono(a: int, b: int, p: nat)
    requires a <= b
    ensures a * p <= b * p
  {
    assert b * p == a * p + (b - a) * p;
  }

  /** Two to a power. */
  function Two(n: nat): (r: nat)
    ensures r > 0
  {
    if n == 0 then 1 else 2 * Two(n - 1)
  }

  lemma {:induction false} TwoAdd(a: nat, b: nat)
    ensures Two(a + b) == Two(a) * Two(b)
  {
    if a > 0 {
      TwoAdd(a - 1, b);
      assert 2 * Two(a - 1) * Two(b) == 2 * (Two(a - 1) * Two(b));
    }
  }

  lemma {:induction false} TwoMono(a: nat, b: nat)
    requires a <= b
    ensures Two(a) <= Two(b)
  {
    if a < b { TwoMono(a, b - 1); }
  }
}
