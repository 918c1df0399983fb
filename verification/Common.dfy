// What several parts share: options, the mark that guards definitions, decimal digits, truncating
// division and powers.
module Common {
  datatype Option<+T> = None | Some(value: T)

  // Always true. Definitions under `forall k {:trigger Look(k)} :: Look(k) ==> ...` are only looked
  // into where Look is named. In the same way a predicate that is compared with true in a contract is
  // handed on as a whole.
  ghost predicate Look(k: int) { true }

  predicate IsDigit(c: char) { '0' <= c <= '9' }

  // Division of integers as C defines it: the quotient is truncated toward zero.
  function Quotient(a: int, b: int): int
    requires b > 0
  {
    if a >= 0 then a / b else -(-a / b)
  }

  function Power(base: nat, k: nat): (p: nat)
    requires base >= 2
    ensures p >= 1
  {
    if k == 0 then 1 else base * Power(base, k - 1)
  }

  lemma {:induction false} DivisionIsUnique(n: nat, m: nat, q: nat, r: nat)
    requires m > 0 && n == m * q + r && r < m
    ensures n / m == q && n % m == r
  {
    Multiples(m, q, n / m);
    Multiples(m, n / m, q);
  }

  lemma Multiples(m: nat, a: int, b: int)
    requires m > 0
    ensures a < b ==> m * a + m <= m * b
  {
    if a < b {
      var d := b - a - 1;
      assert b == a + 1 + d && m * b == m * a + m + m * d;
      assert m * d >= 0;
    }
  }
}
