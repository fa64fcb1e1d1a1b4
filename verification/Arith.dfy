/** Facts about division that the word and window arithmetic rests on. */
module Arith {
  lemma TimesGap(x: int, y: int, b: nat)
    requires x < y
    ensures x * b + b <= y * b
  {
    var d := y - x - 1;
    ProductNonNegative(d, b);
    assert y * b == (x + 1 + d) * b == x * b + b + d * b;
  }

  lemma ProductNonNegative(a: nat, b: nat)
    ensures a * b >= 0
  {
  }

  lemma TimesAssociates(x: int, y: int, z: int)
    ensures x * y * z == x * (y * z)
  {
  }

  /** Go's integer division truncates toward zero. */
  function TruncDiv(a: int, b: int): int
    requires b > 0
  {
    if a >= 0 then a / b else -((-a) / b)
  }

  lemma TruncDivIs(a: int, b: int)
    requires b > 0
    ensures a >= 0 ==> TruncDiv(a, b) * b <= a < (TruncDiv(a, b) + 1) * b
    ensures a < 0 ==> (TruncDiv(a, b) - 1) * b < a <= TruncDiv(a, b) * b
  {
  }

  function Min(a: int, b: int): int {
    if a < b then a else b
  }

  function Sum(s: seq<int>): int {
    if s == [] then 0 else Sum(s[..|s| - 1]) + s[|s| - 1]
  }

  /** Quotient and remainder are unique. */
  lemma DivUnique(a: int, b: nat, q: int, r: int)
    requires b > 0 && a == q * b + r && 0 <= r < b
    ensures a % b == r && a / b == q
  {
    if a / b < q {
      TimesGap(a / b, q, b);
    } else if q < a / b {
      TimesGap(q, a / b, b);
    }
  }

  /** Stepping by one moves the remainder round and the quotient up at each turn. */
  lemma DivStep(m: nat, n: nat)
    requires n > 0
    ensures if m % n + 1 == n then (m + 1) / n == m / n + 1 && (m + 1) % n == 0
            else (m + 1) / n == m / n && (m + 1) % n == m % n + 1
  {
    if m % n + 1 == n {
      DivUnique(m + 1, n, m / n + 1, 0);
    } else {
      DivUnique(m + 1, n, m / n, m % n + 1);
    }
  }

  /** Multiples of the modulus vanish. */
  lemma ModPlusMultiple(a: int, b: nat, k: int)
    requires b > 0
    ensures (a + k * b) % b == a % b
  {
    DivUnique(a + k * b, b, a / b + k, a % b);
  }
}
