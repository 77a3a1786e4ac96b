/** Binary digits of natural numbers, and powers of two. */
module Binary {
  function Pow2(n: nat): (r: nat)
    ensures r > 0
  {
    if n == 0 then 1 else 2 * Pow2(n - 1)
  }

  /** Binary digit `p` of a number. */
  predicate Bit(x: nat, p: nat) {
    if p == 0 then x % 2 == 1 else Bit(x / 2, p - 1)
  }

  /** `x` moved down by `n` binary digits. */
  function Down(x: nat, n: nat): (r: nat)
    ensures r <= x
  {
    if n == 0 then x else Down(x / 2, n - 1)
  }

  /** Moving down is division by a power of two, rounded down. */
  lemma {:induction false} DownDivides(x: nat, n: nat)
    ensures Down(x, n) * Pow2(n) <= x < (Down(x, n) + 1) * Pow2(n)
  {
    if n > 0 {
      DownDivides(x / 2, n - 1);
      Twice(Down(x, n), Pow2(n - 1));
      Twice(Down(x, n) + 1, Pow2(n - 1));
    }
  }

  lemma Twice(k: nat, d: nat)
    ensures k * (2 * d) == 2 * (k * d)
  {
  }

  lemma {:induction false} BitOfDown(x: nat, n: nat, p: nat)
    ensures Bit(Down(x, n), p) == Bit(x, n + p)
  {
    if n > 0 {
      BitOfDown(x / 2, n - 1, p);
    }
  }

  lemma Pow2Of32()
    ensures Pow2(32) == 0x1_0000_0000
  {
    assert Pow2(8) == 0x100;
    assert Pow2(16) == 0x1_0000;
    assert Pow2(24) == 0x100_0000;
  }

  /** A number below 2^n is determined by its n lowest binary digits. */
  lemma {:induction false} BitsDetermine(x: nat, y: nat, n: nat)
    requires x < Pow2(n) && y < Pow2(n)
    requires forall p :: 0 <= p < n ==> Bit(x, p) == Bit(y, p)
    ensures x == y
  {
    if n > 0 {
      assert Bit(x, 0) == Bit(y, 0);
      forall p | 0 <= p < n - 1 ensures Bit(x / 2, p) == Bit(y / 2, p) {
        assert Bit(x, p + 1) == Bit(y, p + 1);
      }
      BitsDetermine(x / 2, y / 2, n - 1);
    }
  }

  lemma DivUnique(x: nat, d: nat, q: int, r: int)
    requires d > 0 && x == q * d + r && 0 <= r < d
    ensures x / d == q && x % d == r
  {
    var q' := x / d;
    assert x == q' * d + x % d;
    if q > q' {
      Multiple(q - q', q, q', d);
    } else if q < q' {
      Multiple(q' - q, q', q, d);
    }
  }

  lemma Multiple(k: int, q: int, q': int, d: int)
    requires k >= 1 && d > 0 && k == q - q'
    ensures q * d >= q' * d + d
  {
    assert q * d == q' * d + k * d;
    assert k * d == (k - 1) * d + d;
  }

  /** The remainder by a power of two keeps the digits below it. */
  lemma {:induction false} BitOfRemainder(x: nat, n: nat, p: nat)
    requires p < n
    ensures Bit(x % Pow2(n), p) == Bit(x, p)
  {
    var d := Pow2(n - 1);
    var q := x / (2 * d);
    var y := x % (2 * d);
    assert x == 2 * (q * d) + y;
    assert y % 2 == x % 2 && y / 2 == x / 2 - q * d;
    if p > 0 {
      BitOfRemainder(x / 2, n - 1, p - 1);
      assert 0 <= y / 2 < d;
      assert x / 2 == q * d + y / 2;
      DivUnique(x / 2, d, q, y / 2);
    }
  }

  /** Bitwise and. */
  function And(a: nat, b: nat): nat {
    if a == 0 || b == 0 then 0 else (if a % 2 == 1 && b % 2 == 1 then 1 else 0) + 2 * And(a / 2, b / 2)
  }

  lemma {:induction false} AndDigits(a: nat, b: nat, p: nat)
    ensures Bit(And(a, b), p) == (Bit(a, p) && Bit(b, p))
  {
    if a == 0 || b == 0 {
      ZeroDigit(p);
    } else if p > 0 {
      AndDigits(a / 2, b / 2, p - 1);
    }
  }

  lemma {:induction false} ZeroDigit(p: nat)
    ensures !Bit(0, p)
  {
    if p > 0 {
      ZeroDigit(p - 1);
    }
  }

  /** A multiple of 2d is an even number whose half is a multiple of d. */
  lemma EvenMultiple(x: nat, d: nat)
    requires d > 0
    ensures x % (2 * d) == 0 <==> x % 2 == 0 && x / 2 % d == 0
  {
    var q, r := x / 2 / d, x / 2 % d;
    assert x / 2 == q * d + r;
    Twice(q, d);
    DivUnique(x, 2 * d, q, 2 * r + x % 2);
  }
}
