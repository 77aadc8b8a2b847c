/** Products, quotients and remainders the other modules' words and indices rest on. */
module WordArithmetic {

  /** Bytes a machine word holds. */
  predicate IsWidth(w: nat) {
    w == 2 || w == 4 || w == 8
  }

  lemma {:induction false} DivMod(a: nat, b: nat, h: nat)
    requires b < h
    ensures (a * h + b) / h == a && (a * h + b) % h == b
  {
    var q, r := (a * h + b) / h, (a * h + b) % h;
    assert a * h + b == q * h + r;
    assert (a - q) * h == r - b by { Distribute(a, -q, h); }
    Between(a - q, h);
  }

  lemma {:induction false} Distribute(a: int, b: int, h: int)
    ensures (a + b) * h == a * h + b * h
  {
  }

  /** A multiple of `h` strictly between `-h` and `h` is none. */
  lemma {:induction false} Between(n: int, h: int)
    requires -h < n * h < h
    ensures n == 0
  {
    if n >= 1 {
      Times(n, h);
    } else if n <= -1 {
      Times(-n, h);
    }
  }

  lemma {:induction false} Times(n: int, h: int)
    requires n >= 1 && h >= 0
    ensures n * h >= h
  {
  }

  lemma {:induction false} Below(a: nat, m: nat)
    requires a < m
    ensures a % m == a
  {
  }

  /** A quotient and a remainder told apart. */
  lemma {:induction false} ModIs(x: int, k: int, r: int, m: nat)
    requires x == k * m + r && 0 <= r < m
    ensures x % m == r && x / m == k
  {
    assert x == (x / m) * m + x % m;
    Distribute(x / m, -k, m);
    Between(x / m - k, m);
  }

  /** Whole laps change no remainder. */
  lemma {:induction false} ModAdds(a: int, q: int, m: nat)
    requires m >= 1
    ensures (q * m + a) % m == a % m
  {
    Distribute(q, a / m, m);
    ModIs(q * m + a, q + a / m, a % m, m);
  }

  /** Two counts less than a lap apart have different remainders. */
  lemma {:induction false} ModApart(a: int, b: int, m: nat)
    requires a < b < a + m
    ensures a % m != b % m
  {
    var q := b / m - a / m;
    Distribute(b / m, -(a / m), m);
    assert b - a == q * m + (b % m - a % m);
    if q >= 1 {
      Times(q, m);
    } else if q <= -1 {
      Times(-q, m);
    }
  }

  /** A remainder taken on the way changes none taken after. */
  lemma {:induction false} ModShifts(a: int, b: int, m: nat)
    requires m >= 1
    ensures (a % m + b) % m == (a + b) % m
  {
    ModAdds(a % m + b, a / m, m);
  }

  lemma {:induction false} TimesNonNegative(a: nat, b: nat)
    ensures a * b >= 0
  {
  }

  function Pow2(n: nat): nat
    ensures Pow2(n) >= 1
  {
    if n == 0 then 1 else 2 * Pow2(n - 1)
  }

  lemma {:induction false} Pow2Adds(a: nat, b: nat)
    ensures Pow2(a + b) == Pow2(a) * Pow2(b)
  {
    if a > 0 {
      Pow2Adds(a - 1, b);
    }
  }

  lemma {:induction false} Pow2Grows(a: nat, b: nat)
    requires a <= b
    ensures Pow2(a) <= Pow2(b)
  {
    if a < b {
      Pow2Grows(a, b - 1);
    }
  }

  lemma {:induction false} Pow2Small()
    ensures Pow2(0) == 1 && Pow2(1) == 2 && Pow2(2) == 4 && Pow2(3) == 8
    ensures Pow2(4) == 16 && Pow2(5) == 32 && Pow2(6) == 64 && Pow2(7) == 128 && Pow2(8) == 256
  {
  }
}
