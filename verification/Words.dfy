/**
 Machine words as natural numbers, with the bitwise operators defined bit by bit.  Words of every
 width are covered; a fixed width is a bound on the number.
 */
module Words {

  predicate Bit(a: nat, n: nat)
    decreases n
  {
    if n == 0 then a % 2 == 1 else Bit(a / 2, n - 1)
  }

  function And(a: nat, b: nat): nat
    decreases a
  {
    if a == 0 || b == 0 then 0 else 2 * And(a / 2, b / 2) + if a % 2 == 1 && b % 2 == 1 then 1 else 0
  }

  function Or(a: nat, b: nat): nat
    decreases a
  {
    if a == 0 then b else if b == 0 then a
    else 2 * Or(a / 2, b / 2) + if a % 2 == 1 || b % 2 == 1 then 1 else 0
  }

  function Xor(a: nat, b: nat): nat
    decreases a
  {
    if a == 0 then b else if b == 0 then a
    else 2 * Xor(a / 2, b / 2) + if a % 2 != b % 2 then 1 else 0
  }

  /** `1 << n`. */
  function Pow2(n: nat): (r: nat)
    ensures r >= 1
  {
    if n == 0 then 1 else 2 * Pow2(n - 1)
  }

  lemma Half(x: nat, i: nat)
    requires i < 2
    ensures (2 * x + i) / 2 == x && (2 * x + i) % 2 == i
  {
  }

  lemma {:induction false} ZeroBits(n: nat)
    ensures !Bit(0, n)
  {
    if n > 0 {
      ZeroBits(n - 1);
    }
  }

  lemma {:induction false} AndBit(a: nat, b: nat, n: nat)
    ensures Bit(And(a, b), n) <==> Bit(a, n) && Bit(b, n)
    decreases n
  {
    if a == 0 || b == 0 {
      ZeroBits(n);
    } else if n > 0 {
      AndBit(a / 2, b / 2, n - 1);
      Half(And(a / 2, b / 2), And(a, b) % 2);
    }
  }

  lemma {:induction false} OrBit(a: nat, b: nat, n: nat)
    ensures Bit(Or(a, b), n) <==> Bit(a, n) || Bit(b, n)
    decreases n
  {
    if a == 0 || b == 0 {
      ZeroBits(n);
    } else if n > 0 {
      OrBit(a / 2, b / 2, n - 1);
      Half(Or(a / 2, b / 2), Or(a, b) % 2);
    }
  }

  lemma {:induction false} XorBit(a: nat, b: nat, n: nat)
    ensures Bit(Xor(a, b), n) <==> Bit(a, n) != Bit(b, n)
    decreases n
  {
    if a == 0 || b == 0 {
      ZeroBits(n);
    } else if n > 0 {
      XorBit(a / 2, b / 2, n - 1);
      Half(Xor(a / 2, b / 2), Xor(a, b) % 2);
    }
  }

  lemma {:induction false} Pow2Mono(j: nat, k: nat)
    requires j <= k
    ensures Pow2(j) <= Pow2(k)
    decreases k
  {
    if j < k {
      Pow2Mono(j, k - 1);
    }
  }

  lemma {:induction false} Pow2Bit(k: nat, n: nat)
    ensures Bit(Pow2(k), n) <==> n == k
    decreases n
  {
    if k == 0 {
      if n > 0 {
        ZeroBits(n - 1);
      }
    } else if n > 0 {
      Pow2Bit(k - 1, n - 1);
      assert Pow2(k) / 2 == Pow2(k - 1);
    }
  }

  /** A nonzero word has a set bit. */
  lemma {:induction false} SomeBit(a: nat) returns (n: nat)
    requires a > 0
    ensures Bit(a, n)
    decreases a
  {
    if a % 2 == 1 {
      n := 0;
    } else {
      n := SomeBit(a / 2);
      n := n + 1;
    }
  }

  /** The single-bit test `a & (1 << n) == 0`. */
  lemma TestBit(a: nat, n: nat)
    ensures And(a, Pow2(n)) == 0 <==> !Bit(a, n)
  {
    AndBit(a, Pow2(n), n);
    Pow2Bit(n, n);
    ZeroBits(n);
    if And(a, Pow2(n)) > 0 {
      var k := SomeBit(And(a, Pow2(n)));
      AndBit(a, Pow2(n), k);
      Pow2Bit(n, k);
    }
  }

  /** The low `k` bits of `a`. */
  function Low(a: nat, k: nat): (r: nat)
    ensures r < Pow2(k)
    decreases k
  {
    if k == 0 then 0 else 2 * Low(a / 2, k - 1) + a % 2
  }

  lemma NoMultipleBetween(m: int, x: int)
    requires m > 0 && -m < m * x < m
    ensures x == 0
  {
  }

  lemma Divide(a: int, m: int)
    requires m > 0
    ensures a == m * (a / m) + a % m && 0 <= a % m < m
  {
  }

  /** A quotient and a small enough rest determine the remainder. */
  lemma Remainder(q: nat, r: nat, m: nat)
    requires r < m
    ensures (m * q + r) % m == r
  {
    var a := m * q + r;
    Divide(a, m);
    var d := q - a / m;
    assert m * d == m * q - m * (a / m);
    NoMultipleBetween(m, d);
  }

  lemma {:induction false} LowQuotient(a: nat, k: nat) returns (q: nat)
    ensures a == Pow2(k) * q + Low(a, k)
    decreases k
  {
    if k == 0 {
      q := a;
    } else {
      q := LowQuotient(a / 2, k - 1);
      assert 2 * (Pow2(k - 1) * q) == Pow2(k) * q;
    }
  }

  /** The low `k` bits are the remainder modulo `2^k`. */
  lemma LowIsMod(a: nat, k: nat)
    ensures Low(a, k) == a % Pow2(k)
  {
    var q := LowQuotient(a, k);
    Remainder(q, Low(a, k), Pow2(k));
  }

  lemma {:induction false} LowZero(k: nat)
    ensures Low(0, k) == 0
  {
    if k > 0 {
      LowZero(k - 1);
    }
  }

  /** `a & ((1 << k) - 1)` keeps exactly the low `k` bits. */
  lemma {:induction false} LowMask(a: nat, k: nat)
    ensures And(a, Pow2(k) - 1) == Low(a, k)
    decreases k
  {
    if a == 0 {
      LowZero(k);
    } else if k > 0 {
      LowMask(a / 2, k - 1);
      var m := Pow2(k) - 1;
      assert m / 2 == Pow2(k - 1) - 1 && m % 2 == 1 && m > 0;
    }
  }

  /** The low bits of an or are the or of the low bits. */
  lemma {:induction false} OrLow(a: nat, b: nat, k: nat)
    ensures Low(Or(a, b), k) == Or(Low(a, k), Low(b, k))
    decreases k
  {
    if a == 0 || b == 0 {
      LowZero(k);
    } else if k > 0 {
      OrLow(a / 2, b / 2, k - 1);
      assert Or(a, b) / 2 == Or(a / 2, b / 2);
      OrHalves(Low(a / 2, k - 1), a % 2, Low(b / 2, k - 1), b % 2);
    }
  }

  lemma OrHalves(x: nat, i: nat, y: nat, j: nat)
    requires i < 2 && j < 2
    ensures Or(2 * x + i, 2 * y + j) == 2 * Or(x, y) + if i == 1 || j == 1 then 1 else 0
  {
  }

  /** Equal low bits: the test `(a ^ b) & ((1 << k) - 1) == 0`. */
  lemma {:induction false} XorLow(a: nat, b: nat, k: nat)
    ensures Low(Xor(a, b), k) == 0 <==> Low(a, k) == Low(b, k)
    decreases k
  {
    if a == 0 || b == 0 {
      LowZero(k);
    } else if k > 0 {
      XorLow(a / 2, b / 2, k - 1);
      assert Xor(a, b) / 2 == Xor(a / 2, b / 2);
    }
  }

  /** Agreeing in the low `k` bits is agreeing modulo `2^k`. */
  lemma LowAgree(a: nat, b: nat, k: nat)
    ensures Low(a, k) == Low(b, k) <==> a % Pow2(k) == b % Pow2(k)
  {
    LowIsMod(a, k);
    LowIsMod(b, k);
  }
}
