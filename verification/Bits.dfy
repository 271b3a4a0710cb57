/** Python's bitwise operators: integers of either sign as infinite two's-complement bit strings. */
module Bits {
  function Magnitude(a: int): nat {
    if a < 0 then -a - 1 else a
  }

  /** Bit `n` of `a`; a negative number has all high bits set. */
  predicate TestBit(a: int, n: nat)
    decreases n
  {
    if n == 0 then a % 2 == 1 else TestBit(a / 2, n - 1)
  }

  /** `a & b` */
  function And(a: int, b: int): int
    decreases Magnitude(a)
  {
    if a == 0 then 0
    else if a == -1 then b
    else 2 * And(a / 2, b / 2) + (if a % 2 == 1 && b % 2 == 1 then 1 else 0)
  }

  /** `a | b` */
  function Or(a: int, b: int): int
    decreases Magnitude(a)
  {
    if a == 0 then b
    else if a == -1 then -1
    else 2 * Or(a / 2, b / 2) + (if a % 2 == 1 || b % 2 == 1 then 1 else 0)
  }

  /** `~a` */
  function Not(a: int): int {
    -a - 1
  }

  /** `2 ** n` */
  function Pow2(n: nat): (p: int)
    ensures p > 0
  {
    if n == 0 then 1 else 2 * Pow2(n - 1)
  }

  lemma {:induction false} ConstantBits(n: nat)
    ensures !TestBit(0, n) && TestBit(-1, n)
    decreases n
  {
    if n > 0 {
      ConstantBits(n - 1);
    }
  }

  lemma {:induction false} AndBit(a: int, b: int, n: nat)
    ensures TestBit(And(a, b), n) <==> TestBit(a, n) && TestBit(b, n)
    decreases n
  {
    ConstantBits(n);
    if n > 0 {
      AndBit(a / 2, b / 2, n - 1);
    }
  }

  lemma {:induction false} OrBit(a: int, b: int, n: nat)
    ensures TestBit(Or(a, b), n) <==> TestBit(a, n) || TestBit(b, n)
    decreases n
  {
    ConstantBits(n);
    if n > 0 {
      OrBit(a / 2, b / 2, n - 1);
    }
  }

  lemma {:induction false} NotBit(a: int, n: nat)
    ensures TestBit(Not(a), n) <==> !TestBit(a, n)
    decreases n
  {
    if n > 0 {
      assert Not(a) / 2 == Not(a / 2);
      NotBit(a / 2, n - 1);
    }
  }

  lemma {:induction false} Pow2Bit(n: nat, k: nat)
    ensures TestBit(Pow2(n), k) <==> k == n
    decreases k
  {
    if n == 0 {
      if k > 0 {
        ConstantBits(k - 1);
      }
    } else if k > 0 {
      assert Pow2(n) / 2 == Pow2(n - 1);
      Pow2Bit(n - 1, k - 1);
    }
  }

  /** Integers with the same bits are equal. */
  lemma {:induction false} SameBits(a: int, b: int)
    requires forall n: nat :: TestBit(a, n) <==> TestBit(b, n)
    ensures a == b
    decreases Magnitude(a) + Magnitude(b)
  {
    assert TestBit(a, 0) <==> TestBit(b, 0);
    if (a == 0 || a == -1) && (b == 0 || b == -1) {
    } else {
      forall n: nat
        ensures TestBit(a / 2, n) <==> TestBit(b / 2, n)
      {
        assert TestBit(a, n + 1) <==> TestBit(b, n + 1);
      }
      SameBits(a / 2, b / 2);
    }
  }

  lemma MulAtLeast(x: int, d: int)
    requires d > 0
    ensures x >= 1 ==> x * d >= d
    ensures x <= -1 ==> x * d <= -d
  {
    if x >= 1 {
      assert (x - 1) * d >= 0;
    } else if x <= -1 {
      assert (-1 - x) * d >= 0;
    }
  }

  lemma ModUnique(a: int, d: int, q: int, r: int)
    requires d > 0 && 0 <= r < d && a == q * d + r
    ensures a % d == r
  {
    var q' := a / d;
    assert a == q' * d + a % d;
    MulAtLeast(q - q', d);
    assert (q - q') * d == q * d - q' * d;
  }

  lemma HalveMod(a: int, p: int)
    requires p > 0
    ensures (a % (2 * p)) / 2 == (a / 2) % p
    ensures (a % (2 * p)) % 2 == a % 2
  {
    var q, r := a / 2 / p, a / 2 % p;
    var b := a % 2;
    assert a == 2 * (q * p + r) + b;
    assert a == q * (2 * p) + (2 * r + b);
    ModUnique(a, 2 * p, q, 2 * r + b);
  }

  /** `value mod 2^n` is exactly the low `n` bits. */
  lemma {:induction false} ModBit(a: int, n: nat, k: nat)
    ensures TestBit(a % Pow2(n), k) <==> k < n && TestBit(a, k)
    decreases k
  {
    if n == 0 {
      ConstantBits(k);
    } else {
      HalveMod(a, Pow2(n - 1));
      if k > 0 {
        ModBit(a / 2, n - 1, k - 1);
      }
    }
  }
}
