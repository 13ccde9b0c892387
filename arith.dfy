/**
 * Integer facts shared by the bit-level (base 2) and the decimal (base 10) parts of the model,
 * and the few facts about appending sequences that the traces and plans need.
 */
module Arith {

  /** b to the power n. */
  function Pow(b: nat, n: nat): (r: nat)
    ensures b > 0 ==> r > 0
  {
    if n == 0 then 1 else b * Pow(b, n - 1)
  }

  /** Quotient and remainder are the only pair with a == d * q + r and 0 <= r < d. */
  lemma DivModUnique(a: int, d: int, q: int, r: int)
    requires d > 0 && a == d * q + r && 0 <= r < d
    ensures a / d == q && a % d == r
  {
    var q', r' := a / d, a % d;
    var k := q - q';
    assert d * k == r' - r by {
      assert d * q - d * q' == r' - r;
    }
    if k > 0 {
      MulAtLeast(d, k);
    } else if k < 0 {
      MulAtLeast(d, -k);
    }
  }

  lemma MulAtLeast(d: int, k: int)
    requires d > 0 && k > 0
    ensures d * k >= d
  {
    assert d * k == d + d * (k - 1);
  }

  /** Dividing by p and then by b is dividing by p * b; the remainder splits accordingly. */
  lemma DivModNested(n: int, p: int, b: int)
    requires p > 0 && b > 0
    ensures n / (p * b) == (n / p) / b
    ensures n % (p * b) == n % p + p * ((n / p) % b)
  {
    var q, r := n / p, n % p;
    var q2, r2 := q / b, q % b;
    assert n == p * (b * q2 + r2) + r;
    assert p * (b * q2 + r2) == (p * b) * q2 + p * r2 by {
      Distrib(p, b * q2, r2);
      MulAssoc(p, b, q2);
    }
    assert p * r2 + r < p * b by {
      MulMono(p, r2, b - 1);
      Distrib(p, b - 1, 1);
    }
    assert 0 <= p * r2 by {
      MulMono(p, 0, r2);
    }
    DivModUnique(n, p * b, q2, p * r2 + r);
  }

  lemma Distrib(a: int, x: int, y: int)
    ensures a * (x + y) == a * x + a * y
  {
  }

  lemma MulMono(a: nat, x: int, y: int)
    requires x <= y
    ensures a * x <= a * y
  {
    Distrib(a, x, y - x);
  }

  /** For a non-negative n, n / d is zero exactly when n is below d. */
  lemma DivZeroIff(n: int, d: int)
    requires n >= 0 && d > 0
    ensures n / d == 0 <==> n < d
  {
    if n < d {
      DivModUnique(n, d, 0, n);
    }
  }

  lemma DivOfNat(x: nat, p: int)
    requires p > 0
    ensures x / p >= 0
  {
  }

  lemma MulAssoc(a: int, b: int, c: int)
    ensures a * (b * c) == (a * b) * c
  {
  }

  /** C's bitwise | on non-negative integers, bit by bit from the least significant. */
  function BitOr(a: nat, b: nat): nat
    decreases a + b
  {
    if a == 0 then b
    else if b == 0 then a
    else (if a % 2 == 1 || b % 2 == 1 then 1 else 0) + 2 * BitOr(a / 2, b / 2)
  }

  /** Or-ing in a multiple of 2^k leaves the low k bits of x as they are. */
  lemma {:induction false} BitOrHigh(x: nat, k: nat, c: nat)
    ensures BitOr(x, Pow(2, k) * c) == x % Pow(2, k) + Pow(2, k) * BitOr(x / Pow(2, k), c)
  {
    if k == 0 {
      BitOrLowZero(x, c);
    } else if x == 0 {
      BitOrFromZero(Pow(2, k), c);
    } else if c == 0 {
      BitOrWithZero(x, Pow(2, k));
    } else {
      var p' := Pow(2, k - 1);
      var h := x / 2;
      assert h >= 0 by {
        DivOfNat(x, 2);
      }
      assert h / p' >= 0 by {
        DivOfNat(h, p');
      }
      BitOrHigh(h, k - 1, c);
      BitOrHighStep(x, c, p', h, h / p');
    }
  }

  /** BitOrHigh with no low bits to keep. */
  lemma BitOrLowZero(x: nat, c: nat)
    ensures BitOr(x, Pow(2, 0) * c) == x % Pow(2, 0) + Pow(2, 0) * BitOr(x / Pow(2, 0), c)
  {
    assert Pow(2, 0) == 1;
    assert x / 1 == x && x % 1 == 0 by { DivModUnique(x, 1, x, 0); }
  }

  /** BitOrHigh when there is nothing to or into. */
  lemma BitOrFromZero(p: nat, c: nat)
    requires p > 0
    ensures BitOr(0, p * c) == 0 % p + p * BitOr(0 / p, c)
  {
    assert 0 / p == 0 && 0 % p == 0 by { DivModUnique(0, p, 0, 0); }
  }

  /** BitOrHigh when nothing is or-ed in. */
  lemma BitOrWithZero(x: nat, p: nat)
    requires p > 0
    ensures BitOr(x, p * 0) == x % p + p * BitOr(x / p, 0)
  {
    var q := x / p;
    assert q >= 0 by { DivOfNat(x, p); }
    assert BitOr(q, 0) == q;
    assert x == p * q + x % p;
  }

  /** The inductive step of BitOrHigh, with p' = 2^(k - 1), h = x / 2 and q = h / p'. */
  lemma BitOrHighStep(x: nat, c: nat, p': nat, h: nat, q: nat)
    requires x > 0 && c > 0 && p' > 0
    requires h == x / 2 && q == h / p'
    requires BitOr(h, p' * c) == h % p' + p' * BitOr(q, c)
    ensures q == x / (2 * p')
    ensures BitOr(x, (2 * p') * c) == x % (2 * p') + (2 * p') * BitOr(q, c)
  {
    var c' := p' * c;
    assert (2 * p') * c == 2 * c' by {
      MulAssoc(2, p', c);
    }
    assert c' > 0 by {
      MulAtLeast(p', c);
    }
    assert BitOr(x, 2 * c') == x % 2 + 2 * BitOr(h, c') by {
      assert (2 * c') % 2 == 0 && (2 * c') / 2 == c';
    }
    DivModNested(x, 2, p');
    var hi := BitOr(q, c);
    assert 2 * (p' * hi) == (2 * p') * hi by {
      MulAssoc(2, p', hi);
    }
  }

  /** Appending is associative. */
  lemma Assoc<T>(a: seq<T>, b: seq<T>, c: seq<T>)
    ensures a + (b + c) == a + b + c
  {
  }

  /** A nonempty front part gives the head and the rest of the whole. */
  lemma ConsSplit<T>(a: seq<T>, b: seq<T>)
    requires |a| != 0
    ensures (a + b)[0] == a[0] && (a + b)[1..] == a[1..] + b
  {
  }

  /** An empty front part leaves the rest alone. */
  lemma EmptyConcat<T>(a: seq<T>, b: seq<T>)
    requires |a| == 0
    ensures a + b == b
  {
  }
}
