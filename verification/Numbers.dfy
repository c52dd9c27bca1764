/** Powers, bitwise OR on naturals, and positional notation. */
module Numbers {

  function Pow2(k: nat): (p: nat)
    ensures 1 <= p
  {
    if k == 0 then 1 else 2 * Pow2(k - 1)
  }

  lemma Pow2Small()
    ensures Pow2(0) == 1 && Pow2(4) == 16 && Pow2(5) == 32
  {
    assert Pow2(2) == 4;
    assert Pow2(4) == 16;
  }

  lemma Pow2Of64()
    ensures Pow2(64) == 0x1_0000_0000_0000_0000
  {
    hide Pow2;
    Pow2Small();
    Pow2Sum(4, 4);
    Pow2Sum(8, 8);
    Pow2Sum(16, 16);
    Pow2Sum(32, 32);
  }

  lemma {:induction false} Pow2Sum(a: nat, b: nat)
    ensures Pow2(a + b) == Pow2(a) * Pow2(b)
  {
    if b != 0 {
      Pow2Sum(a, b - 1);
      assert Pow2(a + b) == 2 * Pow2(a + b - 1);
    }
  }

  /** `<<` where no bit is lost. */
  function ShiftLeft(x: nat, k: nat): nat {
    x * Pow2(k)
  }

  /** `|` on unsigned numbers. */
  function BitOr(x: nat, y: nat): nat {
    if x == 0 && y == 0 then 0
    else 2 * BitOr(x / 2, y / 2) + if x % 2 == 1 || y % 2 == 1 then 1 else 0
  }

  lemma {:induction false} OrZero(x: nat)
    ensures BitOr(x, 0) == x
  {
    if x != 0 {
      OrZero(x / 2);
    }
  }

  /** Where no bit is set on both sides, OR is the sum. */
  lemma {:induction false} OrIsSum(x: nat, y: nat, k: nat)
    requires x % Pow2(k) == 0 && y < Pow2(k)
    ensures BitOr(x, y) == x + y
  {
    if k == 0 {
      OrZero(x);
    } else {
      var p := Pow2(k - 1);
      var q := x / (2 * p);
      assert x == 2 * (q * p);
      MultipleOf(q, p);
      OrIsSum(q * p, y / 2, k - 1);
    }
  }

  lemma MultipleOf(q: nat, p: nat)
    requires 1 <= p
    ensures (q * p) % p == 0 && (q * p) / p == q
  {
    Quotient(q * p, p, q, 0);
  }

  lemma Quotient(x: nat, p: nat, q: nat, r: nat)
    requires x == q * p + r && r < p
    ensures x / p == q && x % p == r
  {
    var d := x / p - q;
    assert x == (x / p) * p + x % p;
    assert d * p == r - x % p;
    Multiples(d, p);
  }

  lemma Multiples(d: int, p: int)
    requires 0 <= p
    ensures 1 <= d ==> p <= d * p
    ensures d <= -1 ==> d * p <= -p
  {
    if 1 <= d {
      assert d * p == (d - 1) * p + p;
    } else if d <= -1 {
      assert d * p == (d + 1) * p - p;
    }
  }

  lemma Monotone(a: int, b: int, p: nat)
    requires a <= b
    ensures a * p <= b * p
  {
    if a < b {
      Multiples(b - a, p);
      assert b * p == a * p + (b - a) * p;
    }
  }

  /** One more symbol of five bits below those already packed into `h`. */
  lemma AppendSymbol(h: nat, d: nat, p: nat)
    requires d < 32
    ensures (h * 32 + d) * p == h * (32 * p) + d * p
    ensures (h * 32 + d + 1) * p <= (h + 1) * (32 * p)
  {
    Monotone(h * 32 + d + 1, (h + 1) * 32, p);
    assert (h + 1) * 32 * p == (h + 1) * (32 * p);
  }

  /** ... and the same with OR, `j` being the number of bits below `h`. */
  lemma AppendByOr(h: nat, d: nat, j: nat, p: nat)
    requires d < 32 && Pow2(j) == 32 * p
    ensures BitOr(h * Pow2(j), d * p) == (h * 32 + d) * p
  {
    hide Pow2, BitOr;
    var q := 32 * p;
    AppendSymbol(h, d, p);
    MultipleOf(h, q);
    Monotone(d + 1, 32, p);
    assert (d + 1) * p == d * p + p;
    OrIsSum(h * q, d * p, j);
  }

  /** What lies between two neighbouring words with one more symbol lies between the words without. */
  lemma DropSymbol(v: nat, h: nat, d: nat, p: nat)
    requires d < 32 && (h * 32 + d) * p <= v < (h * 32 + d + 1) * p
    ensures h * (32 * p) <= v < (h + 1) * (32 * p)
  {
    AppendSymbol(h, d, p);
    Monotone(0, d, p);
  }

  lemma DivideOut(v: nat, h: nat, p: nat)
    requires 1 <= p && h * p <= v < (h + 1) * p
    ensures v / p == h
  {
    assert (h + 1) * p == h * p + p;
    Quotient(v, p, h, v - h * p);
  }
}
