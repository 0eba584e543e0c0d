/** Bytes, powers of two and big-endian words. */
module Bytes {

  type byte = x: int | 0 <= x < 256

  const U16: nat := 0x1_0000
  const U32: nat := 0x1_0000_0000
  const U64: nat := 0x1_0000_0000_0000_0000

  function Pow2(b: nat): (p: nat)
    ensures p > 0
  {
    if b == 0 then 1 else 2 * Pow2(b - 1)
  }

  function Min(a: nat, b: nat): nat { if a < b then a else b }

  function Max(a: nat, b: nat): nat { if a < b then b else a }

  /** The big-endian value of n bytes of a file. */
  function BigEndian(file: nat -> byte, offset: nat, n: nat): nat {
    if n == 0 then 0 else 256 * BigEndian(file, offset, n - 1) + file(offset + n - 1)
  }

  lemma {:induction false} Pow2Sum(a: nat, b: nat)
    ensures Pow2(a + b) == Pow2(a) * Pow2(b)
  {
    if a > 0 {
      Pow2Sum(a - 1, b);
      var p, q := Pow2(a - 1), Pow2(b);
      assert 2 * (p * q) == (2 * p) * q;
    }
  }

  lemma {:induction false} Pow2Sixteen()
    ensures Pow2(16) == U16
  {
    assert Pow2(8) == 256;
    Pow2Sum(8, 8);
  }

  lemma {:induction false} ProductOrder(a: nat, b: nat, s: nat)
    requires a <= b
    ensures a * s <= b * s
  {
  }

  /** Quotient and remainder are determined. */
  lemma {:induction false} Quotient(a: nat, s: nat, q: nat, r: nat)
    requires s > 0 && a == q * s + r && r < s
    ensures a / s == q && a % s == r
  {
    var q', r' := a / s, a % s;
    assert a == q' * s + r' && 0 <= r' < s;
    assert (q' - q) * s == r - r';
    if q' > q {
      ProductOrder(1, q' - q, s);
    } else if q' < q {
      assert (q - q') * s == r' - r;
      ProductOrder(1, q - q', s);
    }
  }

  lemma {:induction false} Division(a: nat, s: nat)
    requires s > 0
    ensures a / s >= 0 && 0 <= a % s < s && a == (a / s) * s + a % s
  {
  }

  /** Within one unit of size s only the remainder moves. */
  lemma {:induction false} Within(a: nat, s: nat, i: nat)
    requires s > 0 && a % s + i < s
    ensures (a + i) / s == a / s && (a + i) % s == a % s + i
  {
    Division(a, s);
    Quotient(a + i, s, a / s, a % s + i);
  }

  lemma {:induction false} DivideTwice(a: nat, s: nat, t: nat)
    requires s > 0 && t > 0
    ensures s * t > 0 && a / s >= 0 && a / (s * t) == (a / s) / t
  {
    Division(a, s);
    Division(a / s, t);
    ProductOrder(1, s, t);
    var q, r := (a / s) / t, (a / s) % t;
    ProductOrder(r + 1, t, s);
    assert a == q * (t * s) + (r * s + a % s) by {
      assert a / s == q * t + r;
      assert (q * t + r) * s == q * (t * s) + r * s;
    }
    Quotient(a, s * t, q, r * s + a % s);
  }

  lemma {:induction false} DivideBound(a: nat, s: nat, n: nat)
    requires s > 0
    ensures a / s >= 0
    ensures a / s < n <==> a < n * s
  {
    Division(a, s);
    if a / s < n {
      ProductOrder(a / s + 1, n, s);
    } else {
      ProductOrder(n, a / s, s);
    }
  }

  // ---------------------------------------------------------------- the bytes of a number

  /** Byte k of a number, counted from the least significant one. */
  function Digit(v: nat, k: nat): byte {
    Division(v, Pow2(8 * k));
    (v / Pow2(8 * k)) % 256
  }

  lemma {:induction false} Pow2Byte(k: nat)
    ensures Pow2(8 * (k + 1)) == 256 * Pow2(8 * k)
  {
    assert Pow2(8) == 256;
    Pow2Sum(8, 8 * k);
  }

  lemma {:induction false} DigitNext(v: nat, k: nat)
    ensures v / 256 >= 0 && Digit(v, k + 1) == Digit(v / 256, k)
  {
    hide Pow2;
    Pow2Byte(k);
    DivideTwice(v, 256, Pow2(8 * k));
  }

  lemma {:induction false} DigitFirst(v: nat)
    ensures Digit(v, 0) == v % 256
  {
    assert Pow2(0) == 1;
  }

  /** The first byte of a file holds the most significant byte of a big-endian number. */
  lemma {:induction false} BigEndianBytes(file: nat -> byte, offset: nat, n: nat, i: nat)
    requires i < n
    ensures file(offset + i) == Digit(BigEndian(file, offset, n), n - 1 - i)
  {
    hide Digit;
    var v := BigEndian(file, offset, n);
    assert v / 256 == BigEndian(file, offset, n - 1) && v % 256 == file(offset + n - 1);
    if i == n - 1 {
      DigitFirst(v);
    } else {
      DigitNext(v, n - 2 - i);
      BigEndianBytes(file, offset, n - 1, i);
    }
  }

  /** Eight bytes of a file, most significant first, are those of v. */
  ghost predicate WordAt(file: nat -> byte, offset: nat, v: nat, n: nat) {
    forall k | 0 <= k < n :: Digit(v, k) == file(offset + (n - 1 - k))
  }

  /** A number is determined by its bytes. */
  lemma {:induction false} BigEndianValue(file: nat -> byte, offset: nat, n: nat, v: nat)
    requires v < Pow2(8 * n) && WordAt(file, offset, v, n)
    ensures BigEndian(file, offset, n) == v
  {
    hide Digit;
    if n == 0 {
      assert Pow2(0) == 1;
    } else {
      Pow2Byte(n - 1);
      DigitFirst(v);
      assert Digit(v, 0) == file(offset + n - 1);
      forall k | 0 <= k < n - 1
        ensures Digit(v / 256, k) == file(offset + (n - 2 - k))
      {
        DigitNext(v, k);
        assert Digit(v, k + 1) == file(offset + (n - 1 - (k + 1)));
      }
      BigEndianValue(file, offset, n - 1, v / 256);
    }
  }
}
