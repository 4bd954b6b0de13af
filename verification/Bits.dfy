/** Bit operations on natural numbers, and powers of two. */
module Bits {

  function Pow2(k: nat): (p: nat)
    ensures p >= 1
  {
    if k == 0 then 1 else 2 * Pow2(k - 1)
  }

  function ShiftLeft(a: nat, k: nat): nat
    decreases k
  {
    if k == 0 then a else ShiftLeft(2 * a, k - 1)
  }

  function ShiftRight(a: nat, k: nat): nat {
    if k == 0 then a else ShiftRight(a / 2, k - 1)
  }

  lemma {:induction false} ShiftLeftIsProduct(a: nat, k: nat)
    ensures ShiftLeft(a, k) == a * Pow2(k)
    decreases k
  {
    if k > 0 {
      ShiftLeftIsProduct(2 * a, k - 1);
      var p := Pow2(k - 1);
      assert (2 * a) * p == a * (2 * p);
    }
  }

  function BitAnd(a: nat, b: nat): (r: nat)
    ensures r <= b
  {
    if a == 0 || b == 0 then 0
    else 2 * BitAnd(a / 2, b / 2) + (if a % 2 == 1 && b % 2 == 1 then 1 else 0)
  }

  function BitXor(a: nat, b: nat): nat
    decreases a + b
  {
    if a == 0 && b == 0 then 0
    else 2 * BitXor(a / 2, b / 2) + (if a % 2 == b % 2 then 0 else 1)
  }

  /** The set a tag selects; with `xorIndex` the high bits are folded in first. */
  function SetIndex(tag: nat, sets: nat, log2Sets: nat, xorIndex: bool): (s: nat)
    requires sets >= 1
    ensures s < sets
  {
    BitAnd(if xorIndex then BitXor(tag, ShiftRight(tag, log2Sets)) else tag, sets - 1)
  }

  /** Masking with 2^k - 1 keeps the remainder modulo 2^k. */
  lemma {:induction false} MaskIsRemainder(a: nat, k: nat)
    ensures BitAnd(a, Pow2(k) - 1) == a % Pow2(k)
  {
    if k == 0 {
      assert a % 1 == 0;
    } else {
      var p := Pow2(k - 1);
      var m := Pow2(k) - 1;
      MaskIsRemainder(a / 2, k - 1);
      assert m / 2 == p - 1 && m % 2 == 1;
      HalfRemainder(a, p);
      if a == 0 {
        assert 0 % p == 0;
      }
    }
  }

  lemma HalfRemainder(a: nat, p: nat)
    requires p >= 1
    ensures a % (2 * p) == 2 * ((a / 2) % p) + a % 2
  {
    var h := a / 2;
    var q, r := h / p, h % p;
    assert h == p * q + r;
    assert a == (2 * p) * q + (2 * r + a % 2);
    RemainderUnique(a, 2 * p, q, 2 * r + a % 2);
  }

  lemma RemainderUnique(a: nat, m: nat, q: nat, r: nat)
    requires m >= 1 && r < m && a == m * q + r
    ensures a % m == r && a / m == q
  {
    var d := a / m - q;
    assert a == m * (a / m) + a % m;
    assert m * d == r - a % m;
    MultipleIsFar(m, d);
  }

  lemma MultipleIsFar(m: int, d: int)
    requires m >= 1
    ensures d > 0 ==> m * d >= m
    ensures d < 0 ==> m * d <= -m
  {
  }

  // ---- what the bits are ----

  /** Bit `i` of `a` is one. */
  predicate Bit(a: nat, i: nat) {
    a / Pow2(i) % 2 == 1
  }

  lemma {:induction false} ShiftRightIsQuotient(a: nat, k: nat)
    ensures ShiftRight(a, k) == a / Pow2(k)
  {
    if k == 0 {
      assert a / 1 == a;
    } else {
      ShiftRightIsQuotient(a / 2, k - 1);
      HalfQuotient(a, Pow2(k - 1));
    }
  }

  lemma HalfQuotient(a: nat, p: nat)
    requires p >= 1
    ensures a / (2 * p) == (a / 2) / p
  {
    var h := a / 2;
    var q, r := h / p, h % p;
    assert h == p * q + r;
    assert a == (2 * p) * q + (2 * r + a % 2);
    RemainderUnique(a, 2 * p, q, 2 * r + a % 2);
  }

  lemma {:induction false} BitZero(a: nat)
    ensures Bit(a, 0) <==> a % 2 == 1
  {
    assert a / 1 == a;
  }

  lemma {:induction false} BitStep(a: nat, i: nat)
    requires i > 0
    ensures Bit(a, i) <==> Bit(a / 2, i - 1)
  {
    HalfQuotient(a, Pow2(i - 1));
  }

  lemma {:induction false} BitOfShift(a: nat, k: nat, i: nat)
    ensures Bit(ShiftRight(a, k), i) <==> Bit(a, i + k)
    decreases k
  {
    if k > 0 {
      BitOfShift(a / 2, k - 1, i);
      BitStep(a, i + k);
    }
  }

  lemma {:induction false} BitOfNone(i: nat)
    ensures !Bit(0, i)
  {
    if i == 0 {
      BitZero(0);
    } else {
      BitOfNone(i - 1);
      BitStep(0, i);
    }
  }

  lemma {:induction false} BitOfAnd(a: nat, b: nat, i: nat)
    ensures Bit(BitAnd(a, b), i) <==> Bit(a, i) && Bit(b, i)
    decreases i
  {
    var r := BitAnd(a, b);
    if a == 0 || b == 0 {
      BitOfNone(i);
    } else if i == 0 {
      BitZero(a);
      BitZero(b);
      BitZero(r);
    } else {
      BitStep(a, i);
      BitStep(b, i);
      BitStep(r, i);
      assert r / 2 == BitAnd(a / 2, b / 2);
      BitOfAnd(a / 2, b / 2, i - 1);
    }
  }

  lemma {:induction false} BitOfXor(a: nat, b: nat, i: nat)
    ensures Bit(BitXor(a, b), i) <==> Bit(a, i) != Bit(b, i)
    decreases i
  {
    var r := BitXor(a, b);
    if a == 0 && b == 0 {
      BitOfNone(i);
    } else if i == 0 {
      BitZero(a);
      BitZero(b);
      BitZero(r);
    } else {
      BitStep(a, i);
      BitStep(b, i);
      BitStep(r, i);
      assert r / 2 == BitXor(a / 2, b / 2);
      BitOfXor(a / 2, b / 2, i - 1);
    }
  }

  /** For any number of sets: bit `i` of the set is bit `i` of the tag, exclusive-or'd
      with bit `i + log2Sets` if asked for, under the mask `sets - 1`. */
  lemma {:induction false} SetIndexBits(tag: nat, sets: nat, log2Sets: nat, xorIndex: bool, i: nat)
    requires sets >= 1
    ensures Bit(SetIndex(tag, sets, log2Sets, xorIndex), i) <==>
            Bit(sets - 1, i) && Bit(tag, i) != (xorIndex && Bit(tag, i + log2Sets))
  {
    var high := ShiftRight(tag, log2Sets);
    BitOfXor(tag, high, i);
    BitOfShift(tag, log2Sets, i);
    BitOfAnd(if xorIndex then BitXor(tag, high) else tag, sets - 1, i);
  }

  /** A power of two of sets: the set is the remainder of the tag, or of the tag
      folded by one exclusive-or. */
  lemma {:induction false} SetIndexIsRemainder(tag: nat, k: nat)
    ensures SetIndex(tag, Pow2(k), k, false) == tag % Pow2(k)
    ensures SetIndex(tag, Pow2(k), k, true) == BitXor(tag, tag / Pow2(k)) % Pow2(k)
  {
    MaskIsRemainder(tag, k);
    ShiftRightIsQuotient(tag, k);
    MaskIsRemainder(BitXor(tag, tag / Pow2(k)), k);
  }

  /** The least k with 2^k >= n. */
  function CeilLog2(n: nat): (k: nat)
    ensures Pow2(k) >= n
    ensures k > 0 ==> Pow2(k - 1) < n
  {
    if n <= 1 then 0
    else
      assert (n + 1) / 2 < n;
      1 + CeilLog2((n + 1) / 2)
  }

  lemma {:induction false} Pow2Grows(i: nat, j: nat)
    requires i < j
    ensures 2 * Pow2(i) <= Pow2(j)
  {
    if i + 1 < j {
      Pow2Grows(i, j - 1);
    }
  }

  lemma {:induction false} CeilLog2OfPow2(k: nat)
    ensures CeilLog2(Pow2(k)) == k
  {
    var c := CeilLog2(Pow2(k));
    Pow2Increasing(c, k);
    if c > 0 {
      Pow2Increasing(k, c - 1);
    }
  }

  lemma {:induction false} Pow2Increasing(i: nat, j: nat)
    ensures i < j ==> Pow2(i) < Pow2(j)
    ensures i == j ==> Pow2(i) == Pow2(j)
  {
    if i < j {
      Pow2Grows(i, j);
    }
  }

  lemma {:induction false} CeilLog2Unique(n: nat, k: nat)
    requires Pow2(k) >= n >= 1 && (k > 0 ==> Pow2(k - 1) < n)
    ensures k == CeilLog2(n)
  {
    var c := CeilLog2(n);
    if c < k {
      Pow2Increasing(c, k - 1);
    } else if k < c {
      Pow2Increasing(k, c - 1);
    }
  }
}
