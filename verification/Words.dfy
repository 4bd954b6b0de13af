/** 32-bit words: their order as numbers, and the powers of two that size a cache. */
module Words {
  import opened Bits

  // ---- the value of a word ----

  predicate Odd(a: bv32) {
    a & 1 == 1
  }

  lemma HalfIsLess(a: bv32)
    requires a != 0
    ensures a >> 1 < a
  {
  }

  /** The number a word stands for, bit by bit. */
  function Value(a: bv32): nat
    decreases a
  {
    if a == 0 then 0
    else
      HalfIsLess(a);
      2 * Value(a >> 1) + if Odd(a) then 1 else 0
  }

  lemma ValueStep(a: bv32, h: bv32)
    requires h == a >> 1
    ensures Value(a) == 2 * Value(h) + if Odd(a) then 1 else 0
  {
    assert !Odd(0) && (0 as bv32) >> 1 == 0;
  }

  lemma SplitEven(a: bv32, h: bv32)
    requires h == a >> 1 && !Odd(a)
    ensures h < 0x8000_0000 && a == h << 1
  {
  }

  lemma SplitOdd(a: bv32, h: bv32)
    requires h == a >> 1 && Odd(a)
    ensures h < 0x8000_0000 && a == (h << 1) | 1
  {
  }

  lemma EvenAsNat(a: bv32, h: bv32)
    requires h < 0x8000_0000 && a == h << 1
    ensures a as nat == 2 * (h as nat)
  {
  }

  lemma OddAsNat(a: bv32, h: bv32)
    requires h < 0x8000_0000 && a == (h << 1) | 1
    ensures a as nat == 2 * (h as nat) + 1
  {
  }

  lemma StepAsNat(a: bv32, h: bv32)
    requires h == a >> 1
    ensures a as nat == 2 * (h as nat) + if Odd(a) then 1 else 0
  {
    if Odd(a) {
      SplitOdd(a, h);
      OddAsNat(a, h);
    } else {
      SplitEven(a, h);
      EvenAsNat(a, h);
    }
  }

  lemma ZeroAsNat(a: bv32)
    requires a == 0
    ensures a as nat == 0
  {
  }

  lemma {:induction false} ValueIsNat(a: bv32)
    ensures Value(a) == a as nat
    decreases a
  {
    if a == 0 {
      ZeroAsNat(a);
    } else {
      var h := a >> 1;
      HalfIsLess(a);
      ValueIsNat(h);
      StepAsNat(a, h);
      assert Value(a) == 2 * Value(h) + if Odd(a) then 1 else 0;
    }
  }

  // ---- order ----

  lemma HalvesDecide(a: bv32, b: bv32, h: bv32, k: bv32)
    requires h == a >> 1 && k == b >> 1 && h < k
    ensures a < b
  {
  }

  lemma LowBitDecides(a: bv32, b: bv32, h: bv32)
    requires h == a >> 1 && h == b >> 1 && !Odd(a) && Odd(b)
    ensures a < b
  {
  }

  lemma SameBits(a: bv32, b: bv32)
    requires a >> 1 == b >> 1 && Odd(a) == Odd(b)
    ensures a == b
  {
  }

  lemma Asymmetric(a: bv32, b: bv32)
    requires a < b
    ensures !(b < a) && a != b
  {
  }

  lemma {:induction false} ZeroValue(a: bv32)
    requires Value(a) == 0
    ensures a == 0
    decreases a
  {
    if a != 0 {
      HalfIsLess(a);
      ZeroValue(a >> 1);
      SameBits(a, 0);
    }
  }

  lemma {:induction false} SameValue(a: bv32, b: bv32)
    requires Value(a) == Value(b)
    ensures a == b
    decreases Value(b)
  {
    if Value(b) == 0 {
      ZeroValue(a);
      ZeroValue(b);
    } else {
      var h, k := a >> 1, b >> 1;
      ValueStep(a, h);
      ValueStep(b, k);
      SameValue(h, k);
      SameBits(a, b);
    }
  }

  lemma HalfValues(a: bv32, b: bv32, h: bv32, k: bv32)
    requires h == a >> 1 && k == b >> 1 && Value(a) < Value(b)
    ensures Value(h) <= Value(k) < Value(b)
    ensures Value(h) == Value(k) ==> !Odd(a) && Odd(b)
  {
    ValueStep(a, h);
    ValueStep(b, k);
  }

  lemma {:induction false} ValueDecides(a: bv32, b: bv32)
    requires Value(a) < Value(b)
    ensures a < b
    decreases Value(b)
  {
    var h, k := a >> 1, b >> 1;
    HalfValues(a, b, h, k);
    if Value(h) == Value(k) {
      SameValue(h, k);
      LowBitDecides(a, b, h);
    } else {
      ValueDecides(h, k);
      HalvesDecide(a, b, h, k);
    }
  }

  /** Words are in the order of their values. */
  lemma OrderIsValue(a: bv32, b: bv32)
    requires a < b
    ensures Value(a) < Value(b)
  {
    Asymmetric(a, b);
    if Value(b) == Value(a) {
      SameValue(b, a);
    } else if Value(b) < Value(a) {
      ValueDecides(b, a);
    }
  }

  // ---- rounding and logarithm ----

  function RoundUpPower2(x: bv32): bv32 {
    var x := x - 1;
    var x := x | (x >> 1);
    var x := x | (x >> 2);
    var x := x | (x >> 4);
    var x := x | (x >> 8);
    var x := x | (x >> 16);
    x + 1
  }

  predicate IsPow2(x: bv32) {
    x != 0 && x & (x - 1) == 0
  }

  /** The least power of two that is not below x; 0 where none fits 32 bits, and for 0. */
  lemma {:induction false} RoundUpIsLeast(x: bv32)
    ensures 1 <= x <= 0x8000_0000 ==>
              && IsPow2(RoundUpPower2(x)) && x <= RoundUpPower2(x)
              && forall p: bv32 :: IsPow2(p) && x <= p ==> RoundUpPower2(x) <= p
    ensures !(1 <= x <= 0x8000_0000) ==> RoundUpPower2(x) == 0
  {
  }

  lemma PowersFarApart(m: bv32, n: bv32)
    requires IsPow2(m) && IsPow2(n)
    ensures m < n ==> m < 0x8000_0000 && (m << 1 < n || m << 1 == n) && IsPow2(m << 1) && m <= n >> 1
  {
  }

  lemma DoubleAsNat(m: bv32)
    requires m < 0x8000_0000
    ensures (m << 1) as nat == 2 * (m as nat)
  {
  }

  /** One doubling step towards a larger power of two. */
  lemma DoublingStep(m: bv32, n: bv32, i: nat)
    requires IsPow2(m) && IsPow2(n) && m < n && Pow2(i) == m as nat
    ensures IsPow2(m << 1) && (m << 1 < n || m << 1 == n) && Pow2(i + 1) == (m << 1) as nat
    ensures i < 32
  {
    PowersFarApart(m, n);
    DoubleAsNat(m);
    Pow2Of32();
    Pow2Increasing(32, i);
  }

  lemma Pow2Of32()
    ensures Pow2(32) == 0x1_0000_0000
  {
    assert Pow2(8) == 256;
    assert Pow2(16) == 65536;
    assert Pow2(24) == 16777216;
  }

  /** The logarithm of a power of two, by doubling up to it. */
  method LogOfPower(n: bv32) returns (i: nat)
    requires IsPow2(n)
    ensures Pow2(i) == n as nat == Value(n)
  {
    ValueIsNat(n);
    var m: bv32 := 1;
    i := 0;
    while m < n
      invariant Pow2(i) == m as nat && IsPow2(m) && (m < n || m == n)
      decreases 33 - i
    {
      DoublingStep(m, n, i);
      m := m << 1;
      i := i + 1;
    }
  }

  lemma HalfOfRounded(x: bv32)
    requires 1 <= x <= 0x8000_0000
    ensures RoundUpPower2(x) >> 1 < x && (x < RoundUpPower2(x) || x == RoundUpPower2(x))
  {
  }

  /** The exponent of the rounded value is the ceiling of the logarithm. */
  lemma {:induction false} RoundedIsCeiling(n: bv32, p: bv32, h: bv32, i: nat)
    requires h == p >> 1 && h < n && (n < p || n == p) && Pow2(i) == Value(p)
    ensures i == CeilLog2(Value(n))
  {
    OrderIsValue(h, n);
    if n < p {
      OrderIsValue(n, p);
    }
    ValueStep(p, h);
    CeilLog2Unique(Value(n), i);
  }

  /** The ceiling of the logarithm, where rounding fits 32 bits. */
  method Log2i(n: bv32) returns (i: nat)
    ensures 1 <= n <= 0x8000_0000 ==> i == CeilLog2(n as nat) && Pow2(i) == RoundUpPower2(n) as nat
    ensures !(1 <= n <= 0x8000_0000) ==> i == 0
  {
    RoundUpIsLeast(n);
    ValueIsNat(n);
    if n == 1 {
      assert RoundUpPower2(1) == 1;
      return 0;
    }
    var p := RoundUpPower2(n);
    if p == 0 {
      return 0; // the loop below does not run
    }
    i := LogOfPower(p);
    HalfOfRounded(n);
    RoundedIsCeiling(n, p, p >> 1, i);
  }
}
