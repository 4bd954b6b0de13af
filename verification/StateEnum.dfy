/** Enumeration of the states of a register block: every index is decoded, with real
    division, into a value for each field. */
module StateEnum {
  import opened Bits

  datatype Fixed = Free | Value(v: nat)

  /** A field of some width, free or fixed to a value. */
  datatype Field = Field(width: nat, fixed: Fixed)

  lemma {:induction false} DivNat(n: nat, m: nat)
    requires m > 0
    ensures n / m >= 0 && 0 <= n % m < m && n == (n / m) * m + n % m
  {
  }

  function Quot(n: nat, m: nat): nat
    requires m > 0
  {
    DivNat(n, m);
    n / m
  }

  function Rem(n: nat, m: nat): nat
    requires m > 0
  {
    n % m
  }

  function Total(fs: seq<Field>): (n: nat)
    ensures n > 0
  {
    if fs == [] then 1
    else
      var f := fs[|fs| - 1];
      if f.fixed.Free? then Total(fs[..|fs| - 1]) * Pow2(f.width) else Total(fs[..|fs| - 1])
  }

  /** The mixed-radix digits of `n`, last field first. */
  function Digits(fs: seq<Field>, n: nat): (ds: seq<nat>)
    ensures |ds| == |fs|
  {
    if fs == [] then []
    else
      var k, f := |fs| - 1, fs[|fs| - 1];
      match f.fixed
      case Free => Digits(fs[..k], Quot(n, Pow2(f.width))) + [Rem(n, Pow2(f.width))]
      case Value(v) => Digits(fs[..k], n) + [v]
  }

  /** The number whose digits these are. */
  function Number(fs: seq<Field>, ds: seq<nat>): nat
    requires |ds| == |fs|
  {
    if fs == [] then 0
    else
      var k, f := |fs| - 1, fs[|fs| - 1];
      if f.fixed.Free? then Number(fs[..k], ds[..k]) * Pow2(f.width) + ds[k] else Number(fs[..k], ds[..k])
  }

  /** A value for every field: free ones fit the width, fixed ones are fixed. */
  ghost predicate Valuation(fs: seq<Field>, ds: seq<nat>) {
    |ds| == |fs| && forall i :: 0 <= i < |fs| ==> Fits(fs[i], ds[i])
  }

  predicate Fits(f: Field, d: nat) {
    if f.fixed.Free? then d < Pow2(f.width) else d == f.fixed.v
  }

  ghost predicate AllZero(fs: seq<Field>, ds: seq<nat>)
    requires |ds| == |fs|
  {
    forall i :: 0 <= i < |fs| && fs[i].fixed.Free? ==> ds[i] == 0
  }

  // ---- the bijection ----

  /** Quotient and remainder are unique. */
  lemma {:induction false} DivMod(q: nat, m: nat, d: nat)
    requires d < m
    ensures Quot(q * m + d, m) == q && Rem(q * m + d, m) == d
  {
    DivNat(q * m + d, m);
    RemainderUnique(q * m + d, m, q, d);
  }

  lemma {:induction false} DivBound(n: nat, t: nat, m: nat)
    requires m > 0 && n < t * m
    ensures Quot(n, m) < t && Quot(n, m) * m + Rem(n, m) == n && Rem(n, m) < m
  {
  }

  lemma {:induction false} MulNext(q: nat, t: nat, m: nat, d: nat)
    requires q < t && d < m
    ensures q * m + d < t * m
  {
    assert t * m == q * m + m + (t - q - 1) * m;
  }

  lemma {:induction false} ValuationStep(fs: seq<Field>, ds: seq<nat>)
    requires fs != [] && |ds| == |fs|
    ensures Valuation(fs, ds) <==> Valuation(fs[..|fs| - 1], ds[..|fs| - 1]) && Fits(fs[|fs| - 1], ds[|fs| - 1])
  {
  }

  /** Every index below the total gives a valuation, from which it is recovered. */
  lemma {:induction false} DigitsRoundTrip(fs: seq<Field>, n: nat)
    requires n < Total(fs)
    ensures Valuation(fs, Digits(fs, n)) && Number(fs, Digits(fs, n)) == n
  {
    if fs != [] {
      var k, f := |fs| - 1, fs[|fs| - 1];
      var m := if f.fixed.Free? then Quot(n, Pow2(f.width)) else n;
      if f.fixed.Free? {
        DivBound(n, Total(fs[..k]), Pow2(f.width));
      }
      DigitsRoundTrip(fs[..k], m);
      var ds := Digits(fs, n);
      assert ds[..k] == Digits(fs[..k], m);
      ValuationStep(fs, ds);
    }
  }

  /** Every valuation is that of an index below the total. */
  lemma {:induction false} NumberRoundTrip(fs: seq<Field>, ds: seq<nat>)
    requires Valuation(fs, ds)
    ensures Number(fs, ds) < Total(fs) && Digits(fs, Number(fs, ds)) == ds
  {
    if fs != [] {
      var k, f := |fs| - 1, fs[|fs| - 1];
      ValuationStep(fs, ds);
      NumberRoundTrip(fs[..k], ds[..k]);
      assert ds == ds[..k] + [ds[k]];
      if f.fixed.Free? {
        var q, m := Number(fs[..k], ds[..k]), Pow2(f.width);
        DivMod(q, m, ds[k]);
        MulNext(q, Total(fs[..k]), m, ds[k]);
      }
    }
  }

  /** Index zero, and only it, has all free fields zero. */
  lemma {:induction false} ZeroIsAllZero(fs: seq<Field>, ds: seq<nat>)
    requires Valuation(fs, ds)
    ensures Number(fs, ds) == 0 <==> AllZero(fs, ds)
  {
    if fs != [] {
      var k, f := |fs| - 1, fs[|fs| - 1];
      ValuationStep(fs, ds);
      ZeroIsAllZero(fs[..k], ds[..k]);
      assert AllZero(fs, ds) <==> AllZero(fs[..k], ds[..k]) && (f.fixed.Free? ==> ds[k] == 0) by {
        assert forall i :: 0 <= i < k ==> fs[..k][i] == fs[i] && ds[..k][i] == ds[i];
      }
      if f.fixed.Free? {
        var q, m := Number(fs[..k], ds[..k]), Pow2(f.width);
        assert q > 0 ==> q * m > 0;
      }
    }
  }

  /** The indices from one up stand, one to one, for the valuations of the free fields
      other than all zero. */
  lemma {:induction false} StatesExact(fs: seq<Field>, ds: seq<nat>, n: nat)
    requires Valuation(fs, ds)
    ensures 1 <= Number(fs, ds) < Total(fs) <==> !AllZero(fs, ds)
    ensures n < Total(fs) ==> (Digits(fs, n) == ds <==> n == Number(fs, ds))
  {
    NumberRoundTrip(fs, ds);
    ZeroIsAllZero(fs, ds);
    if n < Total(fs) {
      DigitsRoundTrip(fs, n);
    }
  }

  lemma {:induction false} QuotTwice(n: nat, a: nat, b: nat)
    requires a > 0 && b > 0
    ensures a * b > 0 && Quot(Quot(n, b), a) == Quot(n, a * b)
  {
    var q := Quot(n, b);
    var p, r := Quot(q, a), Rem(q, a);
    DivNat(n, b);
    DivNat(q, a);
    MulNext(r, a, b, Rem(n, b));
    var rest := r * b + Rem(n, b);
    assert n == (p * a + r) * b + Rem(n, b) == (a * b) * p + rest;
    RemainderUnique(n, a * b, p, rest);
  }

  /** The value of field `i` in state `n`: a free field takes its bits from above those
      of the free fields that follow it, a fixed field has its value. */
  ghost predicate InField(fs: seq<Field>, n: nat, i: nat, d: int)
    requires i < |fs|
  {
    d == if fs[i].fixed.Free? then n / Total(fs[i + 1..]) % Pow2(fs[i].width) else fs[i].fixed.v
  }

  lemma {:induction false} DigitAt(fs: seq<Field>, n: nat, i: nat)
    requires i < |fs|
    ensures InField(fs, n, i, Digits(fs, n)[i])
  {
    var k, f := |fs| - 1, fs[|fs| - 1];
    if i == k {
      assert fs[i + 1..] == [];
      assert Quot(n, 1) == n;
    } else {
      var m := if f.fixed.Free? then Quot(n, Pow2(f.width)) else n;
      DigitAt(fs[..k], m, i);
      var rest := fs[i + 1..];
      assert rest[..|rest| - 1] == fs[..k][i + 1..] && rest[|rest| - 1] == f;
      if f.fixed.Free? {
        QuotTwice(n, Total(fs[..k][i + 1..]), Pow2(f.width));
      }
    }
  }

  /** The signals have the values of state `n`; a literal is cut to its width. */
  ghost predicate InState(fs: seq<Field>, n: nat, signals: seq<nat>) {
    |signals| == |fs| && forall i :: 0 <= i < |fs| ==> signals[i] == Rem(Digits(fs, n)[i], Pow2(fs[i].width))
  }

  /** Two states of a block never hold at once. */
  lemma {:induction false} StatesExclude(fs: seq<Field>, m: nat, n: nat, signals: seq<nat>)
    requires m < Total(fs) && n < Total(fs) && InState(fs, m, signals) && InState(fs, n, signals)
    ensures m == n
  {
    DigitsRoundTrip(fs, m);
    DigitsRoundTrip(fs, n);
    var a, b := Digits(fs, m), Digits(fs, n);
    forall i | 0 <= i < |fs| ensures a[i] == b[i] {
      assert Fits(fs[i], a[i]) && Fits(fs[i], b[i]);
      if fs[i].fixed.Free? {
        Small(a[i], Pow2(fs[i].width));
        Small(b[i], Pow2(fs[i].width));
      }
    }
    assert a == b;
  }

  lemma {:induction false} Small(d: nat, m: nat)
    requires d < m
    ensures Rem(d, m) == d
  {
  }

  // ---- the code ----

  /** The remainder of a division of reals. */
  function RealMod(x: real, m: nat): real
    requires m > 0
  {
    x - m as real * (x / m as real).Floor as real
  }

  lemma {:induction false} Sign(z: real, w: real)
    requires w > 0.0
    ensures z >= 0.0 <==> z * w >= 0.0
  {
  }

  lemma {:induction false} FloorIs(x: real, y: real, w: real, p: real, q: int)
    requires w > 0.0 && p == q as real * w && x == y * w && p <= x < p + w
    ensures y.Floor == q
  {
    var a := q as real;
    assert (y - a) * w == x - p && (y - a - 1.0) * w == x - p - w;
    Sign(y - a, w);
    Sign(y - a - 1.0, w);
    assert a <= y < a + 1.0;
  }

  lemma {:induction false} Divide(x: real, w: real)
    requires w > 0.0 && x >= 0.0
    ensures x / w * w == x && x / w >= 0.0
  {
  }

  lemma {:induction false} Scaled(q: nat, m: nat)
    ensures (q * m) as real == q as real * m as real
  {
  }

  lemma {:induction false} FloorOf(x: real, m: nat, q: nat, d: nat)
    requires d < m && 0.0 <= x && x.Floor == q * m + d
    ensures (x / m as real).Floor == q && (x - m as real * q as real).Floor == d
  {
    var n := q * m;
    Scaled(q, m);
    Divide(x, m as real);
    FloorIs(x, x / m as real, m as real, n as real, q);
    assert x - m as real * q as real == x - n as real;
  }

  /** Cut to integers, real quotient and remainder are the integer ones. */
  lemma {:induction false} RealSteps(x: real, m: nat)
    requires x >= 0.0 && m > 0
    ensures x / m as real >= 0.0 && (x / m as real).Floor == Quot(x.Floor, m)
    ensures RealMod(x, m) >= 0.0 && RealMod(x, m).Floor == Rem(x.Floor, m)
  {
    var n: nat := x.Floor;
    DivNat(n, m);
    FloorOf(x, m, Quot(n, m), Rem(n, m));
    Divide(x, m as real);
  }

  method CountStates(fs: seq<Field>) returns (total: nat)
    ensures total == Total(fs)
  {
    total := 1;
    for i := 0 to |fs|
      invariant total == Total(fs[..i])
    {
      assert fs[..i + 1][..i] == fs[..i];
      if fs[i].fixed.Free? {
        total := total * Pow2(fs[i].width);
      }
    }
    assert fs[..|fs|] == fs;
  }

  function Printed(vals: seq<real>): (r: seq<int>)
    ensures |r| == |vals| && forall i :: 0 <= i < |r| ==> r[i] == vals[i].Floor
  {
    seq(|vals|, i requires 0 <= i < |vals| => vals[i].Floor)
  }

  lemma {:induction false} PrintedFront(x: real, vals: seq<real>)
    ensures Printed([x] + vals) == [x.Floor] + Printed(vals)
  {
  }

  /** One step of the decoding: a field takes `x` and leaves `rest` to those before it. */
  lemma {:induction false} DigitsStep(fs: seq<Field>, i: nat, n: nat, x: nat, rest: nat)
    requires i < |fs|
    requires fs[i].fixed.Free? ==> x == Rem(n, Pow2(fs[i].width)) && rest == Quot(n, Pow2(fs[i].width))
    requires fs[i].fixed.Value? ==> x == fs[i].fixed.v && rest == n
    ensures Digits(fs[..i + 1], n) == Digits(fs[..i], rest) + [x]
  {
    assert fs[..i + 1][..i] == fs[..i];
  }

  /** The value of one field, and what is left of the index. */
  method Next(f: Field, tmp: real) returns (x: real, rest: real)
    requires tmp >= 0.0
    ensures x >= 0.0 && rest >= 0.0
    ensures f.fixed.Free? ==> x.Floor == Rem(tmp.Floor, Pow2(f.width)) && rest.Floor == Quot(tmp.Floor, Pow2(f.width))
    ensures f.fixed.Value? ==> x.Floor == f.fixed.v && rest == tmp
  {
    match f.fixed
    case Free =>
      RealSteps(tmp, Pow2(f.width));
      x, rest := RealMod(tmp, Pow2(f.width)), tmp / Pow2(f.width) as real;
    case Value(v) =>
      x, rest := v as real, tmp;
  }

  /** The values of a state, as reals; printed, they are the digits of its index. */
  method Decode(fs: seq<Field>, idx: nat) returns (vals: seq<real>)
    ensures Printed(vals) == Digits(fs, idx)
  {
    vals := [];
    var tmp := idx as real;
    assert fs[..|fs|] == fs && Digits(fs, idx) + [] == Digits(fs, idx);
    for i := |fs| downto 0
      invariant tmp >= 0.0 && Digits(fs, idx) == Digits(fs[..i], tmp.Floor) + Printed(vals)
    {
      var x, rest := Next(fs[i], tmp);
      PrintedFront(x, vals);
      DigitsStep(fs, i, tmp.Floor, x.Floor, rest.Floor);
      vals, tmp := [x] + vals, rest;
    }
  }

  /** The values of every state but the reset state. */
  method Postprocess(fs: seq<Field>) returns (states: seq<seq<int>>)
    ensures |states| == Total(fs) - 1
    ensures forall i :: 0 <= i < |states| ==> states[i] == Digits(fs, i + 1)
    ensures forall i, j :: 0 <= i < |states| && 0 <= j < |fs| ==>
              |states[i]| == |fs| && InField(fs, i + 1, j, states[i][j])
  {
    var total := CountStates(fs);
    states := [];
    for idx := 1 to total
      invariant |states| == idx - 1 && forall i :: 0 <= i < |states| ==> states[i] == Digits(fs, i + 1)
    {
      var vals := Decode(fs, idx);
      states := states + [Printed(vals)];
    }
    forall i, j | 0 <= i < |states| && 0 <= j < |fs| ensures InField(fs, i + 1, j, states[i][j]) {
      DigitAt(fs, i + 1, j);
    }
  }
}
