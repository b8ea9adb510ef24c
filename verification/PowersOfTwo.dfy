/** Powers of two and the logarithms of util/src/math.rs. */
module PowersOfTwo {
  function Pow(k: nat): (p: nat)
    ensures p >= 1
  {
    if k == 0 then 1 else 2 * Pow(k - 1)
  }

  /** The exponent of the largest power not above `n`. */
  function FloorLog(n: nat): nat
    requires n >= 1
  {
    if n == 1 then 0 else 1 + FloorLog(n / 2)
  }

  /** The exponent of the least power not below `n`: `log2_ceil`. */
  function CeilLog(n: nat): nat {
    if n <= 1 then 0 else 1 + CeilLog((n + 1) / 2)
  }

  function NextPow2(n: nat): nat {
    Pow(CeilLog(n))
  }

  predicate IsPow2(n: nat) {
    n >= 1 && Pow(FloorLog(n)) == n
  }

  lemma {:induction false} FloorLogMeans(n: nat)
    requires n >= 1
    ensures Pow(FloorLog(n)) <= n < 2 * Pow(FloorLog(n))
  {
    if n > 1 { FloorLogMeans(n / 2); }
  }

  lemma {:induction false} CeilLogMeans(n: nat)
    ensures n <= Pow(CeilLog(n)) && (n > 1 ==> Pow(CeilLog(n)) < 2 * n)
  {
    if n > 1 { CeilLogMeans((n + 1) / 2); }
  }

  lemma {:induction false} PowSum(i: nat, j: nat)
    ensures Pow(i + j) == Pow(i) * Pow(j)
  {
    if i > 0 {
      PowSum(i - 1, j);
      assert 2 * (Pow(i - 1) * Pow(j)) == (2 * Pow(i - 1)) * Pow(j);
    }
  }

  lemma {:induction false} PowMono(i: nat, j: nat)
    requires i <= j
    ensures Pow(i) <= Pow(j) && (i < j ==> 2 * Pow(i) <= Pow(j))
  {
    if i < j { PowMono(i, j - 1); }
  }

  /** The exponent is determined by where a number lies between powers. */
  lemma FloorLogUnique(n: nat, k: nat)
    requires Pow(k) <= n < 2 * Pow(k)
    ensures FloorLog(n) == k
  {
  }

  lemma CeilLogUnique(n: nat, k: nat)
    requires n >= 1 && n <= Pow(k) < 2 * n
    ensures CeilLog(n) == k
  {
  }

  lemma LogsOfPow(k: nat)
    ensures FloorLog(Pow(k)) == k && CeilLog(Pow(k)) == k && IsPow2(Pow(k))
  {
    FloorLogUnique(Pow(k), k);
    CeilLogUnique(Pow(k), k);
  }

  /** `next_power_of_two` is the least power of two not below its argument. */
  lemma NextPow2Least(n: nat, k: nat)
    ensures n <= NextPow2(n) && IsPow2(NextPow2(n))
    ensures n <= Pow(k) ==> NextPow2(n) <= Pow(k)
    ensures IsPow2(n) <==> NextPow2(n) == n
  {
    CeilLogMeans(n);
    LogsOfPow(CeilLog(n));
    if IsPow2(n) { LogsOfPow(FloorLog(n)); }
    if n <= Pow(k) {
      if k < CeilLog(n) { PowMono(k, CeilLog(n)); } else { PowMono(CeilLog(n), k); }
    }
  }

  /** `prev_power_of_two`, as the buddy allocator computes it. */
  function PrevPow2(n: nat): nat {
    NextPow2(n / 2)
  }

  /** It is the largest power of two not above `n` only if neither `n` nor `n - 1` is a power
      of two (or `n` is 1); otherwise it is half of that. */
  lemma PrevPow2Right(n: nat)
    requires n >= 1
    ensures PrevPow2(n) == Pow(FloorLog(n)) <==> n == 1 || (!IsPow2(n) && !IsPow2(n - 1))
    ensures n > 1 && (IsPow2(n) || IsPow2(n - 1)) ==> 2 * PrevPow2(n) == Pow(FloorLog(n))
  {
    var k := FloorLog(n);
    FloorLogMeans(n);
    if n > 1 {
      LogsOfPow(k);
      PowerBelow(n, k);
      if n > Pow(k) + 1 {
        CeilLogUnique(n / 2, k);
      } else {
        LogsOfPow(k - 1);
      }
    }
  }

  lemma PowerBelow(n: nat, k: nat)
    requires n > 1 && Pow(k) <= n < 2 * Pow(k)
    ensures IsPow2(n - 1) <==> n == 2 || n == Pow(k) + 1
  {
    if n > Pow(k) {
      FloorLogUnique(n - 1, k);
    } else if n > 2 {
      var h := Pow(k - 1);
      assert n == 2 * h && h > 1;
      FloorLogUnique(n - 1, k - 1);
    }
  }

  // ---- Division ----

  lemma {:induction false} ModBelow(m: nat, k: nat)
    requires m <= k
    ensures Pow(k) % Pow(m) == 0
  {
    PowSum(k - m, m);
    MultipleMod(Pow(k - m), Pow(m));
  }

  lemma MultipleMod(a: nat, b: nat)
    requires b > 0
    ensures (a * b) % b == 0
  {
    if a > 0 {
      MultipleMod(a - 1, b);
      assert a * b == (a - 1) * b + b;
      ModAdd((a - 1) * b, b, b);
    }
  }

  lemma ModAdd(x: nat, y: nat, b: nat)
    requires b > 0 && y % b == 0
    ensures (x + y) % b == x % b
  {
    var q := y / b;
    assert x + y == x / b * b + x % b + q * b;
    assert x + y == (x / b + q) * b + x % b;
    DivUnique(x + y, x / b + q, x % b, b);
  }

  lemma AtLeastOne(d: nat, b: nat)
    requires d >= 1
    ensures d * b >= b
  {
  }

  lemma MulGap(q: nat, q': nat, b: nat)
    requires q < q'
    ensures q' * b >= q * b + b
  {
    AtLeastOne(q' - q, b);
    assert (q' - q) * b == q' * b - q * b;
  }

  lemma DivUnique(n: nat, q: nat, r: nat, b: nat)
    requires b > 0 && n == q * b + r && r < b
    ensures n / b == q && n % b == r
  {
    var q', r' := n / b, n % b;
    assert n == q' * b + r' && r' < b;
    if q < q' { MulGap(q, q', b); }
    if q' < q { MulGap(q', q, b); }
  }

  lemma DivAddMultiple(x: nat, c: nat, b: nat)
    requires b > 0
    ensures (x + c * b) / b == x / b + c
  {
    var q, r := x / b, x % b;
    assert x == q * b + r;
    assert (q + c) * b == q * b + c * b;
    DivUnique(x + c * b, q + c, r, b);
  }

  lemma Regroup(a: nat, b: nat, c: nat)
    ensures a * (b * c) == (a * b) * c
  {
  }

  lemma Quotient(x: nat, d: nat)
    requires d > 0 && x % d == 0
    ensures x == x / d * d
  {
  }

  lemma FactorMod(x: nat, c: nat, b: nat)
    requires b > 0 && c > 0 && c * b > 0 && x % (c * b) == 0
    ensures x % b == 0
  {
    var q := x / (c * b);
    Quotient(x, c * b);
    Regroup(q, c, b);
    MultipleMod(q * c, b);
  }

  lemma EvenQuotient(x: nat, h: nat, b: nat)
    requires b > 0 && h > 0 && 2 * h * b > 0 && x % (2 * h * b) == 0
    ensures x / b % 2 == 0
  {
    var q := x / (2 * h * b);
    Quotient(x, 2 * h * b);
    Regroup(q, 2 * h, b);
    DivUnique(x, q * (2 * h), 0, b);
    assert q * (2 * h) == 2 * (q * h);
  }
}
