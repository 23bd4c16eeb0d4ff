/**
 * Natural numbers as Lua sees them: binary64, rounding to nearest with ties to even.
 * The bridge scripts compare sequence numbers only after this rounding.
 */
module LuaNumbers {
  /** Integers up to here are exact. */
  const EXACT: nat := 0x20_0000_0000_0000

  /** The spacing of representable numbers around n: a power of two. */
  function Spacing(n: nat): (p: nat)
    ensures p >= 1 && n < EXACT * p
    ensures p == 1 || (p % 2 == 0 && n >= EXACT * (p / 2))
  {
    if n < EXACT then 1 else 2 * Spacing(n / 2)
  }

  /** Round half to even, from quotient and remainder at spacing p. */
  function RoundParts(q: nat, rest: nat, p: nat): nat {
    if 2 * rest < p || (2 * rest == p && q % 2 == 0) then q * p else (q + 1) * p
  }

  function RoundTo(n: nat, p: nat): (r: nat)
    requires p >= 1
  {
    RoundParts(n / p, n % p, p)
  }

  function Double(n: nat): nat {
    RoundTo(n, Spacing(n))
  }

  lemma {:induction false} SpacingGrows(m: nat, n: nat)
    requires m <= n
    ensures Spacing(m) == Spacing(n) || 2 * Spacing(m) <= Spacing(n)
  {
    if EXACT <= m {
      SpacingGrows(m / 2, n / 2);
    }
  }

  lemma QuotientBounds(n: nat, p: nat)
    requires p >= 1
    ensures (n / p) * p <= n < (n / p + 1) * p
    ensures (n / p) * p <= RoundTo(n, p) <= (n / p + 1) * p
    ensures n == (n / p) * p + n % p
  {
    assert n == (n / p) * p + n % p;
    assert (n / p + 1) * p == (n / p) * p + p;
  }

  lemma TimesGrows(a: int, b: int, p: nat)
    requires a <= b
    ensures a * p <= b * p
  {
  }

  lemma QuotientAtLeast(n: nat, p: nat, k: nat)
    requires p >= 1 && k * p <= n
    ensures k <= n / p
  {
    QuotientBounds(n, p);
    if n / p < k {
      TimesGrows(n / p + 1, k, p);
    }
  }

  lemma PartsGrow(q: nat, rest: nat, k: nat, left: nat, p: nat)
    requires rest < p && left < p && q * p + rest <= k * p + left
    ensures RoundParts(q, rest, p) <= RoundParts(k, left, p)
  {
    if k < q {
      TimesGrows(k + 1, q, p);
    } else if q < k {
      TimesGrows(q + 1, k, p);
      TimesGrows(k, k + 1, p);
    } else {
      assert (q + 1) * p == q * p + p;
    }
  }

  lemma SameSpacing(m: nat, n: nat, p: nat)
    requires p >= 1 && m <= n
    ensures RoundTo(m, p) <= RoundTo(n, p)
  {
    PartsGrow(m / p, m % p, n / p, n % p, p);
  }

  lemma AcrossSpacings(m: nat, p: nat, n: nat, r: nat)
    requires p >= 1 && 2 * p <= r && r % 2 == 0
    requires m < EXACT * p && EXACT * (r / 2) <= n
    ensures RoundTo(m, p) <= RoundTo(n, r)
  {
    QuotientBounds(m, p);
    QuotientBounds(n, r);
    if EXACT <= m / p {
      TimesGrows(EXACT, m / p, p);
    }
    TimesGrows(m / p + 1, EXACT, p);
    var half := EXACT / 2;
    assert EXACT * (r / 2) == half * r;
    QuotientAtLeast(n, r, half);
    TimesGrows(half, n / r, r);
    assert EXACT * p <= EXACT * (r / 2);
  }

  /** Rounding never reverses an order. */
  lemma DoubleIsMonotone(m: nat, n: nat)
    requires m <= n
    ensures Double(m) <= Double(n)
  {
    var p, r := Spacing(m), Spacing(n);
    SpacingGrows(m, n);
    if p == r {
      SameSpacing(m, n, p);
    } else {
      AcrossSpacings(m, p, n, r);
    }
  }

  function PowerOf2(k: nat): (p: nat)
    ensures p >= 1
  {
    if k == 0 then 1 else 2 * PowerOf2(k - 1)
  }

  lemma {:induction false} SpacingIsPower(n: nat) returns (k: nat)
    ensures Spacing(n) == PowerOf2(k)
  {
    if n < EXACT {
      k := 0;
    } else {
      var half := SpacingIsPower(n / 2);
      k := half + 1;
    }
  }

  /** A number with a significand of 53 bits, at some power of two. */
  ghost predicate Representable(x: nat) {
    exists m: nat, k: nat :: m < EXACT && x == Scaled(m, k)
  }

  function Scaled(m: nat, k: nat): nat {
    m * PowerOf2(k)
  }

  function Distance(a: nat, b: nat): nat {
    if a <= b then b - a else a - b
  }

  /** Among the multiples of p, RoundTo takes the nearest. */
  lemma NearestMultiple(n: nat, p: nat, m: nat)
    requires p >= 1
    ensures Distance(n, RoundTo(n, p)) <= Distance(n, m * p)
    ensures 2 * Distance(n, RoundTo(n, p)) <= p
  {
    QuotientBounds(n, p);
    var q := n / p;
    assert (q + 1) * p == q * p + p;
    if m <= q {
      TimesGrows(m, q, p);
    } else {
      TimesGrows(q + 1, m, p);
    }
  }

  lemma {:induction false} PowersDivide(j: nat, k: nat) returns (m: nat)
    requires j <= k
    ensures PowerOf2(k) == m * PowerOf2(j)
  {
    if j == k {
      m := 1;
    } else {
      var half := PowersDivide(j, k - 1);
      m := 2 * half;
    }
  }

  lemma {:induction false} PowersGrow(j: nat, k: nat)
    requires j < k
    ensures 2 * PowerOf2(j) <= PowerOf2(k)
  {
    if j + 1 < k {
      PowersGrow(j, k - 1);
    }
  }

  lemma Regroup(a: nat, b: nat, c: nat)
    ensures a * (b * c) == (a * b) * c
  {
  }

  lemma QuotientBelow(n: nat, p: nat, k: nat)
    requires p >= 1 && n < k * p
    ensures n / p < k
  {
    QuotientBounds(n, p);
    if k <= n / p {
      TimesGrows(k, n / p, p);
    }
  }

  lemma DoubleIsRepresentable(n: nat)
    ensures Representable(Double(n))
  {
    var p := Spacing(n);
    var k := SpacingIsPower(n);
    QuotientBelow(n, p, EXACT);
    var m := if Double(n) == n / p * p then n / p else n / p + 1;
    assert Double(n) == m * p;
    if m == EXACT {
      var half := EXACT / 2;
      Regroup(half, 2, p);
      assert PowerOf2(k + 1) == 2 * p;
      assert half < EXACT && Double(n) == Scaled(half, k + 1);
    } else {
      assert Double(n) == Scaled(m, k);
    }
  }

  /** A representable number that is no multiple of n's spacing lies below all of n's binade. */
  lemma FinerIsFarther(n: nat, m: nat, j: nat, k: nat)
    requires m < EXACT && j < k && Spacing(n) == PowerOf2(k)
    ensures Scaled(m, j) <= EXACT / 2 * Spacing(n) <= n
  {
    var p, finer := Spacing(n), PowerOf2(j);
    PowersGrow(j, k);
    TimesGrows(m, EXACT, finer);
    HalfBinade(n, p);
    assert EXACT * finer <= EXACT * (p / 2);
  }

  lemma HalfBinade(n: nat, p: nat)
    requires p % 2 == 0 && n >= EXACT * (p / 2)
    ensures EXACT / 2 * p == EXACT * (p / 2) <= n
  {
  }

  lemma CoarserIsMultiple(m: nat, j: nat, k: nat) returns (times: nat)
    requires k <= j
    ensures Scaled(m, j) == times * PowerOf2(k)
  {
    var step := PowersDivide(k, j);
    Regroup(m, step, PowerOf2(k));
    times := m * step;
  }

  /** Rounding gives the nearest number with a 53-bit significand; of two at one distance, the one with the even one. */
  lemma DoubleIsNearest(n: nat, x: nat)
    requires Representable(x)
    ensures Representable(Double(n)) && Distance(n, Double(n)) <= Distance(n, x)
    ensures 2 * Distance(n, Double(n)) == Spacing(n) ==> exists q: nat :: q % 2 == 0 && Double(n) == q * Spacing(n)
  {
    hide RoundTo, Spacing, Scaled, PowerOf2;
    DoubleIsRepresentable(n);
    var p := Spacing(n);
    var k := SpacingIsPower(n);
    var m: nat, j: nat :| m < EXACT && x == Scaled(m, j);
    if k <= j {
      var times := CoarserIsMultiple(m, j, k);
      NearestMultiple(n, p, times);
    } else {
      NearestMultiple(n, p, EXACT / 2);
      FinerIsFarther(n, m, j, k);
    }
    TiesToEven(n, p);
  }

  lemma TiesToEven(n: nat, p: nat)
    requires p >= 1
    ensures 2 * Distance(n, RoundTo(n, p)) == p ==> exists q: nat :: q % 2 == 0 && RoundTo(n, p) == q * p
  {
    QuotientBounds(n, p);
    var q := n / p;
    assert (q + 1) * p == q * p + p;
    if 2 * Distance(n, RoundTo(n, p)) == p {
      if q % 2 == 0 {
        assert RoundTo(n, p) == q * p;
      } else {
        assert (q + 1) % 2 == 0 && RoundTo(n, p) == (q + 1) * p;
      }
    }
  }

  lemma DoubleIsExact(n: nat)
    requires n <= EXACT
    ensures Double(n) == n
  {
    if n == EXACT {
      assert Spacing(n) == 2 * Spacing(n / 2) == 2;
      assert n == (n / 2) * 2;
    }
  }
}
