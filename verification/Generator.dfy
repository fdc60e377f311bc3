/** The random number generator (random.c): its update runs through all 2^32 seeds. */
module Generator {
  import opened Counting
  import opened Machine

  const M: int := U32
  const A: int := 1664525
  const C: int := 1013904223

  function Next(seed: int): int { (seed * A + C) % M }

  class Random {
    var seed: int               // unsigned int

    constructor ()
      ensures seed == 1
    {
      seed := 1;
    }

    /** random(max), for the positive max that its caller passes. */
    method Draw(max: int) returns (r: int)
      requires 0 <= seed < M && 0 < max < 0x8000_0000
      modifies this
      ensures 0 <= seed < M && seed == Next(old(seed)) && r == seed % max && 0 <= r < max
    {
      seed := (seed * A + C) % M;
      r := seed % max;
    }
  }

  /** The seed after n updates. */
  function Seed(x: int, n: nat): int {
    if n == 0 then x else Next(Seed(x, n - 1))
  }

  /** The seeds after the first, which is 1. */
  lemma FirstSeeds()
    ensures Seed(1, 1) == 1015568748 && Seed(1, 2) == 1586005467 && Seed(1, 3) == 2165703038 && Seed(1, 4) == 3027450565
  {
    assert Next(1015568748) == 1586005467 && Next(1586005467) == 2165703038 && Next(2165703038) == 3027450565;
  }

  // ---------------------------------------------------------------- the seed in closed form

  /** 1 + A + ... + A^(n-1) */
  function Sum(n: nat): int {
    if n == 0 then 0 else 1 + A * Sum(n - 1)
  }

  lemma ModStep(x: int, y: int)
    requires x % M == y % M
    ensures (x * A + C) % M == (y * A + C) % M
  {
    var d := x / M - y / M;
    assert x - y == M * d;
    assert x * A + C == (y * A + C) + M * (d * A);
    ModAdd(y * A + C, d * A);
  }

  lemma ModAdd(x: int, k: int)
    ensures (x + M * k) % M == x % M
  {
  }

  lemma {:induction false} SeedIs(x: int, n: nat)
    requires 0 <= x < M
    ensures Seed(x, n) == (x + Sum(n) * ((A - 1) * x + C)) % M
  {
    if n > 0 {
      SeedIs(x, n - 1);
      var k := (A - 1) * x + C;
      var y := x + Sum(n - 1) * k;
      ModStep(Seed(x, n - 1), y);
      OneMore(x, Sum(n - 1), k);
    }
  }

  lemma OneMore(x: int, s: int, k: int)
    requires k == (A - 1) * x + C
    ensures (x + s * k) * A + C == x + (1 + A * s) * k
  {
    assert (x + s * k) * A == A * x + (A * s) * k;
    assert (1 + A * s) * k == k + (A * s) * k;
  }

  // ---------------------------------------------------------------- powers of two

  /** 2^k divides x. */
  predicate Div(k: nat, x: int) {
    k == 0 || (x % 2 == 0 && Div(k - 1, x / 2))
  }

  lemma {:induction false} DivIsMod(k: nat, x: int)
    ensures Pow2(k) > 0 && (Div(k, x) <==> x % Pow2(k) == 0)
  {
    if k > 0 {
      DivIsMod(k - 1, x / 2);
      HalfMod(x, Pow2(k - 1));
    }
  }

  lemma HalfMod(x: int, p: int)
    requires p > 0
    ensures x % (2 * p) == 0 <==> x % 2 == 0 && x / 2 % p == 0
  {
    if x % (2 * p) == 0 {
      var q := x / (2 * p);
      assert x == 2 * (p * q);
      assert x / 2 == p * q;
      Multiple(p, q);
    }
    if x % 2 == 0 && x / 2 % p == 0 {
      var q := x / 2 / p;
      assert x / 2 == p * q;
      assert x == (2 * p) * q;
      Multiple(2 * p, q);
    }
  }

  lemma Multiple(p: int, q: int)
    requires p > 0
    ensures (p * q) % p == 0
  {
    var d, r := (p * q) / p, (p * q) % p;
    assert p * q == p * d + r;
    assert p * (q - d) == r;
    if q > d { AtLeast(p, q - d); } else if q < d { AtLeast(p, d - q); }
  }

  lemma AtLeast(p: int, k: int)
    requires p > 0 && k >= 1
    ensures p * k >= p
  {
  }

  lemma {:induction false} OddFactor(k: nat, x: int, o: int)
    requires o % 2 == 1
    ensures Div(k, x * o) <==> Div(k, x)
  {
    if k > 0 {
      HalfProduct(x, o);
      if x % 2 == 0 { OddFactor(k - 1, x / 2, o); }
    }
  }

  lemma HalfProduct(x: int, o: int)
    requires o % 2 == 1
    ensures if x % 2 == 0 then x * o == 2 * (x / 2 * o) else x * o % 2 == 1
  {
    var y, h := x / 2, o / 2;
    if x % 2 == 0 {
      assert x == 2 * y;
      assert (2 * y) * o == 2 * (y * o);
    } else {
      assert x == 2 * y + 1 && o == 2 * h + 1;
      assert (2 * y + 1) * o == 2 * (y * o) + o;
    }
  }

  // ---------------------------------------------------------------- the period

  lemma {:induction false} SumParity(n: nat)
    ensures Sum(n) % 2 == n % 2
  {
    if n > 0 {
      SumParity(n - 1);
      NextParity(Sum(n - 1), Sum(n), n);
    }
  }

  lemma NextParity(s: int, t: int, n: int)
    requires t == 1 + A * s && s % 2 == (n - 1) % 2
    ensures t % 2 == n % 2
  {
    Even(s + 1, 832262 * s);
  }

  lemma Even(x: int, k: int)
    ensures (x + 2 * k) % 2 == x % 2
  {
  }

  lemma {:induction false} SumAdd(m: nat, n: nat)
    ensures Sum(m + n) == Sum(m) + Sum(n) + (A - 1) * (Sum(m) * Sum(n))
  {
    if m > 0 {
      SumAdd(m - 1, n);
      var s, t := Sum(m - 1), Sum(n);
      assert A * (s + t + (A - 1) * (s * t)) == A * s + A * t + (A - 1) * (A * s * t);
      assert (1 + A * s) * t == t + A * s * t;
    }
  }

  lemma SumDouble(m: nat)
    ensures Sum(2 * m) == 2 * (Sum(m) * (1 + 2 * (416131 * Sum(m))))
  {
    SumAdd(m, m);
    var s := Sum(m);
    assert s * (1 + 2 * (416131 * s)) == s + 832262 * (s * s);
  }

  /** 2^k divides the sum of n powers of A exactly when it divides n. */
  lemma {:induction false} SumDiv(k: nat, n: nat)
    ensures Div(k, Sum(n)) <==> Div(k, n)
  {
    hide Sum;
    if k > 0 {
      SumParity(n);
      if n % 2 == 0 {
        var m := n / 2;
        SumDouble(m);
        OddFactor(k - 1, Sum(m), 1 + 2 * (416131 * Sum(m)));
        SumDiv(k - 1, m);
      }
    }
  }

  lemma {:induction false} PowAdd(m: nat, n: nat)
    ensures Pow2(m + n) == Pow2(m) * Pow2(n)
  {
    if m > 0 {
      PowAdd(m - 1, n);
      assert 2 * (Pow2(m - 1) * Pow2(n)) == (2 * Pow2(m - 1)) * Pow2(n);
    }
  }

  lemma Pow32()
    ensures Pow2(32) == M
  {
    assert Pow2(8) == 256;
    PowAdd(8, 8);
    PowAdd(16, 16);
  }

  /** From any seed, the seed comes back exactly after multiples of 2^32 updates. */
  lemma Period(x: int, n: nat)
    requires 0 <= x < M
    ensures Seed(x, n) == x <==> n % M == 0
  {
    hide Seed, Sum, Div, Pow2;
    SeedIs(x, n);
    SameMod(x, Sum(n) * ((A - 1) * x + C));
    DivByM(Sum(n) * ((A - 1) * x + C));
    Odd(x);
    OddFactor(32, Sum(n), (A - 1) * x + C);
    SumDiv(32, n);
    DivByM(n);
  }

  lemma DivByM(x: int)
    ensures Div(32, x) <==> x % M == 0
  {
    Pow32();
    DivIsMod(32, x);
  }

  lemma Odd(x: int)
    ensures ((A - 1) * x + C) % 2 == 1
  {
    var k := 832262 * x + 506952111;
    assert (A - 1) * x + C == 1 + 2 * k;
    Even(1, k);
  }

  lemma SameMod(x: int, d: int)
    requires 0 <= x < M
    ensures (x + d) % M == x <==> d % M == 0
  {
  }

  lemma SeedRange(x: int, n: nat)
    requires 0 <= x < M
    ensures 0 <= Seed(x, n) < M
  {
  }

  lemma {:induction false} SeedAdd(x: int, m: nat, n: nat)
    ensures Seed(x, m + n) == Seed(Seed(x, m), n)
  {
    if n > 0 { SeedAdd(x, m, n - 1); }
  }

  /** No seed repeats within a period. */
  lemma Distinct(x: int, i: nat, j: nat)
    requires 0 <= x < M && i < j < M
    ensures Seed(x, i) != Seed(x, j)
  {
    SeedRange(x, i);
    SeedAdd(x, i, j - i);
    Period(Seed(x, i), j - i);
  }

  /** The seeds of the first n updates. */
  ghost function Visited(x: int, n: nat): set<int> {
    if n == 0 then {} else Visited(x, n - 1) + {Seed(x, n - 1)}
  }

  lemma {:induction false} FindVisit(x: int, n: nat, v: int) returns (i: nat)
    requires v in Visited(x, n)
    ensures i < n && Seed(x, i) == v
  {
    if v == Seed(x, n - 1) { return n - 1; }
    i := FindVisit(x, n - 1, v);
  }

  lemma {:induction false} VisitedCount(x: int, n: nat)
    requires 0 <= x < M && n <= M
    ensures |Visited(x, n)| == n && Visited(x, n) <= Range(0, M)
  {
    hide Range, Seed;
    if n > 0 {
      VisitedCount(x, n - 1);
      if Seed(x, n - 1) in Visited(x, n - 1) {
        var i := FindVisit(x, n - 1, Seed(x, n - 1));
        Distinct(x, i, n - 1);
      }
      SeedRange(x, n - 1);
    }
  }

  /** One period visits every value. */
  lemma VisitsAll(x: int, v: int)
    requires 0 <= x < M && 0 <= v < M
    ensures exists n: nat :: n < M && Seed(x, n) == v
  {
    hide Range, Visited, Seed;
    VisitedCount(x, M);
    FullSubset(Visited(x, M), Range(0, M));
    var n := FindVisit(x, M, v);
  }

  lemma FullSubset(a: set<int>, b: set<int>)
    requires a <= b && |a| == |b|
    ensures a == b
  {
    assert a + (b - a) == b;
  }
}
