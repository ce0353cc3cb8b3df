/** Prime factorisation by trial division, as used for sample rates. */
module Factorization {
  import opened Words

  predicate Divides(d: nat, n: nat) {
    if d == 0 then n == 0 else n % d == 0
  }

  ghost predicate Prime(p: nat) {
    p >= 2 && forall d: nat :: 2 <= d < p ==> !Divides(d, p)
  }

  function Pow(b: nat, e: nat): nat {
    if e == 0 then 1 else b * Pow(b, e - 1)
  }

  /** The product of k^m[k] over all k up to the given bound. */
  function ProductUpTo(m: map<nat, nat>, bound: nat): nat
    decreases bound
  {
    if bound == 0 then 1
    else ProductUpTo(m, bound - 1) * (if bound in m then Pow(bound, m[bound]) else 1)
  }

  ghost predicate PrimeExponents(m: map<nat, nat>, bound: nat) {
    forall p :: p in m ==> p <= bound && Prime(p) && m[p] >= 1
  }

  // ------------------------------------------------------------------ divisibility

  lemma DividesMultiple(d: nat, k: nat)
    requires d > 0
    ensures Divides(d, d * k)
  {
    DivUnique(d * k, d, k);
  }

  lemma Cofactor(d: nat, n: nat) returns (k: nat)
    requires d > 0 && Divides(d, n)
    ensures n == d * k
  {
    k := n / d;
    QuotientIsDivision(n, d);
  }

  lemma DividesProduct(d: nat, x: nat, k: nat)
    requires d > 0 && Divides(d, x)
    ensures Divides(d, k * x)
  {
    var c := Cofactor(d, x);
    assert k * x == d * (k * c);
    DividesMultiple(d, k * c);
  }

  lemma CancelFactor(a: int, b: int, k: nat)
    requires k > 0 && k * a <= k * b
    ensures a <= b
  {
    if b < a {
      MulMonotone(b + 1, a, k);
    }
  }

  lemma DividesDifference(d: nat, x: nat, y: nat)
    requires d > 0 && Divides(d, x) && Divides(d, y) && y <= x
    ensures Divides(d, x - y)
  {
    var a := Cofactor(d, x);
    var b := Cofactor(d, y);
    CancelFactor(b, a, d);
    assert x - y == d * (a - b);
    DividesMultiple(d, a - b);
  }

  lemma DividesTransitive(d: nat, i: nat, n: nat)
    requires d > 0 && i > 0 && Divides(d, i) && Divides(i, n)
    ensures Divides(d, n)
  {
    var k := Cofactor(i, n);
    DividesProduct(d, i, k);
  }

  lemma DivMod(a: nat, p: nat) returns (q: nat, r: nat)
    requires p > 0
    ensures a == q * p + r && r < p
    ensures r == 0 <==> Divides(p, a)
  {
    QuotientIsDivision(a, p);
    q, r := a / p, a % p;
  }

  lemma Expand(q: nat, p: nat, r: nat, b: nat)
    ensures (q * p + r) * b == q * (p * b) + r * b
  {
  }

  /** Euclid's lemma below the prime, by descent from a to the remainder of p modulo a. */
  lemma {:induction false} EuclidBelow(p: nat, a: nat, b: nat)
    requires Prime(p) && 1 <= a < p && Divides(p, a * b)
    ensures Divides(p, b)
    decreases a
  {
    hide Divides;
    if a > 1 {
      var q, r := DivMod(p, a);
      Expand(q, a, r, b);
      DividesMultiple(p, b);
      DividesProduct(p, a * b, q);
      DividesDifference(p, p * b, q * (a * b));
      EuclidBelow(p, r, b);
    } else {
      assert a * b == b;
    }
  }

  lemma Euclid(p: nat, a: nat, b: nat)
    requires Prime(p) && Divides(p, a * b)
    ensures Divides(p, a) || Divides(p, b)
  {
    hide Divides;
    var q, r := DivMod(a, p);
    if r != 0 {
      Expand(q, p, r, b);
      DividesMultiple(p, b);
      DividesProduct(p, p * b, q);
      DividesDifference(p, a * b, q * (p * b));
      EuclidBelow(p, r, b);
    }
  }

  // ------------------------------------------------------------------ multiplicity

  /** How often p can be divided out of n. */
  function Multiplicity(n: nat, p: nat): nat
    requires n >= 1 && p >= 2
    decreases n
  {
    if Divides(p, n) then (Quotients(n, p); 1 + Multiplicity(n / p, p)) else 0
  }

  lemma Quotients(n: nat, p: nat)
    requires n >= 1 && p >= 2 && Divides(p, n)
    ensures 1 <= n / p < n && n == p * (n / p)
  {
    var k := Cofactor(p, n);
    DivUnique(p * k, p, k);
    if k >= 1 {
      MulMonotone(2, p, k);
    }
  }

  lemma MultiplicityStep(k: nat, p: nat)
    requires k >= 1 && p >= 2
    ensures p * k >= 1 && Multiplicity(p * k, p) == 1 + Multiplicity(k, p)
  {
    hide Divides, Multiplicity;
    DividedBack(k, p);
    MultiplicityUnfold(p * k, p);
  }

  lemma DividedBack(k: nat, p: nat)
    requires k >= 1 && p >= 2
    ensures p * k >= 1 && Divides(p, p * k) && (p * k) / p == k
  {
    hide Divides;
    DividesMultiple(p, k);
    assert p * k == k * p;
    DivUnique(p * k, p, k);
    MulMonotone(1, k, p);
  }

  lemma MultiplicityUnfold(x: nat, p: nat)
    requires x >= 1 && p >= 2 && Divides(p, x)
    ensures x / p >= 1 && Multiplicity(x, p) == 1 + Multiplicity(x / p, p)
  {
    hide Divides;
    Quotients(x, p);
  }

  lemma Positive(a: nat, b: nat)
    requires a >= 1 && b >= 1
    ensures a * b >= 1
  {
    MulMonotone(1, a, b);
  }

  /** For a prime the multiplicities of the factors add up. */
  lemma {:induction false} MultiplicityOfProduct(a: nat, b: nat, p: nat)
    requires a >= 1 && b >= 1 && Prime(p)
    ensures a * b >= 1 && Multiplicity(a * b, p) == Multiplicity(a, p) + Multiplicity(b, p)
    decreases a + b
  {
    hide Divides;
    Positive(a, b);
    if Divides(p, a) {
      Quotients(a, p);
      var k := a / p;
      MultiplicityOfProduct(k, b, p);
      Regroup(p, k, b);
      MultiplicityStep(k * b, p);
    } else if Divides(p, b) {
      Quotients(b, p);
      var k := b / p;
      MultiplicityOfProduct(a, k, p);
      Regroup(p, k, a);
      MultiplicityStep(a * k, p);
    } else if Divides(p, a * b) {
      Euclid(p, a, b);
    }
  }

  lemma Regroup(p: nat, k: nat, b: nat)
    ensures (p * k) * b == p * (k * b) && b * (p * k) == p * (b * k)
  {
  }

  lemma {:induction false} PowPositive(b: nat, e: nat)
    requires b >= 1
    ensures Pow(b, e) >= 1
  {
    if e != 0 {
      PowPositive(b, e - 1);
      Positive(b, Pow(b, e - 1));
    }
  }

  /** A prime divides no other prime. */
  lemma MultiplicityOfPrime(q: nat, p: nat)
    requires Prime(p) && Prime(q)
    ensures Multiplicity(q, p) == if p == q then 1 else 0
  {
    if p == q {
      MultiplicityStep(1, p);
    } else if p > q {
      DivUnique(q, p, 0);
    }
  }

  lemma {:induction false} MultiplicityOfPower(q: nat, e: nat, p: nat)
    requires Prime(p) && Prime(q)
    ensures Pow(q, e) >= 1 && Multiplicity(Pow(q, e), p) == if p == q then e else 0
    decreases e
  {
    PowPositive(q, e);
    if e == 0 {
      DivUnique(1, p, 0);
    } else {
      MultiplicityOfPower(q, e - 1, p);
      MultiplicityOfPrime(q, p);
      MultiplicityOfProduct(q, Pow(q, e - 1), p);
    }
  }

  /** In a product of prime powers the exponent of each prime is its multiplicity. */
  lemma {:induction false} ExponentIsMultiplicity(m: map<nat, nat>, all: nat, bound: nat, p: nat)
    requires PrimeExponents(m, all) && Prime(p)
    ensures ProductUpTo(m, bound) >= 1
    ensures Multiplicity(ProductUpTo(m, bound), p) == if p in m && p <= bound then m[p] else 0
    decreases bound
  {
    if bound == 0 {
      DivUnique(1, p, 0);
    } else {
      ExponentIsMultiplicity(m, all, bound - 1, p);
      if bound in m {
        MultiplicityOfPower(bound, m[bound], p);
        MultiplicityOfProduct(ProductUpTo(m, bound - 1), Pow(bound, m[bound]), p);
      }
    }
  }

  /** A number has at most one factorisation into powers of primes. */
  lemma Canonical(m: map<nat, nat>, k: nat, m': map<nat, nat>, k': nat)
    requires PrimeExponents(m, k) && PrimeExponents(m', k')
    requires ProductUpTo(m, k) == ProductUpTo(m', k')
    ensures m == m'
  {
    forall p | p in m || p in m' ensures p in m && p in m' && m[p] == m'[p] {
      ExponentIsMultiplicity(m, k, k, p);
      ExponentIsMultiplicity(m', k', k', p);
    }
  }

  /** The multiplicity is the largest exponent whose power divides n. */
  lemma {:induction false} MultiplicityIsLargest(n: nat, p: nat, e: nat)
    requires n >= 1 && p >= 2
    ensures Divides(Pow(p, e), n) <==> e <= Multiplicity(n, p)
    decreases e
  {
    if e > 0 {
      PowPositive(p, e - 1);
      if Divides(p, n) {
        Quotients(n, p);
        MultiplicityIsLargest(n / p, p, e - 1);
        DividesScaled(p, Pow(p, e - 1), n / p);
      } else if Divides(Pow(p, e), n) {
        DividesMultiple(p, Pow(p, e - 1));
        Positive(p, Pow(p, e - 1));
        DividesTransitive(p, Pow(p, e), n);
      }
    }
  }

  lemma DividesScaled(p: nat, d: nat, n: nat)
    requires p >= 1 && d >= 1
    ensures Divides(p * d, p * n) <==> Divides(d, n)
  {
    Positive(p, d);
    if Divides(d, n) {
      var k := Cofactor(d, n);
      assert p * n == p * d * k;
      DividesMultiple(p * d, k);
    }
    if Divides(p * d, p * n) {
      var k := Cofactor(p * d, p * n);
      assert p * n == p * (d * k);
      CancelFactor(n, d * k, p);
      CancelFactor(d * k, n, p);
      DividesMultiple(d, k);
    }
  }

  // ------------------------------------------------------------------ the algorithm

  lemma {:induction false} ProductExtends(m: map<nat, nat>, m': map<nat, nat>, bound: nat)
    requires forall p :: p <= bound ==> (p in m <==> p in m') && (p in m ==> m[p] == m'[p])
    ensures ProductUpTo(m, bound) == ProductUpTo(m', bound)
    decreases bound
  {
    if bound != 0 {
      ProductExtends(m, m', bound - 1);
    }
  }

  /** Counting one more factor i multiplies the product by i. */
  lemma CountFactor(m: map<nat, nat>, i: nat)
    requires i >= 1
    ensures var m' := m[i := (if i in m then m[i] else 0) + 1];
            ProductUpTo(m', i) == ProductUpTo(m, i) * i
  {
    var e := if i in m then m[i] else 0;
    var m' := m[i := e + 1];
    ProductExtends(m, m', i - 1);
    Reassociate(ProductUpTo(m, i - 1), Pow(i, e), i);
  }

  lemma Reassociate(a: nat, b: nat, i: nat)
    ensures a * (i * b) == a * b * i && a * i * b == a * (i * b)
  {
  }

  /** The smallest divisor above 1 is prime. */
  lemma SmallestDivisorPrime(i: nat, n: nat)
    requires i >= 2 && n >= 1 && Divides(i, n)
    requires forall d: nat :: 2 <= d < i ==> !Divides(d, n)
    ensures Prime(i)
  {
    forall d: nat | 2 <= d < i ensures !Divides(d, i) {
      if Divides(d, i) {
        DividesTransitive(d, i, n);
      }
    }
  }

  /** What is left after dividing i out is still not divisible by anything smaller. */
  lemma NothingSmaller(i: nat, n: nat)
    requires i >= 2 && n >= 1 && Divides(i, n)
    requires forall d: nat :: 2 <= d < i ==> !Divides(d, n)
    ensures forall d: nat :: 2 <= d < i ==> !Divides(d, n / i)
  {
    Quotients(n, i);
    forall d: nat | 2 <= d < i ensures !Divides(d, n / i) {
      if Divides(d, n / i) {
        DividesProduct(d, n / i, i);
      }
    }
  }

  /** Divides i out of n as often as possible. */
  method DivideOut(n: nat, i: nat, exponents: map<nat, nat>) returns (rest: nat, m: map<nat, nat>)
    requires n >= 1 && i >= 2
    requires forall d: nat :: 2 <= d < i ==> !Divides(d, n)
    requires PrimeExponents(exponents, i - 1)
    ensures 1 <= rest <= n && PrimeExponents(m, i)
    ensures forall d: nat :: 2 <= d < i + 1 ==> !Divides(d, rest)
    ensures ProductUpTo(m, i) * rest == ProductUpTo(exponents, i) * n
  {
    rest, m := n, exponents;
    while rest % i == 0
      invariant 1 <= rest <= n
      invariant forall d: nat :: 2 <= d < i ==> !Divides(d, rest)
      invariant PrimeExponents(m, i)
      invariant ProductUpTo(m, i) * rest == ProductUpTo(exponents, i) * n
      decreases rest
    {
      assert Divides(i, rest);
      Quotients(rest, i);
      NothingSmaller(i, rest);
      SmallestDivisorPrime(i, rest);
      CountFactor(m, i);
      Reassociate(ProductUpTo(m, i), rest / i, i);
      rest := rest / i;
      m := m[i := (if i in m then m[i] else 0) + 1];
    }
  }

  /** The map of prime exponents of an unsigned 32-bit number: all keys are prime, the product of
      the powers is the number, and the map is empty for 0 and 1. The loop variable stays below
      2^32. */
  method GetPrimeFactorExponents(input: nat) returns (m: map<nat, nat>)
    requires input < 0x1_0000_0000
    ensures PrimeExponents(m, input)
    ensures input >= 1 ==> ProductUpTo(m, input) == input
    ensures input < 2 ==> m == map[]
  {
    m := map[];
    var rest: nat, i: nat := input, 2;
    while i <= rest
      invariant 2 <= i < 0x1_0000_0000
      invariant rest <= input && (input >= 1 ==> rest >= 1)
      invariant input < 2 ==> m == map[]
      invariant i <= input + 1 || input < 2
      invariant PrimeExponents(m, i - 1)
      invariant forall d: nat :: 2 <= d < i ==> !Divides(d, rest) || rest == 0
      invariant input >= 1 ==> ProductUpTo(m, i - 1) * rest == input
      decreases rest - i
    {
      assert Divides(3, 0xFFFF_FFFF);
      assert i < 0xFFFF_FFFF;
      ProductSkips(m, i);
      rest, m := DivideOut(rest, i, m);
      i := i + 1;
    }
    if input >= 2 {
      DividesMultiple(rest, 1);
      assert rest < 2;
      ProductSettled(m, i - 1, input);
    }
  }

  lemma ProductSkips(m: map<nat, nat>, i: nat)
    requires i >= 1 && PrimeExponents(m, i - 1)
    ensures ProductUpTo(m, i) == ProductUpTo(m, i - 1)
  {
  }

  lemma {:induction false} ProductSettled(m: map<nat, nat>, k: nat, bound: nat)
    requires PrimeExponents(m, k) && k <= bound
    ensures ProductUpTo(m, bound) == ProductUpTo(m, k)
    decreases bound
  {
    if k < bound {
      ProductSettled(m, k, bound - 1);
    }
  }

  /** In the factorisation of n the exponent of every prime is the largest one whose power divides
      n, and it is less than 32 for a 32-bit number. */
  lemma ExponentsAreLargest(m: map<nat, nat>, n: nat, p: nat, e: nat)
    requires n >= 1 && PrimeExponents(m, n) && ProductUpTo(m, n) == n && Prime(p)
    ensures Divides(Pow(p, e), n) <==> e <= if p in m then m[p] else 0
    ensures p in m && n < 0x1_0000_0000 ==> m[p] < 32
  {
    ExponentIsMultiplicity(m, n, n, p);
    MultiplicityIsLargest(n, p, e);
    if p in m && m[p] >= 32 {
      MultiplicityIsLargest(n, p, 32);
      PowPositive(p, 32);
      PowAtLeast(p, 32);
      Shl32();
      var k := Cofactor(Pow(p, 32), n);
      if k >= 1 {
        MulMonotone(1, k, Pow(p, 32));
      }
    }
  }

  lemma {:induction false} PowAtLeast(p: nat, e: nat)
    requires p >= 2
    ensures Pow(p, e) >= Shl(1, e)
  {
    if e != 0 {
      PowAtLeast(p, e - 1);
      MulMonotone(2, p, Pow(p, e - 1));
    }
  }

  lemma Shl32()
    ensures Shl(1, 32) == 0x1_0000_0000
  {
    assert Shl(1, 8) == 0x100;
    assert Shl(1, 16) == 0x1_0000;
    assert Shl(1, 24) == 0x100_0000;
  }

  // ------------------------------------------------------------------ products and inverses

  function RealPow(b: real, e: int): real
    requires b != 0.0 || e >= 0
    decreases if e < 0 then -e else e
  {
    if e == 0 then 1.0 else if e > 0 then b * RealPow(b, e - 1) else RealPow(b, e + 1) / b
  }

  /** Zero to a negative power has no value among the reals. */
  predicate Defined(m: map<nat, int>) {
    0 in m ==> m[0] >= 0
  }

  function RealProductUpTo(m: map<nat, int>, bound: nat): real
    requires Defined(m)
    decreases bound
  {
    if bound == 0 then if 0 in m then RealPow(0.0, m[0]) else 1.0
    else RealProductUpTo(m, bound - 1) * (if bound in m then RealPow(bound as real, m[bound]) else 1.0)
  }

  function Negated(m: map<nat, int>): map<nat, int> {
    map p | p in m :: -m[p]
  }

  /** The product of the prime powers, in key order; 0 for the empty map. */
  method GetProduct(m: map<nat, int>) returns (product: real)
    requires Defined(m) && forall p :: p in m ==> p < 0x1_0000_0000
    ensures product == if m == map[] then 0.0 else RealProductUpTo(m, 0xFFFF_FFFF)
  {
    product := 0.0;
    if m != map[] {
      product := 1.0;
      for p := 0 to 0x1_0000_0000
        invariant product == if p == 0 then 1.0 else RealProductUpTo(m, p - 1)
      {
        if p in m {
          product := product * RealPow(p as real, m[p]);
        }
      }
    }
  }

  method ChangeSigns(input: map<nat, int>) returns (inverse: map<nat, int>)
    ensures inverse == Negated(input)
  {
    inverse := map[];
    var keys := input.Keys;
    while keys != {}
      invariant keys <= input.Keys
      invariant inverse.Keys == input.Keys - keys
      invariant forall p :: p in inverse ==> inverse[p] == -input[p]
      decreases keys
    {
      var p :| p in keys;
      inverse := inverse[p := -input[p]];
      keys := keys - {p};
    }
  }

  lemma RealPowStep(b: real, e: int)
    requires b != 0.0 && e > 0
    ensures RealPow(b, e) == b * RealPow(b, e - 1)
    ensures RealPow(b, -e) == RealPow(b, -(e - 1)) / b
  {
  }

  lemma {:induction false} RealPowInverse(b: real, e: int)
    requires b != 0.0 && e >= 0
    ensures RealPow(b, e) * RealPow(b, -e) == 1.0
  {
    if e > 0 {
      RealPowInverse(b, e - 1);
      var x, y := RealPow(b, e - 1), RealPow(b, -(e - 1));
      RealPowStep(b, e);
      CancelPair(b, x, y);
    }
  }

  lemma CancelPair(b: real, x: real, y: real)
    requires b != 0.0 && x * y == 1.0
    ensures (b * x) * (y / b) == 1.0
  {
    assert (b * x) * (y / b) == x * y * (b / b);
  }

  /** Negating the exponents turns a frequency into its period and back: the products are each
      other's inverse. */
  lemma {:induction false} SignsInvertProduct(m: map<nat, int>, bound: nat)
    requires 0 !in m
    ensures RealProductUpTo(m, bound) * RealProductUpTo(Negated(m), bound) == 1.0
    ensures Negated(Negated(m)) == m
    decreases bound
  {
    if bound != 0 {
      SignsInvertProduct(m, bound - 1);
      if bound in m {
        InvertStep(m, bound);
      }
    }
  }

  lemma InvertStep(m: map<nat, int>, bound: nat)
    requires 0 !in m && bound in m
    requires RealProductUpTo(m, bound - 1) * RealProductUpTo(Negated(m), bound - 1) == 1.0
    ensures RealProductUpTo(m, bound) * RealProductUpTo(Negated(m), bound) == 1.0
  {
    hide RealPow, RealProductUpTo;
    var b, e := bound as real, m[bound];
    if e >= 0 {
      RealPowInverse(b, e);
    } else {
      RealPowInverse(b, -e);
    }
    ProductStep(m, bound);
    ProductStep(Negated(m), bound);
    Interleave(RealProductUpTo(m, bound - 1), RealPow(b, e), RealProductUpTo(Negated(m), bound - 1), RealPow(b, -e));
  }

  lemma ProductStep(m: map<nat, int>, bound: nat)
    requires 0 !in m && bound in m
    ensures RealProductUpTo(m, bound) == RealProductUpTo(m, bound - 1) * RealPow(bound as real, m[bound])
  {
  }

  lemma Interleave(a: real, x: real, b: real, y: real)
    requires a * b == 1.0 && x * y == 1.0
    ensures (a * x) * (b * y) == 1.0
  {
    assert (a * x) * (b * y) == (a * b) * (x * y);
  }

  lemma {:induction false} RealPowIsPow(b: nat, e: nat)
    requires b >= 1
    ensures RealPow(b as real, e) == Pow(b, e) as real
  {
    if e != 0 {
      RealPowIsPow(b, e - 1);
      RealOfProduct(b, Pow(b, e - 1));
    }
  }

  lemma {:induction false} RealOfProduct(a: nat, b: nat)
    ensures (a * b) as real == (a as real) * (b as real)
    decreases a
  {
    if a != 0 {
      RealOfProduct(a - 1, b);
      assert a * b == (a - 1) * b + b;
    }
  }

  lemma {:induction false} RealProductIsProduct(m: map<nat, nat>, bound: nat)
    requires 0 !in m
    ensures RealProductUpTo(m, bound) == ProductUpTo(m, bound) as real
    decreases bound
  {
    if bound != 0 {
      RealProductIsProduct(m, bound - 1);
      if bound in m {
        RealStep(m, bound);
      }
    }
  }

  lemma RealStep(m: map<nat, nat>, bound: nat)
    requires 0 !in m && bound in m && RealProductUpTo(m, bound - 1) == ProductUpTo(m, bound - 1) as real
    ensures RealProductUpTo(m, bound) == ProductUpTo(m, bound) as real
  {
    hide RealPow, Pow, RealProductUpTo;
    ProductStep(m, bound);
    RealPowIsPow(bound, m[bound]);
    RealOfProduct(ProductUpTo(m, bound - 1), Pow(bound, m[bound]));
  }

  /** Factorising a number and multiplying the factors gives the number back. */
  lemma FactorsMultiplyBack(m: map<nat, nat>, n: nat)
    requires 2 <= n < 0x1_0000_0000 && PrimeExponents(m, n) && ProductUpTo(m, n) == n
    ensures m != map[] && RealProductUpTo(m, 0xFFFF_FFFF) == n as real
  {
    ProductSettled(m, n, 0xFFFF_FFFF);
    RealProductIsProduct(m, 0xFFFF_FFFF);
    if m == map[] {
      ProductSettled(m, 0, n);
    }
  }
}
