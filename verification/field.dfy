/** The scalar field of the claim circuit: reduction of any integer into it, and modular inverses. */
module FieldArithmetic {
  import opened Arithmetic
  import opened Wrappers

  const FIELD_MODULUS: nat := 21888242871839275222246405745257275088548364400416034343698204186575808495617

  /** The remainder of a division that truncates towards zero. */
  function TruncatedRemainder(value: int, modulus: nat): int
    requires modulus > 0
  {
    if value >= 0 then value % modulus else -(-value % modulus)
  }

  lemma ResidueIsUnique(value: int, modulus: nat, q: int, r: int)
    requires modulus > 0 && 0 <= r < modulus && value == q * modulus + r
    ensures value % modulus == r
  {
    var p, s := value / modulus, value % modulus;
    assert value == p * modulus + s;
    assert (p - q) * modulus == r - s;
    MultipleBounds(p - q, modulus);
  }

  lemma MultipleBounds(d: int, modulus: nat)
    ensures d >= 1 ==> d * modulus >= modulus
    ensures d <= -1 ==> d * modulus <= 0 - modulus
  {
  }

  lemma ResidueOfNegative(n: nat, modulus: nat)
    requires modulus > 0
    ensures (0 - n) % modulus == if n % modulus == 0 then 0 else modulus - n % modulus
  {
    var q, r := n / modulus, n % modulus;
    assert n == q * modulus + r;
    assert 0 - n == (0 - q) * modulus - r == (0 - q - 1) * modulus + (modulus - r);
    if r == 0 {
      ResidueIsUnique(0 - n, modulus, 0 - q, 0);
    } else {
      ResidueIsUnique(0 - n, modulus, 0 - q - 1, modulus - r);
    }
  }

  /** Reduction into the field; for negative numbers too it is the residue between 0 and the modulus. */
  function NormalizeField(value: int): (r: int)
    ensures 0 <= r < FIELD_MODULUS
    ensures r == value % FIELD_MODULUS
  {
    var result := TruncatedRemainder(value, FIELD_MODULUS);
    if value < 0 then
      ResidueOfNegative(-value, FIELD_MODULUS);
      if result >= 0 then result else result + FIELD_MODULUS
    else result
  }

  lemma ReductionIsStable(x: int)
    ensures NormalizeField(NormalizeField(x)) == NormalizeField(x)
  {
  }

  // ----- Greatest common divisors -----

  function Gcd(a: nat, b: nat): nat
    decreases b
  {
    if b == 0 then a else Gcd(b, a % b)
  }

  lemma DividesSum(d: int, x: int, y: int, q: int)
    requires Divides(d, x) && Divides(d, y)
    ensures Divides(d, x + q * y)
  {
    var i :| x == d * i;
    var j :| y == d * j;
    assert x + q * y == d * (i + q * j);
  }

  /** `Gcd` is a common divisor, and every common divisor divides it. */
  lemma {:induction false} GcdIsGreatest(a: nat, b: nat)
    ensures Divides(Gcd(a, b), a) && Divides(Gcd(a, b), b)
    ensures forall d: int :: Divides(d, a) && Divides(d, b) ==> Divides(d, Gcd(a, b))
    decreases b
  {
    if b == 0 {
      assert a == a * 1 && 0 == a * 0;
    } else {
      GcdIsGreatest(b, a % b);
      assert a == a % b + (a / b) * b;
      DividesSum(Gcd(a, b), a % b, b, a / b);
      forall d: int | Divides(d, a) && Divides(d, b) ensures Divides(d, Gcd(a, b)) {
        DividesSum(d, a, b, -(a / b));
        assert a % b == a + -(a / b) * b;
      }
    }
  }

  ghost predicate Coprime(a: nat, b: nat)
  {
    forall d: nat :: Divides(d, a) && Divides(d, b) ==> d == 1
  }

  lemma CoprimeHaveGcdOne(a: nat, b: nat)
    ensures Coprime(a, b) <==> Gcd(a, b) == 1
  {
    GcdIsGreatest(a, b);
    if Gcd(a, b) == 1 {
      forall d: nat | Divides(d, a) && Divides(d, b) ensures d == 1 {
        assert Divides(d, 1);
        var k :| 1 == d * k;
        FactorOfOne(d, k);
      }
    }
  }

  lemma FactorOfOne(d: nat, k: int)
    requires 1 == d * k
    ensures d == 1
  {
  }

  // ----- Inverses -----

  lemma AddMultiple(a: int, k: int)
    ensures (a + k * FIELD_MODULUS) % FIELD_MODULUS == a % FIELD_MODULUS
  {
  }

  /** Products may be reduced factor by factor. */
  lemma ReduceFactors(x: int, y: int)
    ensures (x * y) % FIELD_MODULUS == (NormalizeField(x) * NormalizeField(y)) % FIELD_MODULUS
  {
    var r, s := NormalizeField(x), NormalizeField(y);
    var i, j := x / FIELD_MODULUS, y / FIELD_MODULUS;
    assert x == r + i * FIELD_MODULUS && y == s + j * FIELD_MODULUS;
    ProductOfSums(r, i, s, j, FIELD_MODULUS);
    AddMultiple(r * s, r * j + i * s + i * j * FIELD_MODULUS);
  }

  lemma ProductOfSums(r: int, i: int, s: int, j: int, m: int)
    ensures (r + i * m) * (s + j * m) == r * s + (r * j + i * s + i * j * m) * m
  {
  }

  lemma Division(a: nat, b: nat)
    requires b > 0
    ensures a - (a / b) * b == a % b
  {
  }

  /** One turn of the extended Euclidean loop on a pair of combinations. */
  lemma EuclidTurn(a: int, b: int, v: int, m: int, x0: int, y0: int, x1: int, y1: int, q: int)
    requires a == x0 * v + y0 * m && b == x1 * v + y1 * m
    ensures a - q * b == (x0 - q * x1) * v + (y0 - q * y1) * m
  {
  }

  /** Extended Euclid. The result times the value is congruent to their greatest common divisor, so it is the
      inverse of every value that is coprime to the modulus; zero has none. */
  method ModInverse(value: int) returns (inverse: Option<int>)
    ensures inverse.None? <==> value % FIELD_MODULUS == 0
    ensures inverse.Some? ==> 0 <= inverse.value < FIELD_MODULUS
    ensures inverse.Some? ==>
              (inverse.value * value) % FIELD_MODULUS == Gcd(value % FIELD_MODULUS, FIELD_MODULUS) % FIELD_MODULUS
    ensures inverse.Some? && Coprime(value % FIELD_MODULUS, FIELD_MODULUS) ==>
              (inverse.value * value) % FIELD_MODULUS == 1
  {
    var a: nat := NormalizeField(value);
    if a == 0 {
      return None;
    }
    var b: nat := FIELD_MODULUS;
    var x0, x1 := 1, 0;
    ghost var v := a;
    ghost var y0, y1 := 0, 1;
    while b != 0
      invariant a == x0 * v + y0 * FIELD_MODULUS
      invariant b == x1 * v + y1 * FIELD_MODULUS
      invariant Gcd(a, b) == Gcd(v, FIELD_MODULUS)
      decreases b
    {
      var quotient := a / b;
      Division(a, b);
      EuclidTurn(a, b, v, FIELD_MODULUS, x0, y0, x1, y1, quotient);
      a, b := b, a - quotient * b;
      x0, x1 := x1, x0 - quotient * x1;
      y0, y1 := y1, y0 - quotient * y1;
    }
    inverse := Some(NormalizeField(x0));
    InverseProduct(value, x0, y0, a);
    CoprimeHaveGcdOne(v, FIELD_MODULUS);
    ResidueIsUnique(1, FIELD_MODULUS, 0, 1);
  }

  lemma InverseProduct(value: int, x: int, y: int, g: nat)
    requires g == x * NormalizeField(value) + y * FIELD_MODULUS
    ensures (NormalizeField(x) * value) % FIELD_MODULUS == g % FIELD_MODULUS
  {
    var v, r := NormalizeField(value), NormalizeField(x);
    ResidueIsUnique(v, FIELD_MODULUS, 0, v);
    ResidueIsUnique(r, FIELD_MODULUS, 0, r);
    ReduceFactors(r, value);
    ReduceFactors(x, v);
    AddMultiple(x * v, y);
  }
}
