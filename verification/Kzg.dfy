/** The trusted setup of `kzg.py`: powers of the secret, roots of unity, and the Lagrange form of the setup. */
module Kzg {
  import opened Modular
  import opened Group
  import opened Fft
  import opened Lagrange
  import opened Wrappers

  const BLS_MODULUS: nat := 52435875175126190479447740508185965837690552500527637822603658699938581184513
  const PRIMITIVE_ROOT_OF_UNITY: nat := 7
  const TWO_TO_THE_32: nat := 0x1_0000_0000

  /** The two facts about the numerals above that are taken as given: 7 is not a square modulo the
      order of the scalar field, and Fermat's little theorem holds for the base 2. */
  ghost predicate FieldFacts(m: nat) {
    && m > 2 && m % 2 == 1
    && Cong(Pow(PRIMITIVE_ROOT_OF_UNITY, (m - 1) / 2), -1, m)
    && Cong(Pow(2, m - 1), 1, m)
  }

  /** The points of a group whose scalars are the residues modulo m. */
  ghost predicate PointGroup<G(!new)>(g: Group<G>, m: nat) {
    Lawful(g) && g.order == m && FieldFacts(m)
  }

  method GenerateSetup<G>(g: Group<G>, generator: G, secret: int, length: nat) returns (result: seq<G>)
    ensures |result| == (if length == 0 then 1 else length) && result[0] == generator
    ensures forall i :: 0 < i < |result| ==> result[i] == g.mul(result[i - 1], secret)
  {
    result := [generator];
    for i := 1 to if length == 0 then 1 else length
      invariant |result| == i && result[0] == generator
      invariant forall k :: 0 < k < i ==> result[k] == g.mul(result[k - 1], secret)
    {
      result := result + [g.mul(result[|result| - 1], secret)];
    }
  }

  ghost predicate IsSetup<G>(g: Group<G>, generator: G, secret: int, setup: seq<G>) {
    && setup != [] && setup[0] == generator
    && forall i :: 0 < i < |setup| ==> setup[i] == g.mul(setup[i - 1], secret)
  }

  /** Point i of a setup is `secret^i` times the generator. */
  lemma {:induction false} SetupPoint<G(!new)>(g: Group<G>, generator: G, secret: int, setup: seq<G>, i: nat)
    requires Lawful(g) && IsSetup(g, generator, secret, setup) && i < |setup|
    ensures setup[i] == g.mul(generator, Pow(secret, i))
  {
    if i == 0 {
      MulOne(g, generator);
    } else {
      SetupPoint(g, generator, secret, setup, i - 1);
      MulMul(g, generator, Pow(secret, i - 1), secret);
      assert Pow(secret, i) == Pow(secret, i - 1) * secret;
    }
  }

  /** A root of unity for the given length; the assertion of the source becomes `None`. */
  function ComputeRootOfUnity(length: nat, m: nat): (root: Option<int>)
    requires length > 0 && m > 1
    ensures root.Some? <==> (m - 1) % length == 0
    ensures root.Some? ==> 0 <= root.value < m
  {
    if (m - 1) % length == 0 then Some(Pow(PRIMITIVE_ROOT_OF_UNITY, (m - 1) / length) % m) else None
  }

  /** In the scalar field a power-of-two length has a root of unity exactly up to 2^32. */
  lemma RootExists(n: nat)
    requires IsPowerOfTwo(n)
    ensures n > 0 && (ComputeRootOfUnity(n, BLS_MODULUS).Some? <==> n <= TWO_TO_THE_32)
  {
    hide Pow, IsPowerOfTwo;
    PowerOfTwoPositive(n);
    LargestPower();
    PowerDivisors(n, TWO_TO_THE_32, 12208678567578594777604504606729831043093128246378069236549469339647);
  }

  lemma PowerDivisors(n: nat, p: nat, odd: nat)
    requires n > 0 && IsPowerOfTwo(n) && IsPowerOfTwo(p) && IsPowerOfTwo(2 * p) && odd % 2 == 1
    ensures p * odd % n == 0 <==> n <= p
  {
    hide IsPowerOfTwo;
    if n <= p {
      PowerDivides(n, p);
      MultipleOfMultiple(n, p, odd);
    } else {
      PowerDivides(p, n);
      TwiceAtLeast(n, p);
      PowerDivides(2 * p, n);
      if p * odd % n == 0 {
        NotTwice(n, p, odd);
      }
    }
  }

  lemma TwiceAtLeast(n: nat, p: nat)
    requires 0 < p < n && n % p == 0
    ensures n >= 2 * p
  {
    var q := n / p;
    assert n == p * q;
    assert q < 2 ==> p * q <= p;
    assert q >= 2 ==> p * q >= p * 2;
  }

  /** An odd multiple of p is no multiple of a multiple of 2p. */
  lemma NotTwice(n: nat, p: nat, odd: nat)
    requires p > 0 && n > 0 && n % (2 * p) == 0 && p * odd % n == 0
    ensures odd % 2 == 0
  {
    var k, j := p * odd / n, n / (2 * p);
    assert p * odd == n * k;
    assert n == 2 * p * j;
    assert p * odd == p * (2 * (j * k));
    CancelFactor(p, odd, 2 * (j * k));
  }

  lemma CancelFactor(p: nat, a: int, b: int)
    requires p > 0 && p * a == p * b
    ensures a == b
  {
    assert a < b ==> p * (b - a) > 0;
    assert a > b ==> p * (a - b) > 0;
  }

  lemma LargestPower()
    ensures IsPowerOfTwo(TWO_TO_THE_32) && IsPowerOfTwo(2 * TWO_TO_THE_32)
  {
    ProductOfPowers(2, 2);
    ProductOfPowers(4, 4);
    ProductOfPowers(16, 16);
    ProductOfPowers(256, 256);
    ProductOfPowers(65536, 65536);
    ProductOfPowers(2, TWO_TO_THE_32);
  }

  lemma {:induction false} ProductOfPowers(a: nat, b: nat)
    requires IsPowerOfTwo(a) && IsPowerOfTwo(b)
    ensures IsPowerOfTwo(a * b)
  {
    if a > 1 {
      var c := a / 2;
      ProductOfPowers(c, b);
      PowerOfTwoPositive(c * b);
      DoubleProduct(a, c, b);
    }
  }

  lemma DoubleProduct(a: nat, c: nat, b: nat)
    requires a == 2 * c
    ensures a * b == 2 * (c * b) && a * b / 2 == c * b && a * b % 2 == 0
  {
  }

  lemma {:induction false} PowerDivides(n: nat, p: nat)
    requires IsPowerOfTwo(n) && IsPowerOfTwo(p) && n <= p
    ensures n > 0 && p % n == 0
  {
    if n > 1 {
      PowerDivides(n / 2, p / 2);
      var q := (p / 2) / (n / 2);
      assert p / 2 == n / 2 * q;
      assert p == n * q;
      ModOfMultiple(q, n);
    }
  }

  lemma MultipleOfMultiple(n: nat, p: nat, k: nat)
    requires n > 0 && p % n == 0
    ensures p * k % n == 0
  {
    var q := p / n;
    assert p == n * q;
    assert p * k == q * k * n;
    ModOfMultiple(q * k, n);
  }

  lemma PrimitiveFullTurn(m: nat)
    requires FieldFacts(m)
    ensures Cong(Pow(PRIMITIVE_ROOT_OF_UNITY, m - 1), 1, m)
  {
    var h := Pow(PRIMITIVE_ROOT_OF_UNITY, (m - 1) / 2);
    PowAdd(PRIMITIVE_ROOT_OF_UNITY, (m - 1) / 2, (m - 1) / 2);
    CongMul(h, -1, h, -1, m);
  }

  lemma ExactDivision(p: nat, n: nat)
    requires n > 0 && p % n == 0
    ensures p / n * n == p
  {
  }

  /** The root has the promised order: `w^length = 1`, for every length that divides m - 1. */
  lemma RootHasOrder(length: nat, m: nat)
    requires FieldFacts(m) && length > 0 && ComputeRootOfUnity(length, m).Some?
    ensures Cong(Pow(ComputeRootOfUnity(length, m).value, length), 1, m)
  {
    PrimitiveFullTurn(m);
    hide Pow, Cong, FieldFacts;
    var e := (m - 1) / length;
    var w := Pow(PRIMITIVE_ROOT_OF_UNITY, e);
    CongMod(w, m);
    CongPow(w % m, w, length, m);
    PowPow(PRIMITIVE_ROOT_OF_UNITY, e, length);
    ExactDivision(m - 1, length);
    CongTrans(Pow(w % m, length), Pow(w, length), 1, m);
  }

  /** The roots are nested: the root for a multiple of a length, taken that many steps at a time, is the root for the
      length; and the root for the whole group is 7. Being reduced, every root is thereby fixed. */
  lemma RootsNest(k: nat, n: nat, m: nat)
    requires m > 1 && k > 0 && n > 0 && (m - 1) % (k * n) == 0
    ensures k * n > 0 && ComputeRootOfUnity(k * n, m).Some? && ComputeRootOfUnity(n, m).Some?
    ensures ComputeRootOfUnity(n, m).value == Pow(ComputeRootOfUnity(k * n, m).value, k) % m
    ensures m > 7 ==> ComputeRootOfUnity(m - 1, m) == Some(7)
  {
    hide Pow, Cong;
    var e := (m - 1) / (k * n);
    assert m - 1 == e * (k * n) by { ExactDivision(m - 1, k * n); }
    NestedDivision(m - 1, e, k, n);
    var w := Pow(PRIMITIVE_ROOT_OF_UNITY, e);
    CongMod(w, m);
    CongPow(w % m, w, k, m);
    PowPow(PRIMITIVE_ROOT_OF_UNITY, e, k);
    CongModEqual(Pow(w % m, k), Pow(PRIMITIVE_ROOT_OF_UNITY, e * k), m);
    WholeGroup(m);
  }

  lemma WholeGroup(m: nat)
    requires m > 1
    ensures m > 7 ==> ComputeRootOfUnity(m - 1, m) == Some(7)
  {
    assert Pow(PRIMITIVE_ROOT_OF_UNITY, 1) == 7 * Pow(PRIMITIVE_ROOT_OF_UNITY, 0);
    assert (m - 1) / (m - 1) == 1;
  }

  lemma NestedDivision(p: nat, e: nat, k: nat, n: nat)
    requires k > 0 && n > 0 && p == e * (k * n)
    ensures k * n > 0 && p % n == 0 && p / n == e * k
  {
    assert p == e * k * n;
    ModOfMultiple(e * k, n);
    var q := p / n;
    assert q * n == p;
    CancelFactor(n, q, e * k);
  }

  /** For an even length the root is only halfway round after half of the steps. */
  lemma RootMakesHalfTurn(length: nat, m: nat)
    requires FieldFacts(m) && IsPowerOfTwo(length) && ComputeRootOfUnity(length, m).Some?
    ensures HalfTurn(ComputeRootOfUnity(length, m).value, length, m)
  {
    if length > 1 {
      var e := (m - 1) / length;
      var w := Pow(PRIMITIVE_ROOT_OF_UNITY, e);
      CongMod(w, m);
      CongPow(w % m, w, length / 2, m);
      PowPow(PRIMITIVE_ROOT_OF_UNITY, e, length / 2);
      HalfOfProduct(e, length, m - 1);
      CongTrans(Pow(w % m, length / 2), Pow(w, length / 2), -1, m);
    }
  }

  lemma HalfOfProduct(e: nat, n: nat, p: nat)
    requires n % 2 == 0 && n > 0 && p % n == 0 && e == p / n
    ensures e * (n / 2) == p / 2
  {
    assert e * n == p;
    assert e * n == 2 * (e * (n / 2));
  }

  /** `pow(length, m - 2, m)` is the inverse of the length. */
  lemma {:induction false} LengthInverse(n: nat, m: nat)
    requires FieldFacts(m) && IsPowerOfTwo(n)
    ensures Cong(Pow(n, m - 1), 1, m) && Cong(n * (Pow(n, m - 2) % m), 1, m)
  {
    LengthPower(n, m);
    CongMod(Pow(n, m - 2), m);
    CongRefl(n, m);
    CongMul(n, n, Pow(n, m - 2) % m, Pow(n, m - 2), m);
    assert Pow(n, m - 1) == n * Pow(n, m - 2);
    CongTrans(n * (Pow(n, m - 2) % m), Pow(n, m - 1), 1, m);
  }

  lemma {:induction false} LengthPower(n: nat, m: nat)
    requires FieldFacts(m) && IsPowerOfTwo(n)
    ensures Cong(Pow(n, m - 1), 1, m)
  {
    if n == 1 {
      PowOne(m - 1);
      CongRefl(1, m);
    } else {
      LengthPower(n / 2, m);
      PowMulBase(2, n / 2, m - 1);
      CongMul(Pow(2, m - 1), 1, Pow(n / 2, m - 1), 1, m);
    }
  }

  method ComputeRootsOfUnity(count: nat, m: nat) returns (roots: Option<seq<int>>)
    requires count > 0 && m > 1
    ensures roots.Some? <==> (m - 1) % count == 0
    ensures roots.Some? ==>
      && |roots.value| == count
      && forall i :: 0 <= i < count ==> roots.value[i] == Pow(ComputeRootOfUnity(count, m).value, i) % m
  {
    var root := ComputeRootOfUnity(count, m);
    if root.None? {
      return None;
    }
    var list, current := [], 1;
    for i := 0 to count
      invariant |list| == i && current == Pow(root.value, i) % m
      invariant forall k :: 0 <= k < i ==> list[k] == Pow(root.value, k) % m
    {
      list := list + [current];
      NextPower(root.value, i, m);
      current := current * root.value % m;
    }
    roots := Some(list);
  }

  lemma NextPower(w: int, i: nat, m: nat)
    requires m > 1
    ensures Pow(w, i) % m * w % m == Pow(w, i + 1) % m
  {
    CongMod(Pow(w, i), m);
    CongRefl(w, m);
    CongMul(Pow(w, i) % m, Pow(w, i), w, w, m);
    assert Pow(w, i) * w == Pow(w, i + 1);
    CongModEqual(Pow(w, i) % m * w, Pow(w, i + 1), m);
  }

  /** The roots are pairwise distinct, so evaluating at all of them determines a polynomial. */
  lemma RootsAreDistinct(n: nat, i: nat, j: nat, m: nat)
    requires FieldFacts(m) && IsPowerOfTwo(n) && ComputeRootOfUnity(n, m).Some? && i < j < n
    ensures !Cong(Pow(ComputeRootOfUnity(n, m).value, i), Pow(ComputeRootOfUnity(n, m).value, j), m)
  {
    LengthInverse(n, m);
    RootMakesHalfTurn(n, m);
    PowersAreDistinct(ComputeRootOfUnity(n, m).value, n, Pow(n, m - 2) % m, i, j, m);
  }

  lemma PowersAreDistinct(w: int, n: nat, inv: int, i: nat, j: nat, m: nat)
    requires m > 1 && IsPowerOfTwo(n) && HalfTurn(w, n, m) && Cong(n * inv, 1, m) && i < j < n
    ensures !Cong(Pow(w, i), Pow(w, j), m)
  {
    hide Pow, Cong, Geometric, HalfTurn, IsPowerOfTwo;
    if Cong(Pow(w, i), Pow(w, j), m) {
      // Then w^(j-i) = 1, whose progression sums both to n and to zero.
      PowerQuotient(w, n, i, j, m);
      CongRefl(1, m);
      GeometricOnes(Pow(w, j - i), 1, n, m);
      Orthogonality(w, n, j - i, m);
      SmallRemainder(j - i, n);
      CongSym(Geometric(Pow(w, j - i), 1, n), n, m);
      CongTrans(n, Geometric(Pow(w, j - i), 1, n), 0, m);
      CongRefl(inv, m);
      CongMul(n, 0, inv, inv, m);
      CongSym(n * inv, 1, m);
      CongTrans(1, n * inv, 0, m);
      CongSmall(1, 0, m);
    }
  }

  lemma SmallRemainder(k: nat, n: nat)
    requires 0 < k < n
    ensures k % n != 0
  {
    CongMod(k, n);
    CongSmall(k % n, k, n);
  }

  lemma PowerQuotient(w: int, n: nat, i: nat, j: nat, m: nat)
    requires m > 1 && IsPowerOfTwo(n) && HalfTurn(w, n, m) && i < j < n && Cong(Pow(w, i), Pow(w, j), m)
    ensures Cong(Pow(w, j - i), 1, m)
  {
    hide Pow, Cong;
    CongRefl(Pow(w, n - i), m);
    CongMul(Pow(w, i), Pow(w, j), Pow(w, n - i), Pow(w, n - i), m);
    PowAdd(w, i, n - i);
    PowAdd(w, j, n - i);
    PowAdd(w, j - i, n);
    FullTurn(w, n, 1, m);
    CongSym(Pow(w, n), 1, m);
    CongTrans(1, Pow(w, n), Pow(w, j + (n - i)), m);
    CongRefl(Pow(w, j - i), m);
    CongMul(Pow(w, j - i), Pow(w, j - i), Pow(w, n), 1, m);
    CongTrans(1, Pow(w, j + (n - i)), Pow(w, j - i), m);
    CongSym(1, Pow(w, j - i), m);
  }

  /** The Lagrange form of a setup: transform, reverse the index, divide by the length. */
  method GetLagrange<G(!new)>(g: Group<G>, setup: seq<G>, m: nat) returns (lagrange: Option<seq<G>>)
    requires PointGroup(g, m) && IsPowerOfTwo(|setup|)
    ensures lagrange.Some? <==> (m - 1) % |setup| == 0
    ensures lagrange.Some? ==> IsInverseDft(g, ComputeRootOfUnity(|setup|, m).value, setup, lagrange.value)
  {
    hide Pow, Cong, Dft, Values, RootDomain, IsPowersOf, IsPowerOfTwo, HalfTurn, FieldFacts;
    var n := |setup|;
    PowerOfTwoPositive(n);
    FieldModulus(m);
    var root := ComputeRootOfUnity(n, m);
    if root.None? {
      return None;
    }
    var w := root.value;
    var domain := seq(n, i requires 0 <= i < n => Pow(w, i) % m);
    RootMakesHalfTurn(n, m);
    DomainOfPowers(w, domain, m);
    var output := Transform(g, setup, domain);
    var invLength := Pow(n, m - 2) % m;
    var list := seq(n, i requires 0 <= i < n => g.mul(output[NegativeIndex(i, n)], invLength));
    LengthInverse(n, m);
    forall i | 0 <= i < n
      ensures Values(g, setup, domain)[NegativeIndex(i, n)] == Values(g, setup, Powers(Pow(w, n - 1), 1, n))[i]
    {
      ReversedOutput(g, w, setup, domain, i);
    }
    assert IsInverseTransform(g, w, invLength, setup, list);
    forall j | 0 <= j < n ensures Dft(g, w, list, j) == setup[j] {
      TransformInverts(g, w, invLength, setup, list, j);
    }
    lagrange := Some(list);
  }

  lemma PowerOfTwoPositive(n: nat)
    requires IsPowerOfTwo(n)
    ensures n > 0
  {
  }

  lemma FieldModulus(m: nat)
    requires FieldFacts(m)
    ensures m > 2
  {
  }

  lemma DomainOfPowers(w: int, domain: seq<int>, m: nat)
    requires m > 1 && IsPowerOfTwo(|domain|) && HalfTurn(w, |domain|, m)
    requires forall i :: 0 <= i < |domain| ==> domain[i] == Pow(w, i) % m
    ensures IsPowersOf(w, domain, m) && RootDomain(domain, m)
  {
    forall i | 0 <= i < |domain| ensures Cong(domain[i], Pow(w, i), m) {
      CongMod(Pow(w, i), m);
    }
    PowersFormDomain(w, domain, m);
  }

  /** Python's index `-i` into a list of length n. */
  function NegativeIndex(i: nat, n: nat): (k: nat)
    requires i < n
    ensures k < n
  {
    if i == 0 then 0 else n - i
  }

  /** Reading output `-i` is evaluating at the i-th power of the inverse root. */
  lemma ReversedOutput<G(!new)>(g: Group<G>, w: int, setup: seq<G>, domain: seq<int>, i: nat)
    requires Lawful(g) && IsPowerOfTwo(|setup|) && |setup| == |domain| && i < |setup|
    requires HalfTurn(w, |setup|, g.order) && IsPowersOf(w, domain, g.order)
    ensures Values(g, setup, domain)[NegativeIndex(i, |setup|)]
         == Values(g, setup, Powers(Pow(w, |setup| - 1), 1, |setup|))[i]
  {
    hide *;
    LawfulOrder(g);
    var n, k := |setup|, NegativeIndex(i, |setup|);
    PowersAt(w, domain, k, g.order);
    InverseRootPower(w, n, i, g.order);
    CongTrans(domain[k], Pow(w, k), Pow(Pow(w, n - 1), i), g.order);
    AtCong(g, setup, domain[k], Pow(Pow(w, n - 1), i));
    ValuesAt(g, setup, domain, k);
    ValuesAtPowers(g, setup, Pow(w, n - 1), n, i);
  }

  lemma ValuesAtPowers<G>(g: Group<G>, v: seq<G>, x: int, n: nat, i: nat)
    requires i < n
    ensures Values(g, v, Powers(x, 1, n))[i] == At(g, v, Pow(x, i))
  {
    ValuesAt(g, v, Powers(x, 1, n), i);
  }

  lemma WrapAround(n: nat, i: nat)
    ensures (n - 1) * i == (n - i) + n * (i - 1)
  {
    MinusOneTimes(n, i);
    MinusOneTimes(i, n);
  }

  lemma InverseRootPower(w: int, n: nat, i: nat, m: nat)
    requires m > 0 && IsPowerOfTwo(n) && HalfTurn(w, n, m) && i < n
    ensures Cong(Pow(w, NegativeIndex(i, n)), Pow(Pow(w, n - 1), i), m)
  {
    if i == 0 {
      CongRefl(1, m);
    } else {
      hide Pow, Cong, HalfTurn, IsPowerOfTwo;
      PowPow(w, n - 1, i);
      WrapAround(n, i);
      PowAdd(w, n - i, n * (i - 1));
      FullTurn(w, n, i - 1, m);
      CongSym(Pow(w, n * (i - 1)), 1, m);
      CongRefl(Pow(w, n - i), m);
      CongMul(Pow(w, n - i), Pow(w, n - i), 1, Pow(w, n * (i - 1)), m);
    }
  }

  /** Horner's rule from the highest coefficient down, as `eval_poly_in_coeff_form` runs it in the field. */
  method EvalPolyInCoeffForm(coeffs: seq<int>, x: int, m: nat) returns (total: int)
    requires m > 0
    ensures total == PolyEval(coeffs, x) % m
  {
    total := 0;
    assert coeffs[|coeffs|..] == [];
    for i := |coeffs| downto 0
      invariant total == PolyEval(coeffs[i..], x) % m
    {
      var v := PolyEval(coeffs[i + 1..], x);
      assert coeffs[i..][1..] == coeffs[i + 1..];
      CongMod(v, m);
      CongRefl(x, m);
      CongMul(total, v, x, x, m);
      CongRefl(coeffs[i], m);
      CongAdd(total * x, v * x, coeffs[i], coeffs[i], m);
      CongModEqual(total * x + coeffs[i], v * x + coeffs[i], m);
      total := (total * x + coeffs[i]) % m;
    }
    assert coeffs[0..] == coeffs;
  }

  /** The purpose of the setup: committing to the evaluations of any polynomial of degree below the
      length, over the roots of unity, with the Lagrange points gives the generator times its value
      at the secret; and so does committing to its coefficients with the powers of the secret. */
  lemma CommitmentsAgree<G(!new)>(
      g: Group<G>, m: nat, generator: G, secret: int, setup: seq<G>, lagrange: seq<G>, c: seq<int>, evals: seq<int>)
    requires PointGroup(g, m) && IsSetup(g, generator, secret, setup)
    requires ComputeRootOfUnity(|setup|, m).Some?
    requires IsInverseDft(g, ComputeRootOfUnity(|setup|, m).value, setup, lagrange)
    requires |c| <= |setup| == |evals|
    requires forall i :: 0 <= i < |evals| ==>
               evals[i] == PolyEval(c, Pow(ComputeRootOfUnity(|setup|, m).value, i)) % m
    ensures Combine(g, evals, lagrange) == g.mul(generator, PolyEval(c, secret))
    ensures Combine(g, c, setup[..|c|]) == g.mul(generator, PolyEval(c, secret))
  {
    var w := ComputeRootOfUnity(|setup|, m).value;
    forall i | 0 <= i < |evals| ensures Cong(evals[i], PolyEval(c, Pow(w, i)), m) {
      CongMod(PolyEval(c, Pow(w, i)), m);
    }
    LagrangeBasis(g, w, setup, lagrange, c, evals);
    forall i | 0 <= i < |c| ensures setup[..|c|][i] == g.mul(generator, Powers(secret, 1, |c|)[i]) {
      SetupPoint(g, generator, secret, setup, i);
    }
    CombinePowersOfSecret(g, generator, secret, 1, setup[..|c|], c);
  }
}
