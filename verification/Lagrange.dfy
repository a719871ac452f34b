/** Why the inverse transform of the powers of the secret is the Lagrange basis (`kzg.py`, `get_lagrange`). */
module Lagrange {
  import opened Modular
  import opened Group
  import opened Fft

  /** The sum of the geometric progression `first, first * y, ...` of n terms. */
  function Geometric(y: int, first: int, n: nat): int
    decreases n
  {
    if n == 0 then 0 else first + Geometric(y, first * y, n - 1)
  }

  lemma {:induction false} GeometricScale(y: int, first: int, k: int, n: nat)
    ensures Geometric(y, first * k, n) == Geometric(y, first, n) * k
    decreases n
  {
    if n > 0 {
      GeometricScale(y, first * y, k, n - 1);
      assert first * k * y == first * y * k;
      var rest := Geometric(y, first * y, n - 1);
      assert first * k + rest * k == (first + rest) * k;
    }
  }

  lemma {:induction false} GeometricSplit(y: int, first: int, a: nat, b: nat)
    ensures Geometric(y, first, a + b) == Geometric(y, first, a) + Geometric(y, first * Pow(y, a), b)
    decreases a
  {
    if a > 0 {
      GeometricSplit(y, first * y, a - 1, b);
      MulAssoc(first, y, Pow(y, a - 1));
    }
  }

  lemma MulAssoc(a: int, b: int, c: int)
    ensures a * b * c == a * (b * c)
  {
  }

  lemma {:induction false} GeometricOnes(y: int, first: int, n: nat, m: nat)
    requires m > 0 && Cong(y, 1, m) && Cong(first, 1, m)
    ensures Cong(Geometric(y, first, n), n, m)
    decreases n
  {
    if n == 0 {
      CongRefl(0, m);
    } else {
      CongMul(first, 1, y, 1, m);
      GeometricOnes(y, first * y, n - 1, m);
      CongAdd(first, 1, Geometric(y, first * y, n - 1), n - 1, m);
    }
  }

  /** A progression of even length whose ratio is a half turn cancels in pairs. */
  lemma GeometricCancels(y: int, n: nat, m: nat)
    requires m > 0 && n % 2 == 0 && Cong(Pow(y, n / 2), -1, m)
    ensures Cong(Geometric(y, 1, n), 0, m)
  {
    var h := n / 2;
    var g := Geometric(y, 1, h);
    GeometricSplit(y, 1, h, h);
    GeometricScale(y, 1, Pow(y, h), h);
    CongRefl(g, m);
    CongMul(g, g, Pow(y, h), -1, m);
    CongAdd(g, g, g * Pow(y, h), g * -1, m);
  }

  /** The two halves of a progression agree when the ratio completes a full turn after half of them. */
  lemma GeometricRepeats(y: int, n: nat, m: nat)
    requires m > 0 && n % 2 == 0 && Cong(Geometric(y, 1, n / 2), 0, m)
    ensures Cong(Geometric(y, 1, n), 0, m)
  {
    var h := n / 2;
    var g := Geometric(y, 1, h);
    GeometricSplit(y, 1, h, h);
    GeometricScale(y, 1, Pow(y, h), h);
    CongRefl(Pow(y, h), m);
    CongMul(g, 0, Pow(y, h), Pow(y, h), m);
    CongAdd(g, 0, g * Pow(y, h), 0, m);
  }

  lemma {:induction false} PowMinusOne(k: nat)
    ensures Pow(-1, k) == if k % 2 == 0 then 1 else -1
  {
    if k > 0 { PowMinusOne(k - 1); }
  }

  /** Orthogonality of the roots of unity: the powers of `w^k` sum to n when n divides k, and to zero otherwise. */
  lemma {:induction false} Orthogonality(w: int, n: nat, k: nat, m: nat)
    requires m > 0 && IsPowerOfTwo(n) && HalfTurn(w, n, m)
    ensures Cong(Geometric(Pow(w, k), 1, n), if k % n == 0 then n else 0, m)
    decreases n
  {
    hide Geometric, Pow, Cong;
    CongRefl(1, m);
    if k % n == 0 {
      if n == 1 {
        GeometricSingle(Pow(w, k));
      } else {
        FullTurn(w, n, k / n, m);
        assert k == n * (k / n);
        GeometricOnes(Pow(w, k), 1, n, m);
      }
    } else if k % 2 == 1 {
      OddHalfTurn(w, n, k, m);
      GeometricCancels(Pow(w, k), n, m);
    } else {
      PowSquare(w, k / 2);
      HalfTurnSquare(w, n, m);
      EvenRemainder(k, n);
      Orthogonality(w * w, n / 2, k / 2, m);
      GeometricRepeats(Pow(w, k), n, m);
    }
  }

  lemma GeometricSingle(y: int)
    ensures Geometric(y, 1, 1) == 1
  {
  }

  lemma OddHalfTurn(w: int, n: nat, k: nat, m: nat)
    requires m > 0 && n > 1 && k % 2 == 1 && HalfTurn(w, n, m)
    ensures Cong(Pow(Pow(w, k), n / 2), -1, m)
  {
    PowPow(w, n / 2, k);
    PowPow(w, k, n / 2);
    assert n / 2 * k == k * (n / 2);
    CongPow(Pow(w, n / 2), -1, k, m);
    PowMinusOne(k);
  }

  lemma EvenRemainder(k: nat, n: nat)
    requires n > 1 && n % 2 == 0 && k % 2 == 0 && k % n != 0
    ensures (k / 2) % (n / 2) != 0
  {
    if (k / 2) % (n / 2) == 0 {
      var q := (k / 2) / (n / 2);
      assert k / 2 == q * (n / 2);
      assert k == q * n;
      ModOfMultiple(q, n);
    }
  }

  lemma ModOfMultiple(q: nat, n: nat)
    requires n > 0
    ensures (q * n) % n == 0
  {
    CongBy(q * n, 0, n, q);
    CongModEqual(q * n, 0, n);
  }

  lemma FullTurn(w: int, n: nat, q: nat, m: nat)
    requires m > 0 && IsPowerOfTwo(n) && HalfTurn(w, n, m)
    ensures n > 1 ==> Cong(Pow(w, n * q), 1, m)
  {
    if n > 1 {
      PowAdd(w, n / 2, n / 2);
      CongMul(Pow(w, n / 2), -1, Pow(w, n / 2), -1, m);
      PowPow(w, n, q);
      CongPow(Pow(w, n), 1, q, m);
      PowOne(q);
    }
  }

  // ----- Linear combinations -----

  lemma SumsTail<G(!new)>(g: Group<G>, u: int, fu: int, head: G, points: seq<G>, rest: seq<G>)
    requires |points| == |rest| > 0
    requires forall i :: 0 <= i < |rest| ==> points[i] == g.add(head, g.mul(rest[i], Powers(u, fu, |rest|)[i]))
    ensures forall i :: 0 <= i < |rest| - 1 ==>
      points[1..][i] == g.add(head, g.mul(rest[1..][i], Powers(u, fu * u, |rest| - 1)[i]))
  {
    hide Powers;
    var tail := Powers(u, fu * u, |rest| - 1);
    PowersTail(u, fu, |rest|);
    forall i | 0 <= i < |rest| - 1 ensures points[1..][i] == g.add(head, g.mul(rest[1..][i], tail[i])) {
      assert Powers(u, fu, |rest|)[1..][i] == Powers(u, fu, |rest|)[i + 1];
    }
  }

  /** Splits the constant coefficient off a combination of Horner values. */
  lemma {:induction false} CombineSplit<G(!new)>(
      g: Group<G>, n: nat, y: int, fy: int, u: int, fu: int, head: G, points: seq<G>, rest: seq<G>)
    requires Lawful(g) && |points| == |rest| == n
    requires forall i :: 0 <= i < n ==> points[i] == g.add(head, g.mul(rest[i], Powers(u, fu, n)[i]))
    ensures Combine(g, Powers(y, fy, n), points)
         == g.add(g.mul(head, Geometric(y, fy, n)), Combine(g, Powers(y * u, fy * fu, n), rest))
    decreases n
  {
    hide Pow, Powers, Lawful, Cong;
    if n == 0 {
      MulZero(g, head, 0);
      AddZero(g, g.zero);
    } else {
      PowersTail(y, fy, n);
      PowersTail(u, fu, n);
      PowersTail(y * u, fy * fu, n);
      MulSwap(fy, fu, y, u);
      SumsTail(g, u, fu, head, points, rest);
      CombineSplit(g, n - 1, y, fy * y, u, fu * u, head, points[1..], rest[1..]);
      SplitHead(g, head, rest[0], fu, fy, Geometric(y, fy * y, n - 1),
                Combine(g, Powers(y * u, (fy * y) * (fu * u), n - 1), rest[1..]));
    }
  }

  lemma SplitHead<G(!new)>(g: Group<G>, head: G, r: G, fu: int, fy: int, k: int, tail: G)
    requires Lawful(g)
    ensures g.add(g.mul(g.add(head, g.mul(r, fu)), fy), g.add(g.mul(head, k), tail))
         == g.add(g.mul(head, fy + k), g.add(g.mul(r, fy * fu), tail))
  {
    MulAdd(g, head, g.mul(r, fu), fy);
    MulMul(g, r, fu, fy);
    assert fu * fy == fy * fu;
    AddSwap(g, g.mul(head, fy), g.mul(r, fy * fu), g.mul(head, k), tail);
    MulSum(g, head, fy, k);
  }

  lemma {:induction false} CombineZeros<G(!new)>(g: Group<G>, coeffs: seq<int>, points: seq<G>)
    requires Lawful(g) && |coeffs| == |points|
    requires forall i :: 0 <= i < |coeffs| ==> Cong(coeffs[i], 0, g.order)
    ensures Combine(g, coeffs, points) == g.zero
  {
    if points != [] {
      CombineZeros(g, coeffs[1..], points[1..]);
      MulCong(g, points[0], coeffs[0], 0);
      MulZero(g, points[0], 0);
      AddZero(g, g.zero);
    }
  }

  /** Only one coefficient differs from zero. */
  lemma {:induction false} CombineDelta<G(!new)>(g: Group<G>, coeffs: seq<int>, points: seq<G>, j: nat, k: int)
    requires Lawful(g) && |coeffs| == |points| && j < |coeffs|
    requires forall i :: 0 <= i < |coeffs| ==> Cong(coeffs[i], if i == j then k else 0, g.order)
    ensures Combine(g, coeffs, points) == g.mul(points[j], k)
  {
    MulCong(g, points[0], coeffs[0], if 0 == j then k else 0);
    if j == 0 {
      CombineZeros(g, coeffs[1..], points[1..]);
      AddZero(g, g.mul(points[0], k));
    } else {
      MulZero(g, points[0], 0);
      CombineDelta(g, coeffs[1..], points[1..], j - 1, k);
      AddZero(g, g.mul(points[j], k));
    }
  }

  lemma {:induction false} CombineScaled<G(!new)>(g: Group<G>, coeffs: seq<int>, points: seq<G>, scaled: seq<G>, k: int)
    requires Lawful(g) && |coeffs| == |points| == |scaled|
    requires forall i :: 0 <= i < |points| ==> scaled[i] == g.mul(points[i], k)
    ensures Combine(g, coeffs, scaled) == g.mul(Combine(g, coeffs, points), k)
  {
    if points == [] {
      MulZero(g, g.zero, k);
    } else {
      CombineScaled(g, coeffs[1..], points[1..], scaled[1..], k);
      MulAdd(g, g.mul(points[0], coeffs[0]), Combine(g, coeffs[1..], points[1..]), k);
      MulMul(g, points[0], k, coeffs[0]);
      MulMul(g, points[0], coeffs[0], k);
      assert k * coeffs[0] == coeffs[0] * k;
    }
  }

  /** A combination whose coefficients are `first * a + b`, pointwise and up to the group order. */
  lemma {:induction false} CombineLinear<G(!new)>(
      g: Group<G>, sum: seq<int>, first: int, a: seq<int>, b: seq<int>, points: seq<G>)
    requires Lawful(g) && |sum| == |a| == |b| == |points|
    requires forall i :: 0 <= i < |points| ==> Cong(sum[i], first * a[i] + b[i], g.order)
    ensures Combine(g, sum, points) == g.add(g.mul(Combine(g, a, points), first), Combine(g, b, points))
  {
    if points == [] {
      MulZero(g, g.zero, first);
      AddZero(g, g.zero);
    } else {
      CombineLinear(g, sum[1..], first, a[1..], b[1..], points[1..]);
      var p, restA, restB := points[0], Combine(g, a[1..], points[1..]), Combine(g, b[1..], points[1..]);
      MulCong(g, p, sum[0], first * a[0] + b[0]);
      MulSum(g, p, first * a[0], b[0]);
      MulMul(g, p, a[0], first);
      assert a[0] * first == first * a[0];
      MulAdd(g, g.mul(p, a[0]), restA, first);
      AddSwap(g, g.mul(p, first * a[0]), g.mul(p, b[0]), g.mul(restA, first), restB);
    }
  }

  // ----- The inverse transform -----

  /** Evaluating at the powers of `u` and recombining with the powers of `y` collects, for every
      coefficient `v[k]`, one geometric progression of ratio `y * u^k`. */
  function Progressions(y: int, u: int, terms: nat, count: nat): (p: seq<int>)
    ensures |p| == count
    decreases count
  {
    if count == 0 then [] else [Geometric(y, 1, terms)] + Progressions(y * u, u, terms, count - 1)
  }

  lemma {:induction false} ProgressionsAt(y: int, u: int, terms: nat, count: nat, k: nat)
    requires k < count
    ensures Progressions(y, u, terms, count)[k] == Geometric(y * Pow(u, k), 1, terms)
    decreases count
  {
    if k > 0 {
      ProgressionsAt(y * u, u, terms, count - 1, k - 1);
      MulAssoc(y, u, Pow(u, k - 1));
    }
  }

  lemma {:induction false} RecombineValues<G(!new)>(g: Group<G>, v: seq<G>, y: int, u: int, n: nat)
    requires Lawful(g)
    ensures Combine(g, Powers(y, 1, n), Values(g, v, Powers(u, 1, n))) == Combine(g, Progressions(y, u, n, |v|), v)
    decreases |v|
  {
    var points := Values(g, v, Powers(u, 1, n));
    if v == [] {
      CombineOfZeros(g, Powers(y, 1, n), points);
    } else {
      var rest := Values(g, v[1..], Powers(u, 1, n));
      CombineSplit(g, n, y, 1, u, 1, v[0], points, rest);
      RecombineValues(g, v[1..], y * u, u, n);
      assert Progressions(y, u, n, |v|)[1..] == Progressions(y * u, u, n, |v| - 1);
    }
  }

  lemma {:induction false} CombineOfZeros<G(!new)>(g: Group<G>, coeffs: seq<int>, points: seq<G>)
    requires Lawful(g) && |coeffs| == |points| && forall i :: 0 <= i < |points| ==> points[i] == g.zero
    ensures Combine(g, coeffs, points) == g.zero
  {
    if points != [] {
      CombineOfZeros(g, coeffs[1..], points[1..]);
      MulZero(g, g.zero, coeffs[0]);
      AddZero(g, g.zero);
    }
  }

  lemma ShiftedMultiple(n: nat, j: nat, k: nat)
    requires j < n && k < n
    ensures ((j + (n - 1) * k) % n == 0) == (j == k)
  {
    var r, q := if j >= k then j - k else j + n - k, if j >= k then k else k - 1;
    MinusOneTimes(n, k);
    MinusOneTimes(k, n);
    var whole := (n - 1) * k;
    CongBy(j + whole, r, n, q);
    hide Cong;
    CongModEqual(j + whole, r, n);
    CongMod(r, n);
    CongSmall(r % n, r, n);
  }

  lemma MinusOneTimes(a: int, b: int)
    ensures (a - 1) * b == a * b - b && a * b == b * a
  {
  }

  /** The progressions met when recombining at `w^j`: only the one for coefficient j does not vanish. */
  lemma ProgressionDelta(w: int, n: nat, j: nat, k: nat, m: nat)
    requires m > 0 && IsPowerOfTwo(n) && HalfTurn(w, n, m) && j < n && k < n
    ensures Cong(Progressions(Pow(w, j), Pow(w, n - 1), n, n)[k], if k == j then n else 0, m)
  {
    ProgressionsAt(Pow(w, j), Pow(w, n - 1), n, n, k);
    PowPow(w, n - 1, k);
    PowAdd(w, j, (n - 1) * k);
    Orthogonality(w, n, j + (n - 1) * k, m);
    ShiftedMultiple(n, j, k);
  }

  /** `lagrange[i]` is `inv` times the transform of the setup at the i-th power of the inverse root. */
  ghost predicate IsInverseTransform<G>(g: Group<G>, w: int, inv: int, setup: seq<G>, lagrange: seq<G>) {
    && |lagrange| == |setup| > 0
    && forall i :: 0 <= i < |setup| ==>
         lagrange[i] == g.mul(Values(g, setup, Powers(Pow(w, |setup| - 1), 1, |setup|))[i], inv)
  }

  /** The discrete Fourier transform of the Lagrange points gives back every point of the setup. */
  lemma TransformInverts<G(!new)>(g: Group<G>, w: int, inv: int, setup: seq<G>, lagrange: seq<G>, j: nat)
    requires Lawful(g) && IsPowerOfTwo(|setup|) && HalfTurn(w, |setup|, g.order)
    requires Cong(|setup| * inv, 1, g.order)
    requires IsInverseTransform(g, w, inv, setup, lagrange) && j < |setup|
    ensures Dft(g, w, lagrange, j) == setup[j]
  {
    var n, u, y := |setup|, Pow(w, |setup| - 1), Pow(w, j);
    var values := Values(g, setup, Powers(u, 1, n));
    CombineScaled(g, Powers(y, 1, n), values, lagrange, inv);
    RecombineValues(g, setup, y, u, n);
    forall k | 0 <= k < n ensures Cong(Progressions(y, u, n, n)[k], if k == j then n else 0, g.order) {
      ProgressionDelta(w, n, j, k, g.order);
    }
    CombineDelta(g, Progressions(y, u, n, n), setup, j, n);
    MulMul(g, setup[j], n, inv);
    MulCong(g, setup[j], n * inv, 1);
    MulOne(g, setup[j]);
  }

  // ----- Polynomials -----

  /** The value at x of the polynomial with coefficients c, lowest degree first. */
  function PolyEval(c: seq<int>, x: int): int {
    if c == [] then 0 else c[0] + x * PolyEval(c[1..], x)
  }

  ghost predicate IsInverseDft<G>(g: Group<G>, w: int, setup: seq<G>, lagrange: seq<G>) {
    |lagrange| == |setup| && forall j :: 0 <= j < |setup| ==> Dft(g, w, lagrange, j) == setup[j]
  }

  /** The evaluations of c at the powers of w, each times the a-th power of its point. */
  function Evaluations(w: int, c: seq<int>, a: nat, n: nat): (e: seq<int>)
    ensures |e| == n
  {
    seq(n, i requires 0 <= i < n => Pow(Pow(w, a), i) * PolyEval(c, Pow(w, i)))
  }

  lemma EvaluationsStep(w: int, c: seq<int>, a: nat, n: nat, m: nat)
    requires c != [] && m > 0
    ensures forall i :: 0 <= i < n ==>
              Cong(Evaluations(w, c, a, n)[i],
                   c[0] * Powers(Pow(w, a), 1, n)[i] + Evaluations(w, c[1..], a + 1, n)[i], m)
  {
    forall i | 0 <= i < n
      ensures Cong(Evaluations(w, c, a, n)[i],
                   c[0] * Powers(Pow(w, a), 1, n)[i] + Evaluations(w, c[1..], a + 1, n)[i], m)
    {
      PowMulBase(w, Pow(w, a), i);
      Horner(Pow(Pow(w, a), i), c[0], Pow(w, i), PolyEval(c[1..], Pow(w, i)));
      CongRefl(Evaluations(w, c, a, n)[i], m);
    }
  }

  lemma Horner(p: int, c0: int, x: int, v: int)
    ensures p * (c0 + x * v) == c0 * p + x * p * v
  {
    assert p * (x * v) == x * p * v;
  }

  lemma NoEvaluations(w: int, a: nat, n: nat, m: nat)
    requires m > 0
    ensures forall i :: 0 <= i < n ==> Cong(Evaluations(w, [], a, n)[i], 0, m)
  {
    forall i | 0 <= i < n ensures Cong(Evaluations(w, [], a, n)[i], 0, m) {
      CongRefl(0, m);
    }
  }

  lemma {:induction false} ShiftedEvaluations<G(!new)>(
      g: Group<G>, w: int, setup: seq<G>, lagrange: seq<G>, c: seq<int>, a: nat)
    requires Lawful(g) && IsInverseDft(g, w, setup, lagrange) && a + |c| <= |setup|
    ensures Combine(g, Evaluations(w, c, a, |setup|), lagrange) == Combine(g, c, setup[a..a + |c|])
    decreases |c|
  {
    hide Cong, Pow, Powers, Evaluations, PolyEval;
    LawfulOrder(g);
    var n := |setup|;
    if c == [] {
      NoEvaluations(w, a, n, g.order);
      CombineZeros(g, Evaluations(w, c, a, n), lagrange);
    } else {
      EvaluationsStep(w, c, a, n, g.order);
      CombineLinear(g, Evaluations(w, c, a, n), c[0], Powers(Pow(w, a), 1, n), Evaluations(w, c[1..], a + 1, n),
                    lagrange);
      assert Dft(g, w, lagrange, a) == setup[a];
      ShiftedEvaluations(g, w, setup, lagrange, c[1..], a + 1);
      assert setup[a..a + |c|][1..] == setup[a + 1..a + 1 + |c[1..]|];
    }
  }

  lemma {:induction false} CombineCong<G(!new)>(g: Group<G>, a: seq<int>, b: seq<int>, points: seq<G>)
    requires Lawful(g) && |a| == |b| == |points| && forall i :: 0 <= i < |a| ==> Cong(a[i], b[i], g.order)
    ensures Combine(g, a, points) == Combine(g, b, points)
  {
    if points != [] {
      MulCong(g, points[0], a[0], b[0]);
      CombineCong(g, a[1..], b[1..], points[1..]);
    }
  }

  /** Committing to the evaluations of c in the Lagrange basis, or to its coefficients in the monomial
      basis, gives the same point: for every polynomial of degree below the length of the setup. */
  lemma LagrangeBasis<G(!new)>(g: Group<G>, w: int, setup: seq<G>, lagrange: seq<G>, c: seq<int>, evals: seq<int>)
    requires Lawful(g) && IsInverseDft(g, w, setup, lagrange)
    requires |c| <= |setup| == |evals|
    requires forall i :: 0 <= i < |evals| ==> Cong(evals[i], PolyEval(c, Pow(w, i)), g.order)
    ensures Combine(g, evals, lagrange) == Combine(g, c, setup[..|c|])
  {
    hide Combine;
    var shifted := Evaluations(w, c, 0, |setup|);
    forall i | 0 <= i < |evals| ensures Cong(evals[i], shifted[i], g.order) {
      PowOne(i);
    }
    CombineCong(g, evals, shifted, lagrange);
    ShiftedEvaluations(g, w, setup, lagrange, c, 0);
    assert setup[0..0 + |c|] == setup[..|c|];
  }

  /** A combination of the powers of the secret is the polynomial at the secret, times the generator. */
  lemma {:induction false} CombinePowersOfSecret<G(!new)>(
      g: Group<G>, generator: G, secret: int, first: int, points: seq<G>, c: seq<int>)
    requires Lawful(g) && |points| == |c|
    requires forall i :: 0 <= i < |points| ==> points[i] == g.mul(generator, Powers(secret, first, |c|)[i])
    ensures Combine(g, c, points) == g.mul(generator, first * PolyEval(c, secret))
    decreases |c|
  {
    if c == [] {
      MulZero(g, generator, 0);
    } else {
      PowersTail(secret, first, |c|);
      forall i | 0 <= i < |c| - 1
        ensures points[1..][i] == g.mul(generator, Powers(secret, first * secret, |c| - 1)[i])
      {
        assert Powers(secret, first, |c|)[1..][i] == Powers(secret, first, |c|)[i + 1];
      }
      CombinePowersOfSecret(g, generator, secret, first * secret, points[1..], c[1..]);
      var v := PolyEval(c[1..], secret);
      MulMul(g, generator, first, c[0]);
      MulSum(g, generator, first * c[0], first * secret * v);
      assert first * c[0] + first * secret * v == first * (c[0] + secret * v);
    }
  }
}
