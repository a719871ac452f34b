/** The radix-2 transform over group elements (`kzg.py`), against its defining sum. */
module Fft {
  import opened Modular
  import opened Group

  /** The slice `v[::2]`. */
  function Evens<G>(v: seq<G>): (e: seq<G>)
    ensures |e| == (|v| + 1) / 2 && forall i :: 0 <= i < |e| ==> e[i] == v[2 * i]
  {
    if v == [] then [] else [v[0]] + Odds(v[1..])
  }

  /** The slice `v[1::2]`. */
  function Odds<G>(v: seq<G>): (o: seq<G>)
    ensures |o| == |v| / 2 && forall i :: 0 <= i < |o| ==> o[i] == v[2 * i + 1]
  {
    if v == [] then [] else Evens(v[1..])
  }

  /** The linear combination sum of `coeffs[i] * points[i]`. */
  function Combine<G>(g: Group<G>, coeffs: seq<int>, points: seq<G>): G
    requires |coeffs| == |points|
  {
    if points == [] then g.zero else g.add(g.mul(points[0], coeffs[0]), Combine(g, coeffs[1..], points[1..]))
  }

  /** The scalars `first, first * x, first * x^2, ...`. */
  function Powers(x: int, first: int, n: nat): (p: seq<int>)
    ensures |p| == n
  {
    seq(n, i requires 0 <= i < n => first * Pow(x, i))
  }

  lemma PowersTail(x: int, first: int, n: nat)
    requires n > 0
    ensures Powers(x, first, n)[0] == first && Powers(x, first, n)[1..] == Powers(x, first * x, n - 1)
  {
    forall i: nat | i < n - 1 ensures Powers(x, first, n)[1..][i] == Powers(x, first * x, n - 1)[i] {
      assert Pow(x, i + 1) == x * Pow(x, i);
      assert first * (x * Pow(x, i)) == first * x * Pow(x, i);
    }
  }

  /** Output `k` of the discrete Fourier transform with root `w`: the sum over j of `w^(j*k) * vals[j]`. */
  function Dft<G>(g: Group<G>, w: int, vals: seq<G>, k: nat): G {
    Combine(g, Powers(Pow(w, k), 1, |vals|), vals)
  }

  /** The value at `x` of the polynomial whose coefficients are group elements, by Horner's rule. */
  function At<G>(g: Group<G>, v: seq<G>, x: int): G {
    if v == [] then g.zero else g.add(v[0], g.mul(At(g, v[1..], x), x))
  }

  function Values<G>(g: Group<G>, v: seq<G>, points: seq<int>): (r: seq<G>)
    ensures |r| == |points|
  {
    seq(|points|, k requires 0 <= k < |points| => At(g, v, points[k]))
  }

  lemma ValuesAt<G>(g: Group<G>, v: seq<G>, points: seq<int>, k: nat)
    requires k < |points|
    ensures Values(g, v, points)[k] == At(g, v, points[k])
  {
  }

  lemma {:induction false} AtIsCombine<G(!new)>(g: Group<G>, v: seq<G>, x: int, first: int)
    requires Lawful(g)
    ensures g.mul(At(g, v, x), first) == Combine(g, Powers(x, first, |v|), v)
  {
    if v == [] {
      MulZero(g, g.zero, first);
    } else {
      AtIsCombine(g, v[1..], x, first * x);
      PowersTail(x, first, |v|);
      MulAdd(g, v[0], g.mul(At(g, v[1..], x), x), first);
      MulMul(g, At(g, v[1..], x), x, first);
      assert x * first == first * x;
    }
  }

  lemma AtIsDft<G(!new)>(g: Group<G>, w: int, vals: seq<G>, k: nat)
    requires Lawful(g)
    ensures At(g, vals, Pow(w, k)) == Dft(g, w, vals, k)
  {
    AtIsCombine(g, vals, Pow(w, k), 1);
    MulOne(g, At(g, vals, Pow(w, k)));
  }

  lemma {:induction false} AtCong<G(!new)>(g: Group<G>, v: seq<G>, x: int, y: int)
    requires Lawful(g) && Cong(x, y, g.order)
    ensures At(g, v, x) == At(g, v, y)
  {
    if v != [] {
      AtCong(g, v[1..], x, y);
      MulCong(g, At(g, v[1..], x), x, y);
    }
  }

  /** The butterfly: a polynomial is its even part at `x^2` plus `x` times its odd part at `x^2`. */
  lemma {:induction false} Butterfly<G(!new)>(g: Group<G>, v: seq<G>, x: int)
    requires Lawful(g)
    ensures At(g, v, x) == g.add(At(g, Evens(v), x * x), g.mul(At(g, Odds(v), x * x), x))
  {
    if v == [] {
      MulZero(g, g.zero, x);
      AddZero(g, g.zero);
    } else {
      // One step of Horner swaps the roles of the two halves.
      var t := v[1..];
      Butterfly(g, t, x);
      assert Evens(v)[1..] == Odds(t) && Odds(v) == Evens(t);
      var e, o := At(g, Evens(t), x * x), At(g, Odds(t), x * x);
      calc {
        At(g, v, x);
        g.add(v[0], g.mul(g.add(e, g.mul(o, x)), x));
        { MulAdd(g, e, g.mul(o, x), x); MulMul(g, o, x, x); AddComm(g, g.mul(e, x), g.mul(o, x * x)); }
        g.add(v[0], g.add(g.mul(o, x * x), g.mul(e, x)));
        { AddAssoc(g, v[0], g.mul(o, x * x), g.mul(e, x)); }
        g.add(At(g, Evens(v), x * x), g.mul(At(g, Odds(v), x * x), x));
      }
    }
  }

  ghost predicate Halves(domain: seq<int>, i: nat, m: nat)
    requires m > 0 && i < |domain| / 2
  {
    && Cong(domain[|domain| / 2 + i], -domain[i], m)
    && Cong(domain[i] * domain[i], Evens(domain)[i], m)
  }

  /** A domain that the transform can halve: the points of its upper half are the negatives of those of
      its lower half, and the points at even positions are the squares, themselves such a domain. */
  ghost predicate RootDomain(domain: seq<int>, m: nat)
    requires m > 0
    decreases |domain|
  {
    && |domain| > 0
    && (|domain| > 1 ==>
          && |domain| % 2 == 0
          && (forall i :: 0 <= i < |domain| / 2 ==> Halves(domain, i, m))
          && RootDomain(Evens(domain), m))
  }

  /** What one round of the inner loop writes at positions `i` and `half + i`. */
  lemma ButterflyOutputs<G(!new)>(g: Group<G>, vals: seq<G>, x: int, opposite: int, square: int)
    requires Lawful(g) && Cong(opposite, -x, g.order) && Cong(x * x, square, g.order)
    ensures At(g, vals, x) == g.add(At(g, Evens(vals), square), g.mul(At(g, Odds(vals), square), x))
    ensures At(g, vals, opposite) == g.add(At(g, Evens(vals), square), g.neg(g.mul(At(g, Odds(vals), square), x)))
  {
    AtCong(g, Evens(vals), x * x, square);
    AtCong(g, Odds(vals), x * x, square);
    Butterfly(g, vals, x);
    AtCong(g, vals, opposite, -x);
    Butterfly(g, vals, -x);
    assert -x * -x == x * x;
    MulNeg(g, At(g, Odds(vals), square), x);
  }

  lemma RootDomainLength(domain: seq<int>, m: nat)
    requires m > 0 && RootDomain(domain, m)
    ensures |domain| == 1 || (|domain| > 1 && |domain| % 2 == 0 && RootDomain(Evens(domain), m))
  {
  }

  lemma ConstantValue<G(!new)>(g: Group<G>, vals: seq<G>, domain: seq<int>)
    requires Lawful(g) && |vals| == |domain| == 1
    ensures Values(g, vals, domain) == vals
  {
    MulZero(g, g.zero, domain[0]);
    AddZero(g, vals[0]);
    assert vals[1..] == [] && At(g, vals, domain[0]) == vals[0];
  }

  lemma DomainHalves(domain: seq<int>, i: nat, m: nat)
    requires m > 0 && RootDomain(domain, m) && i < |domain| / 2
    ensures Cong(domain[|domain| / 2 + i], -domain[i], m) && Cong(domain[i] * domain[i], Evens(domain)[i], m)
  {
    assert Halves(domain, i, m);
  }

  /** One round of the inner loop, in terms of the two half-size results. */
  lemma Round<G(!new)>(g: Group<G>, vals: seq<G>, domain: seq<int>, left: seq<G>, right: seq<G>, i: nat)
    requires Lawful(g) && |domain| == |vals| && RootDomain(domain, g.order) && i < |vals| / 2
    requires left == Values(g, Evens(vals), Evens(domain)) && right == Values(g, Odds(vals), Evens(domain))
    ensures Values(g, vals, domain)[i] == g.add(left[i], g.mul(right[i], domain[i]))
    ensures Values(g, vals, domain)[|vals| / 2 + i] == g.add(left[i], g.neg(g.mul(right[i], domain[i])))
  {
    hide *;
    LawfulOrder(g);
    var half := |domain| / 2;
    DomainHalves(domain, i, g.order);
    ButterflyOutputs(g, vals, domain[i], domain[half + i], Evens(domain)[i]);
    ValuesAt(g, Evens(vals), Evens(domain), i);
    ValuesAt(g, Odds(vals), Evens(domain), i);
    ValuesAt(g, vals, domain, i);
    ValuesAt(g, vals, domain, half + i);
  }

  /** The recursive transform: two half-size calls on the strided slices, then one loop of butterflies.
      Output `k` is the value at `domain[k]` of the polynomial with coefficients `vals`. */
  method Transform<G(!new)>(g: Group<G>, vals: seq<G>, domain: seq<int>) returns (out: seq<G>)
    requires Lawful(g) && |domain| == |vals| && RootDomain(domain, g.order)
    ensures out == Values(g, vals, domain)
    decreases |vals|
  {
    hide RootDomain, Cong, At, Evens, Odds, Values;
    RootDomainLength(domain, g.order);
    if |vals| == 1 {
      ConstantValue(g, vals, domain);
      return vals;
    }
    var left := Transform(g, Evens(vals), Evens(domain));
    var right := Transform(g, Odds(vals), Evens(domain));
    var half := |left|;
    out := seq(|vals|, _ => g.zero);
    ghost var values := Values(g, vals, domain);
    for i := 0 to half
      invariant |out| == |vals|
      invariant forall k :: 0 <= k < i ==> out[k] == values[k]
      invariant forall k :: half <= k < half + i ==> out[k] == values[k]
    {
      Round(g, vals, domain, left, right, i);
      var yTimesRoot := g.mul(right[i], domain[i]);
      out := out[i := g.add(left[i], yTimesRoot)];
      out := out[half + i := g.add(left[i], g.neg(yTimesRoot))];
    }
  }

  /** `w^(n/2) = -1`, for every n > 1. */
  ghost predicate HalfTurn(w: int, n: nat, m: nat)
    requires m > 0
  {
    n > 1 ==> Cong(Pow(w, n / 2), -1, m)
  }

  ghost predicate IsPowersOf(w: int, domain: seq<int>, m: nat)
    requires m > 0
  {
    forall i :: 0 <= i < |domain| ==> Cong(domain[i], Pow(w, i), m)
  }

  lemma PowersAt(w: int, domain: seq<int>, k: nat, m: nat)
    requires m > 0 && IsPowersOf(w, domain, m) && k < |domain|
    ensures Cong(domain[k], Pow(w, k), m)
  {
  }

  lemma OppositePower(w: int, n: nat, i: nat, m: nat)
    requires m > 0 && n > 1 && HalfTurn(w, n, m)
    ensures Cong(Pow(w, n / 2 + i), -Pow(w, i), m)
  {
    PowAdd(w, n / 2, i);
    CongRefl(Pow(w, i), m);
    CongMul(Pow(w, n / 2), -1, Pow(w, i), Pow(w, i), m);
  }

  /** The powers of a root that makes a half turn after n/2 steps form a domain. */
  lemma {:induction false} PowersFormDomain(w: int, domain: seq<int>, m: nat)
    requires m > 0 && IsPowerOfTwo(|domain|) && HalfTurn(w, |domain|, m) && IsPowersOf(w, domain, m)
    ensures RootDomain(domain, m)
    decreases |domain|
  {
    if |domain| > 1 {
      var half := |domain| / 2;
      forall i | 0 <= i < half ensures Halves(domain, i, m) && Cong(Evens(domain)[i], Pow(w * w, i), m) {
        OppositePower(w, |domain|, i, m);
        CongTrans(domain[half + i], Pow(w, half + i), -Pow(w, i), m);
        NegCong(domain[i], Pow(w, i), m);
        CongTrans(domain[half + i], -Pow(w, i), -domain[i], m);
        CongMul(domain[i], Pow(w, i), domain[i], Pow(w, i), m);
        PowMulBase(w, w, i);
        PowSquare(w, i);
        CongSym(domain[2 * i], Pow(w, 2 * i), m);
        CongTrans(domain[i] * domain[i], Pow(w, 2 * i), domain[2 * i], m);
      }
      HalfTurnSquare(w, |domain|, m);
      PowersFormDomain(w * w, Evens(domain), m);
    }
  }

  lemma NegCong(a: int, b: int, m: nat)
    requires m > 0 && Cong(a, b, m)
    ensures Cong(-b, -a, m)
  {
    CongSym(a, b, m);
    CongRefl(-1, m);
    CongMul(b, a, -1, -1, m);
  }

  lemma HalfTurnSquare(w: int, n: nat, m: nat)
    requires m > 0 && n > 1 && IsPowerOfTwo(n) && HalfTurn(w, n, m)
    ensures HalfTurn(w * w, n / 2, m)
  {
    if n / 2 > 1 {
      assert IsPowerOfTwo(n / 2) && n / 2 % 2 == 0;
      PowSquare(w, n / 2 / 2);
      hide Pow, Cong;
      assert 2 * (n / 2 / 2) == n / 2;
    }
  }

  /** Over the powers of `w` the transform may be called, and its outputs are the discrete Fourier transform of
      every vector. */
  lemma EvaluationIsDft<G(!new)>(g: Group<G>, w: int, vals: seq<G>, domain: seq<int>)
    requires Lawful(g) && IsPowerOfTwo(|domain|) && |vals| == |domain|
    requires HalfTurn(w, |domain|, g.order) && IsPowersOf(w, domain, g.order)
    ensures RootDomain(domain, g.order)
    ensures forall k :: 0 <= k < |domain| ==> Values(g, vals, domain)[k] == Dft(g, w, vals, k)
  {
    hide RootDomain, At, Dft, Cong, Pow;
    PowersFormDomain(w, domain, g.order);
    forall k | 0 <= k < |domain| ensures At(g, vals, domain[k]) == Dft(g, w, vals, k) {
      AtCong(g, vals, domain[k], Pow(w, k));
      AtIsDft(g, w, vals, k);
    }
  }
}
