/** The arithmetic behind conjunctive queries: computeBlindedXind divides xind by z in the
    exponent, and the server undoes the division inside the group. */
module Oxt {
  import opened Bytes

  // ---------- congruences and the modular inverse ----------

  /** `a` and `b` differ by `k` times the modulus. */
  ghost predicate Differ(a: int, b: int, n: int, k: int) {
    a == b + k * n
  }

  ghost predicate Congruent(a: int, b: int, n: int) {
    exists k: int :: Differ(a, b, n, k)
  }

  lemma CongruentFrom(a: int, b: int, n: int, k: int)
    requires a == b + k * n
    ensures Congruent(a, b, n)
  {
    assert Differ(a, b, n, k);
  }

  lemma CongruentSymm(a: int, b: int, n: int)
    requires Congruent(a, b, n)
    ensures Congruent(b, a, n)
  {
    var k :| Differ(a, b, n, k);
    assert Differ(b, a, n, -k);
  }

  lemma CongruentTrans(a: int, b: int, c: int, n: int)
    requires Congruent(a, b, n) && Congruent(b, c, n)
    ensures Congruent(a, c, n)
  {
    var k :| Differ(a, b, n, k);
    var j :| Differ(b, c, n, j);
    CongruentFrom(a, c, n, k + j);
  }

  lemma CongruentMul(a: int, b: int, m: int, n: int)
    requires Congruent(a, b, n)
    ensures Congruent(m * a, m * b, n)
  {
    var k :| Differ(a, b, n, k);
    assert m * a == m * b + m * (k * n) == m * b + (m * k) * n;
    CongruentFrom(m * a, m * b, n, m * k);
  }

  lemma CongruentMod(a: int, n: nat)
    requires n > 0
    ensures Congruent(a, a % n, n)
  {
    CongruentFrom(a, a % n, n, a / n);
  }

  lemma CongruentSmall(a: nat, b: nat, n: nat)
    requires a < n && b < n && Congruent(a, b, n)
    ensures a == b
  {
    var k :| Differ(a, b, n, k);
    if k != 0 {
      assert false by { LargeMultiple(k, n); }
    }
  }

  lemma LargeMultiple(k: int, n: nat)
    requires k != 0
    ensures k * n >= n || k * n <= -(n as int)
  {
    if k >= 1 {
      ProductNonNegative(k - 1, n);
    } else {
      ProductNonNegative(-k - 1, n);
    }
  }

  lemma ProductNonNegative(k: nat, n: nat)
    ensures k * n >= 0
  {
  }

  /** Extended Euclid: the greatest common divisor with its Bezout coefficients. */
  function ExtGcd(a: nat, b: nat): (r: (nat, int, int))
    ensures a * r.1 + b * r.2 == r.0
    ensures a + b > 0 ==> r.0 > 0
    decreases b
  {
    if b == 0 then (a, 1, 0)
    else
      var (g, x, y) := ExtGcd(b, a % b);
      assert a == (a / b) * b + a % b;
      assert a * y + b * (x - (a / b) * y) == b * x + (a - (a / b) * b) * y by {
        assert b * ((a / b) * y) == ((a / b) * b) * y;
      }
      (g, y, x - (a / b) * y)
  }

  /** The computed value divides both arguments, so with Bezout's identity it is the gcd. */
  lemma {:induction false} ExtGcdDivides(a: nat, b: nat)
    ensures Congruent(a, 0, ExtGcd(a, b).0) && Congruent(b, 0, ExtGcd(a, b).0)
    decreases b
  {
    if b == 0 {
      CongruentFrom(a, 0, a, 1);
      CongruentFrom(0, 0, a, 0);
    } else {
      var g := ExtGcd(a, b).0;
      ExtGcdDivides(b, a % b);
      assert a == (a / b) * b + a % b;
      Combination(b, a % b, g, a / b, 1);
    }
  }

  /** What divides two numbers divides every combination of them. */
  lemma Combination(a: int, b: int, g: int, p: int, q: int)
    requires Congruent(a, 0, g) && Congruent(b, 0, g)
    ensures Congruent(p * a + q * b, 0, g)
  {
    CongruentMul(a, 0, p, g);
    CongruentMul(b, 0, q, g);
    var k :| Differ(p * a, p * 0, g, k);
    var j :| Differ(q * b, q * 0, g, j);
    assert (k + j) * g == k * g + j * g;
    CongruentFrom(p * a + q * b, 0, g, k + j);
  }

  /** big.Int.ModInverse; None is the nil it returns for a number that has no inverse. */
  function ModInverse(z: nat, n: nat): (r: Option<nat>)
    requires n > 1
  {
    var (g, x, y) := ExtGcd(z, n);
    if g == 1 then Some(x % n) else None
  }

  /** An inverse comes back exactly when one exists. */
  lemma ModInverseCorrect(z: nat, n: nat)
    requires n > 1
    ensures ModInverse(z, n).Some? <==> exists i: nat :: Congruent(i * z, 1, n)
    ensures ModInverse(z, n).Some? ==>
              ModInverse(z, n).value < n && Congruent(ModInverse(z, n).value * z, 1, n)
  {
    var (g, x, y) := ExtGcd(z, n);
    if g == 1 {
      CongruentFrom(z * x, 1, n, -y);
      CongruentMod(x, n);
      CongruentSymm(x, x % n, n);
      CongruentMul(x % n, x, z, n);
      CongruentTrans(z * (x % n), z * x, 1, n);
      assert z * (x % n) == (x % n) * z;
    } else if exists i: nat :: Congruent(i * z, 1, n) {
      var i: nat :| Congruent(i * z, 1, n);
      NoInverse(z, n, i);
    }
  }

  lemma NoInverse(z: nat, n: nat, i: nat)
    requires n > 1 && Congruent(i * z, 1, n)
    ensures ExtGcd(z, n).0 == 1
  {
    var g := ExtGcd(z, n).0;
    ExtGcdDivides(z, n);
    var d :| Differ(i * z, 1, n, d);
    Combination(z, n, g, i, -d);
    var m :| Differ(i * z + (-d) * n, 0, g, m);
    UnitFactor(m, g);
  }

  lemma UnitFactor(m: int, g: nat)
    requires m * g == 1
    ensures g == 1
  {
    if g > 1 && m != 0 {
      assert false by { LargeMultiple(m, g); }
    }
  }

  /** computeBlindedXind over numbers: xind / z modulo `n`. None is the run that stops because z
      has no inverse. */
  function BlindedXind(z: nat, xind: nat, n: nat): (r: Option<nat>)
    requires n > 1
    ensures r.Some? ==> r.value < n
  {
    match ModInverse(z, n)
    case None => None
    case Some(inverse) => Some((xind * inverse) % n)
  }

  /** The stored y is the one residue with y*z = xind modulo `n`. */
  lemma BlindedXindCorrect(z: nat, xind: nat, n: nat, y: nat)
    requires n > 1 && ModInverse(z, n).Some? && y < n
    ensures BlindedXind(z, xind, n) == Some(y) <==> Congruent(y * z, xind, n)
  {
    var i := ModInverse(z, n).value;
    var y0 := BlindedXind(z, xind, n).value;
    ModInverseCorrect(z, n);
    BlindedXindSolves(z, xind, n, i);
    if Congruent(y * z, xind, n) {
      CongruentSymm(y0 * z, xind, n);
      CongruentTrans(y * z, xind, y0 * z, n);
      CancelUnit(z, n, i, y, y0);
      CongruentSmall(y, y0, n);
    }
  }

  lemma BlindedXindSolves(z: nat, xind: nat, n: nat, i: nat)
    requires n > 1 && Congruent(i * z, 1, n)
    ensures Congruent(((xind * i) % n) * z, xind, n)
  {
    var y := (xind * i) % n;
    CongruentMod(xind * i, n);
    CongruentSymm(xind * i, y, n);
    CongruentMul(y, xind * i, z, n);
    CongruentMul(i * z, 1, xind, n);
    Rotate(z, xind, i);
    CongruentTrans(z * y, z * (xind * i), xind, n);
    assert z * y == y * z;
  }

  lemma CancelUnit(z: nat, n: nat, i: nat, a: nat, b: nat)
    requires Congruent(i * z, 1, n) && Congruent(a * z, b * z, n)
    ensures Congruent(a, b, n)
  {
    CongruentMul(a * z, b * z, i, n);
    Rotate(i, a, z);
    Rotate(i, b, z);
    CongruentMul(z * i, 1, a, n);
    CongruentMul(z * i, 1, b, n);
    CongruentSymm(a * (z * i), a, n);
    CongruentTrans(a, a * (z * i), b * (z * i), n);
    CongruentTrans(a, b * (z * i), b, n);
  }

  lemma Rotate(a: int, b: int, c: int)
    ensures a * (b * c) == b * (c * a)
  {
  }

  // ---------- powers in the group ----------

  datatype Group<!G> = Group(op: (G, G) -> G, unit: G)

  ghost predicate Associates<G>(gr: Group<G>, a: G, b: G, c: G) {
    gr.op(gr.op(a, b), c) == gr.op(a, gr.op(b, c))
  }

  ghost predicate UnitFor<G>(gr: Group<G>, a: G) {
    gr.op(gr.unit, a) == a && gr.op(a, gr.unit) == a
  }

  ghost predicate Lawful<G(!new)>(gr: Group<G>) {
    && (forall a, b, c :: Associates(gr, a, b, c))
    && (forall a :: UnitFor(gr, a))
  }

  /** Scalar multiplication of a curve point, written multiplicatively. */
  function Pow<G>(gr: Group<G>, g: G, k: nat): G {
    if k == 0 then gr.unit else gr.op(g, Pow(gr, g, k - 1))
  }

  ghost predicate HasOrder<G>(gr: Group<G>, g: G, order: nat) {
    && order > 0
    && Pow(gr, g, order) == gr.unit
    && forall k :: 0 < k < order ==> Pow(gr, g, k) != gr.unit
  }

  lemma {:induction false} PowAdd<G(!new)>(gr: Group<G>, g: G, a: nat, b: nat)
    requires Lawful(gr)
    ensures Pow(gr, g, a + b) == gr.op(Pow(gr, g, a), Pow(gr, g, b))
  {
    if a == 0 {
      assert UnitFor(gr, Pow(gr, g, b));
    } else {
      PowAdd(gr, g, a - 1, b);
      assert Associates(gr, g, Pow(gr, g, a - 1), Pow(gr, g, b));
    }
  }

  lemma {:induction false} PowMul<G(!new)>(gr: Group<G>, g: G, a: nat, b: nat)
    requires Lawful(gr)
    ensures Pow(gr, Pow(gr, g, a), b) == Pow(gr, g, a * b)
  {
    if b > 0 {
      PowMul(gr, g, a, b - 1);
      PowAdd(gr, g, a, a * (b - 1));
      assert a * b == a + a * (b - 1);
    }
  }

  lemma {:induction false} PowUnit<G(!new)>(gr: Group<G>, k: nat)
    requires Lawful(gr)
    ensures Pow(gr, gr.unit, k) == gr.unit
  {
    if k > 0 {
      PowUnit(gr, k - 1);
      assert UnitFor(gr, gr.unit);
    }
  }

  lemma PowReduce<G(!new)>(gr: Group<G>, g: G, order: nat, a: nat)
    requires Lawful(gr) && HasOrder(gr, g, order)
    ensures Pow(gr, g, a) == Pow(gr, g, a % order)
  {
    var q := a / order;
    assert a == order * q + a % order;
    PowMul(gr, g, order, q);
    PowUnit(gr, q);
    PowAdd(gr, g, order * q, a % order);
    assert UnitFor(gr, Pow(gr, g, a % order));
  }

  lemma PowUnitIff<G(!new)>(gr: Group<G>, g: G, order: nat, a: nat)
    requires Lawful(gr) && HasOrder(gr, g, order)
    ensures Pow(gr, g, a) == gr.unit <==> a % order == 0
  {
    PowReduce(gr, g, order, a);
  }

  /** Powers of g agree exactly when their exponents agree modulo the order of g. */
  lemma PowEqualIff<G(!new)>(gr: Group<G>, g: G, order: nat, a: nat, b: nat)
    requires Lawful(gr) && HasOrder(gr, g, order)
    ensures Pow(gr, g, a) == Pow(gr, g, b) <==> Congruent(a, b, order)
  {
    if Pow(gr, g, a) == Pow(gr, g, b) {
      EqualPowersCongruent(gr, g, order, a, b);
    }
    if Congruent(a, b, order) {
      PowReduce(gr, g, order, a);
      PowReduce(gr, g, order, b);
      CongruentMod(a, order);
      CongruentMod(b, order);
      CongruentSymm(a, a % order, order);
      CongruentTrans(a % order, a, b, order);
      CongruentTrans(a % order, b, b % order, order);
      CongruentSmall(a % order, b % order, order);
    }
  }

  lemma EqualPowersCongruent<G(!new)>(gr: Group<G>, g: G, order: nat, a: nat, b: nat)
    requires Lawful(gr) && HasOrder(gr, g, order)
    requires Pow(gr, g, a) == Pow(gr, g, b)
    ensures Congruent(a, b, order)
  {
    var c := Complement(a, order);
    PowAdd(gr, g, a, c);
    PowAdd(gr, g, b, c);
    PowUnitIff(gr, g, order, a + c);
    PowUnitIff(gr, g, order, b + c);
    CommonComplement(a, b, c, order);
  }

  function Complement(a: nat, n: nat): (c: nat)
    requires n > 0
    ensures (a + c) % n == 0
  {
    MultipleMod(a, n);
    assert a + (n * a - a) == n * a;
    ProductNonNegative(n - 1, a);
    n * a - a
  }

  lemma CommonComplement(a: nat, b: nat, c: nat, n: nat)
    requires n > 0 && (a + c) % n == 0 && (b + c) % n == 0
    ensures Congruent(a, b, n)
  {
    var p, q := (a + c) / n, (b + c) / n;
    assert a + c == p * n && b + c == q * n;
    assert (p - q) * n == p * n - q * n;
    CongruentFrom(a, b, n, p - q);
  }

  lemma MultipleMod(k: nat, n: nat)
    requires n > 0
    ensures (n * k) % n == 0
  {
    ProductNonNegative(k, n);
    CongruentFrom(n * k, 0, n, k);
    ZeroMod(n * k, n);
  }

  /** What the client sends for a query word: g^(wtag*z). */
  function XToken<G>(gr: Group<G>, g: G, wtag: nat, z: nat): G {
    Pow(gr, g, wtag * z)
  }

  /** What xSetWorker stores: (g^xind)^wtag. */
  function XTag<G>(gr: Group<G>, g: G, xind: nat, wtag: nat): G {
    Pow(gr, Pow(gr, g, xind), wtag)
  }

  /** The server raises the token to y and lands on a stored xTag exactly when the y it holds is
      xind / z once wtag is cancelled, modulo the order of g. */
  lemma TokenMatchesIff<G(!new)>(gr: Group<G>, g: G, order: nat, wtag: nat, z: nat, xind: nat, y: nat)
    requires Lawful(gr) && HasOrder(gr, g, order)
    ensures Pow(gr, XToken(gr, g, wtag, z), y) == XTag(gr, g, xind, wtag)
       <==> Congruent(wtag * (y * z), wtag * xind, order)
  {
    PowMul(gr, g, wtag * z, y);
    PowMul(gr, g, xind, wtag);
    Rotate(wtag, z, y);
    Rotate(z, y, wtag);
    assert wtag * z * y == wtag * (y * z) by { assert wtag * z * y == wtag * (z * y); }
    assert xind * wtag == wtag * xind;
    PowEqualIff(gr, g, order, wtag * (y * z), wtag * xind);
  }

  /** The OXT identity: with the inverse taken modulo the order of g, the y made by tSetWorker
      turns the query token into the xTag made by xSetWorker. */
  lemma OxtIdentity<G(!new)>(gr: Group<G>, g: G, order: nat, wtag: nat, z: nat, xind: nat)
    requires Lawful(gr) && HasOrder(gr, g, order) && order > 1
    requires BlindedXind(z, xind, order).Some?
    ensures Pow(gr, XToken(gr, g, wtag, z), BlindedXind(z, xind, order).value) == XTag(gr, g, xind, wtag)
  {
    var y := BlindedXind(z, xind, order).value;
    BlindedXindCorrect(z, xind, order, y);
    CongruentMul(y * z, xind, wtag, order);
    TokenMatchesIff(gr, g, order, wtag, z, xind, y);
  }

  // ---------- which moduli work ----------

  /** With the inverse taken modulo `n`, the token raised to y is the xTag. */
  predicate Lands<G(==)>(gr: Group<G>, g: G, n: nat, wtag: nat, z: nat, xind: nat)
    requires n > 1
  {
    var y := BlindedXind(z, xind, n);
    y.Some? && Pow(gr, XToken(gr, g, wtag, z), y.value) == XTag(gr, g, xind, wtag)
  }

  /** Dividing modulo `n` serves every invertible z, whatever xind and wtag the PRFs produce. */
  ghost predicate ModulusWorks<G>(gr: Group<G>, g: G, n: nat, limit: nat)
    requires n > 1
  {
    forall wtag: nat, z: nat, xind: nat | wtag < limit && z < limit && xind < limit ::
      ModInverse(z, n).Some? ==> Lands(gr, g, n, wtag, z, xind)
  }

  /** A modulus works exactly when it is a multiple of the order of g, provided the PRFs' range
      reaches it or, being odd, reaches 2. */
  lemma ModulusWorksIff<G(!new)>(gr: Group<G>, g: G, order: nat, n: nat, limit: nat)
    requires Lawful(gr) && HasOrder(gr, g, order)
    requires n > 1 && (limit > n || (n % 2 == 1 && limit > 2))
    ensures ModulusWorks(gr, g, n, limit) <==> n % order == 0
  {
    if n % order == 0 {
      forall wtag: nat, z: nat, xind: nat |
        wtag < limit && z < limit && xind < limit && ModInverse(z, n).Some?
        ensures Lands(gr, g, n, wtag, z, xind)
      {
        MultipleWorks(gr, g, order, n, wtag, z, xind);
      }
    }
    if ModulusWorks(gr, g, n, limit) {
      if limit > n {
        WrapFails(gr, g, order, n);
        assert Lands(gr, g, n, 1, 1, n);
      } else {
        HalfFails(gr, g, order, n);
        assert Lands(gr, g, n, 1, 2, 1);
      }
    }
  }

  lemma MultipleWorks<G(!new)>(gr: Group<G>, g: G, order: nat, n: nat, wtag: nat, z: nat, xind: nat)
    requires Lawful(gr) && HasOrder(gr, g, order) && n > 1 && n % order == 0
    requires ModInverse(z, n).Some?
    ensures Lands(gr, g, n, wtag, z, xind)
  {
    var y := BlindedXind(z, xind, n).value;
    BlindedXindCorrect(z, xind, n, y);
    CongruentFactor(y * z, xind, n, order);
    CongruentMul(y * z, xind, wtag, order);
    TokenMatchesIff(gr, g, order, wtag, z, xind, y);
  }

  /** With z = 2 and xind = 1 the stored y is (n + 1) / 2, so that y*z exceeds xind by `n`. */
  lemma HalfFails<G(!new)>(gr: Group<G>, g: G, order: nat, n: nat)
    requires Lawful(gr) && HasOrder(gr, g, order) && n > 1 && n % 2 == 1
    ensures ModInverse(2, n).Some?
    ensures Lands(gr, g, n, 1, 2, 1) ==> n % order == 0
  {
    var half := (n + 1) / 2;
    CongruentFrom(half * 2, 1, n, 1);
    ModInverseCorrect(2, n);
    BlindedXindCorrect(2, 1, n, half);
    if Lands(gr, g, n, 1, 2, 1) {
      TokenMatchesIff(gr, g, order, 1, 2, 1, half);
      var k :| Differ(1 * (half * 2), 1 * 1, order, k);
      CongruentFrom(n, 0, order, k);
      ZeroMod(n, order);
    }
  }

  /** With z = 1 and xind = n the stored y is 0. */
  lemma WrapFails<G(!new)>(gr: Group<G>, g: G, order: nat, n: nat)
    requires Lawful(gr) && HasOrder(gr, g, order) && n > 1
    ensures ModInverse(1, n).Some?
    ensures Lands(gr, g, n, 1, 1, n) ==> n % order == 0
  {
    CongruentFrom(1 * 1, 1, n, 0);
    ModInverseCorrect(1, n);
    CongruentFrom(0 * 1, n, n, -1);
    BlindedXindCorrect(1, n, n, 0);
    if Lands(gr, g, n, 1, 1, n) {
      TokenMatchesIff(gr, g, order, 1, 1, n, 0);
      CongruentSymm(1 * (0 * 1), 1 * n, order);
      ZeroMod(n, order);
    }
  }

  lemma CongruentFactor(a: int, b: int, n: nat, order: nat)
    requires order > 0 && n % order == 0 && Congruent(a, b, n)
    ensures Congruent(a, b, order)
  {
    var k :| Differ(a, b, n, k);
    var m := n / order;
    assert n == m * order;
    assert k * n == (k * m) * order;
    CongruentFrom(a, b, order, k * m);
  }

  lemma ZeroMod(a: nat, n: nat)
    requires n > 0 && Congruent(a, 0, n)
    ensures a % n == 0
  {
    CongruentMod(a, n);
    CongruentSymm(a, a % n, n);
    CongruentTrans(a % n, a, 0, n);
    CongruentSmall(a % n, 0, n);
  }

  // P-224 (section D.1.2.2 of FIPS 186-4)
  const P224_PRIME: nat := 26959946667150639794667015087019630673557916260026308143510066298881
  const P224_ORDER: nat := 26959946667150639794667015087019625940457807714424391721682722368061

  /** On P-224 the field prime, which the code passes, is no such modulus, and the order is. */
  lemma FieldPrimeMisses<G(!new)>(gr: Group<G>, g: G, limit: nat)
    requires Lawful(gr) && HasOrder(gr, g, P224_ORDER) && limit > 2
    ensures !ModulusWorks(gr, g, P224_PRIME, limit)
    ensures ModulusWorks(gr, g, P224_ORDER, limit)
  {
    ModulusWorksIff(gr, g, P224_ORDER, P224_PRIME, limit);
    ModulusWorksIff(gr, g, P224_ORDER, P224_ORDER, limit);
  }
}
