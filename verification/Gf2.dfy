/** Polynomials over GF(2), just far enough to say what a cyclic redundancy check is.
    A polynomial is the set of exponents whose coefficient is 1, so addition is symmetric
    difference and multiplication by x^n adds n to every exponent. */
module Gf2 {
  type Poly = iset<nat>

  ghost function Add(p: Poly, q: Poly): (r: Poly)
    ensures forall k :: k in r <==> (k in p) != (k in q)
  {
    iset k | (k in p) != (k in q)
  }

  ghost predicate InShift(p: Poly, n: nat, k: nat) {
    k >= n && k - n in p
  }

  /** p times x^n. */
  ghost function Shift(p: Poly, n: nat): (r: Poly)
    ensures forall k :: k in r <==> k >= n && k - n in p
  {
    iset k | InShift(p, n, k)
  }

  ghost predicate InAppend(p: Poly, constant: bool, k: nat) {
    if k == 0 then constant else k - 1 in p
  }

  /** p times x, plus the constant term. */
  ghost function Append(p: Poly, constant: bool): (r: Poly)
    ensures forall k :: k in r <==> if k == 0 then constant else k - 1 in p
  {
    iset k | InAppend(p, constant, k)
  }

  ghost predicate DegreeBelow(p: Poly, n: nat) {
    forall k :: k in p ==> k < n
  }

  /** q times the generator x^16 + x^12 + x^5 + 1. */
  ghost function TimesG(q: Poly): Poly {
    Add(Add(Shift(q, 16), Shift(q, 12)), Add(Shift(q, 5), q))
  }

  ghost predicate DiffersByMultiple(p: Poly, r: Poly, q: Poly, n: nat) {
    DegreeBelow(q, n) && p == Add(TimesG(q), r)
  }

  /** p and r leave the same remainder modulo the generator. */
  ghost predicate Congruent(p: Poly, r: Poly) {
    exists q, n: nat :: DiffersByMultiple(p, r, q, n)
  }

  lemma ShiftAdd(p: Poly, q: Poly, n: nat)
    ensures Shift(Add(p, q), n) == Add(Shift(p, n), Shift(q, n))
  {
  }

  lemma ShiftShift(p: Poly, m: nat, n: nat)
    ensures Shift(Shift(p, m), n) == Shift(p, m + n)
  {
  }

  lemma AppendSame(p: Poly, a: bool, q: Poly, b: bool)
    requires p == q && (a <==> b)
    ensures Append(p, a) == Append(q, b)
  {
  }

  lemma AppendAdd(p: Poly, a: bool, q: Poly, b: bool)
    ensures Append(Add(p, q), a != b) == Add(Append(p, a), Append(q, b))
  {
  }

  lemma AppendSplit(p: Poly, q: Poly, j: nat, a: bool)
    requires j > 0
    ensures Append(Add(p, Shift(q, j - 1)), a) == Add(Append(p, a), Shift(q, j))
  {
  }

  lemma AppendInjective(p: Poly, q: Poly, a: bool, b: bool)
    requires Append(p, a) == Append(q, b)
    ensures p == q && a == b
  {
    assert 0 in Append(p, a) <==> 0 in Append(q, b);
    forall k ensures k in p <==> k in q {
      assert k + 1 in Append(p, a) <==> k + 1 in Append(q, b);
    }
  }

  lemma AppendZero(p: Poly)
    ensures Append(p, false) == Shift(p, 1)
  {
  }

  lemma ShiftBit(b: bool, n: nat)
    ensures Shift(Append(iset{}, b), n) == if b then iset{n} else iset{}
  {
  }

  lemma AddZero(p: Poly)
    ensures Add(p, iset{}) == p && Add(iset{}, p) == p
  {
  }

  lemma ShiftZero(p: Poly)
    ensures Shift(p, 0) == p
  {
  }

  lemma HornerStep(p: Poly, q: Poly, c: Poly, n: nat)
    ensures Add(Shift(Add(Shift(p, n), q), 8), c) == Add(Shift(p, n + 8), Add(Shift(q, 8), c))
  {
    ShiftAdd(Shift(p, n), q, 8);
    ShiftShift(p, n, 8);
    AddAssoc(Shift(p, n + 8), Shift(q, 8), c);
  }

  lemma AddComm(p: Poly, q: Poly)
    ensures Add(p, q) == Add(q, p)
  {
  }

  lemma AddAssoc(a: Poly, b: Poly, c: Poly)
    ensures Add(a, Add(b, c)) == Add(Add(a, b), c)
  {
  }

  lemma AddExchange(a: Poly, b: Poly, c: Poly, d: Poly)
    ensures Add(Add(a, b), Add(c, d)) == Add(Add(a, c), Add(b, d))
  {
  }

  lemma TimesGAdd(p: Poly, q: Poly)
    ensures TimesG(Add(p, q)) == Add(TimesG(p), TimesG(q))
  {
    ShiftAdd(p, q, 16);
    ShiftAdd(p, q, 12);
    ShiftAdd(p, q, 5);
    AddExchange(Shift(p, 16), Shift(q, 16), Shift(p, 12), Shift(q, 12));
    AddExchange(Shift(p, 5), Shift(q, 5), p, q);
    AddExchange(Add(Shift(p, 16), Shift(p, 12)), Add(Shift(q, 16), Shift(q, 12)),
                Add(Shift(p, 5), p), Add(Shift(q, 5), q));
  }

  lemma ShiftSwap(p: Poly, m: nat, n: nat)
    ensures Shift(Shift(p, m), n) == Shift(Shift(p, n), m)
  {
    ShiftShift(p, m, n);
    ShiftShift(p, n, m);
  }

  lemma TimesGShift(q: Poly, n: nat)
    ensures TimesG(Shift(q, n)) == Shift(TimesG(q), n)
  {
    ShiftSwap(q, n, 16);
    ShiftSwap(q, n, 12);
    ShiftSwap(q, n, 5);
    ShiftAdd(Shift(q, 16), Shift(q, 12), n);
    ShiftAdd(Shift(q, 5), q, n);
    ShiftAdd(Add(Shift(q, 16), Shift(q, 12)), Add(Shift(q, 5), q), n);
  }

  lemma CongruentRefl(p: Poly)
    ensures Congruent(p, p)
  {
    assert DiffersByMultiple(p, p, iset{}, 0);
  }

  lemma CongruentTrans(a: Poly, b: Poly, c: Poly)
    requires Congruent(a, b) && Congruent(b, c)
    ensures Congruent(a, c)
  {
    var p, m: nat :| DiffersByMultiple(a, b, p, m);
    var q, n: nat :| DiffersByMultiple(b, c, q, n);
    TimesGAdd(p, q);
    AddAssoc(TimesG(p), TimesG(q), c);
    assert DiffersByMultiple(a, c, Add(p, q), m + n);
  }

  lemma CongruentSym(a: Poly, b: Poly)
    requires Congruent(a, b)
    ensures Congruent(b, a)
  {
    var q, n: nat :| DiffersByMultiple(a, b, q, n);
    assert DiffersByMultiple(b, a, q, n);
  }

  lemma CongruentAdd(a: Poly, b: Poly, c: Poly, d: Poly)
    requires Congruent(a, b) && Congruent(c, d)
    ensures Congruent(Add(a, c), Add(b, d))
  {
    var p, m: nat :| DiffersByMultiple(a, b, p, m);
    var q, n: nat :| DiffersByMultiple(c, d, q, n);
    TimesGAdd(p, q);
    AddExchange(TimesG(p), b, TimesG(q), d);
    assert DiffersByMultiple(Add(a, c), Add(b, d), Add(p, q), m + n);
  }

  lemma CongruentShift(a: Poly, b: Poly, s: nat)
    requires Congruent(a, b)
    ensures Congruent(Shift(a, s), Shift(b, s))
  {
    var q, n: nat :| DiffersByMultiple(a, b, q, n);
    TimesGShift(q, s);
    ShiftAdd(TimesG(q), b, s);
    assert DiffersByMultiple(Shift(a, s), Shift(b, s), Shift(q, s), n + s);
  }

  lemma ByteStepAlgebra(low: Poly, high: Poly, byte: Poly)
    ensures Add(Shift(Add(low, Shift(high, 8)), 8), Shift(byte, 16)) == Add(Shift(low, 8), Shift(Add(high, byte), 16))
  {
    ShiftAdd(low, Shift(high, 8), 8);
    ShiftShift(high, 8, 8);
    ShiftAdd(high, byte, 16);
    AddAssoc(Shift(low, 8), Shift(high, 16), Shift(byte, 16));
  }

  lemma ByteStep(word: Poly, low: Poly, high: Poly, byte: Poly, index: Poly, entry: Poly, next: Poly)
    requires word == Add(low, Shift(high, 8)) && index == Add(high, byte) && next == Add(Shift(low, 8), entry)
    requires Congruent(Shift(index, 16), entry)
    ensures Congruent(Add(Shift(word, 8), Shift(byte, 16)), next)
  {
    ByteStepAlgebra(low, high, byte);
    CongruentRefl(Shift(low, 8));
    CongruentAdd(Shift(low, 8), Shift(low, 8), Shift(index, 16), entry);
  }

  lemma TopTerm(q: Poly, n: nat)
    requires DegreeBelow(q, n + 1) && DegreeBelow(TimesG(q), 16)
    ensures DegreeBelow(q, n)
  {
    var low := Add(Shift(q, 5), q);
    assert n + 16 !in low;
    assert n + 16 !in Shift(q, 12);
    assert n + 16 in TimesG(q) <==> n in q;
  }

  lemma {:induction false} LowMultipleIsZero(q: Poly, n: nat)
    requires DegreeBelow(q, n) && DegreeBelow(TimesG(q), 16)
    ensures q == iset{}
  {
    if n == 0 {
    } else {
      TopTerm(q, n - 1);
      LowMultipleIsZero(q, n - 1);
    }
  }

  /** Only one polynomial of degree below 16 is in each class: remainders are unique. */
  lemma RemainderUnique(a: Poly, b: Poly)
    requires Congruent(a, b) && DegreeBelow(a, 16) && DegreeBelow(b, 16)
    ensures a == b
  {
    var q, n: nat :| DiffersByMultiple(a, b, q, n);
    forall k | k in TimesG(q) ensures k < 16 {
      assert k in a <==> k !in b;
    }
    LowMultipleIsZero(q, n);
    assert TimesG(q) == iset{};
  }

  /** Multiplying by x when x^15 is present: x^16 is replaced by x^12 + x^5 + 1. */
  lemma ReduceTop(p: Poly, top: Poly)
    requires top == Add(p, iset{15})
    ensures Congruent(Shift(top, 1), Add(Shift(p, 1), iset{12, 5, 0}))
  {
    assert TimesG(iset{0}) == iset{16, 12, 5, 0};
    assert DiffersByMultiple(Shift(top, 1), Add(Shift(p, 1), iset{12, 5, 0}), iset{0}, 1);
  }

  lemma {:induction false} CancelX(p: Poly, n: nat)
    requires Congruent(Shift(p, n), iset{})
    ensures Congruent(p, iset{})
  {
    if n == 0 {
      ShiftZero(p);
    } else {
      ShiftShift(p, n - 1, 1);
      CancelOneX(Shift(p, n - 1));
      CancelX(p, n - 1);
    }
  }

  /** x has no common factor with the generator, whose constant term is 1. */
  lemma CancelOneX(p: Poly)
    requires Congruent(Shift(p, 1), iset{})
    ensures Congruent(p, iset{})
  {
    var q, n: nat :| DiffersByMultiple(Shift(p, 1), iset{}, q, n);
    AddZero(TimesG(q));
    assert 0 !in Shift(p, 1);
    assert 0 in TimesG(q) <==> 0 in q;
    var half := iset k: nat | InLower(q, k);
    assert q == Shift(half, 1);
    TimesGShift(half, 1);
    ShiftInjective(p, TimesG(half));
    AddZero(TimesG(half));
    assert DegreeBelow(half, n) by {
      forall k | k in half ensures k < n {
        assert k + 1 in q;
      }
    }
    assert DiffersByMultiple(p, iset{}, half, n);
  }

  lemma ShiftInjective(p: Poly, q: Poly)
    requires Shift(p, 1) == Shift(q, 1)
    ensures p == q
  {
    forall k: nat ensures k in p <==> k in q {
      assert k + 1 in Shift(p, 1) <==> k + 1 in Shift(q, 1);
    }
  }

  ghost predicate InLower(q: Poly, k: nat) {
    k + 1 in q
  }

  lemma SelfCheckAlgebra(m: Poly, t: Poly)
    ensures Congruent(m, t) <==> Congruent(Shift(Add(m, t), 16), iset{})
  {
    if Congruent(m, t) {
      CongruentRefl(t);
      CongruentAdd(m, t, t, t);
      CongruentShift(Add(m, t), Add(t, t), 16);
      assert Shift(Add(t, t), 16) == iset{};
    }
    if Congruent(Shift(Add(m, t), 16), iset{}) {
      CancelX(Add(m, t), 16);
      CongruentRefl(t);
      CongruentAdd(Add(m, t), iset{}, t, t);
      AddZero(t);
      AddAssoc(m, t, t);
      assert Add(t, t) == iset{};
      AddZero(m);
    }
  }

  lemma CommonPartsCancel(p: Poly, x: Poly, y: Poly, s: Poly, n: nat)
    ensures Add(Add(Shift(Add(p, x), n), s), Add(Shift(Add(p, y), n), s)) == Shift(Add(x, y), n)
  {
  }

  /** Polynomials that differ by a short difference times x^n and leave one remainder are equal. */
  lemma SameRemainder(a: Poly, b: Poly, r: Poly, v: Poly, w: Poly, n: nat)
    requires Congruent(Shift(a, 16), r) && Congruent(Shift(b, 16), r)
    requires Add(a, b) == Shift(Add(v, w), n) && DegreeBelow(v, 16) && DegreeBelow(w, 16)
    ensures v == w
  {
    CongruentAdd(Shift(a, 16), r, Shift(b, 16), r);
    ShiftAdd(a, b, 16);
    assert Add(r, r) == iset{};
    CancelX(Shift(Add(v, w), n), 16);
    CancelX(Add(v, w), n);
    RemainderUnique(Add(v, w), iset{});
    forall k ensures k in v <==> k in w {
      assert k !in Add(v, w);
    }
  }
}
