/**
 The checksum as the standard defines it: a remainder among polynomials over the field of two
 elements.  Nothing here but the connecting lemmas speaks of registers or steps.
 */
module Crc32Polynomial {
  import opened Crc32
  import opened Crc32Bursts

  /** A polynomial is the set of its exponents with coefficient one. */
  type Poly = set<nat>

  /** x^32 + x^26 + x^23 + x^22 + x^16 + x^12 + x^11 + x^10 + x^8 + x^7 + x^5 + x^4 + x^2 + x + 1 */
  const GENERATOR: Poly := {32, 26, 23, 22, 16, 12, 11, 10, 8, 7, 5, 4, 2, 1, 0}

  function Plus(p: Poly, q: Poly): Poly {
    (p - q) + (q - p)
  }

  /** The product with x^n. */
  function Shift(p: Poly, n: nat): Poly {
    set e | e in p :: e + n
  }

  function When(b: bool, p: Poly): Poly {
    if b then p else {}
  }

  /** The polynomial with the given coefficients, the highest first. */
  function Of(bits: seq<bool>): Poly {
    set k | 0 <= k < |bits| && bits[k] :: |bits| - 1 - k
  }

  function Times(quotient: seq<bool>, p: Poly): Poly {
    if quotient == [] then {}
    else Plus(When(quotient[0], Shift(p, |quotient| - 1)), Times(quotient[1..], p))
  }

  ghost predicate Below(p: Poly, n: nat) {
    forall e :: e in p ==> e < n
  }

  /** `r` is what the division of `p` by the generator leaves. */
  ghost predicate Remainder(p: Poly, r: Poly) {
    Below(r, 32) && exists quotient :: p == Plus(Times(quotient, GENERATOR), r)
  }

  // ----- polynomials

  lemma ShiftHas(p: Poly, n: nat)
    ensures forall e: nat :: e in Shift(p, n) <==> e >= n && e - n in p
  {
    forall e: nat | e >= n && e - n in p
      ensures e in Shift(p, n)
    {
      assert (e - n) + n == e;
    }
  }

  lemma OfHas(bits: seq<bool>)
    ensures forall e: nat :: e in Of(bits) <==> e < |bits| && bits[|bits| - 1 - e]
  {
    forall e: nat | e < |bits| && bits[|bits| - 1 - e]
      ensures e in Of(bits)
    {
      assert |bits| - 1 - (|bits| - 1 - e) == e;
    }
  }

  lemma ShiftPlus(p: Poly, q: Poly, n: nat)
    ensures Shift(Plus(p, q), n) == Plus(Shift(p, n), Shift(q, n))
  {
    ShiftHas(p, n);
    ShiftHas(q, n);
    ShiftHas(Plus(p, q), n);
  }

  lemma ShiftShift(p: Poly, m: nat, n: nat)
    ensures Shift(Shift(p, m), n) == Shift(p, m + n)
  {
    ShiftHas(p, m);
    ShiftHas(Shift(p, m), n);
    ShiftHas(p, m + n);
  }

  lemma ShiftNone(p: Poly)
    ensures Shift(p, 0) == p
  {
    ShiftHas(p, 0);
  }

  lemma PlusCancels(p: Poly, q: Poly, r: Poly)
    requires Plus(p, q) == Plus(p, r)
    ensures q == r
  {
    forall e
      ensures e in q <==> e in r
    {
      assert e in Plus(p, q) <==> e in Plus(p, r);
    }
  }

  lemma PlusAssociates(p: Poly, q: Poly, r: Poly)
    ensures Plus(Plus(p, q), r) == Plus(p, Plus(q, r))
  {
  }

  lemma TimesBelow(quotient: seq<bool>)
    ensures Below(Times(quotient, GENERATOR), |quotient| + 32)
  {
    if quotient != [] {
      ShiftHas(GENERATOR, |quotient| - 1);
      TimesBelow(quotient[1..]);
    }
  }

  lemma TimesLeads(quotient: seq<bool>)
    requires quotient != [] && quotient[0]
    ensures |quotient| + 31 in Times(quotient, GENERATOR)
  {
    ShiftHas(GENERATOR, |quotient| - 1);
    TimesBelow(quotient[1..]);
  }

  /** A division leaves one remainder only. */
  lemma {:induction false} SameRemainder(a: seq<bool>, r: Poly, b: seq<bool>, s: Poly)
    requires Below(r, 32) && Below(s, 32)
    requires Plus(Times(a, GENERATOR), r) == Plus(Times(b, GENERATOR), s)
    ensures r == s
    decreases |a| + |b|
  {
    if a != [] && !a[0] {
      assert Times(a, GENERATOR) == Times(a[1..], GENERATOR);
      SameRemainder(a[1..], r, b, s);
    } else if b != [] && !b[0] {
      assert Times(b, GENERATOR) == Times(b[1..], GENERATOR);
      SameRemainder(a, r, b[1..], s);
    } else if |a| == |b| {
      if a != [] {
        var lead := Shift(GENERATOR, |a| - 1);
        PlusAssociates(lead, Times(a[1..], GENERATOR), r);
        PlusAssociates(lead, Times(b[1..], GENERATOR), s);
        PlusCancels(lead, Plus(Times(a[1..], GENERATOR), r), Plus(Times(b[1..], GENERATOR), s));
        SameRemainder(a[1..], r, b[1..], s);
      } else {
        assert Plus({}, r) == r && Plus({}, s) == s;
      }
    } else if |a| > |b| {
      LongerDiffers(a, r, b, s);
    } else {
      LongerDiffers(b, s, a, r);
    }
  }

  lemma LongerDiffers(a: seq<bool>, r: Poly, b: seq<bool>, s: Poly)
    requires Below(r, 32) && Below(s, 32) && |a| > |b| && a[0]
    ensures Plus(Times(a, GENERATOR), r) != Plus(Times(b, GENERATOR), s)
  {
    TimesLeads(a);
    TimesBelow(b);
    assert |a| + 31 in Plus(Times(a, GENERATOR), r);
    assert |a| + 31 !in Plus(Times(b, GENERATOR), s);
  }

  lemma RemainderUnique(p: Poly, r: Poly, s: Poly)
    requires Remainder(p, r) && Remainder(p, s)
    ensures r == s
  {
    var a :| p == Plus(Times(a, GENERATOR), r);
    var b :| p == Plus(Times(b, GENERATOR), s);
    SameRemainder(a, r, b, s);
  }

  // ----- registers

  /** A register as a polynomial: its lowest bit is the coefficient of x^31. */
  function OfRegister(c: bv32): Poly {
    Of(Bits(c, 32))
  }

  lemma {:induction false} UnfoldAt<T>(odd: T -> bool, half: T -> T, w: T, n: nat, k: nat)
    requires k < n
    ensures |Unfold(odd, half, w, n)| == n && Unfold(odd, half, w, n)[k] == odd(Iterate(half, w, k))
  {
    UnfoldLength(odd, half, w, n);
    if k > 0 {
      UnfoldAt(odd, half, half(w), n - 1, k - 1);
      IterateFront(half, w, k - 1);
    }
  }

  lemma UnfoldPlus<T(!new)>(odd: T -> bool, half: T -> T, plus: (T, T) -> T, a: T, b: T, n: nat, k: nat)
    requires Linear(half, plus) && (forall x, y :: odd(plus(x, y)) == (odd(x) != odd(y))) && k < n
    ensures |Unfold(odd, half, plus(a, b), n)| == |Unfold(odd, half, a, n)| == |Unfold(odd, half, b, n)| == n
    ensures Unfold(odd, half, plus(a, b), n)[k] == (Unfold(odd, half, a, n)[k] != Unfold(odd, half, b, n)[k])
  {
    UnfoldAt(odd, half, plus(a, b), n, k);
    UnfoldAt(odd, half, a, n, k);
    UnfoldAt(odd, half, b, n, k);
    IterateLinear(half, plus, a, b, k);
  }

  /** The bits of a sum, for a parity and a half that respect it. */
  lemma OfSum<T(!new)>(odd: T -> bool, half: T -> T, plus: (T, T) -> T, a: T, b: T, n: nat)
    requires Linear(half, plus) && forall x, y :: odd(plus(x, y)) == (odd(x) != odd(y))
    ensures Of(Unfold(odd, half, plus(a, b), n)) == Plus(Of(Unfold(odd, half, a, n)), Of(Unfold(odd, half, b, n)))
  {
    var c, d, e := Unfold(odd, half, plus(a, b), n), Unfold(odd, half, a, n), Unfold(odd, half, b, n);
    UnfoldLength(odd, half, plus(a, b), n);
    UnfoldLength(odd, half, a, n);
    UnfoldLength(odd, half, b, n);
    forall k | 0 <= k < n
      ensures c[k] == (d[k] != e[k])
    {
      UnfoldPlus(odd, half, plus, a, b, n, k);
    }
    OfPlus(d, e, c);
  }

  lemma OfPlus(a: seq<bool>, b: seq<bool>, c: seq<bool>)
    requires |a| == |b| == |c| && forall k :: 0 <= k < |c| ==> c[k] == (a[k] != b[k])
    ensures Of(c) == Plus(Of(a), Of(b))
  {
    OfHas(a);
    OfHas(b);
    OfHas(c);
  }

  lemma XorParts()
    ensures Linear(Half, Xor) && forall x, y :: Odd(Xor(x, y)) == (Odd(x) != Odd(y))
  {
    forall x, y
      ensures Odd(Xor(x, y)) == (Odd(x) != Odd(y)) && Half(Xor(x, y)) == Xor(Half(x), Half(y))
    {
      OddXor(x, y);
      HalfXor(x, y);
    }
  }

  lemma OfXor(a: bv32, b: bv32)
    ensures OfRegister(Xor(a, b)) == Plus(OfRegister(a), OfRegister(b))
  {
    XorParts();
    OfSum(Odd, Half, Xor, a, b, 32);
  }

  lemma {:induction false} IterateMore<T>(f: T -> T, c: T, m: nat, n: nat)
    ensures Iterate(f, Iterate(f, c, m), n) == Iterate(f, c, m + n)
  {
    if n > 0 {
      IterateMore(f, c, m, n - 1);
    }
  }

  function DropByte(w: bv32): bv32 {
    w >> 8
  }

  lemma EightHalvesDrop(w: bv32)
    ensures Iterate(Half, w, 8) == DropByte(w)
  {
    ShiftsAdd(w);
    EightHalves(w, w >> 1, w >> 2, w >> 3, w >> 4, w >> 5, w >> 6, w >> 7, w >> 8);
  }

  lemma EightHalvesDropAll()
    ensures forall x :: Iterate(Half, x, 8) == DropByte(x)
  {
    forall x
      ensures Iterate(Half, x, 8) == DropByte(x)
    {
      EightHalvesDrop(x);
    }
  }

  lemma FourDropsEmpty(w: bv32)
    ensures DropByte(DropByte(DropByte(DropByte(w)))) == 0
  {
  }

  lemma FourTimes<T(!new)>(f: T -> T, drop: T -> T, w: T)
    requires forall x :: Iterate(f, x, 8) == drop(x)
    ensures Iterate(f, w, 32) == drop(drop(drop(drop(w))))
  {
    IterateMore(f, w, 8, 8);
    IterateMore(f, w, 16, 8);
    IterateMore(f, w, 24, 8);
  }

  lemma HalvesOfWord(w: bv32)
    ensures Iterate(Half, w, 32) == 0
  {
    EightHalvesDropAll();
    FourTimes(Half, DropByte, w);
    FourDropsEmpty(w);
  }

  lemma UnfoldHalfAt<T>(odd: T -> bool, half: T -> T, w: T, n: nat, k: nat)
    requires k + 1 < n
    ensures |Unfold(odd, half, w, n)| == |Unfold(odd, half, half(w), n)| == n
    ensures Unfold(odd, half, half(w), n)[k] == Unfold(odd, half, w, n)[k + 1]
  {
    UnfoldAt(odd, half, half(w), n, k);
    UnfoldAt(odd, half, w, n, k + 1);
    IterateFront(half, w, k);
  }

  /** Halving drops the first bit; the last that appears is the next one of the word. */
  lemma UnfoldHalf<T>(odd: T -> bool, half: T -> T, w: T, n: nat)
    requires n > 0
    ensures |Unfold(odd, half, w, n)| == |Unfold(odd, half, half(w), n)| == n
    ensures Unfold(odd, half, w, n)[0] == odd(w)
    ensures forall k :: 0 <= k < n - 1 ==> Unfold(odd, half, half(w), n)[k] == Unfold(odd, half, w, n)[k + 1]
    ensures Unfold(odd, half, half(w), n)[n - 1] == odd(Iterate(half, w, n))
  {
    UnfoldLength(odd, half, w, n);
    UnfoldAt(odd, half, half(w), n, n - 1);
    IterateFront(half, w, n - 1);
    forall k | 0 <= k < n - 1
      ensures Unfold(odd, half, half(w), n)[k] == Unfold(odd, half, w, n)[k + 1]
    {
      UnfoldHalfAt(odd, half, w, n, k);
    }
  }

  /** Bits that move up by one place and leave at the top. */
  lemma OfShifted(bits: seq<bool>, half: seq<bool>)
    requires |bits| == |half| == 32 && !half[31] && forall k :: 0 <= k < 31 ==> half[k] == bits[k + 1]
    ensures Shift(Of(bits), 1) == Plus(Of(half), When(bits[0], {32}))
  {
    OfHas(bits);
    OfHas(half);
    ShiftHas(Of(bits), 1);
    forall e: nat
      ensures e in Shift(Of(bits), 1) <==> e in Plus(Of(half), When(bits[0], {32}))
    {
      if 0 < e < 32 {
        assert half[31 - e] == bits[32 - e];
      }
    }
  }

  lemma ZeroIsEven()
    ensures !Odd(0)
  {
  }

  lemma OfHalf(c: bv32)
    ensures Shift(OfRegister(c), 1) == Plus(OfRegister(Half(c)), When(Odd(c), {32}))
  {
    UnfoldHalf(Odd, Half, c, 32);
    HalvesOfWord(c);
    ZeroIsEven();
    OfShifted(Bits(c, 32), Bits(Half(c), 32));
  }

  const GENERATOR_BITS: seq<bool> :=
    [false, false, false, false, false, true, false, false] + ([true, true, false, false, false, false, false, true] +
    ([false, false, false, true, true, true, false, true] + [true, false, true, true, false, true, true, true]))

  lemma {:induction false} UnfoldSplit<T>(odd: T -> bool, half: T -> T, w: T, m: nat, n: nat)
    ensures Unfold(odd, half, w, m + n) == Unfold(odd, half, w, m) + Unfold(odd, half, Iterate(half, w, m), n)
  {
    if m > 0 {
      UnfoldSplit(odd, half, half(w), m - 1, n);
      IterateFront(half, w, m - 1);
    }
  }

  lemma FirstBytes()
    ensures Bits(0xEDB8_8320, 8) == [false, false, false, false, false, true, false, false]
    ensures Bits(0xED_B883, 8) == [true, true, false, false, false, false, false, true]
  {
  }

  lemma LastBytes()
    ensures Bits(0xEDB8, 8) == [false, false, false, true, true, true, false, true]
    ensures Bits(0xED, 8) == [true, false, true, true, false, true, true, true]
  {
  }

  lemma UnfoldBytes<T(!new)>(odd: T -> bool, half: T -> T, drop: T -> T, w: T)
    requires forall x :: Iterate(half, x, 8) == drop(x)
    ensures Unfold(odd, half, w, 32) ==
      Unfold(odd, half, w, 8) + (Unfold(odd, half, drop(w), 8) +
      (Unfold(odd, half, drop(drop(w)), 8) + Unfold(odd, half, drop(drop(drop(w))), 8)))
  {
    UnfoldSplit(odd, half, w, 8, 24);
    UnfoldSplit(odd, half, drop(w), 8, 16);
    UnfoldSplit(odd, half, drop(drop(w)), 8, 8);
  }

  lemma RegisterBytes(w: bv32)
    ensures Bits(w, 32) ==
      Bits(w, 8) + (Bits(DropByte(w), 8) + (Bits(DropByte(DropByte(w)), 8) + Bits(DropByte(DropByte(DropByte(w))), 8)))
  {
    EightHalvesDropAll();
    UnfoldBytes(Odd, Half, DropByte, w);
  }

  lemma PolynomialBytes()
    ensures DropByte(POLYNOMIAL) == 0xED_B883 && DropByte(0xED_B883) == 0xEDB8 && DropByte(0xEDB8) == 0xED
    ensures DropByte(0xFFFF_FFFF) == 0xFF_FFFF && DropByte(0xFF_FFFF) == 0xFFFF && DropByte(0xFFFF) == 0xFF
  {
  }

  lemma PolynomialBits()
    ensures Bits(POLYNOMIAL, 32) == GENERATOR_BITS
  {
    RegisterBytes(POLYNOMIAL);
    PolynomialBytes();
    FirstBytes();
    LastBytes();
  }

  lemma OfGeneratorBits()
    ensures Of(GENERATOR_BITS) == GENERATOR - {32}
  {
    OfHas(GENERATOR_BITS);
    assert forall e: nat :: e in Of(GENERATOR_BITS) <==> e in GENERATOR - {32};
  }

  /** The constant of the source is the generator, its leading term left out. */
  lemma OfPolynomial()
    ensures OfRegister(POLYNOMIAL) == GENERATOR - {32}
  {
    PolynomialBits();
    OfGeneratorBits();
  }

  // ----- the division

  lemma Subtracts(generator: Poly, half: Poly, due: bool)
    requires 32 in generator && Below(half, 32)
    ensures Plus(half, When(due, {32})) == Plus(When(due, generator), if due then Plus(generator - {32}, half) else half)
  {
  }

  lemma OfStepped(due: bool, half: bv32)
    ensures OfRegister(Stepped(due, half)) == if due then Plus(GENERATOR - {32}, OfRegister(half)) else OfRegister(half)
  {
    OfXor(POLYNOMIAL, half);
    OfPolynomial();
  }

  /** Multiplying by x and one subtraction of the generator, where it is due. */
  lemma OfStep(c: bv32)
    ensures Shift(OfRegister(c), 1) == Plus(When(Odd(c), GENERATOR), OfRegister(Step(c)))
  {
    OfHalf(c);
    StepIs(c);
    OfRegisterBelow(Half(c));
    OfStepped(Odd(c), Half(c));
    Subtracts(GENERATOR, OfRegister(Half(c)), Odd(c));
  }

  lemma OfRegisterBelow(c: bv32)
    ensures Below(OfRegister(c), 32)
  {
    UnfoldLength(Odd, Half, c, 32);
    OfHas(Bits(c, 32));
  }

  lemma OneBits()
    ensures Bits(1, 32) == [true] + Bits(0, 31)
    ensures !Odd(0) && Half(0) == 0
  {
  }

  lemma {:induction false} UnfoldNone<T>(odd: T -> bool, half: T -> T, z: T, n: nat)
    requires !odd(z) && half(z) == z
    ensures |Unfold(odd, half, z, n)| == n && forall k :: 0 <= k < n ==> !Unfold(odd, half, z, n)[k]
  {
    if n > 0 {
      UnfoldNone(odd, half, z, n - 1);
    }
  }

  lemma OfBit(b: bool)
    ensures OfRegister(Bit(b)) == When(b, {31})
  {
    OneBits();
    UnfoldNone(Odd, Half, 0, 31);
    UnfoldNone(Odd, Half, 0, 32);
    OfHas(Bits(Bit(b), 32));
  }

  lemma OfFront(message: seq<bool>)
    requires message != []
    ensures Of(message) == Plus(When(message[0], {|message| - 1}), Of(message[1..]))
  {
    OfHas(message);
    OfHas(message[1..]);
  }

  /** When the generator was subtracted on the way. */
  function Quotient(c: bv32, message: seq<bool>): seq<bool>
    decreases |message|
  {
    if message == [] then []
    else
      var joined := Xor(c, Bit(message[0]));
      [Odd(joined)] + Quotient(Step(joined), message[1..])
  }

  lemma QuotientLength(c: bv32, message: seq<bool>)
    ensures |Quotient(c, message)| == |message|
    decreases |message|
  {
  }

  /** The message, moved up for a remainder and with a polynomial added to its front. */
  function Dividend(front: Poly, message: seq<bool>): Poly {
    Plus(Shift(front, |message|), Shift(Of(message), 32))
  }

  lemma ShiftWhen(b: bool, p: Poly, n: nat)
    ensures Shift(When(b, p), n) == When(b, Shift(p, n))
  {
  }

  lemma ShiftOne(e: nat, n: nat)
    ensures Shift({e}, n) == {e + n}
  {
    ShiftHas({e}, n);
  }

  lemma JoinDividend(p: Poly, message: seq<bool>, joined: Poly)
    requires message != [] && joined == Plus(p, When(message[0], {31}))
    ensures Dividend(p, message) == Plus(Shift(joined, |message|), Shift(Of(message[1..]), 32))
  {
    var n := |message|;
    OfFront(message);
    ShiftPlus(When(message[0], {n - 1}), Of(message[1..]), 32);
    ShiftPlus(p, When(message[0], {31}), n);
    ShiftWhen(message[0], {31}, n);
    ShiftWhen(message[0], {n - 1}, 32);
    ShiftOne(31, n);
    ShiftOne(n - 1, 32);
    PlusAssociates(Shift(p, n), When(message[0], {n + 31}), Shift(Of(message[1..]), 32));
  }

  lemma StepDividend(p: Poly, message: seq<bool>, joined: Poly, due: bool, next: Poly)
    requires message != [] && joined == Plus(p, When(message[0], {31}))
    requires Shift(joined, 1) == Plus(When(due, GENERATOR), next)
    ensures Dividend(p, message) ==
      Plus(When(due, Shift(GENERATOR, |message| - 1)), Dividend(next, message[1..]))
  {
    var n := |message| - 1;
    JoinDividend(p, message, joined);
    ShiftShift(joined, 1, n);
    ShiftPlus(When(due, GENERATOR), next, n);
    ShiftWhen(due, GENERATOR, n);
    PlusAssociates(When(due, Shift(GENERATOR, n)), Shift(next, n), Shift(Of(message[1..]), 32));
  }

  /** One more term of the quotient. */
  lemma QuotientGrows(due: bool, quotient: seq<bool>, dividend: Poly, rest: Poly, r: Poly)
    requires dividend == Plus(When(due, Shift(GENERATOR, |quotient|)), rest)
    requires rest == Plus(Times(quotient, GENERATOR), r)
    ensures dividend == Plus(Times([due] + quotient, GENERATOR), r)
  {
    var all := [due] + quotient;
    assert all[0] == due && all[1..] == quotient;
    PlusAssociates(When(due, Shift(GENERATOR, |quotient|)), Times(quotient, GENERATOR), r);
  }

  lemma RegisterStep(c: bv32, joined: bv32, next: bv32, message: seq<bool>)
    requires message != [] && joined == Xor(c, Bit(message[0])) && next == Step(joined)
    ensures Dividend(OfRegister(c), message) ==
      Plus(When(Odd(joined), Shift(GENERATOR, |message| - 1)), Dividend(OfRegister(next), message[1..]))
  {
    OfXor(c, Bit(message[0]));
    OfBit(message[0]);
    OfStep(joined);
    StepDividend(OfRegister(c), message, OfRegister(joined), Odd(joined), OfRegister(next));
  }

  lemma DivisionStep(c: bv32, joined: bv32, next: bv32, message: seq<bool>, quotient: seq<bool>, r: Poly)
    requires message != [] && joined == Xor(c, Bit(message[0])) && next == Step(joined) && |quotient| == |message| - 1
    requires Dividend(OfRegister(next), message[1..]) == Plus(Times(quotient, GENERATOR), r)
    ensures Dividend(OfRegister(c), message) == Plus(Times([Odd(joined)] + quotient, GENERATOR), r)
  {
    RegisterStep(c, joined, next, message);
    QuotientGrows(Odd(joined), quotient, Dividend(OfRegister(c), message), Dividend(OfRegister(next), message[1..]), r);
  }

  lemma EmptyDividend(p: Poly)
    ensures Dividend(p, []) == Plus({}, p)
  {
    ShiftNone(p);
    OfHas([]);
    assert Shift(Of([]), 32) == {};
  }

  /** The register divides: the dividend is a multiple of the generator and the register. */
  lemma {:induction false} DivideIsDivision(c: bv32, message: seq<bool>)
    ensures Dividend(OfRegister(c), message) == Plus(Times(Quotient(c, message), GENERATOR), OfRegister(Divide(c, message)))
    decreases |message|
  {
    if message == [] {
      EmptyDividend(OfRegister(c));
    } else {
      var joined := Xor(c, Bit(message[0]));
      var next := Step(joined);
      DivideIsDivision(next, message[1..]);
      QuotientLength(next, message[1..]);
      DivisionStep(c, joined, next, message, Quotient(next, message[1..]), OfRegister(Divide(next, message[1..])));
    }
  }

  /** For every register and message, the register afterwards is the remainder. */
  lemma RegisterIsRemainder(c: bv32, message: seq<bool>)
    ensures Remainder(Dividend(OfRegister(c), message), OfRegister(Divide(c, message)))
  {
    DivideIsDivision(c, message);
    OfRegisterBelow(Divide(c, message));
  }

  // ----- the checksum

  /** The complement, as a polynomial. */
  const ONES: Poly := set e: nat | e < 32

  const TRUES: seq<bool> := [true, true, true, true, true, true, true, true]

  lemma FirstTrues()
    ensures Bits(0xFFFF_FFFF, 8) == TRUES
    ensures Bits(0xFF_FFFF, 8) == TRUES
  {
  }

  lemma LastTrues()
    ensures Bits(0xFFFF, 8) == TRUES
    ensures Bits(0xFF, 8) == TRUES
  {
  }

  lemma AllOneBits()
    ensures Bits(0xFFFF_FFFF, 32) == TRUES + (TRUES + (TRUES + TRUES))
  {
    RegisterBytes(0xFFFF_FFFF);
    PolynomialBytes();
    FirstTrues();
    LastTrues();
  }

  lemma OfTrues(bits: seq<bool>)
    requires |bits| == 32 && forall k :: 0 <= k < 32 ==> bits[k]
    ensures Of(bits) == ONES
  {
    OfHas(bits);
  }

  lemma OfOnes()
    ensures OfRegister(0xFFFF_FFFF) == ONES
  {
    AllOneBits();
    OfTrues(TRUES + (TRUES + (TRUES + TRUES)));
  }

  lemma OfTells(a: seq<bool>, b: seq<bool>)
    requires |a| == |b| && Of(a) == Of(b)
    ensures a == b
  {
    OfHas(a);
    OfHas(b);
    forall k | 0 <= k < |a|
      ensures a[k] == b[k]
    {
      assert |a| - 1 - k in Of(a) <==> a[k];
      assert |a| - 1 - k in Of(b) <==> b[k];
    }
  }

  lemma RegisterTells(a: bv32, b: bv32)
    requires OfRegister(a) == OfRegister(b)
    ensures a == b
  {
    UnfoldLength(Odd, Half, a, 32);
    UnfoldLength(Odd, Half, b, 32);
    OfTells(Bits(a, 32), Bits(b, 32));
    BitsTell(a, b);
  }

  lemma BitsTell(a: bv32, b: bv32)
    requires Bits(a, 32) == Bits(b, 32)
    ensures a == b
  {
    HalvesOfWord(a);
    HalvesOfWord(b);
    WordsTell();
    UnfoldTells(Odd, Half, a, b, 32);
  }

  /** The checksum of section 8 of RFC 1952: a word is the checksum exactly when its complement is the
      remainder of the message with its first thirty-two coefficients complemented. */
  lemma ChecksumExactly(data: seq<bv8>, r: bv32)
    ensures r == Checksum(data) <==> Remainder(Dividend(ONES, Message(data)), Plus(OfRegister(r), ONES))
  {
    var end := Divide(0xFFFF_FFFF, Message(data));
    OfOnes();
    OfXor(r, 0xFFFF_FFFF);
    OfXor(end, 0xFFFF_FFFF);
    RegisterIsRemainder(0xFFFF_FFFF, Message(data));
    XorTwice(end, 0xFFFF_FFFF);
    XorTwice(r, 0xFFFF_FFFF);
    if Remainder(Dividend(ONES, Message(data)), Plus(OfRegister(r), ONES)) {
      RemainderUnique(Dividend(ONES, Message(data)), OfRegister(end), Plus(OfRegister(r), ONES));
      RegisterTells(end, Xor(r, 0xFFFF_FFFF));
    }
  }

  lemma XorTwice(a: bv32, b: bv32)
    ensures Xor(Xor(a, b), b) == a
  {
  }
}
