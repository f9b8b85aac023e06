/** What CRC-32 is: the frame check sequence of section 8.1.1.6.2 of ITU-T V.42, a
    remainder of polynomials over the field of two elements. The definitions here do not
    mention the shift register or its constants. */
module Polynomial {
  import opened Checksum

  /** A polynomial, by the exponents whose coefficient is one. */
  type Poly = set<nat>

  function Plus(p: Poly, q: Poly): Poly { (p - q) + (q - p) }

  /** `p` times x^e. */
  function Times(p: Poly, e: nat): Poly { set n | n in p :: n + e }

  /** `k` times the polynomial with the given exponents. */
  function Product(exponents: seq<nat>, k: Poly): Poly
  {
    if exponents == [] then {} else Plus(Times(k, exponents[0]), Product(exponents[1..], k))
  }

  /** The generator of the standard. */
  const GENERATOR: seq<nat> := [32, 26, 23, 22, 16, 12, 11, 10, 8, 7, 5, 4, 2, 1, 0]

  /** Both leave the same remainder. */
  ghost predicate Congruent(p: Poly, q: Poly)
  {
    exists k :: Plus(p, q) == Product(GENERATOR, k)
  }

  ghost predicate IsRemainder(p: Poly, r: Poly)
  {
    Congruent(p, r) && forall e :: e in r ==> e < 32
  }

  /** The bits of a message as coefficients, the first bit that of the highest power. */
  function BitsPoly(bits: seq<bool>): Poly
  {
    if bits == [] then {} else Plus(if bits[0] then {|bits| - 1} else {}, BitsPoly(bits[1..]))
  }

  /** The coefficients that a checksum stands for: its low bit is that of x^31. */
  function Coefs(c: bv32): Poly { BitsPoly(LowBits(c, 32)) }

  /** x^(n-1) + ... + 1. */
  function AllOnes(n: nat): Poly { if n == 0 then {} else AllOnes(n - 1) + {n - 1} }

  // --------------------------------------------------------- polynomial algebra

  lemma TimesPlus(p: Poly, q: Poly, e: nat)
    ensures Times(Plus(p, q), e) == Plus(Times(p, e), Times(q, e))
  {
    forall n ensures n in Times(Plus(p, q), e) <==> n in Plus(Times(p, e), Times(q, e)) {
      InTimes(Plus(p, q), e, n);
      InTimes(p, e, n);
      InTimes(q, e, n);
    }
  }

  lemma InTimes(p: Poly, e: nat, n: int)
    ensures n in Times(p, e) <==> n >= e && n - e in p
  {
    if n >= e && n - e in p {
      assert (n - e) + e in Times(p, e);
    }
  }

  lemma TimesTwice(p: Poly, d: nat, e: nat)
    ensures Times(Times(p, d), e) == Times(p, d + e)
  {
    forall n ensures n in Times(Times(p, d), e) <==> n in Times(p, d + e) {
      InTimes(Times(p, d), e, n);
      InTimes(p, d, n - e);
      InTimes(p, d + e, n);
    }
  }

  lemma {:induction false} ProductPlus(es: seq<nat>, j: Poly, k: Poly)
    ensures Product(es, Plus(j, k)) == Plus(Product(es, j), Product(es, k))
  {
    hide Times;
    if es != [] {
      TimesPlus(j, k, es[0]);
      ProductPlus(es[1..], j, k);
    }
  }

  lemma {:induction false} ProductTimes(es: seq<nat>, k: Poly, e: nat)
    ensures Product(es, Times(k, e)) == Times(Product(es, k), e)
  {
    hide Plus, Times;
    if es == [] {
      TimesNothing(e);
    } else {
      TimesTwice(k, es[0], e);
      TimesTwice(k, e, es[0]);
      TimesPlus(Times(k, es[0]), Product(es[1..], k), e);
      ProductTimes(es[1..], k, e);
    }
  }

  lemma TimesNothing(e: nat)
    ensures Times({}, e) == {}
  {
  }

  lemma CongruentPlus(p: Poly, q: Poly, r: Poly)
    requires Congruent(p, q)
    ensures Congruent(Plus(p, r), Plus(q, r))
  {
    assert Plus(Plus(p, r), Plus(q, r)) == Plus(p, q);
  }

  lemma CongruentTimes(p: Poly, q: Poly, e: nat)
    requires Congruent(p, q)
    ensures Congruent(Times(p, e), Times(q, e))
  {
    hide Plus, Times, Product;
    var k :| Plus(p, q) == Product(GENERATOR, k);
    TimesPlus(p, q, e);
    ProductTimes(GENERATOR, k, e);
    assert Plus(Times(p, e), Times(q, e)) == Product(GENERATOR, Times(k, e));
  }

  lemma CongruentTrans(p: Poly, q: Poly, r: Poly)
    requires Congruent(p, q) && Congruent(q, r)
    ensures Congruent(p, r)
  {
    hide Product;
    var j :| Plus(p, q) == Product(GENERATOR, j);
    var k :| Plus(q, r) == Product(GENERATOR, k);
    ProductPlus(GENERATOR, j, k);
    assert Plus(p, r) == Plus(Plus(p, q), Plus(q, r)) == Product(GENERATOR, Plus(j, k));
  }

  lemma {:induction false} ProductNothing(es: seq<nat>)
    ensures Product(es, {}) == {}
  {
    if es != [] {
      TimesNothing(es[0]);
      ProductNothing(es[1..]);
    }
  }

  lemma CongruentSame(p: Poly)
    ensures Congruent(p, p)
  {
    ProductNothing(GENERATOR);
    assert Plus(p, p) == Product(GENERATOR, {});
  }

  // ------------------------------------------------------ remainders are unique

  ghost function MaxOf(k: Poly): (m: nat)
    requires k != {}
    ensures m in k && forall n :: n in k ==> n <= m
    decreases k
  {
    var n: nat :| n in k;
    if k == {n} then n
    else
      var m := MaxOf(k - {n});
      assert k == (k - {n}) + {n};
      if m >= n then m else n
  }

  lemma {:induction false} LowerTerms(es: seq<nat>, k: Poly, m: nat)
    requires (forall i :: 0 <= i < |es| ==> es[i] < 32) && forall n :: n in k ==> n <= m
    ensures m + 32 !in Product(es, k)
  {
    hide Times;
    if es != [] {
      InTimes(k, es[0], m + 32);
      LowerTerms(es[1..], k, m);
    }
  }

  /** A multiple of the generator that is not zero has degree 32 or more. */
  lemma MultipleIsHigh(k: Poly) returns (n: nat)
    requires k != {}
    ensures n >= 32 && n in Product(GENERATOR, k)
  {
    hide Times;
    var m := MaxOf(k);
    n := m + 32;
    LowerTerms(GENERATOR[1..], k, m);
    InTimes(k, 32, n);
  }

  /** So there is only one remainder. */
  lemma RemainderUnique(p: Poly, r: Poly, t: Poly)
    requires IsRemainder(p, r) && IsRemainder(p, t)
    ensures r == t
  {
    hide Product;
    var j :| Plus(p, r) == Product(GENERATOR, j);
    var k :| Plus(p, t) == Product(GENERATOR, k);
    ProductPlus(GENERATOR, j, k);
    assert Plus(r, t) == Plus(Plus(p, r), Plus(p, t)) == Product(GENERATOR, Plus(j, k));
    if Plus(j, k) != {} {
      var n := MultipleIsHigh(Plus(j, k));
    } else {
      ProductNothing(GENERATOR);
    }
  }

  // ------------------------------------------------------------ the register

  lemma {:induction false} LowBitsSnoc(v: bv32, n: nat)
    ensures LowBits(v, n + 1) == LowBits(v, n) + [Lose(v, n) & 1 == 1]
    decreases n
  {
    if n > 0 {
      LowBitsSnoc(v >> 1, n - 1);
    }
  }

  lemma {:induction false} LoseAppend(v: bv32, m: nat, n: nat)
    ensures Lose(v, m + n) == Lose(Lose(v, m), n)
    decreases m
  {
    if m > 0 {
      LoseAppend(v >> 1, m - 1, n);
    }
  }

  lemma LoseEight(v: bv32)
    ensures Lose(v, 8) == v >> 8
  {
  }

  lemma LoseAll(v: bv32)
    ensures Lose(v, 32) == 0
  {
    hide Lose;
    LoseAppend(v, 8, 24);
    LoseAppend(v >> 8, 8, 16);
    LoseAppend((v >> 8) >> 8, 8, 8);
    LoseEight(v);
    LoseEight(v >> 8);
    LoseEight((v >> 8) >> 8);
    LoseEight(((v >> 8) >> 8) >> 8);
  }

  lemma {:induction false} BitsPolySnoc(bits: seq<bool>)
    ensures BitsPoly(bits + [false]) == Times(BitsPoly(bits), 1)
  {
    if bits == [] {
      TimesNothing(1);
      assert BitsPoly([false]) == Plus({}, BitsPoly([false][1..]));
    } else {
      assert (bits + [false])[1..] == bits[1..] + [false];
      BitsPolySnoc(bits[1..]);
      var head: Poly := if bits[0] then {|bits| - 1} else {};
      TimesPlus(head, BitsPoly(bits[1..]), 1);
      TimesOne(bits[0], |bits| - 1);
    }
  }

  lemma TimesOne(b: bool, e: nat)
    ensures Times(if b then {e} else {}, 1) == if b then {e + 1} else {}
  {
  }

  function Single(b: bool, e: nat): Poly { if b then {e} else {} }

  /** Shifting right multiplies by x and drops x^32. */
  lemma CoefsHalf(c: bv32)
    ensures Plus(Single(c & 1 == 1, 32), Coefs(c >> 1)) == Times(Coefs(c), 1)
  {
    hide Times, Plus;
    LowBitsSnoc(c, 32);
    LoseAll(c);
    BitsPolySnoc(LowBits(c, 32));
    var bits := LowBits(c, 33);
    assert bits[1..] == LowBits(c >> 1, 32);
    assert BitsPoly(bits) == Plus(Single(bits[0], 32), BitsPoly(bits[1..]));
  }

  lemma {:induction false} LowBitsXor(a: bv32, b: bv32, n: nat)
    ensures BitsPoly(LowBits(a ^ b, n)) == Plus(BitsPoly(LowBits(a, n)), BitsPoly(LowBits(b, n)))
    decreases n
  {
    hide BitsPoly, LowBits;
    if n == 0 {
      NoBits(a);
      NoBits(b);
      NoBits(a ^ b);
    } else {
      hide Plus;
      XorHalves(a, b);
      XorLow(a, b);
      LowBitsXor(a >> 1, b >> 1, n - 1);
      NextBit(a, n);
      NextBit(b, n);
      NextBit(a ^ b, n);
      var x, y := BitsPoly(LowBits(a >> 1, n - 1)), BitsPoly(LowBits(b >> 1, n - 1));
      PlusFour(Single(a & 1 == 1, n - 1), x, Single(b & 1 == 1, n - 1), y);
      SinglePlus(a & 1 == 1, b & 1 == 1, n - 1);
    }
  }

  lemma NoBits(v: bv32)
    ensures BitsPoly(LowBits(v, 0)) == {}
  {
  }

  lemma SinglePlus(a: bool, b: bool, e: nat)
    ensures Plus(Single(a, e), Single(b, e)) == Single(a != b, e)
  {
  }

  lemma XorLow(a: bv32, b: bv32)
    ensures (a ^ b) & 1 == 1 <==> (a & 1 == 1) != (b & 1 == 1)
  {
  }

  lemma NextBit(v: bv32, n: nat)
    requires n > 0
    ensures BitsPoly(LowBits(v, n)) == Plus(Single(v & 1 == 1, n - 1), BitsPoly(LowBits(v >> 1, n - 1)))
  {
    hide Plus;
    assert LowBits(v, n)[1..] == LowBits(v >> 1, n - 1);
  }

  lemma PlusFour(p: Poly, x: Poly, q: Poly, y: Poly)
    ensures Plus(Plus(p, x), Plus(q, y)) == Plus(Plus(p, q), Plus(x, y))
  {
  }

  lemma CoefsXor(a: bv32, b: bv32)
    ensures Coefs(Xor(a, b)) == Plus(Coefs(a), Coefs(b))
  {
    hide Plus, BitsPoly, LowBits;
    LowBitsXor(a, b, 32);
  }

  /** The exponents of the coefficients in the `n` low bits, the first one `top`. */
  function LowExponents(v: bv32, n: nat, top: int): seq<nat>
    requires n <= top + 1
    decreases n
  {
    if n == 0 then [] else (if v & 1 == 1 then [top] else []) + LowExponents(v >> 1, n - 1, top - 1)
  }

  function SumOf(es: seq<nat>): Poly
  {
    if es == [] then {} else Plus({es[0]}, SumOf(es[1..]))
  }

  lemma {:induction false} SumOfLow(v: bv32, n: nat)
    ensures BitsPoly(LowBits(v, n)) == SumOf(LowExponents(v, n, n - 1))
    decreases n
  {
    hide Plus;
    if n > 0 {
      var rest := LowExponents(v >> 1, n - 1, n - 2);
      SumOfLow(v >> 1, n - 1);
      NextBit(v, n);
      if v & 1 == 1 {
        assert LowExponents(v, n, n - 1)[1..] == rest;
      } else {
        assert LowExponents(v, n, n - 1) == rest;
        NothingPlus(SumOf(rest));
      }
    }
  }

  lemma NothingPlus(p: Poly)
    ensures Plus({}, p) == p && Plus(p, {}) == p
  {
  }

  lemma {:induction false} LowExponentsAppend(v: bv32, m: nat, n: nat, top: int)
    requires m + n <= top + 1
    ensures LowExponents(v, m + n, top) == LowExponents(v, m, top) + LowExponents(Lose(v, m), n, top - m)
    decreases m
  {
    if m > 0 {
      LowExponentsAppend(v >> 1, m - 1, n, top - 1);
    }
  }

  function If(b: bool, e: nat): seq<nat> { if b then [e] else [] }

  /** The exponents of four bits. */
  function Nibble(v: bv32, top: int): seq<nat>
    requires top >= 3
  {
    If(v & 1 == 1, top) + If(v & 2 == 2, top - 1) + If(v & 4 == 4, top - 2) + If(v & 8 == 8, top - 3)
  }

  lemma NextExponent(v: bv32, n: nat, top: int)
    requires 0 < n <= top + 1
    ensures LowExponents(v, n, top) == If(v & 1 == 1, top) + LowExponents(Half(v), n - 1, top - 1)
  {
  }

  lemma Chain(w: seq<nat>, a: seq<nat>, b: seq<nat>, c: seq<nat>, d: seq<nat>, rest: seq<nat>)
    requires w == a + (b + (c + (d + rest)))
    ensures w == a + b + c + d + rest
  {
  }

  lemma FourExponents(v: bv32, n: nat, top: int)
    requires n + 4 <= top + 1
    ensures LowExponents(v, n + 4, top) == Nibble(v, top) + LowExponents(v >> 4, n, top - 4)
  {
    hide LowExponents, Half, If;
    FourBits(v);
    NextExponent(v, n + 4, top);
    NextExponent(Half(v), n + 3, top - 1);
    NextExponent(Half(Half(v)), n + 2, top - 2);
    NextExponent(Half(Half(Half(v))), n + 1, top - 3);
    Chain(LowExponents(v, n + 4, top), If(v & 1 == 1, top), If(v & 2 == 2, top - 1), If(v & 4 == 4, top - 2),
          If(v & 8 == 8, top - 3), LowExponents(v >> 4, n, top - 4));
  }

  lemma FourBits(v: bv32)
    ensures Half(v) & 1 == 1 <==> v & 2 == 2
    ensures Half(Half(v)) & 1 == 1 <==> v & 4 == 4
    ensures Half(Half(Half(v))) & 1 == 1 <==> v & 8 == 8
    ensures Half(Half(Half(Half(v)))) == v >> 4
  {
  }

  lemma PolyByte1()
    ensures LowExponents(0xEDB8_8320, 8, 31) == [26]
  {
    hide LowExponents;
    TwoNibbles(0xEDB8_8320, 31);
  }

  lemma PolyByte2()
    ensures LowExponents(0xED_B883, 8, 23) == [23, 22, 16]
  {
    hide LowExponents;
    TwoNibbles(0xED_B883, 23);
  }

  lemma PolyByte3()
    ensures LowExponents(0xEDB8, 8, 15) == [12, 11, 10, 8]
  {
    hide LowExponents;
    TwoNibbles(0xEDB8, 15);
  }

  lemma PolyByte4()
    ensures LowExponents(0xED, 8, 7) == [7, 5, 4, 2, 1, 0]
  {
    hide LowExponents;
    TwoNibbles(0xED, 7);
  }

  lemma TwoNibbles(v: bv32, top: int)
    requires top >= 7
    ensures LowExponents(v, 8, top) == Nibble(v, top) + Nibble(v >> 4, top - 4)
  {
    hide LowExponents, Nibble;
    FourExponents(v, 4, top);
    FourExponents(v >> 4, 0, top - 4);
    NoExponents((v >> 4) >> 4, top - 8);
    AndNothing(Nibble(v >> 4, top - 4));
  }

  lemma AndNothing(q: seq<nat>)
    ensures q + [] == q
  {
  }

  lemma NoExponents(v: bv32, top: int)
    requires top >= -1
    ensures LowExponents(v, 0, top) == []
  {
  }

  lemma PolyExponents()
    ensures LowExponents(POLY, 32, 31) == GENERATOR[1..]
  {
    hide LowExponents, Lose;
    LowExponentsAppend(POLY, 8, 24, 31);
    LowExponentsAppend(0xED_B883, 8, 16, 23);
    LowExponentsAppend(0xEDB8, 8, 8, 15);
    LoseEight(POLY);
    LoseEight(0xED_B883);
    LoseEight(0xEDB8);
    PolyByte1();
    PolyByte2();
    PolyByte3();
    PolyByte4();
  }

  lemma {:induction false} ProductOne(es: seq<nat>)
    ensures Product(es, {0}) == SumOf(es)
  {
    hide Plus;
    if es != [] {
      assert Times({0}, es[0]) == {es[0]};
      ProductOne(es[1..]);
    }
  }

  /** The register's constant is the generator without its highest term. */
  lemma GeneratorIsPoly()
    ensures Plus({32}, Coefs(POLY)) == Product(GENERATOR, {0})
  {
    hide Plus, LowExponents, BitsPoly;
    PolyExponents();
    SumOfLow(POLY, 32);
    ProductOne(GENERATOR);
  }

  /** One step of the register multiplies by x, up to the generator. */
  lemma ShiftTimes(c: bv32)
    ensures Congruent(Coefs(Shift(c)), Times(Coefs(c), 1))
  {
    hide Coefs, Times, Product;
    CoefsHalf(c);
    if c & 1 == 1 {
      CoefsXor(c >> 1, POLY);
      GeneratorIsPoly();
      assert Plus(Coefs(Shift(c)), Times(Coefs(c), 1)) == Plus({32}, Coefs(POLY));
    } else {
      ShiftEven(c) by { LowBit(c); }
      assert Coefs(c >> 1) == Times(Coefs(c), 1);
      CongruentSame(Times(Coefs(c), 1));
    }
  }

  lemma CoefsOne()
    ensures Coefs(1) == {31}
  {
    hide LowExponents, BitsPoly;
    LowExponentsAppend(1, 1, 31, 31);
    OneExponents();
    SumOfLow(1, 32);
  }

  lemma {:induction false} ZeroExponents(n: nat, top: int)
    requires n <= top + 1
    ensures LowExponents(0, n, top) == []
    decreases n
  {
    if n > 0 {
      assert (0 as bv32) >> 1 == 0;
      ZeroExponents(n - 1, top - 1);
    }
  }

  lemma OneExponents()
    ensures LowExponents(1, 1, 31) == [31] && Lose(1, 1) == 0 && LowExponents(Lose(1, 1), 31, 30) == []
    ensures SumOf([31]) == {31}
  {
    ZeroExponents(31, 30);
    assert SumOf([31]) == Plus({31}, SumOf([31][1..]));
  }

  /** Feeding a bit adds it at x^31 and multiplies by x. */
  lemma FeedTimes(c: bv32, b: bool)
    ensures Congruent(Coefs(FeedBit(c, b)), Plus(Times(Coefs(c), 1), Single(b, 32)))
  {
    hide Coefs, Times, Product, Congruent, Shift;
    ShiftTimes(Mix(c, b));
    CoefsOne();
    CoefsXor(c, 1);
    TimesPlus(Coefs(c), {31}, 1);
    assert Times({31}, 1) == {32} by { TimesOne(true, 31); }
    NothingPlus(Times(Coefs(c), 1));
  }

  /** Feeding bits multiplies by that power of x and adds the bits times x^32. */
  lemma {:induction false} FeedRemainder(c: bv32, bits: seq<bool>)
    ensures Congruent(Coefs(FeedBits(c, bits)), Plus(Times(Coefs(c), |bits|), Times(BitsPoly(bits), 32)))
    decreases |bits|
  {
    hide Coefs, Times, Plus, Product, Congruent, FeedBit;
    if bits == [] {
      TimesZero(Coefs(c));
      TimesNothing(32);
      NothingPlus(Coefs(c));
      CongruentSame(Coefs(c));
    } else {
      var n, d, rest := |bits| - 1, FeedBit(c, bits[0]), BitsPoly(bits[1..]);
      FeedRemainder(d, bits[1..]);
      FeedTimes(c, bits[0]);
      CongruentTimes(Coefs(d), Plus(Times(Coefs(c), 1), Single(bits[0], 32)), n);
      CongruentPlus(Times(Coefs(d), n), Times(Plus(Times(Coefs(c), 1), Single(bits[0], 32)), n), Times(rest, 32));
      CongruentTrans(Coefs(FeedBits(c, bits)), Plus(Times(Coefs(d), n), Times(rest, 32)),
                     Plus(Times(Plus(Times(Coefs(c), 1), Single(bits[0], 32)), n), Times(rest, 32)));
      TimesPlus(Times(Coefs(c), 1), Single(bits[0], 32), n);
      TimesTwice(Coefs(c), 1, n);
      TimesSingle(bits[0], 32, n);
      TimesSingle(bits[0], n, 32);
      TimesPlus(Single(bits[0], n), rest, 32);
      PlusAssoc(Times(Coefs(c), n + 1), Single(bits[0], n + 32), Times(rest, 32));
    }
  }

  lemma TimesZero(p: Poly)
    ensures Times(p, 0) == p
  {
    forall n ensures n in Times(p, 0) <==> n in p {
      InTimes(p, 0, n);
    }
  }

  lemma TimesSingle(b: bool, d: nat, e: nat)
    ensures Times(Single(b, d), e) == Single(b, d + e)
  {
  }

  lemma PlusAssoc(p: Poly, q: Poly, r: Poly)
    ensures Plus(Plus(p, q), r) == Plus(p, Plus(q, r))
  {
  }

  /** The `n` low bits are all set. */
  predicate OnesFor(v: bv32, n: nat)
    decreases n
  {
    n == 0 || (v & 1 == 1 && OnesFor(v >> 1, n - 1))
  }

  lemma {:induction false} OnesExponents(v: bv32, n: nat)
    requires OnesFor(v, n)
    ensures BitsPoly(LowBits(v, n)) == AllOnes(n)
    decreases n
  {
    if n > 0 {
      NextBit(v, n);
      OnesExponents(v >> 1, n - 1);
      AllOnesBelow(n - 1);
    }
  }

  lemma OnesFour(v: bv32, n: nat)
    requires v & 0xF == 0xF && OnesFor(v >> 4, n)
    ensures OnesFor(v, n + 4)
  {
    FourBits(v);
    LowFour(v);
    hide OnesFor;
    OnesNext(Half(Half(Half(v))), n);
    OnesNext(Half(Half(v)), n + 1);
    OnesNext(Half(v), n + 2);
    OnesNext(v, n + 3);
  }

  lemma OnesNext(v: bv32, n: nat)
    requires v & 1 == 1 && OnesFor(Half(v), n)
    ensures OnesFor(v, n + 1)
  {
  }

  lemma LowFour(v: bv32)
    requires v & 0xF == 0xF
    ensures v & 1 == 1 && v & 2 == 2 && v & 4 == 4 && v & 8 == 8
  {
  }

  lemma OnesAll()
    ensures OnesFor(ONES, 32)
  {
    hide OnesFor;
    assert OnesFor(0, 0) by { OnesNone(); }
    OnesFour(0xF, 0);
    OnesFour(0xFF, 4);
    OnesFour(0xFFF, 8);
    OnesFour(0xFFFF, 12);
    OnesFour(0xF_FFFF, 16);
    OnesFour(0xFF_FFFF, 20);
    OnesFour(0xFFF_FFFF, 24);
    OnesFour(0xFFFF_FFFF, 28);
  }

  lemma OnesNone()
    ensures OnesFor(0, 0)
  {
  }

  lemma {:induction false} AllOnesBelow(n: nat)
    ensures n !in AllOnes(n) && forall j :: j in AllOnes(n) ==> j < n
  {
    if n > 0 {
      AllOnesBelow(n - 1);
    }
  }

  // -------------------------------------------------------------- the standard

  /** The checksum is the frame check sequence of V.42: its complement is the remainder,
      modulo the generator, of x^k (x^31 + ... + 1) plus x^32 times the message, for a
      message of `k` bits. */
  lemma FrameCheckSequence(m: seq<bv8>)
    ensures IsRemainder(Plus(Times(AllOnes(32), 8 * |m|), Times(BitsPoly(MessageBits(m)), 32)),
                        Plus(Coefs(Crc32(m)), AllOnes(32)))
  {
    hide Coefs, Times, Congruent, FeedBits, MessageBits, Xor, AllOnes;
    var register := FeedBits(ONES, MessageBits(m));
    FeedRemainder(ONES, MessageBits(m));
    assert Coefs(ONES) == AllOnes(32) by { CoefsOnes(); }
    CoefsXor(register, ONES);
    assert Plus(Coefs(Crc32(m)), AllOnes(32)) == Coefs(register);
    CongruentSwap(Coefs(register), Plus(Times(AllOnes(32), 8 * |m|), Times(BitsPoly(MessageBits(m)), 32)));
    CoefsBelow(register);
  }

  lemma CoefsOnes()
    ensures Coefs(ONES) == AllOnes(32)
  {
    OnesAll();
    OnesExponents(ONES, 32);
  }

  lemma CongruentSwap(p: Poly, q: Poly)
    requires Congruent(p, q)
    ensures Congruent(q, p)
  {
    hide Product;
    var k :| Plus(p, q) == Product(GENERATOR, k);
    assert Plus(q, p) == Product(GENERATOR, k);
  }

  lemma {:induction false} BitsPolyBelow(bits: seq<bool>)
    ensures forall e :: e in BitsPoly(bits) ==> e < |bits|
  {
    if bits != [] {
      BitsPolyBelow(bits[1..]);
    }
  }

  lemma CoefsBelow(c: bv32)
    ensures forall e :: e in Coefs(c) ==> e < 32
  {
    BitsPolyBelow(LowBits(c, 32));
  }
}
