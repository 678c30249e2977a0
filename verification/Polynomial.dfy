/** Which checksum it is: the register is the remainder of a division of polynomials over the field of two
    elements by the generator of IEEE Std 802.3, clause 3.2.9. */
module Polynomial {
  import opened Basics
  import opened Crc

  /** A polynomial is the set of its exponents, so addition is the symmetric difference. */
  type Poly = set<nat>

  const GENERATOR: Poly := {32, 26, 23, 22, 16, 12, 11, 10, 8, 7, 5, 4, 2, 1, 0}

  function Add(a: Poly, b: Poly): Poly { (a - b) + (b - a) }

  function TimesX(a: Poly): Poly { set k: nat | k in a :: k + 1 }

  lemma TimesXMember(a: Poly, k: nat)
    ensures k in TimesX(a) <==> k > 0 && k - 1 in a
  {
    if k > 0 && k - 1 in a {
      assert (k - 1) + 1 in TimesX(a);
    }
  }

  function TimesXTo(a: Poly, n: nat): Poly
    decreases n
  {
    if n == 0 then a else TimesX(TimesXTo(a, n - 1))
  }

  /** The product of the generator and a polynomial given by its coefficients, highest first. */
  function Multiple(q: seq<bool>): Poly
    decreases |q|
  {
    if q == [] then {}
    else
      var before := TimesX(Multiple(q[..|q| - 1]));
      if q[|q| - 1] then Add(before, GENERATOR) else before
  }

  /** The difference is a multiple of the generator. */
  ghost predicate Congruent(a: Poly, b: Poly) { exists q :: Add(a, b) == Multiple(q) }

  predicate Short(a: Poly) { forall k :: k in a ==> k < 32 }

  // ---- registers and messages as polynomials -------------------------------------------------

  /** The register is held in reverse: its low bit is the coefficient of x to the 31. */
  predicate Coefficient(c: bv32, k: nat) { k < 32 && !Even(Shr(c, 31 - k)) }

  function OfRegister(c: bv32): (r: Poly)
    ensures Short(r)
  {
    set k: nat | k < 32 && Coefficient(c, k)
  }

  /** A byte is sent low bit first. */
  function OfByte(d: byte): Poly { set k: nat | k < 8 && ByteCoefficient(d, k) }

  predicate ByteCoefficient(d: byte, k: nat) { k < 8 && !Even(Shr(Wide(d), 7 - k)) }

  function OfMessage(data: seq<byte>): Poly
    decreases |data|
  {
    if data == [] then {} else Add(TimesXTo(OfMessage(data[..|data| - 1]), 8), OfByte(data[|data| - 1]))
  }

  // ---- arithmetic of polynomials -------------------------------------------------------------

  lemma AddAssoc(a: Poly, b: Poly, c: Poly)
    ensures Add(a, Add(b, c)) == Add(Add(a, b), c)
  {}

  lemma AddSwap(a: Poly, b: Poly, c: Poly, d: Poly)
    ensures Add(Add(a, b), Add(c, d)) == Add(Add(a, c), Add(b, d))
  {}

  lemma TimesXAdd(a: Poly, b: Poly)
    ensures TimesX(Add(a, b)) == Add(TimesX(a), TimesX(b))
  {
    forall k: nat
      ensures k in TimesX(Add(a, b)) <==> k in Add(TimesX(a), TimesX(b))
    {
      TimesXMember(Add(a, b), k);
      TimesXMember(a, k);
      TimesXMember(b, k);
    }
    hide TimesX, Add;
  }

  lemma {:induction false} TimesXToAdd(a: Poly, b: Poly, n: nat)
    ensures TimesXTo(Add(a, b), n) == Add(TimesXTo(a, n), TimesXTo(b, n))
    decreases n
  {
    if n > 0 {
      TimesXToAdd(a, b, n - 1);
      TimesXAdd(TimesXTo(a, n - 1), TimesXTo(b, n - 1));
    }
  }

  lemma {:induction false} TimesXToTwice(a: Poly, m: nat, n: nat)
    ensures TimesXTo(TimesXTo(a, m), n) == TimesXTo(a, m + n)
    decreases n
  {
    if n > 0 {
      TimesXToTwice(a, m, n - 1);
    }
  }

  lemma {:induction false} TimesXToMember(a: Poly, n: nat, k: nat)
    ensures k in TimesXTo(a, n) <==> k >= n && k - n in a
    decreases n
  {
    if n > 0 {
      TimesXMember(TimesXTo(a, n - 1), k);
      if k > 0 {
        TimesXToMember(a, n - 1, k - 1);
      }
    }
  }

  // ---- multiples of the generator ------------------------------------------------------------

  lemma MultipleTimesX(q: seq<bool>)
    ensures Multiple(q + [false]) == TimesX(Multiple(q))
  {
    assert (q + [false])[..|q|] == q;
  }

  lemma {:induction false} LeadingZeros(q: seq<bool>, n: nat)
    ensures Multiple(seq(n, _ => false) + q) == Multiple(q)
    decreases |q| + n
  {
    var z := seq(n, _ => false);
    if q == [] {
      assert z + q == z;
      if n > 0 {
        assert z[..n - 1] == seq(n - 1, _ => false) + q;
        LeadingZeros(q, n - 1);
      }
    } else {
      assert (z + q)[..n + |q| - 1] == z + q[..|q| - 1];
      LeadingZeros(q[..|q| - 1], n);
    }
  }

  function Toggled(q: seq<bool>, r: seq<bool>): (s: seq<bool>)
    requires |q| == |r|
    ensures |s| == |q|
  {
    seq(|q|, i requires 0 <= i < |q| => q[i] != r[i])
  }

  lemma {:induction false} MultipleAdd(q: seq<bool>, r: seq<bool>)
    requires |q| == |r|
    ensures Multiple(Toggled(q, r)) == Add(Multiple(q), Multiple(r))
    decreases |q|
  {
    if q != [] {
      var n := |q| - 1;
      MultipleAdd(q[..n], r[..n]);
      assert Toggled(q, r)[..n] == Toggled(q[..n], r[..n]);
      TimesXAdd(Multiple(q[..n]), Multiple(r[..n]));
      assert Toggled(q, r)[n] == (q[n] != r[n]);
    }
  }

  lemma SumOfMultiples(a: Poly, b: Poly)
    requires (exists q :: a == Multiple(q)) && (exists q :: b == Multiple(q))
    ensures exists q :: Add(a, b) == Multiple(q)
  {
    var q :| a == Multiple(q);
    var r :| b == Multiple(r);
    hide Multiple;
    if |q| <= |r| {
      SumAligned(q, r);
    } else {
      SumAligned(r, q);
      AddCommutes(a, b);
    }
  }

  lemma AddCommutes(a: Poly, b: Poly)
    ensures Add(a, b) == Add(b, a)
  {}

  lemma SumAligned(q: seq<bool>, r: seq<bool>)
    requires |q| <= |r|
    ensures exists s :: Add(Multiple(q), Multiple(r)) == Multiple(s)
  {
    LeadingZeros(q, |r| - |q|);
    MultipleAdd(seq(|r| - |q|, _ => false) + q, r);
    hide Multiple, Add, Toggled;
  }

  lemma CongruentSame(a: Poly)
    ensures Congruent(a, a)
  {
    assert Add(a, a) == Multiple([]);
  }

  lemma CongruentThrough(a: Poly, b: Poly, c: Poly)
    requires Congruent(a, b) && Congruent(b, c)
    ensures Congruent(a, c)
  {
    SumOfMultiples(Add(a, b), Add(b, c));
    assert Add(Add(a, b), Add(b, c)) == Add(a, c);
  }

  lemma CongruentAdd(a: Poly, b: Poly, c: Poly)
    requires Congruent(a, b)
    ensures Congruent(Add(a, c), Add(b, c))
  {
    var q :| Add(a, b) == Multiple(q);
    assert Add(Add(a, c), Add(b, c)) == Add(a, b);
  }

  lemma CongruentTimesX(a: Poly, b: Poly)
    requires Congruent(a, b)
    ensures Congruent(TimesX(a), TimesX(b))
  {
    var q :| Add(a, b) == Multiple(q);
    TimesXAdd(a, b);
    MultipleTimesX(q);
  }

  lemma {:induction false} CongruentTimesXTo(a: Poly, b: Poly, n: nat)
    requires Congruent(a, b)
    ensures Congruent(TimesXTo(a, n), TimesXTo(b, n))
    decreases n
  {
    hide Congruent;
    if n > 0 {
      CongruentTimesXTo(a, b, n - 1);
      CongruentTimesX(TimesXTo(a, n - 1), TimesXTo(b, n - 1));
    }
  }

  predicate Top(a: Poly, k: nat) { k in a && k >= 32 && forall m :: m in a ==> m <= k }

  /** A multiple is zero or of degree 32 at least. */
  lemma {:induction false} MultipleIsLong(q: seq<bool>)
    ensures Multiple(q) == {} || exists k: nat :: Top(Multiple(q), k)
    decreases |q|
  {
    if q != [] {
      var n := |q| - 1;
      MultipleIsLong(q[..n]);
      if Multiple(q[..n]) == {} {
        assert TimesX(Multiple(q[..n])) == {};
        assert q[n] ==> Top(Multiple(q), 32);
      } else {
        var k: nat :| Top(Multiple(q[..n]), k);
        Raised(Multiple(q[..n]), k);
        hide TimesX, Top, Add;
        assert Top(Multiple(q), k + 1);
      }
    }
  }

  lemma Raised(a: Poly, k: nat)
    requires Top(a, k)
    ensures Top(TimesX(a), k + 1) && Top(Add(TimesX(a), GENERATOR), k + 1)
  {
    TimesXMember(a, k + 1);
    forall m: nat | m in TimesX(a)
      ensures m <= k + 1
    {
      TimesXMember(a, m);
    }
    hide TimesX;
  }

  /** So a remainder below degree 32 is unique. */
  lemma RemainderUnique(a: Poly, b: Poly)
    requires Short(a) && Short(b) && Congruent(a, b)
    ensures a == b
  {
    var q :| Add(a, b) == Multiple(q);
    MultipleIsLong(q);
    hide Multiple;
    assert forall k: nat :: !Top(Add(a, b), k);
    forall k: nat
      ensures k in a <==> k in b
    {
      assert k !in Add(a, b);
    }
  }

  // ---- one turn of the inner loop ------------------------------------------------------------

  lemma DownXor(a: bv32, b: bv32)
    ensures Down(Xor(a, b)) == Xor(Down(a), Down(b))
  {}

  lemma EvenXor(a: bv32, b: bv32)
    ensures Even(Xor(a, b)) <==> (Even(a) <==> Even(b))
  {
    LowBit(a);
    LowBit(b);
    LowBit(Xor(a, b));
    assert (a ^ b) & 1 == (a & 1) ^ (b & 1);
  }

  lemma {:induction false} ShrXor(a: bv32, b: bv32, n: nat)
    ensures Shr(Xor(a, b), n) == Xor(Shr(a, n), Shr(b, n))
    decreases n
  {
    hide Xor, Down;
    if n > 0 {
      ShrXor(a, b, n - 1);
      DownXor(Shr(a, n - 1), Shr(b, n - 1));
    }
  }

  lemma CoefficientXor(a: bv32, b: bv32, k: nat)
    ensures Coefficient(Xor(a, b), k) <==> (Coefficient(a, k) != Coefficient(b, k))
  {
    hide Xor, Even, Shr;
    if k < 32 {
      ShrXor(a, b, 31 - k);
      EvenXor(Shr(a, 31 - k), Shr(b, 31 - k));
    }
  }

  lemma XorAdds(a: bv32, b: bv32)
    ensures OfRegister(Xor(a, b)) == Add(OfRegister(a), OfRegister(b))
  {
    hide Xor, Coefficient;
    forall k: nat | k < 32
      ensures Coefficient(Xor(a, b), k) <==> (Coefficient(a, k) != Coefficient(b, k))
    {
      CoefficientXor(a, b, k);
    }
  }

  lemma {:induction false} ShrDown(c: bv32, n: nat)
    ensures Shr(Down(c), n) == Shr(c, n + 1)
    decreases n
  {
    hide Down;
    if n > 0 {
      ShrDown(c, n - 1);
    } else {
      assert Shr(c, 0) == c;
    }
  }

  predicate AtMost(a: bv32, b: bv32) { a <= b }

  lemma DownMonotone(a: bv32, b: bv32)
    requires AtMost(a, b)
    ensures AtMost(Down(a), Down(b))
  {}

  lemma {:induction false} ShrMonotone(a: bv32, b: bv32, n: nat)
    requires AtMost(a, b)
    ensures AtMost(Shr(a, n), Shr(b, n))
    decreases n
  {
    hide Down, AtMost;
    if n > 0 {
      ShrMonotone(a, b, n - 1);
      DownMonotone(Shr(a, n - 1), Shr(b, n - 1));
    }
  }

  /** A register has no bits beyond the 32nd, a byte none beyond the eighth. */
  lemma ShrEnds(c: bv32, d: byte)
    ensures Shr(c, 32) == 0 && Shr(Wide(d), 8) == 0
  {
    hide AtMost;
    AtMostAll(c, d);
    ShrMonotone(c, ONES, 32);
    ShrMonotone(Wide(d), 0xFF, 8);
    ShiftsOfOnes();
    AtMostNothing(Shr(c, 32));
    AtMostNothing(Shr(Wide(d), 8));
  }

  lemma AtMostAll(c: bv32, d: byte)
    ensures AtMost(c, ONES) && AtMost(Wide(d), 0xFF)
  {}

  lemma AtMostNothing(a: bv32)
    ensures AtMost(a, 0) ==> a == 0
  {}

  lemma ShiftsOfOnes()
    ensures Shr(ONES, 32) == 0 && Shr(0xFF, 8) == 0
  {
    assert Shr(ONES, 8) == 0x00FFFFFF;
    assert Shr(ONES, 16) == 0x0000FFFF;
    assert Shr(ONES, 24) == 0x000000FF;
  }

  lemma {:induction false} ShrNothing(n: nat)
    ensures Shr(0, n) == 0
    decreases n
  {
    if n > 0 {
      ShrNothing(n - 1);
    }
  }

  lemma {:induction false} ShrAdd(c: bv32, m: nat, n: nat)
    ensures Shr(c, m + n) == Shr(Shr(c, m), n)
    decreases n
  {
    hide Down;
    if n > 0 {
      ShrAdd(c, m, n - 1);
    }
  }

  /** The constant of the program is the generator without its leading term. */
  lemma PolyIsGenerator(k: nat)
    requires k < 32
    ensures Coefficient(POLY, k) <==> k in GENERATOR
  {
    assert !Even(Shr(POLY, 31)) && !Even(Shr(POLY, 30)) && !Even(Shr(POLY, 29)) && Even(Shr(POLY, 28));
    assert !Even(Shr(POLY, 27)) && !Even(Shr(POLY, 26)) && Even(Shr(POLY, 25)) && !Even(Shr(POLY, 24));
    assert !Even(Shr(POLY, 23)) && Even(Shr(POLY, 22)) && !Even(Shr(POLY, 21)) && !Even(Shr(POLY, 20));
    assert !Even(Shr(POLY, 19)) && Even(Shr(POLY, 18)) && Even(Shr(POLY, 17)) && Even(Shr(POLY, 16));
    assert !Even(Shr(POLY, 15)) && Even(Shr(POLY, 14)) && Even(Shr(POLY, 13)) && Even(Shr(POLY, 12));
    assert Even(Shr(POLY, 11)) && Even(Shr(POLY, 10)) && !Even(Shr(POLY, 9)) && !Even(Shr(POLY, 8));
    assert Even(Shr(POLY, 7)) && Even(Shr(POLY, 6)) && !Even(Shr(POLY, 5)) && Even(Shr(POLY, 4));
    assert Even(Shr(POLY, 3)) && Even(Shr(POLY, 2)) && Even(Shr(POLY, 1)) && Even(Shr(POLY, 0));
  }

  function Reduced(a: Poly): Poly { if 32 in a then Add(a, GENERATOR) else a }

  lemma ReducedCongruent(a: Poly)
    ensures Congruent(Reduced(a), a)
  {
    if 32 in a {
      assert [true][..0] == [];
      assert Multiple([true]) == Add(TimesX(Multiple([])), GENERATOR);
      assert TimesX(Multiple([])) == {};
      assert Add(Reduced(a), a) == Multiple([true]);
    } else {
      CongruentSame(a);
    }
  }

  /** One turn of the inner loop multiplies by x and reduces. */
  lemma BitMultiplies(c: bv32)
    ensures OfRegister(Bit(c)) == Reduced(TimesX(OfRegister(c)))
  {
    hide Bit, Xor, Down, Even, Shr, Coefficient, TimesX;
    TimesXMember(OfRegister(c), 32);
    assert 32 in TimesX(OfRegister(c)) <==> Coefficient(c, 31);
    LowIsTop(c);
    forall k: nat | k < 32
      ensures Coefficient(Bit(c), k) <==> k in Reduced(TimesX(OfRegister(c)))
    {
      TimesXMember(OfRegister(c), k);
      DownCoefficient(c, k);
      PolyIsGenerator(k);
      CoefficientXor(Down(c), POLY, k);
      if Even(c) {
        BitEven(c);
      } else {
        BitOdd(c);
      }
    }
    forall k: nat | k >= 32
      ensures k !in Reduced(TimesX(OfRegister(c)))
    {
      TimesXMember(OfRegister(c), k);
    }
  }

  lemma LowIsTop(c: bv32)
    ensures Coefficient(c, 31) <==> !Even(c)
  {
    assert Shr(c, 0) == c;
  }

  lemma DownCoefficient(c: bv32, k: nat)
    requires k < 32
    ensures Coefficient(Down(c), k) <==> k > 0 && Coefficient(c, k - 1)
  {
    hide Down, Shr;
    ShrDown(c, 31 - k);
    ShrEnds(c, 0);
    assert Even(0);
  }

  lemma {:induction false} BitsMultiply(c: bv32, n: nat)
    ensures Congruent(OfRegister(Bits(c, n)), TimesXTo(OfRegister(c), n))
    decreases n
  {
    hide Bit, Congruent, OfRegister, TimesX, Reduced;
    if n == 0 {
      CongruentSame(OfRegister(c));
    } else {
      var r := Bits(c, n - 1);
      BitsMultiply(c, n - 1);
      BitMultiplies(r);
      ReducedCongruent(TimesX(OfRegister(r)));
      CongruentTimesX(OfRegister(r), TimesXTo(OfRegister(c), n - 1));
      CongruentThrough(OfRegister(Bits(c, n)), TimesX(OfRegister(r)), TimesXTo(OfRegister(c), n));
    }
  }

  /** A byte enters the register 24 places up. */
  lemma ByteEnters(d: byte)
    ensures OfRegister(Wide(d)) == TimesXTo(OfByte(d), 24)
  {
    hide Wide, Shr, Even, TimesXTo;
    forall k: nat
      ensures k in OfRegister(Wide(d)) <==> k in TimesXTo(OfByte(d), 24)
    {
      TimesXToMember(OfByte(d), 24, k);
      if k < 24 {
        ShrAdd(Wide(d), 8, 23 - k);
        ShrEnds(0, d);
        ShrNothing(23 - k);
        EvenNothing();
      }
    }
  }

  lemma EvenNothing()
    ensures Even(0)
  {}

  lemma ByteDivides(c: bv32, d: byte)
    ensures Congruent(OfRegister(Byte(c, d)), Add(TimesXTo(OfRegister(c), 8), TimesXTo(OfByte(d), 32)))
  {
    hide Bits, Xor, Wide, OfRegister, OfByte, TimesXTo, Congruent, Add;
    BitsMultiply(Xor(c, Wide(d)), 8);
    XorAdds(c, Wide(d));
    ByteEnters(d);
    TimesXToAdd(OfRegister(c), OfRegister(Wide(d)), 8);
    TimesXToTwice(OfByte(d), 24, 8);
  }

  /** What is divided: the start value and then the message, with room for the remainder. */
  function Dividend(c: bv32, data: seq<byte>): Poly {
    Add(TimesXTo(OfRegister(c), 8 * |data|), TimesXTo(OfMessage(data), 32))
  }

  /** The register after any message is congruent to it, modulo the generator. */
  lemma {:induction false} FeedDivides(c: bv32, data: seq<byte>)
    ensures Congruent(OfRegister(Feed(c, data)), Dividend(c, data))
    decreases |data|
  {
    hide OfRegister, OfByte, TimesXTo, Congruent, Add, Byte;
    if data == [] {
      DividendNothing(c);
      CongruentSame(OfRegister(c));
    } else {
      var init, d := data[..|data| - 1], data[|data| - 1];
      var r := Feed(c, init);
      assert data == init + [d];
      FeedConcat(c, init, [d]);
      FeedOne(r, d);
      FeedDivides(c, init);
      ByteDivides(r, d);
      CongruentTimesXTo(OfRegister(r), Dividend(c, init), 8);
      CongruentAdd(TimesXTo(OfRegister(r), 8), TimesXTo(Dividend(c, init), 8), TimesXTo(OfByte(d), 32));
      DividendGrows(c, init, d);
      CongruentThrough(OfRegister(Feed(c, data)), Add(TimesXTo(OfRegister(r), 8), TimesXTo(OfByte(d), 32)), Dividend(c, data));
    }
  }

  lemma DividendNothing(c: bv32)
    ensures Dividend(c, []) == OfRegister(c)
  {
    hide OfRegister;
    assert TimesXTo({}, 32) == {} by {
      forall k: nat
        ensures k !in TimesXTo({}, 32)
      {
        TimesXToMember({}, 32, k);
      }
    }
    assert TimesXTo(OfRegister(c), 0) == OfRegister(c);
  }

  lemma DividendGrows(c: bv32, init: seq<byte>, d: byte)
    ensures Dividend(c, init + [d]) == Add(TimesXTo(Dividend(c, init), 8), TimesXTo(OfByte(d), 32))
  {
    hide OfRegister, OfByte, TimesXTo, Add;
    var start, sent := OfRegister(c), OfMessage(init);
    assert (init + [d])[..|init|] == init;
    TimesXToAdd(TimesXTo(start, 8 * |init|), TimesXTo(sent, 32), 8);
    TimesXToTwice(start, 8 * |init|, 8);
    TimesXToTwice(sent, 32, 8);
    TimesXToTwice(sent, 8, 32);
    TimesXToAdd(TimesXTo(sent, 8), OfByte(d), 32);
    AddAssoc(TimesXTo(start, 8 * |init| + 8), TimesXTo(sent, 40), TimesXTo(OfByte(d), 32));
  }

  /** All coefficients below degree 32 complemented. */
  function Complemented(a: Poly): Poly { set k: nat | k < 32 && k !in a }

  /** The checksum of the standard: it is the complement of the remainder, on division by the generator, of the
      message with its first 32 bits complemented.  The remainder is the only polynomial below degree 32 that
      differs from what is divided by a multiple of the generator. */
  lemma ChecksumIsRemainder(data: seq<byte>, r: Poly)
    requires Short(r)
    ensures Congruent(r, Dividend(ONES, data)) <==> OfRegister(Checksum(data)) == Complemented(r)
  {
    hide OfRegister, Congruent, Dividend, Add, Feed, Complemented;
    var feed := OfRegister(Feed(ONES, data));
    FeedDivides(ONES, data);
    XorAdds(Feed(ONES, data), ONES);
    if Congruent(r, Dividend(ONES, data)) {
      CongruentBack(feed, Dividend(ONES, data));
      CongruentThrough(r, Dividend(ONES, data), feed);
      RemainderUnique(r, feed);
    }
    AddingOnes(feed);
    ComplementedTwice(feed);
    ComplementedTwice(r);
  }

  lemma ComplementedTwice(a: Poly)
    requires Short(a)
    ensures Complemented(Complemented(a)) == a
  {}

  lemma AddingOnes(a: Poly)
    requires Short(a)
    ensures Add(a, OfRegister(ONES)) == Complemented(a)
  {
    hide OfRegister;
    OnesIsAll();
  }

  lemma CongruentBack(a: Poly, b: Poly)
    requires Congruent(a, b)
    ensures Congruent(b, a)
  {
    AddCommutes(a, b);
  }

  lemma OnesIsAll()
    ensures forall k: nat :: k in OfRegister(ONES) <==> k < 32
  {
    forall k: nat | k < 32
      ensures Coefficient(ONES, k)
    {
      OnesOdd(31 - k);
    }
    hide Coefficient;
  }

  lemma OnesOdd(n: nat)
    requires n < 32
    ensures !Even(Shr(ONES, n))
  {
    assert !Even(Shr(ONES, 0)) && !Even(Shr(ONES, 1)) && !Even(Shr(ONES, 2)) && !Even(Shr(ONES, 3));
    assert !Even(Shr(ONES, 4)) && !Even(Shr(ONES, 5)) && !Even(Shr(ONES, 6)) && !Even(Shr(ONES, 7));
    assert !Even(Shr(ONES, 8)) && !Even(Shr(ONES, 9)) && !Even(Shr(ONES, 10)) && !Even(Shr(ONES, 11));
    assert !Even(Shr(ONES, 12)) && !Even(Shr(ONES, 13)) && !Even(Shr(ONES, 14)) && !Even(Shr(ONES, 15));
    assert !Even(Shr(ONES, 16)) && !Even(Shr(ONES, 17)) && !Even(Shr(ONES, 18)) && !Even(Shr(ONES, 19));
    assert !Even(Shr(ONES, 20)) && !Even(Shr(ONES, 21)) && !Even(Shr(ONES, 22)) && !Even(Shr(ONES, 23));
    assert !Even(Shr(ONES, 24)) && !Even(Shr(ONES, 25)) && !Even(Shr(ONES, 26)) && !Even(Shr(ONES, 27));
    assert !Even(Shr(ONES, 28)) && !Even(Shr(ONES, 29)) && !Even(Shr(ONES, 30)) && !Even(Shr(ONES, 31));
  }
}
