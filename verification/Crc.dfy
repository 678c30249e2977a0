/** The CRC-32 of the on-disk and on-wire containers (IEEE Std 802.3, clause 3.2.9), bit by bit.

    The two facts everything else rests on: a run of n bit steps is injective in the register, and
    feeding four bytes equals XOR-ing them into the register as one little-endian word and then
    running 32 bit steps.  Together they say that no change confined to four consecutive bytes can
    leave the checksum unchanged. */
module Crc {
  import opened Basics

  const POLY: bv32 := 0xEDB88320
  const ONES: bv32 := 0xFFFFFFFF

  // The register operations have names of their own so that the inductive proofs below can treat
  // them as uninterpreted symbols.
  function Xor(a: bv32, b: bv32): bv32 { a ^ b }
  function Down(d: bv32): bv32 { d >> 1 }
  function Up8(d: bv32): bv32 { d << 8 }
  function Wide(d: byte): bv32 { d as bv32 }
  predicate Even(a: bv32) { a & 1 == 0 }

  /** One turn of the inner loop. */
  function Bit(c: bv32): bv32 {
    (c >> 1) ^ (POLY & (0 - (c & 1)))
  }

  function Bits(c: bv32, n: nat): bv32
    decreases n
  {
    if n == 0 then c else Bit(Bits(c, n - 1))
  }

  function Byte(c: bv32, d: byte): bv32 {
    Bits(Xor(c, Wide(d)), 8)
  }

  function Feed(c: bv32, data: seq<byte>): bv32
    decreases |data|
  {
    if data == [] then c else Feed(Byte(c, data[0]), data[1..])
  }

  function Checksum(data: seq<byte>): bv32 {
    Xor(Feed(ONES, data), ONES)
  }

  /** The inner loop of `crc32_update`. */
  method UpdateByte(crc: bv32, d: byte) returns (r: bv32)
    ensures r == Byte(crc, d)
  {
    r := crc ^ (d as bv32);
    var n: nat := 8;
    ghost var start := r;
    for k := 0 to n
      invariant r == Bits(start, k)
    {
      r := Bit(r);
    }
  }

  /** The outer loop of `crc32_update`. */
  method Update(crc: bv32, data: seq<byte>) returns (r: bv32)
    ensures r == Feed(crc, data)
  {
    hide Byte;
    r := crc;
    for i := 0 to |data|
      invariant r == Feed(crc, data[..i])
    {
      FeedConcat(crc, data[..i], [data[i]]);
      assert data[..i + 1] == data[..i] + [data[i]];
      FeedOne(r, data[i]);
      r := UpdateByte(r, data[i]);
    }
    assert data[..|data|] == data;
  }

  method Compute(data: seq<byte>) returns (r: bv32)
    ensures r == Checksum(data)
  {
    hide Feed;
    r := Update(ONES, data);
    r := r ^ ONES;
  }

  lemma {:induction false} FeedConcat(c: bv32, a: seq<byte>, b: seq<byte>)
    ensures Feed(c, a + b) == Feed(Feed(c, a), b)
    decreases |a|
  {
    hide Byte;
    if a == [] {
      assert a + b == b;
    } else {
      assert (a + b)[1..] == a[1..] + b;
      FeedConcat(Byte(c, a[0]), a[1..], b);
    }
  }

  lemma FeedOne(c: bv32, d: byte)
    ensures Feed(c, [d]) == Byte(c, d)
  {
    hide Byte;
    assert [d][1..] == [];
    assert Feed(Byte(c, d), []) == Byte(c, d);
  }

  // ---- injectivity of the register update ------------------------------------------------

  lemma BitInjective(a: bv32, b: bv32)
    requires Bit(a) == Bit(b)
    ensures a == b
  {}

  lemma {:induction false} BitsInjective(a: bv32, b: bv32, n: nat)
    requires Bits(a, n) == Bits(b, n)
    ensures a == b
    decreases n
  {
    hide Bit;
    if n > 0 {
      BitInjective(Bits(a, n - 1), Bits(b, n - 1));
      BitsInjective(a, b, n - 1);
    }
  }

  lemma XorCancel(c: bv32, d: bv32, e: bv32)
    requires Xor(c, d) == Xor(c, e) || Xor(d, c) == Xor(e, c)
    ensures d == e
  {}

  lemma WideInjective(d: byte, e: byte)
    requires Wide(d) == Wide(e)
    ensures d == e
  {}

  /** A byte step is injective in the register and in the data byte. */
  lemma ByteInjective(a: bv32, b: bv32, d: byte, e: byte)
    requires Byte(a, d) == Byte(b, e)
    ensures a == b <==> d == e
  {
    hide Bits, Xor, Wide;
    BitsInjective(Xor(a, Wide(d)), Xor(b, Wide(e)), 8);
    if a == b {
      XorCancel(a, Wide(d), Wide(e));
      WideInjective(d, e);
    }
    if d == e {
      XorCancel(Wide(d), a, b);
    }
  }

  lemma {:induction false} FeedInjective(a: bv32, b: bv32, data: seq<byte>)
    requires Feed(a, data) == Feed(b, data)
    ensures a == b
    decreases |data|
  {
    hide Byte;
    if data != [] {
      FeedInjective(Byte(a, data[0]), Byte(b, data[0]), data[1..]);
      ByteInjective(a, b, data[0], data[0]);
    }
  }

  // ---- four bytes are one word -----------------------------------------------------------

  function Shr(d: bv32, n: nat): bv32
    decreases n
  {
    if n == 0 then d else Down(Shr(d, n - 1))
  }

  predicate LowClear(d: bv32, n: nat)
    decreases n
  {
    n == 0 || (LowClear(d, n - 1) && Even(Shr(d, n - 1)))
  }

  lemma BitEven(c: bv32)
    requires Even(c)
    ensures Bit(c) == Down(c)
  {}

  lemma BitOdd(c: bv32)
    requires !Even(c)
    ensures Bit(c) == Xor(Down(c), POLY)
  {
    LowBit(c);
    assert 0 - (c & 1) == ONES;
    assert POLY & ONES == POLY;
  }

  lemma LowBit(a: bv32)
    ensures a & 1 == 0 || a & 1 == 1
  {}

  lemma XorDown(a: bv32, b: bv32)
    requires Even(b)
    ensures Down(Xor(a, b)) == Xor(Down(a), Down(b))
    ensures Even(Xor(a, b)) <==> Even(a)
  {}

  lemma XorSwap(a: bv32, b: bv32, c: bv32)
    ensures Xor(Xor(a, b), c) == Xor(Xor(a, c), b)
  {
    XorAssoc(a, b, c);
    XorAssoc(a, c, b);
    assert Xor(b, c) == Xor(c, b);
    hide Xor;
  }

  lemma BitXorEven(a: bv32, b: bv32)
    requires Even(b)
    ensures Bit(Xor(a, b)) == Xor(Bit(a), Down(b))
  {
    hide Bit, Xor, Even, Down;
    XorDown(a, b);
    if Even(a) {
      BitEven(a);
      BitEven(Xor(a, b));
    } else {
      BitOdd(a);
      BitOdd(Xor(a, b));
      XorSwap(Down(a), Down(b), POLY);
    }
  }

  /** Bits that have not yet reached the low end only move down. */
  lemma {:induction false} BitsXor(a: bv32, b: bv32, n: nat)
    requires LowClear(b, n)
    ensures Bits(Xor(a, b), n) == Xor(Bits(a, n), Shr(b, n))
    decreases n
  {
    hide Bit, Xor, Even, Down;
    if n > 0 {
      BitsXor(a, b, n - 1);
      BitXorEven(Bits(a, n - 1), Shr(b, n - 1));
    } else {
      assert Shr(b, n) == b;
    }
  }

  lemma {:induction false} BitsAdd(c: bv32, m: nat, n: nat)
    ensures Bits(c, m + n) == Bits(Bits(c, m), n)
    decreases n
  {
    hide Bit;
    if n > 0 {
      BitsAdd(c, m, n - 1);
    }
  }

  /** A word of 24 bits, moved up by n, is even and moves down to where n - 1 would have put it. */
  lemma Half8(w: bv32)
    requires w <= 0x00FFFFFF
    ensures Even(w << 8) && Down(w << 8) == w << 7
  {}

  lemma Half7(w: bv32)
    requires w <= 0x00FFFFFF
    ensures Even(w << 7) && Down(w << 7) == w << 6
  {}

  lemma Half6(w: bv32)
    requires w <= 0x00FFFFFF
    ensures Even(w << 6) && Down(w << 6) == w << 5
  {}

  lemma Half5(w: bv32)
    requires w <= 0x00FFFFFF
    ensures Even(w << 5) && Down(w << 5) == w << 4
  {}

  lemma Half4(w: bv32)
    requires w <= 0x00FFFFFF
    ensures Even(w << 4) && Down(w << 4) == w << 3
  {}

  lemma Half3(w: bv32)
    requires w <= 0x00FFFFFF
    ensures Even(w << 3) && Down(w << 3) == w << 2
  {}

  lemma Half2(w: bv32)
    requires w <= 0x00FFFFFF
    ensures Even(w << 2) && Down(w << 2) == w << 1
  {}

  lemma Half1(w: bv32)
    requires w <= 0x00FFFFFF
    ensures Even(w << 1) && Down(w << 1) == w
  {}

  lemma ShiftedWord(w: bv32)
    requires w <= 0x00FFFFFF
    ensures LowClear(Up8(w), 8) && Shr(Up8(w), 8) == w
  {
    hide Even, Down;
    Half8(w);
    Half7(w);
    Half6(w);
    Half5(w);
    Half4(w);
    Half3(w);
    Half2(w);
    Half1(w);
  }

  /** A byte and the word above it: the byte is consumed, the word moves down by eight. */
  lemma Absorb(c: bv32, d: byte, w: bv32)
    requires w <= 0x00FFFFFF
    ensures Bits(Xor(c, Xor(Wide(d), Up8(w))), 8) == Xor(Byte(c, d), w)
  {
    XorAssoc(c, Wide(d), Up8(w));
    ShiftedWord(w);
    hide Bits, Xor, Wide, Up8, LowClear, Shr;
    BitsXor(Xor(c, Wide(d)), Up8(w), 8);
  }

  lemma XorAssoc(a: bv32, b: bv32, c: bv32)
    ensures Xor(a, Xor(b, c)) == Xor(Xor(a, b), c)
  {}

  function Word(a: byte, b: byte, c: byte, d: byte): bv32 {
    Xor(Wide(a), Up8(Xor(Wide(b), Up8(Xor(Wide(c), Up8(Wide(d)))))))
  }

  lemma WordParts(b: byte, c: byte, d: byte)
    ensures Wide(d) <= 0x00FFFFFF
    ensures Xor(Wide(c), Up8(Wide(d))) <= 0x00FFFFFF
    ensures Xor(Wide(b), Up8(Xor(Wide(c), Up8(Wide(d))))) <= 0x00FFFFFF
  {}

  lemma FourBytes(s: bv32, a: byte, b: byte, c: byte, d: byte)
    ensures Feed(s, [a, b, c, d]) == Bits(Xor(s, Word(a, b, c, d)), 32)
  {
    WordParts(b, c, d);
    hide Bits, Xor, Wide, Up8, Byte;
    var w1 := Wide(d);
    var w2 := Xor(Wide(c), Up8(w1));
    var w3 := Xor(Wide(b), Up8(w2));
    Absorb(s, a, w3);
    var s1 := Byte(s, a);
    Absorb(s1, b, w2);
    var s2 := Byte(s1, b);
    Absorb(s2, c, w1);
    var s3 := Byte(s2, c);
    assert Byte(s3, d) == Bits(Xor(s3, w1), 8) by { LastByte(s3, d); }
    BitsAdd(Xor(s, Word(a, b, c, d)), 8, 24);
    BitsAdd(Xor(s1, w3), 8, 16);
    BitsAdd(Xor(s2, w2), 8, 8);
    FeedFour(s, a, b, c, d);
  }

  lemma LastByte(s: bv32, d: byte)
    ensures Byte(s, d) == Bits(Xor(s, Wide(d)), 8)
  {
    hide Bits;
  }

  lemma FeedFour(s: bv32, a: byte, b: byte, c: byte, d: byte)
    ensures Feed(s, [a, b, c, d]) == Byte(Byte(Byte(Byte(s, a), b), c), d)
  {
    hide Byte;
    assert [a, b, c, d] == [a] + [b] + [c] + [d];
    FeedConcat(s, [a] + [b] + [c], [d]);
    FeedConcat(s, [a] + [b], [c]);
    FeedConcat(s, [a], [b]);
    FeedOne(s, a);
    FeedOne(Byte(s, a), b);
    FeedOne(Byte(Byte(s, a), b), c);
    FeedOne(Byte(Byte(Byte(s, a), b), c), d);
  }

  lemma WordInjective(a: byte, b: byte, c: byte, d: byte, a': byte, b': byte, c': byte, d': byte)
    requires Word(a, b, c, d) == Word(a', b', c', d')
    ensures a == a' && b == b' && c == c' && d == d'
  {}

  // ---- the stored checksum ---------------------------------------------------------------

  /** The four bytes `memcpy` stores for a 32-bit value on a little-endian machine. */
  function Stored(v: bv32): (r: seq<byte>)
    ensures |r| == 4
  {
    [(v & 0xFF) as byte, ((v >> 8) & 0xFF) as byte, ((v >> 16) & 0xFF) as byte, ((v >> 24) & 0xFF) as byte]
  }

  /** The 32-bit value read back from four stored bytes. */
  function Loaded(b: seq<byte>): bv32
    requires |b| == 4
  {
    Word(b[0], b[1], b[2], b[3])
  }

  lemma LoadedStored(v: bv32)
    ensures Loaded(Stored(v)) == v
  {}

  lemma LoadedInjective(p: seq<byte>, q: seq<byte>)
    requires |p| == |q| == 4 && Loaded(p) == Loaded(q)
    ensures p == q
  {
    hide Word;
    WordInjective(p[0], p[1], p[2], p[3], q[0], q[1], q[2], q[3]);
    assert p == [p[0], p[1], p[2], p[3]];
    assert q == [q[0], q[1], q[2], q[3]];
  }

  lemma FeedLoaded(s: bv32, p: seq<byte>)
    requires |p| == 4
    ensures Feed(s, p) == Bits(Xor(s, Loaded(p)), 32)
  {
    hide Bits, Xor, Word, Feed;
    assert p == [p[0], p[1], p[2], p[3]];
    FourBytes(s, p[0], p[1], p[2], p[3]);
  }

  /** Register left by every record that ends in its own checksum. */
  function Residue(): bv32 { Bits(ONES, 32) }

  /** The check values of this checksum, as they are published. */
  lemma CheckValue()
    ensures Checksum([0x31, 0x32, 0x33, 0x34, 0x35, 0x36, 0x37, 0x38, 0x39]) == 0xCBF43926
  {
    FeedNine(ONES, 0x31, 0x32, 0x33, 0x34, 0x35, 0x36, 0x37, 0x38, 0x39);
    assert Byte(ONES, 0x31) == 0x7C231048;
    assert Byte(0x7C231048, 0x32) == 0xB0ACBB32;
    assert Byte(0xB0ACBB32, 0x33) == 0x77B79C2D;
    assert Byte(0x77B79C2D, 0x34) == 0x641C1F5C;
    assert Byte(0x641C1F5C, 0x35) == 0x340AC5E3;
    assert Byte(0x340AC5E3, 0x36) == 0xF68D2C9E;
    assert Byte(0xF68D2C9E, 0x37) == 0xAFFC9660;
    assert Byte(0xAFFC9660, 0x38) == 0x651F2550;
    assert Byte(0x651F2550, 0x39) == 0x340BC6D9;
  }

  lemma FeedNine(s: bv32, a: byte, b: byte, c: byte, d: byte, e: byte, f: byte, g: byte, h: byte, i: byte)
    ensures Feed(s, [a, b, c, d, e, f, g, h, i]) ==
            Byte(Byte(Byte(Byte(Byte(Byte(Byte(Byte(Byte(s, a), b), c), d), e), f), g), h), i)
  {
    hide Byte, Feed;
    FeedFour(s, a, b, c, d);
    var s4 := Feed(s, [a, b, c, d]);
    FeedFour(s4, e, f, g, h);
    FeedConcat(s, [a, b, c, d], [e, f, g, h]);
    FeedConcat(s, [a, b, c, d] + [e, f, g, h], [i]);
    FeedOne(Feed(s, [a, b, c, d] + [e, f, g, h]), i);
    assert [a, b, c, d, e, f, g, h, i] == [a, b, c, d] + [e, f, g, h] + [i];
  }

  lemma ResidueValue()
    ensures Residue() == 0xDEBB20E3
  {
    assert Bits(ONES, 8) == 0x2DFD1072;
    assert Bits(0x2DFD1072, 8) == 0xBE26ED00;
    assert Bits(0xBE26ED00, 8) == 0x00BE26ED;
    assert Bits(0x00BE26ED, 8) == 0xDEBB20E3;
    BitsAdd(ONES, 8, 8);
    BitsAdd(ONES, 16, 8);
    BitsAdd(ONES, 24, 8);
  }

  lemma XorOnes(s: bv32, w: bv32)
    requires Xor(s, w) == ONES
    ensures w == Xor(s, ONES)
  {}

  lemma XorBack(s: bv32)
    ensures Xor(s, Xor(s, ONES)) == ONES
  {
    assert s ^ (s ^ ONES) == ONES;
  }

  /** A record ends in its own checksum exactly when running the register over the whole record,
      checksum included, ends in one fixed value. */
  lemma ResidueCharacterizes(data: seq<byte>, tail: seq<byte>)
    requires |tail| == 4
    ensures Loaded(tail) == Checksum(data) <==> Feed(ONES, data + tail) == Residue()
  {
    hide Bits, Xor, Loaded, Feed;
    var s := Feed(ONES, data);
    FeedConcat(ONES, data, tail);
    FeedLoaded(s, tail);
    XorBack(s);
    if Feed(ONES, data + tail) == Residue() {
      BitsInjective(Xor(s, Loaded(tail)), ONES, 32);
      XorOnes(s, Loaded(tail));
    }
  }

  /** a and b have the same length and agree outside positions i .. i + 4. */
  predicate DifferWithin(a: seq<byte>, b: seq<byte>, i: nat) {
    |a| == |b| && i + 4 <= |a| && a[..i] == b[..i] && a[i + 4..] == b[i + 4..]
  }

  /** Every change confined to four consecutive bytes changes the register. */
  lemma BurstDetected(s: bv32, a: seq<byte>, b: seq<byte>, i: nat)
    requires DifferWithin(a, b, i) && a != b
    ensures Feed(s, a) != Feed(s, b)
  {
    hide Bits, Xor, Loaded, Feed;
    var p, q, t := a[i..i + 4], b[i..i + 4], a[i + 4..];
    assert a == a[..i] + (p + t);
    assert b == a[..i] + (q + t);
    var s' := Feed(s, a[..i]);
    FeedConcat(s, a[..i], p + t);
    FeedConcat(s, a[..i], q + t);
    FeedConcat(s', p, t);
    FeedConcat(s', q, t);
    if Feed(s, a) == Feed(s, b) {
      FeedInjective(Feed(s', p), Feed(s', q), t);
      FeedLoaded(s', p);
      FeedLoaded(s', q);
      BitsInjective(Xor(s', Loaded(p)), Xor(s', Loaded(q)), 32);
      XorCancel(s', Loaded(p), Loaded(q));
      LoadedInjective(p, q);
    }
  }
}
