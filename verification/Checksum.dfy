/** The table-driven CRC-32 (section 8 of RFC 1952): a static table that the
    first call fills in, and a loop that consumes one byte at a time.

    The arithmetic is that of machine words, so bytes are `bv8` here; no caller
    on the RPC path computes a checksum. */
module Checksum {

  const POLY: bv32 := 0xEDB8_8320
  const ONES: bv32 := 0xFFFF_FFFF

  function Xor(a: bv32, b: bv32): bv32 { a ^ b }

  // ------------------------------------------------- the bit-by-bit definition

  /** One step of the shift register. */
  function Shift(c: bv32): bv32
  {
    (c >> 1) ^ (if c & 1 == 1 then POLY else 0)
  }

  function ShiftN(c: bv32, n: nat): bv32
    decreases n
  {
    if n == 0 then c else ShiftN(Shift(c), n - 1)
  }

  function FeedBit(c: bv32, b: bool): bv32 { Shift(Mix(c, b)) }

  function Mix(c: bv32, b: bool): bv32 { if b then c ^ 1 else c }

  /** Feed message bits into the register, one at a time. */
  function FeedBits(c: bv32, bits: seq<bool>): bv32
    decreases |bits|
  {
    if bits == [] then c else FeedBits(FeedBit(c, bits[0]), bits[1..])
  }

  /** The `n` low bits of a word, least significant first. */
  function LowBits(v: bv32, n: nat): (bits: seq<bool>)
    ensures |bits| == n
    decreases n
  {
    if n == 0 then [] else [v & 1 == 1] + LowBits(v >> 1, n - 1)
  }

  /** The bits of a byte, least significant first. */
  function ByteBits(b: bv8): (bits: seq<bool>)
    ensures |bits| == 8
  {
    LowBits(b as bv32, 8)
  }

  function MessageBits(data: seq<bv8>): (bits: seq<bool>)
    ensures |bits| == 8 * |data|
  {
    if data == [] then [] else ByteBits(data[0]) + MessageBits(data[1..])
  }

  /** CRC-32: preset to ones, feed every bit of the message, complement. */
  function Crc32(data: seq<bv8>): bv32
  {
    Xor(FeedBits(ONES, MessageBits(data)), ONES)
  }

  // ------------------------------------------------------------ linear algebra

  lemma XorHalves(a: bv32, b: bv32)
    ensures (a ^ b) >> 1 == (a >> 1) ^ (b >> 1)
    ensures (a ^ b) & 1 == (a & 1) ^ (b & 1)
  {
  }

  lemma LowBit(a: bv32)
    ensures a & 1 == 0 || a & 1 == 1
  {
  }

  lemma XorShuffle(a: bv32, b: bv32, p: bv32)
    ensures (a ^ p) ^ b == (a ^ b) ^ p
    ensures a ^ (b ^ p) == (a ^ b) ^ p
    ensures (a ^ p) ^ (b ^ p) == a ^ b
    ensures a ^ 0 == a
  {
  }

  lemma XorZero(c: bv32)
    ensures Xor(c, 0) == c
  {
  }

  lemma ShiftXor(a: bv32, b: bv32)
    ensures Shift(a ^ b) == Shift(a) ^ Shift(b)
  {
    XorHalves(a, b);
    LowBit(a);
    LowBit(b);
    XorShuffle(a >> 1, b >> 1, POLY);
    XorShuffle(a >> 1, b >> 1, 0);
  }

  lemma ShiftLinear(a: bv32, b: bv32)
    ensures Shift(Xor(a, b)) == Xor(Shift(a), Shift(b))
  {
    hide Shift;
    ShiftXor(a, b);
  }

  lemma ShiftInjective(a: bv32, b: bv32)
    requires Shift(a) == Shift(b)
    ensures a == b
  {
  }

  lemma {:induction false} ShiftNLinear(a: bv32, b: bv32, n: nat)
    ensures ShiftN(Xor(a, b), n) == Xor(ShiftN(a, n), ShiftN(b, n))
    decreases n
  {
    hide Shift, Xor;
    if n > 0 {
      ShiftLinear(a, b);
      ShiftNLinear(Shift(a), Shift(b), n - 1);
    }
  }

  lemma {:induction false} ShiftNInjective(a: bv32, b: bv32, n: nat)
    requires ShiftN(a, n) == ShiftN(b, n)
    ensures a == b
    decreases n
  {
    hide Shift;
    if n > 0 {
      ShiftNInjective(Shift(a), Shift(b), n - 1);
      ShiftInjective(a, b);
    }
  }

  // ------------------------------------------ up to 32 bits as one machine word

  const TOP: bv32 := 0x8000_0000

  /** The bits as a number, the first one least significant. */
  function Word(bits: seq<bool>): bv32
    decreases |bits|
  {
    if bits == [] then 0 else Push(bits[0], Word(bits[1..]))
  }

  function Push(b: bool, w: bv32): (p: bv32)
    ensures w & TOP == 0 ==> p >> 1 == w
    ensures b <==> p & 1 == 1
  {
    if b then (w << 1) ^ 1 else w << 1
  }

  /** The power of two that `31 - m` bits stay below. */
  function Limit(m: nat): bv32
    decreases m
  {
    if m == 0 then TOP else Half(Limit(m - 1))
  }

  function Half(g: bv32): bv32 { g >> 1 }

  lemma LimitBelowTop(m: nat, w: bv32)
    requires w < Limit(m)
    ensures w & TOP == 0
  {
    assert Limit(m) <= TOP by {
      if m > 0 {
        HalfBelowTop(Limit(m - 1));
      }
    }
    BelowTop(w);
  }

  lemma HalfBelowTop(g: bv32)
    ensures Half(g) <= TOP
  {
  }

  lemma BelowTop(w: bv32)
    requires w < TOP
    ensures w & TOP == 0
  {
  }

  lemma HalfBelow(p: bv32, g: bv32)
    requires (p >> 1) < (g >> 1)
    ensures p < g
  {
  }

  lemma PushBelow(b: bool, w: bv32, g: bv32)
    requires w < Half(g)
    ensures Push(b, w) < g
  {
    hide Push;
    assert w & TOP == 0;
    HalfBelow(Push(b, w), g);
  }

  lemma {:induction false} WordBelow(bits: seq<bool>)
    requires |bits| <= 31
    ensures Word(bits) < Limit(31 - |bits|)
    decreases |bits|
  {
    hide Push, Half;
    if bits == [] {
      LimitLast();
    } else {
      WordBelow(bits[1..]);
      PushBelow(bits[0], Word(bits[1..]), Limit(31 - |bits|));
    }
  }

  lemma LimitLast()
    ensures Limit(31) == 1
  {
    LimitStep(0);
    LimitStep(4);
    LimitStep(8);
    LimitStep(12);
    LimitStep(16);
    LimitStep(20);
    LimitStep(24);
    assert Limit(29) == Half(Limit(28)) && Limit(30) == Half(Limit(29));
  }

  lemma LimitStep(m: nat)
    ensures Limit(m + 4) == Half(Half(Half(Half(Limit(m)))))
  {
    hide Half;
    assert Limit(m + 1) == Half(Limit(m)) && Limit(m + 2) == Half(Limit(m + 1));
  }

  lemma WordTopClear(bits: seq<bool>)
    requires |bits| <= 31
    ensures Word(bits) & TOP == 0
  {
    WordBelow(bits);
    LimitBelowTop(31 - |bits|, Word(bits));
  }

  lemma ShiftDouble(w: bv32)
    requires w & TOP == 0
    ensures Shift(w << 1) == w
  {
    DoubleParts(w);
    XorShuffle(w, 0, 0);
  }

  lemma MixPush(c: bv32, b: bool, w: bv32)
    ensures Xor(c, Push(b, w)) == Xor(Mix(c, b), w << 1)
  {
    XorShuffle(c, w << 1, 1);
  }

  lemma ShiftPush(c: bv32, b: bool, w: bv32)
    requires w & TOP == 0
    ensures Shift(Xor(c, Push(b, w))) == Xor(FeedBit(c, b), w)
  {
    hide Shift, Xor, Push, Mix;
    MixPush(c, b, w);
    ShiftDouble(w);
    ShiftLinear(Mix(c, b), w << 1);
  }

  /** Feeding up to 32 bits is xoring them in at once and shifting that often. */
  lemma {:induction false} FeedWord(c: bv32, bits: seq<bool>)
    requires |bits| <= 32
    ensures FeedBits(c, bits) == ShiftN(Xor(c, Word(bits)), |bits|)
    decreases |bits|
  {
    hide Shift, Push, FeedBit, Xor;
    if bits == [] {
      XorZero(c);
    } else {
      var w := Word(bits[1..]);
      WordTopClear(bits[1..]);
      ShiftPush(c, bits[0], w);
      FeedWord(FeedBit(c, bits[0]), bits[1..]);
    }
  }

  lemma DoubleParts(w: bv32)
    requires w & TOP == 0
    ensures ((w << 1) ^ 1) & 1 == 1 && (w << 1) & 1 == 0
    ensures ((w << 1) ^ 1) >> 1 == w && (w << 1) >> 1 == w
  {
  }

  lemma PushInjective(a: bool, v: bv32, b: bool, w: bv32)
    requires v & TOP == 0 && w & TOP == 0 && Push(a, v) == Push(b, w)
    ensures a == b && v == w
  {
    hide Push;
  }

  lemma {:induction false} WordInjective(x: seq<bool>, y: seq<bool>)
    requires |x| == |y| <= 32 && Word(x) == Word(y)
    ensures x == y
    decreases |x|
  {
    hide Push;
    if x != [] {
      var v, w := Word(x[1..]), Word(y[1..]);
      WordTopClear(x[1..]);
      WordTopClear(y[1..]);
      PushInjective(x[0], v, y[0], w);
      WordInjective(x[1..], y[1..]);
      assert x == [x[0]] + x[1..] && y == [y[0]] + y[1..];
    }
  }

  // ---------------------------------------------------------- burst detection

  lemma {:induction false} FeedAppend(c: bv32, x: seq<bool>, y: seq<bool>)
    ensures FeedBits(c, x + y) == FeedBits(FeedBits(c, x), y)
    decreases |x|
  {
    hide FeedBit;
    if x == [] {
      assert x + y == y;
    } else {
      FeedAppend(FeedBit(c, x[0]), x[1..], y);
      assert (x + y)[1..] == x[1..] + y;
    }
  }

  lemma FeedBitInjective(c: bv32, d: bv32, b: bool)
    requires FeedBit(c, b) == FeedBit(d, b)
    ensures c == d
  {
    hide Shift, Mix;
    ShiftInjective(Mix(c, b), Mix(d, b));
    MixTwice(c, b);
    MixTwice(d, b);
  }

  lemma MixTwice(c: bv32, b: bool)
    ensures Mix(Mix(c, b), b) == c
  {
    XorShuffle(c, 1, 1);
  }

  lemma {:induction false} FeedInjective(c: bv32, d: bv32, bits: seq<bool>)
    requires FeedBits(c, bits) == FeedBits(d, bits)
    ensures c == d
    decreases |bits|
  {
    hide FeedBit;
    if bits != [] {
      FeedInjective(FeedBit(c, bits[0]), FeedBit(d, bits[0]), bits[1..]);
      FeedBitInjective(c, d, bits[0]);
    }
  }

  lemma XorCancel(c: bv32, x: bv32, y: bv32)
    requires Xor(c, x) == Xor(c, y)
    ensures x == y
  {
  }

  lemma XorSwap(x: bv32, y: bv32)
    ensures Xor(x, y) == Xor(y, x)
  {
  }

  /** Two bit streams that differ only in a window of at most 32 bits leave
      different registers behind. */
  lemma BurstBits(c: bv32, p: seq<bool>, x: seq<bool>, y: seq<bool>, s: seq<bool>)
    requires |x| == |y| <= 32 && x != y
    ensures FeedBits(c, p + x + s) != FeedBits(c, p + y + s)
  {
    hide Xor;
    var d := FeedBits(c, p);
    FeedAppend(c, p + x, s);
    FeedAppend(c, p + y, s);
    FeedAppend(c, p, x);
    FeedAppend(c, p, y);
    FeedWord(d, x);
    FeedWord(d, y);
    if FeedBits(c, p + x + s) == FeedBits(c, p + y + s) {
      FeedInjective(FeedBits(d, x), FeedBits(d, y), s);
      ShiftNInjective(Xor(d, Word(x)), Xor(d, Word(y)), |x|);
      XorCancel(d, Word(x), Word(y));
      WordInjective(x, y);
    }
  }

  lemma BurstBitsAt(c: bv32, a: seq<bool>, b: seq<bool>, at: nat)
    requires |a| == |b| && a != b
    requires forall k :: 0 <= k < |a| && !(at <= k < at + 32) ==> a[k] == b[k]
    ensures FeedBits(c, a) != FeedBits(c, b)
  {
    hide FeedBits;
    var i := if at <= |a| then at else |a|;
    var j := if at + 32 <= |a| then at + 32 else |a|;
    assert a[..i] == b[..i] && a[j..] == b[j..];
    assert a == a[..i] + a[i..j] + a[j..];
    assert b == b[..i] + b[i..j] + b[j..];
    BurstBits(c, a[..i], a[i..j], b[i..j], a[j..]);
  }

  lemma Unpush(v: bv32)
    ensures Push(v & 1 == 1, v >> 1) == v
  {
    if v & 1 == 1 {
      DoubleOdd(v);
    } else {
      DoubleEven(v);
    }
  }

  lemma DoubleOdd(v: bv32)
    requires v & 1 == 1
    ensures ((v >> 1) << 1) ^ 1 == v
  {
  }

  lemma DoubleEven(v: bv32)
    requires v & 1 != 1
    ensures (v >> 1) << 1 == v
  {
  }

  /** The bits of a byte, put back together. */
  lemma WordOfByte(b: bv8)
    ensures Word(ByteBits(b)) == b as bv32
  {
    WordOfLowBits(b as bv32, 8);
    assert Lose(b as bv32, 8) == 0;
  }

  /** Shift right `n` times. */
  function Lose(v: bv32, n: nat): bv32
    decreases n
  {
    if n == 0 then v else Lose(v >> 1, n - 1)
  }

  lemma {:induction false} WordOfLowBits(v: bv32, n: nat)
    requires Lose(v, n) == 0
    ensures Word(LowBits(v, n)) == v
    decreases n
  {
    hide Push;
    if n > 0 {
      WordOfLowBits(v >> 1, n - 1);
      Unpush(v);
      assert LowBits(v, n)[1..] == LowBits(v >> 1, n - 1);
    }
  }

  lemma ByteBitsInjective(a: bv8, b: bv8)
    requires ByteBits(a) == ByteBits(b)
    ensures a == b
  {
    hide ByteBits;
    WordOfByte(a);
    WordOfByte(b);
    assert (a as bv32) == (b as bv32) ==> a == b;
  }

  lemma {:induction false} MessageBitsInjective(m: seq<bv8>, n: seq<bv8>)
    requires |m| == |n| && MessageBits(m) == MessageBits(n)
    ensures m == n
  {
    hide ByteBits;
    if m != [] {
      assert ByteBits(m[0]) == MessageBits(m)[..8] == MessageBits(n)[..8] == ByteBits(n[0]);
      assert MessageBits(m[1..]) == MessageBits(m)[8..] == MessageBits(n)[8..] == MessageBits(n[1..]);
      ByteBitsInjective(m[0], n[0]);
      MessageBitsInjective(m[1..], n[1..]);
      assert m == [m[0]] + m[1..] && n == [n[0]] + n[1..];
    }
  }

  /** CRC-32 detects every error burst of up to 32 bits, anywhere in a message of
      any length. */
  lemma BurstDetected(m: seq<bv8>, n: seq<bv8>, at: nat)
    requires |m| == |n| && m != n
    requires forall k :: 0 <= k < 8 * |m| && !(at <= k < at + 32) ==> MessageBits(m)[k] == MessageBits(n)[k]
    ensures Crc32(m) != Crc32(n)
  {
    hide Xor, FeedBits, MessageBits;
    var a, b := MessageBits(m), MessageBits(n);
    if a == b {
      MessageBitsInjective(m, n);
    }
    BurstBitsAt(ONES, a, b, at);
    if Crc32(m) == Crc32(n) {
      XorSwap(FeedBits(ONES, a), ONES);
      XorSwap(FeedBits(ONES, b), ONES);
      XorCancel(ONES, FeedBits(ONES, a), FeedBits(ONES, b));
    }
  }

  lemma {:induction false} MessageBitAt(m: seq<bv8>, k: nat)
    requires k < 8 * |m|
    ensures MessageBits(m)[k] == ByteBits(m[k / 8])[k % 8]
  {
    hide ByteBits;
    if k >= 8 {
      MessageBitAt(m[1..], k - 8);
    }
  }

  /** In particular, two messages of equal length that differ only within four
      consecutive bytes have different checksums. */
  lemma FourByteBurstDetected(m: seq<bv8>, n: seq<bv8>, at: nat)
    requires |m| == |n| && m != n
    requires forall k :: 0 <= k < |m| && !(at <= k < at + 4) ==> m[k] == n[k]
    ensures Crc32(m) != Crc32(n)
  {
    forall k | 0 <= k < 8 * |m| && !(8 * at <= k < 8 * at + 32)
      ensures MessageBits(m)[k] == MessageBits(n)[k]
    {
      MessageBitAt(m, k);
      MessageBitAt(n, k);
    }
    BurstDetected(m, n, 8 * at);
  }

  // ------------------------------------------------------ the table-driven loop

  /** The byte step of the source's loop, with the table read as `ShiftN(_, 8)`. */
  function TableStep(c: bv32, b: bv8): bv32
  {
    Xor(ShiftN(Xor(c, b as bv32) & 0xFF, 8), c >> 8)
  }

  function TableFold(c: bv32, data: seq<bv8>): bv32
    decreases |data|
  {
    if data == [] then c else TableFold(TableStep(c, data[0]), data[1..])
  }

  lemma ShiftEven(v: bv32)
    requires v & 1 == 0
    ensures Shift(v) == v >> 1
  {
    assert v & 1 != 1;
    XorShuffle(v >> 1, 0, 0);
  }

  predicate EvenFor(v: bv32, n: nat)
    decreases n
  {
    n == 0 || (v & 1 == 0 && EvenFor(v >> 1, n - 1))
  }

  lemma {:induction false} ShiftWhileEven(v: bv32, n: nat)
    requires EvenFor(v, n)
    ensures ShiftN(v, n) == Lose(v, n)
    decreases n
  {
    hide Shift;
    if n > 0 {
      ShiftEven(v);
      ShiftWhileEven(v >> 1, n - 1);
    }
  }

  /** Eight steps on a word whose low byte is clear only move it down. */
  lemma ShiftHigh(v: bv32)
    requires v & 0xFF == 0
    ensures ShiftN(v, 8) == v >> 8
  {
    assert EvenFor(v, 8) && Lose(v, 8) == v >> 8;
    ShiftWhileEven(v, 8);
  }

  lemma SplitByte(x: bv32)
    ensures Xor(x & 0xFF, x & 0xFFFF_FF00) == x
    ensures (x & 0xFFFF_FF00) & 0xFF == 0
    ensures (x & 0xFFFF_FF00) >> 8 == x >> 8
  {
  }

  lemma HighByte(c: bv32, b: bv8)
    ensures Xor(c, b as bv32) >> 8 == c >> 8
  {
  }

  lemma TableStepIsFeed(c: bv32, b: bv8)
    ensures TableStep(c, b) == FeedBits(c, ByteBits(b))
  {
    hide ByteBits, ShiftN, Xor;
    var x := Xor(c, b as bv32);
    FeedWord(c, ByteBits(b));
    WordOfByte(b);
    SplitByte(x);
    ShiftNLinear(x & 0xFF, x & 0xFFFF_FF00, 8);
    ShiftHigh(x & 0xFFFF_FF00);
    HighByte(c, b);
  }

  /** Byte by byte through the table is bit by bit through the register. */
  lemma {:induction false} TableFoldIsFeed(c: bv32, data: seq<bv8>)
    ensures TableFold(c, data) == FeedBits(c, MessageBits(data))
    decreases |data|
  {
    hide TableStep, ByteBits, FeedBits;
    if data == [] {
      FeedNothing(c);
    } else {
      TableStepIsFeed(c, data[0]);
      TableFoldIsFeed(TableStep(c, data[0]), data[1..]);
      FeedAppend(c, ByteBits(data[0]), MessageBits(data[1..]));
    }
  }

  lemma FeedNothing(c: bv32)
    ensures FeedBits(c, []) == c
  {
  }

  lemma {:induction false} TableFoldSnoc(c: bv32, data: seq<bv8>, n: nat)
    requires n < |data|
    ensures TableFold(c, data[..n + 1]) == TableStep(TableFold(c, data[..n]), data[n])
    decreases n
  {
    hide TableStep;
    if n == 0 {
      assert data[..1] == [data[0]];
    } else {
      TableFoldSnoc(TableStep(c, data[0]), data[1..], n - 1);
      assert data[..n + 1][1..] == data[1..][..n] && data[..n][1..] == data[1..][..n - 1];
    }
  }

  lemma MaskBelow(x: bv32)
    ensures (x & 0xFF) < 256
  {
  }

  /** Indexing the table with a word below 256. */
  lemma ByteIndex(y: bv32)
    requires y < 256
    ensures (y as int) < 256 && (y as int) as bv32 == y
  {
  }

  lemma MaskIndex(x: bv32)
    ensures (x & 0xFF) as int < 256
    ensures ((x & 0xFF) as int) as bv32 == x & 0xFF
  {
    MaskBelow(x);
    ByteIndex(x & 0xFF);
  }

  /** The function with its static table. */
  class Crc32Calculator {
    const table: array<bv32>
    var initialized: bool

    ghost predicate Valid()
      reads this, table
    {
      && table.Length == 256
      && (initialized ==> forall i :: 0 <= i < 256 ==> table[i] == ShiftN(i as bv32, 8))
    }

    constructor ()
      ensures Valid() && fresh(table) && !initialized
    {
      table := new bv32[256](_ => 0);
      initialized := false;
    }

    method FillTable()
      requires table.Length == 256
      modifies this, table
      ensures Valid() && initialized
    {
      hide Shift;
      for i := 0 to 256
        modifies table
        invariant forall k :: 0 <= k < i ==> table[k] == ShiftN(k as bv32, 8)
      {
        var crc := i as bv32;
        for j := 0 to 8
          invariant ShiftN(crc, 8 - j) == ShiftN(i as bv32, 8)
        {
          crc := Shift(crc);
        }
        table[i] := crc;
      }
      initialized := true;
    }

    /** The result is the bit-by-bit CRC-32, on the first call and on every later one. */
    method Checksum(data: seq<bv8>) returns (crc: bv32)
      requires Valid()
      modifies this, table
      ensures Valid() && initialized
      ensures crc == Crc32(data)
    {
      hide ShiftN, Xor, FeedBits, MessageBits, TableFold;
      if !initialized {
        FillTable();
      }
      crc := ONES;
      TableFoldNothing(ONES);
      for i := 0 to |data|
        invariant Valid() && initialized
        invariant crc == TableFold(ONES, data[..i])
      {
        var x := Xor(crc, data[i] as bv32);
        MaskIndex(x);
        TableFoldSnoc(ONES, data, i);
        crc := Xor(table[(x & 0xFF) as int], crc >> 8);
      }
      assert data[..|data|] == data;
      TableFoldIsFeed(ONES, data);
      crc := Xor(crc, ONES);
    }
  }

  lemma TableFoldNothing(c: bv32)
    ensures TableFold(c, []) == c
  {
  }
}
