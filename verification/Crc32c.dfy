/**
 * CRC32C (crc32c.cc): the slicing-by-4 table algorithm against the definition that
 * feeds a shift register one message bit at a time.
 *
 * Words and bytes are sequences of bits, least significant bit first, so that `x >> 8`
 * drops eight elements and a little-endian load is concatenation.
 */
module Crc32c {
  import opened Collections

  type Word = w: seq<bool> | |w| == 32 witness seq(32, _ => false)
  type Byte = b: seq<bool> | |b| == 8 witness seq(8, _ => false)

  function Zeros(n: nat): (z: seq<bool>)
    ensures |z| == n && forall i :: 0 <= i < n ==> !z[i]
  {
    seq(n, _ => false)
  }

  /** Bit `i` of the Castagnoli polynomial of section 12.1 of RFC 3720, bit-reflected. */
  predicate Poly(i: nat) {
    (0x82F63B78 / Pow2(i)) % 2 == 1
  }

  function Xor(a: Word, b: Word): (r: Word)
    ensures forall i :: 0 <= i < 32 ==> r[i] == (a[i] != b[i])
  {
    seq(32, i requires 0 <= i < 32 => a[i] != b[i])
  }

  function Not(a: Word): (r: Word)
    ensures forall i :: 0 <= i < 32 ==> r[i] == !a[i]
  {
    seq(32, i requires 0 <= i < 32 => !a[i])
  }

  /** `bits` in the low end of a word. */
  function Low(bits: seq<bool>): (w: Word)
    requires |bits| <= 32
  {
    bits + Zeros(32 - |bits|)
  }

  // ---------------------------------------------------------------- bit-serial definition

  /** One clock of the reflected shift register. */
  function Shift(s: Word): (r: Word)
    ensures forall i :: 0 <= i < 31 ==> r[i] == (s[i + 1] != (s[0] && Poly(i)))
    ensures r[31] == (s[0] && Poly(31))
  {
    seq(32, i requires 0 <= i < 32 => (i < 31 && s[i + 1]) != (s[0] && Poly(i)))
  }

  /** Feed message bits in order. */
  function FeedBits(s: Word, bits: seq<bool>): Word
    decreases |bits|
  {
    if bits == [] then s
    else FeedBits(Shift(s[0 := s[0] != bits[0]]), bits[1..])
  }

  function FeedBytes(s: Word, bytes: seq<Byte>): Word
    decreases |bytes|
  {
    if bytes == [] then s
    else FeedBytes(FeedBits(s, bytes[0]), bytes[1..])
  }

  /** `n` clocks with no input: feeding zero bits. */
  function ShiftN(s: Word, n: nat): Word {
    FeedBits(s, Zeros(n))
  }

  lemma ShiftNUnfold(s: Word, n: nat)
    ensures ShiftN(s, n) == if n == 0 then s else ShiftN(Shift(s), n - 1)
  {
    if n > 0 {
      assert Zeros(n)[1..] == Zeros(n - 1);
      assert s[0 := s[0] != false] == s;
    }
  }

  /** The CRC of `bytes`, continuing from a previous CRC. */
  function Reference(crc: Word, bytes: seq<Byte>): Word {
    Not(FeedBytes(Not(crc), bytes))
  }

  // ---------------------------------------------------------------- lookup tables

  function ShiftRight8(s: Word): Word {
    s[8..] + Zeros(8)
  }

  /** Entry `b` of row `k` of the lookup tables. */
  function Lookup(k: nat, b: Byte): Word {
    if k == 0 then ShiftN(Low(b), 8)
    else
      var t := Lookup(k - 1, b);
      Xor(ShiftRight8(t), ShiftN(Low(t[..8]), 8))
  }

  // ---------------------------------------------------------------- linearity

  lemma {:induction false} ShiftNLinear(a: Word, b: Word, n: nat)
    ensures ShiftN(Xor(a, b), n) == Xor(ShiftN(a, n), ShiftN(b, n))
    decreases n
  {
    ShiftNUnfold(a, n);
    ShiftNUnfold(b, n);
    ShiftNUnfold(Xor(a, b), n);
    if n > 0 {
      assert Shift(Xor(a, b)) == Xor(Shift(a), Shift(b));
      ShiftNLinear(Shift(a), Shift(b), n - 1);
    }
  }

  lemma {:induction false} ShiftNAdd(s: Word, m: nat, n: nat)
    ensures ShiftN(s, m + n) == ShiftN(ShiftN(s, m), n)
    decreases m
  {
    ShiftNUnfold(s, m);
    ShiftNUnfold(s, m + n);
    if m > 0 {
      ShiftNAdd(Shift(s), m - 1, n);
    }
  }

  /** Clocking out `n` clear bits only moves the rest down. */
  lemma {:induction false} ShiftClear(s: Word, n: nat)
    requires n <= 32
    requires forall i :: 0 <= i < n ==> !s[i]
    ensures ShiftN(s, n) == s[n..] + Zeros(n)
    decreases n
  {
    ShiftNUnfold(s, n);
    if n == 0 {
      assert s[0..] + Zeros(0) == s;
    } else {
      var t := s[1..] + Zeros(1);
      assert Shift(s) == t;
      ShiftClear(t, n - 1);
      assert t[n - 1..] + Zeros(n - 1) == s[n..] + Zeros(n);
    }
  }

  /** Eight clocks of any state, through the first table row. */
  lemma ShiftByte(s: Word)
    ensures ShiftN(s, 8) == Xor(ShiftRight8(s), ShiftN(Low(s[..8]), 8))
  {
    var hi: Word := Zeros(8) + s[8..];
    ShiftClear(hi, 8);
    assert hi[8..] == s[8..];
    ShiftNLinear(hi, Low(s[..8]), 8);
    assert Xor(hi, Low(s[..8])) == s;
  }

  /** Row `k` advances a byte through `k + 1` bytes' worth of clocks. */
  lemma {:induction false} LookupIsShift(k: nat, b: Byte)
    ensures Lookup(k, b) == ShiftN(Low(b), 8 * (k + 1))
  {
    if k > 0 {
      LookupIsShift(k - 1, b);
      ShiftByte(Lookup(k - 1, b));
      ShiftNAdd(Low(b), 8 * k, 8);
    }
  }

  /** Every row is linear, so the eight single-bit entries determine it. */
  lemma LookupLinear(k: nat, a: Byte, b: Byte, c: Byte)
    requires forall i :: 0 <= i < 8 ==> c[i] == (a[i] != b[i])
    ensures Lookup(k, c) == Xor(Lookup(k, a), Lookup(k, b))
  {
    LookupIsShift(k, a);
    LookupIsShift(k, b);
    LookupIsShift(k, c);
    ShiftNLinear(Low(a), Low(b), 8 * (k + 1));
    assert Xor(Low(a), Low(b)) == Low(c);
  }

  /** The entry of row 0 for the top bit is the polynomial itself. */
  lemma LookupTopBit(b: Byte)
    requires b == Zeros(7) + [true]
    ensures forall i :: 0 <= i < 32 ==> Lookup(0, b)[i] == Poly(i)
  {
    var w := Low(b);
    ShiftClear(w, 7);
    ShiftNAdd(w, 7, 1);
    var top := ShiftN(w, 7);
    assert top[0] && forall i :: 1 <= i < 32 ==> !top[i];
    ShiftNUnfold(top, 1);
    ShiftNUnfold(Shift(top), 0);
  }

  // ---------------------------------------------------------------- byte and word steps

  /** Feeding up to 32 bits one at a time is one xor followed by that many clocks. */
  lemma {:induction false} FeedBitsIsShift(s: Word, bits: seq<bool>)
    requires |bits| <= 32
    ensures FeedBits(s, bits) == ShiftN(Xor(s, Low(bits)), |bits|)
    decreases |bits|
  {
    ShiftNUnfold(Xor(s, Low(bits)), |bits|);
    if bits == [] {
      assert Xor(s, Low([])) == s;
    } else {
      var t := Shift(s[0 := s[0] != bits[0]]);
      FeedBitsIsShift(t, bits[1..]);
      assert Xor(t, Low(bits[1..])) == Shift(Xor(s, Low(bits)));
    }
  }

  lemma {:induction false} FeedBitsConcat(s: Word, a: seq<bool>, b: seq<bool>)
    ensures FeedBits(s, a + b) == FeedBits(FeedBits(s, a), b)
    decreases |a|
  {
    if a == [] {
      assert a + b == b;
    } else {
      assert (a + b)[1..] == a[1..] + b;
      FeedBitsConcat(Shift(s[0 := s[0] != a[0]]), a[1..], b);
    }
  }

  /** The one-byte table step of the first and third loops. */
  lemma TableByteStep(s: Word, b: Byte)
    ensures Xor(ShiftRight8(s), Lookup(0, Xor(s, Low(b))[..8])) == FeedBits(s, b)
  {
    FeedBitsIsShift(s, b);
    var t := Xor(s, Low(b));
    ShiftByte(t);
    assert ShiftRight8(t) == ShiftRight8(s);
  }

  function LittleEndian(b: seq<Byte>): Word
    requires |b| == 4
  {
    var low: seq<bool> := b[0];
    low + b[1] + b[2] + b[3]
  }

  /** Four byte steps are one 32-clock step of the xored word. */
  lemma FeedWordIsShift(s: Word, b: seq<Byte>)
    requires |b| == 4
    ensures FeedBytes(s, b) == ShiftN(Xor(s, LittleEndian(b)), 32)
  {
    var w := LittleEndian(b);
    FeedBitsIsShift(s, w);
    assert Low(w) == w;
    FeedBitsConcat(s, w[..24], b[3]);
    FeedBitsConcat(s, w[..16], b[2]);
    FeedBitsConcat(s, b[0], b[1]);
    var low: seq<bool> := b[0];
    assert w == w[..24] + b[3] && w[..24] == w[..16] + b[2] && w[..16] == low + b[1];
    var s1 := FeedBits(s, b[0]);
    var s2 := FeedBits(s1, b[1]);
    var s3 := FeedBits(s2, b[2]);
    assert FeedBytes(s, b) == FeedBytes(s1, b[1..]);
    assert FeedBytes(s1, b[1..]) == FeedBytes(s2, b[1..][1..]);
    assert b[1..][1..] == [b[2], b[3]];
    assert FeedBytes(s2, [b[2], b[3]]) == FeedBytes(s3, [b[2], b[3]][1..]);
    assert [b[2], b[3]][1..] == [b[3]];
    assert FeedBytes(s3, [b[3]]) == FeedBytes(FeedBits(s3, b[3]), []);
  }

  /** A byte `j` bits up the word needs `j` clocks to come down. */
  lemma ShiftLane(b: Byte, j: nat)
    requires j <= 24
    ensures ShiftN(Zeros(j) + b + Zeros(24 - j), 32) == ShiftN(Low(b), 32 - j)
  {
    var lane: Word := Zeros(j) + b + Zeros(24 - j);
    ShiftClear(lane, j);
    assert lane[j..] + Zeros(j) == Low(b);
    ShiftNAdd(lane, j, 32 - j);
  }

  /** A byte in its place in a word. */
  function Lane(b: Byte, j: nat): Word
    requires j <= 24
  {
    Zeros(j) + b + Zeros(24 - j)
  }

  lemma LanesMakeWord(c: Word)
    ensures Xor(Xor(Xor(Lane(c[24..], 24), Lane(c[16..24], 16)), Lane(c[8..16], 8)), Lane(c[..8], 0)) == c
  {
  }

  lemma LookupLane(k: nat, b: Byte, j: nat)
    requires k < 4 && j == 24 - 8 * k
    ensures Lookup(k, b) == ShiftN(Lane(b, j), 32)
  {
    LookupIsShift(k, b);
    ShiftLane(b, j);
  }

  lemma ShiftLanes(l0: Word, l1: Word, l2: Word, l3: Word, n: nat)
    ensures ShiftN(Xor(Xor(Xor(l0, l1), l2), l3), n) ==
            Xor(Xor(Xor(ShiftN(l0, n), ShiftN(l1, n)), ShiftN(l2, n)), ShiftN(l3, n))
  {
    ShiftNLinear(l0, l1, n);
    ShiftNLinear(Xor(l0, l1), l2, n);
    ShiftNLinear(Xor(Xor(l0, l1), l2), l3, n);
  }

  /** The four-table step of the middle loop. */
  lemma TableWordStep(s: Word, b: seq<Byte>)
    requires |b| == 4
    ensures var c := Xor(s, LittleEndian(b));
            Xor(Xor(Xor(Lookup(0, c[24..]), Lookup(1, c[16..24])), Lookup(2, c[8..16])), Lookup(3, c[..8]))
            == FeedBytes(s, b)
  {
    var c := Xor(s, LittleEndian(b));
    FeedWordIsShift(s, b);
    LookupLane(0, c[24..], 24);
    LookupLane(1, c[16..24], 16);
    LookupLane(2, c[8..16], 8);
    LookupLane(3, c[..8], 0);
    ShiftLanes(Lane(c[24..], 24), Lane(c[16..24], 16), Lane(c[8..16], 8), Lane(c[..8], 0), 32);
    LanesMakeWord(c);
  }

  // ---------------------------------------------------------------- the algorithm

  lemma {:induction false} FeedBytesConcat(s: Word, a: seq<Byte>, b: seq<Byte>)
    ensures FeedBytes(s, a + b) == FeedBytes(FeedBytes(s, a), b)
    decreases |a|
  {
    if a == [] {
      assert a + b == b;
    } else {
      assert (a + b)[1..] == a[1..] + b;
      FeedBytesConcat(FeedBits(s, a[0]), a[1..], b);
    }
  }

  lemma FeedPrefix(s: Word, buf: seq<Byte>, i: nat, k: nat)
    requires i + k <= |buf|
    ensures FeedBytes(s, buf[..i + k]) == FeedBytes(FeedBytes(s, buf[..i]), buf[i..i + k])
  {
    assert buf[..i + k] == buf[..i] + buf[i..i + k];
    FeedBytesConcat(s, buf[..i], buf[i..i + k]);
  }

  lemma FeedPrefixByte(s: Word, buf: seq<Byte>, i: nat)
    requires i < |buf|
    ensures FeedBytes(s, buf[..i + 1]) == FeedBits(FeedBytes(s, buf[..i]), buf[i])
  {
    FeedPrefix(s, buf, i, 1);
    var t := FeedBytes(s, buf[..i]);
    assert buf[i..i + 1] == [buf[i]] && [buf[i]][1..] == [];
    assert FeedBytes(t, [buf[i]]) == FeedBytes(FeedBits(t, buf[i]), []);
  }

  /** `crc32c(crc, buf, len)` for a buffer that starts at address `addr`. */
  method Compute(crc: Word, addr: nat, buf: seq<Byte>) returns (r: Word)
    ensures r == Reference(crc, buf)
  {
    ghost var s := Not(crc);
    var crc0 := Not(crc);
    var i := 0;
    // up to the next multiple of four, byte by byte
    while i != |buf| && (addr + i) % 4 != 0
      invariant i <= |buf|
      invariant crc0 == FeedBytes(s, buf[..i])
      decreases |buf| - i
    {
      TableByteStep(crc0, buf[i]);
      FeedPrefixByte(s, buf, i);
      crc0 := Xor(ShiftRight8(crc0), Lookup(0, Xor(crc0, Low(buf[i]))[..8]));
      i := i + 1;
    }
    // a word at a time, one table per byte
    while |buf| - i >= 4
      invariant i <= |buf|
      invariant crc0 == FeedBytes(s, buf[..i])
    {
      TableWordStep(crc0, buf[i..i + 4]);
      FeedPrefix(s, buf, i, 4);
      var crc1 := Xor(crc0, LittleEndian(buf[i..i + 4]));
      crc0 := Xor(Xor(Xor(Lookup(0, crc1[24..]), Lookup(1, crc1[16..24])),
                      Lookup(2, crc1[8..16])), Lookup(3, crc1[..8]));
      i := i + 4;
    }
    // what is left of the last word
    while i != |buf|
      invariant i <= |buf|
      invariant crc0 == FeedBytes(s, buf[..i])
      decreases |buf| - i
    {
      TableByteStep(crc0, buf[i]);
      FeedPrefixByte(s, buf, i);
      crc0 := Xor(ShiftRight8(crc0), Lookup(0, Xor(crc0, Low(buf[i]))[..8]));
      i := i + 1;
    }
    assert buf[..i] == buf;
    r := Not(crc0);
  }

  /** Continuing a CRC over a second buffer is the CRC of the concatenation. */
  lemma Chaining(crc: Word, a: seq<Byte>, b: seq<Byte>)
    ensures Reference(Reference(crc, a), b) == Reference(crc, a + b)
  {
    FeedBytesConcat(Not(crc), a, b);
    var s := FeedBytes(Not(crc), a);
    assert Not(Not(s)) == s;
  }
}
