/**
 Integers as bytes, and files as growing byte strings.
 */
module Bytes {
  type Byte = bv8

  function Pow256(width: nat): (p: nat)
    ensures p > 0
  {
    if width == 0 then 1 else 256 * Pow256(width - 1)
  }

  // The low `bits` bits of a number as a byte, and back.
  function FromBits(n: nat, bits: nat): Byte
    decreases bits
  {
    if bits == 0 then 0 else (FromBits(n / 2, bits - 1) << 1) | (if n % 2 == 1 then 1 else 0)
  }

  function BitsValue(b: Byte, bits: nat): nat
    decreases bits
  {
    if bits == 0 then 0 else 2 * BitsValue(b >> 1, bits - 1) + (if b & 1 == 1 then 1 else 0)
  }

  function ByteOf(n: nat): Byte
    requires n < 256
  {
    FromBits(n, 8)
  }

  function ValueOf(b: Byte): nat {
    BitsValue(b, 8)
  }

  function Pow2(n: nat): (p: nat)
    ensures p > 0
  {
    if n == 0 then 1 else 2 * Pow2(n - 1)
  }

  // One above the largest byte with this many bits, for fewer than eight bits.
  function Bound(bits: nat): Byte
    decreases bits
  {
    if bits == 0 then 1 else Bound(bits - 1) << 1
  }

  lemma Bounds()
    ensures Bound(0) == 1 && Bound(1) == 2 && Bound(2) == 4 && Bound(3) == 8
    ensures Bound(4) == 16 && Bound(5) == 32 && Bound(6) == 64 && Bound(7) == 128
  {
    assert Bound(2) == 4;
    assert Bound(4) == 16;
    assert Bound(6) == 64;
  }

  lemma ShiftIn(b: Byte, d: Byte, top: Byte)
    requires b < top && (d == 0 || d == 1) && top <= 64
    ensures ((b << 1) | d) < (top << 1)
  {}

  lemma ShiftOut(b: Byte, d: Byte)
    requires b < 128 && (d == 0 || d == 1)
    ensures ((b << 1) | d) >> 1 == b && ((b << 1) | d) & 1 == d
  {}

  lemma {:induction false} FromBitsBound(n: nat, bits: nat)
    requires bits <= 7
    ensures FromBits(n, bits) < Bound(bits)
    decreases bits
  {
    if bits > 0 {
      FromBitsBound(n / 2, bits - 1);
      Bounds();
      assert bits - 1 in {0, 1, 2, 3, 4, 5, 6};
      ShiftIn(FromBits(n / 2, bits - 1), if n % 2 == 1 then 1 else 0, Bound(bits - 1));
    }
  }

  lemma NoBits(n: nat)
    requires n < Pow2(0)
    ensures BitsValue(FromBits(n, 0), 0) == n
  {}

  lemma FromBitsStep(n: nat, bits: nat)
    requires bits > 0
    ensures FromBits(n, bits) == (FromBits(n / 2, bits - 1) << 1) | (if n % 2 == 1 then 1 else 0)
  {}

  lemma BitsValueStep(b: Byte, bits: nat)
    requires bits > 0
    ensures BitsValue(b, bits) == 2 * BitsValue(b >> 1, bits - 1) + (if b & 1 == 1 then 1 else 0)
  {}

  lemma SmallBits(n: nat, bits: nat)
    requires bits <= 7
    ensures FromBits(n, bits) < 128
  {
    hide FromBits;
    FromBitsBound(n, bits);
    Bounds();
    assert bits in {0, 1, 2, 3, 4, 5, 6, 7};
  }

  lemma {:induction false} BitsRoundTrip(n: nat, bits: nat)
    requires bits <= 8 && n < Pow2(bits)
    ensures BitsValue(FromBits(n, bits), bits) == n
    decreases bits
  {
    hide FromBits, BitsValue;
    if bits == 0 {
      NoBits(n);
    } else {
      BitsRoundTrip(n / 2, bits - 1);
      var b, d: Byte := FromBits(n / 2, bits - 1), if n % 2 == 1 then 1 else 0;
      SmallBits(n / 2, bits - 1);
      FromBitsStep(n, bits);
      ShiftOut(b, d);
      BitsValueStep((b << 1) | d, bits);
    }
  }

  lemma ByteRoundTrip(n: nat)
    requires n < 256
    ensures ValueOf(ByteOf(n)) == n
  {
    assert Pow2(4) == 16;
    assert Pow2(8) == 256;
    BitsRoundTrip(n, 8);
  }

  // Both conversions keep the number.
  lemma {:induction false} FromBitsIs(n: nat, bits: nat)
    requires bits <= 8 && n < Pow2(bits)
    ensures FromBits(n, bits) as nat == n
    decreases bits
  {
    hide FromBits;
    FromBitsUnfolds(n, bits);
    if bits > 0 {
      FromBitsIs(n / 2, bits - 1);
      SmallBits(n / 2, bits - 1);
      OneMoreBit(FromBits(n / 2, bits - 1), FromBits(n, bits), n);
    }
  }

  lemma OneMoreBit(b: Byte, r: Byte, n: nat)
    requires b < 128 && b as nat == n / 2 && r == (b << 1) | (if n % 2 == 1 then 1 else 0)
    ensures r as nat == n
  {
    var d: Byte := if n % 2 == 1 then 1 else 0;
    ShiftInIs(b, d);
  }

  lemma FromBitsUnfolds(n: nat, bits: nat)
    ensures FromBits(n, bits) ==
      if bits == 0 then 0 else (FromBits(n / 2, bits - 1) << 1) | (if n % 2 == 1 then 1 else 0)
  {}

  lemma ShiftInIs(b: Byte, d: Byte)
    requires b < 128 && (d == 0 || d == 1)
    ensures ((b << 1) | d) as nat == 2 * (b as nat) + (d as nat)
  {}

  lemma ByteOfIs(n: nat)
    requires n < 256
    ensures ByteOf(n) as nat == n
  {
    assert Pow2(4) == 16;
    assert Pow2(8) == 256;
    FromBitsIs(n, 8);
  }

  lemma ValueOfIs(b: Byte)
    ensures ValueOf(b) == b as nat
  {
    hide ByteOf, ValueOf;
    ByteRoundTrip(b as nat);
    ByteOfIs(b as nat);
    SameByte(b, ByteOf(b as nat));
  }

  lemma SameByte(b: Byte, c: Byte)
    requires b as nat == c as nat
    ensures b == c
  {}

  // A number without its low i bytes.
  function Shifted(n: nat, i: nat): nat
    decreases i
  {
    if i == 0 then n else Shifted(n / 256, i - 1)
  }

  // The low `width` bytes of a number, least significant first.
  function LittleEndian(n: nat, width: nat): (s: seq<Byte>)
    ensures |s| == width
  {
    seq(width, i requires 0 <= i < width => ByteOf(Shifted(n, i) % 256))
  }

  lemma LittleEndianSplit(n: nat, width: nat)
    requires width > 0
    ensures LittleEndian(n, width) == [ByteOf(n % 256)] + LittleEndian(n / 256, width - 1)
  {
    hide ByteOf;
    var s, t := LittleEndian(n, width), LittleEndian(n / 256, width - 1);
    forall i | 1 <= i < width
      ensures s[i] == t[i - 1]
    {
      assert Shifted(n, i) == Shifted(n / 256, i - 1);
    }
  }

  function FromLittleEndian(s: seq<Byte>): nat {
    if s == [] then 0 else ValueOf(s[0]) + 256 * FromLittleEndian(s[1..])
  }

  lemma {:induction false} LittleEndianRoundTrip(n: nat, width: nat)
    requires n < Pow256(width)
    ensures FromLittleEndian(LittleEndian(n, width)) == n
    decreases width
  {
    hide ByteOf, ValueOf, LittleEndian;
    if width > 0 {
      LittleEndianSplit(n, width);
      LittleEndianRoundTrip(n / 256, width - 1);
      assert LittleEndian(n, width)[1..] == LittleEndian(n / 256, width - 1);
      ByteRoundTrip(n % 256);
    }
  }

  // Byte i of a number counts 256 to the i.
  ghost function Weighed(s: seq<Byte>): nat {
    if s == [] then 0 else Weighed(s[..|s| - 1]) + s[|s| - 1] as nat * Pow256(|s| - 1)
  }

  lemma {:induction false} ReadIsWeighed(s: seq<Byte>)
    ensures FromLittleEndian(s) == Weighed(s)
    decreases |s|
  {
    hide ValueOf;
    if s != [] {
      var front, last := s[..|s| - 1], s[|s| - 1];
      ReadIsWeighed(front);
      ReadAppend(front, last);
      assert s == front + [last];
    }
  }

  lemma {:induction false} ReadAppend(s: seq<Byte>, b: Byte)
    ensures FromLittleEndian(s + [b]) == FromLittleEndian(s) + b as nat * Pow256(|s|)
    decreases |s|
  {
    hide ValueOf;
    if s == [] {
      assert [] + [b] == [b] && [b][1..] == [];
      ValueOfIs(b);
    } else {
      ReadAppend(s[1..], b);
      assert (s + [b])[1..] == s[1..] + [b];
      Carry(b as nat, Pow256(|s| - 1));
    }
  }

  lemma Carry(b: nat, p: nat)
    ensures 256 * (b * p) == b * (256 * p)
  {}

  // Consecutive fields of a record.
  // ---------- Parts of sequences ----------

  lemma Slice<T>(w: seq<T>, a: nat, b: nat, i: nat, j: nat)
    requires a <= b <= |w| && i <= j <= b - a
    ensures w[a..b][i..j] == w[a + i..a + j]
  {
    forall k | 0 <= k < j - i
      ensures w[a..b][i..j][k] == w[a + i..a + j][k]
    {
      assert w[a..b][i + k] == w[a + i + k];
    }
  }

  lemma ThreeParts<T>(s: seq<T>, a: nat, b: nat)
    requires a <= b <= |s|
    ensures s == s[..a] + s[a..b] + s[b..]
  {
    assert s[..b] == s[..a] + s[a..b];
    assert s == s[..b] + s[b..];
  }

  // ---------- Fields ----------

  datatype Field = Field(value: nat, width: nat)

  function Encode(fs: seq<Field>): seq<Byte> {
    if fs == [] then [] else LittleEndian(fs[0].value, fs[0].width) + Encode(fs[1..])
  }

  // A 32-bit word as four bytes.
  function HalfWordBytes(m: bv32): (s: seq<Byte>)
    ensures |s| == 4
  {
    [(m & 0xff) as Byte, ((m >> 8) & 0xff) as Byte, ((m >> 16) & 0xff) as Byte, (m >> 24) as Byte]
  }

  // A 64-bit word as eight bytes.
  function WordBytes(c: bv64): (s: seq<Byte>)
    ensures |s| == 8
  {
    [(c & 0xff) as Byte, ((c >> 8) & 0xff) as Byte, ((c >> 16) & 0xff) as Byte, ((c >> 24) & 0xff) as Byte,
     ((c >> 32) & 0xff) as Byte, ((c >> 40) & 0xff) as Byte, ((c >> 48) & 0xff) as Byte, (c >> 56) as Byte]
  }

  // The low byte comes first.
  lemma WordOrder(c: bv64)
    ensures WordBytes(c)[..7] == WordBytes(c << 8)[1..] && WordBytes(c)[0] == (c & 0xff) as Byte
    ensures HalfWordBytes((c & 0xffff_ffff) as bv32) == WordBytes(c)[..4]
  {}

  function WordFrom(s: seq<Byte>): bv64
    requires |s| == 8
  {
    (s[0] as bv64) | ((s[1] as bv64) << 8) | ((s[2] as bv64) << 16) | ((s[3] as bv64) << 24)
    | ((s[4] as bv64) << 32) | ((s[5] as bv64) << 40) | ((s[6] as bv64) << 48) | ((s[7] as bv64) << 56)
  }

  lemma WordRoundTrip(c: bv64)
    ensures WordFrom(WordBytes(c)) == c
  {}

  // ---------- Files ----------

  function Zeros(n: nat): (s: seq<Byte>)
    ensures |s| == n
  {
    seq(n, _ => 0)
  }

  // Write at an offset. A file grows as needed, with zeros in the gap.
  function Pwrite(file: seq<Byte>, off: nat, b: seq<Byte>): (f: seq<Byte>) {
    if b == [] then file
    else
      (if off <= |file| then file[..off] else file + Zeros(off - |file|))
      + b
      + (if off + |b| < |file| then file[off + |b|..] else [])
  }

  // What was written can be read back.
  lemma PwriteHere(file: seq<Byte>, off: nat, b: seq<Byte>)
    requires b != []
    ensures |Pwrite(file, off, b)| >= off + |b| && Pwrite(file, off, b)[off..off + |b|] == b
  {}

  // A region the write does not touch keeps its contents.
  lemma PwriteElsewhere(file: seq<Byte>, off: nat, b: seq<Byte>, lo: nat, hi: nat)
    requires lo <= hi <= |file| && (hi <= off || off + |b| <= lo)
    ensures |Pwrite(file, off, b)| >= |file| && Pwrite(file, off, b)[lo..hi] == file[lo..hi]
  {}

  // The bytes of a file after a write inside it.
  lemma PwriteAt(file: seq<Byte>, off: nat, b: seq<Byte>, k: nat)
    requires off + |b| <= |file| && k < |file|
    ensures |Pwrite(file, off, b)| == |file|
    ensures Pwrite(file, off, b)[k] == if off <= k < off + |b| then b[k - off] else file[k]
  {}
}
