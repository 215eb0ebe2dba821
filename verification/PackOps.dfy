/**
 The code that packs and unpacks messages in place.
 */
module PackOps {
  import opened Bytes
  import opened Optional
  import opened Pack

  // ---------- Sizes and offsets ----------

  // The size of a message, as far as an int holds it.
  method ComputeMsgSize(lens: seq<nat>) returns (size: int)
    ensures size == Int32(MsgSize(lens))
    ensures MsgSize(lens) < INT_LIMIT ==> size == MsgSize(lens)
  {
    hide Int32, SizeRound, Round;
    SizeRoundIs(64 + 4 * |lens|);
    size := SizeRound(Int32(64 + 4 * |lens|));
    assert lens[..0] == [];
    for i := 0 to |lens|
      invariant size == Int32(BufOff(lens, i))
    {
      BufOffStep(lens, i);
      SizeAdded(BufOff(lens, i), lens[i]);
      size := Int32(size + SizeRound(Int32(lens[i])));
    }
    assert lens[..|lens|] == lens;
    if MsgSize(lens) < INT_LIMIT {
      Int32Keeps(MsgSize(lens));
    }
  }

  lemma SizeAdded(size: nat, len: nat)
    ensures Int32(Int32(size) + SizeRound(Int32(len))) == Int32(size + Round(len))
  {
    hide Int32, SizeRound, Round;
    SizeRoundIs(len);
    Int32Sum(size, Round(len));
  }

  // The offset of buffer n in a message in the host's byte order: none when there is no such
  // buffer or it is shorter than asked for.
  method MsgBuf(m: seq<Byte>, n: nat, minSize: int) returns (off: Option<int>)
    requires |m| >= 64 && |m| >= 64 + 4 * Loops(CountIn(Little, m))
    ensures
      var count := CountIn(Little, m);
      var lens := LensIn(Little, m, Loops(count));
      && off == (if n >= |lens| || Int32(lens[n]) < minSize then None
                 else Some(Int32(HdrSize(count) + BodySize(lens[..n]))))
      && (MsgSize(lens) < INT_LIMIT && count == |lens| && off.Some? ==> off.value == BufOff(lens, n))
  {
    hide ReadWord, Int32, SizeRound, Round;
    var count := CountIn(Little, m);
    ghost var lens := LensIn(Little, m, Loops(count));
    if n >= Int32(count) {
      return None;
    }
    var buflen := Int32(ReadWord(Little, m[64 + 4 * n..68 + 4 * n]));
    if buflen < minSize {
      return None;
    }
    HdrInt(count);
    var offset := AddLengths(m, n, SizeRound(Int32(64 + 4 * count)), HdrSize(count));
    assert LensIn(Little, m, n) == lens[..n];
    off := Some(offset);
    if MsgSize(lens) < INT_LIMIT && count == |lens| {
      BuffersApart(lens, n, n + 1);
      Int32Keeps(BufOff(lens, n));
    }
  }

  // Add the first n lengths of a message in the host's order to a size.
  method AddLengths(m: seq<Byte>, n: nat, start: int, ghost hdr: nat) returns (size: int)
    requires |m| >= 64 + 4 * n && start == Int32(hdr)
    ensures size == Int32(hdr + BodySize(LensIn(Little, m, n)))
  {
    hide ReadWord, Int32, SizeRound, Round;
    ghost var lens := LensIn(Little, m, n);
    size := start;
    assert lens[..0] == [];
    for i := 0 to n
      invariant size == Int32(hdr + BodySize(lens[..i]))
    {
      LengthAdded(hdr, lens, i);
      size := Int32(size + SizeRound(Int32(ReadWord(Little, m[64 + 4 * i..68 + 4 * i]))));
    }
    assert lens[..n] == lens;
  }

  lemma OneBody(len: nat)
    ensures BodySize([len]) == Round(len)
  {
    assert [len][1..] == [];
  }

  // ---------- Turning a message around ----------

  function FlipAt(s: seq<Byte>, off: nat, w: nat): (r: seq<Byte>)
    requires off + w <= |s|
    ensures |r| == |s|
  {
    s[..off] + Rev(s[off..off + w]) + s[off + w..]
  }

  method Swab(m: array<Byte>, off: nat, w: nat)
    requires off + w <= m.Length
    modifies m
    ensures m[..] == FlipAt(old(m[..]), off, w)
  {
    forall i | 0 <= i < w {
      m[off + i] := m[off + w - 1 - i];
    }
  }

  // The fields from lo to hi are turned around, nothing else is changed.
  ghost predicate Turned(s: seq<Byte>, m: seq<Byte>, count: nat, lo: nat, hi: nat) {
    && |m| == |s| && 12 <= lo <= hi <= 64 + 4 * count <= |s|
    && forall k :: 0 <= k < |s| ==> m[k] == if lo <= k < hi then s[Source(k, count)] else s[k]
  }

  // The field of width w at off is a word of its own.
  ghost predicate IsField(count: nat, off: nat, w: nat) {
    forall k :: off <= k < off + w ==> Source(k, count) == off + (off + w - 1 - k)
  }

  lemma TurnNext(s: seq<Byte>, m: seq<Byte>, count: nat, lo: nat, hi: nat, w: nat)
    requires Turned(s, m, count, lo, hi) && IsField(count, hi, w) && hi + w <= 64 + 4 * count
    ensures Turned(s, FlipAt(m, hi, w), count, lo, hi + w)
  {
    hide Source;
    var r := FlipAt(m, hi, w);
    forall k | 0 <= k < |s|
      ensures r[k] == if lo <= k < hi + w then s[Source(k, count)] else s[k]
    {
      if hi <= k < hi + w {
        assert r[k] == m[hi + (hi + w - 1 - k)];
      } else {
        assert r[k] == m[k];
      }
    }
  }

  lemma TurnBefore(s: seq<Byte>, m: seq<Byte>, count: nat, lo: nat, hi: nat, w: nat)
    requires Turned(s, m, count, lo, hi) && 12 + w <= lo && IsField(count, lo - w, w)
    ensures Turned(s, FlipAt(m, lo - w, w), count, lo - w, hi)
  {
    hide Source;
    var off := lo - w;
    var r := FlipAt(m, off, w);
    forall k | 0 <= k < |s|
      ensures r[k] == if off <= k < hi then s[Source(k, count)] else s[k]
    {
      if off <= k < lo {
        assert r[k] == m[off + (off + w - 1 - k)];
      } else {
        assert r[k] == m[k];
      }
    }
  }

  // Word q of the message is a field.
  lemma Field4(count: nat, q: nat)
    requires 3 <= q < 6 || 12 <= q < 16 + count
    ensures IsField(count, 4 * q, 4)
  {
    forall k | 4 * q <= k < 4 * q + 4
      ensures Source(k, count) == 4 * q + (4 * q + 3 - k)
    {
      Remainder4(q, k - 4 * q);
    }
  }

  lemma Field8(count: nat, off: nat)
    requires off in {24, 32, 40}
    ensures IsField(count, off, 8)
  {}

  lemma TurnNone(s: seq<Byte>, count: nat)
    requires 64 + 4 * count <= |s|
    ensures Turned(s, s, count, 16, 16)
  {}

  // When everything is turned the message is in the host's order.
  lemma TurnAll(s: seq<Byte>, m: seq<Byte>, count: nat)
    requires Turned(s, m, count, 12, 64 + 4 * count)
    ensures m == Hosted(Big, s, count)
  {
    hide Mirror;
  }

  // A field that has been turned reads, in the host's order, as the sender meant it.
  lemma TurnedField(s: seq<Byte>, m: seq<Byte>, count: nat, lo: nat, hi: nat, off: nat)
    requires Turned(s, m, count, lo, hi) && lo <= off && off + 4 <= hi && IsField(count, off, 4)
    ensures ReadWord(Little, m[off..off + 4]) == ReadWord(Big, s[off..off + 4])
  {
    hide FromLittleEndian, Source;
    var a, b := m[off..off + 4], Rev(s[off..off + 4]);
    forall k | 0 <= k < 4
      ensures a[k] == b[k]
    {
      assert a[k] == m[off + k] && Source(off + k, count) == off + (3 - k);
      assert b[k] == s[off..off + 4][3 - k] == s[off + (3 - k)];
    }
    assert a == b;
  }

  lemma TurnedLong(s: seq<Byte>, m: seq<Byte>, count: nat, off: nat)
    requires Turned(s, m, count, 12, 64 + 4 * count) && off in {24, 32, 40}
    ensures SameField(Big, s, m, off, 8)
  {
    hide FromLittleEndian, Source;
    Field8(count, off);
    var a, b := m[off..off + 8], Rev(s[off..off + 8]);
    forall k | 0 <= k < 8
      ensures a[k] == b[k]
    {
      assert a[k] == m[off + k] && Source(off + k, count) == off + (7 - k);
      assert b[k] == s[off..off + 8][7 - k] == s[off + (7 - k)];
    }
    assert a == b;
  }

  // Two messages that say the same, the one in byte order e and the other in the host's: the handle and
  // magic as they are, every field after them with the same value, and the rest as it is.
  ghost predicate SameMessage(e: Endian, s: seq<Byte>, m: seq<Byte>, count: nat) {
    && |m| == |s| >= 64 + 4 * count && m[..12] == s[..12] && m[64 + 4 * count..] == s[64 + 4 * count..]
    && SameField(e, s, m, 12, 4) && SameField(e, s, m, 16, 4) && SameField(e, s, m, 20, 4)
    && SameField(e, s, m, 24, 8) && SameField(e, s, m, 32, 8) && SameField(e, s, m, 40, 8)
    && SameField(e, s, m, 48, 4) && SameField(e, s, m, 52, 4) && SameField(e, s, m, 56, 4) && SameField(e, s, m, 60, 4)
    && (forall i :: 0 <= i < count ==> SameField(e, s, m, 64 + 4 * i, 4))
  }

  ghost predicate SameField(e: Endian, s: seq<Byte>, m: seq<Byte>, off: nat, width: nat) {
    off + width <= |m| == |s| && ReadWord(Little, m[off..off + width]) == ReadWord(e, s[off..off + width])
  }

  // Turning around changes the byte order and nothing else, of any message.
  lemma HostedSays(e: Endian, s: seq<Byte>, count: nat)
    requires 64 + 4 * count <= |s|
    ensures SameMessage(e, s, Hosted(e, s, count), count)
  {
    hide ReadWord, Source;
    var m := Hosted(e, s, count);
    if e.Big? {
      HostedTurned(s, count);
      SameShort(s, m, count, 3);
      SameShort(s, m, count, 4);
      SameShort(s, m, count, 5);
      TurnedLong(s, m, count, 24);
      TurnedLong(s, m, count, 32);
      TurnedLong(s, m, count, 40);
      SameShort(s, m, count, 12);
      SameShort(s, m, count, 13);
      SameShort(s, m, count, 14);
      SameShort(s, m, count, 15);
      forall i | 0 <= i < count
        ensures SameField(e, s, m, 64 + 4 * i, 4)
      {
        SameShort(s, m, count, 16 + i);
      }
    }
  }

  lemma SameShort(s: seq<Byte>, m: seq<Byte>, count: nat, q: nat)
    requires Turned(s, m, count, 12, 64 + 4 * count) && (3 <= q < 6 || 12 <= q < 16 + count)
    ensures SameField(Big, s, m, 4 * q, 4)
  {
    hide ReadWord, Source;
    Field4(count, q);
    TurnedField(s, m, count, 12, 64 + 4 * count, 4 * q);
  }

  lemma HostedTurned(s: seq<Byte>, count: nat)
    requires 64 + 4 * count <= |s|
    ensures Turned(s, Hosted(Big, s, count), count, 12, 64 + 4 * count)
  {
    hide Mirror;
  }

  // The header fields up to the count of buffers, after the version.
  method SwabHeader(m: array<Byte>, ghost s: seq<Byte>)
    requires m.Length == |s| >= 64 && Turned(s, m[..], 0, 16, 20)
    modifies m
    ensures Turned(s, m[..], 0, 12, 64)
  {
    hide Turned, IsField, FlipAt;
    Field4(0, 3);
    TurnBefore(s, m[..], 0, 16, 20, 4);
    Swab(m, 12, 4);
    Field4(0, 5);
    TurnNext(s, m[..], 0, 12, 20, 4);
    Swab(m, 20, 4);
    Field8(0, 24);
    TurnNext(s, m[..], 0, 12, 24, 8);
    Swab(m, 24, 8);
    Field8(0, 32);
    TurnNext(s, m[..], 0, 12, 32, 8);
    Swab(m, 32, 8);
    Field8(0, 40);
    TurnNext(s, m[..], 0, 12, 40, 8);
    Swab(m, 40, 8);
    Field4(0, 12);
    TurnNext(s, m[..], 0, 12, 48, 4);
    Swab(m, 48, 4);
    Field4(0, 13);
    TurnNext(s, m[..], 0, 12, 52, 4);
    Swab(m, 52, 4);
    Field4(0, 14);
    TurnNext(s, m[..], 0, 12, 56, 4);
    Swab(m, 56, 4);
    Field4(0, 15);
    TurnNext(s, m[..], 0, 12, 60, 4);
    Swab(m, 60, 4);
  }

  lemma TurnedCount(s: seq<Byte>, m: seq<Byte>, count: nat, lo: nat, hi: nat)
    requires Turned(s, m, 0, lo, hi) && 64 + 4 * count <= |s|
    ensures Turned(s, m, count, lo, hi)
  {}

  // Unpack a message of either byte order in place. It is refused when it is of neither, or
  // shorter than its own header says.
  method Unpack(m: array<Byte>) returns (r: Verdict)
    requires m.Length < INT_LIMIT
    modifies m
    ensures
      var s := old(m[..]);
      if !HasMagic(Little, s) && !HasMagic(Big, s) then r == Refused
      else
        var e := if HasMagic(Little, s) then Little else Big;
        && r == Judged(e, s)
        && (SizesHold(e, s) ==> r == if Acceptable(e, s) then Accepted else Refused)
        && (r == Accepted ==> m[..] == Hosted(e, s, Loops(CountIn(e, s))))
        && (r == Accepted ==> SameMessage(e, s, m[..], Loops(CountIn(e, s))))
  {
    hide Judged, SizesHold, Acceptable, SameMessage;
    ghost var s := m[..];
    if m.Length < 20 {
      ShortRefused(s);
      return Refused;
    }
    MagicsDiffer();
    var flipped := m[8..12] == Word(Big, MAGIC, 4);
    if flipped {
      assert HasMagic(Big, s) && !HasMagic(Little, s);
      UnpackCondition(Big, s);
      r := UnpackOther(m);
      if r == Accepted {
        AcceptedFits(Big, s);
        HostedSays(Big, s, Loops(CountIn(Big, s)));
      }
    } else if m[8..12] != Word(Little, MAGIC, 4) {
      r := Refused;
    } else {
      assert HasMagic(Little, s);
      UnpackCondition(Little, s);
      r := UnpackSame(m);
      if r == Accepted {
        AcceptedFits(Little, s);
        HostedSays(Little, s, Loops(CountIn(Little, s)));
      }
    }
  }

  lemma AcceptedFits(e: Endian, s: seq<Byte>)
    requires Judged(e, s) == Accepted
    ensures |s| >= 64 && |s| >= 64 + 4 * Loops(CountIn(e, s))
  {}

  lemma ShortRefused(s: seq<Byte>)
    requires |s| < 64
    ensures forall e :: Judged(e, s) == Refused && !Acceptable(e, s)
  {}

  lemma MagicsDiffer()
    ensures Word(Big, MAGIC, 4) != Word(Little, MAGIC, 4)
  {
    hide ByteOf, ValueOf, LittleEndian;
    var s := LittleEndian(MAGIC, 4);
    FourBytes(MAGIC, 0x0BD00B, 0x0BD0, 0x0B);
    ByteRoundTrip(0x0B);
    ByteRoundTrip(0xD0);
    assert Rev(s)[0] == s[3];
  }

  lemma FourBytes(n: nat, a: nat, b: nat, c: nat)
    requires a == n / 256 && b == a / 256 && c == b / 256
    ensures LittleEndian(n, 4)[0] == ByteOf(n % 256) && LittleEndian(n, 4)[3] == ByteOf(c % 256)
  {
    hide ByteOf, LittleEndian;
    LittleEndianSplit(n, 4);
    LittleEndianSplit(a, 3);
    LittleEndianSplit(b, 2);
    LittleEndianSplit(c, 1);
  }

  // A message in the host's byte order.
  method UnpackSame(m: array<Byte>) returns (r: Verdict)
    requires 20 <= m.Length < INT_LIMIT && HasMagic(Little, m[..])
    ensures r == Judged(Little, m[..])
    ensures r == Accepted ==> m[..] == Hosted(Little, m[..], Loops(CountIn(Little, m[..])))
  {
    hide HasMagic, Word, ReadWord, Round, Int32, SizeRound, HdrSize, BodySize;
    var s := m[..];
    if |s| < 64 {
      return Refused;
    }
    var count := ReadWord(Little, s[60..64]);
    HdrInt(count);
    var required := SizeRound(Int32(64 + 4 * count));
    if |s| < required {
      return Refused;
    }
    var n := Loops(count);
    // the lengths are behind the end of the message
    if |s| < 64 + 4 * n {
      return Overrun;
    }
    required := AddLengths(s, n, required, HdrSize(count));
    r := if |s| < required then Refused else Accepted;
  }

  lemma LengthAdded(hdr: nat, lens: seq<nat>, i: nat)
    requires i < |lens|
    ensures Int32(Int32(hdr + BodySize(lens[..i])) + SizeRound(Int32(lens[i]))) == Int32(hdr + BodySize(lens[..i + 1]))
  {
    hide Int32, SizeRound, Round;
    assert lens[..i + 1] == lens[..i] + [lens[i]];
    BodySizeSplit(lens[..i], [lens[i]]);
    OneBody(lens[i]);
    SizeAdded(hdr + BodySize(lens[..i]), lens[i]);
  }

  // A message in the other byte order.
  method UnpackOther(m: array<Byte>) returns (r: Verdict)
    requires 20 <= m.Length < INT_LIMIT && HasMagic(Big, m[..])
    modifies m
    ensures r == Judged(Big, old(m[..]))
    ensures r == Accepted ==> m[..] == Hosted(Big, old(m[..]), Loops(CountIn(Big, old(m[..]))))
  {
    hide HasMagic, Word, ReadWord, Round, Turned, IsField, FlipAt, Hosted, HdrSize, Int32, SizeRound;
    ghost var s := m[..];
    if m.Length < 64 {
      Swab(m, 16, 4);
      return Refused;
    }
    TurnNone(s, 0);
    Field4(0, 4);
    TurnNext(s, s, 0, 16, 16, 4);
    Swab(m, 16, 4);
    SwabHeader(m, s);
    Field4(0, 15);
    TurnedField(s, m[..], 0, 12, 64, 60);
    assert m[..][60..64] == m[60..64];
    var count := ReadWord(Little, m[60..64]);
    assert count == CountIn(Big, s);
    HdrInt(count);
    var required := SizeRound(Int32(64 + 4 * count));
    if m.Length < required {
      return Refused;
    }
    var n := Loops(count);
    // the lengths are behind the end of the message
    if m.Length < 64 + 4 * n {
      return Overrun;
    }
    TurnedCount(s, m[..], n, 12, 64);
    required := SwabLens(m, s, n, required, HdrSize(count));
    TurnAll(s, m[..], n);
    r := if m.Length < required then Refused else Accepted;
  }

  lemma HdrInt(count: nat)
    ensures SizeRound(Int32(64 + 4 * count)) == Int32(HdrSize(count))
  {
    hide Int32, SizeRound, Round;
    SizeRoundIs(64 + 4 * count);
  }

  // Turn the lengths of the buffers and add them up.
  method SwabLens(m: array<Byte>, ghost s: seq<Byte>, count: nat, start: int, ghost hdr: nat) returns (required: int)
    requires m.Length == |s| >= 64 + 4 * count && Turned(s, m[..], count, 12, 64) && start == Int32(hdr)
    modifies m
    ensures Turned(s, m[..], count, 12, 64 + 4 * count)
    ensures required == Int32(hdr + BodySize(LensIn(Big, s, count)))
  {
    hide ReadWord, Round, Turned, IsField, FlipAt, Int32, SizeRound;
    ghost var lens := LensIn(Big, s, count);
    required := start;
    assert lens[..0] == [];
    for i := 0 to count
      invariant Turned(s, m[..], count, 12, 64 + 4 * i) && required == Int32(hdr + BodySize(lens[..i]))
    {
      Field4(count, 16 + i);
      TurnNext(s, m[..], count, 12, 64 + 4 * i, 4);
      Swab(m, 64 + 4 * i, 4);
      TurnedField(s, m[..], count, 12, 68 + 4 * i, 64 + 4 * i);
      assert m[..][64 + 4 * i..68 + 4 * i] == m[64 + 4 * i..68 + 4 * i];
      LengthAdded(hdr, lens, i);
      required := Int32(required + SizeRound(Int32(ReadWord(Little, m[64 + 4 * i..68 + 4 * i]))));
    }
    assert lens[..count] == lens;
  }

  // ---------- Packing ----------

  // Write bytes at an offset.
  method Poke(m: array<Byte>, off: nat, b: seq<Byte>)
    requires off + |b| <= m.Length
    modifies m
    ensures m[..] == Pwrite(old(m[..]), off, b)
  {
    forall i | 0 <= i < |b| {
      m[off + i] := b[i];
    }
  }

  ghost predicate ZeroFrom(s: seq<Byte>, k: nat) {
    forall i :: k <= i < |s| ==> s[i] == 0
  }

  // What the buffers of a message hold: what was given for them, or zeros.
  function Contents(lens: seq<nat>, bufs: Option<seq<Option<seq<Byte>>>>): (r: seq<seq<Byte>>)
    requires bufs.Some? ==> |bufs.value| == |lens| && forall i :: 0 <= i < |lens| ==> BufOk(lens[i], bufs.value[i])
    ensures |r| == |lens| && forall i :: 0 <= i < |lens| ==> |r[i]| == lens[i]
  {
    seq(|lens|, i requires 0 <= i < |lens| =>
      if bufs.Some? && BufOk(lens[i], bufs.value[i]) && bufs.value[i].Some? then bufs.value[i].value
      else Zeros(lens[i]))
  }

  predicate BufOk(len: nat, b: Option<seq<Byte>>) {
    b.Some? ==> |b.value| == len
  }

  function NoFields(): Fields {
    Fields(Zeros(8), 0, 0, 0, 0, 0, 0, 0, 0)
  }

  lemma {:induction false} ZeroWord(width: nat)
    ensures LittleEndian(0, width) == Zeros(width)
  {
    hide LittleEndian;
    if width > 0 {
      LittleEndianSplit(0, width);
      ZeroWord(width - 1);
      ZeroByte();
      assert Zeros(width) == [0] + Zeros(width - 1);
    }
  }

  lemma ZeroByte()
    ensures ByteOf(0) == 0
  {
    assert FromBits(0, 2) == 0;
    assert FromBits(0, 4) == 0;
    assert FromBits(0, 6) == 0;
  }

  lemma {:induction false} WordsAppend(e: Endian, ns: seq<nat>, n: nat, width: nat)
    ensures Words(e, ns + [n], width) == Words(e, ns, width) + Word(e, n, width)
    decreases |ns|
  {
    hide Word;
    if ns == [] {
      assert [] + [n] == [n] && [n][1..] == [];
    } else {
      WordsAppend(e, ns[1..], n, width);
      assert (ns + [n])[1..] == ns[1..] + [n];
    }
  }

  lemma {:induction false} BodiesAppend(bufs: seq<seq<Byte>>, b: seq<Byte>)
    ensures Bodies(bufs + [b]) == Bodies(bufs) + b + Zeros(Round(|b|) - |b|)
    decreases |bufs|
  {
    hide Round;
    if bufs == [] {
      assert [] + [b] == [b] && [b][1..] == [];
    } else {
      BodiesAppend(bufs[1..], b);
      assert (bufs + [b])[1..] == bufs[1..] + [b];
    }
  }

  // Pack a request into fresh memory: header, lengths, then the buffers that are given.
  method PackMsg(lens: seq<nat>, bufs: Option<seq<Option<seq<Byte>>>>) returns (m: array<Byte>)
    requires MsgSize(lens) < INT_LIMIT
    requires bufs.Some? ==> |bufs.value| == |lens| && forall i :: 0 <= i < |lens| ==> BufOk(lens[i], bufs.value[i])
    ensures fresh(m) && m[..] == Wire(Little, NoFields(), Contents(lens, bufs))
    ensures Laid(Little, m[..], Fields([0, 0, 0, 0, 0, 0, 0, 0], 0, 0, 0, 0, 0, 0, 0, 0), lens)
    ensures m[8..12] == [0xd0, 0x0b, 0xd0, 0x0b] && m.Length == MsgSize(lens)
    ensures forall n :: 0 <= n < |lens| ==>
      var given := bufs.Some? && bufs.value[n].Some?;
      HoldsAt(m[..], BufOff(lens, n), if given then bufs.value[n].value else Zeros(lens[n]))
  {
    hide Words, Word, Bodies, Round, HdrSize, BodySize, Int32, Laid, HoldsAt;
    var size := ComputeMsgSize(lens);
    m := new Byte[size](_ => 0);
    ghost var all := Contents(lens, bufs);
    assert LensOf(all) == lens;
    HdrFits(lens);
    InitHeader(m, lens);
    ghost var head := m[..];
    InitBodies(m, lens, bufs);
    HeaderKept(head, m[..], lens);
    Assemble(m[..], lens, all);
    PackedLaid(m[..], lens, all);
  }

  lemma PackedLaid(s: seq<Byte>, lens: seq<nat>, all: seq<seq<Byte>>)
    requires s == Wire(Little, NoFields(), all) && LensOf(all) == lens && MsgSize(lens) < INT_LIMIT
    ensures Laid(Little, s, Fields([0, 0, 0, 0, 0, 0, 0, 0], 0, 0, 0, 0, 0, 0, 0, 0), lens)
    ensures |s| == MsgSize(lens) && s[8..12] == [0xd0, 0x0b, 0xd0, 0x0b]
    ensures forall n :: 0 <= n < |lens| ==> HoldsAt(s, BufOff(lens, n), all[n])
  {
    hide Words, Word, Bodies, Round, HdrSize, BodySize, Int32, Wire, Laid, HoldsAt, Pad;
    PartsBelow(all);
    assert Zeros(8) == [0, 0, 0, 0, 0, 0, 0, 0];
    WireSize(Little, NoFields(), all);
    WireLaid(Little, NoFields(), all);
    WireParts(Little, NoFields(), all);
    forall n | 0 <= n < |lens|
      ensures HoldsAt(s, BufOff(lens, n), all[n])
    {
      BufferFound(s, all, n);
    }
  }

  // The header of a message whose buffers were filled in.
  lemma HeaderKept(h: seq<Byte>, s: seq<Byte>, lens: seq<nat>)
    requires |h| == |s| >= HdrSize(|lens|) >= 64 + 4 * |lens| && h[..HdrSize(|lens|)] == s[..HdrSize(|lens|)]
    requires Blank(h, |lens|) && ZeroFrom(h, 64 + 4 * |lens|)
    ensures Blank(s, |lens|) && s[64..64 + 4 * |lens|] == h[64..64 + 4 * |lens|]
    ensures s[64 + 4 * |lens|..HdrSize(|lens|)] == Pad(|lens|)
  {
    hide HdrSize, Word;
    var n := HdrSize(|lens|);
    forall k | 0 <= k < n
      ensures s[k] == h[k]
    {
      assert s[..n][k] == h[..n][k];
    }
    assert s[..8] == h[..8] && s[8..12] == h[8..12] && s[12..16] == h[12..16];
    assert s[16..20] == h[16..20] && s[20..60] == h[20..60] && s[60..64] == h[60..64];
  }

  lemma HdrFits(lens: seq<nat>)
    ensures 64 + 4 * |lens| <= HdrSize(|lens|) <= MsgSize(lens)
  {}

  method InitHeader(m: array<Byte>, lens: seq<nat>)
    requires m.Length == MsgSize(lens) >= HdrSize(|lens|) >= 64 + 4 * |lens| && ZeroFrom(m[..], 0)
    modifies m
    ensures Blank(m[..], |lens|) && m[64..64 + 4 * |lens|] == Words(Little, lens, 4)
    ensures ZeroFrom(m[..], 64 + 4 * |lens|)
  {
    hide Words, Word, MsgSize, HdrSize, Pwrite, Blank;
    BlankWritten(m[..], |lens|);
    Poke(m, 8, Word(Little, MAGIC, 4));
    Poke(m, 16, Word(Little, VERSION, 4));
    Poke(m, 60, Word(Little, |lens|, 4));
    assert lens[..0] == [];
    NoWords();
    for i := 0 to |lens|
      invariant Blank(m[..], |lens|) && ZeroFrom(m[..], 64 + 4 * i)
      invariant m[64..64 + 4 * i] == Words(Little, lens[..i], 4)
    {
      WordsAppend(Little, lens[..i], lens[i], 4);
      assert lens[..i + 1] == lens[..i] + [lens[i]];
      LengthWritten(m[..], |lens|, i, Word(Little, lens[i], 4));
      Poke(m, 64 + 4 * i, Word(Little, lens[i], 4));
    }
    assert lens[..|lens|] == lens;
  }

  // A header with magic, version and count, and no other field set.
  ghost predicate Blank(s: seq<Byte>, count: nat) {
    && |s| >= 64 && s[..8] == Zeros(8) && s[8..12] == Word(Little, MAGIC, 4) && s[12..16] == Zeros(4)
    && s[16..20] == Word(Little, VERSION, 4) && s[20..60] == Zeros(40) && s[60..64] == Word(Little, count, 4)
  }

  lemma BlankWritten(s0: seq<Byte>, count: nat)
    requires |s0| >= 64 && ZeroFrom(s0, 0)
    ensures
      var s := Pwrite(Pwrite(Pwrite(s0, 8, Word(Little, MAGIC, 4)), 16, Word(Little, VERSION, 4)), 60, Word(Little, count, 4));
      |s| == |s0| && Blank(s, count) && ZeroFrom(s, 64)
  {
    hide Pwrite, Word;
    var a, b, c := Word(Little, MAGIC, 4), Word(Little, VERSION, 4), Word(Little, count, 4);
    var s1 := Pwrite(s0, 8, a);
    PwriteAt(s0, 8, a, 0);
    var s2 := Pwrite(s1, 16, b);
    PwriteAt(s1, 16, b, 0);
    var s := Pwrite(s2, 60, c);
    PwriteAt(s2, 60, c, 0);
    forall k | 0 <= k < |s0|
      ensures s[k] ==
        if 8 <= k < 12 then a[k - 8] else if 16 <= k < 20 then b[k - 16] else if 60 <= k < 64 then c[k - 60] else 0
    {
      PwriteAt(s0, 8, a, k);
      PwriteAt(s1, 16, b, k);
      PwriteAt(s2, 60, c, k);
    }
  }

  lemma LengthWritten(s: seq<Byte>, count: nat, i: nat, w: seq<Byte>)
    requires |w| == 4 && 68 + 4 * i <= |s| && Blank(s, count) && ZeroFrom(s, 64 + 4 * i)
    ensures
      var t := Pwrite(s, 64 + 4 * i, w);
      |t| == |s| && Blank(t, count) && ZeroFrom(t, 68 + 4 * i) && t[64..68 + 4 * i] == s[64..64 + 4 * i] + w
  {
    hide Pwrite, Word;
    var t := Pwrite(s, 64 + 4 * i, w);
    PwriteAt(s, 64 + 4 * i, w, 0);
    forall k | 0 <= k < |s|
      ensures t[k] == if 64 + 4 * i <= k < 68 + 4 * i then w[k - 64 - 4 * i] else s[k]
    {
      PwriteAt(s, 64 + 4 * i, w, k);
    }
    assert t[..8] == s[..8] && t[8..12] == s[8..12] && t[12..16] == s[12..16];
    assert t[16..20] == s[16..20] && t[20..60] == s[20..60] && t[60..64] == s[60..64];
  }

  lemma NoWords()
    ensures Words(Little, [], 4) == [] && Bodies([]) == []
  {}

  // Copy the buffers that are given behind the header, each at its rounded offset.
  method InitBodies(m: array<Byte>, lens: seq<nat>, bufs: Option<seq<Option<seq<Byte>>>>)
    requires bufs.Some? ==> |bufs.value| == |lens| && forall i :: 0 <= i < |lens| ==> BufOk(lens[i], bufs.value[i])
    requires m.Length == MsgSize(lens) >= HdrSize(|lens|) >= 64 + 4 * |lens| && ZeroFrom(m[..], 64 + 4 * |lens|)
    modifies m
    ensures m[..HdrSize(|lens|)] == old(m[..HdrSize(|lens|)])
    ensures m[HdrSize(|lens|)..] == Bodies(Contents(lens, bufs))
  {
    hide Bodies, Round, HdrSize, BodySize;
    ghost var all, hdr, head := Contents(lens, bufs), HdrSize(|lens|), m[..HdrSize(|lens|)];
    assert all[..0] == [];
    NoWords();
    if bufs == None {
      NoBodies(m[..], lens);
      return;
    }
    BufOffZero(lens);
    var ptr := HdrSize(|lens|);
    assert lens[..0] == [];
    for i := 0 to |lens|
      invariant hdr <= ptr == BufOff(lens, i) <= m.Length && m[..hdr] == head && ZeroFrom(m[..], ptr)
      invariant m[hdr..ptr] == Bodies(all[..i])
    {
      BufOffStep(lens, i);
      BuffersApart(lens, i, i + 1);
      BodiesAppend(all[..i], all[i]);
      assert all[..i + 1] == all[..i] + [all[i]];
      ghost var before, pad := m[..], Zeros(Round(lens[i]) - lens[i]);
      if bufs.value[i].Some? {
        Poke(m, ptr, bufs.value[i].value);
      }
      ghost var next := ptr + Round(lens[i]);
      BodyPlaced(before, m[..], hdr, ptr, next, all[i], pad);
      ptr := ptr + Round(lens[i]);
    }
    assert all[..|lens|] == all && lens[..|lens|] == lens;
    assert m[hdr..ptr] == m[hdr..];
  }

  lemma BufOffZero(lens: seq<nat>)
    ensures BufOff(lens, 0) == HdrSize(|lens|)
  {
    assert lens[..0] == [];
  }

  lemma NoBodies(s: seq<Byte>, lens: seq<nat>)
    requires |s| == MsgSize(lens) >= HdrSize(|lens|) && ZeroFrom(s, HdrSize(|lens|))
    ensures s[HdrSize(|lens|)..] == Bodies(Contents(lens, None))
  {
    hide Bodies, HdrSize, BodySize;
    var all := Contents(lens, None);
    ZeroBodies(lens);
    BodiesSize(all);
    assert LensOf(all) == lens;
    assert s[HdrSize(|lens|)..] == Zeros(BodySize(lens));
  }

  // One more buffer behind the ones before it.
  lemma BodyPlaced(before: seq<Byte>, after: seq<Byte>, hdr: nat, ptr: nat, next: nat, b: seq<Byte>, pad: seq<Byte>)
    requires hdr <= ptr <= next <= |before| && next == ptr + |b| + |pad| && pad == Zeros(|pad|)
    requires ZeroFrom(before, ptr)
    requires after == Pwrite(before, ptr, b) || (after == before && b == Zeros(|b|))
    ensures |after| == |before| && after[..hdr] == before[..hdr] && ZeroFrom(after, next)
    ensures after[hdr..next] == before[hdr..ptr] + b + pad
  {
    hide Pwrite;
    if |before| > 0 {
      PwriteAt(before, ptr, b, 0);
    }
    assert b == [] ==> Pwrite(before, ptr, b) == before by { NoWrite(before, ptr); }
    forall k | 0 <= k < |before|
      ensures k < |after| && after[k] == if ptr <= k < ptr + |b| then b[k - ptr] else before[k]
    {
      PwriteAt(before, ptr, b, k);
    }
  }

  lemma NoWrite(s: seq<Byte>, off: nat)
    ensures Pwrite(s, off, []) == s
  {}

  lemma {:induction false} ZeroBodies(lens: seq<nat>)
    ensures Bodies(Contents(lens, None)) == Zeros(|Bodies(Contents(lens, None))|)
    decreases |lens|
  {
    hide Round;
    if lens != [] {
      var all := Contents(lens, None);
      ZeroBodies(lens[1..]);
      assert all[1..] == Contents(lens[1..], None);
    }
  }

  lemma Assemble(s: seq<Byte>, lens: seq<nat>, all: seq<seq<Byte>>)
    requires LensOf(all) == lens && |s| >= HdrSize(|lens|) >= 64 + 4 * |lens| && Blank(s, |lens|)
    requires s[64..64 + 4 * |lens|] == Words(Little, lens, 4)
    requires s[64 + 4 * |lens|..HdrSize(|lens|)] == Pad(|lens|) && s[HdrSize(|lens|)..] == Bodies(all)
    ensures s == Wire(Little, NoFields(), all)
  {
    hide Words, Word, Bodies, HdrSize, Pad;
    var c, hdr := |lens|, HdrSize(|lens|);
    BlankFields(s, lens);
    SixParts(s, 12, 24, 48, 64 + 4 * c, hdr);
  }

  lemma SixParts(s: seq<Byte>, a: nat, b: nat, c: nat, d: nat, e: nat)
    requires a <= b <= c <= d <= e <= |s|
    ensures s == s[..a] + s[a..b] + s[b..c] + s[c..d] + s[d..e] + s[e..]
  {
    assert s[..b] == s[..a] + s[a..b];
    assert s[..c] == s[..b] + s[b..c];
    assert s[..d] == s[..c] + s[c..d];
    assert s[..e] == s[..d] + s[d..e];
    assert s == s[..e] + s[e..];
  }

  // The fields of a blank header.
  lemma BlankFields(s: seq<Byte>, lens: seq<nat>)
    requires Blank(s, |lens|) && |s| >= 64 + 4 * |lens| && s[64..64 + 4 * |lens|] == Words(Little, lens, 4)
    ensures s[..12] == Front(Little, NoFields())
    ensures s[12..24] == Words(Little, [0, VERSION, 0], 4) && s[24..48] == Words(Little, [0, 0, 0], 8)
    ensures s[48..64 + 4 * |lens|] == Words(Little, Tail32(NoFields(), lens), 4)
  {
    hide Words, Word, Zeros, Tail32;
    FirstFields(s, |lens|);
    ZeroWide();
    Slice(s, 20, 60, 4, 28);
    ZerosSlice(40, 4, 28);
    TailWords(lens);
    Slice(s, 20, 60, 28, 40);
    ZerosSlice(40, 28, 40);
    assert s[48..64 + 4 * |lens|] == s[48..60] + s[60..64] + s[64..64 + 4 * |lens|];
  }

  lemma FirstFields(s: seq<Byte>, count: nat)
    requires Blank(s, count)
    ensures s[..12] == Front(Little, NoFields()) && s[12..24] == Words(Little, [0, VERSION, 0], 4)
  {
    hide Words, Word, Zeros;
    ThreeWords(0, VERSION, 0, 4);
    ZeroWords();
    Slice(s, 20, 60, 0, 4);
    ZerosSlice(40, 0, 4);
    assert s[..12] == s[..8] + s[8..12];
    assert s[12..24] == s[12..16] + s[16..20] + s[20..24];
  }

  lemma ZerosSlice(n: nat, i: nat, j: nat)
    requires i <= j <= n
    ensures Zeros(n)[i..j] == Zeros(j - i)
  {}

  lemma ZeroWide()
    ensures Words(Little, [0, 0, 0], 8) == Zeros(24)
  {
    hide Words, Word;
    ThreeWords(0, 0, 0, 8);
    ZeroWords();
    assert Zeros(24) == Zeros(8) + Zeros(8) + Zeros(8);
  }

  lemma WordsCons(n: nat, ns: seq<nat>, width: nat)
    ensures Words(Little, [n] + ns, width) == Word(Little, n, width) + Words(Little, ns, width)
  {
    hide Word;
    assert ([n] + ns)[1..] == ns;
  }

  lemma ThreeWords(a: nat, b: nat, c: nat, width: nat)
    ensures Words(Little, [a, b, c], width) == Word(Little, a, width) + Word(Little, b, width) + Word(Little, c, width)
  {
    hide Word, Words;
    WordsCons(a, [b, c], width);
    WordsCons(b, [c], width);
    WordsCons(c, [], width);
    assert [a] + [b, c] == [a, b, c] && [b] + [c] == [b, c] && [c] + [] == [c];
    assert Words(Little, [], width) == [] by { assert |Words(Little, [], width)| == width * 0; }
  }

  lemma ZeroWords()
    ensures Word(Little, 0, 4) == Zeros(4) && Word(Little, 0, 8) == Zeros(8)
  {
    hide LittleEndian;
    ZeroWord(4);
    ZeroWord(8);
  }

  lemma TailWords(lens: seq<nat>)
    ensures Words(Little, Tail32(NoFields(), lens), 4) == Zeros(12) + Word(Little, |lens|, 4) + Words(Little, lens, 4)
  {
    hide *;
    var n := [|lens|] + lens;
    TailList(lens);
    LeadingZeros(n);
    WordsCons(|lens|, lens, 4);
    Associate(Zeros(12), Word(Little, |lens|, 4), Words(Little, lens, 4));
  }

  lemma TailList(lens: seq<nat>)
    ensures Tail32(NoFields(), lens) == [0] + ([0] + ([0] + ([|lens|] + lens)))
  {}

  lemma LeadingZeros(n: seq<nat>)
    ensures Words(Little, [0] + ([0] + ([0] + n)), 4) == Zeros(12) + Words(Little, n, 4)
  {
    hide Word, Words, Zeros;
    WordsCons(0, n, 4);
    WordsCons(0, [0] + n, 4);
    WordsCons(0, [0] + ([0] + n), 4);
    ZeroWords();
    ZerosJoin(Words(Little, n, 4));
  }

  lemma ZerosJoin(a: seq<Byte>)
    ensures Zeros(4) + (Zeros(4) + (Zeros(4) + a)) == Zeros(12) + a
  {
    assert Zeros(12) == Zeros(4) + Zeros(4) + Zeros(4);
  }

  lemma Associate(a: seq<Byte>, b: seq<Byte>, c: seq<Byte>)
    ensures a + (b + c) == a + b + c
  {}
}
