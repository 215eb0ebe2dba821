/**
 Messages on the wire: a header, the lengths of the buffers, and the buffers, each rounded up to
 eight bytes. A receiver of the other byte order turns the fields around in place.
 */
module Pack {
  import opened Bytes

  const MAGIC: nat := 0x0BD00BD0
  const VERSION: nat := 3

  datatype Endian = Little | Big

  // The header fields that the packing code does not set itself.
  datatype Fields = Fields(handle: seq<Byte>, kind: nat, opc: nat, lastXid: nat, lastCommitted: nat, transno: nat,
                           status: nat, flags: nat, connCnt: nat)

  // ---------- Sizes ----------

  function Round(n: nat): (r: nat)
    ensures n <= r < n + 8 && r % 8 == 0
  {
    (n + 7) / 8 * 8
  }

  function HdrSize(count: nat): nat {
    Round(64 + 4 * count)
  }

  function BodySize(lens: seq<nat>): nat {
    if lens == [] then 0 else Round(lens[0]) + BodySize(lens[1..])
  }

  function MsgSize(lens: seq<nat>): nat {
    HdrSize(|lens|) + BodySize(lens)
  }

  // Where buffer n starts.
  function BufOff(lens: seq<nat>, n: nat): nat
    requires n <= |lens|
  {
    HdrSize(|lens|) + BodySize(lens[..n])
  }

  lemma {:induction false} BodySizeSplit(a: seq<nat>, b: seq<nat>)
    ensures BodySize(a + b) == BodySize(a) + BodySize(b)
    decreases |a|
  {
    hide Round;
    if a == [] {
      assert a + b == b;
    } else {
      BodySizeSplit(a[1..], b);
      assert (a + b)[1..] == a[1..] + b;
    }
  }

  lemma BufOffStep(lens: seq<nat>, n: nat)
    requires n < |lens|
    ensures BufOff(lens, n + 1) == BufOff(lens, n) + Round(lens[n])
  {
    hide Round, HdrSize;
    assert lens[..n + 1] == lens[..n] + [lens[n]];
    BodySizeSplit(lens[..n], [lens[n]]);
    assert [lens[n]][1..] == [];
    assert BodySize([lens[n]]) == Round(lens[n]);
  }

  // ---------- Sizes in 32 bits ----------

  const INT_LIMIT: nat := 0x8000_0000

  // What a signed 32-bit integer keeps of a number.
  function Int32(n: int): (r: int)
    ensures -0x8000_0000 <= r < 0x8000_0000
  {
    (n + 0x8000_0000) % 0x1_0000_0000 - 0x8000_0000
  }

  // Rounding up to eight bytes as the code does it.
  function SizeRound(n: int): int {
    var x := Int32(n + 7);
    x - x % 8
  }

  lemma Int32Keeps(n: nat)
    requires n < INT_LIMIT
    ensures Int32(n) == n
  {}

  lemma Int32Sum(a: int, b: int)
    ensures Int32(a + Int32(b)) == Int32(Int32(a) + Int32(b)) == Int32(a + b)
  {}

  lemma SizeRoundIs(n: nat)
    ensures SizeRound(Int32(n)) == Int32(Round(n))
  {
    hide Int32;
    Int32Sum(7, n);
    Int32Down(n + 7);
    assert Round(n) == n + 7 - (n + 7) % 8;
  }

  // Cutting to 32 bits and rounding down to eight can be exchanged.
  lemma Int32Down(n: int)
    ensures Int32(n) % 8 == n % 8 && Int32(n - n % 8) == Int32(n) - n % 8
  {
    var k := (n + 0x8000_0000) / 0x1_0000_0000;
    assert Int32(n) == n - 0x1_0000_0000 * k;
    var q, r := n / 8, n % 8;
    assert n == 8 * q + r;
    assert Int32(n) == 8 * (q - 0x2000_0000 * k) + r;
    Int32Unique(n - r, Int32(n) - r, k);
  }

  lemma Int32Unique(n: int, m: int, k: int)
    requires m == n - 0x1_0000_0000 * k && -0x8000_0000 <= m < 0x8000_0000
    ensures Int32(n) == m
  {}

  // Buffers are disjoint, in order, and inside the message.
  lemma {:induction false} BuffersApart(lens: seq<nat>, n: nat, m: nat)
    requires n < m <= |lens|
    ensures BufOff(lens, n) + lens[n] <= BufOff(lens, m) <= MsgSize(lens)
    decreases m - n
  {
    BufOffStep(lens, n);
    assert lens == lens[..m] + lens[m..];
    BodySizeSplit(lens[..m], lens[m..]);
    if n + 1 < m {
      BuffersApart(lens, n + 1, m);
    }
  }

  // ---------- Words ----------

  function Rev(s: seq<Byte>): (r: seq<Byte>)
    ensures |r| == |s|
  {
    seq(|s|, i requires 0 <= i < |s| => s[|s| - 1 - i])
  }

  function Word(e: Endian, n: nat, width: nat): (s: seq<Byte>)
    ensures |s| == width
  {
    if e.Little? then LittleEndian(n, width) else Rev(LittleEndian(n, width))
  }

  function ReadWord(e: Endian, s: seq<Byte>): nat {
    FromLittleEndian(if e.Little? then s else Rev(s))
  }

  lemma WordRoundTripped(e: Endian, n: nat, width: nat)
    requires n < Pow256(width)
    ensures ReadWord(e, Word(e, n, width)) == n
  {
    hide LittleEndian, FromLittleEndian, Pow256;
    LittleEndianRoundTrip(n, width);
    var s := LittleEndian(n, width);
    assert Rev(Rev(s)) == s;
  }

  // Consecutive words of one width.
  function Words(e: Endian, ns: seq<nat>, width: nat): (s: seq<Byte>)
    ensures |s| == width * |ns|
  {
    if ns == [] then []
    else
      assert width * |ns| == width + width * (|ns| - 1);
      Word(e, ns[0], width) + Words(e, ns[1..], width)
  }

  // The mirror image of position k inside its word.
  function Mirror(k: nat, width: nat): nat
    requires width > 0
  {
    k - k % width + (width - 1 - k % width)
  }

  lemma {:induction false} WordsMirror4(ns: seq<nat>, k: nat)
    requires k < 4 * |ns|
    ensures Mirror(k, 4) < 4 * |ns| && Words(Big, ns, 4)[k] == Words(Little, ns, 4)[Mirror(k, 4)]
    decreases |ns|
  {
    hide LittleEndian;
    if k >= 4 {
      WordsMirror4(ns[1..], k - 4);
    }
  }

  lemma {:induction false} WordsMirror8(ns: seq<nat>, k: nat)
    requires k < 8 * |ns|
    ensures Mirror(k, 8) < 8 * |ns| && Words(Big, ns, 8)[k] == Words(Little, ns, 8)[Mirror(k, 8)]
    decreases |ns|
  {
    hide LittleEndian;
    if k >= 8 {
      WordsMirror8(ns[1..], k - 8);
    }
  }

  lemma {:induction false} WordsAt(e: Endian, ns: seq<nat>, width: nat, i: nat)
    requires i < |ns|
    ensures width * i + width <= width * |ns|
    ensures Words(e, ns, width)[width * i..width * i + width] == Word(e, ns[i], width)
    decreases |ns|
  {
    hide Word;
    var w, rest := Word(e, ns[0], width), Words(e, ns[1..], width);
    if i == 0 {
      assert width * 0 == 0;
      assert (w + rest)[0..width] == w;
    } else {
      WordsAt(e, ns[1..], width, i - 1);
      assert width * i == width * (i - 1) + width && width * |ns| == width * (|ns| - 1) + width;
      assert (w + rest)[width * i..width * i + width] == rest[width * (i - 1)..width * (i - 1) + width];
    }
  }

  // ---------- Messages ----------

  function LensOf(bufs: seq<seq<Byte>>): (lens: seq<nat>)
    ensures |lens| == |bufs|
  {
    seq(|bufs|, i requires 0 <= i < |bufs| => |bufs[i]|)
  }

  function Bodies(bufs: seq<seq<Byte>>): seq<Byte> {
    if bufs == [] then [] else bufs[0] + Zeros(Round(|bufs[0]|) - |bufs[0]|) + Bodies(bufs[1..])
  }

  function Pad(count: nat): seq<Byte> {
    Zeros(HdrSize(count) - (64 + 4 * count))
  }

  function Front(e: Endian, f: Fields): seq<Byte> {
    f.handle + Word(e, MAGIC, 4)
  }

  // The 32-bit fields after the 64-bit ones: the last of them counts the buffers, and their
  // lengths follow.
  function Tail32(f: Fields, lens: seq<nat>): (ns: seq<nat>)
    ensures |ns| == 4 + |lens|
  {
    [f.status, f.flags, f.connCnt, |lens|] + lens
  }

  // A message as a sender of the given byte order puts it on the wire.
  function Wire(e: Endian, f: Fields, bufs: seq<seq<Byte>>): seq<Byte> {
    Front(e, f)
    + Words(e, [f.kind, VERSION, f.opc], 4)
    + Words(e, [f.lastXid, f.lastCommitted, f.transno], 8)
    + Words(e, Tail32(f, LensOf(bufs)), 4)
    + Pad(|bufs|)
    + Bodies(bufs)
  }

  predicate FieldsOk(f: Fields) {
    && |f.handle| == 8 && f.kind < 0x1_0000_0000 && f.opc < 0x1_0000_0000
    && f.lastXid < 0x1_0000_0000_0000_0000 && f.lastCommitted < 0x1_0000_0000_0000_0000
    && f.transno < 0x1_0000_0000_0000_0000
    && f.status < 0x1_0000_0000 && f.flags < 0x1_0000_0000 && f.connCnt < 0x1_0000_0000
  }

  lemma {:induction false} BodiesSize(bufs: seq<seq<Byte>>)
    ensures |Bodies(bufs)| == BodySize(LensOf(bufs))
    decreases |bufs|
  {
    hide Round;
    if bufs != [] {
      BodiesSize(bufs[1..]);
      assert LensOf(bufs)[1..] == LensOf(bufs[1..]);
    }
  }

  lemma WireSize(e: Endian, f: Fields, bufs: seq<seq<Byte>>)
    requires |f.handle| == 8
    ensures |Wire(e, f, bufs)| == MsgSize(LensOf(bufs))
  {
    hide Round, Words, Word, Bodies, BodySize;
    BodiesSize(bufs);
  }

  // ---------- Receiving ----------

  // The lengths of the buffers, as read with a byte order.
  function LensIn(e: Endian, s: seq<Byte>, count: nat): (lens: seq<nat>)
    requires 64 + 4 * count <= |s|
    ensures |lens| == count
  {
    seq(count, i requires 0 <= i < count => ReadWord(e, s[64 + 4 * i..68 + 4 * i]))
  }

  predicate HasMagic(e: Endian, s: seq<Byte>) {
    |s| >= 12 && s[8..12] == Word(e, MAGIC, 4)
  }

  function CountIn(e: Endian, s: seq<Byte>): nat
    requires |s| >= 64
  {
    ReadWord(e, s[60..64])
  }

  // A message that can be unpacked as coming from a sender of byte order e: it is long enough for
  // its header, its lengths and its buffers.
  predicate Acceptable(e: Endian, s: seq<Byte>) {
    && HasMagic(e, s) && |s| >= 64 && |s| >= HdrSize(CountIn(e, s))
    && |s| >= MsgSize(LensIn(e, s, CountIn(e, s)))
  }

  // How many lengths the code looks at: the count is signed there.
  function Loops(count: nat): nat {
    if Int32(count) > 0 then Int32(count) else 0
  }

  // The size that the code adds up, before it is cut to 32 bits.
  function Required(e: Endian, s: seq<Byte>): nat
    requires |s| >= 64 && |s| >= 64 + 4 * Loops(CountIn(e, s))
  {
    HdrSize(CountIn(e, s)) + BodySize(LensIn(e, s, Loops(CountIn(e, s))))
  }

  // What the code makes of a message: accepted, refused, or read beyond its end.
  datatype Verdict = Accepted | Refused | Overrun

  function Judged(e: Endian, s: seq<Byte>): Verdict {
    if |s| < 64 || |s| < Int32(HdrSize(CountIn(e, s))) then Refused
    else if |s| < 64 + 4 * Loops(CountIn(e, s)) then Overrun
    else if |s| < Int32(Required(e, s)) then Refused
    else Accepted
  }

  // The sizes in the header do not overflow, or not so that it matters.
  predicate SizesHold(e: Endian, s: seq<Byte>) {
    || |s| < 64 || |s| < Int32(HdrSize(CountIn(e, s)))
    || (|s| >= 64 + 4 * Loops(CountIn(e, s)) && (Required(e, s) < INT_LIMIT || |s| < Int32(Required(e, s))))
  }

  // Exactly when the code accepts the messages that are long enough and no others, and stays
  // inside the message.
  lemma UnpackCondition(e: Endian, s: seq<Byte>)
    requires HasMagic(e, s) && |s| < INT_LIMIT
    ensures (Judged(e, s) != Overrun && (Judged(e, s).Accepted? <==> Acceptable(e, s))) <==> SizesHold(e, s)
  {
    hide Word, ReadWord, Round, BodySize;
    if |s| >= 64 {
      var count := CountIn(e, s);
      HdrCovers(count);
      if HdrSize(count) < INT_LIMIT {
        Int32Keeps(HdrSize(count));
        Int32Keeps(count);
      }
    }
  }

  // In particular it does when header and buffers together are below the limit of an int.
  lemma UnpackExact(e: Endian, s: seq<Byte>)
    requires HasMagic(e, s) && |s| < INT_LIMIT
    requires |s| >= 64 ==> HdrSize(CountIn(e, s)) < INT_LIMIT
    requires |s| >= 64 && |s| >= 64 + 4 * CountIn(e, s) ==> MsgSize(LensIn(e, s, CountIn(e, s))) < INT_LIMIT
    ensures Judged(e, s) == if Acceptable(e, s) then Accepted else Refused
  {
    hide Word, ReadWord, Round, BodySize;
    if |s| >= 64 {
      var count := CountIn(e, s);
      HdrCovers(count);
      Int32Keeps(HdrSize(count));
      Int32Keeps(count);
    }
    UnpackCondition(e, s);
  }

  // A message of 72 bytes that announces one buffer of 2^31: it is accepted.
  function Overflowing(): (s: seq<Byte>)
    ensures |s| == 72
  {
    Zeros(8) + Word(Little, MAGIC, 4) + Zeros(48) + Word(Little, 1, 4) + Word(Little, INT_LIMIT, 4) + Zeros(4)
  }

  lemma OverflowAccepted()
    ensures HasMagic(Little, Overflowing()) && Judged(Little, Overflowing()) == Accepted
    ensures !Acceptable(Little, Overflowing())
  {
    hide Word, ReadWord;
    var s := Overflowing();
    assert s[8..12] == Word(Little, MAGIC, 4) && s[60..64] == Word(Little, 1, 4) && s[64..68] == Word(Little, INT_LIMIT, 4);
    Width4();
    WordRoundTripped(Little, 1, 4);
    WordRoundTripped(Little, INT_LIMIT, 4);
    assert CountIn(Little, s) == 1;
    var lens := LensIn(Little, s, 1);
    assert lens == [INT_LIMIT];
    assert lens[1..] == [];
    assert BodySize(lens) == Round(INT_LIMIT) == INT_LIMIT;
  }

  // Where byte k of an unpacked message comes from when the sender's order was the other one.
  function Source(k: nat, count: nat): (r: nat)
    ensures if k < 64 + 4 * count then r < 64 + 4 * count else r == k
  {
    if 12 <= k < 24 || 48 <= k < 64 + 4 * count then Mirror(k, 4)
    else if 24 <= k < 48 then Mirror(k, 8)
    else k
  }

  // A message in the receiver's order. The handle and the magic are left as they came.
  function Hosted(e: Endian, s: seq<Byte>, count: nat): (r: seq<Byte>)
    requires 64 + 4 * count <= |s|
    ensures |r| == |s|
  {
    if e.Little? then s else seq(|s|, k requires 0 <= k < |s| => s[Source(k, count)])
  }

  // ---------- Round trip ----------

  // The parts of a message on the wire.
  lemma WireParts(e: Endian, f: Fields, bufs: seq<seq<Byte>>)
    requires |f.handle| == 8
    ensures
      var w, c := Wire(e, f, bufs), |bufs|;
      && |w| >= 64 + 4 * c
      && w[..12] == Front(e, f) && w[12..24] == Words(e, [f.kind, VERSION, f.opc], 4)
      && w[24..48] == Words(e, [f.lastXid, f.lastCommitted, f.transno], 8)
      && w[48..64 + 4 * c] == Words(e, Tail32(f, LensOf(bufs)), 4)
      && w[64 + 4 * c..] == Pad(c) + Bodies(bufs)
  {
    hide Words, Word, Bodies, Pad;
  }

  lemma WireFields(e: Endian, f: Fields, bufs: seq<seq<Byte>>)
    requires FieldsOk(f) && |bufs| < 0x1_0000_0000 && forall b <- bufs :: |b| < 0x1_0000_0000
    ensures
      var w := Wire(e, f, bufs);
      && |w| >= 64 + 4 * |bufs| && HasMagic(e, w) && CountIn(e, w) == |bufs|
      && LensIn(e, w, |bufs|) == LensOf(bufs)
  {
    hide Words, Word, Wire, ReadWord, Pow256;
    WireParts(e, f, bufs);
    var w, lens := Wire(e, f, bufs), LensOf(bufs);
    assert w[8..12] == w[..12][8..12];
    TailWord(e, w, f, lens, 3);
    Width4();
    WordRoundTripped(e, |bufs|, 4);
    forall i | 0 <= i < |bufs|
      ensures ReadWord(e, w[64 + 4 * i..68 + 4 * i]) == lens[i]
    {
      TailWord(e, w, f, lens, 4 + i);
      assert bufs[i] in bufs;
      WordRoundTripped(e, lens[i], 4);
    }
  }

  lemma Width4()
    ensures Pow256(4) == 0x1_0000_0000
  {
    assert Pow256(2) == 0x1_0000;
    assert Pow256(4) == 256 * (256 * Pow256(2));
  }

  lemma TailWord(e: Endian, w: seq<Byte>, f: Fields, lens: seq<nat>, i: nat)
    requires i < 4 + |lens| && |w| >= 64 + 4 * |lens| && w[48..64 + 4 * |lens|] == Words(e, Tail32(f, lens), 4)
    ensures w[48 + 4 * i..52 + 4 * i] == Word(e, Tail32(f, lens)[i], 4)
  {
    hide Words, Word;
    WordsAt(e, Tail32(f, lens), 4, i);
    Slice(w, 48, 64 + 4 * |lens|, 4 * i, 4 * i + 4);
  }

  lemma SliceAfter<T>(a: seq<T>, b: seq<T>, i: nat, j: nat)
    requires i <= j <= |b|
    ensures (a + b)[|a| + i..|a| + j] == b[i..j]
  {}

  lemma SliceBefore<T>(a: seq<T>, b: seq<T>, c: seq<T>)
    ensures (a + b + c)[0..|a|] == a
  {}

  lemma MirrorShift4(k: nat, base: nat)
    requires base % 4 == 0 && base <= k
    ensures Mirror(k, 4) == base + Mirror(k - base, 4) && Mirror(Mirror(k - base, 4), 4) == k - base
  {
    var q, r := (k - base) / 4, (k - base) % 4;
    Remainder4(base / 4 + q, r);
    Remainder4(q, 3 - r);
  }

  lemma Remainder4(q: nat, r: nat)
    requires r < 4
    ensures (4 * q + r) % 4 == r
  {}

  lemma MirrorShift8(k: nat, base: nat)
    requires base % 8 == 0 && base <= k
    ensures Mirror(k, 8) == base + Mirror(k - base, 8) && Mirror(Mirror(k - base, 8), 8) == k - base
  {
    var q, r := (k - base) / 8, (k - base) % 8;
    Remainder8(base / 8 + q, r);
    Remainder8(q, 7 - r);
  }

  lemma Remainder8(q: nat, r: nat)
    requires r < 8
    ensures (8 * q + r) % 8 == r
  {}

  // A byte of a block that stands at the same place in two messages.
  lemma BlockByte(w: seq<Byte>, v: seq<Byte>, base: nat, wb: seq<Byte>, vb: seq<Byte>, k: nat, j: nat)
    requires |wb| == |vb| && base + |wb| <= |w| && base + |wb| <= |v|
    requires w[base..base + |wb|] == wb && v[base..base + |wb|] == vb
    requires base <= k < base + |wb| && j < |wb| && wb[j] == vb[k - base]
    ensures w[base + j] == v[k]
  {
    assert w[base..base + |wb|][j] == w[base + j] && v[base..base + |wb|][k - base] == v[k];
  }

  // One run of 32-bit words, turned around.
  lemma Turned4(w: seq<Byte>, v: seq<Byte>, base: nat, ns: seq<nat>, wb: seq<Byte>, vb: seq<Byte>, k: nat)
    requires wb == Words(Big, ns, 4) && vb == Words(Little, ns, 4) && base % 4 == 0
    requires base + |wb| <= |w| && base + |wb| <= |v| && base <= k < base + |wb|
    requires w[base..base + |wb|] == wb && v[base..base + |wb|] == vb
    ensures Mirror(k, 4) < |w| && w[Mirror(k, 4)] == v[k]
  {
    hide Words, Mirror;
    MirrorShift4(k, base);
    WordsMirror4(ns, k - base);
    WordsMirror4(ns, Mirror(k - base, 4));
    BlockByte(w, v, base, wb, vb, k, Mirror(k - base, 4));
  }

  lemma Turned8(w: seq<Byte>, v: seq<Byte>, base: nat, ns: seq<nat>, wb: seq<Byte>, vb: seq<Byte>, k: nat)
    requires wb == Words(Big, ns, 8) && vb == Words(Little, ns, 8) && base % 8 == 0
    requires base + |wb| <= |w| && base + |wb| <= |v| && base <= k < base + |wb|
    requires w[base..base + |wb|] == wb && v[base..base + |wb|] == vb
    ensures Mirror(k, 8) < |w| && w[Mirror(k, 8)] == v[k]
  {
    hide Words, Mirror;
    MirrorShift8(k, base);
    WordsMirror8(ns, k - base);
    WordsMirror8(ns, Mirror(k - base, 8));
    BlockByte(w, v, base, wb, vb, k, Mirror(k - base, 8));
  }

  // Unpacking a message from a sender of either byte order gives the message of a sender of the
  // receiver's order, but for the handle and the magic.
  lemma WireHosted(e: Endian, f: Fields, bufs: seq<seq<Byte>>)
    requires |f.handle| == 8
    ensures |Wire(e, f, bufs)| == |Wire(Little, f, bufs)| >= 64 + 4 * |bufs|
    ensures Hosted(e, Wire(e, f, bufs), |bufs|) == Wire(e, f, bufs)[..12] + Wire(Little, f, bufs)[12..]
  {
    hide Words, Word, Wire, Mirror;
    WireParts(e, f, bufs);
    WireParts(Little, f, bufs);
    WireSize(e, f, bufs);
    WireSize(Little, f, bufs);
    var w, v, c := Wire(e, f, bufs), Wire(Little, f, bufs), |bufs|;
    if e.Big? {
      forall k | 12 <= k < |w|
        ensures Source(k, c) < |w| && w[Source(k, c)] == v[k]
      {
        if k < 24 {
          var ns := [f.kind, VERSION, f.opc];
          Turned4(w, v, 12, ns, Words(Big, ns, 4), Words(Little, ns, 4), k);
        } else if k < 48 {
          var ns := [f.lastXid, f.lastCommitted, f.transno];
          Turned8(w, v, 24, ns, Words(Big, ns, 8), Words(Little, ns, 8), k);
        } else if k < 64 + 4 * c {
          var ns := Tail32(f, LensOf(bufs));
          Turned4(w, v, 48, ns, Words(Big, ns, 4), Words(Little, ns, 4), k);
        } else {
          assert w[k] == w[64 + 4 * c..][k - 64 - 4 * c] && v[k] == v[64 + 4 * c..][k - 64 - 4 * c];
        }
      }
    }
  }

  // Where the fields of a message are.
  ghost predicate Laid(e: Endian, s: seq<Byte>, f: Fields, lens: seq<nat>) {
    && |s| >= 64 + 4 * |lens| && s[..8] == f.handle
    && ReadWord(e, s[12..16]) == f.kind && ReadWord(e, s[16..20]) == 3 && ReadWord(e, s[20..24]) == f.opc
    && ReadWord(e, s[24..32]) == f.lastXid && ReadWord(e, s[32..40]) == f.lastCommitted
    && ReadWord(e, s[40..48]) == f.transno && ReadWord(e, s[48..52]) == f.status && ReadWord(e, s[52..56]) == f.flags
    && ReadWord(e, s[56..60]) == f.connCnt && ReadWord(e, s[60..64]) == |lens|
    && forall i :: 0 <= i < |lens| ==> ReadWord(e, s[64 + 4 * i..68 + 4 * i]) == lens[i]
  }

  lemma WireLaid(e: Endian, f: Fields, bufs: seq<seq<Byte>>)
    requires FieldsOk(f) && |bufs| < 0x1_0000_0000 && forall b <- bufs :: |b| < 0x1_0000_0000
    ensures Laid(e, Wire(e, f, bufs), f, LensOf(bufs))
    ensures Wire(e, f, bufs)[8..12] == if e.Little? then [0xd0, 0x0b, 0xd0, 0x0b] else [0x0b, 0xd0, 0x0b, 0xd0]
  {
    hide Words, Word, Wire, ReadWord, Pow256;
    WireParts(e, f, bufs);
    WireFields(e, f, bufs);
    var w, lens := Wire(e, f, bufs), LensOf(bufs);
    Width4();
    FirstLaid(e, w, f);
    SecondLaid(e, w, f);
    ThirdLaid(e, w, f, lens);
    assert w[..8] == w[..12][..8];
    MagicBytes();
    forall i | 0 <= i < |lens|
      ensures ReadWord(e, w[64 + 4 * i..68 + 4 * i]) == lens[i]
    {
      assert LensIn(e, w, |bufs|)[i] == lens[i];
    }
  }

  lemma FirstLaid(e: Endian, w: seq<Byte>, f: Fields)
    requires |w| >= 24 && w[12..24] == Words(e, [f.kind, VERSION, f.opc], 4) && f.kind < Pow256(4) && f.opc < Pow256(4)
    ensures ReadWord(e, w[12..16]) == f.kind && ReadWord(e, w[16..20]) == 3 && ReadWord(e, w[20..24]) == f.opc
  {
    hide Words, Word, ReadWord, Pow256;
    var ns := [f.kind, VERSION, f.opc];
    Width4();
    Field4At(e, w, 12, ns, 0);
    Field4At(e, w, 12, ns, 1);
    Field4At(e, w, 12, ns, 2);
  }

  lemma SecondLaid(e: Endian, w: seq<Byte>, f: Fields)
    requires |w| >= 48 && w[24..48] == Words(e, [f.lastXid, f.lastCommitted, f.transno], 8) && FieldsOk(f)
    ensures ReadWord(e, w[24..32]) == f.lastXid && ReadWord(e, w[32..40]) == f.lastCommitted
    ensures ReadWord(e, w[40..48]) == f.transno
  {
    hide Words, Word, ReadWord, Pow256;
    var ns := [f.lastXid, f.lastCommitted, f.transno];
    Width8();
    Field8At(e, w, 24, ns, 0);
    Field8At(e, w, 24, ns, 1);
    Field8At(e, w, 24, ns, 2);
  }

  lemma ThirdLaid(e: Endian, w: seq<Byte>, f: Fields, lens: seq<nat>)
    requires |w| >= 64 + 4 * |lens| && w[48..64 + 4 * |lens|] == Words(e, Tail32(f, lens), 4)
    requires FieldsOk(f) && |lens| < Pow256(4)
    ensures ReadWord(e, w[48..52]) == f.status && ReadWord(e, w[52..56]) == f.flags
    ensures ReadWord(e, w[56..60]) == f.connCnt && ReadWord(e, w[60..64]) == |lens|
  {
    hide Words, Word, ReadWord, Pow256;
    var ns := Tail32(f, lens);
    Width4();
    Field4At(e, w, 48, ns, 0);
    Field4At(e, w, 48, ns, 1);
    Field4At(e, w, 48, ns, 2);
    Field4At(e, w, 48, ns, 3);
  }

  lemma Field4At(e: Endian, w: seq<Byte>, base: nat, ns: seq<nat>, i: nat)
    requires i < |ns| && base + 4 * |ns| <= |w| && w[base..base + 4 * |ns|] == Words(e, ns, 4) && ns[i] < Pow256(4)
    ensures ReadWord(e, w[base + 4 * i..base + 4 * i + 4]) == ns[i]
  {
    hide Words, Word, ReadWord, Pow256;
    WordsAt(e, ns, 4, i);
    Slice(w, base, base + 4 * |ns|, 4 * i, 4 * i + 4);
    WordRoundTripped(e, ns[i], 4);
  }

  lemma Field8At(e: Endian, w: seq<Byte>, base: nat, ns: seq<nat>, i: nat)
    requires i < |ns| && base + 8 * |ns| <= |w| && w[base..base + 8 * |ns|] == Words(e, ns, 8) && ns[i] < Pow256(8)
    ensures ReadWord(e, w[base + 8 * i..base + 8 * i + 8]) == ns[i]
  {
    hide Words, Word, ReadWord, Pow256;
    WordsAt(e, ns, 8, i);
    Slice(w, base, base + 8 * |ns|, 8 * i, 8 * i + 8);
    WordRoundTripped(e, ns[i], 8);
  }

  lemma Width8()
    ensures Pow256(8) == 0x1_0000_0000_0000_0000
  {
    Width4();
    assert Pow256(6) == 256 * (256 * Pow256(4));
    assert Pow256(8) == 256 * (256 * Pow256(6));
  }

  // The magic, as it stands in a message.
  lemma MagicBytes()
    ensures Word(Little, MAGIC, 4) == [0xd0, 0x0b, 0xd0, 0x0b] && Word(Big, MAGIC, 4) == [0x0b, 0xd0, 0x0b, 0xd0]
  {
    hide ByteOf, LittleEndian;
    var s := LittleEndian(MAGIC, 4);
    LittleEndianSplit(0x0BD00BD0, 4);
    LittleEndianSplit(0x0BD00B, 3);
    LittleEndianSplit(0x0BD0, 2);
    LittleEndianSplit(0x0B, 1);
    SomeBytes();
    assert s == [0xd0, 0x0b, 0xd0, 0x0b];
    assert Rev(s) == [0x0b, 0xd0, 0x0b, 0xd0];
  }

  lemma SomeBytes()
    ensures ByteOf(0xd0) == 0xd0 && ByteOf(0x0b) == 0x0b
  {
    hide ByteOf;
    ByteOfIs(0xd0);
    ByteOfIs(0x0b);
    SameByte(ByteOf(0xd0), 0xd0);
    SameByte(ByteOf(0x0b), 0x0b);
  }

  // A message that was unpacked has its fields in the receiver's order, at the same places.
  lemma HostedLaid(e: Endian, f: Fields, bufs: seq<seq<Byte>>)
    requires FieldsOk(f) && |bufs| < 0x1_0000_0000 && forall b <- bufs :: |b| < 0x1_0000_0000
    ensures 64 + 4 * |bufs| <= |Wire(e, f, bufs)|
    ensures Laid(Little, Hosted(e, Wire(e, f, bufs), |bufs|), f, LensOf(bufs))
  {
    hide Words, Word, Wire, ReadWord, Pow256, Hosted;
    WireLaid(e, f, bufs);
    WireLaid(Little, f, bufs);
    WireHosted(e, f, bufs);
    var w, v, lens := Wire(e, f, bufs), Wire(Little, f, bufs), LensOf(bufs);
    var h := w[..12] + v[12..];
    assert h[12..] == v[12..] && h[..8] == w[..8];
    Same(h, v, 12, 16);
    Same(h, v, 16, 20);
    Same(h, v, 20, 24);
    Same(h, v, 24, 32);
    Same(h, v, 32, 40);
    Same(h, v, 40, 48);
    Same(h, v, 48, 52);
    Same(h, v, 52, 56);
    Same(h, v, 56, 60);
    Same(h, v, 60, 64);
    forall i | 0 <= i < |lens|
      ensures ReadWord(Little, h[64 + 4 * i..68 + 4 * i]) == lens[i]
    {
      Same(h, v, 64 + 4 * i, 68 + 4 * i);
    }
  }

  // Sizes and offsets: the header rounded up to eight bytes, then each buffer rounded up.
  lemma SizesAre(lens: seq<nat>, n: nat)
    requires n < |lens|
    ensures BufOff(lens, 0) == (64 + 4 * |lens| + 7) / 8 * 8
    ensures BufOff(lens, n + 1) == BufOff(lens, n) + (lens[n] + 7) / 8 * 8
    ensures MsgSize(lens) == BufOff(lens, |lens|)
  {
    BufOffStep(lens, n);
    assert lens[..0] == [] && lens[..|lens|] == lens;
  }

  // Every buffer is in its place.
  lemma {:induction false} BodyAt(bufs: seq<seq<Byte>>, n: nat)
    requires n < |bufs|
    ensures
      var off := BodySize(LensOf(bufs)[..n]);
      off + |bufs[n]| <= |Bodies(bufs)| && Bodies(bufs)[off..off + |bufs[n]|] == bufs[n]
    decreases |bufs|
  {
    hide Round;
    var pad := Zeros(Round(|bufs[0]|) - |bufs[0]|);
    var rest := Bodies(bufs[1..]);
    if n == 0 {
      assert LensOf(bufs)[..0] == [];
      SliceBefore(bufs[0], pad, rest);
    } else {
      BodyAt(bufs[1..], n - 1);
      assert LensOf(bufs)[..n][1..] == LensOf(bufs[1..])[..n - 1];
      var off := BodySize(LensOf(bufs[1..])[..n - 1]);
      SliceAfter(bufs[0] + pad, rest, off, off + |bufs[n]|);
    }
  }

  // What a receiver gets out of a message, whatever the sender's byte order: the message is
  // accepted, has exactly the computed size, and every buffer is found where it is looked for.
  lemma RoundTrip(e: Endian, f: Fields, bufs: seq<seq<Byte>>)
    requires FieldsOk(f) && MsgSize(LensOf(bufs)) < INT_LIMIT
    ensures
      var w, lens := Wire(e, f, bufs), LensOf(bufs);
      && |w| == MsgSize(lens) && Acceptable(e, w) && Judged(e, w) == Accepted && CountIn(e, w) == |bufs|
      && var h := Hosted(e, w, |bufs|);
         && CountIn(Little, h) == |bufs| && LensIn(Little, h, |bufs|) == lens
         && forall n :: 0 <= n < |bufs| ==> HoldsAt(h, BufOff(lens, n), bufs[n])
  {
    hide Wire, Word, Hosted, BodySize, Bodies, Round, ReadWord, CountIn, LensIn, HdrSize, Pad, Judged;
    PartsBelow(bufs);
    WireSize(e, f, bufs);
    WireFields(e, f, bufs);
    WireFields(Little, f, bufs);
    WireHosted(e, f, bufs);
    WireParts(Little, f, bufs);
    var w, v := Wire(e, f, bufs), Wire(Little, f, bufs);
    HdrCovers(|bufs|);
    UnpackExact(e, w);
    SameTail(w[..12] + v[12..], v, |bufs|);
    forall n | 0 <= n < |bufs|
      ensures HoldsAt(w[..12] + v[12..], BufOff(LensOf(bufs), n), bufs[n])
    {
      BufferFound(w[..12] + v[12..], bufs, n);
    }
  }

  // The count and every length are below the size of the message.
  lemma PartsBelow(bufs: seq<seq<Byte>>)
    ensures |bufs| <= MsgSize(LensOf(bufs)) && forall b <- bufs :: |b| <= MsgSize(LensOf(bufs))
  {
    hide BodySize;
    forall n | 0 <= n < |bufs|
      ensures |bufs[n]| <= MsgSize(LensOf(bufs))
    {
      BuffersApart(LensOf(bufs), n, n + 1);
    }
  }

  ghost predicate HoldsAt(s: seq<Byte>, off: nat, b: seq<Byte>) {
    off + |b| <= |s| && s[off..off + |b|] == b
  }

  lemma HdrCovers(count: nat)
    ensures 64 + 4 * count <= HdrSize(count)
  {}

  // Reading depends only on what follows the magic.
  lemma SameTail(h: seq<Byte>, v: seq<Byte>, count: nat)
    requires |h| == |v| >= 64 + 4 * count && h[12..] == v[12..]
    ensures CountIn(Little, h) == CountIn(Little, v) && LensIn(Little, h, count) == LensIn(Little, v, count)
    ensures h[64 + 4 * count..] == v[64 + 4 * count..]
  {
    hide ReadWord;
    Same(h, v, 60, 64);
    forall i | 0 <= i < count
      ensures h[64 + 4 * i..68 + 4 * i] == v[64 + 4 * i..68 + 4 * i]
    {
      Same(h, v, 64 + 4 * i, 68 + 4 * i);
    }
    Same(h, v, 64 + 4 * count, |h|);
  }

  lemma Same(h: seq<Byte>, v: seq<Byte>, a: nat, b: nat)
    requires |h| == |v| && 12 <= a <= b <= |h| && h[12..] == v[12..]
    ensures h[a..b] == v[a..b]
  {
    forall k | a <= k < b
      ensures h[k] == v[k]
    {
      assert h[k] == h[12..][k - 12] && v[k] == v[12..][k - 12];
    }
  }

  lemma BufferFound(h: seq<Byte>, bufs: seq<seq<Byte>>, n: nat)
    requires n < |bufs| && |h| >= 64 + 4 * |bufs| && h[64 + 4 * |bufs|..] == Pad(|bufs|) + Bodies(bufs)
    ensures HoldsAt(h, BufOff(LensOf(bufs), n), bufs[n])
  {
    hide BodySize, Bodies, Round, Pad, HdrSize, LensOf, HoldsAt;
    BodyAt(bufs, n);
    PadSize(|bufs|);
    HoldsBehind(h, 64 + 4 * |bufs|, Pad(|bufs|), Bodies(bufs), BodySize(LensOf(bufs)[..n]), bufs[n]);
  }

  // What stands in the last part of a message.
  lemma HoldsBehind(h: seq<Byte>, base: nat, pad: seq<Byte>, bodies: seq<Byte>, o: nat, b: seq<Byte>)
    requires base <= |h| && h[base..] == pad + bodies && o + |b| <= |bodies| && bodies[o..o + |b|] == b
    ensures HoldsAt(h, base + |pad| + o, b)
  {
    var off := base + |pad| + o;
    assert |h| == base + |pad| + |bodies|;
    forall k | 0 <= k < |b|
      ensures h[off + k] == b[k]
    {
      assert h[off + k] == h[base..][|pad| + o + k] == bodies[o + k];
      assert bodies[o..o + |b|][k] == bodies[o + k];
    }
    assert h[off..off + |b|] == b;
  }

  lemma PadSize(count: nat)
    ensures 64 + 4 * count + |Pad(count)| == HdrSize(count)
  {}
}
