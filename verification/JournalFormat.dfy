/**
 The on-disk form of the write-ahead journal and what a recovery scan makes of it.

 A journal is a ring of fixed slots. Every slot holds one record, guarded by a magic number
 and a checksum over header and payload. Recovery reads the slots from the first to the last,
 stops at the first freshly formatted one, keeps the records that the cursor does not cover,
 and replays them in order of transaction ID.
 */
module JournalFormat {
  import opened Bytes
  import opened Crc

  const PJE_MAGIC: bv32 := 0x4567abcd
  const PJE_XID_NONE: nat := 0

  // Record types. `app` stands for the bits the application adds to the journal's own.
  datatype Kind = Format | Normal(app: nat, distill: bool)

  datatype Record = Record(magic: bv32, kind: Kind, xid: nat, txg: nat, chksum: bv64, data: seq<Byte>)

  // What the file system remembers about journal progress.
  datatype Cursor = Cursor(commitTxg: nat, distillXid: nat, replayXid: nat)

  datatype Event = Distill(rec: Record) | Replay(rec: Record)

  // ---------- Checksums ----------

  function KindBits(k: Kind): nat {
    match k
    case Format => 1
    case Normal(app, distill) => 8 * app + 2 + (if distill then 4 else 0)
  }

  // The header fields in front of the checksum, in the order of the record layout.
  function HeaderBytes(r: Record): seq<Byte> {
    HalfWordBytes(r.magic)
    + Encode([Field(KindBits(r.kind), 2), Field(|r.data|, 2), Field(r.xid, 8), Field(r.txg, 8)])
  }

  function Checksum(r: Record): bv64 {
    Crc64(HeaderBytes(r) + r.data)
  }

  predicate Intact(r: Record) {
    r.magic == PJE_MAGIC && r.chksum == Checksum(r)
  }

  predicate IsFormat(r: Record) {
    Intact(r) && r.kind.Format?
  }

  predicate IsEntry(r: Record) {
    Intact(r) && r.kind.Normal?
  }

  // A record with its checksum filled in.
  function Sealed(r: Record): Record {
    r.(chksum := Checksum(r))
  }

  lemma SealedIsIntact(r: Record)
    requires r.magic == PJE_MAGIC
    ensures Intact(Sealed(r)) && Sealed(r) == r.(chksum := Sealed(r).chksum)
  {
    hide Crc64, LittleEndian;
    assert HeaderBytes(Sealed(r)) == HeaderBytes(r);
  }

  // The checksum is accumulated over two regions in turn.
  method ComputeChecksum(r: Record) returns (c: bv64)
    ensures c == Checksum(r)
  {
    c := Add(ONES, HeaderBytes(r));
    c := Add(c, r.data);
    c := Xor(c, ONES);
    UpdateConcat(ONES, HeaderBytes(r), r.data);
  }

  // Damage to at most eight consecutive bytes of a record's data makes the record fail its
  // checksum.
  lemma DamageCaught(r: Record, pre: seq<Byte>, w: seq<Byte>, v: seq<Byte>, post: seq<Byte>)
    requires Intact(r) && r.data == pre + w + post && |w| == |v| <= 8 && w != v
    ensures !Intact(r.(data := pre + v + post))
  {
    hide Crc64, LittleEndian;
    var head := HeaderBytes(r);
    ByteBurstDetected(head + pre, w, v, post);
    assert head + pre + w + post == head + r.data;
    assert head + pre + v + post == head + (pre + v + post);
  }

  // What a slot is checked for: the magic number, and the checksum over header and payload.
  lemma IntactIs(r: Record)
    ensures Intact(r) <==> r.magic == 0x4567abcd && Bits(r.chksum, 64) == MessageChecksum(HeaderBytes(r) + r.data)
  {
    hide Crc64, Bits, MessageChecksum, HeaderBytes;
    ChecksumIsRemainder(HeaderBytes(r) + r.data);
    if Bits(r.chksum, 64) == Bits(Checksum(r), 64) {
      BitsInjective(r.chksum, Checksum(r));
    }
  }

  // A formatted slot has type 1. An entry has bit 1 set, bit 2 if it is to be distilled, and the
  // application's type above.
  lemma TypeBits(k: Kind)
    ensures k.Format? ==> KindBits(k) == 1
    ensures k.Normal? ==> KindBits(k) % 8 == (if k.distill then 6 else 2) && KindBits(k) / 8 == k.app
  {
    if k.Normal? {
      LowBits(k.app, if k.distill then 6 else 2);
    }
  }

  lemma LowBits(q: nat, r: nat)
    requires r < 8
    ensures (8 * q + r) % 8 == r && (8 * q + r) / 8 == q
  {}

  // Where the fields are in front of the checksum: magic number, type, length, transaction ID and
  // group.
  lemma HeaderLayout(r: Record)
    requires Sized(r)
    ensures
      var h := HeaderBytes(r);
      && |h| == 24 && h[0..4] == HalfWordBytes(r.magic)
      && FromLittleEndian(h[4..6]) == KindBits(r.kind)
      && FromLittleEndian(h[6..8]) == |r.data| && FromLittleEndian(h[8..16]) == r.xid
      && FromLittleEndian(h[16..24]) == r.txg
  {
    hide LittleEndian, FromLittleEndian, HalfWordBytes, Pow256, HeaderBytes;
    HeaderParts(r);
    Widths();
    LittleEndianRoundTrip(KindBits(r.kind), 2);
    LittleEndianRoundTrip(|r.data|, 2);
    LittleEndianRoundTrip(r.xid, 8);
    LittleEndianRoundTrip(r.txg, 8);
  }

  lemma Widths()
    ensures Pow256(2) == 0x1_0000 && Pow256(8) == 0x1_0000_0000_0000_0000
  {
    assert Pow256(2) == 0x1_0000;
    assert Pow256(4) == 256 * (256 * Pow256(2));
    assert Pow256(6) == 256 * (256 * Pow256(4));
    assert Pow256(8) == 256 * (256 * Pow256(6));
  }

  lemma HeaderParts(r: Record)
    ensures
      var h := HeaderBytes(r);
      && |h| == 24 && h[0..4] == HalfWordBytes(r.magic) && h[4..6] == LittleEndian(KindBits(r.kind), 2)
      && h[6..8] == LittleEndian(|r.data|, 2) && h[8..16] == LittleEndian(r.xid, 8)
      && h[16..24] == LittleEndian(r.txg, 8)
  {
    hide LittleEndian, HalfWordBytes;
    var a, b := Field(KindBits(r.kind), 2), Field(|r.data|, 2);
    var c, d := Field(r.xid, 8), Field(r.txg, 8);
    FourFields(a, b, c, d);
  }

  lemma FourFields(a: Field, b: Field, c: Field, d: Field)
    ensures Encode([a, b, c, d]) == LittleEndian(a.value, a.width)
      + (LittleEndian(b.value, b.width) + (LittleEndian(c.value, c.width) + (LittleEndian(d.value, d.width) + [])))
  {
    hide LittleEndian, Encode;
    EncodeCons(a, [b, c, d]);
    EncodeCons(b, [c, d]);
    EncodeCons(c, [d]);
    EncodeCons(d, []);
    EncodeNone();
    assert [a] + [b, c, d] == [a, b, c, d] && [b] + [c, d] == [b, c, d] && [c] + [d] == [c, d] && [d] + [] == [d];
  }

  lemma EncodeCons(f: Field, fs: seq<Field>)
    ensures Encode([f] + fs) == LittleEndian(f.value, f.width) + Encode(fs)
  {
    assert ([f] + fs)[1..] == fs;
  }

  lemma EncodeNone()
    ensures Encode([]) == []
  {}

  // The fields of a record fit where they are stored.
  predicate Sized(r: Record) {
    && KindBits(r.kind) < 0x1_0000 && |r.data| < 0x1_0000
    && r.xid < 0x1_0000_0000_0000_0000 && r.txg < 0x1_0000_0000_0000_0000
  }

  // Damage to the header that stays within eight consecutive bytes is caught like damage to the
  // payload.
  lemma HeaderDamageCaught(r: Record, q: Record, lo: nat, hi: nat)
    requires Intact(r) && q.data == r.data && q.chksum == r.chksum
    requires lo <= hi <= 24 && hi - lo <= 8
    requires |HeaderBytes(r)| == |HeaderBytes(q)| == 24
    requires HeaderBytes(r)[..lo] == HeaderBytes(q)[..lo] && HeaderBytes(r)[hi..] == HeaderBytes(q)[hi..]
    requires HeaderBytes(r) != HeaderBytes(q)
    ensures !Intact(q)
  {
    hide Crc64, HeaderBytes;
    var g, h := HeaderBytes(r), HeaderBytes(q);
    var pre, w, v, post := g[..lo], g[lo..hi], h[lo..hi], g[hi..];
    ThreeParts(g, lo, hi);
    ThreeParts(h, lo, hi);
    ByteBurstDetected(pre, w, v, post + r.data);
    Regroup(pre, w, post, r.data);
    Regroup(pre, v, post, r.data);
  }

  lemma Regroup(a: seq<Byte>, b: seq<Byte>, c: seq<Byte>, d: seq<Byte>)
    ensures a + b + (c + d) == a + b + c + d
  {}

  // An intact record does not pass with another ID, another group or another type.
  lemma OtherXidCaught(r: Record, xid: nat)
    requires Intact(r) && Sized(r) && Sized(r.(xid := xid)) && xid != r.xid
    ensures !Intact(r.(xid := xid))
  {
    hide Intact, HeaderBytes, KindBits;
    var q := r.(xid := xid);
    HeaderLayout(r);
    HeaderLayout(q);
    HeaderParts(r);
    HeaderParts(q);
    Outside(HeaderBytes(r), HeaderBytes(q), 8, 16);
    HeaderDamageCaught(r, q, 8, 16);
  }

  lemma OtherTxgCaught(r: Record, txg: nat)
    requires Intact(r) && Sized(r) && Sized(r.(txg := txg)) && txg != r.txg
    ensures !Intact(r.(txg := txg))
  {
    hide Intact, HeaderBytes, KindBits;
    var q := r.(txg := txg);
    HeaderLayout(r);
    HeaderLayout(q);
    HeaderParts(r);
    HeaderParts(q);
    Outside(HeaderBytes(r), HeaderBytes(q), 16, 24);
    HeaderDamageCaught(r, q, 16, 24);
  }

  lemma OtherKindCaught(r: Record, kind: Kind)
    requires Intact(r) && Sized(r) && Sized(r.(kind := kind)) && kind != r.kind
    ensures !Intact(r.(kind := kind))
  {
    hide Intact, HeaderBytes, KindBits, FromLittleEndian;
    var q := r.(kind := kind);
    KindsDiffer(r.kind, kind);
    HeaderLayout(r);
    HeaderLayout(q);
    HeaderParts(r);
    HeaderParts(q);
    Outside(HeaderBytes(r), HeaderBytes(q), 4, 6);
    HeaderDamageCaught(r, q, 4, 6);
  }

  lemma KindsDiffer(k: Kind, l: Kind)
    requires k != l
    ensures KindBits(k) != KindBits(l)
  {}

  // Two headers that agree in their other fields.
  lemma Outside(g: seq<Byte>, h: seq<Byte>, lo: nat, hi: nat)
    requires |g| == |h| == 24 && (lo, hi) in {(4, 6), (8, 16), (16, 24)}
    requires g[0..4] == h[0..4] && g[6..8] == h[6..8]
    requires (lo == 4 || g[4..6] == h[4..6]) && (lo == 8 || g[8..16] == h[8..16]) && (lo == 16 || g[16..24] == h[16..24])
    ensures g[..lo] == h[..lo] && g[hi..] == h[hi..]
  {
    SameRange(g, h, 0, 4);
    SameRange(g, h, 6, 8);
    if lo != 4 { SameRange(g, h, 4, 6); }
    if lo != 8 { SameRange(g, h, 8, 16); }
    if lo != 16 { SameRange(g, h, 16, 24); }
  }

  lemma SameRange(g: seq<Byte>, h: seq<Byte>, a: nat, b: nat)
    requires a <= b <= |g| == |h| && g[a..b] == h[a..b]
    ensures forall k :: a <= k < b ==> g[k] == h[k]
  {
    forall k | a <= k < b
      ensures g[k] == h[k]
    {
      assert g[a..b][k - a] == h[a..b][k - a];
    }
  }

  // ---------- The scan ----------

  // The entries a scan looks at: damaged slots are skipped, a formatted slot ends it.
  function Scanned(disk: seq<Record>): seq<Record> {
    if disk == [] || IsFormat(disk[0]) then []
    else if Intact(disk[0]) then [disk[0]] + Scanned(disk[1..])
    else Scanned(disk[1..])
  }

  function MaxXid(rs: seq<Record>): nat {
    if rs == [] then PJE_XID_NONE
    else if rs[0].xid > MaxXid(rs[1..]) then rs[0].xid else MaxXid(rs[1..])
  }

  // Whether a scanned entry still has to be replayed or distilled under a cursor.
  predicate Needed(r: Record, c: Cursor)
    requires r.kind.Normal?
  {
    r.xid > c.replayXid && (r.txg > c.commitTxg || (r.kind.distill && r.xid > c.distillXid))
  }

  function Keep(rs: seq<Record>, c: Cursor): (ks: seq<Record>)
    requires forall r <- rs :: r.kind.Normal?
    ensures forall r <- ks :: r.kind.Normal?
  {
    if rs == [] then []
    else if Needed(rs[0], c) then [rs[0]] + Keep(rs[1..], c)
    else Keep(rs[1..], c)
  }

  // Order of replay.
  predicate Before(a: Record, b: Record) {
    a.xid < b.xid || (a.xid == b.xid && a.txg <= b.txg)
  }

  function Insert(r: Record, rs: seq<Record>): seq<Record> {
    if rs == [] || Before(r, rs[0]) then [r] + rs else [rs[0]] + Insert(r, rs[1..])
  }

  function Sort(rs: seq<Record>): seq<Record> {
    if rs == [] then [] else Insert(rs[0], Sort(rs[1..]))
  }

  function ToReplay(disk: seq<Record>, c: Cursor): seq<Record> {
    ScannedAreEntries(disk);
    Sort(Keep(Scanned(disk), c))
  }

  // The last transaction ID in use, as recovery sees it.
  function LastXid(disk: seq<Record>, c: Cursor): nat {
    var x := MaxXid(Scanned(disk));
    if x < c.distillXid then c.distillXid else x
  }

  // ---------- The replay ----------

  function EventsOf(r: Record, c: Cursor): seq<Event> {
    (if r.xid > c.distillXid then [Distill(r)] else [])
    + (if r.txg > c.commitTxg then [Replay(r)] else [])
  }

  function Events(rs: seq<Record>, c: Cursor): seq<Event> {
    if rs == [] then [] else EventsOf(rs[0], c) + Events(rs[1..], c)
  }

  function ReplayXidAfter(rs: seq<Record>, c: Cursor): nat {
    if rs == [] then c.replayXid else rs[|rs| - 1].xid
  }

  // ---------- Facts about scan and sort ----------

  lemma {:induction false} ScannedAreEntries(disk: seq<Record>)
    ensures forall r <- Scanned(disk) :: IsEntry(r) && r in disk
    decreases |disk|
  {
    hide Intact;
    if disk != [] && !IsFormat(disk[0]) {
      ScannedAreEntries(disk[1..]);
    }
  }

  // Formatted slots are never followed by written ones.
  ghost predicate FormatSuffix(disk: seq<Record>) {
    forall i, j :: 0 <= i < j < |disk| && IsFormat(disk[i]) ==> IsFormat(disk[j])
  }

  // When formatted slots form a suffix, stopping at the first one misses nothing.
  lemma {:induction false} ScanFindsEverything(disk: seq<Record>)
    requires FormatSuffix(disk)
    ensures forall r <- disk :: IsEntry(r) ==> r in Scanned(disk)
    decreases |disk|
  {
    hide Intact;
    if disk != [] {
      if IsFormat(disk[0]) {
        forall r <- disk
          ensures IsFormat(r)
        {
          var j :| 0 <= j < |disk| && disk[j] == r;
          assert j > 0 ==> IsFormat(disk[0]) && IsFormat(disk[j]);
        }
      } else {
        assert FormatSuffix(disk[1..]) by {
          forall i, j | 0 <= i < j < |disk| - 1 && IsFormat(disk[1..][i])
            ensures IsFormat(disk[1..][j])
          {
            assert IsFormat(disk[i + 1]);
            assert IsFormat(disk[j + 1]);
          }
        }
        ScanFindsEverything(disk[1..]);
        assert disk == [disk[0]] + disk[1..];
      }
    }
  }

  // A scan looks at slot i: there is no formatted slot up to it.
  ghost predicate Reached(disk: seq<Record>, i: nat) {
    i < |disk| && forall j :: 0 <= j <= i ==> !IsFormat(disk[j])
  }

  // A record that a scan looks at and finds intact.
  ghost predicate Found(disk: seq<Record>, r: Record) {
    IsEntry(r) && exists i: nat :: Reached(disk, i) && disk[i] == r
  }

  // What a scan sees of any disk: the intact entries in front of the first formatted slot.
  lemma {:induction false} ScannedExactly(disk: seq<Record>)
    ensures forall r :: r in Scanned(disk) <==> Found(disk, r)
    decreases |disk|
  {
    hide Intact;
    if disk != [] && !IsFormat(disk[0]) {
      ScannedExactly(disk[1..]);
      forall r
        ensures Found(disk, r) <==> (Intact(disk[0]) && r == disk[0]) || Found(disk[1..], r)
      {
        FoundStep(disk, r);
      }
    } else {
      forall r
        ensures !Found(disk, r)
      {
        assert forall i: nat :: Reached(disk, i) ==> !IsFormat(disk[0]);
      }
    }
  }

  lemma FoundStep(disk: seq<Record>, r: Record)
    requires disk != [] && !IsFormat(disk[0])
    ensures Found(disk, r) <==> (Intact(disk[0]) && r == disk[0]) || Found(disk[1..], r)
  {
    hide Intact;
    if Found(disk, r) {
      var i: nat :| Reached(disk, i) && disk[i] == r;
      if i > 0 {
        assert forall j :: 0 <= j <= i - 1 ==> disk[1..][j] == disk[j + 1];
        assert Reached(disk[1..], i - 1) && disk[1..][i - 1] == r;
      }
    }
    if Found(disk[1..], r) {
      var i: nat :| Reached(disk[1..], i) && disk[1..][i] == r;
      forall j | 0 <= j <= i + 1
        ensures !IsFormat(disk[j])
      {
        assert j > 0 ==> disk[j] == disk[1..][j - 1];
      }
      assert Reached(disk, i + 1) && disk[i + 1] == r;
    }
    if Intact(disk[0]) && r == disk[0] {
      assert Reached(disk, 0);
    }
  }

  // No two entries on disk carry the same transaction ID.
  ghost predicate DistinctXids(disk: seq<Record>) {
    forall i, j :: 0 <= i < j < |disk| && IsEntry(disk[i]) && IsEntry(disk[j]) ==> disk[i].xid != disk[j].xid
  }

  ghost predicate Distinct(rs: seq<Record>) {
    rs != [] ==> (forall r <- rs[1..] :: r.xid != rs[0].xid) && Distinct(rs[1..])
  }

  lemma {:induction false} ScannedDistinct(disk: seq<Record>)
    requires DistinctXids(disk)
    ensures Distinct(Scanned(disk))
    decreases |disk|
  {
    hide Intact;
    if disk != [] && !IsFormat(disk[0]) {
      forall i, j | 0 <= i < j < |disk| - 1 && IsEntry(disk[1..][i]) && IsEntry(disk[1..][j])
        ensures disk[1..][i].xid != disk[1..][j].xid
      {
        assert disk[1..][i] == disk[i + 1] && disk[1..][j] == disk[j + 1];
      }
      ScannedDistinct(disk[1..]);
      ScannedAreEntries(disk[1..]);
      if Intact(disk[0]) {
        forall r <- Scanned(disk[1..])
          ensures r.xid != disk[0].xid
        {
          var m :| 0 <= m < |disk[1..]| && disk[1..][m] == r;
          assert disk[m + 1] == r;
        }
      }
    }
  }

  lemma {:induction false} MaxXidBounds(rs: seq<Record>)
    ensures forall r <- rs :: r.xid <= MaxXid(rs)
    ensures MaxXid(rs) == PJE_XID_NONE || exists r <- rs :: r.xid == MaxXid(rs)
    decreases |rs|
  {
    if rs != [] {
      MaxXidBounds(rs[1..]);
      assert rs == [rs[0]] + rs[1..];
      assert MaxXid(rs) == rs[0].xid || MaxXid(rs) == MaxXid(rs[1..]);
    }
  }

  lemma {:induction false} KeepExactly(rs: seq<Record>, c: Cursor)
    requires forall r <- rs :: r.kind.Normal?
    ensures forall r :: r in Keep(rs, c) <==> r in rs && Needed(r, c)
    decreases |rs|
  {
    if rs != [] {
      KeepExactly(rs[1..], c);
      assert rs == [rs[0]] + rs[1..];
    }
  }

  lemma {:induction false} KeepDistinct(rs: seq<Record>, c: Cursor)
    requires forall r <- rs :: r.kind.Normal?
    requires Distinct(rs)
    ensures Distinct(Keep(rs, c))
    decreases |rs|
  {
    if rs != [] {
      KeepDistinct(rs[1..], c);
      KeepExactly(rs[1..], c);
    }
  }

  ghost predicate Increasing(rs: seq<Record>) {
    rs != [] ==> (forall r <- rs[1..] :: rs[0].xid < r.xid) && Increasing(rs[1..])
  }

  lemma {:induction false} InsertIncreasing(r: Record, rs: seq<Record>)
    requires Increasing(rs) && forall q <- rs :: q.xid != r.xid
    ensures Increasing(Insert(r, rs))
    ensures forall q :: q in Insert(r, rs) <==> q == r || q in rs
    decreases |rs|
  {
    if rs == [] {
    } else if Before(r, rs[0]) {
      assert ([r] + rs)[1..] == rs;
    } else {
      InsertIncreasing(r, rs[1..]);
      assert rs == [rs[0]] + rs[1..];
      assert Insert(r, rs)[1..] == Insert(r, rs[1..]);
    }
  }

  // Sorting entries of distinct transaction IDs keeps them all and puts them in order.
  lemma {:induction false} SortIncreasing(rs: seq<Record>)
    requires Distinct(rs)
    ensures Increasing(Sort(rs))
    ensures forall r :: r in Sort(rs) <==> r in rs
    decreases |rs|
  {
    if rs != [] {
      SortIncreasing(rs[1..]);
      InsertIncreasing(rs[0], Sort(rs[1..]));
      assert rs == [rs[0]] + rs[1..];
    }
  }

  ghost predicate InBefore(rs: seq<Record>) {
    forall i, j :: 0 <= i < j < |rs| ==> Before(rs[i], rs[j])
  }

  // Sorting any entries keeps them all and puts them in order of ID, and of group among equals.
  lemma {:induction false} SortSorts(rs: seq<Record>)
    ensures multiset(Sort(rs)) == multiset(rs) && InBefore(Sort(rs))
    decreases |rs|
  {
    hide Before;
    if rs != [] {
      SortSorts(rs[1..]);
      InsertSorts(rs[0], Sort(rs[1..]));
      assert rs == [rs[0]] + rs[1..];
    }
  }

  lemma {:induction false} InsertSorts(r: Record, rs: seq<Record>)
    requires InBefore(rs)
    ensures multiset(Insert(r, rs)) == multiset(rs) + multiset{r} && InBefore(Insert(r, rs))
    decreases |rs|
  {
    hide Before;
    if rs != [] && !Before(r, rs[0]) {
      var t := Insert(r, rs[1..]);
      assert InBefore(rs[1..]);
      InsertSorts(r, rs[1..]);
      assert rs == [rs[0]] + rs[1..];
      BeforeTotal(r, rs[0]);
      forall q <- t
        ensures Before(rs[0], q)
      {
        assert q in multiset(t);
        assert q == r || q in rs[1..];
      }
      InBeforeCons(rs[0], t);
    } else {
      forall q <- rs
        ensures Before(r, q)
      {
        var k :| 0 <= k < |rs| && rs[k] == q;
        if k > 0 { BeforeTrans(r, rs[0], q); }
      }
      InBeforeCons(r, rs);
    }
  }

  lemma InBeforeCons(r: Record, rs: seq<Record>)
    requires InBefore(rs) && forall q <- rs :: Before(r, q)
    ensures InBefore([r] + rs)
  {
    hide Before;
    var t := [r] + rs;
    forall i, j | 0 <= i < j < |t|
      ensures Before(t[i], t[j])
    {
      assert t[j] == rs[j - 1] && t[j] in rs;
      assert i > 0 ==> t[i] == rs[i - 1];
    }
  }

  lemma BeforeTotal(a: Record, b: Record)
    ensures Before(a, b) || Before(b, a)
  {}

  lemma BeforeTrans(a: Record, b: Record, c: Record)
    requires Before(a, b) && Before(b, c)
    ensures Before(a, c)
  {}

  // ---------- What a recovery does ----------

  // Whether recovery still owes an entry to the replay handler, and to the distill handler.
  predicate OwedReplay(r: Record, c: Cursor) {
    r.xid > c.replayXid && r.txg > c.commitTxg
  }

  predicate OwedDistill(r: Record, c: Cursor) {
    r.xid > c.replayXid && r.xid > c.distillXid && r.kind.Normal? && (r.txg > c.commitTxg || r.kind.distill)
  }

  // The events come in order of transaction ID.
  ghost predicate InXidOrder(es: seq<Event>) {
    forall i, j :: 0 <= i < j < |es| ==> es[i].rec.xid <= es[j].rec.xid
  }

  // What recovery does with any disk: which handler sees which entry, in order of ID.
  lemma RecoveryOfAnyDisk(disk: seq<Record>, c: Cursor)
    ensures var es := Events(ToReplay(disk, c), c);
      && InXidOrder(es)
      && (forall r :: Replay(r) in es <==> Found(disk, r) && OwedReplay(r, c))
      && (forall r :: Distill(r) in es <==> Found(disk, r) && OwedDistill(r, c))
  {
    hide Intact, Events, Scanned, Keep, Sort, Before, InXidOrder;
    ToReplayOfAnyDisk(disk, c);
    var rs := ToReplay(disk, c);
    EventsExactly(rs, c);
    EventsInXidOrder(rs, c);
    assert forall r :: Found(disk, r) ==> r.kind.Normal?;
  }

  lemma ToReplayOfAnyDisk(disk: seq<Record>, c: Cursor)
    ensures forall r :: r in ToReplay(disk, c) <==> Found(disk, r) && r.kind.Normal? && Needed(r, c)
    ensures InBefore(ToReplay(disk, c))
  {
    hide Intact, Scanned, Keep, Sort, Before, Found, Needed;
    ScannedAreEntries(disk);
    ScannedExactly(disk);
    var rs := Scanned(disk);
    KeepExactly(rs, c);
    SortSorts(Keep(rs, c));
    SameElements(Sort(Keep(rs, c)), Keep(rs, c));
    assert forall r :: Found(disk, r) ==> r in rs;
  }

  lemma SameElements(a: seq<Record>, b: seq<Record>)
    requires multiset(a) == multiset(b)
    ensures forall r :: r in a <==> r in b
  {
    assert forall r :: r in a <==> r in multiset(a);
    assert forall r :: r in b <==> r in multiset(b);
  }

  lemma {:induction false} EventsInXidOrder(rs: seq<Record>, c: Cursor)
    requires InBefore(rs)
    ensures InXidOrder(Events(rs, c))
    decreases |rs|
  {
    if rs != [] {
      var es, ts := EventsOf(rs[0], c), Events(rs[1..], c);
      assert InBefore(rs[1..]);
      EventsInXidOrder(rs[1..], c);
      EventsExactly(rs[1..], c);
      forall e <- ts
        ensures rs[0].xid <= e.rec.xid
      {
        assert e == Distill(e.rec) || e == Replay(e.rec);
        var k :| 0 <= k < |rs[1..]| && rs[1..][k] == e.rec;
        assert Before(rs[0], rs[k + 1]);
      }
      OrderConcat(es, ts, rs[0].xid);
    }
  }

  lemma OrderConcat(es: seq<Event>, ts: seq<Event>, x: nat)
    requires InXidOrder(ts) && (forall e <- es :: e.rec.xid == x) && forall e <- ts :: x <= e.rec.xid
    ensures InXidOrder(es + ts)
  {
    var t := es + ts;
    forall i, j | 0 <= i < j < |t|
      ensures t[i].rec.xid <= t[j].rec.xid
    {
      assert i < |es| ==> t[i] == es[i] && t[i] in es;
      assert j < |es| ==> t[j] == es[j] && t[j] in es;
      assert j >= |es| ==> t[j] == ts[j - |es|] && t[j] in ts;
      assert i >= |es| ==> t[i] == ts[i - |es|];
    }
  }

  // Where recovery leaves the replay cursor: at the last entry a handler was called for, and where
  // it was if there was none. A recovery of the same disk under that cursor calls no handler.
  lemma ReplayCursorExactly(disk: seq<Record>, c: Cursor)
    ensures var es, x := Events(ToReplay(disk, c), c), ReplayXidAfter(ToReplay(disk, c), c);
      && (forall e <- es :: e.rec.xid <= x)
      && (if es == [] then x == c.replayXid else x > c.replayXid && exists e <- es :: e.rec.xid == x)
      && Events(ToReplay(disk, c.(replayXid := x)), c.(replayXid := x)) == []
  {
    hide Intact, ToReplay, Events, Found;
    var rs := ToReplay(disk, c);
    ToReplayOfAnyDisk(disk, c);
    EventsExactly(rs, c);
    LastIsGreatest(rs);
    var es, x := Events(rs, c), ReplayXidAfter(rs, c);
    forall e <- es
      ensures e.rec in rs
    {
      assert e == Distill(e.rec) || e == Replay(e.rec);
    }
    if rs == [] {
      assert es == [] by { NoEvents(c); }
    } else {
      var last := rs[|rs| - 1];
      assert last in rs;
      var e := if last.txg > c.commitTxg then Replay(last) else Distill(last);
      assert e in es && e.rec.xid == x;
    }
    NothingLeft(disk, c, x);
  }

  lemma NoEvents(c: Cursor)
    ensures Events([], c) == []
  {}

  lemma LastIsGreatest(rs: seq<Record>)
    requires InBefore(rs)
    ensures rs != [] ==> forall r <- rs :: r.xid <= rs[|rs| - 1].xid
  {
    if rs != [] {
      forall r <- rs
        ensures r.xid <= rs[|rs| - 1].xid
      {
        var k :| 0 <= k < |rs| && rs[k] == r;
        assert k < |rs| - 1 ==> Before(rs[k], rs[|rs| - 1]);
      }
    }
  }

  lemma NothingLeft(disk: seq<Record>, c: Cursor, x: nat)
    requires x >= c.replayXid && forall r <- ToReplay(disk, c) :: r.xid <= x
    ensures ToReplay(disk, c.(replayXid := x)) == [] && Events(ToReplay(disk, c.(replayXid := x)), c.(replayXid := x)) == []
  {
    hide Intact, ToReplay, Found;
    var d := c.(replayXid := x);
    ToReplayOfAnyDisk(disk, c);
    ToReplayOfAnyDisk(disk, d);
    forall r
      ensures r !in ToReplay(disk, d)
    {
      assert r.kind.Normal? ==> (Needed(r, d) ==> Needed(r, c) && r.xid > x);
    }
    if ToReplay(disk, d) != [] {
      SomeElement(ToReplay(disk, d));
    }
    NoEvents(d);
  }

  lemma SomeElement(rs: seq<Record>)
    requires rs != []
    ensures exists r :: r in rs
  {
    assert rs[0] in rs;
  }

  // The ID that recovery goes on from: no entry it has found and not the distill cursor is above
  // it, and it is the ID of such an entry or that cursor.
  lemma LastXidOfAnyDisk(disk: seq<Record>, c: Cursor)
    ensures forall r :: Found(disk, r) ==> r.xid <= LastXid(disk, c)
    ensures c.distillXid <= LastXid(disk, c)
    ensures LastXid(disk, c) == c.distillXid || exists r :: Found(disk, r) && r.xid == LastXid(disk, c)
  {
    hide Found, Scanned, MaxXid;
    ScannedExactly(disk);
    MaxXidBounds(Scanned(disk));
  }

  // What recovery leaves as the last ID and as the replay cursor: the greatest ID of what was found, and
  // of what a handler was called for.
  ghost predicate Resumes(disk: seq<Record>, c: Cursor, last: nat, replayed: nat) {
    && (forall r :: Found(disk, r) ==> r.xid <= last) && c.distillXid <= last
    && (last == c.distillXid || exists r :: Found(disk, r) && r.xid == last)
    && (forall r :: Found(disk, r) && (OwedReplay(r, c) || OwedDistill(r, c)) ==> r.xid <= replayed)
    && (replayed == c.replayXid
        || exists r :: Found(disk, r) && (OwedReplay(r, c) || OwedDistill(r, c)) && r.xid == replayed)
  }

  lemma RecoveryResumes(disk: seq<Record>, c: Cursor)
    ensures Resumes(disk, c, LastXid(disk, c), ReplayXidAfter(ToReplay(disk, c), c))
  {
    hide Intact, ToReplay, Events, Found, OwedReplay, OwedDistill, LastXid, ReplayXidAfter, InXidOrder;
    LastXidOfAnyDisk(disk, c);
    ReplayCursorExactly(disk, c);
    RecoveryOfAnyDisk(disk, c);
    var es, x := Events(ToReplay(disk, c), c), ReplayXidAfter(ToReplay(disk, c), c);
    forall r | Found(disk, r) && (OwedReplay(r, c) || OwedDistill(r, c))
      ensures r.xid <= x
    {
      assert if OwedReplay(r, c) then Replay(r) in es else Distill(r) in es;
    }
    if es != [] {
      var e :| e in es && e.rec.xid == x;
      assert e == Replay(e.rec) || e == Distill(e.rec);
    }
  }

  lemma ToReplayExactly(disk: seq<Record>, c: Cursor)
    requires FormatSuffix(disk) && DistinctXids(disk)
    ensures forall r :: r in ToReplay(disk, c) <==> r in disk && IsEntry(r) && Needed(r, c)
    ensures Increasing(ToReplay(disk, c))
  {
    hide Intact, Sort, Scanned, Keep;
    var rs := Scanned(disk);
    ScannedAreEntries(disk);
    ScanFindsEverything(disk);
    ScannedDistinct(disk);
    KeepExactly(rs, c);
    KeepDistinct(rs, c);
    var ks := Keep(rs, c);
    SortIncreasing(ks);
  }

  lemma {:induction false} EventsExactly(rs: seq<Record>, c: Cursor)
    ensures forall r :: Distill(r) in Events(rs, c) <==> r in rs && r.xid > c.distillXid
    ensures forall r :: Replay(r) in Events(rs, c) <==> r in rs && r.txg > c.commitTxg
    decreases |rs|
  {
    if rs != [] {
      EventsExactly(rs[1..], c);
      assert rs == [rs[0]] + rs[1..];
      assert forall e :: e in Events(rs, c) <==> e in EventsOf(rs[0], c) || e in Events(rs[1..], c);
    }
  }

  // Events come in order of transaction ID, none is repeated, and an entry is distilled
  // before it is replayed.
  ghost predicate InOrder(es: seq<Event>) {
    es != [] ==>
      && (forall e <- es[1..] ::
            es[0].rec.xid < e.rec.xid || (es[0].Distill? && e == Replay(es[0].rec)))
      && InOrder(es[1..])
  }

  lemma {:induction false} EventsInOrder(rs: seq<Record>, c: Cursor)
    requires Increasing(rs)
    ensures InOrder(Events(rs, c))
    decreases |rs|
  {
    if rs != [] {
      var ts := Events(rs[1..], c);
      EventsInOrder(rs[1..], c);
      EventsExactly(rs[1..], c);
      forall e <- ts
        ensures rs[0].xid < e.rec.xid
      {
        assert e == Distill(e.rec) || e == Replay(e.rec);
      }
      Prepend(rs[0], ts, c);
    }
  }

  lemma Prepend(r: Record, ts: seq<Event>, c: Cursor)
    requires InOrder(ts) && forall e <- ts :: r.xid < e.rec.xid
    ensures InOrder(EventsOf(r, c) + ts)
  {
    hide InOrder;
    var second := if r.txg > c.commitTxg then [Replay(r)] + ts else ts;
    if r.txg > c.commitTxg {
      Front(Replay(r), ts);
    }
    if r.xid > c.distillXid {
      Front(Distill(r), second);
      assert EventsOf(r, c) + ts == [Distill(r)] + second;
    } else {
      assert EventsOf(r, c) + ts == second;
    }
  }

  lemma Front(e: Event, ts: seq<Event>)
    requires InOrder(ts)
    requires forall f <- ts :: e.rec.xid < f.rec.xid || (e.Distill? && f == Replay(e.rec))
    ensures InOrder([e] + ts)
  {
    assert ([e] + ts)[1..] == ts;
  }

  // The whole of recovery, for any disk whose formatted slots are a suffix: which handler sees
  // which entry, each once, in order.
  lemma RecoveryExact(disk: seq<Record>, c: Cursor)
    requires FormatSuffix(disk) && DistinctXids(disk)
    ensures var es := Events(ToReplay(disk, c), c);
      && InOrder(es)
      && (forall r :: Replay(r) in es <==>
            r in disk && IsEntry(r) && OwedReplay(r, c))
      && (forall r :: Distill(r) in es <==>
            r in disk && IsEntry(r) && OwedDistill(r, c))
  {
    hide Intact, ToReplay, Events;
    ToReplayExactly(disk, c);
    var rs := ToReplay(disk, c);
    EventsExactly(rs, c);
    EventsInOrder(rs, c);
  }

  // Entries that were not flagged for distilling are kept away from the distill handler exactly
  // when the cursor covers each of them, by its IDs or by its committed group.
  lemma DistillsOnlyFlagged(disk: seq<Record>, c: Cursor)
    requires FormatSuffix(disk) && DistinctXids(disk)
    ensures
      (forall r :: Distill(r) in Events(ToReplay(disk, c), c) ==> r.kind.Normal? && r.kind.distill)
      <==> forall r <- disk :: IsEntry(r) && !r.kind.distill ==>
             r.xid <= c.replayXid || r.xid <= c.distillXid || r.txg <= c.commitTxg
  {
    hide Intact, ToReplay, Events, InOrder, FormatSuffix, DistinctXids;
    RecoveryExact(disk, c);
    assert forall r :: r in disk && IsEntry(r) ==>
      (Distill(r) in Events(ToReplay(disk, c), c) <==> OwedDistill(r, c));
  }

  // One slot with an entry that was not flagged, and a cursor that has seen nothing: recovery
  // distills the entry.
  lemma UnflaggedDistilled()
    ensures
      var r, c := Sealed(Record(PJE_MAGIC, Normal(0, false), 1, 1, 0, [])), Cursor(0, 0, 0);
      IsEntry(r) && !r.kind.distill && Distill(r) in Events(ToReplay([r], c), c)
  {
    hide Intact, ToReplay, Events, Sealed, InOrder;
    var r, c := Sealed(Record(PJE_MAGIC, Normal(0, false), 1, 1, 0, [])), Cursor(0, 0, 0);
    SealedIsIntact(Record(PJE_MAGIC, Normal(0, false), 1, 1, 0, []));
    RecoveryExact([r], c);
    assert r in [r] && Needed(r, c);
  }

  // A recovery interrupted after its first n entries, with the progress cursor saved at the
  // last of them, is resumed by the next recovery at exactly the entry that follows.
  lemma ReplayResumes(disk: seq<Record>, c: Cursor, n: nat)
    requires FormatSuffix(disk) && DistinctXids(disk)
    requires 0 < n <= |ToReplay(disk, c)|
    ensures var rs := ToReplay(disk, c);
      ToReplay(disk, c.(replayXid := rs[n - 1].xid)) == rs[n..]
  {
    hide Intact, ToReplay, FormatSuffix, DistinctXids, Increasing, Needed;
    var rs := ToReplay(disk, c);
    var last := rs[n - 1].xid;
    var c' := c.(replayXid := last);
    ToReplayExactly(disk, c);
    ToReplayExactly(disk, c');
    IncreasingSuffix(rs, n);
    assert rs[n - 1] in rs;
    NeededAfter(rs[n - 1], c, last);
    forall r
      ensures r in ToReplay(disk, c') <==> r in rs[n..]
    {
      NeededAfter(r, c, last);
      InSuffix(rs, n, r);
    }
    SameIncreasing(ToReplay(disk, c'), rs[n..]);
  }

  lemma NeededAfter(r: Record, c: Cursor, last: nat)
    ensures r.kind.Normal? && Needed(r, c) ==> r.xid > c.replayXid
    ensures r.kind.Normal? && last > c.replayXid ==>
      (Needed(r, c.(replayXid := last)) <==> Needed(r, c) && r.xid > last)
  {}

  // The part of an increasing list after position n is what exceeds the element before it.
  lemma InSuffix(rs: seq<Record>, n: nat, r: Record)
    requires Increasing(rs) && 0 < n <= |rs|
    ensures r in rs[n..] <==> r in rs && r.xid > rs[n - 1].xid
  {
    hide Increasing;
    IncreasingAt(rs, n - 1);
    assert rs == rs[..n] + rs[n..];
    assert r in rs <==> r in rs[..n] || r in rs[n..];
  }

  lemma {:induction false} IncreasingAt(rs: seq<Record>, k: nat)
    requires Increasing(rs) && k < |rs|
    ensures forall r <- rs[..k + 1] :: r.xid <= rs[k].xid
    ensures forall r <- rs[k + 1..] :: rs[k].xid < r.xid
    decreases |rs|
  {
    if k > 0 {
      IncreasingAt(rs[1..], k - 1);
      assert rs[..k + 1] == [rs[0]] + rs[1..][..k];
      assert rs[1..][k..] == rs[k + 1..];
      assert rs[k] in rs[1..];
    } else {
      assert rs[..1] == [rs[0]];
    }
  }

  lemma {:induction false} IncreasingSuffix(rs: seq<Record>, n: nat)
    requires Increasing(rs) && n <= |rs|
    ensures Increasing(rs[n..])
    decreases n
  {
    if n > 0 {
      IncreasingSuffix(rs[1..], n - 1);
      assert rs[1..][n - 1..] == rs[n..];
    } else {
      assert rs[0..] == rs;
    }
  }

  lemma {:induction false} SameIncreasing(a: seq<Record>, b: seq<Record>)
    requires Increasing(a) && Increasing(b)
    requires forall r :: r in a <==> r in b
    ensures a == b
    decreases |a|
  {
    assert a != [] ==> a[0] in b;
    assert b != [] ==> b[0] in a;
    if a != [] {
      assert a == [a[0]] + a[1..] && b == [b[0]] + b[1..];
      assert a[0] == b[0];
      forall r
        ensures r in a[1..] <==> r in b[1..]
      {
        assert r in a <==> r == a[0] || r in a[1..];
        assert r in b <==> r == b[0] || r in b[1..];
      }
      SameIncreasing(a[1..], b[1..]);
    }
  }
}
