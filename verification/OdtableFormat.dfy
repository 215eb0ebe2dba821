/**
 The file format of an on-disk table: a header, then slots of one item and one footer each.
 A footer says whether the slot is in use, repeats the slot number, and carries a checksum over
 itself and, when the slot is in use, over the item.
 */
module OdtableFormat {
  import opened Bytes
  import opened Optional
  import opened Crc

  const HDR_SIZE: nat := 32
  const FTR_SIZE: nat := 16
  const FTRF_INUSE: bv32 := 1

  datatype Header = Header(nitems: nat, itemsz: nat, slotsz: nat, options: nat, start: nat)

  // What a table can be created with: the fields fit, slots have no padding, slot 0 exists and
  // the slots come after the header.
  predicate WellSized(h: Header) {
    && 0 < h.nitems < 0x1_0000_0000 && h.slotsz == h.itemsz + FTR_SIZE < 0x1_0000_0000
    && h.options < 0x1_0000_0000 && HDR_SIZE <= h.start < 0x8000_0000_0000_0000
  }

  predicate CrcOn(h: Header) {
    h.options % 2 == 1
  }

  function Off(h: Header, i: nat): nat {
    h.start + i * h.slotsz
  }

  lemma OffApart(h: Header, i: nat, j: nat)
    requires i < j
    ensures Off(h, i) + h.slotsz <= Off(h, j)
  {
    assert (i + 1) * h.slotsz <= j * h.slotsz;
    assert (i + 1) * h.slotsz == i * h.slotsz + h.slotsz;
  }

  // ---------- Header ----------

  function HeaderHead(h: Header): (b: seq<Byte>)
    ensures |b| == 24
  {
    LittleEndian(h.nitems, 4) + LittleEndian(h.itemsz, 4) + LittleEndian(h.slotsz, 4)
    + LittleEndian(h.options, 4) + LittleEndian(h.start, 8)
  }

  function HeaderBytes(h: Header): (b: seq<Byte>)
    ensures |b| == HDR_SIZE
  {
    HeaderHead(h) + WordBytes(Crc64(HeaderHead(h)))
  }

  // Read a header back; a short file and a bad checksum are fatal.
  function LoadHeader(file: seq<Byte>): Option<Header> {
    if |file| < HDR_SIZE || WordFrom(file[24..32]) != Crc64(file[..24]) then None
    else Some(Header(FromLittleEndian(file[0..4]), FromLittleEndian(file[4..8]), FromLittleEndian(file[8..12]),
                     FromLittleEndian(file[12..16]), FromLittleEndian(file[16..24])))
  }

  lemma HeaderRoundTrip(h: Header, file: seq<Byte>)
    requires WellSized(h) && |file| >= HDR_SIZE && file[..HDR_SIZE] == HeaderBytes(h)
    ensures LoadHeader(file) == Some(h)
  {
    hide Crc64, LittleEndian, FromLittleEndian, WordBytes, WordFrom, Pow256;
    var b := HeaderBytes(h);
    assert file[..24] == b[..24] == HeaderHead(h);
    assert file[24..32] == b[24..32] == WordBytes(Crc64(HeaderHead(h)));
    WordRoundTrip(Crc64(HeaderHead(h)));
    assert file[0..4] == b[0..4] == LittleEndian(h.nitems, 4);
    assert file[4..8] == b[4..8] == LittleEndian(h.itemsz, 4);
    assert file[8..12] == b[8..12] == LittleEndian(h.slotsz, 4);
    assert file[12..16] == b[12..16] == LittleEndian(h.options, 4);
    assert file[16..24] == b[16..24] == LittleEndian(h.start, 8);
    Word32(h.nitems);
    Word32(h.itemsz);
    Word32(h.slotsz);
    Word32(h.options);
    assert Pow256(8) == 0x1_0000_0000_0000_0000 by { Powers(); }
    LittleEndianRoundTrip(h.start, 8);
  }

  // Where the fields of a header are, and that its checksum covers them.
  lemma HeaderLayout(h: Header)
    requires WellSized(h)
    ensures
      var b := HeaderBytes(h);
      && |b| == 32
      && FromLittleEndian(b[0..4]) == h.nitems && FromLittleEndian(b[4..8]) == h.itemsz
      && FromLittleEndian(b[8..12]) == h.slotsz && FromLittleEndian(b[12..16]) == h.options
      && FromLittleEndian(b[16..24]) == h.start && WordFrom(b[24..32]) == Crc64(b[..24])
  {
    hide Crc64, FromLittleEndian, WordFrom, HeaderHead, WordBytes;
    var b := HeaderBytes(h);
    assert b[..HDR_SIZE] == b;
    HeaderRoundTrip(h, b);
  }

  // Damage to at most eight consecutive bytes of the fields makes a header fail to load.
  lemma HeaderDamageCaught(h: Header, file: seq<Byte>, damaged: seq<Byte>,
                           pre: seq<Byte>, w: seq<Byte>, v: seq<Byte>, post: seq<Byte>)
    requires WellSized(h) && |file| >= HDR_SIZE && file[..HDR_SIZE] == HeaderBytes(h)
    requires |damaged| == |file| && damaged[24..32] == file[24..32]
    requires file[..24] == pre + w + post && damaged[..24] == pre + v + post && |w| == |v| <= 8 && w != v
    ensures LoadHeader(damaged) == None
  {
    hide Crc64, FromLittleEndian, WordFrom, HeaderHead, HeaderBytes;
    HeaderRoundTrip(h, file);
    ByteBurstDetected(pre, w, v, post);
  }

  lemma Powers()
    ensures Pow256(4) == 0x1_0000_0000 && Pow256(8) == 0x1_0000_0000_0000_0000
  {
    assert Pow256(2) == 0x1_0000;
    assert Pow256(4) == 256 * (256 * Pow256(2));
    assert Pow256(6) == 256 * (256 * Pow256(4));
    assert Pow256(8) == 256 * (256 * Pow256(6));
  }

  lemma Word32(n: nat)
    requires n < 0x1_0000_0000
    ensures FromLittleEndian(LittleEndian(n, 4)) == n
  {
    hide LittleEndian, FromLittleEndian;
    Powers();
    LittleEndianRoundTrip(n, 4);
  }

  // ---------- Slots ----------

  function FooterHead(inuse: bool, i: nat): (b: seq<Byte>)
    ensures |b| == 8
  {
    HalfWordBytes(if inuse then FTRF_INUSE else 0) + LittleEndian(i, 4)
  }

  function Covered(v: Option<seq<Byte>>): seq<Byte> {
    if v.Some? then v.value else []
  }

  // The footer of slot i holding v, or nothing.
  function FooterBytes(i: nat, v: Option<seq<Byte>>): (b: seq<Byte>)
    ensures |b| == FTR_SIZE
  {
    FooterHead(v.Some?, i) + WordBytes(Crc64(Covered(v) + FooterHead(v.Some?, i)))
  }

  // Write a footer, with or without an item in front of it.
  function WriteSlot(h: Header, file: seq<Byte>, i: nat, p: Option<seq<Byte>>, ftr: seq<Byte>): seq<Byte> {
    match p
    case Some(item) => Pwrite(file, Off(h, i), item + ftr)
    case None => Pwrite(file, Off(h, i) + h.itemsz, ftr)
  }

  predicate Present(h: Header, file: seq<Byte>, i: nat) {
    Off(h, i) + h.slotsz <= |file| && h.slotsz == h.itemsz + FTR_SIZE
  }

  function ItemAt(h: Header, file: seq<Byte>, i: nat): (b: seq<Byte>)
    requires Present(h, file, i)
    ensures |b| == h.itemsz
  {
    file[Off(h, i)..Off(h, i) + h.itemsz]
  }

  function FooterAt(h: Header, file: seq<Byte>, i: nat): (b: seq<Byte>)
    requires Present(h, file, i)
    ensures |b| == FTR_SIZE
  {
    file[Off(h, i) + h.itemsz..Off(h, i) + h.slotsz]
  }

  // Slot i holds v, or is marked free.
  predicate Holds(h: Header, file: seq<Byte>, i: nat, v: Option<seq<Byte>>) {
    && Present(h, file, i) && FooterAt(h, file, i) == FooterBytes(i, v)
    && (v.Some? ==> ItemAt(h, file, i) == v.value)
  }

  // A write to a slot makes it hold what the footer says.
  lemma WriteHolds(h: Header, file: seq<Byte>, i: nat, p: Option<seq<Byte>>, v: Option<seq<Byte>>)
    requires WellSized(h) && (p.Some? ==> |p.value| == h.itemsz) && (v.Some? ==> v == p)
    requires p.None? ==> v.None?
    ensures Holds(h, WriteSlot(h, file, i, p, FooterBytes(i, v)), i, v)
  {
    hide FooterBytes, Off, Pwrite;
    var ftr := FooterBytes(i, v);
    var file' := WriteSlot(h, file, i, p, ftr);
    if p.Some? {
      PwriteHere(file, Off(h, i), p.value + ftr);
      var b := file'[Off(h, i)..Off(h, i) + h.slotsz];
      assert ItemAt(h, file', i) == b[..h.itemsz] == p.value;
      assert FooterAt(h, file', i) == b[h.itemsz..] == ftr;
    } else {
      PwriteHere(file, Off(h, i) + h.itemsz, ftr);
    }
  }

  // Other slots and the header are out of its reach.
  lemma WriteElsewhere(h: Header, file: seq<Byte>, i: nat, p: Option<seq<Byte>>, ftr: seq<Byte>, j: nat, w: Option<seq<Byte>>)
    requires WellSized(h) && |ftr| == FTR_SIZE && (p.Some? ==> |p.value| == h.itemsz)
    requires i != j && Holds(h, file, j, w)
    ensures Holds(h, WriteSlot(h, file, i, p, ftr), j, w)
  {
    hide FooterBytes, Off, Pwrite;
    var off := if p.Some? then Off(h, i) else Off(h, i) + h.itemsz;
    var b := if p.Some? then p.value + ftr else ftr;
    if i < j { OffApart(h, i, j); } else { OffApart(h, j, i); }
    PwriteElsewhere(file, off, b, Off(h, j), Off(h, j) + h.itemsz);
    PwriteElsewhere(file, off, b, Off(h, j) + h.itemsz, Off(h, j) + h.slotsz);
  }

  lemma WriteKeepsHeader(h: Header, file: seq<Byte>, i: nat, p: Option<seq<Byte>>, ftr: seq<Byte>)
    requires WellSized(h) && |ftr| == FTR_SIZE && (p.Some? ==> |p.value| == h.itemsz) && |file| >= HDR_SIZE
    ensures var file' := WriteSlot(h, file, i, p, ftr); |file'| >= HDR_SIZE && file'[..HDR_SIZE] == file[..HDR_SIZE]
  {
    hide Pwrite;
    var off := if p.Some? then Off(h, i) else Off(h, i) + h.itemsz;
    var b := if p.Some? then p.value + ftr else ftr;
    assert i * h.slotsz >= 0;
    PwriteElsewhere(file, off, b, 0, HDR_SIZE);
    assert file[0..HDR_SIZE] == file[..HDR_SIZE];
    var file' := WriteSlot(h, file, i, p, ftr);
    assert file'[0..HDR_SIZE] == file'[..HDR_SIZE];
  }

  // ---------- The check of one slot ----------

  datatype Verdict = BadFooter | BadCrc | Unused | Used(item: seq<Byte>)

  predicate MarkedInUse(ftr: seq<Byte>)
    requires |ftr| == FTR_SIZE
  {
    ftr[0] & 1 == 1
  }

  function Judge(h: Header, i: nat, item: seq<Byte>, ftr: seq<Byte>): Verdict
    requires |ftr| == FTR_SIZE
  {
    if FromLittleEndian(ftr[4..8]) != i then BadFooter
    else if CrcOn(h) && WordFrom(ftr[8..]) != Crc64((if MarkedInUse(ftr) then item else []) + ftr[..8]) then BadCrc
    else if MarkedInUse(ftr) then Used(item)
    else Unused
  }

  function CheckSlot(h: Header, file: seq<Byte>, i: nat): Verdict
    requires Present(h, file, i)
  {
    Judge(h, i, ItemAt(h, file, i), FooterAt(h, file, i))
  }

  function VerdictOf(v: Option<seq<Byte>>): Verdict {
    match v case None => Unused case Some(item) => Used(item)
  }

  // A slot that was written passes the check, with what was written.
  lemma HoldsChecks(h: Header, file: seq<Byte>, i: nat, v: Option<seq<Byte>>)
    requires Holds(h, file, i, v) && i < 0x1_0000_0000
    ensures CheckSlot(h, file, i) == VerdictOf(v)
  {
    hide Crc64, LittleEndian, FromLittleEndian, WordBytes, WordFrom, Off;
    FooterParts(i, v);
  }

  lemma FooterParts(i: nat, v: Option<seq<Byte>>)
    requires i < 0x1_0000_0000
    ensures var f := FooterBytes(i, v);
      && FromLittleEndian(f[4..8]) == i && (MarkedInUse(f) <==> v.Some?) && f[..8] == FooterHead(v.Some?, i)
      && WordFrom(f[8..]) == Crc64(Covered(v) + FooterHead(v.Some?, i))
  {
    hide Crc64, LittleEndian, FromLittleEndian, WordBytes, WordFrom;
    var f := FooterBytes(i, v);
    assert f[4..8] == LittleEndian(i, 4);
    assert f[0] == HalfWordBytes(if v.Some? then FTRF_INUSE else 0)[0];
    assert f[8..] == WordBytes(Crc64(Covered(v) + FooterHead(v.Some?, i)));
    Word32(i);
    WordRoundTrip(Crc64(Covered(v) + FooterHead(v.Some?, i)));
  }

  // Where a slot is, and what its footer says: a flag, its number, and a checksum over these and
  // the item.
  lemma SlotLayout(h: Header, file: seq<Byte>, i: nat, v: Option<seq<Byte>>)
    requires Holds(h, file, i, v) && i < 0x1_0000_0000
    ensures
      var at := h.start + i * h.slotsz;
      && at + h.itemsz + 16 <= |file|
      && var ftr := file[at + h.itemsz..at + h.itemsz + 16];
         && ftr[..4] == (if v.Some? then [1, 0, 0, 0] else [0, 0, 0, 0]) && FromLittleEndian(ftr[4..8]) == i
         && (v.Some? ==> file[at..at + h.itemsz] == v.value && WordFrom(ftr[8..]) == Crc64(v.value + ftr[..8]))
         && (v.None? ==> WordFrom(ftr[8..]) == Crc64(ftr[..8]))
  {
    hide Crc64, LittleEndian, FromLittleEndian, WordBytes, WordFrom;
    FooterParts(i, v);
    FlagBytes(v.Some?, i);
    var ftr := FooterAt(h, file, i);
    assert ftr[..4] == ftr[..8][..4];
    assert [] + ftr[..8] == ftr[..8];
  }

  lemma FlagBytes(inuse: bool, i: nat)
    ensures FooterHead(inuse, i)[..4] == if inuse then [1, 0, 0, 0] else [0, 0, 0, 0]
  {
    hide LittleEndian;
    assert FooterHead(inuse, i)[..4] == HalfWordBytes(if inuse then FTRF_INUSE else 0);
  }

  // The verdict on any slot whatever, by its bytes.
  lemma VerdictIs(h: Header, file: seq<Byte>, i: nat)
    requires Present(h, file, i)
    ensures
      var at := h.start + i * h.slotsz;
      var item, ftr := file[at..at + h.itemsz], file[at + h.itemsz..at + h.itemsz + 16];
      var inuse := ftr[0] & 1 != 0;
      var covered := if inuse then item + ftr[..8] else ftr[..8];
      CheckSlot(h, file, i) ==
        if FromLittleEndian(ftr[4..8]) != i then BadFooter
        else if h.options % 2 == 1 && Bits(WordFrom(ftr[8..]), 64) != MessageChecksum(covered) then BadCrc
        else if inuse then Used(item) else Unused
  {
    hide Crc64, FromLittleEndian, WordFrom, Bits, MessageChecksum;
    var at := h.start + i * h.slotsz;
    var item, ftr := file[at..at + h.itemsz], file[at + h.itemsz..at + h.itemsz + 16];
    LowBit(ftr[0]);
    var covered := if MarkedInUse(ftr) then item + ftr[..8] else ftr[..8];
    assert [] + ftr[..8] == ftr[..8];
    ChecksumIsRemainder(covered);
    BitsSame(WordFrom(ftr[8..]), Crc64(covered));
  }

  // A slot whose footer has another slot's number in bytes 4 to 7, or a checksum that is not that of
  // the bytes it covers.
  predicate NamesAnother(h: Header, file: seq<Byte>, i: nat)
    requires Present(h, file, i)
  {
    var at := h.start + i * h.slotsz + h.itemsz;
    FromLittleEndian(file[at + 4..at + 8]) != i
  }

  predicate SumDiffers(h: Header, file: seq<Byte>, i: nat)
    requires Present(h, file, i)
  {
    var at := h.start + i * h.slotsz;
    var ftr := at + h.itemsz;
    var from := if file[ftr] & 1 != 0 then at else ftr;
    Bits(WordFrom(file[ftr + 8..ftr + 16]), 64) != MessageChecksum(file[from..ftr + 8])
  }

  lemma BadSlotIs(h: Header, file: seq<Byte>, i: nat)
    requires Present(h, file, i)
    ensures CheckSlot(h, file, i) == BadFooter <==> NamesAnother(h, file, i)
    ensures CheckSlot(h, file, i) == BadCrc <==> !NamesAnother(h, file, i) && h.options % 2 == 1 && SumDiffers(h, file, i)
  {
    hide Crc64, FromLittleEndian, WordFrom, Bits, MessageChecksum, CheckSlot;
    VerdictIs(h, file, i);
    var at := h.start + i * h.slotsz;
    var item, ftr := file[at..at + h.itemsz], file[at + h.itemsz..at + h.itemsz + 16];
    var f := at + h.itemsz;
    Slice(file, f, f + 16, 4, 8);
    Slice(file, f, f + 16, 8, 16);
    Slice(file, f, f + 16, 0, 8);
    assert ftr[8..] == ftr[8..16] && ftr[..8] == ftr[0..8];
    TwoParts(file, at, f, f + 8);
  }

  lemma TwoParts<T>(s: seq<T>, a: nat, b: nat, c: nat)
    requires a <= b <= c <= |s|
    ensures s[a..c] == s[a..b] + s[b..c]
  {}

  lemma LowBit(b: Byte)
    ensures b & 1 != 0 <==> b & 1 == 1
  {}

  lemma BitsSame(a: bv64, b: bv64)
    ensures Bits(a, 64) == Bits(b, 64) <==> a == b
  {
    hide Bits;
    if Bits(a, 64) == Bits(b, 64) {
      BitsInjective(a, b);
    }
  }

  // Damage to at most eight consecutive bytes of an item in use does not pass the check.
  lemma DamageCaught(h: Header, file: seq<Byte>, damaged: seq<Byte>, i: nat,
                     pre: seq<Byte>, w: seq<Byte>, v: seq<Byte>, post: seq<Byte>)
    requires CrcOn(h) && i < 0x1_0000_0000 && Holds(h, file, i, Some(pre + w + post))
    requires |w| == |v| <= 8 && w != v
    requires Present(h, damaged, i) && FooterAt(h, damaged, i) == FooterAt(h, file, i)
    requires ItemAt(h, damaged, i) == pre + v + post
    ensures CheckSlot(h, damaged, i) == BadCrc
  {
    hide Crc64, FooterBytes, FooterAt, ItemAt, WordFrom, FromLittleEndian, FooterHead;
    var item := pre + w + post;
    FooterParts(i, Some(item));
    var head := FooterHead(true, i);
    ByteBurstDetected(pre, w, v, post + head);
    assert pre + w + (post + head) == item + head;
    assert pre + v + (post + head) == pre + v + post + head;
  }
}
