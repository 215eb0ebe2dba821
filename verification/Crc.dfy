/**
 The 64-bit cyclic redundancy check that guards journal slots and on-disk table slots.

 One function is described in three ways, and the descriptions are proved equal:
   - `Add` is the loop the system runs, one table lookup for every byte;
   - `Update` is the same register transformer, one bit at a time, on 64-bit words;
   - `Remainder` is long division of polynomials over GF(2), on lists of coefficients.
 The polynomial is the CRC-64 polynomial of Annex B of ECMA-182.
 */
module Crc {
  import opened Bytes

  // The polynomial without its leading term x^64.
  const POLY: bv64 := 0x42F0E1EBA9EA3693
  const TOP: bv64 := 0x8000000000000000
  const ONES: bv64 := 0xFFFFFFFFFFFFFFFF

  // The lookup table of 256 entries, as 32 rows of eight.

  const ROW00: seq<bv64> := [
    0x0000000000000000, 0x42F0E1EBA9EA3693, 0x85E1C3D753D46D26, 0xC711223CFA3E5BB5,
    0x493366450E42ECDF, 0x0BC387AEA7A8DA4C, 0xCCD2A5925D9681F9, 0x8E224479F47CB76A]

  const ROW01: seq<bv64> := [
    0x9266CC8A1C85D9BE, 0xD0962D61B56FEF2D, 0x17870F5D4F51B498, 0x5577EEB6E6BB820B,
    0xDB55AACF12C73561, 0x99A54B24BB2D03F2, 0x5EB4691841135847, 0x1C4488F3E8F96ED4]

  const ROW02: seq<bv64> := [
    0x663D78FF90E185EF, 0x24CD9914390BB37C, 0xE3DCBB28C335E8C9, 0xA12C5AC36ADFDE5A,
    0x2F0E1EBA9EA36930, 0x6DFEFF5137495FA3, 0xAAEFDD6DCD770416, 0xE81F3C86649D3285]

  const ROW03: seq<bv64> := [
    0xF45BB4758C645C51, 0xB6AB559E258E6AC2, 0x71BA77A2DFB03177, 0x334A9649765A07E4,
    0xBD68D2308226B08E, 0xFF9833DB2BCC861D, 0x388911E7D1F2DDA8, 0x7A79F00C7818EB3B]

  const ROW04: seq<bv64> := [
    0xCC7AF1FF21C30BDE, 0x8E8A101488293D4D, 0x499B3228721766F8, 0x0B6BD3C3DBFD506B,
    0x854997BA2F81E701, 0xC7B97651866BD192, 0x00A8546D7C558A27, 0x4258B586D5BFBCB4]

  const ROW05: seq<bv64> := [
    0x5E1C3D753D46D260, 0x1CECDC9E94ACE4F3, 0xDBFDFEA26E92BF46, 0x990D1F49C77889D5,
    0x172F5B3033043EBF, 0x55DFBADB9AEE082C, 0x92CE98E760D05399, 0xD03E790CC93A650A]

  const ROW06: seq<bv64> := [
    0xAA478900B1228E31, 0xE8B768EB18C8B8A2, 0x2FA64AD7E2F6E317, 0x6D56AB3C4B1CD584,
    0xE374EF45BF6062EE, 0xA1840EAE168A547D, 0x66952C92ECB40FC8, 0x2465CD79455E395B]

  const ROW07: seq<bv64> := [
    0x3821458AADA7578F, 0x7AD1A461044D611C, 0xBDC0865DFE733AA9, 0xFF3067B657990C3A,
    0x711223CFA3E5BB50, 0x33E2C2240A0F8DC3, 0xF4F3E018F031D676, 0xB60301F359DBE0E5]

  const ROW08: seq<bv64> := [
    0xDA050215EA6C212F, 0x98F5E3FE438617BC, 0x5FE4C1C2B9B84C09, 0x1D14202910527A9A,
    0x93366450E42ECDF0, 0xD1C685BB4DC4FB63, 0x16D7A787B7FAA0D6, 0x5427466C1E109645]

  const ROW09: seq<bv64> := [
    0x4863CE9FF6E9F891, 0x0A932F745F03CE02, 0xCD820D48A53D95B7, 0x8F72ECA30CD7A324,
    0x0150A8DAF8AB144E, 0x43A04931514122DD, 0x84B16B0DAB7F7968, 0xC6418AE602954FFB]

  const ROW10: seq<bv64> := [
    0xBC387AEA7A8DA4C0, 0xFEC89B01D3679253, 0x39D9B93D2959C9E6, 0x7B2958D680B3FF75,
    0xF50B1CAF74CF481F, 0xB7FBFD44DD257E8C, 0x70EADF78271B2539, 0x321A3E938EF113AA]

  const ROW11: seq<bv64> := [
    0x2E5EB66066087D7E, 0x6CAE578BCFE24BED, 0xABBF75B735DC1058, 0xE94F945C9C3626CB,
    0x676DD025684A91A1, 0x259D31CEC1A0A732, 0xE28C13F23B9EFC87, 0xA07CF2199274CA14]

  const ROW12: seq<bv64> := [
    0x167FF3EACBAF2AF1, 0x548F120162451C62, 0x939E303D987B47D7, 0xD16ED1D631917144,
    0x5F4C95AFC5EDC62E, 0x1DBC74446C07F0BD, 0xDAAD56789639AB08, 0x985DB7933FD39D9B]

  const ROW13: seq<bv64> := [
    0x84193F60D72AF34F, 0xC6E9DE8B7EC0C5DC, 0x01F8FCB784FE9E69, 0x43081D5C2D14A8FA,
    0xCD2A5925D9681F90, 0x8FDAB8CE70822903, 0x48CB9AF28ABC72B6, 0x0A3B7B1923564425]

  const ROW14: seq<bv64> := [
    0x70428B155B4EAF1E, 0x32B26AFEF2A4998D, 0xF5A348C2089AC238, 0xB753A929A170F4AB,
    0x3971ED50550C43C1, 0x7B810CBBFCE67552, 0xBC902E8706D82EE7, 0xFE60CF6CAF321874]

  const ROW15: seq<bv64> := [
    0xE224479F47CB76A0, 0xA0D4A674EE214033, 0x67C58448141F1B86, 0x253565A3BDF52D15,
    0xAB1721DA49899A7F, 0xE9E7C031E063ACEC, 0x2EF6E20D1A5DF759, 0x6C0603E6B3B7C1CA]

  const ROW16: seq<bv64> := [
    0xF6FAE5C07D3274CD, 0xB40A042BD4D8425E, 0x731B26172EE619EB, 0x31EBC7FC870C2F78,
    0xBFC9838573709812, 0xFD39626EDA9AAE81, 0x3A28405220A4F534, 0x78D8A1B9894EC3A7]

  const ROW17: seq<bv64> := [
    0x649C294A61B7AD73, 0x266CC8A1C85D9BE0, 0xE17DEA9D3263C055, 0xA38D0B769B89F6C6,
    0x2DAF4F0F6FF541AC, 0x6F5FAEE4C61F773F, 0xA84E8CD83C212C8A, 0xEABE6D3395CB1A19]

  const ROW18: seq<bv64> := [
    0x90C79D3FEDD3F122, 0xD2377CD44439C7B1, 0x15265EE8BE079C04, 0x57D6BF0317EDAA97,
    0xD9F4FB7AE3911DFD, 0x9B041A914A7B2B6E, 0x5C1538ADB04570DB, 0x1EE5D94619AF4648]

  const ROW19: seq<bv64> := [
    0x02A151B5F156289C, 0x4051B05E58BC1E0F, 0x87409262A28245BA, 0xC5B073890B687329,
    0x4B9237F0FF14C443, 0x0962D61B56FEF2D0, 0xCE73F427ACC0A965, 0x8C8315CC052A9FF6]

  const ROW20: seq<bv64> := [
    0x3A80143F5CF17F13, 0x7870F5D4F51B4980, 0xBF61D7E80F251235, 0xFD913603A6CF24A6,
    0x73B3727A52B393CC, 0x31439391FB59A55F, 0xF652B1AD0167FEEA, 0xB4A25046A88DC879]

  const ROW21: seq<bv64> := [
    0xA8E6D8B54074A6AD, 0xEA16395EE99E903E, 0x2D071B6213A0CB8B, 0x6FF7FA89BA4AFD18,
    0xE1D5BEF04E364A72, 0xA3255F1BE7DC7CE1, 0x64347D271DE22754, 0x26C49CCCB40811C7]

  const ROW22: seq<bv64> := [
    0x5CBD6CC0CC10FAFC, 0x1E4D8D2B65FACC6F, 0xD95CAF179FC497DA, 0x9BAC4EFC362EA149,
    0x158E0A85C2521623, 0x577EEB6E6BB820B0, 0x906FC95291867B05, 0xD29F28B9386C4D96]

  const ROW23: seq<bv64> := [
    0xCEDBA04AD0952342, 0x8C2B41A1797F15D1, 0x4B3A639D83414E64, 0x09CA82762AAB78F7,
    0x87E8C60FDED7CF9D, 0xC51827E4773DF90E, 0x020905D88D03A2BB, 0x40F9E43324E99428]

  const ROW24: seq<bv64> := [
    0x2CFFE7D5975E55E2, 0x6E0F063E3EB46371, 0xA91E2402C48A38C4, 0xEBEEC5E96D600E57,
    0x65CC8190991CB93D, 0x273C607B30F68FAE, 0xE02D4247CAC8D41B, 0xA2DDA3AC6322E288]

  const ROW25: seq<bv64> := [
    0xBE992B5F8BDB8C5C, 0xFC69CAB42231BACF, 0x3B78E888D80FE17A, 0x7988096371E5D7E9,
    0xF7AA4D1A85996083, 0xB55AACF12C735610, 0x724B8ECDD64D0DA5, 0x30BB6F267FA73B36]

  const ROW26: seq<bv64> := [
    0x4AC29F2A07BFD00D, 0x08327EC1AE55E69E, 0xCF235CFD546BBD2B, 0x8DD3BD16FD818BB8,
    0x03F1F96F09FD3CD2, 0x41011884A0170A41, 0x86103AB85A2951F4, 0xC4E0DB53F3C36767]

  const ROW27: seq<bv64> := [
    0xD8A453A01B3A09B3, 0x9A54B24BB2D03F20, 0x5D45907748EE6495, 0x1FB5719CE1045206,
    0x919735E51578E56C, 0xD367D40EBC92D3FF, 0x1476F63246AC884A, 0x568617D9EF46BED9]

  const ROW28: seq<bv64> := [
    0xE085162AB69D5E3C, 0xA275F7C11F7768AF, 0x6564D5FDE549331A, 0x279434164CA30589,
    0xA9B6706FB8DFB2E3, 0xEB46918411358470, 0x2C57B3B8EB0BDFC5, 0x6EA7525342E1E956]

  const ROW29: seq<bv64> := [
    0x72E3DAA0AA188782, 0x30133B4B03F2B111, 0xF7021977F9CCEAA4, 0xB5F2F89C5026DC37,
    0x3BD0BCE5A45A6B5D, 0x79205D0E0DB05DCE, 0xBE317F32F78E067B, 0xFCC19ED95E6430E8]

  const ROW30: seq<bv64> := [
    0x86B86ED5267CDBD3, 0xC4488F3E8F96ED40, 0x0359AD0275A8B6F5, 0x41A94CE9DC428066,
    0xCF8B0890283E370C, 0x8D7BE97B81D4019F, 0x4A6ACB477BEA5A2A, 0x089A2AACD2006CB9]

  const ROW31: seq<bv64> := [
    0x14DEA25F3AF9026D, 0x562E43B4931334FE, 0x913F6188692D6F4B, 0xD3CF8063C0C759D8,
    0x5DEDC41A34BBEEB2, 0x1F1D25F19D51D821, 0xD80C07CD676F8394, 0x9AFCE626CE85B507]

  function Row(h: bv64): (row: seq<bv64>)
    requires h < 32
    ensures |row| == 8
  {
    if h == 0 then ROW00 else if h == 1 then ROW01 else
    if h == 2 then ROW02 else if h == 3 then ROW03 else
    if h == 4 then ROW04 else if h == 5 then ROW05 else
    if h == 6 then ROW06 else if h == 7 then ROW07 else
    if h == 8 then ROW08 else if h == 9 then ROW09 else
    if h == 10 then ROW10 else if h == 11 then ROW11 else
    if h == 12 then ROW12 else if h == 13 then ROW13 else
    if h == 14 then ROW14 else if h == 15 then ROW15 else
    if h == 16 then ROW16 else if h == 17 then ROW17 else
    if h == 18 then ROW18 else if h == 19 then ROW19 else
    if h == 20 then ROW20 else if h == 21 then ROW21 else
    if h == 22 then ROW22 else if h == 23 then ROW23 else
    if h == 24 then ROW24 else if h == 25 then ROW25 else
    if h == 26 then ROW26 else if h == 27 then ROW27 else
    if h == 28 then ROW28 else if h == 29 then ROW29 else
    if h == 30 then ROW30 else ROW31
  }

  function Entry(idx: bv64): bv64
    requires idx < 256
  {
    var row, k := Row(idx >> 3), idx & 7;
    row[k as nat]
  }

  // ---------- Bit-serial division on words ----------

  function TopSet(c: bv64): bool {
    c & TOP != 0
  }

  function Xor(x: bv64, y: bv64): bv64 {
    x ^ y
  }

  // Shift the register left by one bit; when a one falls out, subtract the polynomial.
  function BitStep(c: bv64): bv64 {
    if TopSet(c) then Xor(c << 1, POLY) else c << 1
  }

  function BitSteps(c: bv64, n: nat): bv64
    decreases n
  {
    if n == 0 then c else BitSteps(BitStep(c), n - 1)
  }

  // A byte moved to the top of the register.
  function OnTop(b: Byte): bv64 {
    (b as bv64) << 56
  }

  function Absorb(c: bv64, b: Byte): bv64 {
    BitSteps(Xor(c, OnTop(b)), 8)
  }

  function Update(c: bv64, data: seq<Byte>): bv64
    decreases |data|
  {
    if data == [] then c else Update(Absorb(c, data[0]), data[1..])
  }

  // The checksum of a byte string: all-ones start, final inversion.
  function Crc64(data: seq<Byte>): bv64 {
    Xor(Update(ONES, data), ONES)
  }

  // ---------- The loop over the table ----------

  function Index(c: bv64, b: Byte): (idx: bv64)
    ensures idx < 256
  {
    ((c >> 56) ^ (b as bv64)) & 0xff
  }

  function LookupStep(c: bv64, b: Byte): bv64 {
    Xor(Entry(Index(c, b)), c << 8)
  }

  method Add(c0: bv64, data: seq<Byte>) returns (c: bv64)
    ensures c == Update(c0, data)
  {
    hide LookupStep, Absorb;
    c := c0;
    var i := 0;
    while i < |data|
      invariant 0 <= i <= |data|
      invariant Update(c, data[i..]) == Update(c0, data)
    {
      TableStep(c, data[i]);
      c := LookupStep(c, data[i]);
      assert data[i..][1..] == data[i + 1..];
      i := i + 1;
    }
  }

  method Calc(data: seq<Byte>) returns (c: bv64)
    ensures c == Crc64(data) && Bits(c, 64) == MessageChecksum(data)
  {
    hide Bits, MessageChecksum;
    c := Add(ONES, data);
    c := Xor(c, ONES);
    ChecksumIsRemainder(data);
  }

  method Verify(c: bv64, data: seq<Byte>) returns (ok: bool)
    ensures ok <==> c == Crc64(data)
    ensures ok <==> Bits(c, 64) == MessageChecksum(data)
  {
    hide Bits, MessageChecksum, Crc64;
    ChecksumIsRemainder(data);
    if Bits(c, 64) == Bits(Crc64(data), 64) {
      BitsInjective(c, Crc64(data));
    }
    var tc := Calc(data);
    ok := tc == c;
  }

  // Adding two regions in turn is adding their concatenation.
  lemma {:induction false} UpdateConcat(c: bv64, a: seq<Byte>, b: seq<Byte>)
    ensures Update(c, a + b) == Update(Update(c, a), b)
    decreases |a|
  {
    hide Absorb;
    if a == [] {
      assert a + b == b;
    } else {
      assert (a + b)[1..] == a[1..] + b;
      UpdateConcat(Absorb(c, a[0]), a[1..], b);
    }
  }

  // ---------- Registers as lists of coefficients ----------

  type Poly = seq<bool>

  function Zero(n: nat): (s: Poly)
    ensures |s| == n
  {
    seq(n, _ => false)
  }

  // Addition, which is also subtraction, of the leading coefficients.
  function Plus(s: Poly, p: Poly): (r: Poly)
    requires |p| <= |s|
    ensures |r| == |s|
  {
    seq(|s|, i requires 0 <= i < |s| => if i < |p| then s[i] != p[i] else s[i])
  }

  function Modulus(): (p: Poly)
    ensures |p| == 64
  {
    Bits(POLY, 64)
  }

  // The coefficients left after dividing s by x^64 + POLY.
  function Remainder(s: Poly): (r: Poly)
    requires |s| >= 64
    ensures |r| == 64
    decreases |s|
  {
    if |s| == 64 then s
    else if s[0] then Remainder(Plus(s[1..], Modulus()))
    else Remainder(s[1..])
  }

  function Shift(s: Poly): (r: Poly)
    requires |s| == 64
    ensures |r| == 64
  {
    s[1..] + [false]
  }

  function PolyStep(s: Poly): (r: Poly)
    requires |s| == 64
    ensures |r| == 64
  {
    if s[0] then Plus(Shift(s), Modulus()) else Shift(s)
  }

  function PolySteps(s: Poly, n: nat): (r: Poly)
    requires |s| == 64
    ensures |r| == 64
    decreases n
  {
    if n == 0 then s else PolySteps(PolyStep(s), n - 1)
  }

  // Feed a message to the division register, one coefficient at a time.
  function Feed(s: Poly, w: Poly): (r: Poly)
    requires |s| == 64
    ensures |r| == 64
    decreases |w|
  {
    if w == [] then s else Feed(PolyStep(Plus(s, [w[0]])), w[1..])
  }

  lemma PlusTwice(s: Poly, p: Poly, q: Poly)
    requires |q| <= |p| <= |s|
    ensures Plus(Plus(s, p), q) == Plus(s, Plus(p, q))
  {}

  lemma PlusCancel(s: Poly, p: Poly, q: Poly)
    requires |p| == |q| <= |s| && Plus(s, p) == Plus(s, q)
    ensures p == q
  {
    forall i | 0 <= i < |p|
      ensures p[i] == q[i]
    {
      assert Plus(s, p)[i] == Plus(s, q)[i];
    }
  }

  lemma PolyStepLinear(s: Poly, t: Poly)
    requires |s| == |t| == 64
    ensures PolyStep(Plus(s, t)) == Plus(PolyStep(s), PolyStep(t))
  {
    hide Modulus;
    var m := Modulus();
    assert Shift(Plus(s, t)) == Plus(Shift(s), Shift(t));
    assert PolyStep(Plus(s, t)) == Plus(PolyStep(s), PolyStep(t));
  }

  lemma {:induction false} PolyStepsLinear(s: Poly, t: Poly, n: nat)
    requires |s| == |t| == 64
    ensures PolySteps(Plus(s, t), n) == Plus(PolySteps(s, n), PolySteps(t, n))
    decreases n
  {
    hide PolyStep, Plus;
    if n != 0 {
      PolyStepLinear(s, t);
      PolyStepsLinear(PolyStep(s), PolyStep(t), n - 1);
    }
  }

  // A register that starts with n zeros only shifts.
  lemma {:induction false} ShiftsOut(s: Poly, n: nat)
    requires |s| == 64 && n <= 64
    requires s[..n] == Zero(n)
    ensures PolySteps(s, n) == s[n..] + Zero(n)
    decreases n
  {
    hide Modulus;
    if n == 0 {
      assert s[0..] + Zero(0) == s;
    } else {
      assert s[0] == s[..n][0] == false;
      var t := Shift(s);
      forall i | 0 <= i < n - 1
        ensures t[i] == false
      {
        assert t[i] == s[i + 1] == s[..n][i + 1];
      }
      assert t[..n - 1] == Zero(n - 1);
      ShiftsOut(t, n - 1);
      assert t[n - 1..] + Zero(n - 1) == s[n..] + Zero(n);
    }
  }

  // A division step loses nothing, because the polynomial has a constant term.
  lemma PolyStepInjective(s: Poly, t: Poly)
    requires |s| == |t| == 64 && PolyStep(s) == PolyStep(t)
    ensures s == t
  {
    hide Modulus;
    ConstantTerm();
    assert PolyStep(s)[63] == s[0] && PolyStep(t)[63] == t[0];
    forall i | 0 <= i < 64
      ensures s[i] == t[i]
    {
      assert i > 0 ==> PolyStep(s)[i - 1] == PolyStep(t)[i - 1];
    }
  }

  lemma {:induction false} PolyStepsInjective(s: Poly, t: Poly, n: nat)
    requires |s| == |t| == 64 && PolySteps(s, n) == PolySteps(t, n)
    ensures s == t
    decreases n
  {
    hide PolyStep;
    if n != 0 {
      PolyStepsInjective(PolyStep(s), PolyStep(t), n - 1);
      PolyStepInjective(s, t);
    }
  }

  // The register after a message is the remainder of the message followed by 64 zero
  // coefficients, with the starting register subtracted from the leading ones.
  lemma {:induction false} FeedIsRemainder(s: Poly, w: Poly)
    requires |s| == 64
    ensures Feed(s, w) == Remainder(Plus(w + Zero(64), s))
    decreases |w|
  {
    hide Modulus, PolyStep, Plus, Shift;
    if w == [] {
      NothingFed(s);
    } else {
      var t := Plus(s, [w[0]]);
      FeedIsRemainder(PolyStep(t), w[1..]);
      Divided(s, w, t);
    }
  }

  lemma NothingFed(s: Poly)
    requires |s| == 64
    ensures Plus([] + Zero(64), s) == s
  {}

  // One coefficient of the dividend is used up.
  lemma Divided(s: Poly, w: Poly, t: Poly)
    requires |s| == 64 && w != [] && t == Plus(s, [w[0]])
    ensures Remainder(Plus(w + Zero(64), s)) == Remainder(Plus(w[1..] + Zero(64), PolyStep(t)))
  {
    hide Modulus, Plus, Shift;
    DividendRest(s, w, t);
    var d, rest := Plus(w + Zero(64), s), w[1..] + Zero(64);
    if d[0] {
      PlusTwice(rest, Shift(t), Modulus());
    }
  }

  lemma DividendRest(s: Poly, w: Poly, t: Poly)
    requires |s| == 64 && w != [] && t == Plus(s, [w[0]])
    ensures var d := Plus(w + Zero(64), s); d[0] == t[0] && d[1..] == Plus(w[1..] + Zero(64), Shift(t))
  {
    var d, r := Plus(w + Zero(64), s), Plus(w[1..] + Zero(64), Shift(t));
    forall i | 0 <= i < |r|
      ensures d[i + 1] == r[i]
    {}
  }

  lemma {:induction false} FeedConcat(s: Poly, a: Poly, b: Poly)
    requires |s| == 64
    ensures Feed(s, a + b) == Feed(Feed(s, a), b)
    decreases |a|
  {
    hide PolyStep, Plus;
    if a == [] {
      assert a + b == b;
    } else {
      assert (a + b)[1..] == a[1..] + b;
      FeedConcat(PolyStep(Plus(s, [a[0]])), a[1..], b);
    }
  }

  // Feeding the same coefficients never merges two registers.
  lemma {:induction false} FeedInjective(s: Poly, t: Poly, w: Poly)
    requires |s| == |t| == 64 && Feed(s, w) == Feed(t, w)
    ensures s == t
    decreases |w|
  {
    hide PolyStep;
    if w != [] {
      FeedInjective(PolyStep(Plus(s, [w[0]])), PolyStep(Plus(t, [w[0]])), w[1..]);
      PolyStepInjective(Plus(s, [w[0]]), Plus(t, [w[0]]));
      forall i | 0 <= i < 64
        ensures s[i] == t[i]
      {
        assert Plus(s, [w[0]])[i] == Plus(t, [w[0]])[i];
      }
    }
  }

  // Up to 64 coefficients can be added at once, and divided afterwards.
  lemma {:induction false} FeedWindow(s: Poly, w: Poly)
    requires |s| == 64 && |w| <= 64
    ensures Feed(s, w) == PolySteps(Plus(s, w), |w|)
    decreases |w|
  {
    hide Modulus;
    if w == [] {
      assert Plus(s, w) == s;
    } else {
      var one := Plus(s, [w[0]]);
      var rest := [false] + w[1..] + Zero(64 - |w|);
      assert Plus(s, w) == Plus(one, rest);
      PolyStepLinear(one, rest);
      assert PolyStep(rest) == w[1..] + Zero(65 - |w|);
      assert Plus(PolyStep(one), w[1..]) == Plus(PolyStep(one), PolyStep(rest));
      FeedWindow(PolyStep(one), w[1..]);
    }
  }

  // From one register, different windows of the same length up to 64 lead to different
  // registers.
  lemma WindowInjective(s: Poly, w: Poly, v: Poly)
    requires |s| == 64 && |w| == |v| <= 64 && Feed(s, w) == Feed(s, v)
    ensures w == v
  {
    hide Feed, PolySteps, Plus;
    FeedWindow(s, w);
    FeedWindow(s, v);
    PolyStepsInjective(Plus(s, w), Plus(s, v), |w|);
    PlusCancel(s, w, v);
  }

  // ---------- Words and their coefficients ----------

  // The first n bits of a word, most significant first.
  function Bits(w: bv64, n: nat): (s: Poly)
    ensures |s| == n
    decreases n
  {
    if n == 0 then [] else [TopSet(w)] + Bits(w << 1, n - 1)
  }

  function MessageBits(data: seq<Byte>): (s: Poly)
    ensures |s| == 8 * |data|
  {
    if data == [] then [] else Bits(OnTop(data[0]), 8) + MessageBits(data[1..])
  }

  function ShiftUp(w: bv64, n: nat): bv64
    decreases n
  {
    if n == 0 then w else ShiftUp(w << 1, n - 1)
  }

  lemma XorShift(x: bv64, y: bv64)
    ensures Xor(x, y) << 1 == Xor(x << 1, y << 1)
  {
    XorShiftAux(x, y, Xor(x, y), Xor(x << 1, y << 1));
  }

  lemma XorShiftAux(x: bv64, y: bv64, z: bv64, w: bv64)
    requires z == x ^ y && w == (x << 1) ^ (y << 1)
    ensures z << 1 == w
  {}

  lemma XorTop(x: bv64, y: bv64)
    ensures TopSet(Xor(x, y)) == (TopSet(x) != TopSet(y))
  {}

  lemma {:induction false} BitsXorAt(x: bv64, y: bv64, n: nat)
    ensures forall i :: 0 <= i < n ==> Bits(Xor(x, y), n)[i] == (Bits(x, n)[i] != Bits(y, n)[i])
    decreases n
  {
    hide TopSet, Xor;
    if n != 0 {
      XorShift(x, y);
      XorTop(x, y);
      BitsXorAt(x << 1, y << 1, n - 1);
    }
  }

  lemma BitsXor(x: bv64, y: bv64, n: nat)
    ensures Bits(Xor(x, y), n) == Plus(Bits(x, n), Bits(y, n))
  {
    hide Bits, Xor;
    BitsXorAt(x, y, n);
  }

  lemma {:induction false} BitsTail(w: bv64, n: nat)
    ensures Bits(w, n + 1) == Bits(w, n) + [TopSet(ShiftUp(w, n))]
    decreases n
  {
    hide TopSet;
    if n != 0 {
      BitsTail(w << 1, n - 1);
    }
  }

  lemma EightShifts(w: bv64)
    ensures ShiftUp(w, 8) == w << 8
  {
    assert ShiftUp(w, 8) == ShiftUp(w << 1, 7) == ShiftUp(w << 2, 6);
    assert ShiftUp(w << 2, 6) == ShiftUp(w << 3, 5) == ShiftUp(w << 4, 4);
    assert ShiftUp(w << 4, 4) == ShiftUp(w << 5, 3) == ShiftUp(w << 6, 2);
    assert ShiftUp(w << 6, 2) == ShiftUp(w << 7, 1) == ShiftUp(w << 8, 0);
  }

  lemma {:induction false} ShiftUpAdd(w: bv64, m: nat, n: nat)
    ensures ShiftUp(w, m + n) == ShiftUp(ShiftUp(w, m), n)
    decreases m
  {
    if m != 0 {
      ShiftUpAdd(w << 1, m - 1, n);
    }
  }

  lemma ByteShifts(w: bv64, n: nat)
    ensures ShiftUp(w, n + 8) == ShiftUp(w, n) << 8
  {
    hide ShiftUp;
    ShiftUpAdd(w, n, 8);
    EightShiftsOf(ShiftUp(w, n), ShiftUp(w, n + 8));
  }

  lemma EightShiftsOf(v: bv64, u: bv64)
    requires u == ShiftUp(v, 8)
    ensures u == v << 8
  {
    hide ShiftUp;
    EightShifts(v);
  }

  lemma SixtyFourShifts(w: bv64)
    ensures ShiftUp(w, 64) == 0
  {
    hide ShiftUp;
    FiftySixShifts(w);
    ByteShifts(w, 56);
  }

  lemma ShiftFirst(w: bv64, n: nat)
    requires n > 0
    ensures ShiftUp(w, n) == ShiftUp(w << 1, n - 1)
  {}

  // Shifting a word drops its leading coefficient and brings in a zero.
  lemma BitsShift(w: bv64)
    ensures Bits(w << 1, 64) == Shift(Bits(w, 64))
  {
    hide ShiftUp;
    BitsTail(w << 1, 63);
    SixtyFourShifts(w);
    ShiftFirst(w, 64);
    assert Bits(w, 64)[1..] == Bits(w << 1, 63);
  }

  lemma ConstantTerm()
    ensures Modulus()[63]
  {
    hide ShiftUp;
    BitsTail(POLY, 63);
    LastShift(POLY);
  }

  // The bit that 63 shifts bring to the top is the lowest one.
  lemma LastShift(w: bv64)
    ensures TopSet(ShiftUp(w, 63)) <==> w & 1 == 1
  {
    hide ShiftUp;
    FiftySixShifts(w);
    ShiftUpAdd(w, 56, 7);
    SevenShifts(w << 56);
  }

  lemma FiftySixShifts(w: bv64)
    ensures ShiftUp(w, 56) == w << 56
  {
    hide ShiftUp;
    EightShifts(w);
    ByteShifts(w, 8);
    ByteShifts(w, 16);
    ByteShifts(w, 24);
    ByteShifts(w, 32);
    ByteShifts(w, 40);
    ByteShifts(w, 48);
  }

  lemma SevenShifts(w: bv64)
    ensures ShiftUp(w, 7) == w << 7
  {
    assert ShiftUp(w, 7) == ShiftUp(w << 1, 6) == ShiftUp(w << 2, 5);
    assert ShiftUp(w << 2, 5) == ShiftUp(w << 3, 4) == ShiftUp(w << 4, 3);
    assert ShiftUp(w << 4, 3) == ShiftUp(w << 5, 2) == ShiftUp(w << 6, 1) == ShiftUp(w << 7, 0);
  }

  lemma BitStepIsPolyStep(c: bv64)
    ensures Bits(BitStep(c), 64) == PolyStep(Bits(c, 64))
  {
    hide TopSet, Xor;
    BitsShift(c);
    BitsXor(c << 1, POLY, 64);
  }

  lemma {:induction false} BitStepsIsPolySteps(c: bv64, n: nat)
    ensures Bits(BitSteps(c, n), 64) == PolySteps(Bits(c, 64), n)
    decreases n
  {
    hide BitStep, PolyStep, Bits;
    if n != 0 {
      BitStepIsPolyStep(c);
      BitStepsIsPolySteps(BitStep(c), n - 1);
    }
  }

  lemma {:induction false} ZeroWord(z: bv64, n: nat)
    requires Bits(z, n) == Zero(n) && ShiftUp(z, n) == 0
    ensures z == 0
    decreases n
  {
    if n != 0 {
      assert !TopSet(z) by { assert Bits(z, n)[0] == Zero(n)[0]; }
      assert Bits(z << 1, n - 1) == Bits(z, n)[1..] == Zero(n - 1);
      ZeroWord(z << 1, n - 1);
    }
  }

  // A word is determined by its coefficients.
  lemma BitsInjective(x: bv64, y: bv64)
    requires Bits(x, 64) == Bits(y, 64)
    ensures x == y
  {
    hide Bits, ShiftUp, Xor;
    var z := Xor(x, y);
    BitsXor(x, y, 64);
    SixtyFourShifts(z);
    assert Plus(Bits(x, 64), Bits(y, 64)) == Zero(64);
    ZeroWord(z, 64);
    XorZero(x, y);
  }

  lemma XorZero(x: bv64, y: bv64)
    requires Xor(x, y) == 0
    ensures x == y
  {}

  // The first bits of a word and the word shifted past them.
  lemma {:induction false} BitsSplit(w: bv64, m: nat, n: nat)
    ensures Bits(w, m + n) == Bits(w, m) + Bits(ShiftUp(w, m), n)
    decreases m
  {
    hide TopSet;
    if m != 0 {
      BitsSplit(w << 1, m - 1, n);
    }
  }

  lemma {:induction false} BitsOfZero(n: nat)
    ensures Bits(0, n) == Zero(n)
    decreases n
  {
    if n != 0 {
      NoBits();
      BitsOfZero(n - 1);
      assert Zero(n) == [false] + Zero(n - 1);
    }
  }

  lemma NoBits()
    ensures 0 as bv64 << 1 == 0 && !TopSet(0)
  {}

  lemma OnTopBits(b: Byte)
    ensures Bits(OnTop(b), 64) == Bits(OnTop(b), 8) + Zero(56)
  {
    hide Bits, ShiftUp;
    BitsSplit(OnTop(b), 8, 56);
    EightShifts(OnTop(b));
    OnTopShifted(b);
    BitsOfZero(56);
  }

  lemma OnTopShifted(b: Byte)
    ensures OnTop(b) << 8 == 0
  {}

  // Absorbing a byte is feeding its eight bits.
  lemma AbsorbIsFeed(c: bv64, b: Byte)
    ensures Bits(Absorb(c, b), 64) == Feed(Bits(c, 64), Bits(OnTop(b), 8))
  {
    hide Bits, OnTop, BitSteps, PolySteps, Feed, Xor;
    BitsXor(c, OnTop(b), 64);
    BitStepsIsPolySteps(Xor(c, OnTop(b)), 8);
    OnTopBits(b);
    FeedWindow(Bits(c, 64), Bits(OnTop(b), 8));
    assert Plus(Bits(c, 64), Bits(OnTop(b), 64)) == Plus(Bits(c, 64), Bits(OnTop(b), 8));
  }

  lemma {:induction false} UpdateIsFeed(c: bv64, data: seq<Byte>)
    ensures Bits(Update(c, data), 64) == Feed(Bits(c, 64), MessageBits(data))
    decreases |data|
  {
    hide Absorb, Bits, OnTop, PolyStep;
    if data != [] {
      AbsorbIsFeed(c, data[0]);
      FeedConcat(Bits(c, 64), Bits(OnTop(data[0]), 8), MessageBits(data[1..]));
      UpdateIsFeed(Absorb(c, data[0]), data[1..]);
    }
  }

  // The register after any message is the remainder of a polynomial division.
  lemma UpdateIsRemainder(c: bv64, data: seq<Byte>)
    ensures Bits(Update(c, data), 64)
         == Remainder(Plus(MessageBits(data) + Zero(64), Bits(c, 64)))
  {
    hide Bits, Update, Feed, Remainder;
    UpdateIsFeed(c, data);
    FeedIsRemainder(Bits(c, 64), MessageBits(data));
  }

  // The opposite of every coefficient.
  function Flipped(s: Poly): (r: Poly)
    ensures |r| == |s| && forall i :: 0 <= i < |s| ==> r[i] == !s[i]
  {
    seq(|s|, i requires 0 <= i < |s| => !s[i])
  }

  function Trues(n: nat): (s: Poly)
    ensures |s| == n && forall i :: 0 <= i < n ==> s[i]
  {
    seq(n, _ => true)
  }

  // What the checksum of a message is: append 64 zero coefficients, invert the first 64, divide,
  // and invert the remainder.
  function MessageChecksum(data: seq<Byte>): (s: Poly)
    ensures |s| == 64
  {
    Flipped(Remainder(Plus(MessageBits(data) + Zero(64), Trues(64))))
  }

  lemma ChecksumIsRemainder(data: seq<Byte>)
    ensures Bits(Crc64(data), 64) == MessageChecksum(data)
  {
    hide Bits, Update, Remainder, Plus, MessageBits, Flipped, Trues, Xor;
    UpdateIsRemainder(ONES, data);
    OnesBits();
    BitsXorAt(Update(ONES, data), ONES, 64);
  }

  lemma OnesBits()
    ensures Bits(ONES, 64) == Trues(64)
  {
    hide Bits, AllSet;
    AllOnes();
    AllSetBits(ONES, 64);
  }

  // The first n bits of a word are set.
  predicate AllSet(w: bv64, n: nat)
    decreases n
  {
    n == 0 || (TopSet(w) && AllSet(w << 1, n - 1))
  }

  lemma AllOnes()
    ensures AllSet(ONES, 64)
  {
    hide AllSet, ShiftUp;
    OnesFrom(0);
    NoShift(ONES);
  }

  lemma NoShift(w: bv64)
    ensures ShiftUp(w, 0) == w
  {}

  // From byte k on, all bits of the all-ones word are set.
  lemma {:induction false} OnesFrom(k: nat)
    requires k <= 8
    ensures AllSet(ShiftUp(ONES, 8 * k), 64 - 8 * k)
    decreases 8 - k
  {
    hide AllSet, ShiftUp, HighSet;
    if k == 8 {
      NoneSet(ShiftUp(ONES, 64));
    } else {
      OnesFrom(k + 1);
      OnesHigh(k);
      ShiftUpAdd(ONES, 8 * k, 8);
      HighByteSet(ShiftUp(ONES, 8 * k));
      SetOn(ShiftUp(ONES, 8 * k), 8, 64 - 8 * (k + 1));
    }
  }

  lemma NoneSet(w: bv64)
    ensures AllSet(w, 0)
  {}

  lemma {:induction false} SetOn(w: bv64, m: nat, n: nat)
    requires AllSet(w, m) && AllSet(ShiftUp(w, m), n)
    ensures AllSet(w, m + n)
    decreases m
  {
    hide TopSet;
    if m > 0 {
      SetOn(w << 1, m - 1, n);
    }
  }

  // The highest byte is all ones.
  predicate HighSet(w: bv64) {
    w & 0xFF00000000000000 == 0xFF00000000000000
  }

  lemma OnesHigh(k: nat)
    requires k < 8
    ensures HighSet(ShiftUp(ONES, 8 * k))
  {
    hide ShiftUp, HighSet;
    OnesByte(k);
    ShiftedHigh(k, ShiftUp(ONES, 8 * k));
  }

  lemma ShiftedHigh(k: nat, w: bv64)
    requires k < 8 && w == OnesShifted(k)
    ensures HighSet(w)
  {
    assert k in {0, 1, 2, 3, 4, 5, 6, 7};
  }

  lemma {:induction false} OnesByte(k: nat)
    requires k < 8
    ensures ShiftUp(ONES, 8 * k) == OnesShifted(k)
  {
    hide ShiftUp;
    if k == 0 {
      NoShift(ONES);
    } else {
      OnesByte(k - 1);
      ByteShifts(ONES, 8 * (k - 1));
      OnesShiftedOn(k - 1);
    }
  }

  function OnesShifted(k: nat): bv64
    requires k < 8
  {
    [0xFFFFFFFFFFFFFFFF, 0xFFFFFFFFFFFFFF00, 0xFFFFFFFFFFFF0000, 0xFFFFFFFFFF000000,
     0xFFFFFFFF00000000, 0xFFFFFF0000000000, 0xFFFF000000000000, 0xFF00000000000000][k]
  }

  lemma OnesShiftedOn(k: nat)
    requires k < 7
    ensures OnesShifted(k) << 8 == OnesShifted(k + 1)
  {
    assert k in {0, 1, 2, 3, 4, 5, 6};
  }

  lemma HighByteSet(w: bv64)
    requires HighSet(w)
    ensures AllSet(w, 8)
  {
    hide AllSet;
    OneByteSet();
    MaskSet(w, 0xFF00000000000000, 8);
  }

  lemma OneByteSet()
    ensures AllSet(0xFF00000000000000, 8)
  {
    hide AllSet;
    NoneSet(0);
    SetStep(0x8000000000000000, 0, 0);
    SetStep(0xC000000000000000, 0x8000000000000000, 1);
    SetStep(0xE000000000000000, 0xC000000000000000, 2);
    SetStep(0xF000000000000000, 0xE000000000000000, 3);
    SetStep(0xF800000000000000, 0xF000000000000000, 4);
    SetStep(0xFC00000000000000, 0xF800000000000000, 5);
    SetStep(0xFE00000000000000, 0xFC00000000000000, 6);
    SetStep(0xFF00000000000000, 0xFE00000000000000, 7);
  }

  lemma SetStep(w: bv64, v: bv64, n: nat)
    requires TopSet(w) && v == w << 1 && AllSet(v, n)
    ensures AllSet(w, n + 1)
  {
    hide TopSet;
  }

  // What is set in a mask is set in every word under it.
  lemma {:induction false} MaskSet(w: bv64, m: bv64, n: nat)
    requires w & m == m && AllSet(m, n)
    ensures AllSet(w, n)
    decreases n
  {
    hide TopSet;
    if n > 0 {
      MaskStep(w, m);
      MaskSet(w << 1, m << 1, n - 1);
    }
  }

  lemma MaskStep(w: bv64, m: bv64)
    requires w & m == m
    ensures (w << 1) & (m << 1) == m << 1 && (TopSet(m) ==> TopSet(w))
  {}

  lemma {:induction false} AllSetBits(w: bv64, n: nat)
    requires AllSet(w, n)
    ensures Bits(w, n) == Trues(n)
    decreases n
  {
    hide TopSet;
    if n > 0 {
      AllSetBits(w << 1, n - 1);
    }
  }

  // ---------- The table ----------

  // One table lookup does the work of eight single-bit steps.
  lemma TableStep(c: bv64, b: Byte)
    ensures LookupStep(c, b) == Absorb(c, b)
  {
    hide Bits, OnTop, BitSteps, PolySteps, Entry, Xor, Index, Low56, Plus;
    var idx, low := Index(c, b), Low56(c);
    TopByteSplit(c, b);
    BitsXor(idx << 56, low, 64);
    PolyStepsLinear(Bits(idx << 56, 64), Bits(low, 64), 8);
    BitStepsIsPolySteps(Xor(c, OnTop(b)), 8);
    EntryIsDivided(idx);
    LowShifts(low);
    BitsXor(Entry(idx), c << 8, 64);
    BitsInjective(LookupStep(c, b), Absorb(c, b));
  }

  function Low56(c: bv64): (low: bv64)
    ensures low & 0xFF00000000000000 == 0 && low << 8 == c << 8
  {
    c & 0x00FFFFFFFFFFFFFF
  }

  lemma TopByteSplit(c: bv64, b: Byte)
    ensures Xor(c, OnTop(b)) == Xor(Index(c, b) << 56, Low56(c))
  {
    hide OnTop, Index, Low56;
    TopByteSplitAux(c, b);
  }

  lemma TopByteSplitAux(c: bv64, b: Byte)
    ensures c ^ OnTop(b) == (Index(c, b) << 56) ^ Low56(c)
  {}

  lemma LowShifts(low: bv64)
    requires low & 0xFF00000000000000 == 0
    ensures PolySteps(Bits(low, 64), 8) == Bits(low << 8, 64)
  {
    hide Bits, ShiftUp, PolySteps;
    BitsSplit(low, 8, 56);
    BitsSplit(low, 8, 64);
    BitsSplit(low, 64, 8);
    EightShifts(low);
    SixtyFourShifts(low);
    BitsOfZero(8);
    TopByteClear(low);
    ShiftsOut(Bits(low, 64), 8);
    assert Bits(low, 64)[..8] == Bits(low, 8);
    assert Bits(low, 72)[8..] == Bits(low << 8, 64);
    assert Bits(low, 72) == Bits(low, 64) + Zero(8);
  }

  lemma TopByteClear(w: bv64)
    requires w & 0xFF00000000000000 == 0
    ensures Bits(w, 8) == Zero(8)
  {
    assert Bits(w, 8) == [TopSet(w)] + Bits(w << 1, 7);
    assert Bits(w << 1, 7) == [TopSet(w << 1)] + Bits(w << 2, 6);
    assert Bits(w << 2, 6) == [TopSet(w << 2)] + Bits(w << 3, 5);
    assert Bits(w << 3, 5) == [TopSet(w << 3)] + Bits(w << 4, 4);
    assert Bits(w << 4, 4) == [TopSet(w << 4)] + Bits(w << 5, 3);
    assert Bits(w << 5, 3) == [TopSet(w << 5)] + Bits(w << 6, 2);
    assert Bits(w << 6, 2) == [TopSet(w << 6)] + Bits(w << 7, 1);
    assert Bits(w << 7, 1) == [TopSet(w << 7)] + Bits(w << 8, 0);
  }

  lemma EntryIsDivided(idx: bv64)
    requires idx < 256
    ensures Bits(Entry(idx), 64) == PolySteps(Bits(idx << 56, 64), 8)
  {
    hide Bits, PolySteps, BitSteps, Xor, Plus, RowOk, Row;
    var h, k := idx >> 3, idx & 7;
    IndexSplit(idx);
    RowIsDivided(h);
    FirstRow(k);
    RowAt(Row(h), h << 59, k as nat);
    BitStepsIsPolySteps(h << 59, 8);
    BitStepsIsPolySteps(k << 56, 8);
    BitsXor(Row(h)[0], ROW00[k as nat], 64);
    BitsXor(h << 59, k << 56, 64);
    PolyStepsLinear(Bits(h << 59, 64), Bits(k << 56, 64), 8);
  }

  lemma IndexSplit(idx: bv64)
    requires idx < 256
    ensures idx << 56 == Xor((idx >> 3) << 59, (idx & 7) << 56)
    ensures idx >> 3 < 32 && idx & 7 < 8
  {}

  // Every row is the first row plus its own leading entry.
  ghost predicate RowOk(row: seq<bv64>, w: bv64) {
    && |row| == 8
    && row[0] == BitSteps(w, 8)
    && row[0] == Xor(row[0], ROW00[0]) && row[1] == Xor(row[0], ROW00[1])
    && row[2] == Xor(row[0], ROW00[2]) && row[3] == Xor(row[0], ROW00[3])
    && row[4] == Xor(row[0], ROW00[4]) && row[5] == Xor(row[0], ROW00[5])
    && row[6] == Xor(row[0], ROW00[6]) && row[7] == Xor(row[0], ROW00[7])
  }

  lemma RowAt(row: seq<bv64>, w: bv64, k: nat)
    requires RowOk(row, w) && k < 8
    ensures row[0] == BitSteps(w, 8) && row[k] == Xor(row[0], ROW00[k])
  {
    hide Xor, BitSteps;
  }

  lemma FirstRow(k: bv64)
    requires k < 8
    ensures k as nat < 8 && ROW00[k as nat] == BitSteps(k << 56, 8)
  {
    hide BitSteps, Unrolled;
    FirstRowUnrolled(k);
    Unroll(k << 56);
  }

  function Unrolled(c: bv64): bv64 {
    BitStep(BitStep(BitStep(BitStep(BitStep(BitStep(BitStep(BitStep(c))))))))
  }

  lemma FirstRowUnrolled(k: bv64)
    requires k < 8
    ensures k as nat < 8 && ROW00[k as nat] == Unrolled(k << 56)
  {}

  lemma Unroll(c: bv64)
    ensures BitSteps(c, 8) == Unrolled(c)
  {
    hide BitStep;
    var c1 := BitStep(c);
    var c2 := BitStep(c1);
    var c3 := BitStep(c2);
    var c4 := BitStep(c3);
    var c5 := BitStep(c4);
    var c6 := BitStep(c5);
    var c7 := BitStep(c6);
    assert BitSteps(c, 8) == BitSteps(c1, 7);
    assert BitSteps(c1, 7) == BitSteps(c2, 6);
    assert BitSteps(c2, 6) == BitSteps(c3, 5);
    assert BitSteps(c3, 5) == BitSteps(c4, 4);
    assert BitSteps(c4, 4) == BitSteps(c5, 3);
    assert BitSteps(c5, 3) == BitSteps(c6, 2);
    assert BitSteps(c6, 2) == BitSteps(c7, 1);
  }

  lemma Row00() ensures RowOk(ROW00, 0 << 59) {}
  lemma Row01() ensures RowOk(ROW01, 1 << 59) {}
  lemma Row02() ensures RowOk(ROW02, 2 << 59) {}
  lemma Row03() ensures RowOk(ROW03, 3 << 59) {}
  lemma Row04() ensures RowOk(ROW04, 4 << 59) {}
  lemma Row05() ensures RowOk(ROW05, 5 << 59) {}
  lemma Row06() ensures RowOk(ROW06, 6 << 59) {}
  lemma Row07() ensures RowOk(ROW07, 7 << 59) {}
  lemma Row08() ensures RowOk(ROW08, 8 << 59) {}
  lemma Row09() ensures RowOk(ROW09, 9 << 59) {}
  lemma Row10() ensures RowOk(ROW10, 10 << 59) {}
  lemma Row11() ensures RowOk(ROW11, 11 << 59) {}
  lemma Row12() ensures RowOk(ROW12, 12 << 59) {}
  lemma Row13() ensures RowOk(ROW13, 13 << 59) {}
  lemma Row14() ensures RowOk(ROW14, 14 << 59) {}
  lemma Row15() ensures RowOk(ROW15, 15 << 59) {}
  lemma Row16() ensures RowOk(ROW16, 16 << 59) {}
  lemma Row17() ensures RowOk(ROW17, 17 << 59) {}
  lemma Row18() ensures RowOk(ROW18, 18 << 59) {}
  lemma Row19() ensures RowOk(ROW19, 19 << 59) {}
  lemma Row20() ensures RowOk(ROW20, 20 << 59) {}
  lemma Row21() ensures RowOk(ROW21, 21 << 59) {}
  lemma Row22() ensures RowOk(ROW22, 22 << 59) {}
  lemma Row23() ensures RowOk(ROW23, 23 << 59) {}
  lemma Row24() ensures RowOk(ROW24, 24 << 59) {}
  lemma Row25() ensures RowOk(ROW25, 25 << 59) {}
  lemma Row26() ensures RowOk(ROW26, 26 << 59) {}
  lemma Row27() ensures RowOk(ROW27, 27 << 59) {}
  lemma Row28() ensures RowOk(ROW28, 28 << 59) {}
  lemma Row29() ensures RowOk(ROW29, 29 << 59) {}
  lemma Row30() ensures RowOk(ROW30, 30 << 59) {}
  lemma Row31() ensures RowOk(ROW31, 31 << 59) {}

  lemma RowIsDivided(h: bv64)
    requires h < 32
    ensures RowOk(Row(h), h << 59)
  {
    hide RowOk;
    if h < 16 { RowIsDividedLow(h); } else { RowIsDividedHigh(h); }
  }

  lemma RowIsDividedLow(h: bv64)
    requires h < 16
    ensures RowOk(Row(h), h << 59)
  {
    hide RowOk;
    if h == 0 { Row00(); } else if h == 1 { Row01(); }
    else if h == 2 { Row02(); } else if h == 3 { Row03(); }
    else if h == 4 { Row04(); } else if h == 5 { Row05(); }
    else if h == 6 { Row06(); } else if h == 7 { Row07(); }
    else if h == 8 { Row08(); } else if h == 9 { Row09(); }
    else if h == 10 { Row10(); } else if h == 11 { Row11(); }
    else if h == 12 { Row12(); } else if h == 13 { Row13(); }
    else if h == 14 { Row14(); } else { assert h == 15; Row15(); }
  }

  lemma RowIsDividedHigh(h: bv64)
    requires 16 <= h < 32
    ensures RowOk(Row(h), h << 59)
  {
    hide RowOk;
    if h == 16 { Row16(); } else if h == 17 { Row17(); }
    else if h == 18 { Row18(); } else if h == 19 { Row19(); }
    else if h == 20 { Row20(); } else if h == 21 { Row21(); }
    else if h == 22 { Row22(); } else if h == 23 { Row23(); }
    else if h == 24 { Row24(); } else if h == 25 { Row25(); }
    else if h == 26 { Row26(); } else if h == 27 { Row27(); }
    else if h == 28 { Row28(); } else if h == 29 { Row29(); }
    else if h == 30 { Row30(); } else { assert h == 31; Row31(); }
  }

  // ---------- Detection of burst damage ----------

  lemma {:induction false} MessageBitsInjective(d: seq<Byte>, e: seq<Byte>)
    requires MessageBits(d) == MessageBits(e) && |d| == |e|
    ensures d == e
    decreases |d|
  {
    hide Bits, OnTop;
    if d != [] {
      assert Bits(OnTop(d[0]), 8) == MessageBits(d)[..8] == MessageBits(e)[..8];
      assert MessageBits(d[1..]) == MessageBits(d)[8..] == MessageBits(e)[8..];
      OnTopBits(d[0]);
      OnTopBits(e[0]);
      BitsInjective(OnTop(d[0]), OnTop(e[0]));
      OnTopInjective(d[0], e[0]);
      MessageBitsInjective(d[1..], e[1..]);
      assert d == [d[0]] + d[1..] && e == [e[0]] + e[1..];
    }
  }

  lemma OnTopInjective(b: Byte, d: Byte)
    requires OnTop(b) == OnTop(d)
    ensures b == d
  {}

  lemma SameAfterInversion(x: bv64, y: bv64)
    requires Xor(x, ONES) == Xor(y, ONES)
    ensures x == y
  {}

  // Two messages of one length that agree outside some 64 consecutive bits have the same
  // checksum exactly when they are the same message.
  lemma BurstDetected(d: seq<Byte>, e: seq<Byte>, at: nat)
    requires |d| == |e|
    requires forall i :: 0 <= i < 8 * |d| && !(at <= i < at + 64) ==> MessageBits(d)[i] == MessageBits(e)[i]
    ensures Crc64(d) == Crc64(e) <==> d == e
  {
    hide MessageBits, Update, Bits, Feed, Xor;
    if Crc64(d) == Crc64(e) {
      SameAfterInversion(Update(ONES, d), Update(ONES, e));
      UpdateIsFeed(ONES, d);
      UpdateIsFeed(ONES, e);
      var n := 8 * |d|;
      var lo := if at < n then at else n;
      var hi := if lo + 64 < n then lo + 64 else n;
      assert MessageBits(d)[..lo] == MessageBits(e)[..lo];
      assert MessageBits(d)[hi..] == MessageBits(e)[hi..];
      WindowDetected(Bits(ONES, 64), MessageBits(d), MessageBits(e), lo, hi);
      MessageBitsInjective(d, e);
    }
  }

  lemma WindowDetected(s: Poly, m: Poly, n: Poly, lo: nat, hi: nat)
    requires |s| == 64 && |m| == |n| && Feed(s, m) == Feed(s, n)
    requires lo <= hi <= |m| && hi <= lo + 64
    requires m[..lo] == n[..lo] && m[hi..] == n[hi..]
    ensures m == n
  {
    hide Feed;
    var w, v := m[lo..hi], n[lo..hi];
    FeedParts(s, m, lo, hi);
    FeedParts(s, n, lo, hi);
    var t := Feed(s, m[..lo]);
    FeedInjective(Feed(t, w), Feed(t, v), m[hi..]);
    WindowInjective(t, w, v);
    Join(m, lo, hi);
    Join(n, lo, hi);
  }

  lemma Join(m: Poly, lo: nat, hi: nat)
    requires lo <= hi <= |m|
    ensures m == m[..lo] + m[lo..hi] + m[hi..]
  {}

  lemma FeedParts(s: Poly, m: Poly, lo: nat, hi: nat)
    requires |s| == 64 && lo <= hi <= |m|
    ensures Feed(s, m) == Feed(Feed(Feed(s, m[..lo]), m[lo..hi]), m[hi..])
  {
    hide Feed;
    assert m == m[..hi] + m[hi..] && m[..hi] == m[..lo] + m[lo..hi];
    FeedConcat(s, m[..hi], m[hi..]);
    FeedConcat(s, m[..lo], m[lo..hi]);
  }

  // The byte form: damage confined to eight consecutive bytes never goes unnoticed.
  lemma ByteBurstDetected(pre: seq<Byte>, w: seq<Byte>, v: seq<Byte>, post: seq<Byte>)
    requires |w| == |v| <= 8
    ensures Crc64(pre + w + post) == Crc64(pre + v + post) <==> w == v
  {
    hide Crc64, MessageBits;
    var d, e := pre + w + post, pre + v + post;
    MessageBitsConcat(pre + w, post);
    MessageBitsConcat(pre, w);
    MessageBitsConcat(pre + v, post);
    MessageBitsConcat(pre, v);
    BurstDetected(d, e, 8 * |pre|);
    if d == e {
      assert w == d[|pre|..|pre| + |w|] && v == e[|pre|..|pre| + |v|];
    }
  }

  lemma {:induction false} MessageBitsConcat(a: seq<Byte>, b: seq<Byte>)
    ensures MessageBits(a + b) == MessageBits(a) + MessageBits(b)
    decreases |a|
  {
    hide Bits, OnTop;
    if a == [] {
      assert a + b == b;
    } else {
      assert (a + b)[1..] == a[1..] + b;
      MessageBitsConcat(a[1..], b);
    }
  }
}
