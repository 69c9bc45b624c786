/**
 The CRC tables of the Modbus driver, sixteen entries to a row, and the proof that each
 entry is what eight steps of the bitwise CRC make of its index.
 */
module CrcTables {

  /** One bit of the reflected CRC-16 with polynomial 0xA001. */
  function Step(c: bv16): bv16 {
    if c & 1 == 1 then (c >> 1) ^ 0xA001 else c >> 1
  }

  /** Eight bits. */
  function Step8(c: bv16): bv16 {
    Step(Step(Step(Step(Step(Step(Step(Step(c))))))))
  }

  const HI_0: seq<bv8> := [0x00, 0xC1, 0x81, 0x40, 0x01, 0xC0, 0x80, 0x41, 0x01, 0xC0, 0x80, 0x41, 0x00, 0xC1, 0x81, 0x40]
  const HI_1: seq<bv8> := [0x01, 0xC0, 0x80, 0x41, 0x00, 0xC1, 0x81, 0x40, 0x00, 0xC1, 0x81, 0x40, 0x01, 0xC0, 0x80, 0x41]
  const HI_2: seq<bv8> := [0x01, 0xC0, 0x80, 0x41, 0x00, 0xC1, 0x81, 0x40, 0x00, 0xC1, 0x81, 0x40, 0x01, 0xC0, 0x80, 0x41]
  const HI_3: seq<bv8> := [0x00, 0xC1, 0x81, 0x40, 0x01, 0xC0, 0x80, 0x41, 0x01, 0xC0, 0x80, 0x41, 0x00, 0xC1, 0x81, 0x40]
  const HI_4: seq<bv8> := [0x01, 0xC0, 0x80, 0x41, 0x00, 0xC1, 0x81, 0x40, 0x00, 0xC1, 0x81, 0x40, 0x01, 0xC0, 0x80, 0x41]
  const HI_5: seq<bv8> := [0x00, 0xC1, 0x81, 0x40, 0x01, 0xC0, 0x80, 0x41, 0x01, 0xC0, 0x80, 0x41, 0x00, 0xC1, 0x81, 0x40]
  const HI_6: seq<bv8> := [0x00, 0xC1, 0x81, 0x40, 0x01, 0xC0, 0x80, 0x41, 0x01, 0xC0, 0x80, 0x41, 0x00, 0xC1, 0x81, 0x40]
  const HI_7: seq<bv8> := [0x01, 0xC0, 0x80, 0x41, 0x00, 0xC1, 0x81, 0x40, 0x00, 0xC1, 0x81, 0x40, 0x01, 0xC0, 0x80, 0x41]
  const HI_8: seq<bv8> := [0x01, 0xC0, 0x80, 0x41, 0x00, 0xC1, 0x81, 0x40, 0x00, 0xC1, 0x81, 0x40, 0x01, 0xC0, 0x80, 0x41]
  const HI_9: seq<bv8> := [0x00, 0xC1, 0x81, 0x40, 0x01, 0xC0, 0x80, 0x41, 0x01, 0xC0, 0x80, 0x41, 0x00, 0xC1, 0x81, 0x40]
  const HI_A: seq<bv8> := [0x00, 0xC1, 0x81, 0x40, 0x01, 0xC0, 0x80, 0x41, 0x01, 0xC0, 0x80, 0x41, 0x00, 0xC1, 0x81, 0x40]
  const HI_B: seq<bv8> := [0x01, 0xC0, 0x80, 0x41, 0x00, 0xC1, 0x81, 0x40, 0x00, 0xC1, 0x81, 0x40, 0x01, 0xC0, 0x80, 0x41]
  const HI_C: seq<bv8> := [0x00, 0xC1, 0x81, 0x40, 0x01, 0xC0, 0x80, 0x41, 0x01, 0xC0, 0x80, 0x41, 0x00, 0xC1, 0x81, 0x40]
  const HI_D: seq<bv8> := [0x01, 0xC0, 0x80, 0x41, 0x00, 0xC1, 0x81, 0x40, 0x00, 0xC1, 0x81, 0x40, 0x01, 0xC0, 0x80, 0x41]
  const HI_E: seq<bv8> := [0x01, 0xC0, 0x80, 0x41, 0x00, 0xC1, 0x81, 0x40, 0x00, 0xC1, 0x81, 0x40, 0x01, 0xC0, 0x80, 0x41]
  const HI_F: seq<bv8> := [0x00, 0xC1, 0x81, 0x40, 0x01, 0xC0, 0x80, 0x41, 0x01, 0xC0, 0x80, 0x41, 0x00, 0xC1, 0x81, 0x40]

  const LO_0: seq<bv8> := [0x00, 0xC0, 0xC1, 0x01, 0xC3, 0x03, 0x02, 0xC2, 0xC6, 0x06, 0x07, 0xC7, 0x05, 0xC5, 0xC4, 0x04]
  const LO_1: seq<bv8> := [0xCC, 0x0C, 0x0D, 0xCD, 0x0F, 0xCF, 0xCE, 0x0E, 0x0A, 0xCA, 0xCB, 0x0B, 0xC9, 0x09, 0x08, 0xC8]
  const LO_2: seq<bv8> := [0xD8, 0x18, 0x19, 0xD9, 0x1B, 0xDB, 0xDA, 0x1A, 0x1E, 0xDE, 0xDF, 0x1F, 0xDD, 0x1D, 0x1C, 0xDC]
  const LO_3: seq<bv8> := [0x14, 0xD4, 0xD5, 0x15, 0xD7, 0x17, 0x16, 0xD6, 0xD2, 0x12, 0x13, 0xD3, 0x11, 0xD1, 0xD0, 0x10]
  const LO_4: seq<bv8> := [0xF0, 0x30, 0x31, 0xF1, 0x33, 0xF3, 0xF2, 0x32, 0x36, 0xF6, 0xF7, 0x37, 0xF5, 0x35, 0x34, 0xF4]
  const LO_5: seq<bv8> := [0x3C, 0xFC, 0xFD, 0x3D, 0xFF, 0x3F, 0x3E, 0xFE, 0xFA, 0x3A, 0x3B, 0xFB, 0x39, 0xF9, 0xF8, 0x38]
  const LO_6: seq<bv8> := [0x28, 0xE8, 0xE9, 0x29, 0xEB, 0x2B, 0x2A, 0xEA, 0xEE, 0x2E, 0x2F, 0xEF, 0x2D, 0xED, 0xEC, 0x2C]
  const LO_7: seq<bv8> := [0xE4, 0x24, 0x25, 0xE5, 0x27, 0xE7, 0xE6, 0x26, 0x22, 0xE2, 0xE3, 0x23, 0xE1, 0x21, 0x20, 0xE0]
  const LO_8: seq<bv8> := [0xA0, 0x60, 0x61, 0xA1, 0x63, 0xA3, 0xA2, 0x62, 0x66, 0xA6, 0xA7, 0x67, 0xA5, 0x65, 0x64, 0xA4]
  const LO_9: seq<bv8> := [0x6C, 0xAC, 0xAD, 0x6D, 0xAF, 0x6F, 0x6E, 0xAE, 0xAA, 0x6A, 0x6B, 0xAB, 0x69, 0xA9, 0xA8, 0x68]
  const LO_A: seq<bv8> := [0x78, 0xB8, 0xB9, 0x79, 0xBB, 0x7B, 0x7A, 0xBA, 0xBE, 0x7E, 0x7F, 0xBF, 0x7D, 0xBD, 0xBC, 0x7C]
  const LO_B: seq<bv8> := [0xB4, 0x74, 0x75, 0xB5, 0x77, 0xB7, 0xB6, 0x76, 0x72, 0xB2, 0xB3, 0x73, 0xB1, 0x71, 0x70, 0xB0]
  const LO_C: seq<bv8> := [0x50, 0x90, 0x91, 0x51, 0x93, 0x53, 0x52, 0x92, 0x96, 0x56, 0x57, 0x97, 0x55, 0x95, 0x94, 0x54]
  const LO_D: seq<bv8> := [0x9C, 0x5C, 0x5D, 0x9D, 0x5F, 0x9F, 0x9E, 0x5E, 0x5A, 0x9A, 0x9B, 0x5B, 0x99, 0x59, 0x58, 0x98]
  const LO_E: seq<bv8> := [0x88, 0x48, 0x49, 0x89, 0x4B, 0x8B, 0x8A, 0x4A, 0x4E, 0x8E, 0x8F, 0x4F, 0x8D, 0x4D, 0x4C, 0x8C]
  const LO_F: seq<bv8> := [0x44, 0x84, 0x85, 0x45, 0x87, 0x47, 0x46, 0x86, 0x82, 0x42, 0x43, 0x83, 0x41, 0x81, 0x80, 0x40]

  const HI_ROWS: seq<seq<bv8>> := [
    HI_0, HI_1, HI_2, HI_3, HI_4, HI_5, HI_6, HI_7,
    HI_8, HI_9, HI_A, HI_B, HI_C, HI_D, HI_E, HI_F]
  const LO_ROWS: seq<seq<bv8>> := [
    LO_0, LO_1, LO_2, LO_3, LO_4, LO_5, LO_6, LO_7,
    LO_8, LO_9, LO_A, LO_B, LO_C, LO_D, LO_E, LO_F]

  /** Sixteen entries to a row make `auchCRCHi` and `auchCRCLo`. */
  function Table(rows: seq<seq<bv8>>): (t: seq<bv8>)
    requires |rows| == 16 && forall r | 0 <= r < 16 :: |rows[r]| == 16
    ensures |t| == 256 && forall i | 0 <= i < 256 :: t[i] == rows[i / 16][i % 16]
  {
    seq(256, i requires 0 <= i < 256 => rows[i / 16][i % 16])
  }

  /** The 16-bit value with these halves. */
  function Joined(h: bv8, l: bv8): bv16 {
    ((h as bv16) << 8) | (l as bv16)
  }

  /** The entry for index `i` is right. */
  predicate Entry(h: bv8, l: bv8, i: bv16) {
    Joined(l, h) == Step8(i)
  }

  /** The row for the indices from `i` on is right. */
  predicate Row(h: seq<bv8>, l: seq<bv8>, i: bv16) {
    |h| == 16 && |l| == 16
    && Entry(h[0], l[0], i + 0)
    && Entry(h[1], l[1], i + 1)
    && Entry(h[2], l[2], i + 2)
    && Entry(h[3], l[3], i + 3)
    && Entry(h[4], l[4], i + 4)
    && Entry(h[5], l[5], i + 5)
    && Entry(h[6], l[6], i + 6)
    && Entry(h[7], l[7], i + 7)
    && Entry(h[8], l[8], i + 8)
    && Entry(h[9], l[9], i + 9)
    && Entry(h[10], l[10], i + 10)
    && Entry(h[11], l[11], i + 11)
    && Entry(h[12], l[12], i + 12)
    && Entry(h[13], l[13], i + 13)
    && Entry(h[14], l[14], i + 14)
    && Entry(h[15], l[15], i + 15)
  }

  lemma Row0()
    ensures Row(HI_0, LO_0, 0x00)
  {
  }

  lemma Row1()
    ensures Row(HI_1, LO_1, 0x10)
  {
  }

  lemma Row2()
    ensures Row(HI_2, LO_2, 0x20)
  {
  }

  lemma Row3()
    ensures Row(HI_3, LO_3, 0x30)
  {
  }

  lemma Row4()
    ensures Row(HI_4, LO_4, 0x40)
  {
  }

  lemma Row5()
    ensures Row(HI_5, LO_5, 0x50)
  {
  }

  lemma Row6()
    ensures Row(HI_6, LO_6, 0x60)
  {
  }

  lemma Row7()
    ensures Row(HI_7, LO_7, 0x70)
  {
  }

  lemma Row8()
    ensures Row(HI_8, LO_8, 0x80)
  {
  }

  lemma Row9()
    ensures Row(HI_9, LO_9, 0x90)
  {
  }

  lemma RowA()
    ensures Row(HI_A, LO_A, 0xA0)
  {
  }

  lemma RowB()
    ensures Row(HI_B, LO_B, 0xB0)
  {
  }

  lemma RowC()
    ensures Row(HI_C, LO_C, 0xC0)
  {
  }

  lemma RowD()
    ensures Row(HI_D, LO_D, 0xD0)
  {
  }

  lemma RowE()
    ensures Row(HI_E, LO_E, 0xE0)
  {
  }

  lemma RowF()
    ensures Row(HI_F, LO_F, 0xF0)
  {
  }

  lemma RowOfTable(x: bv8)
    ensures ((x >> 4) as nat) < 16
    ensures Row(HI_ROWS[(x >> 4) as nat], LO_ROWS[(x >> 4) as nat], (x as bv16) & 0xF0)
  {
    hide Row;
    var r := x >> 4;
    if r == 0 { Row0(); }
    else if r == 1 { Row1(); }
    else if r == 2 { Row2(); }
    else if r == 3 { Row3(); }
    else if r == 4 { Row4(); }
    else if r == 5 { Row5(); }
    else if r == 6 { Row6(); }
    else if r == 7 { Row7(); }
    else if r == 8 { Row8(); }
    else if r == 9 { Row9(); }
    else if r == 10 { RowA(); }
    else if r == 11 { RowB(); }
    else if r == 12 { RowC(); }
    else if r == 13 { RowD(); }
    else if r == 14 { RowE(); }
    else if r == 15 { RowF(); }
  }

  lemma EntryOfRow(h: seq<bv8>, l: seq<bv8>, x: bv8)
    requires Row(h, l, (x as bv16) & 0xF0)
    ensures ((x & 15) as nat) < 16
    ensures Entry(h[(x & 15) as nat], l[(x & 15) as nat], x as bv16)
  {
    var i, k := (x as bv16) & 0xF0, (x & 15) as bv16;
    assert x as bv16 == i + k;
    hide Entry;
    assert k == 0 || k == 1 || k == 2 || k == 3 || k == 4 || k == 5 || k == 6 || k == 7
        || k == 8 || k == 9 || k == 10 || k == 11 || k == 12 || k == 13 || k == 14 || k == 15;
  }

  /** `auchCRCHi[i]` and `auchCRCLo[i]`. */
  function CrcHi(i: nat): bv8
    requires i < 256
  {
    Table(HI_ROWS)[i]
  }

  function CrcLo(i: nat): bv8
    requires i < 256
  {
    Table(LO_ROWS)[i]
  }

  /** Every entry of the two tables is eight steps of the bitwise CRC. */
  lemma TablesAreSteps(x: bv8)
    ensures (x as nat) < 256
    ensures Entry(CrcHi(x as nat), CrcLo(x as nat), x as bv16)
  {
    RowOfTable(x);
    hide Row, Entry, Table;
    var r, k := (x >> 4) as nat, (x & 15) as nat;
    EntryOfRow(HI_ROWS[r], LO_ROWS[r], x);
    Nibbles(x);
    TableAt(HI_ROWS, r, k);
    TableAt(LO_ROWS, r, k);
  }

  lemma Nibbles(x: bv8)
    ensures x as nat == 16 * ((x >> 4) as nat) + (x & 15) as nat
    ensures (x >> 4) as nat < 16 && (x & 15) as nat < 16
  {
  }

  lemma TableAt(rows: seq<seq<bv8>>, r: nat, k: nat)
    requires |rows| == 16 && (forall r | 0 <= r < 16 :: |rows[r]| == 16) && r < 16 && k < 16
    ensures Table(rows)[16 * r + k] == rows[r][k]
  {
  }
}
