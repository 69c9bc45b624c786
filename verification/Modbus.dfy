/**
 The Modbus driver's CRC: byte by byte from two tables, against the bitwise CRC-16 of
 "MODBUS over Serial Line" V1.02, section 6.2.2; and what it detects.
 */
module Modbus {
  import opened CrcTables

  // ---------------------------------------------------------------- the bitwise CRC

  function BitStep(c: bv16, bit: bool): bv16 {
    Step(if bit then c ^ 1 else c)
  }

  function CrcBits(c: bv16, bits: seq<bool>): bv16
    decreases |bits|
  {
    if bits == [] then c else CrcBits(BitStep(c, bits[0]), bits[1..])
  }

  /** The low `n` bits of a word, least significant first. */
  function WordBits(w: bv16, n: nat): (bits: seq<bool>)
    ensures |bits| == n
  {
    if n == 0 then [] else [w & 1 == 1] + WordBits(w >> 1, n - 1)
  }

  /** A byte goes over the line least significant bit first. */
  function BitsOf(b: bv8): (bits: seq<bool>)
    ensures |bits| == 8
  {
    WordBits(b as bv16, 8)
  }

  function AllBits(m: seq<bv8>): seq<bool> {
    if m == [] then [] else BitsOf(m[0]) + AllBits(m[1..])
  }

  /** The CRC of a message: all ones, then one step for each bit. */
  function Crc(m: seq<bv8>): bv16 {
    CrcBits(0xFFFF, AllBits(m))
  }

  lemma {:induction false} CrcBitsConcat(c: bv16, a: seq<bool>, b: seq<bool>)
    ensures CrcBits(c, a + b) == CrcBits(CrcBits(c, a), b)
    decreases |a|
  {
    if a == [] {
      assert a + b == b;
    } else {
      assert (a + b)[1..] == a[1..] + b;
      CrcBitsConcat(BitStep(c, a[0]), a[1..], b);
    }
  }

  lemma {:induction false} AllBitsSnoc(m: seq<bv8>, b: bv8)
    ensures AllBits(m + [b]) == AllBits(m) + BitsOf(b)
  {
    if m == [] {
      assert [b][1..] == [];
      assert AllBits([b]) == BitsOf(b) + [];
      assert m + [b] == [b];
    } else {
      assert (m + [b])[1..] == m[1..] + [b];
      AllBitsSnoc(m[1..], b);
    }
  }

  // ---------------------------------------------------------------- one byte at a time

  function XorByte(c: bv16, b: bv8): bv16 {
    c ^ (b as bv16)
  }

  /** A byte xored in, then eight steps. */
  function ByteStep(c: bv16, b: bv8): bv16 {
    Step8(XorByte(c, b))
  }

  function Steps(c: bv16, n: nat): bv16
    decreases n
  {
    if n == 0 then c else Steps(Step(c), n - 1)
  }

  predicate Narrow(w: bv16, n: nat) {
    if n == 0 then w == 0 else Narrow(w >> 1, n - 1)
  }

  lemma LowBit(c: bv16, w: bv16)
    ensures (c ^ w) >> 1 == (c >> 1) ^ (w >> 1) && (c ^ w) & 1 == (c & 1) ^ (w & 1)
    ensures c & 1 == 0 || c & 1 == 1
  {
  }

  lemma Swap(a: bv16, b: bv16, k: bv16)
    ensures (a ^ b) ^ k == (a ^ k) ^ b
  {
  }

  lemma OneBit(c: bv16, w: bv16)
    ensures Step(c ^ w) == BitStep(c, w & 1 == 1) ^ (w >> 1)
  {
    LowBit(c, w);
    LowBit(w, c);
    LowBit(c, 1);
    Swap(c >> 1, w >> 1, 0xA001);
  }

  lemma WordStep(c: bv16, w: bv16, n: nat)
    requires n > 0
    ensures CrcBits(c, WordBits(w, n)) == CrcBits(BitStep(c, w & 1 == 1), WordBits(w >> 1, n - 1))
  {
    var bits := WordBits(w, n);
    assert bits[1..] == WordBits(w >> 1, n - 1);
  }

  function Xor(a: bv16, b: bv16): bv16 {
    a ^ b
  }

  /** `w` without its lowest bit. */
  function Rest(w: bv16): bv16 {
    w >> 1
  }

  /** Bits xored in one by one as they come up, or all at once before the shifts. */
  lemma {:induction false} WordXored(c: bv16, w: bv16, n: nat)
    requires Narrow(w, n)
    ensures CrcBits(c, WordBits(w, n)) == Steps(Xor(c, w), n)
    decreases n
  {
    hide CrcBits, WordBits, Steps, Narrow, Xor, Rest;
    if n > 0 {
      var c' := OneBitLess(c, w, n);
      WordXored(c', Rest(w), n - 1);
    } else {
      NoBits(c, w);
    }
  }

  lemma OneBitLess(c: bv16, w: bv16, n: nat) returns (c': bv16)
    requires n > 0 && Narrow(w, n)
    ensures Narrow(Rest(w), n - 1)
    ensures CrcBits(c, WordBits(w, n)) == CrcBits(c', WordBits(Rest(w), n - 1))
    ensures Steps(Xor(c, w), n) == Steps(Xor(c', Rest(w)), n - 1)
  {
    hide Step, BitStep, CrcBits, WordBits, Steps;
    c' := BitStep(c, w & 1 == 1);
    WordStep(c, w, n);
    OneBit(c, w);
    StepsFirst(c ^ w, n);
  }

  lemma NoBits(c: bv16, w: bv16)
    requires Narrow(w, 0)
    ensures CrcBits(c, WordBits(w, 0)) == Steps(Xor(c, w), 0)
  {
    assert c ^ 0 == c;
  }

  lemma StepsFirst(c: bv16, n: nat)
    requires n > 0
    ensures Steps(c, n) == Steps(Step(c), n - 1)
  {
    hide Step;
  }

  lemma BitsAreByte(c: bv16, b: bv8)
    ensures CrcBits(c, BitsOf(b)) == ByteStep(c, b)
  {
    ByteBelow(b);
    WordIsByte(c, b as bv16);
    hide Step8, WordBits, CrcBits;
  }

  lemma WordIsByte(c: bv16, w: bv16)
    requires w < 256
    ensures CrcBits(c, WordBits(w, 8)) == Step8(c ^ w)
  {
    hide CrcBits, Step8, Steps, Narrow, WordBits;
    ByteIsNarrow(w);
    WordXored(c, w, 8);
    EightSteps(c ^ w);
  }

  lemma ByteBelow(b: bv8)
    ensures b as bv16 < 256 && IsByte(b as bv16)
  {
  }

  lemma ByteIsNarrow(w: bv16)
    requires w < 256
    ensures Narrow(w, 8)
  {
    var w2 := w >> 1 >> 1;
    var w4 := w2 >> 1 >> 1;
    var w6 := w4 >> 1 >> 1;
    assert Narrow(w6, 2) by {
      assert w6 >> 1 >> 1 == 0;
    }
    assert Narrow(w4, 4);
    assert Narrow(w2, 6);
  }

  lemma EightSteps(c: bv16)
    ensures Steps(c, 8) == Step8(c)
  {
    hide Step;
    var c2 := Step(Step(c));
    var c4 := Step(Step(c2));
    var c6 := Step(Step(c4));
    assert Steps(c6, 2) == Step(Step(c6));
    assert Steps(c4, 4) == Steps(c6, 2);
    assert Steps(c2, 6) == Steps(c4, 4);
  }

  /** The byte-wise CRC goes on where the bitwise one is. */
  lemma CrcSnoc(m: seq<bv8>, b: bv8)
    ensures Crc(m + [b]) == ByteStep(Crc(m), b)
  {
    AllBitsSnoc(m, b);
    CrcBitsConcat(0xFFFF, AllBits(m), BitsOf(b));
    BitsAreByte(Crc(m), b);
  }

  // ---------------------------------------------------------------- the table-driven step

  function High(c: bv16): bv8 {
    (c >> 8) as bv8
  }

  function Low(c: bv16): bv8 {
    (c & 0xFF) as bv8
  }

  function HighWord(c: bv16): bv16 {
    c >> 8
  }

  function LowWord(c: bv16): bv16 {
    c & 0xFF
  }

  /** Eight steps split into the table's part, for the low byte, and a shift. */
  lemma StepsOfLowByte(c: bv16)
    ensures Step8(c) == Xor(HighWord(c), Step8(LowWord(c)))
  {
    hide Step8, Xor, HighWord, LowWord;
    Parts(c);
    Step8Xor(TopByte(c), LowWord(c));
    ShiftedOut(c);
  }

  function TopByte(c: bv16): bv16 {
    c & 0xFF00
  }

  lemma Parts(c: bv16)
    ensures Xor(TopByte(c), LowWord(c)) == c
  {
  }

  lemma ShiftedOut(c: bv16)
    ensures Step8(TopByte(c)) == HighWord(c)
  {
  }

  lemma Step8Xor(c: bv16, d: bv16)
    ensures Step8(Xor(c, d)) == Xor(Step8(c), Step8(d))
  {
    hide Xor, Step;
    var c1, d1 := Step(c), Step(d);
    var c2, d2 := Step(c1), Step(d1);
    var c3, d3 := Step(c2), Step(d2);
    var c4, d4 := Step(c3), Step(d3);
    var c5, d5 := Step(c4), Step(d4);
    var c6, d6 := Step(c5), Step(d5);
    StepXor(c, d);
    StepXor(c1, d1);
    StepXor(c2, d2);
    StepXor(c3, d3);
    StepXor(c4, d4);
    StepXor(c5, d5);
    StepXor(c6, d6);
    StepXor(Step(c6), Step(d6));
  }

  /** `crcL ^ byte` as an index. */
  function Index(l: bv8, b: bv8): (i: nat)
    ensures i < 256
  {
    (l ^ b) as nat
  }

  function Mixed(h: bv8, t: bv8): bv8 {
    h ^ t
  }

  /** What the tables make of the CRC's two halves is what eight steps make of it. */
  lemma TableStep(h: bv8, l: bv8, b: bv8)
    ensures var i := Index(l, b); ByteStep(Joined(h, l), b) == Joined(CrcLo(i), Mixed(h, CrcHi(i)))
  {
    var x := l ^ b;
    TablesAreSteps(x);
    hide Step8, CrcHi, CrcLo, Entry, ByteStep, Joined;
    EntryStep(h, l, b, CrcHi(x as nat), CrcLo(x as nat));
  }

  lemma EntryStep(h: bv8, l: bv8, b: bv8, th: bv8, tl: bv8)
    requires Entry(th, tl, (l ^ b) as bv16)
    ensures ByteStep(Joined(h, l), b) == Joined(tl, h ^ th)
  {
    hide Step8, Joined, Xor, XorByte, HighWord, LowWord;
    Halves(h, l, b);
    StepsOfLowByte(XorByte(Joined(h, l), b));
    XorLow(h, th, tl);
  }

  lemma Halves(h: bv8, l: bv8, b: bv8)
    ensures var c := XorByte(Joined(h, l), b); HighWord(c) == h as bv16 && LowWord(c) == (l ^ b) as bv16
  {
  }

  lemma XorLow(h: bv8, th: bv8, tl: bv8)
    ensures Xor(h as bv16, Joined(tl, th)) == Joined(tl, h ^ th)
  {
  }

  // ---------------------------------------------------------------- what passes

  lemma StepZero(c: bv16)
    ensures Step(c) == 0 <==> c == 0
  {
  }

  lemma Step8Zero(c: bv16)
    ensures Step8(c) == 0 <==> c == 0
  {
    hide Step;
    StepZero(c);
    StepZero(Step(c));
    StepZero(Step(Step(c)));
    StepZero(Step(Step(Step(c))));
    var d := Step(Step(Step(Step(c))));
    StepZero(d);
    StepZero(Step(d));
    StepZero(Step(Step(d)));
    StepZero(Step(Step(Step(d))));
  }

  lemma XorZero(c: bv16, b: bv8)
    ensures XorByte(c, b) == 0 <==> c == b as bv16
  {
  }

  /** One byte takes the CRC to 0 only from that byte. */
  lemma ByteStepZero(c: bv16, b: bv8)
    ensures ByteStep(c, b) == 0 <==> c == b as bv16
  {
    hide Step8, XorByte;
    Step8Zero(XorByte(c, b));
    XorZero(c, b);
  }

  predicate IsByte(c: bv16) {
    c < 256
  }

  lemma HighByteMoves(y: bv16)
    requires IsByte(y)
    ensures IsByte(Step8(y)) <==> y == 0
    ensures Step8(0) == 0
  {
  }

  /** What is left of a CRC when a byte has cancelled its low half, or has not. */
  lemma ByteLeaves(c: bv16, a: bv8)
    ensures a == Low(c) ==> ByteStep(c, a) == High(c) as bv16
    ensures IsByte(ByteStep(c, a)) ==> a == Low(c)
  {
    hide Step8, Xor, XorByte, HighWord, LowWord, IsByte, Low, High;
    var d := XorByte(c, a);
    LowByteCancels(c, a);
    StepsOfLowByte(d);
    HighByteMoves(LowWord(d));
    XorBelow(HighWord(d), Step8(LowWord(d)));
  }

  lemma LowByteCancels(c: bv16, a: bv8)
    ensures var d := XorByte(c, a);
      && HighWord(d) == High(c) as bv16 && IsByte(HighWord(d))
      && IsByte(LowWord(d)) && (LowWord(d) == 0 <==> a == Low(c))
  {
  }

  lemma XorBelow(x: bv16, y: bv16)
    requires IsByte(x)
    ensures IsByte(Xor(x, y)) <==> IsByte(y)
    ensures Xor(x, 0) == x
  {
  }

  /** Appending two bytes gives 0 exactly for the CRC itself, low byte first. */
  lemma ResidueIff(c: bv16, a: bv8, b: bv8)
    ensures ByteStep(ByteStep(c, a), b) == 0 <==> a == Low(c) && b == High(c)
  {
    hide ByteStep, Low, High, IsByte;
    ByteLeaves(c, a);
    ByteStepZero(ByteStep(c, a), b);
    ByteBelow(b);
    SameByte(b, High(c));
  }

  lemma SameByte(a: bv8, b: bv8)
    ensures a as bv16 == b as bv16 <==> a == b
  {
  }

  lemma OneByteNeverPasses(b: bv8)
    ensures ByteStep(0xFFFF, b) != 0
  {
  }

  /** `modbus_crc16(frame) == 0`. */
  predicate Passes(frame: seq<bv8>) {
    Crc(frame) == 0
  }

  /** A frame passes exactly when its last two bytes are the CRC of those before them, low
      byte first. Frames of fewer than two bytes never pass. */
  lemma PassesIff(frame: seq<bv8>)
    ensures Passes(frame) <==>
      |frame| >= 2 &&
      var n := |frame| - 2; frame[n] == Low(Crc(frame[..n])) && frame[n + 1] == High(Crc(frame[..n]))
  {
    hide ByteStep, Low, High;
    if |frame| >= 2 {
      var n := |frame| - 2;
      var c := Crc(frame[..n]);
      assert frame[..n] + [frame[n]] == frame[..n + 1] && frame[..n + 1] + [frame[n + 1]] == frame;
      CrcSnoc(frame[..n], frame[n]);
      CrcSnoc(frame[..n + 1], frame[n + 1]);
      ResidueIff(c, frame[n], frame[n + 1]);
    } else if |frame| == 1 {
      assert [] + [frame[0]] == frame;
      CrcSnoc([], frame[0]);
      OneByteNeverPasses(frame[0]);
    }
  }

  /** What a sender appends. */
  function WithCrc(m: seq<bv8>): seq<bv8> {
    m + [Low(Crc(m)), High(Crc(m))]
  }

  lemma WithCrcPasses(m: seq<bv8>)
    ensures Passes(WithCrc(m))
  {
    PassesIff(WithCrc(m));
    assert WithCrc(m)[..|m|] == m;
  }

  lemma NextCrc(m: seq<bv8>, k: nat, before: bv16, after: bv16)
    requires k < |m| && Crc(m[..k]) == before && ByteStep(before, m[k]) == after
    ensures Crc(m[..k + 1]) == after
  {
    hide ByteStep, Crc;
    CrcSnoc(m[..k], m[k]);
    assert m[..k] + [m[k]] == m[..k + 1];
  }

  lemma FiveSteps()
    ensures ByteStep(0xFFFF, 0x31) == 0x947E && ByteStep(0x947E, 0x32) == 0xF595
    ensures ByteStep(0xF595, 0x33) == 0x7A75 && ByteStep(0x7A75, 0x34) == 0x30BA
    ensures ByteStep(0x30BA, 0x35) == 0xA471
  {
  }

  lemma FourMoreSteps()
    ensures ByteStep(0xA471, 0x36) == 0x32E4 && ByteStep(0x32E4, 0x37) == 0x9D73
    ensures ByteStep(0x9D73, 0x38) == 0x37DD && ByteStep(0x37DD, 0x39) == 0x4B37
  {
  }

  /** "123456789" */
  const DIGITS: seq<bv8> := [0x31, 0x32, 0x33, 0x34, 0x35, 0x36, 0x37, 0x38, 0x39]

  lemma FirstFive()
    ensures Crc(DIGITS[..5]) == 0xA471
  {
    FiveSteps();
    assert DIGITS[..0] == [] && Crc([]) == 0xFFFF;
    hide ByteStep, Crc;
    NextCrc(DIGITS, 0, 0xFFFF, 0x947E);
    NextCrc(DIGITS, 1, 0x947E, 0xF595);
    NextCrc(DIGITS, 2, 0xF595, 0x7A75);
    NextCrc(DIGITS, 3, 0x7A75, 0x30BA);
    NextCrc(DIGITS, 4, 0x30BA, 0xA471);
  }

  /** The check value by which this CRC is known. */
  lemma CheckValue()
    ensures Crc(DIGITS) == 0x4B37
  {
    FirstFive();
    FourMoreSteps();
    hide ByteStep, Crc;
    NextCrc(DIGITS, 5, 0xA471, 0x32E4);
    NextCrc(DIGITS, 6, 0x32E4, 0x9D73);
    NextCrc(DIGITS, 7, 0x9D73, 0x37DD);
    NextCrc(DIGITS, 8, 0x37DD, 0x4B37);
    assert DIGITS[..9] == DIGITS;
  }

  /** The low octet goes first. */
  lemma LowOctetFirst()
    ensures WithCrc(DIGITS) == DIGITS + [0x37, 0x4B]
  {
    hide Crc;
    CheckValue();
  }

  // ---------------------------------------------------------------- what is detected

  lemma BitStepInjective(c: bv16, d: bv16, bit: bool)
    requires BitStep(c, bit) == BitStep(d, bit)
    ensures c == d
  {
  }

  /** Different states stay different over the same bits. */
  lemma {:induction false} SameSuffix(c: bv16, d: bv16, s: seq<bool>)
    requires c != d
    ensures CrcBits(c, s) != CrcBits(d, s)
    decreases |s|
  {
    if s != [] {
      if BitStep(c, s[0]) == BitStep(d, s[0]) {
        BitStepInjective(c, d, s[0]);
      }
      SameSuffix(BitStep(c, s[0]), BitStep(d, s[0]), s[1..]);
    }
  }

  predicate Odd(c: bv16) {
    c & 1 == 1
  }

  function Half(c: bv16): bv16 {
    c >> 1
  }

  /** The top bit, moved down `j` times. */
  function Top(j: nat): bv16
    requires j <= 15
  {
    if j == 0 then 0x8000 else Half(Top(j - 1))
  }

  lemma TopValues(j: nat)
    requires j <= 15
    ensures j < 15 ==> !Odd(Top(j)) && Top(j + 1) == Half(Top(j))
    ensures Top(j) != 0
  {
    assert Top(0) == 0x8000 && Top(1) == 0x4000 && Top(2) == 0x2000 && Top(3) == 0x1000;
    assert Top(4) == 0x800 && Top(5) == 0x400 && Top(6) == 0x200 && Top(7) == 0x100;
    assert Top(8) == 0x80 && Top(9) == 0x40 && Top(10) == 0x20 && Top(11) == 0x10;
    assert Top(12) == 8 && Top(13) == 4 && Top(14) == 2 && Top(15) == 1;
  }

  predicate Reaches(d: bv16, t: bv16) {
    d >= t
  }

  lemma Twice(p: bv16, k: bv16)
    ensures Xor(Xor(p, k), k) == p
  {
  }

  lemma CancelLeft(p: bv16, q: bv16, k: bv16)
    ensures Xor(Xor(p, k), q) == Xor(Xor(p, q), k)
  {
  }

  lemma CancelRight(p: bv16, q: bv16, k: bv16)
    ensures Xor(p, Xor(q, k)) == Xor(Xor(p, q), k)
  {
  }

  lemma Cancel(p: bv16, q: bv16, k: bv16)
    ensures Xor(Xor(p, k), Xor(q, k)) == Xor(p, q)
    ensures Xor(Xor(p, k), q) == Xor(Xor(p, q), k) == Xor(p, Xor(q, k))
  {
    hide Xor;
    CancelLeft(p, q, k);
    CancelRight(p, q, k);
    CancelRight(Xor(p, k), q, k);
    Twice(Xor(p, q), k);
  }

  lemma StepParts(c: bv16)
    ensures Step(c) == if Odd(c) then Xor(Half(c), 0xA001) else Half(c)
  {
  }

  lemma XorParts(c: bv16, d: bv16)
    ensures Half(Xor(c, d)) == Xor(Half(c), Half(d)) && (Odd(Xor(c, d)) <==> Odd(c) != Odd(d))
  {
    LowBit(c, d);
    LowBit(d, c);
  }

  lemma StepXor(c: bv16, d: bv16)
    ensures Xor(Step(c), Step(d)) == Step(Xor(c, d))
  {
    hide Xor, Step, Odd, Half;
    StepParts(c);
    StepParts(d);
    StepParts(Xor(c, d));
    XorParts(c, d);
    Cancel(Half(c), Half(d), 0xA001);
  }

  lemma StepReaches(u: bv16, t: bv16)
    requires !Odd(t) && Reaches(u, t)
    ensures Reaches(Xor(u, 1), t) && Reaches(Step(u), Half(t))
  {
  }

  lemma BitStepXor(c: bv16, bit: bool)
    ensures BitStep(c, bit) == Step(if bit then Xor(c, 1) else c)
  {
  }

  /** However two bits differ, the difference between the states keeps a bit that is at
      most one place lower. */
  lemma DifferenceSurvives(c: bv16, d: bv16, a: bool, b: bool, t: bv16)
    requires !Odd(t) && Reaches(Xor(c, d), t)
    ensures Reaches(Xor(BitStep(c, a), BitStep(d, b)), Half(t))
  {
    hide Step, Reaches, Xor, BitStep, Odd, Half;
    BitStepXor(c, a);
    BitStepXor(d, b);
    Cancel(c, d, 1);
    StepXor(if a then Xor(c, 1) else c, if b then Xor(d, 1) else d);
    var u := Xor(c, d);
    StepReaches(u, t);
    StepReaches(Xor(u, 1), t);
  }

  lemma XorSame(c: bv16, t: bv16)
    requires t != 0
    ensures !Reaches(Xor(c, c), t)
  {
  }

  lemma {:induction false} DifferenceLasts(c: bv16, d: bv16, a: seq<bool>, b: seq<bool>, j: nat)
    requires |a| == |b| && j + |a| <= 15 && Reaches(Xor(c, d), Top(j))
    ensures CrcBits(c, a) != CrcBits(d, b)
    decreases |a|
  {
    hide BitStep, Xor, Top, Reaches, Odd, Half;
    TopValues(j);
    if a == [] {
      XorSame(c, Top(j));
    } else {
      DifferenceSurvives(c, d, a[0], b[0], Top(j));
      DifferenceLasts(BitStep(c, a[0]), BitStep(d, b[0]), a[1..], b[1..], j + 1);
    }
  }

  lemma FirstDifference(c: bv16)
    ensures Reaches(Xor(BitStep(c, true), BitStep(c, false)), Top(0))
    ensures Reaches(Xor(BitStep(c, false), BitStep(c, true)), Top(0))
  {
  }

  /** Two windows of at most sixteen bits lead to different states. */
  lemma {:induction false} DifferentWindows(c: bv16, a: seq<bool>, b: seq<bool>)
    requires |a| == |b| <= 16 && a != b
    ensures CrcBits(c, a) != CrcBits(c, b)
    decreases |a|
  {
    hide BitStep, Xor, Reaches, Top;
    if a[0] == b[0] {
      assert a[1..] != b[1..] by {
        assert a == [a[0]] + a[1..] && b == [b[0]] + b[1..];
      }
      DifferentWindows(BitStep(c, a[0]), a[1..], b[1..]);
    } else {
      FirstDifference(c);
      DifferenceLasts(BitStep(c, a[0]), BitStep(c, b[0]), a[1..], b[1..], 0);
    }
  }

  /**
   Two frames that differ only within sixteen consecutive bits never both pass: any such
   burst of errors is detected.
   */
  lemma BurstDetected(f: seq<bv8>, g: seq<bv8>, p: seq<bool>, v: seq<bool>, w: seq<bool>, s: seq<bool>)
    requires AllBits(f) == p + v + s && AllBits(g) == p + w + s
    requires |v| == |w| <= 16 && v != w
    ensures Crc(f) != Crc(g)
    ensures !(Passes(f) && Passes(g))
  {
    var c := CrcBits(0xFFFF, p);
    CrcBitsConcat(0xFFFF, p + v, s);
    CrcBitsConcat(0xFFFF, p, v);
    CrcBitsConcat(0xFFFF, p + w, s);
    CrcBitsConcat(0xFFFF, p, w);
    DifferentWindows(c, v, w);
    SameSuffix(CrcBits(c, v), CrcBits(c, w), s);
  }

  lemma {:induction false} AllBitsConcat(a: seq<bv8>, b: seq<bv8>)
    ensures AllBits(a + b) == AllBits(a) + AllBits(b)
  {
    if a == [] {
      assert a + b == b;
    } else {
      assert (a + b)[1..] == a[1..] + b;
      AllBitsConcat(a[1..], b);
    }
  }

  lemma {:induction false} SameBits(x: bv16, y: bv16, n: nat)
    requires Narrow(x, n) && Narrow(y, n) && WordBits(x, n) == WordBits(y, n)
    ensures x == y
    decreases n
  {
    hide WordBits, Narrow, Half, Odd;
    FirstBit(x, n);
    FirstBit(y, n);
    if n > 0 {
      SameBits(Half(x), Half(y), n - 1);
      LowBitAndRest(x, y);
    }
  }

  lemma FirstBit(x: bv16, n: nat)
    requires Narrow(x, n)
    ensures n == 0 ==> x == 0
    ensures n > 0 ==> WordBits(x, n)[0] == Odd(x) && WordBits(x, n)[1..] == WordBits(Half(x), n - 1)
    ensures n > 0 ==> Narrow(Half(x), n - 1)
  {
  }

  lemma LowBitAndRest(x: bv16, y: bv16)
    requires Odd(x) == Odd(y) && Half(x) == Half(y)
    ensures x == y
  {
  }

  lemma DifferentBytes(a: bv8, b: bv8)
    requires BitsOf(a) == BitsOf(b)
    ensures a == b
  {
    ByteBelow(a);
    ByteBelow(b);
    ByteIsNarrow(a as bv16);
    ByteIsNarrow(b as bv16);
    SameBits(a as bv16, b as bv16, 8);
    SameByte(a, b);
  }

  /** In particular, two frames that differ only in two adjacent bytes never both pass. */
  lemma AdjacentBytesDetected(p: seq<bv8>, a: bv8, b: bv8, a': bv8, b': bv8, s: seq<bv8>)
    requires (a, b) != (a', b')
    ensures !(Passes(p + [a, b] + s) && Passes(p + [a', b'] + s))
  {
    hide BitsOf, Crc;
    TwoBytes(p, a, b, s);
    TwoBytes(p, a', b', s);
    var v, w := BitsOf(a) + BitsOf(b), BitsOf(a') + BitsOf(b');
    if v == w {
      assert v[..8] == BitsOf(a) && w[..8] == BitsOf(a') && v[8..] == BitsOf(b) && w[8..] == BitsOf(b');
      DifferentBytes(a, a');
      DifferentBytes(b, b');
    }
    BurstDetected(p + [a, b] + s, p + [a', b'] + s, AllBits(p), v, w, AllBits(s));
  }

  lemma TwoBytes(p: seq<bv8>, a: bv8, b: bv8, s: seq<bv8>)
    ensures AllBits(p + [a, b] + s) == AllBits(p) + (BitsOf(a) + BitsOf(b)) + AllBits(s)
  {
    hide BitsOf;
    AllBitsConcat(p + [a, b], s);
    AllBitsConcat(p, [a, b]);
    assert [a, b][1..] == [b] && [b][1..] == [];
    assert AllBits([]) == [];
    assert AllBits([b]) == BitsOf(b) + AllBits([]);
    assert AllBits([a, b]) == BitsOf(a) + (BitsOf(b) + []);
  }

  // ---------------------------------------------------------------- the driver

  /** The driver's globals; `line` is what went out over the UART, and `received` are the
      frames handed to the callback. */
  class Driver {
    var crcH: bv8
    var crcL: bv8
    var idx: nat
    var line: seq<bv8>
    var received: seq<seq<bv8>>

    constructor ()
      ensures Sum() == 0xFFFF && line == [] && received == []
    {
      crcH, crcL, idx, line, received := 0xFF, 0xFF, 0, [], [];
    }

    function Sum(): bv16
      reads this
    {
      Joined(crcH, crcL)
    }

    /** `modbus_crc16_init`. */
    method Init()
      modifies this`crcH, this`crcL, this`idx
      ensures Sum() == Crc([])
    {
      crcH, crcL, idx := 0xFF, 0xFF, 0;
    }

    /** `modbus_crc16_once`: one more byte of a message. */
    method Once(byte: bv8, ghost m: seq<bv8>) returns (crc: bv16)
      requires Sum() == Crc(m)
      modifies this`crcH, this`crcL, this`idx
      ensures crc == Sum() == Crc(m + [byte])
    {
      hide ByteStep, Joined, CrcHi, CrcLo, Crc, Index, Mixed;
      var h, l := crcH, crcL;
      TableStep(h, l, byte);
      CrcSnoc(m, byte);
      idx := Index(l, byte);
      crcL := Mixed(h, CrcHi(idx));
      crcH := CrcLo(idx);
      crc := Joined(crcH, crcL);
    }

    /** `modbus_crc16`. */
    method Crc16(buf: seq<bv8>) returns (crc: bv16)
      modifies this`crcH, this`crcL, this`idx
      ensures crc == Sum() == Crc(buf)
    {
      hide Joined, Crc;
      Init();
      var len: nat, at: nat := |buf|, 0;
      assert buf[..0] == [];
      while len != 0
        invariant at + len == |buf| && Sum() == Crc(buf[..at])
      {
        len := len - 1;
        assert buf[..at + 1] == buf[..at] + [buf[at]];
        crc := Once(buf[at], buf[..at]);
        at := at + 1;
      }
      assert buf[..at] == buf;
      crc := Joined(crcH, crcL);
    }

    /** `modbus_send`: a frame goes out whole if its CRC is right, and else not at all. */
    method Send(buf: seq<bv8>)
      modifies this`crcH, this`crcL, this`idx, this`line
      ensures line == old(line) + if Passes(buf) then buf else []
    {
      var crc := Crc16(buf);
      if crc == 0 {
        for i := 0 to |buf|
          invariant line == old(line) + buf[..i]
        {
          line := line + [buf[i]];
          assert buf[..i + 1] == buf[..i] + [buf[i]];
        }
        assert buf[..|buf|] == buf;
      }
    }

    /** `modbus_receive`, with a callback registered. */
    method Receive(buf: seq<bv8>)
      modifies this`crcH, this`crcL, this`idx, this`received
      ensures received == if Passes(buf) then old(received) + [buf] else old(received)
    {
      var crc := Crc16(buf);
      if crc == 0 {
        received := received + [buf];
      }
    }
  }
}
