/**
 The portable bit tricks of the file system library, on 32-bit words, against
 what they count: ones, the rounded-up logarithm, trailing zeros.
 */
module LfsBits {
  type Word = bv32

  // ----- population count -----

  function Bit(a: Word, i: Word): (b: Word)
    requires i < 32
  {
    (a >> i) & 1
  }

  function EightBits(a: Word, i: Word): Word
    requires i <= 24
  {
    Bit(a, i) + Bit(a, i + 1) + Bit(a, i + 2) + Bit(a, i + 3)
    + Bit(a, i + 4) + Bit(a, i + 5) + Bit(a, i + 6) + Bit(a, i + 7)
  }

  /** A count for each byte of a word, the highest first. */
  datatype Counts = Counts(top: Word, high: Word, low: Word, bottom: Word)

  function Sum(n: Counts): Word {
    (n.top + n.high) + (n.low + n.bottom)
  }

  /** How many ones each byte has; their sum is the number of ones of the word. */
  function OnesOf(a: Word): Counts {
    Counts(EightBits(a, 24), EightBits(a, 16), EightBits(a, 8), EightBits(a, 0))
  }

  /** The counts by byte, as the steps on twos, fours and eights leave them. */
  function ByBytes(word: Word): Word {
    var a := word - ((word >> 1) & 0x5555_5555);
    var b := (a & 0x3333_3333) + ((a >> 2) & 0x3333_3333);
    (b + (b >> 4)) & 0xf0f_0f0f
  }

  function Octet(c: Word, i: Word): Word
    requires i <= 24
  {
    (c >> i) & 0xff
  }

  /** The numbers a word holds in its bytes. */
  function Octets(c: Word): Counts {
    Counts(Octet(c, 24), Octet(c, 16), Octet(c, 8), Octet(c, 0))
  }

  lemma {:induction false} BytesAt0(a: Word)
    ensures Octet(ByBytes(a), 0) == EightBits(a, 0)
  {
  }

  lemma {:induction false} BytesAt8(a: Word)
    ensures Octet(ByBytes(a), 8) == EightBits(a, 8)
  {
  }

  lemma {:induction false} BytesAt16(a: Word)
    ensures Octet(ByBytes(a), 16) == EightBits(a, 16)
  {
  }

  lemma {:induction false} BytesAt24(a: Word)
    ensures Octet(ByBytes(a), 24) == EightBits(a, 24)
  {
  }

  lemma {:induction false} BytesAreSmall(a: Word)
    ensures ByBytes(a) & 0xf0f0_f0f0 == 0
  {
  }

  /** The multiplication adds neighbouring bytes, then neighbouring pairs. */
  lemma {:induction false} MultiplicationDoubles(c: Word)
    ensures c * 0x101_0101 == (c + c * 0x100) + (c + c * 0x100) * 0x1_0000
  {
  }

  lemma {:induction false} PairsAdd(c: Word)
    requires c & 0xf0f0_f0f0 == 0
    ensures Octet(c + c * 0x100, 24) == Octet(c, 24) + Octet(c, 16)
    ensures Octet(c + c * 0x100, 8) == Octet(c, 8) + Octet(c, 0)
    ensures (c + c * 0x100) & 0xe0e0_e0e0 == 0
  {
  }

  lemma {:induction false} FoursAdd(d: Word)
    requires d & 0xe0e0_e0e0 == 0
    ensures (d + d * 0x1_0000) >> 24 == Octet(d, 24) + Octet(d, 8)
  {
  }

  lemma {:induction false} BytesTogether(c: Word)
    requires c & 0xf0f0_f0f0 == 0
    ensures (c * 0x101_0101) >> 24 == Octet(c + c * 0x100, 24) + Octet(c + c * 0x100, 8)
  {
    MultiplicationDoubles(c);
    FoursAdd(c + c * 0x100);
  }

  /** Counts the ones of each byte, in that byte. */
  method CountByBytes(word: Word) returns (c: Word)
    ensures c == ByBytes(word)
  {
    var a := word;
    a := a - ((a >> 1) & 0x5555_5555);
    a := (a & 0x3333_3333) + ((a >> 2) & 0x3333_3333);
    c := (a + (a >> 4)) & 0xf0f_0f0f;
  }

  method CountBytes(word: Word) returns (c: Word)
    ensures Octets(c) == OnesOf(word) && c & 0xf0f0_f0f0 == 0
  {
    c := CountByBytes(word);
    BytesAt0(word);
    BytesAt8(word);
    BytesAt16(word);
    BytesAt24(word);
    BytesAreSmall(word);
  }

  /** Four small bytes multiplied by 0x1010101 add up in the top byte. */
  lemma {:induction false} BytesSum(c: Word)
    requires c & 0xf0f0_f0f0 == 0
    ensures (c * 0x101_0101) >> 24 == (Octet(c, 24) + Octet(c, 16)) + (Octet(c, 8) + Octet(c, 0))
  {
    PairsAdd(c);
    BytesTogether(c);
  }

  /** Adds up four bytes of small counts. */
  method AddBytes(c: Word) returns (r: Word)
    requires c & 0xf0f0_f0f0 == 0
    ensures r == Sum(Octets(c))
  {
    BytesSum(c);
    r := (c * 0x101_0101) >> 24;
  }

  /** For every word, the portable `lfs_popc` is the number of ones, bit by bit. */
  method Popc(word: Word) returns (r: Word)
    ensures r == Sum(OnesOf(word))
  {
    var c := CountBytes(word);
    r := AddBytes(c);
  }

  // ----- rounded-up logarithm -----

  function Power(r: Word): bv64
    requires r <= 32
  {
    (1 as bv64) << r
  }

  function Wide(a: Word): bv64 {
    a as bv64
  }

  /** 2^(r - 1) < a <= 2^r: the logarithm of `a` to base 2, rounded up, is `r`. */
  predicate IsLog(a: Word, r: Word) {
    if r == 0 then a <= 1 else r <= 32 && Wide(a) <= Power(r) && Power(r - 1) < Wide(a)
  }

  /** `a` is what is left of `w` after shifting out `r` bits, with a one left in it if there was any. */
  predicate Left(w: Word, a: Word, r: Word) {
    r < 32 && a == w >> r && (w != 0 ==> a != 0)
  }

  /** Shifting down by `s` more bits, which keeps a one if there was any. */
  lemma {:induction false} ShiftOn(w: Word, a: Word, r: Word, s: Word)
    requires Left(w, a, r) && s <= 16 && r & s == 0 && r | s < 32 && (s != 0 ==> a >> s != 0)
    requires s & (s - 1) == 0
    ensures Left(w, a >> s, r | s)
  {
  }

  /** The portable `lfs_npw2` up to its last line: by halving, what is left of `w` above its top bit's place. */
  method Halve(w: Word) returns (a: Word, r: Word)
    ensures Left(w, a, r) && a <= 3 && r & 1 == 0 && (w == 0 ==> r == 0)
  {
    a, r := w, 0;
    var s: Word := (if a > 0xffff then 1 else 0) << 4;
    ShiftOn(w, a, r, s);
    a := a >> s;
    r := r | s;
    assert Left(w, a, r) && a <= 0xffff && r & 15 == 0 && (w == 0 ==> r == 0);
    s := (if a > 0xff then 1 else 0) << 3;
    ShiftOn(w, a, r, s);
    a := a >> s;
    r := r | s;
    assert Left(w, a, r) && a <= 0xff && r & 7 == 0 && (w == 0 ==> r == 0);
    s := (if a > 0xf then 1 else 0) << 2;
    ShiftOn(w, a, r, s);
    a := a >> s;
    r := r | s;
    assert Left(w, a, r) && a <= 0xf && r & 3 == 0 && (w == 0 ==> r == 0);
    s := (if a > 0x3 then 1 else 0) << 1;
    ShiftOn(w, a, r, s);
    a := a >> s;
    r := r | s;
  }

  predicate TopAt(w: Word, t: Word) {
    t < 32 && w >> t == 1
  }

  /** What is left, two bits, tells the place of the top bit. */
  lemma {:induction false} TopBit(w: Word, a: Word, r: Word)
    requires Left(w, a, r) && a <= 3 && r & 1 == 0
    ensures w != 0 ==> TopAt(w, r | (a >> 1))
    ensures r | (a >> 1) < 32
    ensures w == 0 ==> r | (a >> 1) == r
    ensures w == 0xffff_ffff ==> r | (a >> 1) == 31
  {
  }

  lemma {:induction false} LogOfNext(w: Word, res: Word)
    requires 1 <= res <= 32 && TopAt(w, res - 1) && w != 0xffff_ffff
    ensures IsLog(w + 1, res)
  {
  }

  lemma {:induction false} SmallWordsHaveNoSuchLog(word: Word, res: Word)
    requires word < 2 && 1 <= res <= 32
    ensures !IsLog(word, res)
  {
  }

  /** The last line's result for the word one above `w`. */
  predicate Rounded(word: Word, res: Word) {
    && 1 <= res <= 32 && IsLog(word, res) == (word >= 2)
    && (word == 1 ==> res == 1) && (word == 0 ==> res == 32)
  }

  lemma {:induction false} BigIsRounded(word: Word, a: Word, r: Word)
    requires word >= 2 && Left(word - 1, a, r) && a <= 3 && r & 1 == 0
    ensures Rounded(word, (r | (a >> 1)) + 1)
  {
    var w := word - 1;
    TopBit(w, a, r);
    LogOfNext(w, (r | (a >> 1)) + 1);
  }

  lemma {:induction false} SmallIsRounded(word: Word, a: Word, r: Word)
    requires word < 2 && Left(word - 1, a, r) && a <= 3 && r & 1 == 0 && (word - 1 == 0 ==> r == 0)
    ensures Rounded(word, (r | (a >> 1)) + 1)
  {
    var w := word - 1;
    TopBit(w, a, r);
    SmallWordsHaveNoSuchLog(word, (r | (a >> 1)) + 1);
  }

  /**
   For every word of at least 2, the portable `lfs_npw2` is its logarithm
   rounded up.  It answers 1 for 1 and 32 for 0, whose logarithms round up to 0.
   */
  method Npw2(word: Word) returns (res: Word)
    ensures Rounded(word, res)
  {
    var a, r := Halve(word - 1);
    if word >= 2 {
      BigIsRounded(word, a, r);
    } else {
      SmallIsRounded(word, a, r);
    }
    res := (r | (a >> 1)) + 1;
  }

  // ----- trailing zeros -----

  /** The lowest one of `a` is at place `k`. */
  predicate LowestAt(a: Word, k: Word) {
    k < 32 && (a >> k) & 1 == 1 && a & ((1 << k) - 1) == 0
  }

  /** Keeping only the lowest one and adding one makes a word whose logarithm is one more than its place. */
  lemma {:induction false} LowestOne(a: Word, res: Word)
    requires a != 0 && 1 <= res <= 32 && IsLog((a & (0 - a)) + 1, res)
    ensures LowestAt(a, res - 1)
  {
  }

  lemma {:induction false} LowestOneIsBig(a: Word)
    requires a != 0
    ensures (a & (0 - a)) + 1 >= 2
  {
  }

  /** For every word but 0, `lfs_ctz` over the portable `lfs_npw2` is the place of the lowest one; for 0 it is 0. */
  method Ctz(a: Word) returns (k: Word)
    ensures a != 0 ==> LowestAt(a, k)
    ensures a == 0 ==> k == 0
  {
    var log := Npw2((a & (0 - a)) + 1);
    if a != 0 {
      LowestOneIsBig(a);
      LowestOne(a, log);
    }
    k := log - 1;
  }
}
