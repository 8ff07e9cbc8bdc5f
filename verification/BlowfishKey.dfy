/** The words bcrypt feeds to its cipher: byte order of words, and the key schedule with its safety measure. */
module BlowfishKey {
  import opened Arithmetic

  type Byte = bv8
  type Word = bv32

  const WORDS := 18

  // ---------- Words and bytes ----------

  function BigEndian(b0: Byte, b1: Byte, b2: Byte, b3: Byte): Word
  {
    ((b0 as Word) << 24) | ((b1 as Word) << 16) | ((b2 as Word) << 8) | (b3 as Word)
  }

  /** The word that four bytes in memory make on the host. */
  function HostWord(b0: Byte, b1: Byte, b2: Byte, b3: Byte, little: bool): Word
  {
    if little then BigEndian(b3, b2, b1, b0) else BigEndian(b0, b1, b2, b3)
  }

  /** The byte of a word that is k-th most significant. */
  function ByteOf(w: Word, k: nat): Byte
    requires k < 4
  {
    if k == 0 then ((w >> 24) & 0xFF) as Byte
    else if k == 1 then ((w >> 16) & 0xFF) as Byte
    else if k == 2 then ((w >> 8) & 0xFF) as Byte
    else (w & 0xFF) as Byte
  }

  /** The byte that the host keeps at offset k of a word. */
  function HostByte(w: Word, k: nat, little: bool): Byte
    requires k < 4
  {
    ByteOf(w, if little then 3 - k else k)
  }

  /** Bytes and words determine each other, and the first byte is the most significant. */
  lemma BytesOfWord(w: Word, b0: Byte, b1: Byte, b2: Byte, b3: Byte)
    ensures BigEndian(ByteOf(w, 0), ByteOf(w, 1), ByteOf(w, 2), ByteOf(w, 3)) == w
    ensures ByteOf(BigEndian(b0, b1, b2, b3), 0) == b0 && ByteOf(BigEndian(b0, b1, b2, b3), 1) == b1
    ensures ByteOf(BigEndian(b0, b1, b2, b3), 2) == b2 && ByteOf(BigEndian(b0, b1, b2, b3), 3) == b3
    ensures BigEndian(0x12, 0x34, 0x56, 0x78) == 0x12345678
  {}

  /** The exchange of BF_swap: halves first, then the bytes of each half. */
  function SwapWord(w: Word): Word
  {
    var t := (w << 16) | (w >> 16);
    ((t & 0x00FF00FF) << 8) | ((t >> 8) & 0x00FF00FF)
  }

  function HostSwap(w: Word, little: bool): Word { if little then SwapWord(w) else w }

  /** After BF_swap a word read from memory has its bytes in big-endian order on either kind of host. */
  lemma SwapReadsBigEndian(b0: Byte, b1: Byte, b2: Byte, b3: Byte, little: bool)
    ensures HostSwap(HostWord(b0, b1, b2, b3, little), little) == BigEndian(b0, b1, b2, b3)
  {
    if little {
      SwapReverses(b0, b1, b2, b3);
    }
  }

  lemma SwapReverses(b0: Byte, b1: Byte, b2: Byte, b3: Byte)
    ensures SwapWord(BigEndian(b3, b2, b1, b0)) == BigEndian(b0, b1, b2, b3)
  {
    hide BigEndian, SwapWord, ByteOf;
    var w := BigEndian(b3, b2, b1, b0);
    BytesOfWord(w, b3, b2, b1, b0);
    BytesOfWord(SwapWord(w), b0, b1, b2, b3);
    SwapWritesBigEndian(w, 0, true);
    SwapWritesBigEndian(w, 1, true);
    SwapWritesBigEndian(w, 2, true);
    SwapWritesBigEndian(w, 3, true);
  }

  /** And a swapped word is kept in memory with its bytes in big-endian order. */
  lemma SwapWritesBigEndian(w: Word, k: nat, little: bool)
    requires k < 4
    ensures HostByte(HostSwap(w, little), k, little) == ByteOf(w, k)
  {}

  /** BF_swap, in place. */
  method BFSwap(x: array<Word>, count: nat, little: bool)
    requires 1 <= count <= x.Length
    modifies x
    ensures forall k :: 0 <= k < count ==> x[k] == HostSwap(old(x[k]), little)
    ensures forall k :: count <= k < x.Length ==> x[k] == old(x[k])
  {
    hide SwapWord;
    if little {
      var i := 0;
      while true
        invariant 0 <= i < count
        invariant forall k :: 0 <= k < i ==> x[k] == SwapWord(old(x[k]))
        invariant forall k :: i <= k < x.Length ==> x[k] == old(x[k])
        decreases count - i
      {
        x[i] := SwapWord(x[i]);
        i := i + 1;
        if i == count { break; }
      }
    }
  }

  // ---------- The key stream ----------

  /** The t-th byte of the key, its terminator included, repeated without end. */
  function KeyByte(key: seq<Byte>, t: nat): Byte
  {
    var k := Position(t, |key| + 1);
    if k < |key| then key[k] else 0
  }

  function Position(t: nat, n: nat): (k: nat)
    requires n > 0
    ensures k < n
  {
    t % n
  }

  function SignExtended(b: Byte): Word
  {
    if b >= 0x80 then 0xFFFFFF00 | (b as Word) else b as Word
  }

  /** A byte shifted in at the low end. */
  function Push(w: Word, b: Byte): Word { (w << 8) | (b as Word) }

  /** The same with the sign extension of the old revisions. */
  function PushSigned(w: Word, b: Byte): Word { (w << 8) | SignExtended(b) }

  /** The first j of the four bytes from position t on, shifted in one after the other. */
  function Shifted(key: seq<Byte>, t: nat, j: nat): Word
  {
    if j == 0 then 0 else Push(Shifted(key, t, j - 1), KeyByte(key, t + j - 1))
  }

  function ShiftedSigned(key: seq<Byte>, t: nat, j: nat): Word
  {
    if j == 0 then 0 else PushSigned(ShiftedSigned(key, t, j - 1), KeyByte(key, t + j - 1))
  }

  function KeyWord(key: seq<Byte>, i: nat): Word
  {
    BigEndian(KeyByte(key, 4 * i), KeyByte(key, 4 * i + 1), KeyByte(key, 4 * i + 2), KeyByte(key, 4 * i + 3))
  }

  function BuggyWord(key: seq<Byte>, i: nat): Word { ShiftedSigned(key, 4 * i, 4) }

  /** A word of the key is four bytes in turn of the key with its terminator, repeated. */
  lemma KeyRepeats(key: seq<Byte>, i: nat, j: nat)
    requires j < 4
    ensures ByteOf(KeyWord(key, i), j) == (key + [0])[(4 * i + j) % (|key| + 1)]
  {
    hide BigEndian, ByteOf;
    BytesOfWord(0, KeyByte(key, 4 * i), KeyByte(key, 4 * i + 1), KeyByte(key, 4 * i + 2), KeyByte(key, 4 * i + 3));
  }

  /** The old form takes the same bytes as signed ones. */
  lemma BuggyRepeats(key: seq<Byte>, i: nat)
    ensures var k := KeyWord(key, i);
            BuggyWord(key, i) ==
            PushSigned(PushSigned(PushSigned(PushSigned(0, ByteOf(k, 0)), ByteOf(k, 1)), ByteOf(k, 2)), ByteOf(k, 3))
  {
    hide BigEndian, ByteOf, PushSigned, KeyByte;
    BytesOfWord(0, KeyByte(key, 4 * i), KeyByte(key, 4 * i + 1), KeyByte(key, 4 * i + 2), KeyByte(key, 4 * i + 3));
    assert ShiftedSigned(key, 4 * i, 1) == PushSigned(0, KeyByte(key, 4 * i));
    assert ShiftedSigned(key, 4 * i, 2) == PushSigned(ShiftedSigned(key, 4 * i, 1), KeyByte(key, 4 * i + 1));
    assert ShiftedSigned(key, 4 * i, 3) == PushSigned(ShiftedSigned(key, 4 * i, 2), KeyByte(key, 4 * i + 2));
  }

  lemma ShiftedIsWord(key: seq<Byte>, i: nat)
    ensures Shifted(key, 4 * i, 4) == KeyWord(key, i)
  {
    hide KeyByte, Push, BigEndian;
    PushFour(KeyByte(key, 4 * i), KeyByte(key, 4 * i + 1), KeyByte(key, 4 * i + 2), KeyByte(key, 4 * i + 3));
    assert Shifted(key, 4 * i, 1) == Push(0, KeyByte(key, 4 * i));
    assert Shifted(key, 4 * i, 2) == Push(Shifted(key, 4 * i, 1), KeyByte(key, 4 * i + 1));
    assert Shifted(key, 4 * i, 3) == Push(Shifted(key, 4 * i, 2), KeyByte(key, 4 * i + 2));
  }

  lemma PushFour(b0: Byte, b1: Byte, b2: Byte, b3: Byte)
    ensures Push(Push(Push(Push(0, b0), b1), b2), b3) == BigEndian(b0, b1, b2, b3)
  {}

  /** The old form is the correct one for bytes without their top bit, and overwrites what came before others. */
  lemma SignedPush(w: Word, b: Byte)
    ensures b < 0x80 ==> PushSigned(w, b) == Push(w, b)
    ensures b >= 0x80 ==> PushSigned(w, b) == 0xFFFFFF00 | (b as Word)
  {}

  // ---------- The safety measure ----------

  /** A sign extension that overwrote something: a byte with its top bit set, not first in its word. */
  ghost predicate Overwrites(key: seq<Byte>, t: nat)
  {
    t % 4 != 0 && KeyByte(key, t) >= 0x80
  }

  ghost predicate OverwritesBefore(key: seq<Byte>, end: nat)
  {
    exists t :: 0 <= t < end && Overwrites(key, t)
  }

  ghost predicate AgreeBefore(key: seq<Byte>, end: nat)
  {
    forall i :: 0 <= i < end ==> KeyWord(key, i) == BuggyWord(key, i)
  }

  /** The old and the correct key schedule agree although the old one overwrote something. */
  ghost predicate Ambiguous(key: seq<Byte>)
  {
    AgreeBefore(key, WORDS) && OverwritesBefore(key, 4 * WORDS)
  }

  /** The four bytes of a word on which both schedules agree although one overwrote something include 0xFF. */
  lemma AgreeingOverwrite(b0: Byte, b1: Byte, b2: Byte, b3: Byte)
    requires BigEndian(b0, b1, b2, b3) == PushSigned(PushSigned(PushSigned(PushSigned(0, b0), b1), b2), b3)
    requires b1 >= 0x80 || b2 >= 0x80 || b3 >= 0x80
    ensures b0 == 0xFF
  {}

  /** Only passwords with a byte 0xFF are ambiguous. */
  lemma AmbiguousHasFF(key: seq<Byte>)
    requires Ambiguous(key)
    ensures 0xFF in key
  {
    hide KeyByte, PushSigned, BigEndian;
    var t :| 0 <= t < 4 * WORDS && Overwrites(key, t);
    var i := t / 4;
    assert KeyWord(key, i) == BuggyWord(key, i);
    var (b0, b1, b2, b3) :=
        (KeyByte(key, 4 * i), KeyByte(key, 4 * i + 1), KeyByte(key, 4 * i + 2), KeyByte(key, 4 * i + 3));
    assert ShiftedSigned(key, 4 * i, 1) == PushSigned(0, b0);
    assert ShiftedSigned(key, 4 * i, 2) == PushSigned(ShiftedSigned(key, 4 * i, 1), b1);
    assert ShiftedSigned(key, 4 * i, 3) == PushSigned(ShiftedSigned(key, 4 * i, 2), b2);
    AgreeingOverwrite(b0, b1, b2, b3);
    KeyByteIn(key, 4 * i);
  }

  lemma KeyByteIn(key: seq<Byte>, t: nat)
    ensures KeyByte(key, t) != 0 ==> KeyByte(key, t) in key
  {}

  /** The bit arithmetic at the end of BF_set_key: bit 16 is set exactly when needed. */
  function Deviation(sign: Word, diff: Word, safety: Word): Word
  {
    var d := (((diff | (diff >> 16)) & 0xFFFF) + 0xFFFF);
    (sign << 9) & (!d & safety)
  }

  lemma DeviationMeaning(sign: Word, diff: Word, flags: Byte)
    requires SignFlag(sign)
    ensures Deviation(sign, diff, SafetyMask(flags)) == if Safe(flags) && diff == 0 && sign != 0 then 0x10000 else 0
  {}

  function DiffStep(diff: Word, x: Word, y: Word): Word { diff | (x ^ y) }

  lemma DiffMeaning(diff: Word, x: Word, y: Word)
    ensures DiffStep(diff, x, y) == 0 <==> diff == 0 && x == y
  {
    XorZero(x, y, x ^ y);
    OrZero(diff, x ^ y);
  }

  lemma XorZero(x: Word, y: Word, z: Word)
    requires z == x ^ y
    ensures z == 0 <==> x == y
  {}

  lemma OrZero(x: Word, y: Word)
    ensures x | y == 0 <==> x == 0 && y == 0
  {}

  /** The overwriting flag so far, in bit 7. */
  function SignStep(sign: Word, w: Word): Word { sign | (w & 0x80) }

  lemma SignMeaning(sign: Word, w: Word, b: Byte)
    requires SignFlag(sign)
    ensures SignFlag(SignStep(sign, PushSigned(w, b)))
    ensures SignStep(sign, PushSigned(w, b)) == 0 <==> sign == 0 && b < 0x80
  {}

  predicate SignFlag(sign: Word) { sign & !0x80 == 0 }

  // ---------- BF_set_key ----------

  /** BF_init_state.P */
  const INIT_P: seq<Word> := [
    0x243f6a88, 0x85a308d3, 0x13198a2e, 0x03707344, 0xa4093822, 0x299f31d0, 0x082efa98, 0xec4e6c89, 0x452821e6,
    0x38d01377, 0xbe5466cf, 0x34e90c6c, 0xc0ac29b7, 0xc97c50dd, 0x3f84d5b5, 0xb5470917, 0x9216d5d9, 0x8979fb1b]

  function InitP(i: nat): Word
    requires i < WORDS
  {
    INIT_P[i]
  }

  function Xor(x: Word, y: Word): Word { x ^ y }

  /** The sign-extension bug is asked for. */
  predicate Bug(flags: Byte) { flags & 1 != 0 }

  /** The safety measure is asked for. */
  predicate Safe(flags: Byte) { flags & 2 != 0 }

  function SafetyMask(flags: Byte): Word { ((flags as Word) & 2) << 15 }

  /** What the cipher gets of the key: its words, cyclically, wrong on request. */
  function Expanded(key: seq<Byte>, flags: Byte, i: nat): Word
  {
    if Bug(flags) then BuggyWord(key, i) else KeyWord(key, i)
  }

  /** Only the first initial word deviates, in bit 16, and only for an ambiguous key under the safety flag. */
  ghost function Initial(key: seq<Byte>, flags: Byte, i: nat): Word
    requires i < WORDS
  {
    Xor(Xor(InitP(i), Expanded(key, flags, i)), if i == 0 && Safe(flags) && Ambiguous(key) then 0x10000 else 0)
  }

  lemma NextPosition(t: nat, n: nat)
    requires n > 0
    ensures Position(t + 1, n) == if Position(t, n) == n - 1 then 0 else Position(t, n) + 1
  {
    var q, r := t / n, t % n;
    assert t + 1 == q * n + (r + 1);
    if r == n - 1 {
      assert t + 1 == (q + 1) * n + 0;
      ModUnique(t + 1, q + 1, 0, n);
    } else {
      ModUnique(t + 1, q, r + 1, n);
    }
  }

  /** Four more bytes of the key, from position `pos` of it. */
  method NextWord(key: seq<Byte>, pos0: nat, sign0: Word, ghost i: nat)
      returns (w: Word, buggy: Word, pos: nat, sign: Word)
    requires pos0 == Position(4 * i, |key| + 1) && SignFlag(sign0) && (sign0 != 0 <==> OverwritesBefore(key, 4 * i))
    requires forall k :: 0 <= k < |key| ==> key[k] != 0
    ensures w == KeyWord(key, i) && buggy == BuggyWord(key, i)
    ensures pos == Position(4 * i + 4, |key| + 1) && SignFlag(sign) && (sign != 0 <==> OverwritesBefore(key, 4 * i + 4))
  {
    hide Push, PushSigned, BigEndian, SignStep, SignFlag, Position, OverwritesBefore;
    w, buggy, pos, sign := 0, 0, pos0, sign0;
    for j := 0 to 4
      invariant pos == Position(4 * i + j, |key| + 1) && w == Shifted(key, 4 * i, j)
                && buggy == ShiftedSigned(key, 4 * i, j)
      invariant SignFlag(sign) && (sign != 0 <==> OverwritesBefore(key, 4 * i + j))
    {
      ghost var t := 4 * i + j;
      NextPosition(t, |key| + 1);
      var b := if pos < |key| then key[pos] else 0;
      assert b == KeyByte(key, t);
      SignMeaning(sign, buggy, b);
      w := Push(w, b);
      buggy := PushSigned(buggy, b);
      if j != 0 {
        sign := SignStep(sign, buggy);
      }
      pos := if b == 0 then 0 else pos + 1;
      OverwritesStep(key, t);
    }
    ShiftedIsWord(key, i);
  }

  lemma OverwritesStep(key: seq<Byte>, t: nat)
    ensures OverwritesBefore(key, t + 1) <==> OverwritesBefore(key, t) || Overwrites(key, t)
  {}

  /** BF_set_key */
  method BFSetKey(key: seq<Byte>, expanded: array<Word>, initial: array<Word>, flags: Byte)
    requires expanded != initial && expanded.Length == initial.Length == WORDS
    requires forall k :: 0 <= k < |key| ==> key[k] != 0
    modifies expanded, initial
    ensures forall i :: 0 <= i < WORDS ==> expanded[i] == Expanded(key, flags, i)
    ensures forall i :: 0 <= i < WORDS ==> initial[i] == Initial(key, flags, i)
  {
    hide Xor, Expanded, Deviation, DiffStep, SignFlag, Position, KeyWord, BuggyWord, OverwritesBefore, Bug, Safe,
        SafetyMask, InitP;
    SetKeyStart(key);
    var sign, diff: Word, pos := 0, 0, 0;
    for i := 0 to WORDS
      invariant pos == Position(4 * i, |key| + 1) && SignFlag(sign) && (sign != 0 <==> OverwritesBefore(key, 4 * i))
      invariant diff == 0 <==> AgreeBefore(key, i)
      invariant forall k :: 0 <= k < i ==>
                expanded[k] == Expanded(key, flags, k) && initial[k] == Xor(InitP(k), expanded[k])
    {
      var w, buggy;
      w, buggy, pos, sign := NextWord(key, pos, sign, i);
      DiffMeaning(diff, w, buggy);
      diff := DiffStep(diff, w, buggy);
      ExpandedCases(key, flags, i);
      expanded[i] := if Bug(flags) then buggy else w;
      initial[i] := Xor(InitP(i), expanded[i]);
    }
    DeviationMeaning(sign, diff, flags);
    initial[0] := Xor(initial[0], Deviation(sign, diff, SafetyMask(flags)));
    forall k | 0 <= k < WORDS ensures initial[k] == Initial(key, flags, k) {
      XorNothing(Xor(InitP(k), Expanded(key, flags, k)));
    }
  }

  lemma SetKeyStart(key: seq<Byte>)
    ensures SignFlag(0) && !OverwritesBefore(key, 0) && Position(0, |key| + 1) == 0
  {}

  lemma XorNothing(x: Word)
    ensures Xor(x, 0) == x
  {}

  lemma ExpandedCases(key: seq<Byte>, flags: Byte, i: nat)
    ensures Expanded(key, flags, i) == if Bug(flags) then BuggyWord(key, i) else KeyWord(key, i)
  {}
}
