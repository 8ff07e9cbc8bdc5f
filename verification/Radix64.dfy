/** The radix-64 text of bcrypt: three bytes to four characters, most significant bits first. */
module Radix64 {
  import opened Options

  type Byte = bv8

  // ---------- The alphabet ----------

  /** BF_itoa64, by its ranges: dot, slash, upper case, lower case, digits. */
  function Itoa64(v: Byte): Byte
    requires v < 64
  {
    if v < 2 then v + 0x2E
    else if v < 28 then v - 2 + 0x41
    else if v < 54 then v - 28 + 0x61
    else v - 54 + 0x30
  }

  /** BF_atoi64 behind the range test of BF_safe_atoi64; 64 stands for an error. */
  function Atoi64(c: Byte): Byte
  {
    if 0x2E <= c <= 0x2F then c - 0x2E
    else if 0x30 <= c <= 0x39 then c - 0x30 + 54
    else if 0x41 <= c <= 0x5A then c - 0x41 + 2
    else if 0x61 <= c <= 0x7A then c - 0x61 + 28
    else 64
  }

  lemma AlphabetRoundTrip(v: Byte, c: Byte)
    ensures v < 64 ==> Atoi64(Itoa64(v)) == v && Itoa64(v) != 0
    ensures Atoi64(c) <= 64
    ensures Atoi64(c) < 64 ==> Itoa64(Atoi64(c)) == c && c != 0
  {}

  /** The text of BF_itoa64, eight characters at a time. */
  lemma Alphabet()
    ensures [Itoa64(0), Itoa64(1), Itoa64(2), Itoa64(3), Itoa64(4), Itoa64(5), Itoa64(6), Itoa64(7)] ==
            [0x2E, 0x2F, 0x41, 0x42, 0x43, 0x44, 0x45, 0x46]
    ensures [Itoa64(8), Itoa64(9), Itoa64(10), Itoa64(11), Itoa64(12), Itoa64(13), Itoa64(14), Itoa64(15)] ==
            [0x47, 0x48, 0x49, 0x4A, 0x4B, 0x4C, 0x4D, 0x4E]
    ensures [Itoa64(16), Itoa64(17), Itoa64(18), Itoa64(19), Itoa64(20), Itoa64(21), Itoa64(22), Itoa64(23)] ==
            [0x4F, 0x50, 0x51, 0x52, 0x53, 0x54, 0x55, 0x56]
    ensures [Itoa64(24), Itoa64(25), Itoa64(26), Itoa64(27), Itoa64(28), Itoa64(29), Itoa64(30), Itoa64(31)] ==
            [0x57, 0x58, 0x59, 0x5A, 0x61, 0x62, 0x63, 0x64]
    ensures [Itoa64(32), Itoa64(33), Itoa64(34), Itoa64(35), Itoa64(36), Itoa64(37), Itoa64(38), Itoa64(39)] ==
            [0x65, 0x66, 0x67, 0x68, 0x69, 0x6A, 0x6B, 0x6C]
    ensures [Itoa64(40), Itoa64(41), Itoa64(42), Itoa64(43), Itoa64(44), Itoa64(45), Itoa64(46), Itoa64(47)] ==
            [0x6D, 0x6E, 0x6F, 0x70, 0x71, 0x72, 0x73, 0x74]
    ensures [Itoa64(48), Itoa64(49), Itoa64(50), Itoa64(51), Itoa64(52), Itoa64(53), Itoa64(54), Itoa64(55)] ==
            [0x75, 0x76, 0x77, 0x78, 0x79, 0x7A, 0x30, 0x31]
    ensures [Itoa64(56), Itoa64(57), Itoa64(58), Itoa64(59), Itoa64(60), Itoa64(61), Itoa64(62), Itoa64(63)] ==
            [0x32, 0x33, 0x34, 0x35, 0x36, 0x37, 0x38, 0x39]
  {}

  // ---------- Six-bit fields of a group of three bytes ----------

  function First(b0: Byte): Byte { b0 >> 2 }
  function Second(b0: Byte, b1: Byte): Byte { ((b0 & 0x03) << 4) | (b1 >> 4) }
  function Third(b1: Byte, b2: Byte): Byte { ((b1 & 0x0F) << 2) | (b2 >> 6) }
  function Fourth(b2: Byte): Byte { b2 & 0x3F }

  function Byte0(c1: Byte, c2: Byte): Byte { (c1 << 2) | ((c2 & 0x30) >> 4) }
  function Byte1(c2: Byte, c3: Byte): Byte { ((c2 & 0x0F) << 4) | ((c3 & 0x3C) >> 2) }
  function Byte2(c3: Byte, c4: Byte): Byte { ((c3 & 0x03) << 6) | c4 }

  lemma FieldRange(b0: Byte, b1: Byte, b2: Byte)
    ensures First(b0) < 64 && Second(b0, b1) < 64 && Third(b1, b2) < 64 && Fourth(b2) < 64
  {}

  lemma FieldsOfBytes(b0: Byte, b1: Byte, b2: Byte)
    ensures Byte0(First(b0), Second(b0, b1)) == b0
    ensures Byte1(Second(b0, b1), Third(b1, b2)) == b1
    ensures Byte2(Third(b1, b2), Fourth(b2)) == b2
  {}

  /** The four fields are the 24 bits of the three bytes in order, most significant first. */
  lemma FieldsInOrder(b0: Byte, b1: Byte, b2: Byte)
    ensures ((First(b0) as bv24) << 18) | ((Second(b0, b1) as bv24) << 12) | ((Third(b1, b2) as bv24) << 6) |
            (Fourth(b2) as bv24) ==
            ((b0 as bv24) << 16) | ((b1 as bv24) << 8) | (b2 as bv24)
  {}

  /** The way back; a group cut short keeps of its last character only the bits that were read. */
  lemma BytesOfFields(c1: Byte, c2: Byte, c3: Byte, c4: Byte)
    requires c1 < 64 && c2 < 64 && c3 < 64 && c4 < 64
    ensures First(Byte0(c1, c2)) == c1
    ensures Second(Byte0(c1, c2), Byte1(c2, c3)) == c2
    ensures Third(Byte1(c2, c3), Byte2(c3, c4)) == c3
    ensures Fourth(Byte2(c3, c4)) == c4
    ensures Second(Byte0(c1, c2), 0) == c2 & 0x30
    ensures Third(Byte1(c2, c3), 0) == c3 & 0x3C
  {}

  // ---------- Encoding ----------

  function EncodedLength(n: nat): nat
  {
    n / 3 * 4 + if n % 3 == 0 then 0 else n % 3 + 1
  }

  function Encoded(b: seq<Byte>): seq<Byte>
  {
    FieldRanges();
    if |b| == 0 then []
    else if |b| == 1 then [Itoa64(First(b[0])), Itoa64(Second(b[0], 0))]
    else if |b| == 2 then [Itoa64(First(b[0])), Itoa64(Second(b[0], b[1])), Itoa64(Third(b[1], 0))]
    else EncodedGroup(b[0], b[1], b[2]) + Encoded(b[3..])
  }

  function EncodedGroup(b0: Byte, b1: Byte, b2: Byte): seq<Byte>
  {
    FieldRange(b0, b1, b2);
    [Itoa64(First(b0)), Itoa64(Second(b0, b1)), Itoa64(Third(b1, b2)), Itoa64(Fourth(b2))]
  }

  lemma FieldRanges()
    ensures forall x :: First(x) < 64
    ensures forall x, y :: Second(x, y) < 64
    ensures forall x, y :: Third(x, y) < 64
  {
    forall x, y ensures First(x) < 64 && Second(x, y) < 64 && Third(x, y) < 64 {
      FieldRange(x, y, y);
      FieldRange(x, x, y);
    }
  }

  lemma {:induction false} EncodedShape(b: seq<Byte>)
    ensures |Encoded(b)| == EncodedLength(|b|)
    ensures forall i :: 0 <= i < |Encoded(b)| ==> Encoded(b)[i] != 0
  {
    hide First, Second, Third, Fourth, Itoa64;
    if |b| > 0 {
      var b1 := if |b| >= 2 then b[1] else 0;
      var b2 := if |b| >= 3 then b[2] else 0;
      FieldRange(b[0], b1, b2);
      AlphabetRoundTrip(First(b[0]), 0);
      AlphabetRoundTrip(Second(b[0], b1), 0);
      AlphabetRoundTrip(Third(b1, b2), 0);
      AlphabetRoundTrip(Fourth(b2), 0);
    }
    if |b| >= 3 {
      EncodedShape(b[3..]);
    }
  }

  // ---------- Decoding ----------

  /** The character at i of a C string, whose terminator may be read. */
  function At(s: seq<Byte>, i: nat): Byte
  {
    if i < |s| then s[i] else 0
  }

  /** The value of the character at i, or 64. */
  function Field(s: seq<Byte>, i: nat): Byte { Atoi64(At(s, i)) }

  /** The n bytes that the text at position i stands for; None if a character needed is not in the alphabet. */
  function Decoded(s: seq<Byte>, i: nat, n: nat): Option<seq<Byte>>
    decreases n
  {
    if n == 0 then Some([])
    else if Field(s, i) == 64 || Field(s, i + 1) == 64 then None
    else if n == 1 then Some([Byte0(Field(s, i), Field(s, i + 1))])
    else if Field(s, i + 2) == 64 then None
    else if n == 2 then Some([Byte0(Field(s, i), Field(s, i + 1)), Byte1(Field(s, i + 1), Field(s, i + 2))])
    else if Field(s, i + 3) == 64 then None
    else
      var rest := Decoded(s, i + 4, n - 3);
      if rest.None? then None else Some(DecodedGroup(s, i) + rest.value)
  }

  function DecodedGroup(s: seq<Byte>, i: nat): seq<Byte>
  {
    [Byte0(Field(s, i), Field(s, i + 1)), Byte1(Field(s, i + 1), Field(s, i + 2)),
        Byte2(Field(s, i + 2), Field(s, i + 3))]
  }

  /** s holds t at position i. */
  ghost predicate Holds(s: seq<Byte>, i: nat, t: seq<Byte>)
  {
    i + |t| <= |s| && s[i..i + |t|] == t
  }

  lemma FieldOf(s: seq<Byte>, i: nat, t: seq<Byte>, k: nat, v: Byte)
    requires Holds(s, i, t) && k < |t| && v < 64 && t[k] == Itoa64(v)
    ensures Field(s, i + k) == v < 64
  {
    hide Itoa64, Atoi64;
    assert s[i..i + |t|][k] == s[i + k];
    AlphabetRoundTrip(v, 0);
  }

  /** Decoding what was encoded gives the bytes back, whatever precedes or follows it. */
  lemma {:induction false} DecodeEncode(b: seq<Byte>, s: seq<Byte>, i: nat)
    requires Holds(s, i, Encoded(b))
    ensures Decoded(s, i, |b|) == Some(b)
    decreases |b|
  {
    hide First, Second, Third, Fourth, Byte0, Byte1, Byte2, Itoa64, Atoi64, Field, Holds;
    var e := Encoded(b);
    var b1 := if |b| >= 2 then b[1] else 0;
    var b2 := if |b| >= 3 then b[2] else 0;
    assert |b| == 1 ==> b == [b[0]];
    assert |b| == 2 ==> b == [b[0], b[1]];
    if |b| >= 1 {
      FieldRange(b[0], b1, b2);
      FieldsOfBytes(b[0], b1, b2);
      FieldOf(s, i, e, 0, First(b[0]));
      FieldOf(s, i, e, 1, Second(b[0], b1));
    }
    if |b| >= 2 {
      FieldOf(s, i, e, 2, Third(b1, b2));
    }
    if |b| >= 3 {
      FieldOf(s, i, e, 3, Fourth(b2));
      HoldsRest(s, i, EncodedGroup(b[0], b[1], b[2]), Encoded(b[3..]));
      DecodeEncode(b[3..], s, i + 4);
      assert b == [b[0], b[1], b[2]] + b[3..];
    }
  }

  lemma HoldsRest(s: seq<Byte>, i: nat, t: seq<Byte>, u: seq<Byte>)
    requires Holds(s, i, t + u)
    ensures Holds(s, i + |t|, u)
  {
    assert s[i + |t|..i + |t| + |u|] == s[i..i + |t + u|][|t|..];
  }

  /** The last character of the text of n bytes, with the bits cleared that decoding does not read. */
  function LastCharacter(c: Byte, n: nat): Byte
    requires Atoi64(c) < 64
  {
    Masked(Atoi64(c));
    if n % 3 == 1 then Itoa64(Atoi64(c) & 0x30) else if n % 3 == 2 then Itoa64(Atoi64(c) & 0x3C) else c
  }

  lemma Masked(v: Byte)
    ensures v & 0x30 < 64 && v & 0x3C < 64
  {}

  lemma CharacterOf(s: seq<Byte>, i: nat)
    ensures Field(s, i) <= 64
    ensures Field(s, i) < 64 ==> i < |s| && Field(s, i) == Atoi64(s[i]) && Itoa64(Field(s, i)) == s[i]
  {
    hide Itoa64, Atoi64;
    AlphabetRoundTrip(0, At(s, i));
    AtoiZero();
  }

  /** Encoding what was decoded gives the text back but for the unread bits of its last character. */
  lemma {:induction false} EncodeDecode(s: seq<Byte>, i: nat, n: nat)
    requires n > 0 && Decoded(s, i, n).Some?
    ensures var len := EncodedLength(n);
            i + len <= |s| && Atoi64(s[i + len - 1]) < 64 && |Decoded(s, i, n).value| == n &&
            Encoded(Decoded(s, i, n).value) == s[i..i + len - 1] + [LastCharacter(s[i + len - 1], n)]
    decreases n
  {
    hide Decoded, Encoded, Itoa64, Atoi64, EncodedGroup, DecodedGroup, LastCharacter, EncodedLength;
    Lengths(n);
    if n <= 2 {
      ShortRoundTrip(s, i, n);
    } else {
      PeelGroup(s, i, n);
      LastCharacterGroups(s[i + 3], n);
      if n > 3 {
        EncodeDecode(s, i + 4, n - 3);
        Lengths(n - 3);
        var len := EncodedLength(n - 3);
        LastCharacterGroups(s[i + 4 + len - 1], n);
        assert s[i..i + 4] + s[i + 4..i + 4 + len - 1] == s[i..i + 4 + len - 1];
      } else {
        assert s[i..i + 4] == s[i..i + 3] + [s[i + 3]];
      }
    }
  }

  lemma Lengths(n: nat)
    ensures 1 <= n <= 2 ==> EncodedLength(n) == n + 1
    ensures n >= 3 ==> EncodedLength(n) == 4 + EncodedLength(n - 3)
    ensures n > 0 ==> EncodedLength(n) > 0
    ensures EncodedLength(0) == 0
  {}

  lemma PeelGroup(s: seq<Byte>, i: nat, n: nat)
    requires n >= 3 && Decoded(s, i, n).Some?
    ensures i + 4 <= |s| && Decoded(s, i + 4, n - 3).Some? && Atoi64(s[i + 3]) < 64
    ensures var rest := Decoded(s, i + 4, n - 3).value;
            |Decoded(s, i, n).value| == 3 + |rest| && Encoded(Decoded(s, i, n).value) == s[i..i + 4] + Encoded(rest)
    ensures n == 3 ==> Encoded(Decoded(s, i, n).value) == s[i..i + 4] && |Decoded(s, i, n).value| == 3
  {
    hide First, Second, Third, Fourth, Byte0, Byte1, Byte2, Itoa64, Atoi64, Field, EncodedGroup, DecodedGroup;
    CharacterOf(s, i);
    CharacterOf(s, i + 1);
    CharacterOf(s, i + 2);
    CharacterOf(s, i + 3);
    GroupRoundTrip(s, i);
    var b := Decoded(s, i, n).value;
    var rest := Decoded(s, i + 4, n - 3).value;
    assert b == DecodedGroup(s, i) + rest;
    assert b[3..] == rest && b[..3] == DecodedGroup(s, i);
  }

  lemma LastCharacterGroups(c: Byte, n: nat)
    requires Atoi64(c) < 64 && n >= 3
    ensures LastCharacter(c, n) == if n == 3 then c else LastCharacter(c, n - 3)
  {
    hide Itoa64, Atoi64;
  }

  lemma ShortRoundTrip(s: seq<Byte>, i: nat, n: nat)
    requires 1 <= n <= 2 && Decoded(s, i, n).Some?
    ensures i + n + 1 <= |s| && Atoi64(s[i + n]) < 64 && |Decoded(s, i, n).value| == n
    ensures Encoded(Decoded(s, i, n).value) == s[i..i + n] + [LastCharacter(s[i + n], n)]
  {
    hide First, Second, Third, Fourth, Byte0, Byte1, Byte2, Itoa64, Atoi64, Field;
    CharacterOf(s, i);
    CharacterOf(s, i + 1);
    if n == 1 {
      BytesOfFields(Field(s, i), Field(s, i + 1), 0, 0);
      assert s[i..i + 1] == [s[i]];
    } else {
      CharacterOf(s, i + 2);
      BytesOfFields(Field(s, i), Field(s, i + 1), Field(s, i + 2), 0);
      assert s[i..i + 2] == [s[i], s[i + 1]];
    }
  }

  lemma GroupRoundTrip(s: seq<Byte>, i: nat)
    requires Field(s, i) < 64 && Field(s, i + 1) < 64 && Field(s, i + 2) < 64 && Field(s, i + 3) < 64
    ensures |DecodedGroup(s, i)| == 3 && i + 4 <= |s|
    ensures var b := DecodedGroup(s, i); EncodedGroup(b[0], b[1], b[2]) == s[i..i + 4]
  {
    hide First, Second, Third, Fourth, Byte0, Byte1, Byte2, Itoa64, Atoi64, Field;
    CharacterOf(s, i);
    CharacterOf(s, i + 1);
    CharacterOf(s, i + 2);
    CharacterOf(s, i + 3);
    BytesOfFields(Field(s, i), Field(s, i + 1), Field(s, i + 2), Field(s, i + 3));
  }

  lemma AtoiZero()
    ensures Atoi64(0) == 64
  {}

  // ---------- BF_encode and BF_decode ----------

  lemma FieldForms(b0: Byte, b1: Byte, b2: Byte)
    ensures First(b0) == b0 >> 2 < 64
    ensures Second(b0, 0) == (b0 & 0x03) << 4 < 64 && Second(b0, b1) == ((b0 & 0x03) << 4) | (b1 >> 4) < 64
    ensures Third(b1, 0) == (b1 & 0x0F) << 2 < 64 && Third(b1, b2) == ((b1 & 0x0F) << 2) | (b2 >> 6) < 64
    ensures Fourth(b2) == b2 & 0x3F < 64
  {}

  /** The characters of the first group, with zero bits for bytes that are not there. */
  lemma EncodedStart(b: seq<Byte>, b1: Byte, b2: Byte)
    requires |b| > 0 && b1 == (if |b| > 1 then b[1] else 0) && b2 == (if |b| > 2 then b[2] else 0)
    ensures First(b[0]) < 64 && Second(b[0], b1) < 64 && Third(b1, b2) < 64 && Fourth(b2) < 64
    ensures |Encoded(b)| >= 2 && Encoded(b)[0] == Itoa64(First(b[0])) && Encoded(b)[1] == Itoa64(Second(b[0], b1))
    ensures |b| > 1 ==> |Encoded(b)| >= 3 && Encoded(b)[2] == Itoa64(Third(b1, b2))
    ensures |b| > 2 ==> |Encoded(b)| >= 4 && Encoded(b)[3] == Itoa64(Fourth(b2)) && Encoded(b)[4..] == Encoded(b[3..])
  {
    hide First, Second, Third, Fourth, Itoa64;
    FieldRange(b[0], b1, b2);
  }

  /** The buffer `now`, once `was`, holds the first d - at characters of a text that belongs at `at`. */
  ghost predicate Progress(now: seq<Byte>, was: seq<Byte>, at: nat, d: nat, text: seq<Byte>)
  {
    && at <= d <= at + |text| <= |was| == |now|
    && (forall k :: at <= k < d ==> now[k] == text[k - at])
    && (forall k :: 0 <= k < |was| && !(at <= k < at + |text|) ==> now[k] == was[k])
  }

  /** One character out. */
  method Emit(dst: array<Byte>, d: nat, v: Byte, ghost was: seq<Byte>, ghost at: nat, ghost text: seq<Byte>)
      returns (next: nat)
    requires Progress(dst[..], was, at, d, text) && d < at + |text| && v < 64 && text[d - at] == Itoa64(v)
    modifies dst
    ensures next == d + 1 && Progress(dst[..], was, at, next, text)
  {
    hide Itoa64;
    dst[d] := Itoa64(v);
    next := d + 1;
  }

  /** BF_encode: the text of src[..size] goes to dst from `at` on, and nowhere else. */
  method BFEncode(dst: array<Byte>, at: nat, src: seq<Byte>, size: nat)
    requires 1 <= size <= |src| && at + EncodedLength(size) <= dst.Length
    modifies dst
    ensures dst[at..at + EncodedLength(size)] == Encoded(src[..size])
    ensures forall k :: 0 <= k < dst.Length && !(at <= k < at + EncodedLength(size)) ==> dst[k] == old(dst[k])
  {
    hide First, Second, Third, Fourth, Itoa64, Encoded, EncodedLength, Progress;
    ghost var was := dst[..];
    ghost var text := Encoded(src[..size]);
    EncodedShape(src[..size]);
    assert src[0..size] == src[..size];
    var d, p := at, 0;
    StartProgress(was, at, text);
    while true
      invariant 0 <= p < size && at <= d <= at + |text|
      invariant text[d - at..] == Encoded(src[p..size])
      invariant Progress(dst[..], was, at, d, text)
      decreases size - p
    {
      ghost var left := src[p..size];
      ghost var b1 := if p + 1 < size then src[p + 1] else 0;
      ghost var b2 := if p + 2 < size then src[p + 2] else 0;
      EncodedShape(left);
      Lengths(size - p);
      EncodedStart(left, b1, b2);
      FieldForms(src[p], b1, b2);

      var c1 := src[p];
      p := p + 1;
      d := Emit(dst, d, c1 >> 2, was, at, text);
      c1 := (c1 & 0x03) << 4;
      if p >= size {
        d := Emit(dst, d, c1, was, at, text);
        break;
      }

      var c2 := src[p];
      p := p + 1;
      c1 := c1 | (c2 >> 4);
      d := Emit(dst, d, c1, was, at, text);
      c1 := (c2 & 0x0F) << 2;
      if p >= size {
        d := Emit(dst, d, c1, was, at, text);
        break;
      }

      c2 := src[p];
      p := p + 1;
      c1 := c1 | (c2 >> 6);
      d := Emit(dst, d, c1, was, at, text);
      d := Emit(dst, d, c2 & 0x3F, was, at, text);
      assert left[3..] == src[p..size];
      if p >= size {
        break;
      }
    }
    EndProgress(dst[..], was, at, d, text);
  }

  lemma StartProgress(was: seq<Byte>, at: nat, text: seq<Byte>)
    requires at + |text| <= |was|
    ensures Progress(was, was, at, at, text)
  {}

  lemma EndProgress(now: seq<Byte>, was: seq<Byte>, at: nat, d: nat, text: seq<Byte>)
    requires Progress(now, was, at, d, text) && d == at + |text|
    ensures |now| == |was| && now[at..at + |text|] == text
    ensures forall k :: 0 <= k < |was| && !(at <= k < at + |text|) ==> now[k] == was[k]
  {}

  /** BF_safe_atoi64: the terminator may be read, and ends the decoding. */
  method SafeAtoi64(s: seq<Byte>, i: nat) returns (v: Byte)
    requires i <= |s|
    ensures v == Field(s, i) && (v != 64 ==> v < 64 && i < |s|)
  {
    CharacterOf(s, i);
    v := Atoi64(At(s, i));
  }

  /** The first bytes of the buffer are `got`; those from `size` on are as they were. */
  ghost predicate Stored(now: seq<Byte>, was: seq<Byte>, size: nat, got: seq<Byte>)
  {
    && |got| <= size <= |was| == |now|
    && now[..|got|] == got
    && now[size..] == was[size..]
  }

  /** One byte in. */
  method Store(dst: array<Byte>, d: nat, b: Byte, ghost was: seq<Byte>, ghost size: nat, ghost got: seq<Byte>)
      returns (next: nat)
    requires Stored(dst[..], was, size, got) && |got| == d < size
    modifies dst
    ensures next == d + 1 && Stored(dst[..], was, size, got + [b])
  {
    assert dst[..][..d] == dst[..d] && dst[..][size..] == dst[size..];
    dst[d] := b;
    next := d + 1;
    assert dst[..][..next] == dst[..d] + [b] && dst[..][size..] == dst[size..];
  }

  /** BF_decode: true when all size bytes could be read; never reads past the terminator. */
  method BFDecode(dst: array<Byte>, s: seq<Byte>, at: nat, size: nat) returns (ok: bool)
    requires at <= |s| && 1 <= size <= dst.Length
    modifies dst
    ensures ok <==> Decoded(s, at, size).Some?
    ensures ok ==> dst[..size] == Decoded(s, at, size).value
    ensures dst[size..] == old(dst[size..])
  {
    hide Byte0, Byte1, Byte2, Itoa64, Atoi64, Field, Stored;
    ghost var whole, was, got := Decoded(s, at, size), dst[..], [];
    var p, d := at, 0;
    StartStored(was, size);
    PrependNone(whole);
    while true
      invariant at <= p <= |s| && |got| == d < size && Stored(dst[..], was, size, got)
      invariant whole == Prepend(got, Decoded(s, p, size - d))
      decreases size - d
    {
      ghost var before := got;
      EndStored(dst, was, size, got);
      var c1 := SafeAtoi64(s, p);
      if c1 == 64 { return false; }
      p := p + 1;
      var c2 := SafeAtoi64(s, p);
      if c2 == 64 { return false; }
      p := p + 1;
      d := Store(dst, d, Byte0(c1, c2), was, size, got);
      got := got + [Byte0(c1, c2)];
      if d >= size { break; }

      EndStored(dst, was, size, got);
      var c3 := SafeAtoi64(s, p);
      if c3 == 64 { return false; }
      p := p + 1;
      d := Store(dst, d, Byte1(c2, c3), was, size, got);
      got := got + [Byte1(c2, c3)];
      if d >= size { break; }

      EndStored(dst, was, size, got);
      var c4 := SafeAtoi64(s, p);
      if c4 == 64 { return false; }
      p := p + 1;
      d := Store(dst, d, Byte2(c3, c4), was, size, got);
      got := got + [Byte2(c3, c4)];
      PrependGroup(before, Byte0(c1, c2), Byte1(c2, c3), Byte2(c3, c4), Decoded(s, p, size - d));
      if d >= size { break; }
    }
    EndStored(dst, was, size, got);
    return true;
  }

  function Prepend(got: seq<Byte>, rest: Option<seq<Byte>>): Option<seq<Byte>>
  {
    if rest.None? then None else Some(got + rest.value)
  }

  lemma PrependNone(rest: Option<seq<Byte>>)
    ensures Prepend([], rest) == rest
  {
    assert rest.Some? ==> [] + rest.value == rest.value;
  }

  lemma PrependGroup(got: seq<Byte>, x: Byte, y: Byte, z: Byte, rest: Option<seq<Byte>>)
    ensures Prepend(got, Prepend([x, y, z], rest)) == Prepend(got + [x] + [y] + [z], rest)
  {
    assert rest.Some? ==> got + ([x, y, z] + rest.value) == got + [x] + [y] + [z] + rest.value;
  }

  lemma StartStored(was: seq<Byte>, size: nat)
    requires size <= |was|
    ensures Stored(was, was, size, [])
  {}

  lemma EndStored(dst: array<Byte>, was: seq<Byte>, size: nat, got: seq<Byte>)
    requires Stored(dst[..], was, size, got)
    ensures |got| <= size <= dst.Length == |was| && dst[size..] == was[size..]
    ensures |got| == size ==> dst[..size] == got
  {
    assert dst[..][..|got|] == dst[..|got|] && dst[..][size..] == dst[size..];
  }
}
