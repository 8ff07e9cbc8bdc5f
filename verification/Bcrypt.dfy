/**
 The text layer of bcrypt: settings, salts and hashes. The cipher is an uninterpreted function of
 the key schedule, the salt and the iteration count, giving six words by index.
 */
module Bcrypt {
  import opened Options
  import opened Arithmetic
  import opened Radix64
  import opened BlowfishKey

  type Cipher = (seq<Word>, seq<Word>, seq<Word>, nat, nat) -> Word

  const HASHSIZE := 64
  const SALT_BYTES := 16

  // ---------- Settings ----------

  function DigitByte(d: nat): Byte
    requires d < 10
  {
    [0x30, 0x31, 0x32, 0x33, 0x34, 0x35, 0x36, 0x37, 0x38, 0x39][d]
  }

  function DigitValue(c: Byte): nat
  {
    if c == 0x31 then 1 else if c == 0x32 then 2 else if c == 0x33 then 3
    else if c == 0x34 then 4 else if c == 0x35 then 5 else if c == 0x36 then 6
    else if c == 0x37 then 7 else if c == 0x38 then 8 else if c == 0x39 then 9 else 0
  }

  /** flags_by_subtype, for 'a', 'b', 'x' and 'y'. */
  function FlagsBySubtype(c: Byte): Byte
  {
    if c == 0x61 then 2 else if c == 0x62 || c == 0x79 then 4 else if c == 0x78 then 1 else 0
  }

  /** A C string has no terminator inside. */
  predicate CText(s: seq<Byte>)
  {
    forall i :: 0 <= i < |s| ==> s[i] != 0
  }

  /** "$2", a known letter, "$", two digits up to 31, "$". */
  predicate ValidHeader(s: seq<Byte>)
  {
    && |s| >= 7
    && s[0] == 0x24 && s[1] == 0x32 && FlagsBySubtype(s[2]) != 0 && s[3] == 0x24
    && 0x30 <= s[4] <= 0x33 && 0x30 <= s[5] <= 0x39 && !(s[4] == 0x33 && s[5] > 0x31)
    && s[6] == 0x24
  }

  function Cost(s: seq<Byte>): nat
    requires |s| >= 6
  {
    DigitValue(s[4]) * 10 + DigitValue(s[5])
  }

  // ---------- What a hash is ----------

  ghost function ExpandedKey(key: seq<Byte>, flags: Byte): seq<Word>
  {
    seq(WORDS, i requires 0 <= i < WORDS => Expanded(key, flags, i))
  }

  ghost function InitialKey(key: seq<Byte>, flags: Byte): seq<Word>
  {
    seq(WORDS, i requires 0 <= i < WORDS => Initial(key, flags, i))
  }

  ghost function SaltWords(salt: seq<Byte>): seq<Word>
    requires |salt| == SALT_BYTES
  {
    seq(4, i requires 0 <= i < 4 => BigEndian(salt[4 * i], salt[4 * i + 1], salt[4 * i + 2], salt[4 * i + 3]))
  }

  /** The 24 bytes of the cipher's output words, most significant first. */
  ghost function Digest(key: seq<Byte>, flags: Byte, salt: seq<Byte>, count: nat, cipher: Cipher): (d: seq<Byte>)
    requires |salt| == SALT_BYTES
    ensures |d| == 24
  {
    seq(24, k requires 0 <= k < 24 =>
      ByteOf(cipher(ExpandedKey(key, flags), InitialKey(key, flags), SaltWords(salt), count, k / 4), k % 4))
  }

  ghost predicate ValidSetting(setting: seq<Byte>, min: nat)
  {
    ValidHeader(setting) && Pow2(Cost(setting)) >= min && Decoded(setting, 7, SALT_BYTES).Some?
  }

  /** The hash of a key under a setting: header, salt without its unread bits, 23 bytes of digest. */
  ghost function Crypt(key: seq<Byte>, setting: seq<Byte>, min: nat, cipher: Cipher): Option<seq<Byte>>
  {
    if !ValidSetting(setting, min) then None
    else
      EncodeDecode(setting, 7, SALT_BYTES);
      var salt := Decoded(setting, 7, SALT_BYTES).value;
      Some(setting[..7] + Encoded(salt)
          + Encoded(Digest(key, FlagsBySubtype(setting[2]), salt, Pow2(Cost(setting)), cipher)[..23]))
  }

  /** Every hash is a setting again, with the same header and salt, and is a C string of 60 characters. */
  lemma CryptShape(key: seq<Byte>, setting: seq<Byte>, min: nat, cipher: Cipher)
    requires Crypt(key, setting, min, cipher).Some?
    ensures var h := Crypt(key, setting, min, cipher).value;
            |h| == 60 && CText(h) && h[..7] == setting[..7] && ValidSetting(h, min) &&
            Decoded(h, 7, SALT_BYTES) == Decoded(setting, 7, SALT_BYTES)
  {
    hide Encoded, Decoded, BlowfishKey.ByteOf;
    EncodeDecode(setting, 7, SALT_BYTES);
    var salt := Decoded(setting, 7, SALT_BYTES).value;
    var digest := Digest(key, FlagsBySubtype(setting[2]), salt, Pow2(Cost(setting)), cipher)[..23];
    var h := Crypt(key, setting, min, cipher).value;
    EncodedShape(salt);
    EncodedShape(digest);
    assert h[..7] == setting[..7];
    assert h[7..29] == Encoded(salt);
    DecodeEncode(salt, h, 7);
  }

  /** Hashing a password with its own hash for a setting gives that hash. */
  lemma RehashIsFixed(key: seq<Byte>, setting: seq<Byte>, min: nat, cipher: Cipher)
    requires Crypt(key, setting, min, cipher).Some?
    ensures var h := Crypt(key, setting, min, cipher).value; Crypt(key, h, min, cipher) == Some(h)
  {
    hide Encoded, Decoded;
    CryptShape(key, setting, min, cipher);
    var h := Crypt(key, setting, min, cipher).value;
    assert forall i :: 0 <= i < 7 ==> h[i] == h[..7][i] == setting[i];
  }

  /** The key words of a prefix letter: those with the sign extension for 'x', the correct ones for 'a', 'b' and 'y'. */
  ghost function WordsFor(key: seq<Byte>, letter: Byte): seq<Word>
  {
    seq(WORDS, i requires 0 <= i < WORDS => if letter == 0x78 then BuggyWord(key, i) else KeyWord(key, i))
  }

  /** The initial words: the key words over those of the cipher, but for one bit of 'a' and an ambiguous key. */
  ghost function InitialFor(key: seq<Byte>, letter: Byte): seq<Word>
  {
    seq(WORDS, i requires 0 <= i < WORDS =>
      Xor(Xor(InitP(i), WordsFor(key, letter)[i]), if letter == 0x61 && i == 0 && Ambiguous(key) then 0x10000 else 0))
  }

  /** What the characters after the salt stand for: 23 bytes of the cipher's output for the letter's key schedule. */
  lemma HashByLetter(key: seq<Byte>, setting: seq<Byte>, min: nat, cipher: Cipher)
    requires Crypt(key, setting, min, cipher).Some?
    ensures |setting| >= 7 && setting[2] in {0x61, 0x62, 0x78, 0x79}
    ensures Decoded(setting, 7, SALT_BYTES).Some? && |Decoded(setting, 7, SALT_BYTES).value| == SALT_BYTES
    ensures var salt := SaltWords(Decoded(setting, 7, SALT_BYTES).value);
            Decoded(Crypt(key, setting, min, cipher).value, 29, 23) == Some(seq(23, k requires 0 <= k < 23 =>
              ByteOf(cipher(WordsFor(key, setting[2]), InitialFor(key, setting[2]), salt, Pow2(Cost(setting)),
                  k / 4), k % 4)))
  {
    hide Encoded, Decoded, BlowfishKey.ByteOf, Xor, KeyWord, BuggyWord, InitP, Ambiguous, SaltWords, Bug, Safe,
        FlagsBySubtype;
    EncodeDecode(setting, 7, SALT_BYTES);
    var salt := Decoded(setting, 7, SALT_BYTES).value;
    var letter := setting[2];
    Letters(letter);
    var flags := FlagsBySubtype(letter);
    ScheduleByLetter(key, letter);
    var digest := Digest(key, flags, salt, Pow2(Cost(setting)), cipher)[..23];
    var h := Crypt(key, setting, min, cipher).value;
    EncodedShape(salt);
    EncodedShape(digest);
    assert h[29..60] == Encoded(digest);
    DecodeEncode(digest, h, 29);
    assert digest == seq(23, k requires 0 <= k < 23 =>
      ByteOf(cipher(WordsFor(key, letter), InitialFor(key, letter), SaltWords(salt), Pow2(Cost(setting)), k / 4),
          k % 4));
  }

  lemma Letters(c: Byte)
    ensures FlagsBySubtype(c) != 0 <==> c in {0x61, 0x62, 0x78, 0x79}
    ensures FlagsBySubtype(c) != 0 ==>
            (Bug(FlagsBySubtype(c)) <==> c == 0x78) && (Safe(FlagsBySubtype(c)) <==> c == 0x61)
  {}

  lemma ScheduleByLetter(key: seq<Byte>, c: Byte)
    requires FlagsBySubtype(c) != 0
    ensures ExpandedKey(key, FlagsBySubtype(c)) == WordsFor(key, c)
    ensures InitialKey(key, FlagsBySubtype(c)) == InitialFor(key, c)
  {
    hide FlagsBySubtype, Bug, Safe, Xor, KeyWord, BuggyWord, InitP, Ambiguous;
    Letters(c);
  }

  /** Valid headers are exactly those of a letter and a cost up to 31, and the cost is the number written. */
  lemma HeaderMeaning(s: seq<Byte>)
    ensures ValidHeader(s) <==>
            && |s| >= 7
            && exists letter, cost ::
                 letter in {0x61, 0x62, 0x78, 0x79} && 0 <= cost <= 31 && s[..7] == Header(letter, cost)
    ensures forall letter, cost :: 0 <= cost <= 31 && |s| >= 7 && s[..7] == Header(letter, cost) ==> Cost(s) == cost
  {
    hide FlagsBySubtype, DigitByte, DigitValue;
    if |s| >= 7 {
      Letters(s[2]);
      assert s[..7] == [s[0], s[1], s[2], s[3], s[4], s[5], s[6]];
      forall letter, cost | 0 <= cost <= 31 && s[..7] == Header(letter, cost)
        ensures Cost(s) == cost && (letter in {0x61, 0x62, 0x78, 0x79} ==> ValidHeader(s))
      {
        Digits(cost / 10);
        Digits(cost % 10);
        Letters(letter);
      }
      if ValidHeader(s) {
        DigitBack(s[4]);
        DigitBack(s[5]);
        assert s[..7] == Header(s[2], Cost(s));
      }
    }
  }

  /** The minimum of 16 iterations is a cost of 4. */
  lemma LeastCost(s: seq<Byte>)
    requires ValidSetting(s, 16)
    ensures Cost(s) >= 4
  {
    hide Decoded;
    if Cost(s) < 4 {
      Pow2Monotone(Cost(s), 3);
      assert false;
    }
  }

  function Header(letter: Byte, cost: nat): seq<Byte>
    requires cost < 100
  {
    [0x24, 0x32, letter, 0x24, DigitByte(cost / 10), DigitByte(cost % 10), 0x24]
  }

  lemma DigitBack(c: Byte)
    requires 0x30 <= c <= 0x39
    ensures DigitValue(c) < 10 && DigitByte(DigitValue(c)) == c
    ensures c <= 0x33 ==> DigitValue(c) <= 3
    ensures c == 0x33 <==> DigitValue(c) == 3
    ensures c <= 0x31 ==> DigitValue(c) <= 1
  {}

  /** Two settings with the same header and the same decoded salt hash alike. */
  lemma OnlyHeaderAndSaltMatter(key: seq<Byte>, s: seq<Byte>, t: seq<Byte>, min: nat, cipher: Cipher)
    requires |s| >= 7 && |t| >= 7 && s[..7] == t[..7] && Decoded(s, 7, SALT_BYTES) == Decoded(t, 7, SALT_BYTES)
    ensures Crypt(key, s, min, cipher) == Crypt(key, t, min, cipher)
  {
    hide Encoded, Decoded;
    assert forall i :: 0 <= i < 7 ==> s[i] == s[..7][i] == t[..7][i] == t[i];
  }

  // ---------- BF_crypt ----------

  /** The bytes of a word array as the host keeps them, the other half of the union. */
  function HostBytes(x: seq<Word>, little: bool): (b: seq<Byte>)
    ensures |b| == 4 * |x|
  {
    seq(4 * |x|, k requires 0 <= k < 4 * |x| => HostByte(x[k / 4], k % 4, little))
  }

  /** The salt as the words the cipher gets: decoded in place, then swapped on a little-endian host. */
  method ReadSalt(setting: seq<Byte>, little: bool) returns (ok: bool, salt: array<Word>)
    requires |setting| >= 7
    ensures fresh(salt) && salt.Length == 4
    ensures ok <==> Decoded(setting, 7, SALT_BYTES).Some?
    ensures ok ==>
              |Decoded(setting, 7, SALT_BYTES).value| == SALT_BYTES &&
              salt[..] == SaltWords(Decoded(setting, 7, SALT_BYTES).value)
  {
    hide Decoded, BigEndian, HostWord, SwapWord, HostSwap;
    salt := new Word[4];
    var bytes := new Byte[SALT_BYTES];
    ok := BFDecode(bytes, setting, 7, SALT_BYTES);
    if ok {
      ghost var got := Decoded(setting, 7, SALT_BYTES).value;
      assert bytes[..] == bytes[..SALT_BYTES] == got;
      for i := 0 to 4
        invariant bytes[..] == got
        invariant forall k :: 0 <= k < i ==>
                  salt[k] == HostWord(bytes[4 * k], bytes[4 * k + 1], bytes[4 * k + 2], bytes[4 * k + 3], little)
      {
        salt[i] := HostWord(bytes[4 * i], bytes[4 * i + 1], bytes[4 * i + 2], bytes[4 * i + 3], little);
      }
      ghost var loaded := salt[..];
      BFSwap(salt, 4, little);
      forall k | 0 <= k < 4
        ensures salt[k] == BigEndian(got[4 * k], got[4 * k + 1], got[4 * k + 2], got[4 * k + 3])
      {
        assert salt[k] == HostSwap(loaded[k], little);
        assert forall j :: 0 <= j < SALT_BYTES ==> bytes[j] == bytes[..][j] == got[j];
        SwapReadsBigEndian(bytes[4 * k], bytes[4 * k + 1], bytes[4 * k + 2], bytes[4 * k + 3], little);
      }
      assert salt[..] == SaltWords(got);
    }
  }

  /** The cipher's output as bytes in memory. */
  method WriteDigest(key: seq<Byte>, flags: Byte, salt: array<Word>, count: nat, cipher: Cipher, little: bool,
      ghost saltBytes: seq<Byte>) returns (bytes: seq<Byte>)
    requires CText(key) && |saltBytes| == SALT_BYTES && salt[..] == SaltWords(saltBytes)
    ensures bytes == Digest(key, flags, saltBytes, count, cipher)
  {
    hide Expanded, Initial, SaltWords, ByteOf, HostByte, SwapWord, HostSwap;
    var expanded, initial := new Word[WORDS], new Word[WORDS];
    BFSetKey(key, expanded, initial, flags);
    assert expanded[..] == ExpandedKey(key, flags) && initial[..] == InitialKey(key, flags);
    var output := new Word[6];
    for i := 0 to 6
      invariant forall k :: 0 <= k < i ==>
                output[k] == cipher(ExpandedKey(key, flags), InitialKey(key, flags), SaltWords(saltBytes), count, k)
      invariant expanded[..] == ExpandedKey(key, flags) && initial[..] == InitialKey(key, flags)
                && salt[..] == SaltWords(saltBytes)
    {
      output[i] := cipher(expanded[..], initial[..], salt[..], count, i);
    }
    BFSwap(output, 6, little);
    bytes := HostBytes(output[..], little);
    forall k | 0 <= k < 24 ensures bytes[k] == Digest(key, flags, saltBytes, count, cipher)[k] {
      SwapWritesBigEndian(cipher(ExpandedKey(key, flags), InitialKey(key, flags), SaltWords(saltBytes), count,
          k / 4), k % 4, little);
    }
  }

  /** The test of the header, which stops at the terminator at the latest. */
  method CheckHeader(setting: seq<Byte>) returns (ok: bool)
    requires CText(setting)
    ensures ok <==> ValidHeader(setting)
  {
    ok := !(At(setting, 0) != 0x24 ||
            At(setting, 1) != 0x32 ||
            At(setting, 2) < 0x61 || At(setting, 2) > 0x7A ||
            FlagsBySubtype(At(setting, 2)) == 0 ||
            At(setting, 3) != 0x24 ||
            At(setting, 4) < 0x30 || At(setting, 4) > 0x33 ||
            At(setting, 5) < 0x30 || At(setting, 5) > 0x39 ||
            (At(setting, 4) == 0x33 && At(setting, 5) > 0x31) ||
            At(setting, 6) != 0x24);
  }

  /** BF_crypt: the hash with its terminator, or nothing written at all. */
  method BFCrypt(key: seq<Byte>, setting: seq<Byte>, output: array<Byte>, size: nat, min: nat, cipher: Cipher,
      little: bool) returns (ok: bool)
    requires CText(key) && CText(setting) && size <= output.Length
    modifies output
    ensures ok <==> size >= 61 && Crypt(key, setting, min, cipher).Some?
    ensures ok ==> output[..60] == Crypt(key, setting, min, cipher).value && output[60] == 0
    ensures !ok ==> output[..] == old(output[..])
  {
    hide Decoded, Encoded, Digest, FlagsBySubtype, SaltWords;
    if size < 7 + 22 + 31 + 1 {
      return false;
    }
    var valid := CheckHeader(setting);
    if !valid {
      return false;
    }
    var count := Pow2(Cost(setting));
    if count < min {
      return false;
    }
    var decoded, salt := ReadSalt(setting, little);
    if !decoded {
      return false;
    }
    ghost var saltBytes := Decoded(setting, 7, SALT_BYTES).value;
    var bytes := WriteDigest(key, FlagsBySubtype(setting[2]), salt, count, cipher, little, saltBytes);
    EncodeDecode(setting, 7, SALT_BYTES);
    Masked(Atoi64(setting[28]));
    CopyHead(output, setting, Itoa64(Atoi64(setting[28]) & 0x30));
    ghost var head := output[..29];
    BFEncode(output, 29, bytes, 23);
    EncodedShape(saltBytes);
    EncodedShape(bytes[..23]);
    output[60] := 0;
    assert output[..29] == head;
    assert output[..60] == output[..29] + output[29..60];
    assert head == setting[..7] + Encoded(saltBytes);
    return true;
  }

  /** memcpy of the first 28 characters, and the last of the salt in canonical form. */
  method CopyHead(output: array<Byte>, setting: seq<Byte>, last: Byte)
    requires output.Length >= 61 && |setting| >= 28
    modifies output
    ensures output[..29] == setting[..28] + [last]
  {
    for i := 0 to 28
      invariant forall k :: 0 <= k < i ==> output[k] == setting[k]
    {
      output[i] := setting[i];
    }
    output[28] := last;
  }

  // ---------- crypt_rn ----------

  /** The text of a C buffer, up to its first terminator. */
  function CString(b: seq<Byte>): seq<Byte>
  {
    if |b| == 0 || b[0] == 0 then [] else [b[0]] + CString(b[1..])
  }

  lemma {:induction false} CStringIs(b: seq<Byte>, n: nat)
    requires n < |b| && b[n] == 0 && CText(b[..n])
    ensures CString(b) == b[..n]
  {
    if n > 0 {
      assert b[0] == b[..n][0];
      assert b[1..][..n - 1] == b[..n][1..];
      CStringIs(b[1..], n - 1);
    }
  }

  /** _crypt_output_magic: a text that no hash has, and that is never the setting itself. */
  method OutputMagic(setting: seq<Byte>, output: array<Byte>, size: nat)
    requires size <= output.Length
    modifies output
    ensures size < 3 ==> output[..] == old(output[..])
    ensures size >= 3 ==> CString(output[..]) != setting
    ensures size >= 3 ==> CString(output[..]) == [0x2A, if [0x2A, 0x30] <= setting then 0x31 else 0x30]
  {
    if size < 3 {
      return;
    }
    output[0] := 0x2A;
    output[1] := 0x30;
    output[2] := 0;
    if At(setting, 0) == 0x2A && At(setting, 1) == 0x30 {
      output[1] := 0x31;
    }
    CStringIs(output[..], 2);
  }

  /** _crypt_blowfish_rn with its self-test passing. */
  method CryptRn(key: seq<Byte>, setting: seq<Byte>, output: array<Byte>, size: nat, cipher: Cipher, little: bool)
      returns (ok: bool)
    requires CText(key) && CText(setting) && size <= output.Length
    modifies output
    ensures ok <==> size >= 61 && Crypt(key, setting, 16, cipher).Some?
    ensures ok ==> CString(output[..]) == Crypt(key, setting, 16, cipher).value
    ensures !ok && size >= 3 ==> CString(output[..]) != setting
  {
    hide Decoded, Encoded, Crypt;
    OutputMagic(setting, output, size);
    ok := BFCrypt(key, setting, output, size, 16, cipher, little);
    if ok {
      CryptShape(key, setting, 16, cipher);
      assert output[..][..60] == output[..60];
      CStringIs(output[..], 60);
    }
  }

  // ---------- bcrypt.c ----------

  /** timing_safe_strcmp: zero exactly for equal strings. */
  method TimingSafeStrcmp(s1: seq<Byte>, s2: seq<Byte>) returns (ret: int)
    ensures ret == 0 <==> s1 == s2
    ensures ret >= 0
  {
    if |s1| != |s2| {
      return 1;
    }
    var acc: Byte := 0;
    for i := 0 to |s1|
      invariant acc == 0 <==> s1[..i] == s2[..i]
    {
      DifferenceBits(acc, s1[i], s2[i]);
      acc := Accumulate(acc, s1[i], s2[i]);
      assert s1[..i + 1] == s1[..i] + [s1[i]] && s2[..i + 1] == s2[..i] + [s2[i]];
    }
    assert s1[..|s1|] == s1 && s2[..|s1|] == s2;
    ret := acc as int;
  }

  function Accumulate(ret: Byte, u1: Byte, u2: Byte): Byte { ret | (u1 ^ u2) }

  lemma DifferenceBits(ret: Byte, u1: Byte, u2: Byte)
    ensures Accumulate(ret, u1, u2) == 0 <==> ret == 0 && u1 == u2
  {}

  /** bcrypt_hashpw */
  method HashPw(passwd: seq<Byte>, salt: seq<Byte>, hash: array<Byte>, cipher: Cipher, little: bool) returns (ret: int)
    requires CText(passwd) && CText(salt) && hash.Length == HASHSIZE
    modifies hash
    ensures ret == if ValidSetting(salt, 16) then 0 else 1
    ensures ret == 0 ==> CString(hash[..]) == Crypt(passwd, salt, 16, cipher).value
    ensures ret != 0 ==> CString(hash[..]) != salt
  {
    var ok := CryptRn(passwd, salt, hash, HASHSIZE, cipher, little);
    ret := if ok then 0 else 1;
  }

  /** bcrypt_checkpw: zero exactly when the hash is what hashing the password with it as setting gives. */
  method CheckPw(passwd: seq<Byte>, hash: seq<Byte>, cipher: Cipher, little: bool) returns (ret: int)
    requires CText(passwd) && CText(hash)
    ensures ret == 0 <==> Crypt(passwd, hash, 16, cipher) == Some(hash)
    ensures ret == -1 <==> !ValidSetting(hash, 16)
  {
    hide Decoded, Encoded, ValidSetting;
    var outhash := new Byte[HASHSIZE];
    ret := HashPw(passwd, hash, outhash, cipher, little);
    if ret != 0 {
      return -1;
    }
    ret := TimingSafeStrcmp(hash, CString(outhash[..]));
  }

  /** What a caller does to store a password and to verify it later. */
  lemma CheckAfterHash(passwd: seq<Byte>, salt: seq<Byte>, hash: seq<Byte>, cipher: Cipher)
    requires Crypt(passwd, salt, 16, cipher) == Some(hash)
    ensures CText(hash) && |hash| < HASHSIZE && Crypt(passwd, hash, 16, cipher) == Some(hash)
  {
    CryptShape(passwd, salt, 16, cipher);
    RehashIsFixed(passwd, salt, 16, cipher);
  }

  // ---------- Salt generation ----------

  /** The setting of a prefix letter, a cost and 16 random bytes. */
  function Setting(letter: Byte, cost: nat, input: seq<Byte>): seq<Byte>
    requires cost < 100 && |input| >= SALT_BYTES
  {
    [0x24, 0x32, letter, 0x24, DigitByte(cost / 10), DigitByte(cost % 10), 0x24] + Encoded(input[..SALT_BYTES])
  }

  /** _crypt_gensalt_blowfish_rn */
  method GensaltBlowfish(prefix: seq<Byte>, count: nat, input: seq<Byte>, output: array<Byte>, outputSize: nat)
      returns (ok: bool)
    requires outputSize <= output.Length
    modifies output
    ensures ok <==> |input| >= 16 && outputSize >= 30 && (count == 0 || 4 <= count <= 31) &&
                    |prefix| >= 3 && prefix[..2] == [0x24, 0x32] && prefix[2] in {0x61, 0x62, 0x79}
    ensures ok ==> output[..29] == Setting(prefix[2], if count == 0 then 5 else count, input) && output[29] == 0
    ensures !ok && outputSize > 0 ==> output[0] == 0
  {
    hide Encoded, DigitByte;
    if |input| < 16 || outputSize < 7 + 22 + 1 ||
       (count != 0 && (count < 4 || count > 31)) ||
       At(prefix, 0) != 0x24 || At(prefix, 1) != 0x32 ||
       (At(prefix, 2) != 0x61 && At(prefix, 2) != 0x62 && At(prefix, 2) != 0x79)
    {
      if outputSize > 0 { output[0] := 0; }
      assert |prefix| >= 3 ==> prefix[..2] == [prefix[0], prefix[1]];
      return false;
    }
    assert prefix[..2] == [prefix[0], prefix[1]];
    var c := if count == 0 then 5 else count;
    WriteHeader(output, prefix[2], c);
    ghost var head := output[..7];
    BFEncode(output, 7, input, 16);
    output[7 + 22] := 0;
    assert output[..7] == head;
    assert output[..29] == output[..7] + output[7..29];
    return true;
  }

  method WriteHeader(output: array<Byte>, letter: Byte, cost: nat)
    requires output.Length >= 7 && cost < 100
    modifies output
    ensures output[..7] == [0x24, 0x32, letter, 0x24, DigitByte(cost / 10), DigitByte(cost % 10), 0x24]
  {
    output[0] := 0x24;
    output[1] := 0x32;
    output[2] := letter;
    output[3] := 0x24;
    output[4] := DigitByte(cost / 10);
    output[5] := DigitByte(cost % 10);
    output[6] := 0x24;
  }

  /** Every generated setting is valid, and stands for the cost and the bytes it was made from. */
  lemma GeneratedIsValid(letter: Byte, cost: nat, input: seq<Byte>)
    requires letter in {0x61, 0x62, 0x79} && 4 <= cost <= 31 && |input| >= SALT_BYTES
    ensures ValidSetting(Setting(letter, cost, input), 16) && CText(Setting(letter, cost, input))
    ensures Cost(Setting(letter, cost, input)) == cost
    ensures Decoded(Setting(letter, cost, input), 7, SALT_BYTES) == Some(input[..SALT_BYTES])
  {
    hide Encoded, Decoded;
    var s := Setting(letter, cost, input);
    EncodedShape(input[..SALT_BYTES]);
    assert s[7..29] == Encoded(input[..SALT_BYTES]);
    DecodeEncode(input[..SALT_BYTES], s, 7);
    Digits(cost / 10);
    Digits(cost % 10);
    Pow2Monotone(4, cost);
    assert Pow2(4) == 16;
  }

  lemma Digits(d: nat)
    requires d < 10
    ensures DigitValue(DigitByte(d)) == d && 0x30 <= DigitByte(d) <= 0x39
    ensures d <= 3 ==> DigitByte(d) <= 0x33
    ensures d <= 1 ==> DigitByte(d) <= 0x31
    ensures d < 3 ==> DigitByte(d) != 0x33
  {}

  /** bcrypt_gensalt, given the random bytes: factors out of range become 12. */
  method Gensalt(factor: int, input: seq<Byte>, salt: array<Byte>) returns (ret: int)
    requires |input| == SALT_BYTES && salt.Length == HASHSIZE
    modifies salt
    ensures ret == 0 && CString(salt[..]) == Setting(0x62, if factor < 4 || factor > 31 then 12 else factor, input)
  {
    hide Encoded, Decoded, Setting;
    var workf := if factor < 4 || factor > 31 then 12 else factor;
    var ok := GensaltBlowfish([0x24, 0x32, 0x62, 0x24], workf, input, salt, HASHSIZE);
    GeneratedIsValid(0x62, workf, input);
    assert salt[..][..29] == salt[..29];
    CStringIs(salt[..], 29);
    ret := if ok then 0 else 5;
  }

  /** From a generated salt through hashing to checking: every step succeeds. */
  method HashAndCheck(passwd: seq<Byte>, factor: int, input: seq<Byte>, cipher: Cipher, little: bool) returns (ret: int)
    requires CText(passwd) && |input| == SALT_BYTES
    ensures ret == 0
  {
    hide Encoded, Decoded, Setting, ValidSetting, Digest;
    var salt, hash := new Byte[HASHSIZE], new Byte[HASHSIZE];
    ret := Gensalt(factor, input, salt);
    GeneratedIsValid(0x62, if factor < 4 || factor > 31 then 12 else factor, input);
    ret := HashPw(passwd, CString(salt[..]), hash, cipher, little);
    CheckAfterHash(passwd, CString(salt[..]), CString(hash[..]), cipher);
    ret := CheckPw(passwd, CString(hash[..]), cipher, little);
  }
}
