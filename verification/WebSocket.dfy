/**
 WebSocket frames (section 5.2 of RFC 6455): the header written for sending, the header decoded from
 a buffer that may end anywhere, and the loop that consumes frames from the read buffer. Bytes are
 integers; the bit-or of disjoint fields is written as a sum.
 */
module WebSocket {
  import opened Options

  type Byte = b: int | 0 <= b < 256

  const CLOSE := 8
  const BUFFER_SIZE := 16 * 1024

  // ---------- Big-endian numbers ----------

  function Pow256(k: nat): nat
  {
    if k == 0 then 1 else 256 * Pow256(k - 1)
  }

  function BigEndian(n: nat, k: nat): (b: seq<Byte>)
    ensures |b| == k
  {
    if k == 0 then [] else BigEndian(n / 256, k - 1) + [n % 256]
  }

  function Value(b: seq<Byte>): nat
  {
    if b == [] then 0 else Value(b[..|b| - 1]) * 256 + b[|b| - 1]
  }

  lemma {:induction false} ValueOfBigEndian(n: nat, k: nat)
    requires n < Pow256(k)
    ensures Value(BigEndian(n, k)) == n
  {
    if k > 0 {
      ValueOfBigEndian(n / 256, k - 1);
      assert BigEndian(n, k)[..k - 1] == BigEndian(n / 256, k - 1);
    }
  }

  lemma {:induction false} BigEndianOfValue(b: seq<Byte>)
    ensures Value(b) < Pow256(|b|) && BigEndian(Value(b), |b|) == b
  {
    if b != [] {
      BigEndianOfValue(b[..|b| - 1]);
    }
  }

  // ---------- Frames on the wire ----------

  datatype Frame = Frame(flags: Byte, opcode: Byte, maskingKey: Option<nat>, payload: seq<Byte>)

  /** The three ways to give a payload length; a sender should take the shortest that fits. */
  datatype LengthForm = Short | Medium | Long

  predicate ValidFrame(f: Frame)
  {
    f.opcode < 16 && f.flags % 16 == 0 && (f.maskingKey.Some? ==> f.maskingKey.value < Pow256(4))
  }

  predicate Fits(n: nat, form: LengthForm)
  {
    match form
    case Short => n <= 125
    case Medium => n < Pow256(2)
    case Long => n < Pow256(8)
  }

  function LengthField(n: nat, form: LengthForm): (b: nat)
    requires Fits(n, form)
    ensures b < 128
  {
    match form
    case Short => n
    case Medium => 126
    case Long => 127
  }

  function Extension(n: nat, form: LengthForm): seq<Byte>
  {
    match form
    case Short => []
    case Medium => BigEndian(n, 2)
    case Long => BigEndian(n, 8)
  }

  function MaskBytes(key: Option<nat>): seq<Byte>
  {
    if key.Some? then BigEndian(key.value, 4) else []
  }

  function HeaderBytes(f: Frame, form: LengthForm): seq<Byte>
    requires ValidFrame(f) && Fits(|f.payload|, form)
  {
    [f.flags + f.opcode, (if f.maskingKey.Some? then 128 else 0) + LengthField(|f.payload|, form)]
    + Extension(|f.payload|, form) + MaskBytes(f.maskingKey)
  }

  function Encoded(f: Frame, form: LengthForm): seq<Byte>
    requires ValidFrame(f) && Fits(|f.payload|, form)
  {
    HeaderBytes(f, form) + f.payload
  }

  // ---------- decode_header ----------

  /** headerSize is zero unless the whole frame is there. */
  datatype Header = Header(headerSize: nat, flags: Byte, opcode: Byte, payloadSize: nat, maskingKey: Option<nat>)

  function ExtensionSize(s: seq<Byte>): nat
    requires |s| >= 2
  {
    if s[1] % 128 == 126 then 2 else if s[1] % 128 == 127 then 8 else 0
  }

  function PayloadSize(s: seq<Byte>): nat
    requires |s| >= 2 && |s| >= 2 + ExtensionSize(s)
  {
    if ExtensionSize(s) == 0 then s[1] % 128 else Value(s[2..2 + ExtensionSize(s)])
  }

  function MaskSize(s: seq<Byte>): nat
    requires |s| >= 2
  {
    if s[1] >= 128 then 4 else 0
  }

  /** What decode_header finds, by the layout of the header. */
  function Decode(s: seq<Byte>): Header
  {
    if |s| < 2 then Header(0, 0, 0, 0, None)
    else
      var (flags, opcode) := (s[0] / 16 * 16, s[0] % 16);
      var e := 2 + ExtensionSize(s);
      var h := e + MaskSize(s);
      if |s| < e then Header(0, flags, opcode, s[1] % 128, None)
      else if |s| < h then Header(0, flags, opcode, PayloadSize(s), None)
      else Header(if |s| - h >= PayloadSize(s) then h else 0, flags, opcode, PayloadSize(s),
                  if MaskSize(s) == 0 then None else Some(Value(s[e..h])))
  }

  /** The shifts of decode_header. */
  function Two(b0: nat, b1: nat): nat { b0 * 0x100 + b1 }

  function Four(b0: nat, b1: nat, b2: nat, b3: nat): nat
  {
    b0 * 0x1000000 + b1 * 0x10000 + b2 * 0x100 + b3
  }

  function Eight(b0: nat, b1: nat, b2: nat, b3: nat, b4: nat, b5: nat, b6: nat, b7: nat): nat
  {
    b0 * 0x100000000000000 + b1 * 0x1000000000000 + b2 * 0x10000000000 + b3 * 0x100000000
    + b4 * 0x1000000 + b5 * 0x10000 + b6 * 0x100 + b7
  }

  lemma ValueTwo(b: seq<Byte>)
    requires |b| == 2
    ensures Value(b) == Two(b[0], b[1])
  {
    assert Value(b[..1]) == b[0];
  }

  lemma ValueStep(b: seq<Byte>, k: nat)
    requires k < |b|
    ensures Value(b[..k + 1]) == Value(b[..k]) * 256 + b[k]
  {
    assert b[..k + 1][..k] == b[..k];
  }

  lemma ValueFour(b: seq<Byte>)
    requires |b| == 4
    ensures Value(b) == Four(b[0], b[1], b[2], b[3])
  {
    ValueStep(b, 0);
    ValueStep(b, 1);
    ValueStep(b, 2);
    ValueStep(b, 3);
    assert b[..4] == b;
  }

  lemma ValueEight(b: seq<Byte>)
    requires |b| == 8
    ensures Value(b) == Eight(b[0], b[1], b[2], b[3], b[4], b[5], b[6], b[7])
  {
    ValueFour(b[..4]);
    ValueSplit(b[..4], b[4..]);
    ValueFour(b[4..]);
    assert b == b[..4] + b[4..];
  }

  lemma ValueSplit(a: seq<Byte>, b: seq<Byte>)
    requires |b| == 4
    ensures Value(a + b) == Value(a) * 0x100000000 + Value(b)
  {
    var s := a + b;
    ValueStep(s, |a|);
    ValueStep(s, |a| + 1);
    ValueStep(s, |a| + 2);
    ValueStep(s, |a| + 3);
    ValueFour(b);
    assert s[..|a|] == a && s[..|a| + 4] == s;
  }

  /** decode_header: the cursor d moves over the size bytes at the start of the buffer. */
  method DecodeHeader(data: array<Byte>, size: nat) returns (header: Header)
    requires size <= data.Length
    ensures header == Decode(data[..size])
  {
    hide Value, Two, Four, Eight;
    ghost var s := data[..size];
    header := Header(0, 0, 0, 0, None);
    if size < 2 {
      return;
    }
    header := header.(opcode := data[0] % 16, flags := data[0] / 16 * 16);
    var isMasked := data[1] / 128 != 0;
    header := header.(payloadSize := data[1] % 128);
    var d, left := 2, size - 2;

    if header.payloadSize == 126 {
      if left < 2 {
        return;
      }
      ValueTwo(s[2..4]);
      header := header.(payloadSize := Two(data[d], data[d + 1]));
      d, left := d + 2, left - 2;
    } else if header.payloadSize == 127 {
      if left < 8 {
        return;
      }
      ValueEight(s[2..10]);
      header := header.(payloadSize :=
        Eight(data[d], data[d + 1], data[d + 2], data[d + 3], data[d + 4], data[d + 5], data[d + 6], data[d + 7]));
      d, left := d + 8, left - 8;
    }
    assert d == 2 + ExtensionSize(s) && header.payloadSize == PayloadSize(s);

    if isMasked {
      if left < 4 {
        return;
      }
      ValueFour(s[d..d + 4]);
      header := header.(maskingKey := Some(Four(data[d], data[d + 1], data[d + 2], data[d + 3])));
      d, left := d + 4, left - 4;
    }

    if left >= header.payloadSize {
      header := header.(headerSize := d);
    }
  }

  // ---------- Decoding inverts encoding ----------

  function FormOf(s: seq<Byte>): LengthForm
    requires |s| >= 2
  {
    if ExtensionSize(s) == 0 then Short else if ExtensionSize(s) == 2 then Medium else Long
  }

  function FrameSize(h: Header): nat { h.headerSize + h.payloadSize }

  function FrameAt(s: seq<Byte>): Frame
    requires Decode(s).headerSize > 0
  {
    var h := Decode(s);
    Frame(h.flags, h.opcode, h.maskingKey, s[h.headerSize..FrameSize(h)])
  }

  /** The parts of an encoded frame, wherever its bytes end up. */
  lemma Layout(f: Frame, form: LengthForm, s: seq<Byte>)
    requires ValidFrame(f) && Fits(|f.payload|, form) && Encoded(f, form) <= s
    ensures var x, m := |Extension(|f.payload|, form)|, |MaskBytes(f.maskingKey)|;
            |s| >= 2 + x + m + |f.payload| && ExtensionSize(s) == x && MaskSize(s) == m &&
            s[0] == f.flags + f.opcode && s[1] % 128 == LengthField(|f.payload|, form) &&
            s[2..2 + x] == Extension(|f.payload|, form) && s[2 + x..2 + x + m] == MaskBytes(f.maskingKey) &&
            s[2 + x + m..2 + x + m + |f.payload|] == f.payload
  {
    var e := Encoded(f, form);
    var x, m := |Extension(|f.payload|, form)|, |MaskBytes(f.maskingKey)|;
    assert s[..|e|] == e;
    assert s[0] == e[0] && s[1] == e[1];
    assert s[2..2 + x] == e[2..2 + x] == Extension(|f.payload|, form);
    assert s[2 + x..2 + x + m] == e[2 + x..2 + x + m] == MaskBytes(f.maskingKey);
    assert s[2 + x + m..2 + x + m + |f.payload|] == e[2 + x + m..] == f.payload;
  }

  /** A complete frame is decoded as itself, whatever follows it. */
  lemma DecodeEncoded(f: Frame, form: LengthForm, s: seq<Byte>)
    requires ValidFrame(f) && Fits(|f.payload|, form) && Encoded(f, form) <= s
    ensures Decode(s) == Header(|HeaderBytes(f, form)|, f.flags, f.opcode, |f.payload|, f.maskingKey)
    ensures FrameAt(s) == f && FrameSize(Decode(s)) == |Encoded(f, form)|
  {
    hide Value, BigEndian, Pow256, Encoded;
    Layout(f, form, s);
    EncodedSize(f, form);
    match form {
      case Short =>
      case Medium => ValueOfBigEndian(|f.payload|, 2);
      case Long => ValueOfBigEndian(|f.payload|, 8);
    }
    if f.maskingKey.Some? {
      ValueOfBigEndian(f.maskingKey.value, 4);
    }
  }

  lemma EncodedSize(f: Frame, form: LengthForm)
    requires ValidFrame(f) && Fits(|f.payload|, form)
    ensures |Encoded(f, form)| == |HeaderBytes(f, form)| + |f.payload|
  {}

  /** Decoding reads no further than what it has decided on so far. */
  lemma DecodePrefix(s: seq<Byte>, t: seq<Byte>)
    requires s <= t
    ensures Decode(s).headerSize > 0 ==> Decode(t) == Decode(s) && FrameAt(t) == FrameAt(s)
    ensures Decode(s).headerSize == 0 && Decode(t).headerSize > 0 ==> |s| < FrameSize(Decode(t))
  {
    hide Value;
    if |s| >= 2 {
      var e := 2 + ExtensionSize(s);
      var h := e + MaskSize(s);
      assert s[0] == t[0] && s[1] == t[1];
      if |s| >= e { assert s[2..e] == t[2..e]; }
      if |s| >= h {
        assert s[e..h] == t[e..h];
        if |s| >= h + PayloadSize(s) {
          assert s[h..h + PayloadSize(s)] == t[h..h + PayloadSize(s)];
        }
      }
    }
  }

  /** Every proper prefix of a frame is reported as incomplete. */
  lemma PrefixIncomplete(f: Frame, form: LengthForm, k: nat)
    requires ValidFrame(f) && Fits(|f.payload|, form) && k < |Encoded(f, form)|
    ensures Decode(Encoded(f, form)[..k]).headerSize == 0
  {
    hide Encoded, Decode;
    var e := Encoded(f, form);
    DecodeEncoded(f, form, e);
    DecodePrefix(e[..k], e);
    if Decode(e[..k]).headerSize > 0 {
      DecodeBounds(e[..k]);
    }
  }

  lemma DecodeBounds(s: seq<Byte>)
    ensures Decode(s).headerSize > 0 ==> 2 <= Decode(s).headerSize && FrameSize(Decode(s)) <= |s|
  {
    hide Value;
  }

  /** What is decoded as complete is the encoding of the frame found, in one of the three length forms. */
  lemma EncodedDecode(s: seq<Byte>)
    requires Decode(s).headerSize > 0
    ensures |s| >= 2 && ValidFrame(FrameAt(s)) && Fits(|FrameAt(s).payload|, FormOf(s))
    ensures Encoded(FrameAt(s), FormOf(s)) == s[..FrameSize(Decode(s))]
  {
    hide Value, BigEndian, Pow256;
    var (f, form) := (FrameAt(s), FormOf(s));
    var e := 2 + ExtensionSize(s);
    var h := e + MaskSize(s);
    BigEndianOfValue(s[2..e]);
    BigEndianOfValue(s[e..h]);
    assert |f.payload| == PayloadSize(s);
    assert Extension(|f.payload|, form) == s[2..e];
    assert MaskBytes(f.maskingKey) == s[e..h];
    assert s[..FrameSize(Decode(s))] == [s[0], s[1]] + s[2..e] + s[e..h] + f.payload;
  }

  // ---------- generate_header ----------

  /** The shortest form that fits. */
  function ShortestForm(n: nat): LengthForm
  {
    if n <= 125 then Short else if n <= 65535 then Medium else Long
  }

  /** generate_header: an unmasked header in the shortest form; nothing else is written. */
  method GenerateHeader(header: array<Byte>, opcode: Byte, flags: Byte, payload: seq<Byte>) returns (size: nat)
    requires header.Length >= 10 && opcode < 16 && flags % 16 == 0 && |payload| < Pow256(8)
    modifies header
    ensures Fits(|payload|, ShortestForm(|payload|)) && size <= 10
    ensures header[..size] == HeaderBytes(Frame(flags, opcode, None, payload), ShortestForm(|payload|))
    ensures header[size..] == old(header[size..])
  {
    hide Pow256;
    Powers();
    var n := |payload|;
    header[0] := opcode + flags;
    if n <= 125 {
      header[1] := n;
      return 2;
    } else if n <= 65535 {
      header[1] := 126;
      header[2] := n / 0x100;
      header[3] := n % 0x100;
      EndianTwo(n);
      return 4;
    } else {
      EndianEight(n);
      WriteLength(header, n);
      return 10;
    }
  }

  method WriteLength(header: array<Byte>, n: nat)
    requires header.Length >= 10 && n < 0x10000000000000000
    modifies header
    ensures header[0] == old(header[0]) && header[10..] == old(header[10..])
    ensures header[1] == 127
            && header[2..10] ==
            [n / 0x100000000000000, n / 0x1000000000000 % 256, n / 0x10000000000 % 256, n / 0x100000000 % 256,
                                                  n / 0x1000000 % 256, n / 0x10000 % 256, n / 0x100 % 256, n % 256]
  {
    header[1] := 127;
    header[2] := n / 0x100000000000000;
    header[3] := n / 0x1000000000000 % 256;
    header[4] := n / 0x10000000000 % 256;
    header[5] := n / 0x100000000 % 256;
    header[6] := n / 0x1000000 % 256;
    header[7] := n / 0x10000 % 256;
    header[8] := n / 0x100 % 256;
    header[9] := n % 256;
  }

  lemma Powers()
    ensures Pow256(2) == 0x10000 && Pow256(4) == 0x100000000 && Pow256(8) == 0x10000000000000000
  {
    assert Pow256(3) == 0x1000000;
    assert Pow256(5) == 0x10000000000;
    assert Pow256(6) == 0x1000000000000;
    assert Pow256(7) == 0x100000000000000;
  }

  lemma EndianTwo(n: nat)
    requires n < 0x10000
    ensures BigEndian(n, 2) == [n / 0x100, n % 0x100]
  {
    assert BigEndian(n / 256, 1) == [n / 256];
  }

  lemma EndianEight(n: nat)
    requires n < 0x10000000000000000
    ensures BigEndian(n, 8) ==
            [n / 0x100000000000000, n / 0x1000000000000 % 256, n / 0x10000000000 % 256, n / 0x100000000 % 256,
                                n / 0x1000000 % 256, n / 0x10000 % 256, n / 0x100 % 256, n % 256]
  {
    assert BigEndian(n / 0x100000000000000, 1) == [n / 0x100000000000000];
    assert BigEndian(n / 0x1000000000000, 2) == BigEndian(n / 0x100000000000000, 1) + [n / 0x1000000000000 % 256];
    assert BigEndian(n / 0x10000000000, 3) == BigEndian(n / 0x1000000000000, 2) + [n / 0x10000000000 % 256];
    assert BigEndian(n / 0x100000000, 4) == BigEndian(n / 0x10000000000, 3) + [n / 0x100000000 % 256];
    assert BigEndian(n / 0x1000000, 5) == BigEndian(n / 0x100000000, 4) + [n / 0x1000000 % 256];
    assert BigEndian(n / 0x10000, 6) == BigEndian(n / 0x1000000, 5) + [n / 0x10000 % 256];
    assert BigEndian(n / 0x100, 7) == BigEndian(n / 0x10000, 6) + [n / 0x100 % 256];
  }

  // ---------- The frames of a stream ----------

  /** The frames at the start of a stream up to a close frame, and the bytes left over. */
  datatype Split = Split(frames: seq<Frame>, rest: seq<Byte>, closed: bool)

  function Frames(s: seq<Byte>): Split
    decreases |s|
  {
    DecodeBounds(s);
    if Decode(s).headerSize == 0 then Split([], s, false)
    else
      var rest := s[FrameSize(Decode(s))..];
      if FrameAt(s).opcode == CLOSE then Split([FrameAt(s)], rest, true)
      else
        var t := Frames(rest);
        Split([FrameAt(s)] + t.frames, t.rest, t.closed)
  }

  /** More bytes never change the frames already found, and add those of the leftover with the new bytes. */
  lemma {:induction false} FramesAppend(s: seq<Byte>, t: seq<Byte>)
    ensures Frames(s).closed ==> Frames(s + t) == Split(Frames(s).frames, Frames(s).rest + t, true)
    ensures !Frames(s).closed ==>
              var u := Frames(Frames(s).rest + t);
              Frames(s + t) == Split(Frames(s).frames + u.frames, u.rest, u.closed)
    decreases |s|
  {
    hide Decode;
    DecodeBounds(s);
    DecodePrefix(s, s + t);
    if Decode(s).headerSize > 0 {
      var n := FrameSize(Decode(s));
      assert (s + t)[n..] == s[n..] + t;
      if FrameAt(s).opcode != CLOSE {
        FramesAppend(s[n..], t);
      }
    } else {
      assert [] + Frames(s + t).frames == Frames(s + t).frames;
    }
  }

  /** The bytes of frames sent one after the other. */
  function Stream(fs: seq<Frame>, forms: seq<LengthForm>): seq<Byte>
    requires |fs| == |forms| && forall i :: 0 <= i < |fs| ==> ValidFrame(fs[i]) && Fits(|fs[i].payload|, forms[i])
  {
    if fs == [] then [] else Encoded(fs[0], forms[0]) + Stream(fs[1..], forms[1..])
  }

  /** Exactly the frames that were sent are found, and nothing is left over. */
  lemma {:induction false} FramesOfStream(fs: seq<Frame>, forms: seq<LengthForm>)
    requires |fs| == |forms| && forall i :: 0 <= i < |fs| ==>
             ValidFrame(fs[i]) && Fits(|fs[i].payload|, forms[i]) && fs[i].opcode != CLOSE
    ensures Frames(Stream(fs, forms)) == Split(fs, [], false)
    decreases |fs|
  {
    hide Decode, Encoded, Fits;
    if fs == [] {
      DecodeBounds([]);
    } else {
      var s := Stream(fs, forms);
      DecodeEncoded(fs[0], forms[0], s);
      DecodeBounds(s);
      assert s[|Encoded(fs[0], forms[0])|..] == Stream(fs[1..], forms[1..]);
      FramesOfStream(fs[1..], forms[1..]);
    }
  }

  /** A frame with opcode 8 ends the connection, and a frame with any other opcode does not. */
  lemma OpcodeEightCloses(f: Frame, form: LengthForm, rest: seq<Byte>)
    requires ValidFrame(f) && Fits(|f.payload|, form)
    ensures Frames(Encoded(f, form) + rest) ==
            if f.opcode == 8 then Split([f], rest, true)
            else Split([f] + Frames(rest).frames, Frames(rest).rest, Frames(rest).closed)
  {
    hide Decode, Encoded, Fits, ValidFrame;
    var s := Encoded(f, form) + rest;
    assert Encoded(f, form) <= s && s[|Encoded(f, form)|..] == rest;
    DecodeEncoded(f, form, s);
    DecodeBounds(s);
    FramesStep(s);
  }

  /** Examples of section 5.7 of RFC 6455: a text, and the same masked. */
  lemma RfcTexts()
    ensures var hello := [0x48, 0x65, 0x6c, 0x6c, 0x6f];
            Encoded(Frame(0x80, 1, None, hello), Short) == [0x81, 0x05, 0x48, 0x65, 0x6c, 0x6c, 0x6f]
    ensures var masked := [0x7f, 0x9f, 0x4d, 0x51, 0x58];
            0x37fa213d < Pow256(4) && Encoded(Frame(0x80, 1, Some(0x37fa213d), masked), Short) ==
            [0x81, 0x85, 0x37, 0xfa, 0x21, 0x3d, 0x7f, 0x9f, 0x4d, 0x51, 0x58]
  {
    hide Pow256, BigEndian;
    Powers();
    RfcMask();
  }

  lemma RfcMask()
    ensures BigEndian(0x37fa213d, 4) == [0x37, 0xfa, 0x21, 0x3d]
  {
    assert BigEndian(0x37, 1) == [0x37];
    assert BigEndian(0x37fa, 2) == [0x37, 0xfa];
    assert BigEndian(0x37fa21, 3) == [0x37, 0xfa, 0x21];
  }

  /** And the headers of 256 and of 65536 bytes. */
  lemma RfcLengths(mid: seq<Byte>, big: seq<Byte>)
    requires |mid| == 256 && |big| == 65536
    ensures Fits(256, Medium) && HeaderBytes(Frame(0x80, 2, None, mid), Medium) == [0x82, 0x7E, 0x01, 0x00]
    ensures Fits(65536, Long) && HeaderBytes(Frame(0x80, 2, None, big), Long) ==
            [0x82, 0x7F, 0x00, 0x00, 0x00, 0x00, 0x00, 0x01, 0x00, 0x00]
  {
    hide Pow256, BigEndian;
    Powers();
    EndianTwo(256);
    EndianEight(65536);
  }

  // ---------- The read loop of a connected client ----------

  datatype LoopStep = Incomplete | Closed | Outside | Consumed

  class Client {
    const readBuffer: array<Byte>
    var bufferedBytes: nat
    ghost var received: seq<Byte>
    ghost var handled: seq<Frame>

    ghost predicate Valid()
      reads this, readBuffer
    {
      && readBuffer.Length == BUFFER_SIZE && bufferedBytes <= BUFFER_SIZE
      && Frames(received) == Split(handled, readBuffer[..bufferedBytes], false)
    }

    constructor ()
      ensures Valid() && received == [] && handled == [] && bufferedBytes == 0 && fresh(readBuffer)
    {
      readBuffer := new Byte[BUFFER_SIZE];
      bufferedBytes := 0;
      received, handled := [], [];
      new;
      DecodeBounds([]);
    }

    /**
     service() as written, given what the socket had to read: Some(false) ends the connection, and None
     stands for a move that leaves the buffer, after which nothing is defined.
     */
    method Service(chunk: seq<Byte>) returns (goOn: Option<bool>)
      requires Valid() && |chunk| <= BUFFER_SIZE - bufferedBytes
      modifies this, readBuffer
      ensures goOn.Some? <==> MovesInside(old(readBuffer[..bufferedBytes]) + chunk)
      ensures goOn.Some? ==>
                && received == old(received) + chunk && handled == Frames(received).frames
                && (goOn.value ==> Valid() && bufferedBytes < BUFFER_SIZE)
                && (goOn.value <==> chunk != [] && !Frames(received).closed && |Frames(received).rest| < BUFFER_SIZE)
    {
      goOn := Process(chunk, true);
    }

    /** service() with the move that its comment describes: never leaves the buffer. */
    method ServiceAsIntended(chunk: seq<Byte>) returns (goOn: bool)
      requires Valid() && |chunk| <= BUFFER_SIZE - bufferedBytes
      modifies this, readBuffer
      ensures received == old(received) + chunk && handled == Frames(received).frames
      ensures goOn ==> Valid() && bufferedBytes < BUFFER_SIZE
      ensures goOn <==> chunk != [] && !Frames(received).closed && |Frames(received).rest| < BUFFER_SIZE
    {
      var r := Process(chunk, false);
      goOn := r.value;
    }

    /** The loop over the frames, with the byte count of the source or with the intended one. */
    method Process(chunk: seq<Byte>, asWritten: bool) returns (goOn: Option<bool>)
      requires Valid() && |chunk| <= BUFFER_SIZE - bufferedBytes
      modifies this, readBuffer
      ensures goOn.None? <==> asWritten && !MovesInside(old(readBuffer[..bufferedBytes]) + chunk)
      ensures goOn.Some? ==>
                && received == old(received) + chunk && handled == Frames(received).frames
                && (goOn.value ==> Valid() && bufferedBytes < BUFFER_SIZE)
                && (goOn.value <==> chunk != [] && !Frames(received).closed && |Frames(received).rest| < BUFFER_SIZE)
    {
      hide Frames, Decode, MovesInside, MoveInside;
      ghost var start := readBuffer[..bufferedBytes];
      if |chunk| == 0 {
        assert received + chunk == received && start + chunk == start;
        NothingMoves(received, start);
        return Some(false);
      }
      ghost var before := handled;
      Receive(chunk);
      FramesAppend(received, chunk);
      received := received + chunk;
      ghost var whole := start + chunk;
      ghost var done: seq<Frame> := [];
      while true
        invariant bufferedBytes <= BUFFER_SIZE && handled == before + done && received == old(received) + chunk
        invariant Continues(whole, done, readBuffer[..bufferedBytes])
        invariant asWritten ==> (MovesInside(whole) <==> MovesInside(readBuffer[..bufferedBytes]))
        decreases bufferedBytes
      {
        ghost var now := readBuffer[..bufferedBytes];
        var step := OneFrame(asWritten);
        MovesStep(now);
        if step == Incomplete {
          break;
        }
        done := done + [FrameAt(now)];
        assert before + done == handled;
        if step == Closed {
          return Some(false);
        } else if step == Outside {
          return None;
        }
      }
      return Some(bufferedBytes != BUFFER_SIZE);
    }

    /** One turn of the loop. */
    method OneFrame(asWritten: bool) returns (step: LoopStep)
      requires readBuffer.Length == BUFFER_SIZE && bufferedBytes <= BUFFER_SIZE
      modifies this`bufferedBytes, this`handled, readBuffer
      ensures bufferedBytes <= BUFFER_SIZE
      ensures var now := old(readBuffer[..bufferedBytes]);
              var h := Decode(now);
              && (step == Incomplete <==> h.headerSize == 0)
              && (step == Incomplete ==>
                  handled == old(handled) && readBuffer[..bufferedBytes] == now && Frames(now) == Split([], now, false))
              && (step != Incomplete ==>
                    && FrameSize(h) <= |now| && handled == old(handled) + [FrameAt(now)]
                    && (step == Closed <==> FrameAt(now).opcode == CLOSE)
                    && (step == Closed ==> Frames(now) == Split([FrameAt(now)], now[FrameSize(h)..], true))
                    && (step == Outside <==> FrameAt(now).opcode != CLOSE && asWritten && !MoveInside(h, |now|))
                    && (step == Consumed ==>
                          && bufferedBytes < old(bufferedBytes) && readBuffer[..bufferedBytes] == now[FrameSize(h)..]
                          && Continues(now, [FrameAt(now)], now[FrameSize(h)..])))
    {
      hide Frames, Decode, MoveInside;
      ghost var now := readBuffer[..bufferedBytes];
      FramesStep(now);
      DecodeBounds(now);
      var header := DecodeHeader(readBuffer, bufferedBytes);
      if header.headerSize == 0 {
        return Incomplete;
      }
      handled := handled + [FrameAt(now)];
      if header.opcode == CLOSE {
        return Closed;
      }
      if asWritten && !MoveInside(header, bufferedBytes) {
        return Outside;
      }
      MoveBounds(header, bufferedBytes);
      Slide(FrameSize(header), if asWritten then MoveCount(header, bufferedBytes)
          else bufferedBytes - FrameSize(header));
      return Consumed;
    }

    /** The socket writes behind what is buffered. */
    method Receive(chunk: seq<Byte>)
      requires bufferedBytes + |chunk| <= readBuffer.Length
      modifies this`bufferedBytes, readBuffer
      ensures bufferedBytes == old(bufferedBytes) + |chunk|
      ensures readBuffer[..bufferedBytes] == old(readBuffer[..bufferedBytes]) + chunk
    {
      for i := 0 to |chunk|
        invariant bufferedBytes == old(bufferedBytes)
        invariant readBuffer[..bufferedBytes + i] == old(readBuffer[..bufferedBytes]) + chunk[..i]
      {
        readBuffer[bufferedBytes + i] := chunk[i];
        assert readBuffer[..bufferedBytes + i + 1] == readBuffer[..bufferedBytes + i] + [chunk[i]];
      }
      bufferedBytes := bufferedBytes + |chunk|;
    }

    /** memmove of `count` bytes from offset n to the front; those behind the consumed frame are among them. */
    method Slide(n: nat, count: nat)
      requires n <= bufferedBytes <= n + count <= readBuffer.Length
      modifies this`bufferedBytes, readBuffer
      ensures bufferedBytes == old(bufferedBytes) - n
      ensures readBuffer[..bufferedBytes] == old(readBuffer[n..bufferedBytes])
      ensures readBuffer[..count] == old(readBuffer[n..n + count]) && readBuffer[count..] == old(readBuffer[count..])
    {
      ghost var was := readBuffer[..];
      for i := 0 to count
        invariant bufferedBytes == old(bufferedBytes)
        invariant forall k :: 0 <= k < i ==> readBuffer[k] == was[n + k]
        invariant forall k :: i <= k < readBuffer.Length ==> readBuffer[k] == was[k]
      {
        readBuffer[i] := readBuffer[n + i];
      }
      assert readBuffer[..count] == was[n..n + count] == old(readBuffer[n..n + count]);
      assert readBuffer[count..] == was[count..] == old(readBuffer[count..]);
      bufferedBytes := bufferedBytes - n;
    }
  }

  /** After `done` frames of `whole`, `left` remains to be split. */
  ghost predicate Continues(whole: seq<Byte>, done: seq<Frame>, left: seq<Byte>)
  {
    Frames(whole) == Split(done + Frames(left).frames, Frames(left).rest, Frames(left).closed)
  }

  lemma FramesStep(s: seq<Byte>)
    ensures Decode(s).headerSize == 0 ==> Frames(s) == Split([], s, false)
    ensures Decode(s).headerSize > 0 && FrameSize(Decode(s)) <= |s| ==>
              var rest := s[FrameSize(Decode(s))..];
              Frames(s) == if FrameAt(s).opcode == CLOSE then Split([FrameAt(s)], rest, true)
                           else Split([FrameAt(s)] + Frames(rest).frames, Frames(rest).rest, Frames(rest).closed)
  {
    hide Decode;
  }

  // ---------- The move as written ----------

  /** The byte count that the source gives to memmove. */
  function MoveCount(h: Header, buffered: nat): nat
    requires h.headerSize <= buffered
  {
    buffered - h.headerSize + h.payloadSize
  }

  /** Neither the bytes read nor the bytes written by the move leave the buffer. */
  predicate MoveInside(h: Header, buffered: nat)
    requires h.headerSize <= buffered
  {
    FrameSize(h) + MoveCount(h, buffered) <= BUFFER_SIZE && MoveCount(h, buffered) <= BUFFER_SIZE
  }

  /** The move stays inside exactly if the buffered bytes and twice the payload fit. */
  lemma MoveBounds(h: Header, buffered: nat)
    requires FrameSize(h) <= buffered <= BUFFER_SIZE
    ensures MoveInside(h, buffered) <==> buffered + 2 * h.payloadSize <= BUFFER_SIZE
    ensures MoveInside(h, buffered) ==>
              buffered <= FrameSize(h) + MoveCount(h, buffered) <= BUFFER_SIZE
  {}

  /** Every move that one call of service() makes on the buffered bytes stays inside. */
  predicate MovesInside(s: seq<Byte>)
    decreases |s|
  {
    DecodeBounds(s);
    var h := Decode(s);
    h.headerSize == 0 || FrameAt(s).opcode == CLOSE || (MoveInside(h, |s|) && MovesInside(s[FrameSize(h)..]))
  }

  lemma MovesStep(s: seq<Byte>)
    ensures Decode(s).headerSize == 0 ==> MovesInside(s)
    ensures Decode(s).headerSize > 0 ==>
              var h := Decode(s);
              FrameSize(h) <= |s| &&
              (MovesInside(s) <==> FrameAt(s).opcode == CLOSE || (MoveInside(h, |s|) && MovesInside(s[FrameSize(h)..])))
  {
    hide Decode, MoveInside;
    DecodeBounds(s);
  }

  /** A frame alone in the buffer. */
  lemma LoneFrame(s: seq<Byte>)
    requires Decode(s).headerSize > 0 && FrameSize(Decode(s)) == |s| && FrameAt(s).opcode != CLOSE
    ensures Frames(s) == Split([FrameAt(s)], [], false)
    ensures MovesInside(s) <==> MoveInside(Decode(s), |s|)
  {
    hide Decode, MoveInside;
    NoBytes();
    assert s[|s|..] == [];
    FramesStep(s);
    FramesStep([]);
    MovesStep(s);
    MovesStep([]);
  }

  /** A leftover holds no complete frame, so nothing is moved for it. */
  lemma NothingMoves(received: seq<Byte>, rest: seq<Byte>)
    requires !Frames(received).closed && Frames(received).rest == rest
    ensures MovesInside(rest)
  {
    RestIncomplete(received);
  }

  lemma {:induction false} RestIncomplete(s: seq<Byte>)
    ensures !Frames(s).closed ==> Decode(Frames(s).rest).headerSize == 0
    decreases |s|
  {
    hide Decode;
    DecodeBounds(s);
    if Decode(s).headerSize > 0 && FrameAt(s).opcode != CLOSE {
      RestIncomplete(s[FrameSize(Decode(s))..]);
    }
  }

  /** An unmasked frame of 8193 bytes, alone in the buffer, makes the source move 16386 bytes. */
  lemma LoneFrameLeaves(flags: Byte, opcode: Byte, payload: seq<Byte>)
    requires flags % 16 == 0 && opcode < 16 && opcode != CLOSE && |payload| == 8193
    ensures var f := Frame(flags, opcode, None, payload);
            Fits(|payload|, Medium) && |Encoded(f, Medium)| == 8197 <= BUFFER_SIZE &&
            MoveCount(Decode(Encoded(f, Medium)), 8197) == 16386 > BUFFER_SIZE && !MovesInside(Encoded(f, Medium))
  {
    hide Decode;
    Powers();
    var f := Frame(flags, opcode, None, payload);
    DecodeEncoded(f, Medium, Encoded(f, Medium));
  }

  // ---------- Streams that stay inside however they are chunked ----------

  function Min(a: nat, b: nat): nat { if a < b then a else b }

  /** No frame up to a close frame, or up to one that never fits the buffer, has too much buffered behind it. */
  ghost predicate InsideHoweverChunked(t: seq<Byte>)
    decreases |t|
  {
    DecodeBounds(t);
    var h := Decode(t);
    || h.headerSize == 0 || FrameSize(h) > BUFFER_SIZE || FrameAt(t).opcode == CLOSE
    || (Min(|t|, BUFFER_SIZE) + 2 * h.payloadSize <= BUFFER_SIZE && InsideHoweverChunked(t[FrameSize(h)..]))
  }

  /** All calls of service() with these chunks, from a leftover on, stay inside until the connection ends. */
  ghost predicate RunInside(left: seq<Byte>, chunks: seq<seq<Byte>>)
    decreases |chunks|
  {
    chunks == [] ||
    var s := left + chunks[0];
    MovesInside(s) && (Frames(s).closed || |Frames(s).rest| >= BUFFER_SIZE || RunInside(Frames(s).rest, chunks[1..]))
  }

  /** The chunks fit the free part of the buffer each time. */
  ghost predicate Receivable(left: seq<Byte>, chunks: seq<seq<Byte>>)
    decreases |chunks|
  {
    chunks == [] ||
    var s := left + chunks[0];
    |s| <= BUFFER_SIZE
        && (Frames(s).closed || |Frames(s).rest| >= BUFFER_SIZE || Receivable(Frames(s).rest, chunks[1..]))
  }

  function Joined(chunks: seq<seq<Byte>>): seq<Byte>
  {
    if chunks == [] then [] else chunks[0] + Joined(chunks[1..])
  }

  lemma {:induction false} InsidePrefix(t: seq<Byte>, s: seq<Byte>)
    requires InsideHoweverChunked(t) && s <= t && |s| <= BUFFER_SIZE
    ensures MovesInside(s)
    ensures !Frames(s).closed ==> InsideHoweverChunked(Frames(s).rest + t[|s|..])
    decreases |t|
  {
    hide Decode, MoveInside;
    DecodeBounds(s);
    DecodeBounds(t);
    DecodePrefix(s, t);
    var h := Decode(s);
    if h.headerSize == 0 {
      assert s + t[|s|..] == t;
    } else if FrameAt(s).opcode != CLOSE {
      MoveBounds(h, |s|);
      var n := FrameSize(h);
      assert s[n..] <= t[n..] && t[n..][|s[n..]|..] == t[|s|..];
      InsidePrefix(t[n..], s[n..]);
    }
  }

  /** However a stream with the property is chunked, no call leaves the buffer. */
  lemma {:induction false} InsideRuns(left: seq<Byte>, chunks: seq<seq<Byte>>)
    requires InsideHoweverChunked(left + Joined(chunks)) && Receivable(left, chunks)
    ensures RunInside(left, chunks)
    decreases |chunks|
  {
    hide MovesInside, InsideHoweverChunked, Frames;
    if chunks != [] {
      var t, s := left + Joined(chunks), left + chunks[0];
      assert t == s + Joined(chunks[1..]) && t[|s|..] == Joined(chunks[1..]);
      InsidePrefix(t, s);
      if !Frames(s).closed && |Frames(s).rest| < BUFFER_SIZE {
        InsideRuns(Frames(s).rest, chunks[1..]);
      }
    }
  }

  /** And a stream without it can be chunked so that one does. */
  lemma {:induction false} OutsideRun(t: seq<Byte>) returns (chunks: seq<seq<Byte>>)
    requires !InsideHoweverChunked(t)
    ensures Joined(chunks) <= t && Receivable([], chunks) && !RunInside([], chunks)
    decreases |t|
  {
    hide Decode, MoveInside, MovesInside, Frames;
    DecodeBounds(t);
    var h := Decode(t);
    var n := FrameSize(h);
    if Min(|t|, BUFFER_SIZE) + 2 * h.payloadSize > BUFFER_SIZE {
      var s := t[..Min(|t|, BUFFER_SIZE)];
      SamePrefix(t, s);
      MoveBounds(h, |s|);
      MovesStep(s);
      chunks := [s];
      assert [] + chunks[0] == s && chunks[1..] == [] && Joined(chunks) == s + [];
    } else {
      var s := t[..n];
      SamePrefix(t, s);
      MoveBounds(h, n);
      LoneFrame(s);
      var more := OutsideRun(t[n..]);
      chunks := [s] + more;
      assert [] + chunks[0] == s && chunks[1..] == more;
      assert t == s + t[n..];
    }
  }

  lemma NoBytes()
    ensures Decode([]).headerSize == 0
  {}

  /** A prefix that holds the first frame has the same first frame. */
  lemma SamePrefix(t: seq<Byte>, s: seq<Byte>)
    requires s <= t && Decode(t).headerSize > 0 && |s| >= FrameSize(Decode(t))
    ensures Decode(s) == Decode(t) && FrameAt(s) == FrameAt(t)
  {
    DecodePrefix(s, t);
  }

  /** For which bytes the loop as written stays inside, whatever the socket delivers at a time. */
  lemma InsideIffHoweverChunked(t: seq<Byte>)
    ensures InsideHoweverChunked(t) <==>
            forall chunks :: Joined(chunks) <= t && Receivable([], chunks) ==> RunInside([], chunks)
  {
    if InsideHoweverChunked(t) {
      forall chunks | Joined(chunks) <= t && Receivable([], chunks) ensures RunInside([], chunks) {
        InsideShorter(t, Joined(chunks));
        assert [] + Joined(chunks) == Joined(chunks);
        InsideRuns([], chunks);
      }
    } else {
      var chunks := OutsideRun(t);
    }
  }

  lemma {:induction false} InsideShorter(t: seq<Byte>, s: seq<Byte>)
    requires InsideHoweverChunked(t) && s <= t
    ensures InsideHoweverChunked(s)
    decreases |t|
  {
    hide Decode;
    DecodeBounds(s);
    DecodeBounds(t);
    DecodePrefix(s, t);
    var h := Decode(s);
    if h.headerSize > 0 && FrameSize(h) <= BUFFER_SIZE && FrameAt(s).opcode != CLOSE {
      InsideShorter(t[FrameSize(h)..], s[FrameSize(h)..]);
    }
  }
}
