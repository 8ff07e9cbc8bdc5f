/**
 The text of 128-bit interface ids. An id is taken as its eleven fields in order: Data1, Data2, Data3
 and the eight bytes of Data4.
 */
module InterfaceId {
  import opened Options

  type Id = seq<nat>

  // ---------- Hexadecimal numbers ----------

  function Pow16(k: nat): nat
  {
    if k == 0 then 1 else 16 * Pow16(k - 1)
  }

  /** Upper-case digits, as the format 0wX prints them. */
  function HexDigit(d: nat): char
    requires d < 16
  {
    if d < 10 then '0' + d as char else 'A' + (d - 10) as char
  }

  function DigitValue(c: char): Option<nat>
  {
    if '0' <= c <= '9' then Some(c as nat - '0' as nat)
    else if 'a' <= c <= 'f' then Some(c as nat - 'a' as nat + 10)
    else if 'A' <= c <= 'F' then Some(c as nat - 'A' as nat + 10)
    else None
  }

  function Hex(n: nat, width: nat): (s: string)
    ensures |s| == width
  {
    if width == 0 then "" else Hex(n / 16, width - 1) + [HexDigit(n % 16)]
  }

  predicate AllHex(s: string)
  {
    forall i :: 0 <= i < |s| ==> DigitValue(s[i]).Some?
  }

  function HexValue(s: string): nat
    requires AllHex(s)
  {
    if s == "" then 0 else HexValue(s[..|s| - 1]) * 16 + DigitValue(s[|s| - 1]).value
  }

  function UpperDigit(c: char): char
  {
    if 'a' <= c <= 'f' then 'A' + (c as nat - 'a' as nat) as char else c
  }

  function Upper(s: string): string
  {
    seq(|s|, i requires 0 <= i < |s| => UpperDigit(s[i]))
  }

  lemma DigitRoundTrip(d: nat, c: char)
    ensures d < 16 ==> DigitValue(HexDigit(d)) == Some(d) && UpperDigit(HexDigit(d)) == HexDigit(d)
    ensures DigitValue(c).Some? ==> DigitValue(c).value < 16 && HexDigit(DigitValue(c).value) == UpperDigit(c)
  {}

  lemma {:induction false} ValueOfHex(n: nat, width: nat)
    requires n < Pow16(width)
    ensures AllHex(Hex(n, width)) && HexValue(Hex(n, width)) == n
  {
    if width > 0 {
      ValueOfHex(n / 16, width - 1);
      DigitRoundTrip(n % 16, '0');
      assert Hex(n, width)[..width - 1] == Hex(n / 16, width - 1);
    }
  }

  lemma {:induction false} HexOfValue(s: string)
    requires AllHex(s)
    ensures HexValue(s) < Pow16(|s|) && Hex(HexValue(s), |s|) == Upper(s)
  {
    hide HexDigit, DigitValue, UpperDigit;
    if s != "" {
      var front := s[..|s| - 1];
      HexOfValue(front);
      DigitRoundTrip(0, s[|s| - 1]);
      assert Upper(s) == Upper(front) + [UpperDigit(s[|s| - 1])];
    }
  }

  lemma Pow16Values()
    ensures Pow16(2) == 0x100 && Pow16(4) == 0x10000 && Pow16(8) == 0x1_0000_0000
  {
    assert Pow16(3) == 0x1000;
    assert Pow16(5) == 0x100000;
    assert Pow16(6) == 0x1000000;
    assert Pow16(7) == 0x10000000;
  }

  lemma {:induction false} PrefixHex(s: string, i: nat)
    requires AllHex(s) && i <= |s|
    ensures AllHex(s[..i]) && HexValue(s[..i]) <= HexValue(s)
    decreases |s| - i
  {
    if i < |s| {
      PrefixHex(s, i + 1);
      assert s[..i + 1][..i] == s[..i];
    } else {
      assert s[..i] == s;
    }
  }

  /** hexStringToUint32; None stands for the exceptions. */
  method HexStringToUint32(s: string) returns (r: Option<nat>)
    ensures r == if s != "" && AllHex(s) && HexValue(s) < 0x1_0000_0000 then Some(HexValue(s)) else None
  {
    if |s| == 0 {
      return None;
    }
    var result := 0;
    for i := 0 to |s|
      invariant AllHex(s[..i]) && result == HexValue(s[..i]) < 0x1_0000_0000
    {
      var digit := DigitValue(s[i]);
      if digit.None? {
        return None;
      }
      assert s[..i + 1][..i] == s[..i];
      assert AllHex(s[..i + 1]) && HexValue(s[..i + 1]) == result * 16 + digit.value;
      DigitRoundTrip(0, s[i]);
      if result > (0xFFFF_FFFF - digit.value) / 16 {
        if AllHex(s) { PrefixHex(s, i + 1); }
        return None;
      }
      result := result * 16 + digit.value;
    }
    assert s[..|s|] == s;
    return Some(result);
  }

  // ---------- The layout {8-4-4-22-222222} ----------

  function Width(k: nat): nat { if k == 0 then 8 else if k <= 2 then 4 else 2 }

  function Offset(k: nat): nat
  {
    if k == 0 then 1 else if k == 1 then 10 else if k == 2 then 15 else if k == 3 then 20 else if k == 4 then 22
        else 25 + 2 * (k - 5)
  }

  /** A dash follows the field. */
  predicate DashAfter(k: nat) { k == 0 || k == 1 || k == 2 || k == 4 }

  ghost predicate ValidId(id: Id)
  {
    |id| == 11 && forall k :: 0 <= k < 11 ==> id[k] < Pow16(Width(k))
  }

  function Field(s: string, k: nat): string
    requires |s| == 38 && k < 11
  {
    s[Offset(k)..Offset(k) + Width(k)]
  }

  function Dash(k: nat): string { if DashAfter(k) then "-" else "" }

  /** The fields from k on, and the closing brace. */
  function Tail(id: Id, k: nat): (s: string)
    requires |id| == 11 && k <= 11
    ensures |s| == if k == 11 then 1 else 38 - Offset(k)
    decreases 11 - k
  {
    if k == 11 then "}" else Hex(id[k], Width(k)) + Dash(k) + Tail(id, k + 1)
  }

  /** daqInterfaceIdToString */
  function Printed(id: Id): (s: string)
    requires |id| == 11
    ensures |s| == 38
  {
    "{" + Tail(id, 0)
  }

  predicate Framed(s: string) { |s| == 38 && s[0] == '{' && s[37] == '}' }

  /** The field is hexadecimal, and a dash follows where one must. */
  predicate FieldFine(s: string, k: nat)
    requires |s| == 38 && k < 11
  {
    AllHex(Field(s, k)) && DashFine(s, k)
  }

  predicate DashFine(s: string, k: nat)
    requires |s| == 38 && k < 11
  {
    DashAfter(k) ==> s[Offset(k) + Width(k)] == '-'
  }

  predicate WellFormed(s: string)
  {
    Framed(s) && forall k :: 0 <= k < 11 ==> FieldFine(s, k)
  }

  function IdOf(s: string): Id
    requires WellFormed(s)
  {
    seq(11, k requires 0 <= k < 11 => assert FieldFine(s, k); HexValue(Field(s, k)))
  }

  lemma TailField(s: string, id: Id, k: nat)
    requires |s| == 38 && |id| == 11 && k < 11 && s[Offset(k)..] == Tail(id, k)
    ensures Field(s, k) == Hex(id[k], Width(k)) && DashFine(s, k)
    ensures k + 1 < 11 ==> s[Offset(k + 1)..] == Tail(id, k + 1)
    ensures k + 1 == 11 ==> s[37] == '}'
  {
    var o, w := Offset(k), Width(k);
    var t := s[o..];
    assert Field(s, k) == t[..w];
    if DashAfter(k) {
      assert s[o + w] == t[w];
    }
    assert t[w + |Dash(k)|..] == Tail(id, k + 1);
    assert s[o + w + |Dash(k)|..] == t[w + |Dash(k)|..];
  }

  lemma {:induction false} TailFields(s: string, id: Id, k: nat)
    requires |s| == 38 && |id| == 11 && k < 11 && s[Offset(k)..] == Tail(id, k)
    ensures forall j :: k <= j < 11 ==> Field(s, j) == Hex(id[j], Width(j)) && DashFine(s, j)
    ensures s[37] == '}'
    decreases 11 - k
  {
    hide Offset, Width, Hex, Field, Tail, DashFine;
    TailField(s, id, k);
    if k + 1 < 11 {
      TailFields(s, id, k + 1);
    }
  }

  lemma {:induction false} HexNoNul(n: nat, width: nat)
    ensures '\0' !in Hex(n, width)
  {
    if width > 0 { HexNoNul(n / 16, width - 1); }
  }

  lemma {:induction false} TailNoNul(id: Id, k: nat)
    requires |id| == 11 && k <= 11
    ensures '\0' !in Tail(id, k)
    decreases 11 - k
  {
    hide Hex;
    if k < 11 {
      HexNoNul(id[k], Width(k));
      TailNoNul(id, k + 1);
    }
  }

  /** The format of the text: eleven fields, with dashes after the first three and after the fifth. */
  lemma PrintedFormat(id: Id)
    requires |id| == 11
    ensures Printed(id) ==
            "{" + (Hex(id[0], 8) + ("-" + (Hex(id[1], 4) + ("-" + (Hex(id[2], 4) + ("-" +
            (Hex(id[3], 2) + (Hex(id[4], 2) + ("-" + (Hex(id[5], 2) + (Hex(id[6], 2) + (Hex(id[7], 2) +
            (Hex(id[8], 2) + (Hex(id[9], 2) + (Hex(id[10], 2) + "}")))))))))))))))
  {
    hide Hex, Tail;
    LastTail(id);
    DashedTail(id, 0);
    DashedTail(id, 1);
    DashedTail(id, 2);
    PlainTail(id, 3);
    DashedTail(id, 4);
    PlainTail(id, 5);
    PlainTail(id, 6);
    PlainTail(id, 7);
    PlainTail(id, 8);
    PlainTail(id, 9);
    PlainTail(id, 10);
  }

  lemma LastTail(id: Id)
    requires |id| == 11
    ensures Tail(id, 11) == "}"
  {}

  lemma DashedTail(id: Id, k: nat)
    requires |id| == 11 && k in {0, 1, 2, 4}
    ensures Tail(id, k) == Hex(id[k], if k == 0 then 8 else if k == 4 then 2 else 4) + ("-" + Tail(id, k + 1))
  {
    hide Hex;
  }

  lemma PlainTail(id: Id, k: nat)
    requires |id| == 11 && 3 <= k < 11 && k != 4
    ensures Tail(id, k) == Hex(id[k], 2) + Tail(id, k + 1)
  {
    hide Hex;
  }

  /** The sixteen digits, in capitals. */
  lemma Digits()
    ensures seq(16, d requires 0 <= d < 16 => HexDigit(d)) == "0123456789ABCDEF"
  {}

  /** Parsing what was printed gives the id back. */
  lemma ParsePrinted(id: Id)
    requires ValidId(id)
    ensures WellFormed(Printed(id)) && IdOf(Printed(id)) == id
  {
    hide Width, Hex, Tail, HexValue, AllHex, DashAfter;
    var s := Printed(id);
    assert s[1..] == Tail(id, 0);
    TailFields(s, id, 0);
    forall k | 0 <= k < 11 ensures FieldFine(s, k) && HexValue(Field(s, k)) == id[k] {
      ValueOfHex(id[k], Width(k));
    }
  }

  /** Printing what was parsed gives the text back, in upper case. */
  lemma {:induction false} PrintParsed(s: string)
    requires WellFormed(s)
    ensures ValidId(IdOf(s)) && Printed(IdOf(s)) == Upper(s)
  {
    hide Hex, Tail, HexValue, AllHex;
    forall k | 0 <= k < 11 ensures IdOf(s)[k] < Pow16(Width(k)) {
      assert FieldFine(s, k);
      HexOfValue(Field(s, k));
    }
    TailParsed(s, 0);
    assert Upper(s) == ['{'] + Upper(s)[1..];
  }

  lemma {:induction false} TailParsed(s: string, k: nat)
    requires WellFormed(s) && k <= 11
    ensures Tail(IdOf(s), k) == Upper(s)[if k == 11 then 37 else Offset(k)..]
    decreases 11 - k
  {
    hide Hex, HexValue, AllHex, Upper, WellFormed, IdOf, Offset, Width, DashAfter, Dash;
    Ends(s);
    if k < 11 {
      TailParsed(s, k + 1);
      FieldParsed(s, k);
    }
  }

  lemma Ends(s: string)
    requires WellFormed(s)
    ensures |IdOf(s)| == 11 && |Upper(s)| == 38 && Upper(s)[37..] == "}"
  {}

  lemma FieldParsed(s: string, k: nat)
    requires WellFormed(s) && k < 11
    ensures Upper(s)[Offset(k)..] == Hex(IdOf(s)[k], Width(k)) + Dash(k)
            + Upper(s)[if k + 1 == 11 then 37 else Offset(k + 1)..]
  {
    hide Hex, HexValue, AllHex, Upper;
    assert FieldFine(s, k);
    HexOfValue(Field(s, k));
    UpperKeeps();
    var o, w := Offset(k), Width(k);
    UpperSlice(s, o, o + w);
    UpperSlice(s, o + w, o + w + |Dash(k)|);
    assert s[o + w..o + w + |Dash(k)|] == Dash(k);
    Pieces(Upper(s), o, o + w, o + w + |Dash(k)|);
  }

  lemma Pieces(s: string, a: nat, b: nat, c: nat)
    requires a <= b <= c <= |s|
    ensures s[a..] == s[a..b] + s[b..c] + s[c..]
  {}

  lemma UpperSlice(s: string, a: nat, b: nat)
    requires a <= b <= |s|
    ensures |Upper(s)| == |s| && Upper(s[a..b]) == Upper(s)[a..b]
  {}

  lemma UpperKeeps()
    ensures Upper("") == "" && Upper("-") == "-" && Upper("}") == "}"
  {}

  // ---------- daqStringToInterfaceId ----------

  /** How many fields from k on are read before the text turns out to be wrong. */
  function ReadFrom(s: string, k: nat): (n: nat)
    requires |s| == 38 && k <= 11
    ensures k <= n <= 11 && forall j :: k <= j < n ==> AllHex(Field(s, j))
    decreases 11 - k
  {
    if k == 11 || !AllHex(Field(s, k)) then k else if !DashFine(s, k) then k + 1 else ReadFrom(s, k + 1)
  }

  /** The fields read replace those of the id given; the rest stays. */
  function Parsed(s: string, id: Id): Id
    requires |id| == 11
  {
    if !Framed(s) then id
    else seq(11, k requires 0 <= k < 11 => if k < ReadFrom(s, 0) then HexValue(Field(s, k)) else id[k])
  }

  lemma {:induction false} ReadAll(s: string, k: nat)
    requires |s| == 38 && k <= 11
    ensures (forall j :: k <= j < 11 ==> FieldFine(s, j)) ==> ReadFrom(s, k) == 11
    decreases 11 - k
  {
    hide AllHex, Field, DashFine;
    if k < 11 && forall j :: k <= j < 11 ==> FieldFine(s, j) {
      assert FieldFine(s, k);
      ReadAll(s, k + 1);
    }
  }

  lemma ParsedWellFormed(s: string, id: Id)
    requires |id| == 11 && WellFormed(s)
    ensures Parsed(s, id) == IdOf(s)
  {
    ReadAll(s, 0);
  }

  /** One field with what must follow it. */
  method ReadField(s: string, k: nat, id: Id) returns (ok: bool, out: Id)
    requires |s| == 38 && k < 11 && |id| == 11
    ensures ok <==> FieldFine(s, k)
    ensures out == if AllHex(Field(s, k)) then id[k := HexValue(Field(s, k))] else id
  {
    hide HexValue, AllHex;
    var digits := s[Offset(k)..Offset(k) + Width(k)];
    assert digits == Field(s, k);
    var value := HexStringToUint32(digits);
    if AllHex(digits) {
      HexOfValue(digits);
      Pow16Values();
    }
    if value.None? {
      return false, id;
    }
    out := id[k := value.value];
    ok := !(DashAfter(k) && s[Offset(k) + Width(k)] != '-');
  }

  /** daqStringToInterfaceId, its eleven reads in order; on an error the fields already read stay changed. */
  method StringToInterfaceId(s: string, id: Id) returns (ok: bool, out: Id)
    requires |id| == 11
    ensures out == Parsed(s, id) && (ok <==> WellFormed(s))
  {
    hide HexValue, AllHex, Field, DashFine;
    out := id;
    if |s| != 38 || s[0] != '{' || s[37] != '}' {
      return false, out;
    }
    for k := 0 to 11
      invariant |out| == 11 && ReadFrom(s, 0) == ReadFrom(s, k)
      invariant forall j :: 0 <= j < k ==> FieldFine(s, j) && out[j] == HexValue(Field(s, j))
      invariant forall j :: k <= j < 11 ==> out[j] == id[j]
    {
      var fine;
      fine, out := ReadField(s, k, out);
      if !fine {
        return false, out;
      }
    }
    return true, out;
  }
}
