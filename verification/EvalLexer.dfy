/**
 EvalValueLexer: a description of scanning on the text that is left, and the index-moving lexer
 proved against it. A thrown exception is the result None.
 */
module EvalLexer {
  import opened Options
  import opened EvalSyntax

  const INT64_MAX := 0x7fff_ffff_ffff_ffff

  // ---------- Character classes (the "C" locale) ----------

  predicate IsDigit(c: char) { '0' <= c <= '9' }

  predicate IsAlpha(c: char) { 'a' <= c <= 'z' || 'A' <= c <= 'Z' }

  predicate IsNameChar(c: char) { IsAlpha(c) || IsDigit(c) || c == '_' || c == '.' }

  predicate IsBlank(c: char) { c == ' ' || c == '\t' || c == '\n' || c == '\r' }

  predicate IsExponent(c: char) { ToLower(c) == 'e' }

  /** peek(n): the character n places on, NUL past the end */
  function PeekAt(s: string, n: nat): char
  {
    if n < |s| then s[n] else '\0'
  }

  /** How many characters at the start of s are digits. */
  function Digits(s: string): (k: nat)
    ensures k <= |s|
    ensures forall i :: 0 <= i < k ==> IsDigit(s[i])
    ensures !IsDigit(PeekAt(s, k))
  {
    if |s| > 0 && IsDigit(s[0]) then 1 + Digits(s[1..]) else 0
  }

  /** How many characters at the start of s belong to a name. */
  function NameLength(s: string): (k: nat)
    ensures k <= |s|
    ensures forall i :: 0 <= i < k ==> IsNameChar(s[i])
    ensures !IsNameChar(PeekAt(s, k))
  {
    if |s| > 0 && IsNameChar(s[0]) then 1 + NameLength(s[1..]) else 0
  }

  /** Index of the first c in s, or |s|. */
  function Find(s: string, c: char): (k: nat)
    ensures k <= |s|
    ensures forall i :: 0 <= i < k ==> s[i] != c
    ensures k < |s| ==> s[k] == c
  {
    if |s| == 0 || s[0] == c then 0 else 1 + Find(s[1..], c)
  }

  /** The value of a string of digits. */
  function ValueOf(s: string): nat
    requires forall i :: 0 <= i < |s| ==> IsDigit(s[i])
  {
    if s == "" then 0
    else
      var d := s[|s| - 1];
      assert IsDigit(d);
      10 * ValueOf(s[..|s| - 1]) + (d as int - '0' as int)
  }

  // ---------- One token ----------

  datatype Scan = Tok(token: Token, rest: string) | Skip(rest: string) | Bad

  ghost predicate Shorter(r: Scan, s: string)
  {
    !r.Bad? ==> |r.rest| < |s|
  }

  function ScanString(s: string): (r: Scan)
    requires |s| > 0
    ensures Shorter(r, s)
  {
    var k := Find(s[1..], s[0]);
    if k == |s| - 1 then Skip("") else Tok(StringValue(s[1..][..k]), s[1..][k + 1..])
  }

  function FractionEnd(s: string, k: nat): Option<nat>
    requires k <= |s|
  {
    if PeekAt(s, k) != '.' then Some(k)
    else
      var d := Digits(s[k + 1..]);
      if d == 0 then None else Some(k + 1 + d)
  }

  function ExponentEnd(s: string, k: nat): Option<nat>
    requires k <= |s|
  {
    if !IsExponent(PeekAt(s, k)) then Some(k)
    else
      var k1 := k + 1;
      var k2 := if PeekAt(s, k1) == '+' || PeekAt(s, k1) == '-' then k1 + 1 else k1;
      var d := Digits(s[k2..]);
      if d == 0 then None else Some(k2 + d)
  }

  /** Where a float lexeme at the start of s ends, if it is well formed. */
  function FloatEnd(s: string): (r: Option<nat>)
    ensures r.Some? ==> r.value <= |s|
  {
    match FractionEnd(s, Digits(s))
    case None => None
    case Some(k) => ExponentEnd(s, k)
  }

  function ScanFloat(s: string): (r: Scan)
    requires |s| > 0 && (IsDigit(s[0]) || s[0] == '.')
    ensures Shorter(r, s)
  {
    match FloatEnd(s)
    case None => Bad
    case Some(k) => Tok(FloatValue(s[..k]), s[k..])
  }

  function ScanNumber(s: string): (r: Scan)
    requires |s| > 0 && IsDigit(s[0])
    ensures Shorter(r, s)
  {
    var k := Digits(s);
    if PeekAt(s, k) == '.' || IsExponent(PeekAt(s, k)) then ScanFloat(s)
    else if ValueOf(s[..k]) > INT64_MAX then Bad
    else Tok(IntValue(ValueOf(s[..k])), s[k..])
  }

  /** The token of a name: a keyword in any case, or an identifier. */
  function NameToken(name: string): Token
  {
    var id := Canonical(name);
    if id == "if" then If
    else if id == "switch" then Switch
    else if id == "true" then BoolValue(true)
    else if id == "false" then BoolValue(false)
    else if id == "unit" then Unit
    else Identifier(name)
  }

  function ScanName(s: string): (r: Scan)
    requires |s| > 0 && (IsAlpha(s[0]) || s[0] == '_')
    ensures Shorter(r, s)
  {
    var k := NameLength(s);
    Tok(NameToken(s[..k]), s[k..])
  }

  /** Tokens of one character; '!', '<' and '>' only when no '=' follows. */
  function Single(c: char): Option<Token>
  {
    match c
    case '(' => Some(OpenParen)
    case ')' => Some(CloseParen)
    case '[' => Some(OpenBracket)
    case ']' => Some(CloseBracket)
    case '{' => Some(OpenCurly)
    case '}' => Some(CloseCurly)
    case '+' => Some(Plus)
    case '-' => Some(Minus)
    case '*' => Some(Star)
    case '/' => Some(Slash)
    case ',' => Some(Comma)
    case '$' => Some(Dollar)
    case '%' => Some(Percent)
    case ':' => Some(Colon)
    case '!' => Some(Exclamation)
    case '<' => Some(Less)
    case '>' => Some(Greater)
    case _ => None
  }

  /** Tokens of two characters. */
  function Double(c: char, d: char): Option<Token>
  {
    if c == '|' && d == '|' then Some(OrOr)
    else if c == '&' && d == '&' then Some(AndAnd)
    else if c == '=' && d == '=' then Some(EqEq)
    else if c == '!' && d == '=' then Some(NotEq)
    else if c == '<' && d == '=' then Some(LessEq)
    else if c == '>' && d == '=' then Some(GreaterEq)
    else None
  }

  function ScanOne(s: string): (r: Scan)
    requires |s| > 0
    ensures Shorter(r, s)
  {
    var c := s[0];
    if IsBlank(c) then Skip(s[1..])
    else if Double(c, PeekAt(s, 1)).Some? then Tok(Double(c, PeekAt(s, 1)).value, s[2..])
    else if Single(c).Some? then Tok(Single(c).value, s[1..])
    else if c == '"' || c == '\'' then ScanString(s)
    else if c == '.' then (if IsDigit(PeekAt(s, 1)) then ScanFloat(s) else Tok(Dot, s[1..]))
    else if IsDigit(c) then ScanNumber(s)
    else if IsAlpha(c) || c == '_' then ScanName(s)
    else Bad
  }

  /** tokenize() on the text s */
  function Lex(s: string): Option<seq<Token>>
    decreases |s|
  {
    if s == "" then Some([End])
    else
      match ScanOne(s)
      case Bad => None
      case Skip(rest) => Lex(rest)
      case Tok(t, rest) =>
        match Lex(rest)
        case None => None
        case Some(ts) => Some([t] + ts)
  }

  // ---------- The lexer ----------

  lemma DigitsStep(s: string, i: nat)
    requires i <= |s|
    ensures i < |s| && IsDigit(s[i]) ==> Digits(s[i..]) == 1 + Digits(s[i + 1..])
    ensures !IsDigit(PeekAt(s, i)) ==> Digits(s[i..]) == 0
  {
    if i < |s| {
      assert s[i..][1..] == s[i + 1..];
    }
  }

  lemma NameStep(s: string, i: nat)
    requires i <= |s|
    ensures i < |s| && IsNameChar(s[i]) ==> NameLength(s[i..]) == 1 + NameLength(s[i + 1..])
    ensures !IsNameChar(PeekAt(s, i)) ==> NameLength(s[i..]) == 0
  {
    if i < |s| {
      assert s[i..][1..] == s[i + 1..];
    }
  }

  lemma FindStep(s: string, c: char, i: nat)
    requires i <= |s|
    ensures i < |s| && s[i] != c ==> Find(s[i..], c) == 1 + Find(s[i + 1..], c)
    ensures i == |s| || s[i] == c ==> Find(s[i..], c) == 0
  {
    if i < |s| {
      assert s[i..][1..] == s[i + 1..];
    }
  }

  lemma SomeDigits(s: string)
    requires IsDigit(PeekAt(s, 0))
    ensures Digits(s) > 0
  {}

  /** The text from i on, seen from an earlier position a. */
  lemma Slices(source: string, a: nat, i: nat)
    requires a <= i <= |source|
    ensures source[a..][i - a..] == source[i..] && source[a..][..i - a] == source[a..i]
    ensures PeekAt(source[a..], i - a) == PeekAt(source[i..], 0)
    ensures PeekAt(source[a..], i - a + 1) == PeekAt(source[i..], 1)
  {}

  lemma StringMissing(source: string, a: nat)
    requires a < |source| && Find(source[a + 1..], source[a]) == |source| - a - 1
    ensures ScanString(source[a..]) == Skip("")
  {
    Slices(source, a, a + 1);
  }

  lemma StringFound(source: string, a: nat, i: nat)
    requires a < i < |source| && Find(source[a + 1..], source[a]) == i - a - 1
    ensures ScanString(source[a..]) == Tok(StringValue(source[a + 1..i]), source[i + 1..])
  {
    Slices(source, a, a + 1);
    Slices(source, a + 1, i);
    Slices(source, a + 1, i + 1);
  }

  class EvalValueLexer {
    const source: string
    var index: nat
    var scannedTokens: seq<Token>

    /** The index never passes the end of the text. */
    ghost predicate Valid()
      reads this`index
    {
      index <= |source|
    }

    ghost function Left(): string
      requires Valid()
      reads this`index
    {
      source[index..]
    }

    constructor (input: string)
      ensures Valid() && source == input && Left() == input && scannedTokens == []
    {
      source := input;
      index := 0;
      scannedTokens := [];
    }

    predicate IsAtEnd()
      requires Valid()
      reads this`index
      ensures IsAtEnd() <==> Left() == ""
    {
      index >= |source|
    }

    function Peek(n: nat): (c: char)
      requires Valid()
      reads this`index
      ensures c == PeekAt(Left(), n)
    {
      if index + n >= |source| then '\0' else source[index + n]
    }

    /** What a scan method did, against its description. */
    ghost predicate Did(scan: Scan, ok: bool, before: seq<Token>)
      reads this
    {
      && Valid()
      && match scan
         case Bad => !ok
         case Skip(rest) => ok && Left() == rest && scannedTokens == before
         case Tok(t, rest) => ok && Left() == rest && scannedTokens == before + [t]
    }

    method Tokenize() returns (r: Option<seq<Token>>)
      requires Valid()
      modifies this
      ensures Valid() && r == Lex(old(Left()))
    {
      ghost var start := Left();
      scannedTokens := [];
      ghost var goal := Lex(start);
      assert goal.Some? ==> [] + goal.value == goal.value;
      while !IsAtEnd()
        invariant Valid()
        invariant goal == (match Lex(Left()) case None => None case Some(ts) => Some(scannedTokens + ts))
        decreases |Left()|
      {
        ghost var s, before := Left(), scannedTokens;
        LexStep(s, before);
        var ok := ScanToken();
        if !ok {
          return None;
        }
      }
      scannedTokens := scannedTokens + [End];
      r := Some(scannedTokens);
    }

    method ScanToken() returns (ok: bool)
      requires Valid() && Left() != ""
      modifies this
      ensures Did(ScanOne(old(Left())), ok, old(scannedTokens))
    {
      hide ScanString, ScanFloat, ScanNumber, ScanName, Single, Double;
      var nextChar := Peek(0);
      if IsBlank(nextChar) {
        index := index + 1;
        return true;
      }
      var double := Double(nextChar, Peek(1));
      if double.Some? {
        DoubleFits(nextChar, Peek(1));
        scannedTokens := scannedTokens + [double.value];
        index := index + 2;
        return true;
      }
      var single := Single(nextChar);
      if single.Some? {
        scannedTokens := scannedTokens + [single.value];
        index := index + 1;
        return true;
      }
      if nextChar == '"' || nextChar == '\'' {
        ScanStringToken(nextChar);
        return true;
      }
      if nextChar == '.' {
        if IsDigit(Peek(1)) {
          ok := ScanFloatToken();
        } else {
          scannedTokens := scannedTokens + [Dot];
          index := index + 1;
          ok := true;
        }
        return;
      }
      if IsDigit(nextChar) {
        ok := ScanNumberToken();
        return;
      }
      if IsAlpha(nextChar) || nextChar == '_' {
        ScanNameToken();
        return true;
      }
      return false;
    }

    /** scanString(): an unterminated string gives no token. */
    method ScanStringToken(delimiter: char)
      requires Valid() && Left() != "" && Left()[0] == delimiter
      modifies this
      ensures Did(ScanString(old(Left())), true, old(scannedTokens))
    {
      hide Find, ScanString;
      ghost var a := index;
      index := index + 1;
      if IsAtEnd() {
        FindStep(source, delimiter, index);
        StringMissing(source, a);
        return;
      }
      var lexemeStart := index;
      while Peek(0) != delimiter
        invariant Valid() && lexemeStart <= index < |source|
        invariant scannedTokens == old(scannedTokens)
        invariant Find(source[lexemeStart..], delimiter) == index - lexemeStart + Find(source[index..], delimiter)
        decreases |source| - index
      {
        FindStep(source, delimiter, index);
        index := index + 1;
        if IsAtEnd() {
          FindStep(source, delimiter, index);
          StringMissing(source, a);
          return;
        }
      }
      FindStep(source, delimiter, index);
      StringFound(source, a, index);
      scannedTokens := scannedTokens + [StringValue(source[lexemeStart..index])];
      index := index + 1;
    }

    /** while (isdigit(peek())) advance(); */
    method SkipDigits()
      requires Valid()
      modifies this`index
      ensures Valid() && index == old(index) + Digits(old(Left()))
    {
      while IsDigit(Peek(0))
        invariant Valid() && old(index) <= index
        invariant Digits(old(Left())) == index - old(index) + Digits(Left())
        decreases |source| - index
      {
        DigitsStep(source, index);
        index := index + 1;
      }
      DigitsStep(source, index);
    }

    method ScanNumberToken() returns (ok: bool)
      requires Valid() && Left() != "" && IsDigit(Left()[0])
      modifies this
      ensures Did(ScanNumber(old(Left())), ok, old(scannedTokens))
    {
      hide ScanFloat, FloatEnd, ValueOf;
      ghost var s := Left();
      var lexemeStart := index;
      SkipDigits();
      if Peek(0) != '.' && !IsExponent(Peek(0)) {
        assert source[lexemeStart..index] == s[..Digits(s)];
        var value := ValueOf(source[lexemeStart..index]);
        if value > INT64_MAX {
          return false;
        }
        scannedTokens := scannedTokens + [IntValue(value)];
        return true;
      }
      index := lexemeStart;
      ok := ScanFloatToken();
    }

    method ScanFloatToken() returns (ok: bool)
      requires Valid() && Left() != "" && (IsDigit(Left()[0]) || Left()[0] == '.')
      modifies this
      ensures Did(ScanFloat(old(Left())), ok, old(scannedTokens))
    {
      hide FractionEnd, ExponentEnd;
      ghost var s := Left();
      var lexemeStart := index;
      SkipDigits();
      ok := ScanFraction(lexemeStart, s);
      if !ok {
        return;
      }
      ok := ScanExponent(lexemeStart, s);
      if !ok {
        return;
      }
      Slices(source, lexemeStart, index);
      scannedTokens := scannedTokens + [FloatValue(source[lexemeStart..index])];
    }

    method ScanFraction(ghost lexemeStart: nat, ghost s: string) returns (ok: bool)
      requires Valid() && lexemeStart <= index && s == source[lexemeStart..]
      modifies this`index
      ensures Valid() && lexemeStart <= index
      ensures FractionEnd(s, old(index) - lexemeStart) == if ok then Some(index - lexemeStart) else None
    {
      hide Digits;
      Slices(source, lexemeStart, index);
      ok := true;
      if Peek(0) == '.' {
        index := index + 1;
        Slices(source, lexemeStart, index);
        if !IsDigit(Peek(0)) {
          DigitsStep(source, index);
          return false;
        }
        SomeDigits(Left());
        SkipDigits();
      }
    }

    method ScanExponent(ghost lexemeStart: nat, ghost s: string) returns (ok: bool)
      requires Valid() && lexemeStart <= index && s == source[lexemeStart..]
      modifies this`index
      ensures Valid() && lexemeStart <= index
      ensures ExponentEnd(s, old(index) - lexemeStart) == if ok then Some(index - lexemeStart) else None
    {
      hide Digits;
      Slices(source, lexemeStart, index);
      ok := true;
      if IsExponent(Peek(0)) {
        index := index + 1;
        Slices(source, lexemeStart, index);
        if Peek(0) == '+' || Peek(0) == '-' {
          index := index + 1;
          Slices(source, lexemeStart, index);
        }
        if !IsDigit(Peek(0)) {
          DigitsStep(source, index);
          return false;
        }
        SomeDigits(Left());
        SkipDigits();
      }
    }

    method ScanNameToken()
      requires Valid() && Left() != "" && (IsAlpha(Left()[0]) || Left()[0] == '_')
      modifies this
      ensures Did(ScanName(old(Left())), true, old(scannedTokens))
    {
      hide NameToken, NameLength, Left;
      var name := AdvanceOverIdentifier();
      scannedTokens := scannedTokens + [NameToken(name)];
    }

    /** advanceOverIdentifier: the longest name from here on. */
    method AdvanceOverIdentifier() returns (name: string)
      requires Valid() && Left() != ""
      modifies this`index
      ensures Valid() && name == old(Left())[..NameLength(old(Left()))]
              && Left() == old(Left())[NameLength(old(Left()))..]
    {
      hide NameLength;
      ghost var s := Left();
      var lexemeStart := index;
      while IsNameChar(Peek(0))
        invariant Valid() && lexemeStart <= index
        invariant NameLength(s) == index - lexemeStart + NameLength(Left())
        decreases |source| - index
      {
        NameStep(source, index);
        index := index + 1;
        if IsAtEnd() {
          break;
        }
      }
      NameStep(source, index);
      name := source[lexemeStart..index];
      Slices(source, lexemeStart, index);
    }
  }

  lemma LexStep(s: string, before: seq<Token>)
    requires s != ""
    ensures ScanOne(s).Bad? ==> Lex(s).None?
    ensures ScanOne(s).Skip? ==> Lex(s) == Lex(ScanOne(s).rest)
    ensures ScanOne(s).Tok? ==>
              match Lex(ScanOne(s).rest)
              case None => Lex(s) == None
              case Some(ts) =>
                && Lex(s) == Some([ScanOne(s).token] + ts)
                && before + ([ScanOne(s).token] + ts) == before + [ScanOne(s).token] + ts
  {
    hide ScanOne;
  }

  lemma DoubleFits(c: char, d: char)
    requires Double(c, d).Some?
    ensures d != '\0'
  {}
}
