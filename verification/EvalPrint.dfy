/**
 Printing an expression and reading it back: lexing and parsing the text gives the same nodes.
 */
module EvalPrint {
  import opened Options
  import opened EvalSyntax
  import opened EvalGrammar
  import opened EvalUnique
  import opened EvalLexer
  import opened EvalParser

  // ---------- Tokens as text ----------

  predicate IsName(s: string)
  {
    && |s| > 0 && (IsAlpha(s[0]) || s[0] == '_')
    && (forall i :: 0 <= i < |s| ==> IsNameChar(s[i]))
    && NameToken(s) == Identifier(s)
  }

  /** A float as the lexer takes it whole: digits, a fraction, an exponent, and not just digits. */
  predicate IsFloatLexeme(x: string)
  {
    && |x| > 0
    && FloatEnd(x + " ") == Some(|x|)
    && (if x[0] == '.' then IsDigit(PeekAt(x, 1))
        else IsDigit(x[0]) && (PeekAt(x, Digits(x)) == '.' || IsExponent(PeekAt(x, Digits(x)))))
  }

  function Quote(s: string): char
  {
    if '"' in s then '\'' else '"'
  }

  predicate Printable(t: Token)
  {
    match t
    case End => false
    case IntValue(n) => 0 <= n <= INT64_MAX
    case FloatValue(x) => IsFloatLexeme(x)
    case StringValue(s) => Quote(s) !in s
    case Identifier(name) => IsName(name)
    case _ => true
  }

  function Render(t: Token): string
  {
    match t
    case End => ""
    case OpenParen => "("
    case CloseParen => ")"
    case OpenBracket => "["
    case CloseBracket => "]"
    case OpenCurly => "{"
    case CloseCurly => "}"
    case Plus => "+"
    case Minus => "-"
    case Star => "*"
    case Slash => "/"
    case Exclamation => "!"
    case Comma => ","
    case Dot => "."
    case Dollar => "$"
    case Percent => "%"
    case Colon => ":"
    case OrOr => "||"
    case AndAnd => "&&"
    case EqEq => "=="
    case NotEq => "!="
    case Less => "<"
    case LessEq => "<="
    case Greater => ">"
    case GreaterEq => ">="
    case IntValue(n) => IntToString(n)
    case BoolValue(b) => if b then "true" else "false"
    case FloatValue(x) => x
    case StringValue(s) => [Quote(s)] + s + [Quote(s)]
    case Identifier(name) => name
    case Unit => "unit"
    case Switch => "switch"
    case If => "if"
  }

  predicate AllPrintable(ts: seq<Token>)
  {
    forall i :: 0 <= i < |ts| ==> Printable(ts[i])
  }

  /** Every token followed by a blank. */
  function RenderAll(ts: seq<Token>): string
  {
    if ts == [] then "" else Render(ts[0]) + (" " + RenderAll(ts[1..]))
  }

  // ---------- Runs of characters in front of a blank ----------

  lemma {:induction false} DigitsLocal(x: string, y: string)
    requires Digits(x) < |x|
    ensures Digits(x + y) == Digits(x)
  {
    if IsDigit(x[0]) {
      assert (x + y)[1..] == x[1..] + y;
      DigitsLocal(x[1..], y);
    }
  }

  lemma {:induction false} DigitsWhole(x: string, y: string)
    requires forall i :: 0 <= i < |x| ==> IsDigit(x[i])
    ensures Digits(x + (" " + y)) == |x|
  {
    if x == "" {
      assert (x + (" " + y))[0] == ' ';
    } else {
      assert (x + (" " + y))[1..] == x[1..] + (" " + y);
      DigitsWhole(x[1..], y);
    }
  }

  lemma {:induction false} NameWhole(x: string, y: string)
    requires forall i :: 0 <= i < |x| ==> IsNameChar(x[i])
    ensures NameLength(x + (" " + y)) == |x|
  {
    if x == "" {
      assert (x + (" " + y))[0] == ' ';
    } else {
      assert (x + (" " + y))[1..] == x[1..] + (" " + y);
      NameWhole(x[1..], y);
    }
  }

  lemma {:induction false} FindWhole(x: string, c: char, y: string)
    requires c !in x
    ensures Find(x + ([c] + y), c) == |x|
  {
    if x == "" {
      assert (x + ([c] + y))[0] == c;
    } else {
      assert x[0] in x;
      assert (x + ([c] + y))[1..] == x[1..] + ([c] + y);
      FindWhole(x[1..], c, y);
    }
  }

  // ---------- Numbers ----------

  lemma {:induction false} NatToStringDigits(n: nat)
    ensures forall i :: 0 <= i < |NatToString(n)| ==> IsDigit(NatToString(n)[i])
    ensures ValueOf(NatToString(n)) == n
  {
    var s := NatToString(n);
    if n >= 10 {
      NatToStringDigits(n / 10);
      assert s[..|s| - 1] == NatToString(n / 10);
    } else {
      assert s[..|s| - 1] == "";
    }
  }

  lemma ScanIntToken(n: nat, y: string)
    requires n <= INT64_MAX
    ensures ScanOne(NatToString(n) + (" " + y)) == Tok(IntValue(n), " " + y)
  {
    hide NatToString, ValueOf, Digits;
    var x := NatToString(n);
    var s := x + (" " + y);
    NatToStringDigits(n);
    DigitsWhole(x, y);
    assert s[..|x|] == x && s[|x|..] == " " + y;
    assert s[0] == x[0] && IsDigit(s[0]);
    assert PeekAt(s, |x|) == ' ';
    assert ScanNumber(s) == Tok(IntValue(n), " " + y);
  }

  lemma FractionLocal(x: string, y: string, k: nat)
    requires |x| > 0 && x[|x| - 1] == ' ' && k <= |x| - 1
    ensures FractionEnd(x + y, k) == FractionEnd(x, k)
  {
    hide Digits;
    assert PeekAt(x + y, k) == PeekAt(x, k);
    if PeekAt(x, k) == '.' {
      var z := x[k + 1..];
      assert (x + y)[k + 1..] == z + y;
      assert z[|z| - 1] == ' ';
      DigitsLocal(z, y);
    }
  }

  lemma ExponentLocal(x: string, y: string, k: nat)
    requires |x| > 0 && x[|x| - 1] == ' ' && k <= |x| - 1
    ensures ExponentEnd(x + y, k) == ExponentEnd(x, k)
  {
    hide Digits;
    assert PeekAt(x + y, k) == PeekAt(x, k);
    if IsExponent(PeekAt(x, k)) {
      assert PeekAt(x + y, k + 1) == PeekAt(x, k + 1);
      var k2 := if PeekAt(x, k + 1) == '+' || PeekAt(x, k + 1) == '-' then k + 2 else k + 1;
      var z := x[k2..];
      assert (x + y)[k2..] == z + y;
      assert z[|z| - 1] == ' ';
      DigitsLocal(z, y);
    }
  }

  lemma FloatLocal(x: string, y: string)
    requires |x| > 0 && x[|x| - 1] == ' '
    ensures FloatEnd(x + y) == FloatEnd(x)
  {
    hide Digits, ExponentEnd;
    DigitsLocal(x, y);
    var k := Digits(x);
    FractionLocal(x, y, k);
    match FractionEnd(x, k)
    case None =>
    case Some(k1) =>
      FractionInside(x, k);
      ExponentLocal(x, y, k1);
  }

  lemma FractionInside(x: string, k: nat)
    requires |x| > 0 && x[|x| - 1] == ' ' && k <= |x| - 1
    ensures FractionEnd(x, k).Some? ==> FractionEnd(x, k).value <= |x| - 1
  {
    if PeekAt(x, k) == '.' {
      var z := x[k + 1..];
      assert z[|z| - 1] == ' ';
    }
  }

  lemma ScanFloatWhole(x: string, y: string)
    requires IsFloatLexeme(x)
    ensures ScanOne(x + (" " + y)) == Tok(FloatValue(x), " " + y)
  {
    hide Digits, FloatEnd, Single, Double;
    var s := x + (" " + y);
    assert s == (x + " ") + y;
    FloatLocal(x + " ", y);
    assert s[..|x|] == x && s[|x|..] == " " + y && s[0] == x[0];
    NumberIsPlain(s[0]);
    if x[0] == '.' {
      assert PeekAt(s, 1) == PeekAt(x, 1);
    } else {
      var k := Digits(x);
      DigitsLocal(x, " " + y);
      assert PeekAt(s, k) == PeekAt(x, k);
    }
  }

  lemma NumberIsPlain(c: char)
    requires IsDigit(c) || c == '.' || IsAlpha(c) || c == '_'
    ensures !IsBlank(c) && Single(c) == None && forall d :: Double(c, d) == None
    ensures c != '"' && c != '\''
  {}

  // ---------- Other tokens ----------

  lemma ScanNameWhole(x: string, y: string)
    requires |x| > 0 && (IsAlpha(x[0]) || x[0] == '_')
    requires forall i :: 0 <= i < |x| ==> IsNameChar(x[i])
    ensures ScanOne(x + (" " + y)) == Tok(NameToken(x), " " + y)
  {
    hide NameLength, NameToken, Single, Double;
    var s := x + (" " + y);
    NameWhole(x, y);
    assert s[..|x|] == x && s[|x|..] == " " + y && s[0] == x[0];
    NumberIsPlain(s[0]);
  }

  lemma ScanStringWhole(x: string, c: char, y: string)
    requires (c == '"' || c == '\'') && c !in x
    ensures ScanOne([c] + x + [c] + (" " + y)) == Tok(StringValue(x), " " + y)
  {
    hide Find;
    var s := [c] + x + [c] + (" " + y);
    assert s[1..] == x + ([c] + (" " + y));
    FindWhole(x, c, " " + y);
    assert s[1..][..|x|] == x && s[1..][|x| + 1..] == " " + y;
  }

  lemma ScanSingle(c: char, y: string)
    requires Single(c).Some?
    ensures ScanOne([c] + (" " + y)) == Tok(Single(c).value, " " + y)
  {
    var s := [c] + (" " + y);
    assert s[0] == c && PeekAt(s, 1) == ' ' && s[1..] == " " + y;
  }

  lemma ScanDouble(c: char, d: char, y: string)
    requires Double(c, d).Some?
    ensures ScanOne([c, d] + (" " + y)) == Tok(Double(c, d).value, " " + y)
  {
    var s := [c, d] + (" " + y);
    assert s[0] == c && PeekAt(s, 1) == d && s[2..] == " " + y;
  }

  lemma ScanDot(y: string)
    ensures ScanOne("." + (" " + y)) == Tok(Dot, " " + y)
  {
    var s := "." + (" " + y);
    assert s[0] == '.' && PeekAt(s, 1) == ' ' && s[1..] == " " + y;
  }

  lemma ScanKeyword(t: Token, y: string)
    requires t.BoolValue? || t == Unit || t == Switch || t == If
    ensures ScanOne(Render(t) + (" " + y)) == Tok(t, " " + y)
  {
    hide ScanOne;
    var x := Render(t);
    ScanNameWhole(x, y);
    assert Canonical(x) == x;
  }

  lemma ScanRendered(t: Token, y: string)
    requires Printable(t)
    ensures ScanOne(Render(t) + (" " + y)) == Tok(t, " " + y)
  {
    hide ScanOne, IsFloatLexeme, NatToString, NameToken;
    match t
    case OpenParen => ScanSingle('(', y);
    case CloseParen => ScanSingle(')', y);
    case OpenBracket => ScanSingle('[', y);
    case CloseBracket => ScanSingle(']', y);
    case OpenCurly => ScanSingle('{', y);
    case CloseCurly => ScanSingle('}', y);
    case Plus => ScanSingle('+', y);
    case Minus => ScanSingle('-', y);
    case Star => ScanSingle('*', y);
    case Slash => ScanSingle('/', y);
    case Exclamation => ScanSingle('!', y);
    case Comma => ScanSingle(',', y);
    case Dot => ScanDot(y);
    case Dollar => ScanSingle('$', y);
    case Percent => ScanSingle('%', y);
    case Colon => ScanSingle(':', y);
    case OrOr => ScanDouble('|', '|', y);
    case AndAnd => ScanDouble('&', '&', y);
    case EqEq => ScanDouble('=', '=', y);
    case NotEq => ScanDouble('!', '=', y);
    case Less => ScanSingle('<', y);
    case LessEq => ScanDouble('<', '=', y);
    case Greater => ScanSingle('>', y);
    case GreaterEq => ScanDouble('>', '=', y);
    case IntValue(n) => ScanIntToken(n, y);
    case FloatValue(x) => ScanFloatWhole(x, y);
    case StringValue(s) => ScanStringWhole(s, Quote(s), y);
    case Identifier(name) => ScanNameWhole(name, y);
    case _ => ScanKeyword(t, y);
  }

  lemma ScanBlank(y: string)
    ensures Lex(" " + y) == Lex(y)
  {
    var s := " " + y;
    assert s[0] == ' ' && s[1..] == y;
    assert ScanOne(s) == Skip(y);
  }

  /** The lexer gives back the tokens that were printed. */
  lemma {:induction false} LexRendered(ts: seq<Token>)
    requires AllPrintable(ts)
    ensures Lex(RenderAll(ts)) == Some(ts + [End])
  {
    hide ScanOne, Render;
    if ts == [] {
      assert ts + [End] == [End];
    } else {
      var y := RenderAll(ts[1..]);
      var s := Render(ts[0]) + (" " + y);
      LexRendered(ts[1..]);
      ScanRendered(ts[0], y);
      ScanBlank(y);
      LexStep(s, []);
      assert [ts[0]] + (ts[1..] + [End]) == ts + [End];
    }
  }

  // ---------- Trees as text ----------

  predicate PrintableRef(r: Ref)
  {
    match r
    case Val(name, index) => IsName(name) && (index.Some? ==> 0 <= index.value <= INT64_MAX)
    case Prop(name, item, _) => IsName(name) && (item.Some? ==> IsName(item.value))
  }

  predicate PrintableTree(t: Tree)
  {
    match t
    case Leaf(tok) => Printable(tok)
    case Prefixed(pre, e) => Printable(pre) && PrintableTree(e)
    case Infixed(l, op, r) => PrintableTree(l) && Printable(op) && PrintableTree(r)
    case Paren(e) => PrintableTree(e)
    case Bracket(es, _) => PrintableTrees(es)
    case Cond(c, a, b) => PrintableTree(c) && PrintableTree(a) && PrintableTree(b)
    case Select(v, vs) => PrintableTree(v) && PrintableTrees(vs)
    case UnitLit(ps, _) => PrintableTrees(ps)
    case Reference(r) => PrintableRef(r)
    case ArgReference(n, r) => 0 <= n <= INT64_MAX && PrintableRef(r)
  }

  predicate PrintableTrees(ts: Trees)
  {
    match ts
    case NoTrees => true
    case Trees(t, rest) => PrintableTree(t) && PrintableTrees(rest)
  }

  lemma PrintableThen(tok: Token, k: seq<Token>)
    requires Printable(tok) && AllPrintable(k)
    ensures AllPrintable(Then(tok, k))
  {}

  lemma PrintableWrittenRef(r: Ref, k: seq<Token>)
    requires PrintableRef(r) && AllPrintable(k)
    ensures AllPrintable(WrittenRef(r, k))
  {
    hide AllPrintable, Then, IsName;
    match r
    case Val(name, index) =>
      var k1 := k;
      if index.Some? {
        PrintableThen(CloseBracket, k);
        PrintableThen(IntValue(index.value), Then(CloseBracket, k));
        k1 := Then(OpenBracket, Then(IntValue(index.value), Then(CloseBracket, k)));
        PrintableThen(OpenBracket, Then(IntValue(index.value), Then(CloseBracket, k)));
      }
      PrintableThen(Identifier(name), k1);
      PrintableThen(Dollar, Then(Identifier(name), k1));
    case Prop(name, item, call) =>
      var k1 := k;
      if call {
        PrintableThen(CloseParen, k);
        PrintableThen(OpenParen, Then(CloseParen, k));
        k1 := Then(OpenParen, Then(CloseParen, k));
      }
      if item.Some? {
        PrintableThen(Identifier(item.value), k1);
        PrintableThen(Colon, Then(Identifier(item.value), k1));
        k1 := Then(Colon, Then(Identifier(item.value), k1));
      }
      PrintableThen(Identifier(name), k1);
      PrintableThen(Percent, Then(Identifier(name), k1));
  }

  lemma {:induction false} PrintableWritten(t: Tree, k: seq<Token>)
    requires PrintableTree(t) && AllPrintable(k)
    ensures AllPrintable(Written(t, k))
    decreases t
  {
    hide AllPrintable, Then, PrintableRef;
    match t
    case Leaf(tok) => PrintableThen(tok, k);
    case Prefixed(pre, e) =>
      PrintableWritten(e, k);
      PrintableThen(pre, Written(e, k));
    case Infixed(l, op, r) =>
      PrintableWritten(r, k);
      PrintableThen(op, Written(r, k));
      PrintableWritten(l, Then(op, Written(r, k)));
    case Paren(e) =>
      PrintableThen(CloseParen, k);
      PrintableWritten(e, Then(CloseParen, k));
      PrintableThen(OpenParen, Written(e, Then(CloseParen, k)));
    case Bracket(es, tc) =>
      PrintableThen(CloseBracket, k);
      PrintableWrittenArgs(es, tc, Then(CloseBracket, k));
      PrintableThen(OpenBracket, WrittenArgs(es, tc, Then(CloseBracket, k)));
    case Cond(c, a, b) =>
      PrintableThen(CloseParen, k);
      var k1 := Then(CloseParen, k);
      PrintableWritten(b, k1);
      PrintableThen(Comma, Written(b, k1));
      var k2 := Then(Comma, Written(b, k1));
      PrintableWritten(a, k2);
      PrintableThen(Comma, Written(a, k2));
      var k3 := Then(Comma, Written(a, k2));
      PrintableWritten(c, k3);
      PrintableThen(OpenParen, Written(c, k3));
      PrintableThen(If, Then(OpenParen, Written(c, k3)));
    case Select(v, vs) =>
      PrintableThen(CloseParen, k);
      PrintableWrittenValues(vs, Then(CloseParen, k));
      var k1 := WrittenValues(vs, Then(CloseParen, k));
      PrintableWritten(v, k1);
      PrintableThen(OpenParen, Written(v, k1));
      PrintableThen(Switch, Then(OpenParen, Written(v, k1)));
    case UnitLit(ps, tc) =>
      PrintableThen(CloseParen, k);
      PrintableWrittenArgs(ps, tc, Then(CloseParen, k));
      var k1 := WrittenArgs(ps, tc, Then(CloseParen, k));
      PrintableThen(OpenParen, k1);
      PrintableThen(Unit, Then(OpenParen, k1));
    case Reference(r) => PrintableWrittenRef(r, k);
    case ArgReference(n, r) =>
      PrintableWrittenRef(r, k);
      var k1 := WrittenRef(r, k);
      PrintableThen(Dot, k1);
      PrintableThen(CloseCurly, Then(Dot, k1));
      PrintableThen(IntValue(n), Then(CloseCurly, Then(Dot, k1)));
      PrintableThen(OpenCurly, Then(IntValue(n), Then(CloseCurly, Then(Dot, k1))));
  }

  lemma {:induction false} PrintableWrittenArgs(ts: Trees, trailing: bool, k: seq<Token>)
    requires PrintableTrees(ts) && AllPrintable(k)
    ensures AllPrintable(WrittenArgs(ts, trailing, k))
    decreases ts
  {
    hide AllPrintable, Then;
    match ts
    case NoTrees =>
    case Trees(t, rest) =>
      if rest.NoTrees? && !trailing {
        PrintableWritten(t, k);
      } else {
        PrintableWrittenArgs(rest, trailing, k);
        PrintableThen(Comma, WrittenArgs(rest, trailing, k));
        PrintableWritten(t, Then(Comma, WrittenArgs(rest, trailing, k)));
      }
  }

  lemma {:induction false} PrintableWrittenValues(ts: Trees, k: seq<Token>)
    requires PrintableTrees(ts) && AllPrintable(k)
    ensures AllPrintable(WrittenValues(ts, k))
    decreases ts
  {
    hide AllPrintable, Then;
    match ts
    case NoTrees =>
    case Trees(t, rest) =>
      PrintableWrittenValues(rest, k);
      PrintableWritten(t, WrittenValues(rest, k));
      PrintableThen(Comma, Written(t, WrittenValues(rest, k)));
  }

  lemma {:induction false} EndExtendsNothing(t: Tree)
    ensures !Extends(t, End)
  {
    match t
    case Prefixed(_, e) => EndExtendsNothing(e);
    case Infixed(_, _, r) => EndExtendsNothing(r);
    case _ =>
  }

  /** Any grammatical way of writing an expression is read back as it was written. */
  lemma PrintedTreeIsRead(t: Tree, funcs: bool)
    requires Grammatical(t, MIN_PRECEDENCE, funcs) && PrintableTree(t)
    ensures var tokens := Lex(RenderAll(Written(t, [])));
            && tokens.Some? && Ends(tokens.value)
            && ParseExpr(tokens.value, MIN_PRECEDENCE, funcs) == Ok(t, [End])
  {
    hide ParseExpr, Grammatical, PrintableTree, Written, Extends;
    PrintableWritten(t, []);
    LexRendered(Written(t, []));
    WrittenAppend(t, [], [End]);
    assert [] + [End] == [End];
    EndExtendsNothing(t);
    CompleteExpr(t, MIN_PRECEDENCE, funcs, [End]);
  }

  // ---------- Nodes as text ----------

  function TokenOf(op: BinOperation): (t: Token)
    ensures IsInfix(t) && BinaryOf(t) == op && Printable(t)
  {
    match op
    case Equals => EqEq
    case NotEquals => NotEq
    case LessThan => Less
    case LessOrEqual => LessEq
    case GreaterThan => Greater
    case GreaterOrEqual => GreaterEq
    case LogOr => OrOr
    case LogAnd => AndAnd
    case AddOp => Plus
    case SubOp => Minus
    case MulOp => Star
    case DivOp => Slash
  }

  ghost predicate Names(r: Ref, str: string, refType: RefType)
  {
    RefOk(r) && PrintableRef(r) && RefString(r) == str && RefTypeOf(r) == refType
  }

  /** The nodes of the language: literals that can be written, references that can be spelled. */
  ghost predicate Expressible(n: Node, funcs: bool)
    decreases n
  {
    match n
    case FloatConst(x) => IsFloatLexeme(x)
    case IntConst(i) => 0 <= i <= INT64_MAX
    case BoolConst(_) => true
    case StringConst(s) => Quote(s) !in s
    case UnaryOp(_, e) => Expressible(e, funcs)
    case BinaryOp(_, l, r) => Expressible(l, funcs) && Expressible(r, funcs)
    case ListNode(es) => forall i :: 0 <= i < |es| ==> Expressible(es[i], funcs)
    case IfNode(c, a, b) => Expressible(c, funcs) && Expressible(a, funcs) && Expressible(b, funcs)
    case SwitchNode(v, vs) => |vs| >= 2 && Expressible(v, funcs) && forall i :: 0 <= i < |vs| ==>
        Expressible(vs[i], funcs)
    case UnitNode(ps) => 1 <= |ps| <= 4 && forall i :: 0 <= i < |ps| ==> Expressible(ps[i], funcs)
    case RefNode(str, ty, arg) =>
      if ty == FuncRef then funcs && arg == -1 && IsName(str)
      else -0x8000_0000 <= arg < 0x8000_0000 && exists r :: Names(r, str, ty)
  }

  ghost function RefOf(str: string, ty: RefType): (r: Ref)
    requires exists r :: Names(r, str, ty)
    ensures Names(r, str, ty)
  {
    var r :| Names(r, str, ty); r
  }

  /** A way of writing a node: every operator application in parentheses. */
  ghost function TreeOf(n: Node, funcs: bool): Tree
    requires Expressible(n, funcs)
    decreases n
  {
    match n
    case FloatConst(x) => Leaf(FloatValue(x))
    case IntConst(i) => Leaf(IntValue(i))
    case BoolConst(b) => Leaf(BoolValue(b))
    case StringConst(s) => Leaf(StringValue(s))
    case UnaryOp(op, e) => Prefixed(if op == Negate then Minus else Exclamation, TreeOf(e, funcs))
    case BinaryOp(op, l, r) => Paren(Infixed(TreeOf(l, funcs), TokenOf(op), TreeOf(r, funcs)))
    case ListNode(es) => Bracket(TreesOf(es, funcs), false)
    case IfNode(c, a, b) => Cond(TreeOf(c, funcs), TreeOf(a, funcs), TreeOf(b, funcs))
    case SwitchNode(v, vs) => Select(TreeOf(v, funcs), TreesOf(vs, funcs))
    case UnitNode(ps) => UnitLit(TreesOf(ps, funcs), false)
    case RefNode(str, ty, arg) =>
      if ty == FuncRef then Leaf(Identifier(str))
      else if arg == -1 then Reference(RefOf(str, ty))
      else ArgReference(if arg >= 0 then arg else arg + 0x1_0000_0000, RefOf(str, ty))
  }

  ghost function TreesOf(ns: seq<Node>, funcs: bool): Trees
    requires forall i :: 0 <= i < |ns| ==> Expressible(ns[i], funcs)
    decreases ns
  {
    if ns == [] then NoTrees else Trees(TreeOf(ns[0], funcs), TreesOf(ns[1..], funcs))
  }

  /** That way of writing it is grammatical anywhere, printable, and means the node. */
  ghost predicate Writes(t: Tree, n: Node, funcs: bool)
  {
    !t.Infixed? && Grammatical(t, PREFIX, funcs) && PrintableTree(t) && Abstract(t) == n
  }

  lemma AnyLevel(t: Tree, p: int, funcs: bool)
    requires !t.Infixed? && Grammatical(t, PREFIX, funcs)
    ensures Grammatical(t, p, funcs)
  {}

  lemma WritesBinary(op: BinOperation, l: Tree, r: Tree, ln: Node, rn: Node, funcs: bool)
    requires Writes(l, ln, funcs) && Writes(r, rn, funcs)
    ensures Writes(Paren(Infixed(l, TokenOf(op), r)), BinaryOp(op, ln, rn), funcs)
  {
    hide TokenOf, InfixPrecedence, BinaryOf, Printable;
    var tok := TokenOf(op);
    var t := Infixed(l, tok, r);
    AnyLevel(l, InfixPrecedence(tok) - 1, funcs);
    AnyLevel(r, InfixPrecedence(tok), funcs);
    assert Grammatical(t, MIN_PRECEDENCE, funcs);
    assert PrintableTree(t);
    assert Abstract(t) == BinaryOp(op, ln, rn);
  }

  lemma WritesUnary(op: UnaryOperation, e: Tree, en: Node, funcs: bool)
    requires Writes(e, en, funcs)
    ensures Writes(Prefixed(if op == Negate then Minus else Exclamation, e), UnaryOp(op, en), funcs)
  {}

  lemma WritesLists(v: Tree, vn: Node, ts: Trees, ns: seq<Node>, funcs: bool)
    requires AllGrammatical(ts, funcs) && PrintableTrees(ts) && AbstractAll(ts) == ns && Count(ts) == |ns|
    ensures Writes(Bracket(ts, false), ListNode(ns), funcs)
    ensures 1 <= |ns| <= 4 ==> Writes(UnitLit(ts, false), UnitNode(ns), funcs)
    ensures |ns| >= 2 && Writes(v, vn, funcs) ==> Writes(Select(v, ts), SwitchNode(vn, ns), funcs)
  {
    if Writes(v, vn, funcs) {
      AnyLevel(v, MIN_PRECEDENCE, funcs);
    }
  }

  lemma WritesLiteral(n: Node, funcs: bool)
    requires Expressible(n, funcs) && (n.FloatConst? || n.IntConst? || n.BoolConst? || n.StringConst?)
    ensures Writes(TreeOf(n, funcs), n, funcs)
  {
    hide IsFloatLexeme;
  }

  lemma WritesRef(str: string, ty: RefType, arg: int, funcs: bool)
    requires Expressible(RefNode(str, ty, arg), funcs)
    ensures Writes(TreeOf(RefNode(str, ty, arg), funcs), RefNode(str, ty, arg), funcs)
  {
    hide IsName;
  }

  lemma WritesCond(c: Tree, a: Tree, b: Tree, cn: Node, an: Node, bn: Node, funcs: bool)
    requires Writes(c, cn, funcs) && Writes(a, an, funcs) && Writes(b, bn, funcs)
    ensures Writes(Cond(c, a, b), IfNode(cn, an, bn), funcs)
  {
    AnyLevel(c, MIN_PRECEDENCE, funcs);
    AnyLevel(a, MIN_PRECEDENCE, funcs);
    AnyLevel(b, MIN_PRECEDENCE, funcs);
  }

  lemma {:induction false} TreeOfWrites(n: Node, funcs: bool)
    requires Expressible(n, funcs)
    ensures Writes(TreeOf(n, funcs), n, funcs)
    decreases n
  {
    hide Writes, TokenOf, Grammatical, PrintableTree, Abstract, IsFloatLexeme, IsName;
    match n
    case UnaryOp(op, e) =>
      TreeOfWrites(e, funcs);
      WritesUnary(op, TreeOf(e, funcs), e, funcs);
    case BinaryOp(op, l, r) =>
      TreeOfWrites(l, funcs);
      TreeOfWrites(r, funcs);
      WritesBinary(op, TreeOf(l, funcs), TreeOf(r, funcs), l, r, funcs);
    case ListNode(es) =>
      TreesOfWrites(es, funcs);
      WritesLists(Leaf(Plus), BoolConst(true), TreesOf(es, funcs), es, funcs);
    case IfNode(c, a, b) =>
      TreeOfWrites(c, funcs);
      TreeOfWrites(a, funcs);
      TreeOfWrites(b, funcs);
      WritesCond(TreeOf(c, funcs), TreeOf(a, funcs), TreeOf(b, funcs), c, a, b, funcs);
    case SwitchNode(v, vs) =>
      TreeOfWrites(v, funcs);
      TreesOfWrites(vs, funcs);
      WritesLists(TreeOf(v, funcs), v, TreesOf(vs, funcs), vs, funcs);
    case UnitNode(ps) =>
      TreesOfWrites(ps, funcs);
      WritesLists(Leaf(Plus), BoolConst(true), TreesOf(ps, funcs), ps, funcs);
    case RefNode(str, ty, arg) => WritesRef(str, ty, arg, funcs);
    case _ => WritesLiteral(n, funcs);
  }

  lemma {:induction false} TreesOfWrites(ns: seq<Node>, funcs: bool)
    requires forall i :: 0 <= i < |ns| ==> Expressible(ns[i], funcs)
    ensures var ts := TreesOf(ns, funcs);
            AllGrammatical(ts, funcs) && PrintableTrees(ts) && AbstractAll(ts) == ns && Count(ts) == |ns|
    decreases ns
  {
    if ns != [] {
      TreeOfWrites(ns[0], funcs);
      AnyLevel(TreeOf(ns[0], funcs), MIN_PRECEDENCE, funcs);
      TreesOfWrites(ns[1..], funcs);
    }
  }

  /** Text for a node. */
  ghost function Print(n: Node, funcs: bool): string
    requires Expressible(n, funcs)
  {
    RenderAll(Written(TreeOf(n, funcs), []))
  }

  // ---------- parseEvalValue ----------

  /** The nodes and properties a text stands for, if it is accepted. */
  ghost function Meaning(text: string, funcs: bool): Option<(Node, set<string>)>
  {
    match Lex(text)
    case None => None
    case Some(ts) =>
      if !Ends(ts) then None
      else
        match ParseExpr(ts, MIN_PRECEDENCE, funcs)
        case Fail => None
        case Ok(t, _) => Some((Abstract(t), Properties(t)))
  }

  lemma {:induction false} LexEnds(s: string)
    ensures Lex(s).Some? ==> Ends(Lex(s).value)
    decreases |s|
  {
    hide ScanOne;
    if s != "" {
      var r := ScanOne(s);
      if !r.Bad? {
        LexEnds(r.rest);
      }
    }
  }

  method ParseEvalValue(str: string, useFunctionAsReferenceResolver: bool) returns (r: Option<(Node, set<string>)>)
    ensures r == Meaning(str, useFunctionAsReferenceResolver)
  {
    hide ParseExpr, Lex;
    LexEnds(str);
    var lexer := new EvalValueLexer(str);
    var tokens := lexer.Tokenize();
    if tokens.None? {
      return None;
    }
    var parser := new EvalValueParser(tokens.value, useFunctionAsReferenceResolver);
    var node := parser.Parse();
    if node.None? {
      return None;
    }
    ghost var t := ParseExpr(tokens.value, MIN_PRECEDENCE, useFunctionAsReferenceResolver).value;
    assert {} + Properties(t) == Properties(t);
    r := Some((node.value, parser.propertyReferences));
  }

  /** Printing, lexing and parsing is the identity on every node of the language. */
  lemma PrintParse(n: Node, funcs: bool)
    requires Expressible(n, funcs)
    ensures Meaning(Print(n, funcs), funcs).Some? && Meaning(Print(n, funcs), funcs).value.0 == n
  {
    hide ParseExpr, Lex, Expressible;
    TreeOfWrites(n, funcs);
    AnyLevel(TreeOf(n, funcs), MIN_PRECEDENCE, funcs);
    PrintedTreeIsRead(TreeOf(n, funcs), funcs);
  }
}
