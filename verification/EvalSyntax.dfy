/**
 The EvalValue expression language: tokens, the nodes the parser builds, and the grammar,
 stated as a set of concrete trees with the tokens each one is written with.
 */
module EvalSyntax {
  import opened Options

  datatype Token =
    | End
    | OpenParen | CloseParen | OpenBracket | CloseBracket | OpenCurly | CloseCurly
    | Plus | Minus | Star | Slash | Exclamation | Comma | Dot | Dollar | Percent | Colon
    | OrOr | AndAnd | EqEq | NotEq | Less | LessEq | Greater | GreaterEq
    | IntValue(n: int) | BoolValue(b: bool) | FloatValue(lexeme: string) | StringValue(s: string)
    | Identifier(name: string) | Unit
    | Switch | If

  datatype BinOperation =
    | Equals | NotEquals | LessThan | LessOrEqual | GreaterThan | GreaterOrEqual
    | LogOr | LogAnd | AddOp | SubOp | MulOp | DivOp

  datatype UnaryOperation = Negate | LogNegate

  datatype RefType = ValueRef | PropertyRef | SelectedValueRef | PropertyNamesRef | FuncRef

  /** daq::BaseNode and its subclasses. */
  datatype Node =
    | FloatConst(lexeme: string) | IntConst(n: int) | BoolConst(b: bool) | StringConst(s: string)
    | UnaryOp(uop: UnaryOperation, exp: Node)
    | BinaryOp(bop: BinOperation, left: Node, right: Node)
    | ListNode(elements: seq<Node>)
    | IfNode(cond: Node, ifTrue: Node, ifFalse: Node)
    | SwitchNode(variable: Node, values: seq<Node>)
    | UnitNode(params: seq<Node>)
    | RefNode(refStr: string, refType: RefType, argIndex: int)

  // ---------- Precedence (EvalValueParser::OperatorPrecedence) ----------

  const MIN_PRECEDENCE := 0
  const LOGIC := 1
  const EQUALITY := 2
  const TERM := 3
  const FACTOR := 4
  const PREFIX := 5

  /** infixTokenPrecedence */
  function InfixPrecedence(t: Token): (p: int)
    ensures MIN_PRECEDENCE <= p < PREFIX
  {
    match t
    case EqEq => EQUALITY
    case NotEq => EQUALITY
    case Less => EQUALITY
    case LessEq => EQUALITY
    case Greater => EQUALITY
    case GreaterEq => EQUALITY
    case AndAnd => LOGIC
    case OrOr => LOGIC
    case Plus => TERM
    case Minus => TERM
    case Star => FACTOR
    case Slash => FACTOR
    case _ => MIN_PRECEDENCE
  }

  predicate IsInfix(t: Token) { InfixPrecedence(t) > MIN_PRECEDENCE }

  function BinaryOf(t: Token): BinOperation
    requires IsInfix(t)
  {
    match t
    case EqEq => Equals
    case NotEq => NotEquals
    case Less => LessThan
    case LessEq => LessOrEqual
    case Greater => GreaterThan
    case GreaterEq => GreaterOrEqual
    case AndAnd => LogAnd
    case OrOr => LogOr
    case Plus => AddOp
    case Minus => SubOp
    case Star => MulOp
    case Slash => DivOp
  }

  // ---------- Text helpers ----------

  function ToLower(c: char): char
  {
    if 'A' <= c <= 'Z' then c - 'A' + 'a' else c
  }

  /** EvalValueToken::toCanonicalForm */
  function Canonical(s: string): (r: string)
    ensures |r| == |s|
  {
    seq(|s|, i requires 0 <= i < |s| => ToLower(s[i]))
  }

  function Digit(d: int): char
    requires 0 <= d < 10
  {
    '0' + d as char
  }

  function NatToString(n: nat): (s: string)
    ensures |s| > 0
  {
    if n < 10 then [Digit(n)] else NatToString(n / 10) + [Digit(n % 10)]
  }

  /** std::to_string */
  function IntToString(n: int): string
  {
    if n < 0 then "-" + NatToString(-n) else NatToString(n)
  }

  /** static_cast<int>(int64_t): the low 32 bits, read as a signed number. */
  function ToInt32(n: int): (r: int)
    ensures -0x8000_0000 <= r < 0x8000_0000
    ensures (n - r) % 0x1_0000_0000 == 0
  {
    var m := n % 0x1_0000_0000;
    if m < 0x8000_0000 then m else m - 0x1_0000_0000
  }

  // ---------- Concrete trees ----------

  /** valref and propref of the grammar. */
  datatype Ref =
    | Val(name: string, index: Option<int>)
    | Prop(name: string, item: Option<string>, call: bool)

  datatype Tree =
    | Leaf(tok: Token)
    | Prefixed(pre: Token, operand: Tree)
    | Infixed(lhs: Tree, op: Token, rhs: Tree)
    | Paren(inner: Tree)
    | Bracket(elements: Trees, trailingComma: bool)
    | Cond(cond: Tree, ifTrue: Tree, ifFalse: Tree)
    | Select(variable: Tree, values: Trees)
    | UnitLit(params: Trees, trailing: bool)
    | Reference(ref: Ref)
    | ArgReference(arg: int, aref: Ref)

  datatype Trees = NoTrees | Trees(head: Tree, tail: Trees)

  function Count(ts: Trees): nat
  {
    if ts.NoTrees? then 0 else 1 + Count(ts.tail)
  }

  // ---------- The tokens a tree is written with ----------

  /** The token tok and then the tokens k. */
  function Then(tok: Token, k: seq<Token>): seq<Token>
  {
    [tok] + k
  }

  function WrittenRef(r: Ref, k: seq<Token>): seq<Token>
  {
    match r
    case Val(name, index) =>
      Then(Dollar, Then(Identifier(name),
        if index.Some? then Then(OpenBracket, Then(IntValue(index.value), Then(CloseBracket, k))) else k))
    case Prop(name, item, call) =>
      var k' := if call then Then(OpenParen, Then(CloseParen, k)) else k;
      Then(Percent, Then(Identifier(name), if item.Some? then Then(Colon, Then(Identifier(item.value), k')) else k'))
  }

  /** The tokens of t, in order, and then the tokens k. */
  function Written(t: Tree, k: seq<Token>): seq<Token>
    decreases t
  {
    match t
    case Leaf(tok) => Then(tok, k)
    case Prefixed(pre, e) => Then(pre, Written(e, k))
    case Infixed(l, op, r) => Written(l, Then(op, Written(r, k)))
    case Paren(e) => Then(OpenParen, Written(e, Then(CloseParen, k)))
    case Bracket(es, tc) => Then(OpenBracket, WrittenArgs(es, tc, Then(CloseBracket, k)))
    case Cond(c, a, b) =>
      Then(If, Then(OpenParen, Written(c, Then(Comma, Written(a, Then(Comma, Written(b, Then(CloseParen, k))))))))
    case Select(v, vs) => Then(Switch, Then(OpenParen, Written(v, WrittenValues(vs, Then(CloseParen, k)))))
    case UnitLit(ps, tc) => Then(Unit, Then(OpenParen, WrittenArgs(ps, tc, Then(CloseParen, k))))
    case Reference(r) => WrittenRef(r, k)
    case ArgReference(n, r) => Then(OpenCurly, Then(IntValue(n), Then(CloseCurly, Then(Dot, WrittenRef(r, k)))))
  }

  /** Comma-separated, with or without a comma after the last. */
  function WrittenArgs(ts: Trees, trailing: bool, k: seq<Token>): seq<Token>
    decreases ts
  {
    match ts
    case NoTrees => k
    case Trees(t, rest) =>
      Written(t, if rest.NoTrees? && !trailing then k else Then(Comma, WrittenArgs(rest, trailing, k)))
  }

  /** Each with a comma before it. */
  function WrittenValues(ts: Trees, k: seq<Token>): seq<Token>
    decreases ts
  {
    match ts
    case NoTrees => k
    case Trees(t, rest) => Then(Comma, Written(t, WrittenValues(rest, k)))
  }

  lemma ThenAppend(tok: Token, k: seq<Token>, m: seq<Token>)
    ensures Then(tok, k + m) == Then(tok, k) + m
  {}

  /** Writing a tree in front of k + m is writing it in front of k, and m after that. */
  lemma {:induction false} WrittenAppend(t: Tree, k: seq<Token>, m: seq<Token>)
    ensures Written(t, k + m) == Written(t, k) + m
    decreases t
  {
    hide Then;
    match t
    case Leaf(tok) => ThenAppend(tok, k, m);
    case Prefixed(pre, e) =>
      WrittenAppend(e, k, m);
      ThenAppend(pre, Written(e, k), m);
    case Infixed(l, op, r) =>
      WrittenAppend(r, k, m);
      ThenAppend(op, Written(r, k), m);
      WrittenAppend(l, Then(op, Written(r, k)), m);
    case Paren(e) =>
      ThenAppend(CloseParen, k, m);
      WrittenAppend(e, Then(CloseParen, k), m);
      ThenAppend(OpenParen, Written(e, Then(CloseParen, k)), m);
    case Bracket(es, tc) =>
      ThenAppend(CloseBracket, k, m);
      WrittenArgsAppend(es, tc, Then(CloseBracket, k), m);
      ThenAppend(OpenBracket, WrittenArgs(es, tc, Then(CloseBracket, k)), m);
    case Cond(c, a, b) =>
      var k1 := Then(CloseParen, k);
      var k2 := Written(b, k1);
      var k3 := Written(a, Then(Comma, k2));
      var k4 := Written(c, Then(Comma, k3));
      ThenAppend(CloseParen, k, m);
      WrittenAppend(b, k1, m);
      ThenAppend(Comma, k2, m);
      WrittenAppend(a, Then(Comma, k2), m);
      ThenAppend(Comma, k3, m);
      WrittenAppend(c, Then(Comma, k3), m);
      ThenAppend(OpenParen, k4, m);
      ThenAppend(If, Then(OpenParen, k4), m);
    case Select(v, vs) =>
      ThenAppend(CloseParen, k, m);
      WrittenValuesAppend(vs, Then(CloseParen, k), m);
      var k1 := WrittenValues(vs, Then(CloseParen, k));
      WrittenAppend(v, k1, m);
      ThenAppend(OpenParen, Written(v, k1), m);
      ThenAppend(Switch, Then(OpenParen, Written(v, k1)), m);
    case UnitLit(ps, tc) =>
      ThenAppend(CloseParen, k, m);
      WrittenArgsAppend(ps, tc, Then(CloseParen, k), m);
      var k1 := WrittenArgs(ps, tc, Then(CloseParen, k));
      ThenAppend(OpenParen, k1, m);
      ThenAppend(Unit, Then(OpenParen, k1), m);
    case Reference(r) => WrittenRefAppend(r, k, m);
    case ArgReference(n, r) =>
      WrittenRefAppend(r, k, m);
      var k1 := WrittenRef(r, k);
      ThenAppend(Dot, k1, m);
      ThenAppend(CloseCurly, Then(Dot, k1), m);
      ThenAppend(IntValue(n), Then(CloseCurly, Then(Dot, k1)), m);
      ThenAppend(OpenCurly, Then(IntValue(n), Then(CloseCurly, Then(Dot, k1))), m);
  }

  lemma WrittenRefAppend(r: Ref, k: seq<Token>, m: seq<Token>)
    ensures WrittenRef(r, k + m) == WrittenRef(r, k) + m
  {
    hide Then;
    match r
    case Val(name, index) =>
      var k1 := k;
      if index.Some? {
        ThenAppend(CloseBracket, k, m);
        ThenAppend(IntValue(index.value), Then(CloseBracket, k), m);
        ThenAppend(OpenBracket, Then(IntValue(index.value), Then(CloseBracket, k)), m);
        k1 := Then(OpenBracket, Then(IntValue(index.value), Then(CloseBracket, k)));
      }
      ThenAppend(Identifier(name), k1, m);
      ThenAppend(Dollar, Then(Identifier(name), k1), m);
    case Prop(name, item, call) =>
      var k1 := k;
      if call {
        ThenAppend(CloseParen, k, m);
        ThenAppend(OpenParen, Then(CloseParen, k), m);
        k1 := Then(OpenParen, Then(CloseParen, k));
      }
      if item.Some? {
        ThenAppend(Identifier(item.value), k1, m);
        ThenAppend(Colon, Then(Identifier(item.value), k1), m);
        k1 := Then(Colon, Then(Identifier(item.value), k1));
      }
      ThenAppend(Identifier(name), k1, m);
      ThenAppend(Percent, Then(Identifier(name), k1), m);
  }

  lemma {:induction false} WrittenArgsAppend(ts: Trees, trailing: bool, k: seq<Token>, m: seq<Token>)
    ensures WrittenArgs(ts, trailing, k + m) == WrittenArgs(ts, trailing, k) + m
    decreases ts
  {
    hide Then;
    match ts
    case NoTrees =>
    case Trees(t, rest) =>
      if rest.NoTrees? && !trailing {
        WrittenAppend(t, k, m);
      } else {
        WrittenArgsAppend(rest, trailing, k, m);
        ThenAppend(Comma, WrittenArgs(rest, trailing, k), m);
        WrittenAppend(t, Then(Comma, WrittenArgs(rest, trailing, k)), m);
      }
  }

  lemma {:induction false} WrittenValuesAppend(ts: Trees, k: seq<Token>, m: seq<Token>)
    ensures WrittenValues(ts, k + m) == WrittenValues(ts, k) + m
    decreases ts
  {
    hide Then;
    match ts
    case NoTrees =>
    case Trees(t, rest) =>
      WrittenValuesAppend(rest, k, m);
      WrittenAppend(t, WrittenValues(rest, k), m);
      ThenAppend(Comma, Written(t, WrittenValues(rest, k)), m);
  }

  // ---------- The grammar ----------

  predicate IsLiteral(t: Token)
  {
    t.FloatValue? || t.IntValue? || t.BoolValue? || t.StringValue?
  }

  predicate IsItem(s: string)
  {
    Canonical(s) in {"value", "selectedvalue", "propertynames"}
  }

  predicate RefOk(r: Ref)
  {
    r.Prop? && r.item.Some? ==> IsItem(r.item.value)
  }

  /**
   Trees that may stand where operators must bind tighter than level p. An operator of level q > p
   takes a left operand of level at least q and a right operand above q: left associativity, and
   the precedence table of the language. Function names are allowed only if `funcs` is set.
   */
  predicate Grammatical(t: Tree, p: int, funcs: bool)
    decreases t
  {
    match t
    case Leaf(tok) => IsLiteral(tok) || (tok.Identifier? && funcs)
    case Prefixed(pre, e) => (pre == Exclamation || pre == Minus) && Grammatical(e, PREFIX, funcs)
    case Infixed(l, op, r) =>
      && InfixPrecedence(op) > p
      && IsInfix(op)
      && Grammatical(l, InfixPrecedence(op) - 1, funcs)
      && Grammatical(r, InfixPrecedence(op), funcs)
    case Paren(e) => Grammatical(e, MIN_PRECEDENCE, funcs)
    case Bracket(es, tc) => AllGrammatical(es, funcs) && (tc ==> es.Trees?)
    case Cond(c, a, b) =>
      Grammatical(c, MIN_PRECEDENCE, funcs) && Grammatical(a, MIN_PRECEDENCE, funcs)
          && Grammatical(b, MIN_PRECEDENCE, funcs)
    case Select(v, vs) => Grammatical(v, MIN_PRECEDENCE, funcs) && AllGrammatical(vs, funcs) && Count(vs) >= 2
    case UnitLit(ps, tc) => AllGrammatical(ps, funcs) && 1 <= Count(ps) <= 4
    case Reference(r) => RefOk(r)
    case ArgReference(n, r) => RefOk(r)
  }

  predicate AllGrammatical(ts: Trees, funcs: bool)
    decreases ts
  {
    match ts
    case NoTrees => true
    case Trees(t, rest) => Grammatical(t, MIN_PRECEDENCE, funcs) && AllGrammatical(rest, funcs)
  }

  /** A reference at the right end of t that would go on with the token tok. */
  predicate RefExtends(r: Ref, tok: Token)
  {
    match r
    case Val(_, index) => index.None? && tok == OpenBracket
    case Prop(_, item, call) => !call && ((item.None? && tok == Colon) || tok == OpenParen)
  }

  predicate Extends(t: Tree, tok: Token)
    decreases t
  {
    match t
    case Prefixed(_, e) => Extends(e, tok)
    case Infixed(_, _, r) => Extends(r, tok)
    case Reference(r) => RefExtends(r, tok)
    case ArgReference(_, r) => RefExtends(r, tok)
    case _ => false
  }

  // ---------- What a tree means ----------

  function RefString(r: Ref): string
  {
    match r
    case Val(name, index) => if index.Some? then name + "[" + IntToString(index.value) + "]" else name
    case Prop(name, item, _) => if item.Some? then name + ":" + Canonical(item.value) else name
  }

  function RefTypeOf(r: Ref): RefType
  {
    match r
    case Val(_, _) => ValueRef
    case Prop(_, item, _) =>
      if item.None? then PropertyRef
      else if Canonical(item.value) == "value" then ValueRef
      else if Canonical(item.value) == "selectedvalue" then SelectedValueRef
      else PropertyNamesRef
  }

  function LeafNode(tok: Token): Node
  {
    match tok
    case FloatValue(x) => FloatConst(x)
    case IntValue(n) => IntConst(n)
    case BoolValue(b) => BoolConst(b)
    case StringValue(s) => StringConst(s)
    case Identifier(name) => RefNode(name, FuncRef, -1)
    case _ => BoolConst(false)
  }

  /** The node tree of a concrete tree: brackets, commas and call parentheses are dropped. */
  function Abstract(t: Tree): Node
    decreases t
  {
    match t
    case Leaf(tok) => LeafNode(tok)
    case Prefixed(pre, e) => UnaryOp(if pre == Minus then Negate else LogNegate, Abstract(e))
    case Infixed(l, op, r) => BinaryOp(if IsInfix(op) then BinaryOf(op) else AddOp, Abstract(l), Abstract(r))
    case Paren(e) => Abstract(e)
    case Bracket(es, _) => ListNode(AbstractAll(es))
    case Cond(c, a, b) => IfNode(Abstract(c), Abstract(a), Abstract(b))
    case Select(v, vs) => SwitchNode(Abstract(v), AbstractAll(vs))
    case UnitLit(ps, _) => UnitNode(AbstractAll(ps))
    case Reference(r) => RefNode(RefString(r), RefTypeOf(r), -1)
    case ArgReference(n, r) => RefNode(RefString(r), RefTypeOf(r), ToInt32(n))
  }

  function AbstractAll(ts: Trees): (ns: seq<Node>)
    ensures |ns| == Count(ts)
    decreases ts
  {
    match ts
    case NoTrees => []
    case Trees(t, rest) => [Abstract(t)] + AbstractAll(rest)
  }

  function RefProperties(r: Ref): set<string>
  {
    if RefTypeOf(r) == PropertyRef then {RefString(r)} else {}
  }

  /** The properties an expression refers to. */
  function Properties(t: Tree): set<string>
    decreases t
  {
    match t
    case Leaf(_) => {}
    case Prefixed(_, e) => Properties(e)
    case Infixed(l, _, r) => Properties(l) + Properties(r)
    case Paren(e) => Properties(e)
    case Bracket(es, _) => PropertiesAll(es)
    case Cond(c, a, b) => Properties(c) + Properties(a) + Properties(b)
    case Select(v, vs) => Properties(v) + PropertiesAll(vs)
    case UnitLit(ps, _) => PropertiesAll(ps)
    case Reference(r) => RefProperties(r)
    case ArgReference(_, r) => RefProperties(r)
  }

  function PropertiesAll(ts: Trees): set<string>
    decreases ts
  {
    match ts
    case NoTrees => {}
    case Trees(t, rest) => Properties(t) + PropertiesAll(rest)
  }
}
