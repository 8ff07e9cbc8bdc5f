/**
 What expressions mean, stated with token classes and written-out nodes: how operators group, what a
 prefix operator takes, and what each form, reference and lexeme stands for.
 */
module EvalReadings {
  import opened Options
  import opened EvalSyntax
  import opened EvalGrammar
  import opened EvalUnique
  import opened EvalLexer
  import opened EvalPrint

  // ---------- Flat expressions ----------

  /** The operators, from those that bind tightest to those that bind loosest. */
  const CLASSES: seq<set<Token>> := [
    {Star, Slash},
    {Plus, Minus},
    {EqEq, NotEq, Less, LessEq, Greater, GreaterEq},
    {AndAnd, OrOr}]

  predicate IsOperator(tok: Token)
  {
    tok in CLASSES[0] || tok in CLASSES[1] || tok in CLASSES[2] || tok in CLASSES[3]
  }

  function ClassOf(tok: Token): (c: nat)
    requires IsOperator(tok)
    ensures c < |CLASSES| && tok in CLASSES[c]
  {
    if tok in CLASSES[0] then 0 else if tok in CLASSES[1] then 1 else if tok in CLASSES[2] then 2 else 3
  }

  /** The first operator binds tighter than the second. */
  predicate Tighter(a: Token, b: Token)
    requires IsOperator(a) && IsOperator(b)
  {
    ClassOf(a) < ClassOf(b)
  }

  /** A literal, any expression in parentheses, or such an operand behind prefix operators. */
  predicate IsOperand(t: Tree, funcs: bool)
    decreases t
  {
    match t
    case Leaf(tok) => IsLiteral(tok)
    case Prefixed(pre, e) => pre in {Minus, Exclamation} && IsOperand(e, funcs)
    case Paren(e) => Grammatical(e, MIN_PRECEDENCE, funcs)
    case _ => false
  }

  ghost predicate IsFlat(xs: seq<Tree>, ops: seq<Token>, funcs: bool)
  {
    && |xs| == |ops| + 1
    && (forall i :: 0 <= i < |xs| ==> IsOperand(xs[i], funcs))
    && (forall i :: 0 <= i < |ops| ==> IsOperator(ops[i]))
  }

  /** Operands and operators in turn, and then the tokens k. */
  ghost function FlatTokens(xs: seq<Tree>, ops: seq<Token>, k: seq<Token>): seq<Token>
    requires |xs| == |ops| + 1
    decreases |ops|
  {
    if ops == [] then Written(xs[0], k) else Written(xs[0], Then(ops[0], FlatTokens(xs[1..], ops[1..], k)))
  }

  /** The last of the loosest operators. */
  function Root(ops: seq<Token>): (k: nat)
    requires ops != [] && forall i :: 0 <= i < |ops| ==> IsOperator(ops[i])
    ensures k < |ops|
    ensures forall i :: 0 <= i < k ==> !Tighter(ops[k], ops[i])
    ensures forall i :: k < i < |ops| ==> Tighter(ops[i], ops[k])
    decreases |ops|
  {
    if |ops| == 1 then 0
    else
      var k := Root(ops[..|ops| - 1]);
      if Tighter(ops[|ops| - 1], ops[k]) then k else |ops| - 1
  }

  /** Each expression splits at the last of its loosest operators. */
  function FlatTree(xs: seq<Tree>, ops: seq<Token>): Tree
    requires |xs| == |ops| + 1 && forall i :: 0 <= i < |ops| ==> IsOperator(ops[i])
    decreases |ops|
  {
    if ops == [] then xs[0]
    else
      var k := Root(ops);
      Infixed(FlatTree(xs[..k + 1], ops[..k]), ops[k], FlatTree(xs[k + 1..], ops[k + 1..]))
  }

  lemma Levels(a: Token, b: Token)
    requires IsOperator(a) && IsOperator(b)
    ensures Tighter(a, b) <==> InfixPrecedence(a) > InfixPrecedence(b)
    ensures IsInfix(a)
  {
    hide IsOperator, ClassOf, InfixPrecedence;
    LevelOf(a);
    LevelOf(b);
  }

  lemma LevelOf(a: Token)
    requires IsOperator(a)
    ensures InfixPrecedence(a) == FACTOR - ClassOf(a) > MIN_PRECEDENCE
  {}

  lemma {:induction false} OperandGrammatical(t: Tree, p: int, funcs: bool)
    requires IsOperand(t, funcs)
    ensures Grammatical(t, p, funcs)
    decreases t
  {
    if t.Prefixed? {
      OperandGrammatical(t.operand, PREFIX, funcs);
    }
  }

  ghost predicate AllAbove(ops: seq<Token>, p: int)
  {
    forall i :: 0 <= i < |ops| ==> InfixPrecedence(ops[i]) > p
  }

  lemma RootLevels(ops: seq<Token>)
    requires ops != [] && forall i :: 0 <= i < |ops| ==> IsOperator(ops[i])
    ensures var k := Root(ops);
            && IsInfix(ops[k]) && AllAbove(ops[..k], InfixPrecedence(ops[k]) - 1)
            && AllAbove(ops[k + 1..], InfixPrecedence(ops[k]))
  {
    hide IsOperator, Tighter, InfixPrecedence, IsInfix, AllAbove;
    var k := Root(ops);
    forall i | 0 <= i < |ops|
      ensures (i < k ==> InfixPrecedence(ops[i]) >= InfixPrecedence(ops[k])) &&
              (i > k ==> InfixPrecedence(ops[i]) > InfixPrecedence(ops[k]))
    {
      RootLevelAt(ops, i);
    }
    RootLevelAt(ops, k);
    SlicesAbove(ops, k);
  }

  lemma SlicesAbove(ops: seq<Token>, k: nat)
    requires k < |ops| && forall i :: 0 <= i < k ==> InfixPrecedence(ops[i]) >= InfixPrecedence(ops[k])
    requires forall i :: k < i < |ops| ==> InfixPrecedence(ops[i]) > InfixPrecedence(ops[k])
    ensures AllAbove(ops[..k], InfixPrecedence(ops[k]) - 1) && AllAbove(ops[k + 1..], InfixPrecedence(ops[k]))
  {
    hide InfixPrecedence;
  }

  lemma RootLevelAt(ops: seq<Token>, i: nat)
    requires i < |ops| && forall j :: 0 <= j < |ops| ==> IsOperator(ops[j])
    ensures IsInfix(ops[i]) && (i < Root(ops) ==> InfixPrecedence(ops[i]) >= InfixPrecedence(ops[Root(ops)]))
    ensures i > Root(ops) ==> InfixPrecedence(ops[i]) > InfixPrecedence(ops[Root(ops)])
  {
    hide IsOperator, Tighter, InfixPrecedence;
    var k := Root(ops);
    Levels(ops[k], ops[i]);
    Levels(ops[i], ops[k]);
  }

  lemma {:induction false} FlatGrammatical(xs: seq<Tree>, ops: seq<Token>, p: int, funcs: bool)
    requires IsFlat(xs, ops, funcs) && AllAbove(ops, p)
    ensures Grammatical(FlatTree(xs, ops), p, funcs)
    decreases |ops|
  {
    hide IsOperand, IsFlat, InfixPrecedence, IsOperator, IsInfix, Tighter, AllAbove, Grammatical, FlatTree;
    FlatParts(xs, ops, 0, funcs);
    if ops == [] {
      OneTree(xs);
      OperandGrammatical(xs[0], p, funcs);
    } else {
      var k := Root(ops);
      FlatParts(xs, ops, k, funcs);
      RootLevels(ops);
      AboveAt(ops, p, k);
      FlatGrammatical(xs[..k + 1], ops[..k], InfixPrecedence(ops[k]) - 1, funcs);
      FlatGrammatical(xs[k + 1..], ops[k + 1..], InfixPrecedence(ops[k]), funcs);
      var (l, r) := (FlatTree(xs[..k + 1], ops[..k]), FlatTree(xs[k + 1..], ops[k + 1..]));
      SplitTree(xs, ops);
      InfixedGrammatical(l, ops[k], r, p, funcs);
    }
  }

  lemma OneTree(xs: seq<Tree>)
    requires |xs| == 1
    ensures FlatTree(xs, []) == xs[0]
  {}

  lemma SplitTree(xs: seq<Tree>, ops: seq<Token>)
    requires |xs| == |ops| + 1 && ops != [] && forall i :: 0 <= i < |ops| ==> IsOperator(ops[i])
    ensures var k := Root(ops);
            FlatTree(xs, ops) == Infixed(FlatTree(xs[..k + 1], ops[..k]), ops[k], FlatTree(xs[k + 1..], ops[k + 1..]))
  {
    hide IsOperator, Root;
  }

  lemma InfixedGrammatical(l: Tree, op: Token, r: Tree, p: int, funcs: bool)
    requires IsInfix(op) && InfixPrecedence(op) > p
    requires Grammatical(l, InfixPrecedence(op) - 1, funcs) && Grammatical(r, InfixPrecedence(op), funcs)
    ensures Grammatical(Infixed(l, op, r), p, funcs)
  {
    hide InfixPrecedence;
  }

  lemma AboveAt(ops: seq<Token>, p: int, k: nat)
    requires AllAbove(ops, p) && k < |ops|
    ensures InfixPrecedence(ops[k]) > p
  {}

  lemma FlatParts(xs: seq<Tree>, ops: seq<Token>, k: nat, funcs: bool)
    requires IsFlat(xs, ops, funcs)
    ensures |xs| == |ops| + 1 && IsOperand(xs[0], funcs) && forall i :: 0 <= i < |ops| ==> IsOperator(ops[i])
    ensures k < |ops| ==> IsFlat(xs[..k + 1], ops[..k], funcs) && IsFlat(xs[k + 1..], ops[k + 1..], funcs)
  {
    hide IsOperand, IsOperator;
  }

  lemma {:induction false} FlatSplit(xs: seq<Tree>, ops: seq<Token>, i: nat, k: seq<Token>)
    requires |xs| == |ops| + 1 && i < |ops|
    ensures FlatTokens(xs, ops, k) ==
            FlatTokens(xs[..i + 1], ops[..i], Then(ops[i], FlatTokens(xs[i + 1..], ops[i + 1..], k)))
    decreases |ops|
  {
    hide Written, Then;
    if i > 0 {
      FlatSplit(xs[1..], ops[1..], i - 1, k);
      assert xs[1..][..i] == xs[..i + 1][1..] && xs[1..][i..] == xs[i + 1..];
      assert ops[1..][..i - 1] == ops[..i][1..] && ops[1..][i..] == ops[i + 1..];
    }
  }

  lemma {:induction false} FlatWritten(xs: seq<Tree>, ops: seq<Token>, k: seq<Token>)
    requires |xs| == |ops| + 1 && forall i :: 0 <= i < |ops| ==> IsOperator(ops[i])
    ensures Written(FlatTree(xs, ops), k) == FlatTokens(xs, ops, k)
    decreases |ops|
  {
    hide IsOperator, Tighter, Then;
    if ops != [] {
      var i := Root(ops);
      var right := FlatTokens(xs[i + 1..], ops[i + 1..], k);
      FlatWritten(xs[i + 1..], ops[i + 1..], k);
      FlatWritten(xs[..i + 1], ops[..i], Then(ops[i], right));
      FlatSplit(xs, ops, i, k);
    }
  }

  /** What is grammatical is read from its tokens. */
  lemma ReadAs(t: Tree, ts: seq<Token>, funcs: bool)
    requires Grammatical(t, MIN_PRECEDENCE, funcs) && ts == Written(t, [End])
    ensures Ends(ts) && ParseExpr(ts, MIN_PRECEDENCE, funcs) == Ok(t, [End])
  {
    hide ParseExpr, Grammatical, Written, Extends;
    EndExtendsNothing(t);
    WrittenEnds(t, [End]);
    CompleteExpr(t, MIN_PRECEDENCE, funcs, [End]);
  }

  /** Operands joined by operators are read as the tree that splits at the last of the loosest operators. */
  lemma FlatReading(xs: seq<Tree>, ops: seq<Token>, funcs: bool)
    requires IsFlat(xs, ops, funcs)
    ensures var ts := FlatTokens(xs, ops, [End]);
            Ends(ts) && ParseExpr(ts, MIN_PRECEDENCE, funcs) == Ok(FlatTree(xs, ops), [End])
  {
    hide ParseExpr, Grammatical, Written, FlatTree, FlatTokens, IsOperator, ClassOf;
    forall i | 0 <= i < |ops| ensures InfixPrecedence(ops[i]) > MIN_PRECEDENCE { Levels(ops[i], ops[i]); }
    FlatGrammatical(xs, ops, MIN_PRECEDENCE, funcs);
    FlatWritten(xs, ops, [End]);
    ReadAs(FlatTree(xs, ops), FlatTokens(xs, ops, [End]), funcs);
  }

  /** Two operators group to the right exactly if the second is of a tighter class. */
  lemma TwoOperators(x: Token, a: Token, y: Token, b: Token, z: Token, funcs: bool)
    requires IsLiteral(x) && IsLiteral(y) && IsLiteral(z) && IsOperator(a) && IsOperator(b)
    ensures ParseExpr([x, a, y, b, z, End], MIN_PRECEDENCE, funcs) ==
            Ok(if Tighter(b, a) then Infixed(Leaf(x), a, Infixed(Leaf(y), b, Leaf(z)))
               else Infixed(Infixed(Leaf(x), a, Leaf(y)), b, Leaf(z)), [End])
  {
    hide ParseExpr, IsOperator, ClassOf, FlatTokens, FlatTree, Tighter;
    FlatReading([Leaf(x), Leaf(y), Leaf(z)], [a, b], funcs);
    FlatTwo(Leaf(x), a, Leaf(y), b, Leaf(z), [End]);
    TreeTwo(Leaf(x), a, Leaf(y), b, Leaf(z));
    assert Then(a, Then(y, Then(b, Then(z, [End])))) == [a, y, b, z, End];
    assert Then(x, [a, y, b, z, End]) == [x, a, y, b, z, End];
  }

  lemma FlatTwo(x: Tree, a: Token, y: Tree, b: Token, z: Tree, k: seq<Token>)
    ensures FlatTokens([x, y, z], [a, b], k) == Written(x, Then(a, Written(y, Then(b, Written(z, k)))))
  {
    hide Written, Then;
    FlatOne(y, b, z, k);
    assert [x, y, z][1..] == [y, z] && [a, b][1..] == [b];
  }

  lemma TreeTwo(x: Tree, a: Token, y: Tree, b: Token, z: Tree)
    requires IsOperator(a) && IsOperator(b)
    ensures FlatTree([x, y, z], [a, b]) ==
            if Tighter(b, a) then Infixed(x, a, Infixed(y, b, z)) else Infixed(Infixed(x, a, y), b, z)
  {
    hide IsOperator, Tighter;
    assert Root([a]) == 0;
    assert [a, b][..1] == [a] && Root([a, b]) == if Tighter(b, a) then 0 else 1;
    var xs := [x, y, z];
    assert xs[..1] == [x] && xs[1..] == [y, z] && xs[..2] == [x, y] && xs[2..] == [z];
    assert [a, b][..0] == [] == [a, b][2..] && [a, b][1..] == [b];
    OneOperator(y, b, z);
    OneOperator(x, a, y);
  }

  lemma FlatOne(x: Tree, a: Token, y: Tree, k: seq<Token>)
    ensures FlatTokens([x, y], [a], k) == Written(x, Then(a, Written(y, k)))
  {
    hide Written, Then;
    assert [x, y][1..] == [y] && [a][1..] == [];
  }

  lemma OneOperator(x: Tree, a: Token, y: Tree)
    requires IsOperator(a)
    ensures FlatTree([x, y], [a]) == Infixed(x, a, y)
  {
    hide IsOperator, Tighter;
    assert Root([a]) == 0;
    assert [x, y][..1] == [x] && [x, y][1..] == [y] && [a][..0] == [] == [a][1..];
  }

  /** A prefix operator takes its operand only, whatever operator follows. */
  lemma PrefixTakesOperand(u: Token, x: Token, a: Token, y: Token, funcs: bool)
    requires u in {Minus, Exclamation} && IsLiteral(x) && IsLiteral(y) && IsOperator(a)
    ensures ParseExpr([u, x, a, y, End], MIN_PRECEDENCE, funcs) == Ok(Infixed(Prefixed(u, Leaf(x)), a, Leaf(y)), [End])
    ensures ParseExpr([x, a, u, y, End], MIN_PRECEDENCE, funcs) == Ok(Infixed(Leaf(x), a, Prefixed(u, Leaf(y))), [End])
  {
    hide ParseExpr, IsOperator, ClassOf, FlatTokens, FlatTree;
    var p, q := Prefixed(u, Leaf(x)), Prefixed(u, Leaf(y));
    assert IsOperand(Leaf(x), funcs) && IsOperand(Leaf(y), funcs) && IsOperand(p, funcs) && IsOperand(q, funcs);
    FlatReading([p, Leaf(y)], [a], funcs);
    FlatReading([Leaf(x), q], [a], funcs);
    FlatOne(p, a, Leaf(y), [End]);
    FlatOne(Leaf(x), a, q, [End]);
    assert Then(a, Then(y, [End])) == [a, y, End] && Then(u, Then(x, [a, y, End])) == [u, x, a, y, End];
    assert Then(u, Then(y, [End])) == [u, y, End] && Then(x, Then(a, [u, y, End])) == [x, a, u, y, End];
    assert FlatTokens([p, Leaf(y)], [a], [End]) == [u, x, a, y, End];
    assert FlatTokens([Leaf(x), q], [a], [End]) == [x, a, u, y, End];
    OneOperator(p, a, Leaf(y));
    OneOperator(Leaf(x), a, q);
  }

  // ---------- Forms ----------

  /** The node that the tokens stand for, with the properties it refers to. */
  function Reading(ts: seq<Token>, funcs: bool): Option<(Node, set<string>)>
    requires Ends(ts)
  {
    match ParseExpr(ts, MIN_PRECEDENCE, funcs)
    case Fail => None
    case Ok(t, _) => Some((Abstract(t), Properties(t)))
  }

  lemma ReadNode(t: Tree, ts: seq<Token>, funcs: bool)
    requires Grammatical(t, MIN_PRECEDENCE, funcs) && ts == Written(t, [End])
    ensures Ends(ts) && Reading(ts, funcs) == Some((Abstract(t), Properties(t)))
  {
    hide ParseExpr, Grammatical, Written, Abstract, Properties;
    ReadAs(t, ts, funcs);
  }

  /** The operation that each operator stands for, on any operands. */
  lemma Operations(l: Tree, op: Token, r: Tree)
    requires IsOperator(op)
    ensures exists o :: Abstract(Infixed(l, op, r)) == BinaryOp(o, Abstract(l), Abstract(r)) &&
              (op, o) in {
                (Star, MulOp), (Slash, DivOp), (Plus, AddOp), (Minus, SubOp), (EqEq, Equals), (NotEq, NotEquals),
                (Less, LessThan), (LessEq, LessOrEqual), (Greater, GreaterThan), (GreaterEq, GreaterOrEqual),
                (AndAnd, LogAnd), (OrOr, LogOr)}
  {
    hide Abstract;
    Levels(op, op);
    AbstractInfixed(l, op, r);
    var o := BinaryOf(op);
  }

  lemma AbstractInfixed(l: Tree, op: Token, r: Tree)
    requires IsInfix(op)
    ensures Abstract(Infixed(l, op, r)) == BinaryOp(BinaryOf(op), Abstract(l), Abstract(r))
  {}

  /** And each prefix operator. */
  lemma PrefixOperations(e: Tree)
    ensures Abstract(Prefixed(Minus, e)) == UnaryOp(Negate, Abstract(e))
    ensures Abstract(Prefixed(Exclamation, e)) == UnaryOp(LogNegate, Abstract(e))
  {}

  /** A conditional is the condition, then what holds if it is true, then what holds if not. */
  lemma Conditional(c: Tree, a: Tree, b: Tree, funcs: bool)
    requires Grammatical(c, MIN_PRECEDENCE, funcs) && Grammatical(a, MIN_PRECEDENCE, funcs)
    requires Grammatical(b, MIN_PRECEDENCE, funcs)
    ensures var ts := Then(If,
            Then(OpenParen, Written(c, Then(Comma, Written(a, Then(Comma, Written(b, Then(CloseParen, [End]))))))));
            Ends(ts) && Reading(ts, funcs) ==
            Some((IfNode(Abstract(c), Abstract(a), Abstract(b)), Properties(c) + Properties(a) + Properties(b)))
  {
    hide ParseExpr, Reading, Written, Abstract, Properties, Grammatical, Then;
    CondParts(c, a, b, [End], funcs);
    ReadNode(Cond(c, a, b), Written(Cond(c, a, b), [End]), funcs);
  }

  /** A switch is its variable and its values in order. */
  lemma Switches(v: Tree, a: Tree, b: Tree, funcs: bool)
    requires Grammatical(v, MIN_PRECEDENCE, funcs) && Grammatical(a, MIN_PRECEDENCE, funcs)
    requires Grammatical(b, MIN_PRECEDENCE, funcs)
    ensures var ts := Then(Switch,
            Then(OpenParen, Written(v, Then(Comma, Written(a, Then(Comma, Written(b, Then(CloseParen, [End]))))))));
            Ends(ts) && Reading(ts, funcs) ==
            Some((SwitchNode(Abstract(v), [Abstract(a), Abstract(b)]), Properties(v) + (Properties(a) + Properties(b))))
  {
    hide ParseExpr, Reading, Written, Abstract, Properties, Grammatical, Then, WrittenValues, AllGrammatical,
        AbstractAll, PropertiesAll, Count;
    var values := Trees(a, Trees(b, NoTrees));
    Pair(a, b, funcs);
    ValuesWritten(a, b, Then(CloseParen, [End]));
    SelectParts(v, values, [End], funcs);
    ReadNode(Select(v, values), Written(Select(v, values), [End]), funcs);
  }

  /** A list is its elements in order, with or without a comma after the last. */
  lemma Lists(a: Tree, b: Tree, funcs: bool)
    requires Grammatical(a, MIN_PRECEDENCE, funcs) && Grammatical(b, MIN_PRECEDENCE, funcs)
    ensures var ts := Then(OpenBracket, Written(a, Then(Comma, Written(b, Then(CloseBracket, [End])))));
            Ends(ts) && Reading(ts, funcs) ==
                Some((ListNode([Abstract(a), Abstract(b)]), Properties(a) + Properties(b)))
    ensures var ts := Then(OpenBracket, Written(a, Then(Comma, Written(b, Then(Comma, Then(CloseBracket, [End]))))));
            Ends(ts) && Reading(ts, funcs) ==
                Some((ListNode([Abstract(a), Abstract(b)]), Properties(a) + Properties(b)))
  {
    hide ParseExpr, Reading, Written, Abstract, Properties, Grammatical, Then, WrittenArgs, AllGrammatical,
        AbstractAll, PropertiesAll, Count;
    var elements := Trees(a, Trees(b, NoTrees));
    Pair(a, b, funcs);
    PairWritten(a, b, Then(CloseBracket, [End]));
    ListParts(elements, false, [End], funcs);
    ListParts(elements, true, [End], funcs);
    ReadNode(Bracket(elements, false), Written(Bracket(elements, false), [End]), funcs);
    ReadNode(Bracket(elements, true), Written(Bracket(elements, true), [End]), funcs);
  }

  /** A unit is its parameters in order. */
  lemma Units(a: Tree, b: Tree, funcs: bool)
    requires Grammatical(a, MIN_PRECEDENCE, funcs) && Grammatical(b, MIN_PRECEDENCE, funcs)
    ensures var ts := Then(Unit, Then(OpenParen, Written(a, Then(Comma, Written(b, Then(CloseParen, [End]))))));
            Ends(ts) && Reading(ts, funcs) ==
                Some((UnitNode([Abstract(a), Abstract(b)]), Properties(a) + Properties(b)))
  {
    hide ParseExpr, Reading, Written, Abstract, Properties, Grammatical, Then, WrittenArgs, AllGrammatical,
        AbstractAll, PropertiesAll, Count;
    var params := Trees(a, Trees(b, NoTrees));
    Pair(a, b, funcs);
    PairWritten(a, b, Then(CloseParen, [End]));
    ListParts(params, false, [End], funcs);
    ReadNode(UnitLit(params, false), Written(UnitLit(params, false), [End]), funcs);
  }

  lemma CondParts(c: Tree, a: Tree, b: Tree, k: seq<Token>, funcs: bool)
    ensures Written(Cond(c, a, b), k) ==
            Then(If, Then(OpenParen, Written(c, Then(Comma, Written(a, Then(Comma, Written(b, Then(CloseParen, k))))))))
    ensures Abstract(Cond(c, a, b)) == IfNode(Abstract(c), Abstract(a), Abstract(b))
    ensures Properties(Cond(c, a, b)) == Properties(c) + Properties(a) + Properties(b)
    ensures Grammatical(c, MIN_PRECEDENCE, funcs) && Grammatical(a, MIN_PRECEDENCE, funcs)
            && Grammatical(b, MIN_PRECEDENCE, funcs) ==>
              Grammatical(Cond(c, a, b), MIN_PRECEDENCE, funcs)
  {
    hide Then;
  }

  lemma SelectParts(v: Tree, vs: Trees, k: seq<Token>, funcs: bool)
    ensures Written(Select(v, vs), k) ==
            Then(Switch, Then(OpenParen, Written(v, WrittenValues(vs, Then(CloseParen, k)))))
    ensures Abstract(Select(v, vs)) == SwitchNode(Abstract(v), AbstractAll(vs))
    ensures Properties(Select(v, vs)) == Properties(v) + PropertiesAll(vs)
    ensures Grammatical(v, MIN_PRECEDENCE, funcs) && AllGrammatical(vs, funcs) && Count(vs) == 2 ==>
              Grammatical(Select(v, vs), MIN_PRECEDENCE, funcs)
  {
    hide Then, WrittenValues, AbstractAll, PropertiesAll, AllGrammatical, Count;
  }

  lemma ListParts(es: Trees, trailing: bool, k: seq<Token>, funcs: bool)
    ensures Written(Bracket(es, trailing), k) == Then(OpenBracket, WrittenArgs(es, trailing, Then(CloseBracket, k)))
    ensures Written(UnitLit(es, trailing), k) ==
            Then(Unit, Then(OpenParen, WrittenArgs(es, trailing, Then(CloseParen, k))))
    ensures Abstract(Bracket(es, trailing)) == ListNode(AbstractAll(es))
    ensures Abstract(UnitLit(es, trailing)) == UnitNode(AbstractAll(es))
    ensures Properties(Bracket(es, trailing)) == PropertiesAll(es) == Properties(UnitLit(es, trailing))
    ensures es.Trees? && AllGrammatical(es, funcs) ==> Grammatical(Bracket(es, trailing), MIN_PRECEDENCE, funcs)
    ensures Count(es) == 2 && AllGrammatical(es, funcs) ==> Grammatical(UnitLit(es, trailing), MIN_PRECEDENCE, funcs)
  {
    hide Then, WrittenArgs, AbstractAll, PropertiesAll, AllGrammatical, Count;
  }

  lemma ValuesWritten(a: Tree, b: Tree, k: seq<Token>)
    ensures WrittenValues(Trees(a, Trees(b, NoTrees)), k) == Then(Comma, Written(a, Then(Comma, Written(b, k))))
  {
    hide Written, Then;
    assert WrittenValues(Trees(b, NoTrees), k) == Then(Comma, Written(b, k));
  }

  lemma PairWritten(a: Tree, b: Tree, k: seq<Token>)
    ensures WrittenArgs(Trees(a, Trees(b, NoTrees)), false, k) == Written(a, Then(Comma, Written(b, k)))
    ensures WrittenArgs(Trees(a, Trees(b, NoTrees)), true, k) == Written(a, Then(Comma, Written(b, Then(Comma, k))))
  {
    hide Written, Then;
    assert WrittenArgs(Trees(b, NoTrees), false, k) == Written(b, k);
    assert WrittenArgs(Trees(b, NoTrees), true, k) == Written(b, Then(Comma, k));
  }

  lemma Pair(a: Tree, b: Tree, funcs: bool)
    ensures var ts := Trees(a, Trees(b, NoTrees));
            && AbstractAll(ts) == [Abstract(a), Abstract(b)] && PropertiesAll(ts) == Properties(a) + Properties(b)
            && Count(ts) == 2
            && (AllGrammatical(ts, funcs) <==>
                Grammatical(a, MIN_PRECEDENCE, funcs) && Grammatical(b, MIN_PRECEDENCE, funcs))
  {
    hide Abstract, Properties, Grammatical;
    assert AbstractAll(Trees(b, NoTrees)) == [Abstract(b)];
    assert PropertiesAll(Trees(b, NoTrees)) == Properties(b);
    assert AllGrammatical(Trees(b, NoTrees), funcs) == Grammatical(b, MIN_PRECEDENCE, funcs);
    assert Count(Trees(b, NoTrees)) == 1;
  }

  /** Parentheses leave no trace. */
  lemma Parentheses(e: Tree, funcs: bool)
    requires Grammatical(e, MIN_PRECEDENCE, funcs)
    ensures var ts := Then(OpenParen, Written(e, Then(CloseParen, [End])));
            Ends(ts) && Reading(ts, funcs) == Some((Abstract(e), Properties(e)))
  {
    hide ParseExpr, Reading;
    ReadNode(Paren(e), Written(Paren(e), [End]), funcs);
  }

  /** Literals stand for constants. */
  lemma Literals(n: int, b: bool, s: string, x: string)
    ensures LeafNode(IntValue(n)) == IntConst(n) && LeafNode(BoolValue(b)) == BoolConst(b)
    ensures LeafNode(StringValue(s)) == StringConst(s) && LeafNode(FloatValue(x)) == FloatConst(x)
  {}

  /** A value reference keeps its name and its selection, and refers to no property. */
  lemma ValueReferences(name: string, i: int, funcs: bool)
    ensures Reading([Dollar, Identifier(name), End], funcs) == Some((RefNode(name, ValueRef, -1), {}))
    ensures Reading([Dollar, Identifier(name), OpenBracket, IntValue(i), CloseBracket, End], funcs) ==
            Some((RefNode(name + "[" + IntToString(i) + "]", ValueRef, -1), {}))
  {
    hide ParseExpr, Reading, IntToString;
    assert Then(Dollar, Then(Identifier(name), [End])) == [Dollar, Identifier(name), End];
    ReadNode(Reference(Val(name, None)), [Dollar, Identifier(name), End], funcs);
    var ts := [Dollar, Identifier(name), OpenBracket, IntValue(i), CloseBracket, End];
    assert Then(OpenBracket, Then(IntValue(i), Then(CloseBracket, [End]))) == ts[2..];
    assert Then(Dollar, Then(Identifier(name), ts[2..])) == ts;
    ReadNode(Reference(Val(name, Some(i))), ts, funcs);
  }

  /** A property reference, also one written as a call, refers to its property. */
  lemma PropertyReferences(name: string, funcs: bool)
    ensures Reading([Percent, Identifier(name), End], funcs) == Some((RefNode(name, PropertyRef, -1), {name}))
    ensures Reading([Percent, Identifier(name), OpenParen, CloseParen, End], funcs) ==
            Some((RefNode(name, PropertyRef, -1), {name}))
  {
    hide ParseExpr, Reading;
    assert Then(Percent, Then(Identifier(name), [End])) == [Percent, Identifier(name), End];
    ReadNode(Reference(Prop(name, None, false)), [Percent, Identifier(name), End], funcs);
    var ts := [Percent, Identifier(name), OpenParen, CloseParen, End];
    assert Then(OpenParen, Then(CloseParen, [End])) == ts[2..] && Then(Percent, Then(Identifier(name), ts[2..])) == ts;
    ReadNode(Reference(Prop(name, None, true)), ts, funcs);
  }

  /** An indexed reference keeps its argument index; one that does not fit 32 bits is cut to the low ones. */
  lemma ArgumentReferences(name: string, i: int, funcs: bool)
    ensures exists n :: -0x8000_0000 <= n < 0x8000_0000 && (n - i) % 0x1_0000_0000 == 0 &&
              Reading([OpenCurly, IntValue(i), CloseCurly, Dot, Percent, Identifier(name), End], funcs) ==
              Some((RefNode(name, PropertyRef, n), {name}))
  {
    hide ParseExpr, Reading, ToInt32;
    var ts := [OpenCurly, IntValue(i), CloseCurly, Dot, Percent, Identifier(name), End];
    assert Then(Percent, Then(Identifier(name), [End])) == ts[4..];
    assert Then(OpenCurly, Then(IntValue(i), Then(CloseCurly, Then(Dot, ts[4..])))) == ts;
    ReadNode(ArgReference(i, Prop(name, None, false)), ts, funcs);
    assert (ToInt32(i) - i) % 0x1_0000_0000 == 0;
  }

  /** A name alone is a function reference where those are allowed, and an error elsewhere. */
  lemma FunctionNames(name: string)
    ensures Reading([Identifier(name), End], true) == Some((RefNode(name, FuncRef, -1), {}))
    ensures Reading([Identifier(name), End], false) == None
  {
    hide ParseExpr;
    assert Then(Identifier(name), [End]) == [Identifier(name), End];
    ReadNode(Leaf(Identifier(name)), [Identifier(name), End], true);
    NoFunction(name);
  }

  lemma NoFunction(name: string)
    ensures ParseExpr([Identifier(name), End], MIN_PRECEDENCE, false) == Fail
  {}

  /** The items of a property reference, in any case; no other item is accepted. */
  lemma PropertyItems(name: string, item: string, funcs: bool)
    ensures var r := Reading([Percent, Identifier(name), Colon, Identifier(item), End], funcs);
            && (Canonical(item) == "value" ==> r == Some((RefNode(name + ":value", ValueRef, -1), {})))
            && (Canonical(item) == "selectedvalue" ==>
                r == Some((RefNode(name + ":selectedvalue", SelectedValueRef, -1), {})))
            && (Canonical(item) == "propertynames" ==>
                r == Some((RefNode(name + ":propertynames", PropertyNamesRef, -1), {})))
            && (Canonical(item) !in {"value", "selectedvalue", "propertynames"} ==> r == None)
  {
    hide ParseExpr, Canonical;
    var ts := [Percent, Identifier(name), Colon, Identifier(item), End];
    ItemNames();
    assert name + ":" + "value" == name + ":value";
    assert name + ":" + "selectedvalue" == name + ":selectedvalue"
           && name + ":" + "propertynames" == name + ":propertynames";
    assert Then(Colon, Then(Identifier(item), [End])) == ts[2..]
           && Then(Percent, Then(Identifier(name), ts[2..])) == ts;
    if IsItem(item) {
      ReadNode(Reference(Prop(name, Some(item), false)), ts, funcs);
    } else {
      NoItem(name, item, funcs);
    }
  }

  lemma ItemNames()
    ensures "value" != "selectedvalue" && "value" != "propertynames" && "selectedvalue" != "propertynames"
  {
    assert |"value"| == 5 && "selectedvalue"[0] == 's' && "propertynames"[0] == 'p';
  }

  lemma NoItem(name: string, item: string, funcs: bool)
    requires !IsItem(item)
    ensures ParseExpr([Percent, Identifier(name), Colon, Identifier(item), End], MIN_PRECEDENCE, funcs) == Fail
  {
    hide IsItem;
    var ts := [Percent, Identifier(name), Colon, Identifier(item), End];
    assert ts[1..][0] == Identifier(name) && ts[1..][1..][0] == Colon && ts[1..][1..][1..][0] == Identifier(item);
    assert ParseProp(ts[1..]) == Fail;
  }

  /** Units have one to four parameters, and switches at least two values. */
  predicate Sized(n: Node)
    decreases n
  {
    match n
    case UnaryOp(_, e) => Sized(e)
    case BinaryOp(_, l, r) => Sized(l) && Sized(r)
    case ListNode(es) => forall i :: 0 <= i < |es| ==> Sized(es[i])
    case IfNode(c, a, b) => Sized(c) && Sized(a) && Sized(b)
    case SwitchNode(v, vs) => |vs| >= 2 && Sized(v) && forall i :: 0 <= i < |vs| ==> Sized(vs[i])
    case UnitNode(ps) => 1 <= |ps| <= 4 && forall i :: 0 <= i < |ps| ==> Sized(ps[i])
    case _ => true
  }

  lemma {:induction false} GrammaticalSized(t: Tree, p: int, funcs: bool)
    requires Grammatical(t, p, funcs)
    ensures Sized(Abstract(t))
    decreases t
  {
    match t {
      case Prefixed(_, e) => GrammaticalSized(e, PREFIX, funcs);
      case Infixed(l, op, r) =>
        GrammaticalSized(l, InfixPrecedence(op) - 1, funcs);
        GrammaticalSized(r, InfixPrecedence(op), funcs);
      case Paren(e) => GrammaticalSized(e, MIN_PRECEDENCE, funcs);
      case Bracket(es, _) => AllSized(es, funcs);
      case Cond(c, a, b) =>
        GrammaticalSized(c, MIN_PRECEDENCE, funcs);
        GrammaticalSized(a, MIN_PRECEDENCE, funcs);
        GrammaticalSized(b, MIN_PRECEDENCE, funcs);
      case Select(v, vs) =>
        GrammaticalSized(v, MIN_PRECEDENCE, funcs);
        AllSized(vs, funcs);
      case UnitLit(ps, _) => AllSized(ps, funcs);
      case _ =>
    }
  }

  lemma {:induction false} AllSized(ts: Trees, funcs: bool)
    requires AllGrammatical(ts, funcs)
    ensures forall i :: 0 <= i < |AbstractAll(ts)| ==> Sized(AbstractAll(ts)[i])
    decreases ts
  {
    if ts.Trees? {
      GrammaticalSized(ts.head, MIN_PRECEDENCE, funcs);
      AllSized(ts.tail, funcs);
      assert forall i :: 1 <= i < |AbstractAll(ts)| ==> AbstractAll(ts)[i] == AbstractAll(ts.tail)[i - 1];
    }
  }

  /** Whatever is read is so. */
  lemma ReadingIsSized(ts: seq<Token>, funcs: bool)
    requires Ends(ts)
    ensures Reading(ts, funcs).Some? ==> Sized(Reading(ts, funcs).value.0)
  {
    hide ParseExpr, Grammatical, Abstract, Properties;
    var r := ParseExpr(ts, MIN_PRECEDENCE, funcs);
    if r.Ok? {
      ParserIsGrammar(ts, MIN_PRECEDENCE, funcs, r.value, r.rest);
      GrammaticalSized(r.value, MIN_PRECEDENCE, funcs);
    }
  }

  // ---------- Lexemes ----------

  /** One-character symbols, whatever follows. */
  lemma Symbols(y: string)
    ensures ScanOne("(" + y) == Tok(OpenParen, y) && ScanOne(")" + y) == Tok(CloseParen, y)
    ensures ScanOne("[" + y) == Tok(OpenBracket, y) && ScanOne("]" + y) == Tok(CloseBracket, y)
    ensures ScanOne("{" + y) == Tok(OpenCurly, y) && ScanOne("}" + y) == Tok(CloseCurly, y)
    ensures ScanOne("+" + y) == Tok(Plus, y) && ScanOne("-" + y) == Tok(Minus, y)
    ensures ScanOne("*" + y) == Tok(Star, y) && ScanOne("/" + y) == Tok(Slash, y)
    ensures ScanOne("," + y) == Tok(Comma, y) && ScanOne(":" + y) == Tok(Colon, y)
    ensures ScanOne("$" + y) == Tok(Dollar, y) && ScanOne("%" + y) == Tok(Percent, y)
  {
    hide ScanOne;
    ScanSymbol('(', y);
    ScanSymbol(')', y);
    ScanSymbol('[', y);
    ScanSymbol(']', y);
    ScanSymbol('{', y);
    ScanSymbol('}', y);
    ScanSymbol('+', y);
    ScanSymbol('-', y);
    ScanSymbol('*', y);
    ScanSymbol('/', y);
    ScanSymbol(',', y);
    ScanSymbol(':', y);
    ScanSymbol('$', y);
    ScanSymbol('%', y);
  }

  lemma ScanSymbol(c: char, y: string)
    requires Single(c).Some? && (c !in {'!', '<', '>'} || PeekAt(y, 0) != '=')
    ensures ScanOne([c] + y) == Tok(Single(c).value, y)
  {
    var s := [c] + y;
    assert s[0] == c && s[1..] == y && PeekAt(s, 1) == PeekAt(y, 0);
  }

  /** Comparison and logical symbols: two characters are taken together where they can be. */
  lemma LongSymbols(y: string)
    ensures ScanOne("||" + y) == Tok(OrOr, y) && ScanOne("&&" + y) == Tok(AndAnd, y)
    ensures ScanOne("==" + y) == Tok(EqEq, y) && ScanOne("!=" + y) == Tok(NotEq, y)
    ensures ScanOne("<=" + y) == Tok(LessEq, y) && ScanOne(">=" + y) == Tok(GreaterEq, y)
    ensures PeekAt(y, 0) != '=' ==>
              ScanOne("!" + y) == Tok(Exclamation, y) && ScanOne("<" + y) == Tok(Less, y)
                  && ScanOne(">" + y) == Tok(Greater, y)
  {
    hide ScanOne;
    ScanLong('|', '|', y);
    ScanLong('&', '&', y);
    ScanLong('=', '=', y);
    ScanLong('!', '=', y);
    ScanLong('<', '=', y);
    ScanLong('>', '=', y);
    if PeekAt(y, 0) != '=' {
      ScanSymbol('!', y);
      ScanSymbol('<', y);
      ScanSymbol('>', y);
    }
  }

  lemma ScanLong(c: char, d: char, y: string)
    requires Double(c, d).Some?
    ensures ScanOne([c, d] + y) == Tok(Double(c, d).value, y)
  {
    var s := [c, d] + y;
    assert s[0] == c && PeekAt(s, 1) == d && s[2..] == y;
  }

  /** Blanks separate and mean nothing. */
  lemma Blanks(y: string)
    ensures ScanOne(" " + y) == Skip(y) && ScanOne("\t" + y) == Skip(y) && ScanOne("\n" + y) == Skip(y)
            && ScanOne("\r" + y) == Skip(y)
  {
    assert (" " + y)[1..] == y && ("\t" + y)[1..] == y && ("\n" + y)[1..] == y && ("\r" + y)[1..] == y;
  }

  /** Capitals and small letters do not differ in keywords and items. */
  lemma SmallLetters(c: char)
    ensures 'A' <= c <= 'Z' ==> ToLower(c) as int == c as int + 32
    ensures !('A' <= c <= 'Z') ==> ToLower(c) == c
  {}

  /** Keywords, in any case. */
  lemma Keywords(name: string)
    ensures Canonical(name) == "if" ==> NameToken(name) == If
    ensures Canonical(name) == "switch" ==> NameToken(name) == Switch
    ensures Canonical(name) == "unit" ==> NameToken(name) == Unit
    ensures Canonical(name) == "true" ==> NameToken(name) == BoolValue(true)
    ensures Canonical(name) == "false" ==> NameToken(name) == BoolValue(false)
    ensures Canonical(name) !in {"if", "switch", "unit", "true", "false"} ==> NameToken(name) == Identifier(name)
  {
    hide Canonical;
    assert "if"[0] == 'i' && "switch"[0] == 's' && "unit"[0] == 'u' && "true"[0] == 't' && "false"[0] == 'f';
  }

  /** A digit more means ten times the number and the digit. */
  lemma DecimalValue(s: string, d: char)
    requires (forall i :: 0 <= i < |s| ==> IsDigit(s[i])) && '0' <= d <= '9'
    ensures ValueOf(s + [d]) == 10 * ValueOf(s) + (d as int - 48)
  {
    assert (s + [d])[..|s|] == s;
  }

  /** Strings keep everything between their delimiters. */
  lemma Strings(x: string, c: char, y: string)
    requires c in {'"', '\''} && c !in x
    ensures ScanOne([c] + x + [c] + y) == Tok(StringValue(x), y)
  {
    hide ScanOne, ScanString;
    var s := [c] + x + [c] + y;
    assert s[0] == c;
    QuoteStarts(s);
    assert s == [c] + (x + ([c] + y));
    ScanBetween(x, c, y);
  }

  /** A string without an end is no token, and nothing after its start is read. */
  lemma UnfinishedStrings(x: string, c: char)
    requires c in {'"', '\''} && c !in x
    ensures ScanOne([c] + x) == Skip("")
  {
    hide ScanOne;
    QuoteStarts([c] + x);
    assert ([c] + x)[1..] == x;
  }

  lemma QuoteStarts(s: string)
    requires |s| > 0 && s[0] in {'"', '\''}
    ensures ScanOne(s) == ScanString(s)
  {
    hide ScanString;
  }

  lemma ScanBetween(x: string, c: char, y: string)
    requires c !in x
    ensures ScanString([c] + (x + ([c] + y))) == Tok(StringValue(x), y)
  {
    var s := [c] + (x + ([c] + y));
    assert s[1..] == x + ([c] + y);
    FindDelimiter(x, c, y);
    assert s[1..][..|x|] == x && s[1..][|x| + 1..] == y;
  }

  lemma {:induction false} FindDelimiter(x: string, c: char, y: string)
    requires c !in x
    ensures Find(x + ([c] + y), c) == |x|
  {
    if x != "" {
      assert (x + ([c] + y))[1..] == x[1..] + ([c] + y);
      FindDelimiter(x[1..], c, y);
    }
  }

  predicate AllDigits(s: string)
  {
    forall i :: 0 <= i < |s| ==> '0' <= s[i] <= '9'
  }

  lemma {:induction false} DigitsRun(a: string, r: string)
    requires AllDigits(a) && !IsDigit(PeekAt(r, 0))
    ensures Digits(a + r) == |a|
  {
    if a == "" {
      assert a + r == r;
    } else {
      assert (a + r)[1..] == a[1..] + r;
      DigitsRun(a[1..], r);
    }
  }

  /** A run of digits is its value, or an error beyond 64 bits. */
  lemma Integers(a: string, r: string)
    requires a != "" && AllDigits(a) && !IsDigit(PeekAt(r, 0)) && PeekAt(r, 0) !in {'.', 'e', 'E'}
    ensures ScanOne(a + r) == if ValueOf(a) <= 9223372036854775807 then Tok(IntValue(ValueOf(a)), r) else Bad
  {
    hide ScanOne, Digits;
    var s := a + r;
    DigitsRun(a, r);
    assert s[..|a|] == a && s[|a|..] == r && s[0] == a[0] && PeekAt(s, |a|) == PeekAt(r, 0);
    DigitStarts(s);
  }

  /** A point between digits, or before them, makes a number with a fraction. */
  lemma Floats(a: string, b: string, r: string)
    requires AllDigits(a) && AllDigits(b) && b != "" && !IsDigit(PeekAt(r, 0)) && PeekAt(r, 0) !in {'e', 'E'}
    ensures ScanOne(a + ("." + (b + r))) == Tok(FloatValue(a + ("." + b)), r)
  {
    hide ScanOne, Digits, FractionEnd, ExponentEnd;
    var s, x := a + ("." + (b + r)), a + ("." + b);
    DigitsRun(a, "." + (b + r));
    Fractions(a, b, r);
    assert s == x + r && |x| == |a| + 1 + |b|;
    Exponents(x, 'e', "0", r);
    assert s[..|x|] == x && s[|x|..] == r && PeekAt(s, |a|) == '.';
    if a == "" {
      assert s[0] == '.' && PeekAt(s, 1) == b[0];
      PointStarts(s);
    } else {
      assert s[0] == a[0];
      DigitStarts(s);
    }
  }

  lemma PointStarts(s: string)
    requires |s| > 0 && s[0] == '.'
    ensures ScanOne(s) == if IsDigit(PeekAt(s, 1)) then ScanFloat(s) else Tok(Dot, s[1..])
  {
    hide ScanFloat;
  }

  /** A point by itself is a token. */
  lemma Points(y: string)
    requires !IsDigit(PeekAt(y, 0))
    ensures ScanOne("." + y) == Tok(Dot, y)
  {
    var s := "." + y;
    assert s[1..] == y && PeekAt(s, 1) == PeekAt(y, 0);
    PointStarts(s);
  }

  /** The characters that a name starts with. */
  predicate StartsName(c: char)
  {
    'a' <= c <= 'z' || 'A' <= c <= 'Z' || c == '_'
  }

  predicate ContinuesName(c: char)
  {
    StartsName(c) || '0' <= c <= '9' || c == '.'
  }

  /** A name is taken as far as it goes. */
  lemma Names(x: string, r: string)
    requires x != "" && StartsName(x[0]) && (forall i :: 0 <= i < |x| ==> ContinuesName(x[i]))
    requires !ContinuesName(PeekAt(r, 0))
    ensures ScanOne(x + r) == Tok(NameToken(x), r)
  {
    hide ScanOne, NameToken, NameLength;
    var s := x + r;
    NameRun(x, r);
    assert s[..|x|] == x && s[|x|..] == r && s[0] == x[0];
    NameStarts(s);
  }

  lemma NameStarts(s: string)
    requires |s| > 0 && StartsName(s[0])
    ensures ScanOne(s) == ScanName(s)
  {
    hide ScanName;
  }

  lemma {:induction false} NameRun(x: string, r: string)
    requires (forall i :: 0 <= i < |x| ==> ContinuesName(x[i])) && !ContinuesName(PeekAt(r, 0))
    ensures NameLength(x + r) == |x|
  {
    if x == "" {
      assert x + r == r;
    } else {
      assert (x + r)[1..] == x[1..] + r;
      NameRun(x[1..], r);
    }
  }

  /** A fraction after a point needs digits; without a point there is none. */
  lemma Fractions(a: string, b: string, r: string)
    requires AllDigits(b) && !IsDigit(PeekAt(r, 0))
    ensures FractionEnd(a + ("." + (b + r)), |a|) == if b == "" then None else Some(|a| + 1 + |b|)
    ensures PeekAt(r, 0) != '.' ==> FractionEnd(a + r, |a|) == Some(|a|)
  {
    hide Digits;
    var s := a + ("." + (b + r));
    assert PeekAt(s, |a|) == '.' && s[|a| + 1..] == b + r;
    DigitsRun(b, r);
    assert PeekAt(a + r, |a|) == PeekAt(r, 0);
  }

  /** An exponent needs digits; without an e there is none. */
  lemma Exponents(a: string, e: char, c: string, r: string)
    requires e in {'e', 'E'} && AllDigits(c) && !IsDigit(PeekAt(r, 0)) && (c == "" ==> PeekAt(r, 0) !in {'+', '-'})
    ensures ExponentEnd(a + ([e] + (c + r)), |a|) == if c == "" then None else Some(|a| + 1 + |c|)
    ensures !IsExponent(PeekAt(r, 0)) ==> ExponentEnd(a + r, |a|) == Some(|a|)
  {
    hide Digits;
    DigitsRun(c, r);
    var s := a + ([e] + (c + r));
    assert PeekAt(s, |a|) == e && PeekAt(s, |a| + 1) == PeekAt(c + r, 0) && s[|a| + 1..] == c + r;
    assert PeekAt(a + r, |a|) == PeekAt(r, 0);
  }

  /** Its digits may be signed. */
  lemma SignedExponents(a: string, e: char, sign: char, c: string, r: string)
    requires e in {'e', 'E'} && sign in {'+', '-'} && AllDigits(c) && !IsDigit(PeekAt(r, 0))
    ensures ExponentEnd(a + ([e] + ([sign] + (c + r))), |a|) == if c == "" then None else Some(|a| + 2 + |c|)
  {
    hide Digits;
    DigitsRun(c, r);
    var s := a + ([e] + ([sign] + (c + r)));
    assert PeekAt(s, |a|) == e && PeekAt(s, |a| + 1) == sign && s[|a| + 2..] == c + r;
  }

  /** A text as a whole: the product is taken first. */
  lemma SumOfProduct(funcs: bool)
    ensures Meaning("1+2*3", funcs) ==
            Some((BinaryOp(AddOp, IntConst(1), BinaryOp(MulOp, IntConst(2), IntConst(3))), {}))
  {
    hide ScanOne, ParseExpr, Lex;
    var ts := [IntValue(1), Plus, IntValue(2), Star, IntValue(3), End];
    LexSum('1', '2', '3');
    assert ['1'] + ("+" + (['2'] + ("*" + (['3'] + "")))) == "1+2*3";
    assert [IntValue(1)] + ([Plus] + ([IntValue(2)] + ([Star] + ([IntValue(3)] + [End])))) == ts;
    TwoOperators(IntValue(1), Plus, IntValue(2), Star, IntValue(3), funcs);
    assert Tighter(Star, Plus);
    ProductFirst();
  }

  lemma ProductFirst()
    ensures var t := Infixed(Leaf(IntValue(1)), Plus, Infixed(Leaf(IntValue(2)), Star, Leaf(IntValue(3))));
            Abstract(t) == BinaryOp(AddOp, IntConst(1), BinaryOp(MulOp, IntConst(2), IntConst(3)))
                && Properties(t) == {}
  {
    var (one, two, three) := (Leaf(IntValue(1)), Leaf(IntValue(2)), Leaf(IntValue(3)));
    assert Abstract(Infixed(two, Star, three)) == BinaryOp(MulOp, IntConst(2), IntConst(3));
    assert Properties(Infixed(two, Star, three)) == {};
  }

  lemma LexSum(d: char, e: char, f: char)
    requires '0' <= d <= '9' && '0' <= e <= '9' && '0' <= f <= '9'
    ensures Lex([d] + ("+" + ([e] + ("*" + ([f] + ""))))) ==
            Some([IntValue(d as int - 48)]
                + ([Plus] + ([IntValue(e as int - 48)] + ([Star] + ([IntValue(f as int - 48)] + [End])))))
  {
    hide ScanOne, Lex;
    var last := [f] + "";
    LexFirst("");
    LexDigit(f, "", [End]);
    LexSymbol('*', Star, last, [IntValue(f as int - 48)] + [End]);
    var product := "*" + last;
    LexDigit(e, product, [Star] + ([IntValue(f as int - 48)] + [End]));
    LexSymbol('+', Plus, [e] + product, [IntValue(e as int - 48)] + ([Star] + ([IntValue(f as int - 48)] + [End])));
    LexDigit(d, "+" + ([e] + product),
        [Plus] + ([IntValue(e as int - 48)] + ([Star] + ([IntValue(f as int - 48)] + [End]))));
  }

  lemma LexDigit(d: char, y: string, ts: seq<Token>)
    requires '0' <= d <= '9' && !IsDigit(PeekAt(y, 0)) && PeekAt(y, 0) != '.' && !IsExponent(PeekAt(y, 0))
             && Lex(y) == Some(ts)
    ensures Lex([d] + y) == Some([IntValue(d as int - 48)] + ts)
  {
    hide ScanOne;
    OneDigit(d, y);
  }

  lemma LexSymbol(c: char, tok: Token, y: string, ts: seq<Token>)
    requires Single(c) == Some(tok) && c !in {'!', '<', '>'} && Lex(y) == Some(ts)
    ensures Lex([c] + y) == Some([tok] + ts)
  {
    hide ScanOne;
    ScanSymbol(c, y);
  }

  lemma LexFirst(s: string)
    ensures s == "" ==> Lex(s) == Some([End])
  {
    hide ScanOne;
  }

  lemma OneDigit(d: char, y: string)
    requires '0' <= d <= '9' && !IsDigit(PeekAt(y, 0)) && PeekAt(y, 0) != '.' && !IsExponent(PeekAt(y, 0))
    ensures ScanOne([d] + y) == Tok(IntValue(d as int - 48), y)
  {
    hide ScanOne;
    var s := [d] + y;
    assert s[0] == d && s[1..] == y && s[..1] == [d] && PeekAt(s, 1) == PeekAt(y, 0);
    DigitStarts(s);
    assert Digits(y) == 0;
    assert Digits(s) == 1;
    OneValue(d);
  }

  lemma OneValue(d: char)
    requires '0' <= d <= '9'
    ensures ValueOf([d]) == d as int - 48
  {
    assert [d][..0] == "";
    assert ValueOf("") == 0;
  }

  lemma DigitStarts(s: string)
    requires |s| > 0 && IsDigit(s[0])
    ensures ScanOne(s) == ScanNumber(s)
  {
    hide ScanNumber;
  }
}
