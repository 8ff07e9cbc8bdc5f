/**
 EvalValueParser: the cursor-moving Pratt parser, proved to compute what `ParseExpr` describes.
 A thrown exception is the result None.
 */
module EvalParser {
  import opened Options
  import opened EvalSyntax
  import opened EvalGrammar
  import opened EvalUnique

  /** What a list loop delivers: nodes, referenced properties, and where it stopped. */
  datatype Items = Items(nodes: seq<Node>, props: set<string>, rest: seq<Token>) | NoItems

  function ItemsOf(r: Parse<(Trees, bool)>): Items
  {
    match r
    case Fail => NoItems
    case Ok((ts, _), rest) => Items(AbstractAll(ts), PropertiesAll(ts), rest)
  }

  function ItemsOfValues(r: Parse<Trees>): Items
  {
    match r
    case Fail => NoItems
    case Ok(ts, rest) => Items(AbstractAll(ts), PropertiesAll(ts), rest)
  }

  /** Items collected earlier, put in front. */
  function After(nodes: seq<Node>, props: set<string>, i: Items): Items
  {
    match i
    case NoItems => NoItems
    case Items(ns, ps, rest) => Items(nodes + ns, props + ps, rest)
  }

  lemma AfterNothing(i: Items)
    ensures After([], {}, i) == i
  {
    if i.Items? {
      assert [] + i.nodes == i.nodes && {} + i.props == i.props;
    }
  }

  lemma AfterEnd(nodes: seq<Node>, props: set<string>, rest: seq<Token>)
    ensures After(nodes, props, Items([], {}, rest)) == Items(nodes, props, rest)
  {
    assert nodes + [] == nodes && props + {} == props;
  }

  lemma AfterAfter(ns: seq<Node>, ps: set<string>, n: Node, p: set<string>, i: Items)
    ensures After(ns, ps, After([n], p, i)) == After(ns + [n], ps + p, i)
  {
    if i.Items? {
      assert ns + ([n] + i.nodes) == ns + [n] + i.nodes;
      assert ps + (p + i.props) == ps + p + i.props;
    }
  }

  /** One turn of the list loop, in terms of what is left to do. */
  lemma OneItem(e: Tree)
    ensures AbstractAll(Trees(e, NoTrees)) == [Abstract(e)] + []
            && PropertiesAll(Trees(e, NoTrees)) == Properties(e) + {}
  {
    MoreItems(e, NoTrees);
  }

  lemma MoreItems(e: Tree, es: Trees)
    ensures AbstractAll(Trees(e, es)) == [Abstract(e)] + AbstractAll(es)
    ensures PropertiesAll(Trees(e, es)) == Properties(e) + PropertiesAll(es)
  {}

  lemma ArgsTurn(ts: seq<Token>, close: Token, room: int, funcs: bool)
    requires Ends(ts) && close != End && close != Comma && ts[0] != close && room != 0
    ensures var e := ParseExpr(ts, MIN_PRECEDENCE, funcs);
            ItemsOf(ParseArgs(ts, close, room, funcs)) ==
              if e.Fail? then NoItems
              else if e.rest[0] == close then After([Abstract(e.value)], Properties(e.value), Items([], {}, e.rest))
              else if e.rest[0] != Comma then NoItems
              else After([Abstract(e.value)], Properties(e.value),
                  ItemsOf(ParseArgs(e.rest[1..], close, room - 1, funcs)))
  {
    hide ParseExpr, Abstract, Properties, AbstractAll, PropertiesAll;
    var e := ParseExpr(ts, MIN_PRECEDENCE, funcs);
    if e.Ok? && e.rest[0] != close && e.rest[0] == Comma {
      var more := ParseArgs(e.rest[1..], close, room - 1, funcs);
      if more.Ok? {
        MoreItems(e.value, more.value.0);
      }
    }
    if e.Ok? && e.rest[0] == close {
      OneItem(e.value);
    }
  }

  lemma ArgsStop(ts: seq<Token>, close: Token, room: int, funcs: bool)
    requires Ends(ts) && close != End && close != Comma
    ensures ts[0] == close ==> ItemsOf(ParseArgs(ts, close, room, funcs)) == Items([], {}, ts)
    ensures ts[0] != close && room == 0 ==> ItemsOf(ParseArgs(ts, close, room, funcs)) == NoItems
  {
    hide ParseExpr;
  }

  /** The list loop with `nodes` already collected and ts still to come. */
  ghost function Outstanding(nodes: seq<Node>, props: set<string>, ts: seq<Token>, close: Token, room: int,
      funcs: bool): Items
    requires Ends(ts) && close != End && close != Comma
  {
    After(nodes, props, ItemsOf(ParseArgs(ts, close, room - |nodes|, funcs)))
  }

  lemma ElementStep(nodes: seq<Node>, props: set<string>, ts: seq<Token>, close: Token, room: int, funcs: bool)
    requires Ends(ts) && close != End && close != Comma && ts[0] != close
    ensures room == |nodes| ==> Outstanding(nodes, props, ts, close, room, funcs) == NoItems
    ensures room != |nodes| ==>
              var e := ParseExpr(ts, MIN_PRECEDENCE, funcs);
              Outstanding(nodes, props, ts, close, room, funcs) ==
                if e.Fail? then NoItems
                else
                  var (ns, ps) := (nodes + [Abstract(e.value)], props + Properties(e.value));
                  if e.rest[0] == close then Outstanding(ns, ps, e.rest, close, room, funcs)
                  else if e.rest[0] != Comma then NoItems
                  else Outstanding(ns, ps, e.rest[1..], close, room, funcs)
  {
    hide ParseExpr, ParseArgs, ItemsOf, Abstract, Properties;
    var left := room - |nodes|;
    ArgsStop(ts, close, left, funcs);
    if left != 0 {
      ArgsTurn(ts, close, left, funcs);
      var e := ParseExpr(ts, MIN_PRECEDENCE, funcs);
      if e.Ok? {
        if e.rest[0] == close {
          ArgsStop(e.rest, close, left - 1, funcs);
          AfterAfter(nodes, props, Abstract(e.value), Properties(e.value), Items([], {}, e.rest));
        } else if e.rest[0] == Comma {
          AfterAfter(nodes, props, Abstract(e.value), Properties(e.value),
              ItemsOf(ParseArgs(e.rest[1..], close, left - 1, funcs)));
        }
      }
    }
  }

  lemma ElementsDone(nodes: seq<Node>, props: set<string>, ts: seq<Token>, close: Token, room: int, funcs: bool)
    requires Ends(ts) && close != End && close != Comma && ts[0] == close
    ensures Outstanding(nodes, props, ts, close, room, funcs) == Items(nodes, props, ts)
  {
    hide ParseArgs, ItemsOf;
    ArgsStop(ts, close, room - |nodes|, funcs);
    AfterEnd(nodes, props, ts);
  }

  lemma ElementsBegin(ts: seq<Token>, close: Token, room: int, funcs: bool)
    requires Ends(ts) && close != End && close != Comma
    ensures Outstanding([], {}, ts, close, room, funcs) == ItemsOf(ParseArgs(ts, close, room, funcs))
  {
    hide ParseArgs, ItemsOf;
    AfterNothing(ItemsOf(ParseArgs(ts, close, room, funcs)));
  }

  lemma ValuesTurn(ts: seq<Token>, funcs: bool)
    requires Ends(ts) && ts[0] != CloseParen
    ensures ItemsOfValues(ParseValues(ts, funcs)) ==
              if ts[0] != Comma then NoItems
              else
                var e := ParseExpr(ts[1..], MIN_PRECEDENCE, funcs);
                if e.Fail? then NoItems
                else After([Abstract(e.value)], Properties(e.value), ItemsOfValues(ParseValues(e.rest, funcs)))
  {
    hide ParseExpr;
  }

  lemma CallDoesNotMatter(name: string, item: Option<string>)
    ensures RefString(Prop(name, item, true)) == RefString(Prop(name, item, false))
    ensures RefTypeOf(Prop(name, item, true)) == RefTypeOf(Prop(name, item, false))
  {}

  lemma RefMeaning(n: int, r: Ref)
    ensures Abstract(Reference(r)) == RefNode(RefString(r), RefTypeOf(r), -1)
    ensures Abstract(ArgReference(n, r)) == RefNode(RefString(r), RefTypeOf(r), ToInt32(n))
    ensures Properties(Reference(r)) == Properties(ArgReference(n, r)) == RefProperties(r)
  {}

  lemma CondMeaning(c: Tree, a: Tree, b: Tree)
    ensures Abstract(Cond(c, a, b)) == IfNode(Abstract(c), Abstract(a), Abstract(b))
  {}

  lemma CondProperties(c: Tree, a: Tree, b: Tree)
    ensures Properties(Cond(c, a, b)) == Properties(c) + Properties(a) + Properties(b)
  {}

  lemma ListMeaning(v: Tree, es: Trees, trailing: bool)
    ensures Abstract(Bracket(es, trailing)) == ListNode(AbstractAll(es))
    ensures Abstract(UnitLit(es, trailing)) == UnitNode(AbstractAll(es))
    ensures Abstract(Select(v, es)) == SwitchNode(Abstract(v), AbstractAll(es))
    ensures Properties(Bracket(es, trailing)) == Properties(UnitLit(es, trailing)) == PropertiesAll(es)
    ensures Properties(Select(v, es)) == Properties(v) + PropertiesAll(es)
    ensures AbstractAll(es) == [] <==> es.NoTrees?
    ensures |AbstractAll(es)| == Count(es)
  {}

  lemma ValuesStop(ts: seq<Token>, funcs: bool)
    requires Ends(ts) && ts[0] == CloseParen
    ensures ItemsOfValues(ParseValues(ts, funcs)) == Items([], {}, ts)
  {}

  /** The two branches of a conditional. */
  ghost function ParseBranches(ts: seq<Token>, funcs: bool): Parse<(Tree, Tree)>
    requires Ends(ts)
  {
    match ParseAfter(Comma, ts, funcs)
    case Fail => Fail
    case Ok(a, r1) =>
      match ParseAfter(Comma, r1, funcs)
      case Fail => Fail
      case Ok(b, r2) => Ok((a, b), r2)
  }

  lemma IfParts(ts: seq<Token>, funcs: bool)
    requires Ends(ts) && ts[0] == If
    ensures var c := ParseAfter(OpenParen, ts[1..], funcs);
            && (c.Fail? ==> ParseIf(ts, funcs) == Fail)
            && (c.Ok? ==>
                  var b := ParseBranches(c.rest, funcs);
                  && (b.Fail? ==> ParseIf(ts, funcs) == Fail)
                  && (b.Ok? ==>
                        && b.rest != []
                        && ParseIf(ts, funcs) ==
                           if b.rest[0] != CloseParen then Fail
                           else Ok(Cond(c.value, b.value.0, b.value.1), b.rest[1..])))
  {
    hide ParseAfter;
  }

  class EvalValueParser {
    const tokens: seq<Token>
    const useFunctionAsReferenceResolver: bool
    var current: nat
    var propertyReferences: set<string>

    ghost predicate Valid()
      reads this`current
    {
      Ends(tokens) && current < |tokens|
    }

    ghost function Rest(): (r: seq<Token>)
      requires Valid()
      reads this`current
      ensures Ends(r)
    {
      tokens[current..]
    }

    /** The parse succeeded with node r exactly if the description does, with the same tree. */
    ghost predicate Agrees(parse: Parse<Tree>, r: Option<Node>, before: set<string>)
      reads this
    {
      && Valid()
      && match parse
         case Fail => r.None?
         case Ok(t, rest) => r == Some(Abstract(t)) && Rest() == rest && propertyReferences == before + Properties(t)
    }

    constructor (aTokens: seq<Token>, funcs: bool)
      requires Ends(aTokens)
      ensures Valid() && Rest() == aTokens == tokens && propertyReferences == {}
              && useFunctionAsReferenceResolver == funcs
    {
      tokens := aTokens;
      useFunctionAsReferenceResolver := funcs;
      current := 0;
      propertyReferences := {};
    }

    function Peek(): (t: Token)
      requires Valid()
      reads this`current
      ensures t == Rest()[0]
    {
      tokens[current]
    }

    /** Moves past the next token, except that the end token is never passed. */
    method Advance() returns (t: Token)
      requires Valid()
      modifies this`current
      ensures Valid() && t == old(Rest())[0]
      ensures Rest() == if t == End then old(Rest()) else old(Rest())[1..]
    {
      t := Peek();
      if t != End {
        current := current + 1;
      }
    }

    method Consume(tok: Token) returns (ok: bool)
      requires Valid() && tok != End
      modifies this`current
      ensures Valid() && ok == (old(Rest())[0] == tok)
      ensures Rest() == if ok then old(Rest())[1..] else old(Rest())
    {
      ok := Peek() == tok;
      if ok {
        var _ := Advance();
      }
    }

    method Parse() returns (r: Option<Node>)
      requires Valid()
      modifies this`current, this`propertyReferences
      ensures Agrees(ParseExpr(old(Rest()), MIN_PRECEDENCE, useFunctionAsReferenceResolver), r, old(propertyReferences))
    {
      r := Expression(MIN_PRECEDENCE);
    }

    method Expression(precedence: int) returns (r: Option<Node>)
      requires Valid() && precedence >= MIN_PRECEDENCE
      modifies this`current, this`propertyReferences
      ensures Agrees(ParseExpr(old(Rest()), precedence, useFunctionAsReferenceResolver), r, old(propertyReferences))
      decreases |Rest()|, 0
    {
      hide ParseExpr, ParseLoop, ParsePrefix, Abstract, Properties, Valid, Rest, Peek;
      ghost var start, refs, funcs := Rest(), propertyReferences, useFunctionAsReferenceResolver;
      ExprBegins(start, precedence, funcs);
      var token := Advance();
      if token == End {
        EndIsNoPrefix(start, funcs);
        return None;
      }
      var prefix := Prefix(token, start);
      ghost var parsed := ParsePrefix(start, funcs);
      if prefix.None? {
        return None;
      }
      var left := prefix.value;
      ghost var tree := parsed.value;
      while precedence < InfixPrecedence(Peek())
        invariant Valid() && |Rest()| < |start|
        invariant left == Abstract(tree) && propertyReferences == refs + Properties(tree)
        invariant ParseLoop(tree, Rest(), precedence, funcs) == ParseExpr(start, precedence, funcs)
        decreases |Rest()|
      {
        ghost var ts, refs1, tree1 := Rest(), propertyReferences, tree;
        LoopTurn(tree, ts, precedence, funcs);
        token := Advance();
        var right := Expression(InfixPrecedence(token));
        if right.None? {
          return None;
        }
        ghost var rightTree := ParseExpr(ts[1..], InfixPrecedence(token), funcs).value;
        tree := Infixed(tree, token, rightTree);
        InfixMeaning(tree1, token, rightTree);
        left := BinaryOp(BinaryOf(token), left, right.value);
      }
      LoopStops(tree, Rest(), precedence, funcs);
      r := Some(left);
    }

    /** prefix(): the token has been taken; `ts` is the input it was taken from. */
    method Prefix(token: Token, ghost ts: seq<Token>) returns (r: Option<Node>)
      requires Valid() && Ends(ts) && token == ts[0] && token != End && Rest() == ts[1..]
      modifies this`current, this`propertyReferences
      ensures Agrees(ParsePrefix(ts, useFunctionAsReferenceResolver), r, old(propertyReferences))
      decreases |Rest()|, 4
    {
      hide ParseOperand, ParseParen, ParseBracket, ParseIf, ParseSwitch, ParseUnit, ParseReference, ParseArgReference;
      match token
      case FloatValue(x) => r := Some(FloatConst(x));
      case IntValue(n) => r := Some(IntConst(n));
      case BoolValue(b) => r := Some(BoolConst(b));
      case StringValue(s) => r := Some(StringConst(s));
      case Exclamation => r := PrefixOperator(LogNegate, token, ts);
      case Minus => r := PrefixOperator(Negate, token, ts);
      case OpenParen => r := Parenthesised(ts);
      case OpenBracket => r := ListLiteral(ts);
      case If => r := IfExpression(ts);
      case Switch => r := SwitchExpression(ts);
      case Unit => r := UnitLiteral(ts);
      case Dollar => r := ValRefNode(ts);
      case Percent => r := PropRefNode(ts);
      case OpenCurly => r := ArgumentRef(ts);
      case Identifier(name) =>
        r := if useFunctionAsReferenceResolver then Some(RefNode(name, FuncRef, -1)) else None;
      case _ => r := None;
    }

    method PrefixOperator(op: UnaryOperation, token: Token, ghost ts: seq<Token>) returns (r: Option<Node>)
      requires Valid() && Ends(ts) && token == ts[0] && Rest() == ts[1..]
      requires (op == Negate && token == Minus) || (op == LogNegate && token == Exclamation)
      modifies this`current, this`propertyReferences
      ensures Agrees(ParseOperand(ts, useFunctionAsReferenceResolver), r, old(propertyReferences))
      decreases |Rest()|, 3
    {
      hide ParseExpr;
      var e := Expression(PREFIX);
      r := if e.None? then None else Some(UnaryOp(op, e.value));
    }

    method Parenthesised(ghost ts: seq<Token>) returns (r: Option<Node>)
      requires Valid() && Ends(ts) && ts[0] == OpenParen && Rest() == ts[1..]
      modifies this`current, this`propertyReferences
      ensures Agrees(ParseParen(ts, useFunctionAsReferenceResolver), r, old(propertyReferences))
      decreases |Rest()|, 3
    {
      hide ParseExpr;
      r := Expression(MIN_PRECEDENCE);
      if r.Some? {
        var ok := Consume(CloseParen);
        if !ok {
          r := None;
        }
      }
    }

    /** consume(tok), then expression() */
    method ExpressionAfter(tok: Token) returns (r: Option<Node>)
      requires Valid() && tok != End
      modifies this`current, this`propertyReferences
      ensures Agrees(ParseAfter(tok, old(Rest()), useFunctionAsReferenceResolver), r, old(propertyReferences))
      decreases |Rest()|, 1
    {
      hide ParseExpr;
      var ok := Consume(tok);
      if !ok {
        return None;
      }
      r := Expression(MIN_PRECEDENCE);
    }

    method IfExpression(ghost ts: seq<Token>) returns (r: Option<Node>)
      requires Valid() && Ends(ts) && ts[0] == If && Rest() == ts[1..]
      modifies this`current, this`propertyReferences
      ensures Agrees(ParseIf(ts, useFunctionAsReferenceResolver), r, old(propertyReferences))
      decreases |Rest()|, 3
    {
      hide Valid, Rest, Peek, Abstract, Properties, AbstractAll, PropertiesAll, ParseAfter, ParseIf, ParseBranches,
          Count;
      ghost var funcs, refs := useFunctionAsReferenceResolver, propertyReferences;
      IfParts(ts, funcs);
      var cond := ExpressionAfter(OpenParen);
      if cond.None? {
        return None;
      }
      ghost var c := ParseAfter(OpenParen, ts[1..], funcs);
      var branches := Branches();
      if branches.None? {
        return None;
      }
      ghost var b := ParseBranches(c.rest, funcs);
      var ok := Consume(CloseParen);
      if !ok {
        return None;
      }
      assert propertyReferences == refs + Properties(c.value) + Properties(b.value.0) + Properties(b.value.1);
      CondMeaning(c.value, b.value.0, b.value.1);
      CondProperties(c.value, b.value.0, b.value.1);
      r := Some(IfNode(cond.value, branches.value.0, branches.value.1));
    }

    method Branches() returns (r: Option<(Node, Node)>)
      requires Valid()
      modifies this`current, this`propertyReferences
      ensures Valid()
      ensures match ParseBranches(old(Rest()), useFunctionAsReferenceResolver)
              case Fail => r.None?
              case Ok(t, rest) =>
                && r == Some((Abstract(t.0), Abstract(t.1))) && Rest() == rest
                && propertyReferences == old(propertyReferences) + Properties(t.0) + Properties(t.1)
      decreases |Rest()|, 2
    {
      hide Valid, Rest, Peek, Abstract, Properties, ParseAfter;
      var ifTrue := ExpressionAfter(Comma);
      if ifTrue.None? {
        return None;
      }
      var ifFalse := ExpressionAfter(Comma);
      if ifFalse.None? {
        return None;
      }
      r := Some((ifTrue.value, ifFalse.value));
    }

    /** The element loop of a list literal or a unit literal; room < 0 means no limit. */
    method Elements(close: Token, room: int) returns (elements: Option<seq<Node>>)
      requires Valid() && close != End && close != Comma
      modifies this`current, this`propertyReferences
      ensures Valid()
      ensures match ItemsOf(ParseArgs(old(Rest()), close, room, useFunctionAsReferenceResolver))
              case NoItems => elements.None?
              case Items(ns, ps, rest) =>
                && elements == Some(ns) && Rest() == rest
                && propertyReferences == old(propertyReferences) + ps
      decreases |Rest()|, 2
    {
      hide ParseExpr, ParseArgs, ItemsOf, Outstanding, Abstract, Properties, Valid, Rest, Peek;
      ghost var start, refs, funcs := Rest(), propertyReferences, useFunctionAsReferenceResolver;
      var nodes: seq<Node> := [];
      ghost var props: set<string> := {};
      ElementsBegin(start, close, room, funcs);
      while Peek() != close
        invariant Valid() && |Rest()| <= |start|
        invariant propertyReferences == refs + props
        invariant Outstanding(nodes, props, Rest(), close, room, funcs) == ItemsOf(ParseArgs(start, close, room, funcs))
        decreases |Rest()|
      {
        ghost var ts := Rest();
        ElementStep(nodes, props, ts, close, room, funcs);
        if room == |nodes| {
          return None;
        }
        var e := Expression(MIN_PRECEDENCE);
        if e.None? {
          return None;
        }
        nodes := nodes + [e.value];
        props := props + Properties(ParseExpr(ts, MIN_PRECEDENCE, funcs).value);
        if Peek() != close {
          var ok := Consume(Comma);
          if !ok {
            return None;
          }
        }
      }
      ElementsDone(nodes, props, Rest(), close, room, funcs);
      elements := Some(nodes);
    }

    method ListLiteral(ghost ts: seq<Token>) returns (r: Option<Node>)
      requires Valid() && Ends(ts) && ts[0] == OpenBracket && Rest() == ts[1..]
      modifies this`current, this`propertyReferences
      ensures Agrees(ParseBracket(ts, useFunctionAsReferenceResolver), r, old(propertyReferences))
      decreases |Rest()|, 3
    {
      hide Valid, Rest, Peek, Abstract, Properties, AbstractAll, PropertiesAll, ParseArgs, Count;
      ghost var funcs := useFunctionAsReferenceResolver;
      var elements := Elements(CloseBracket, -1);
      if elements.None? {
        return None;
      }
      var ok := Consume(CloseBracket);
      ghost var items := ParseArgs(ts[1..], CloseBracket, -1, funcs).value;
      ListMeaning(Paren(Leaf(End)), items.0, items.1 && items.0.Trees?);
      r := Some(ListNode(elements.value));
    }

    method UnitLiteral(ghost ts: seq<Token>) returns (r: Option<Node>)
      requires Valid() && Ends(ts) && ts[0] == Unit && Rest() == ts[1..]
      modifies this`current, this`propertyReferences
      ensures Agrees(ParseUnit(ts, useFunctionAsReferenceResolver), r, old(propertyReferences))
      decreases |Rest()|, 3
    {
      hide Valid, Rest, Peek, Abstract, Properties, AbstractAll, PropertiesAll, ParseArgs, Count;
      ghost var funcs := useFunctionAsReferenceResolver;
      var ok := Consume(OpenParen);
      if !ok {
        return None;
      }
      var unitParams := Elements(CloseParen, 4);
      if unitParams.None? {
        return None;
      }
      ok := Consume(CloseParen);
      ghost var items := ParseArgs(ts[1..][1..], CloseParen, 4, funcs).value;
      ListMeaning(Paren(Leaf(End)), items.0, items.1);
      r := if unitParams.value == [] then None else Some(UnitNode(unitParams.value));
    }

    method SwitchExpression(ghost ts: seq<Token>) returns (r: Option<Node>)
      requires Valid() && Ends(ts) && ts[0] == Switch && Rest() == ts[1..]
      modifies this`current, this`propertyReferences
      ensures Agrees(ParseSwitch(ts, useFunctionAsReferenceResolver), r, old(propertyReferences))
      decreases |Rest()|, 3
    {
      hide Valid, Rest, Peek, Abstract, Properties, AbstractAll, PropertiesAll, ParseAfter, ParseValues, Count;
      ghost var funcs := useFunctionAsReferenceResolver;
      var variable := ExpressionAfter(OpenParen);
      if variable.None? {
        return None;
      }
      var values := SwitchValues();
      if values.None? {
        return None;
      }
      var ok := Consume(CloseParen);
      ghost var r1 := ParseAfter(OpenParen, ts[1..], funcs);
      ListMeaning(r1.value, ParseValues(r1.rest, funcs).value, false);
      r := if |values.value| < 2 then None else Some(SwitchNode(variable.value, values.value));
    }

    method SwitchValues() returns (values: Option<seq<Node>>)
      requires Valid()
      modifies this`current, this`propertyReferences
      ensures Valid()
      ensures match ItemsOfValues(ParseValues(old(Rest()), useFunctionAsReferenceResolver))
              case NoItems => values.None?
              case Items(ns, ps, rest) =>
                && values == Some(ns) && Rest() == rest
                && propertyReferences == old(propertyReferences) + ps
      decreases |Rest()|, 2
    {
      hide ParseExpr, ParseValues, ItemsOfValues, Abstract, Properties, Valid, Rest, Peek;
      ghost var start, refs, funcs := Rest(), propertyReferences, useFunctionAsReferenceResolver;
      ghost var goal := ItemsOfValues(ParseValues(start, funcs));
      var nodes: seq<Node> := [];
      ghost var props: set<string> := {};
      AfterNothing(goal);
      while Peek() != CloseParen
        invariant Valid() && |Rest()| <= |start|
        invariant propertyReferences == refs + props
        invariant After(nodes, props, ItemsOfValues(ParseValues(Rest(), funcs))) == goal
        decreases |Rest()|
      {
        ghost var ts, nodes0, props0 := Rest(), nodes, props;
        ValuesTurn(ts, funcs);
        var e := ExpressionAfter(Comma);
        if e.None? {
          return None;
        }
        ghost var tree := ParseExpr(ts[1..], MIN_PRECEDENCE, funcs).value;
        nodes := nodes + [e.value];
        props := props + Properties(tree);
        AfterAfter(nodes0, props0, e.value, Properties(tree), ItemsOfValues(ParseValues(Rest(), funcs)));
      }
      ValuesStop(Rest(), funcs);
      AfterEnd(nodes, props, Rest());
      values := Some(nodes);
    }

    /** valref(), after the dollar sign */
    method ValRef() returns (r: Option<string>)
      requires Valid()
      modifies this`current
      ensures Valid()
      ensures match ParseVal(old(Rest()))
              case Fail => r.None?
              case Ok(ref, rest) => ref.Val? && r == Some(RefString(ref)) && Rest() == rest
    {
      if !Peek().Identifier? {
        return None;
      }
      var token := Advance();
      var str := token.name;
      if Peek() == OpenBracket {
        var ok := Consume(OpenBracket);
        token := Advance();
        if !token.IntValue? {
          return None;
        }
        str := str + "[" + IntToString(token.n) + "]";
        ok := Consume(CloseBracket);
        if !ok {
          return None;
        }
      }
      r := Some(str);
    }

    /** The name of a propref and its optional item. */
    method PropHead() returns (r: Option<(string, RefType)>, ghost name: string, ghost item: Option<string>)
      requires Valid()
      modifies this`current
      ensures Valid()
      ensures r.None? ==> ParseProp(old(Rest())).Fail?
      ensures r.Some? ==>
                && ParseProp(old(Rest())) == ParseCall(name, item, Rest())
                && r.value == (RefString(Prop(name, item, false)), RefTypeOf(Prop(name, item, false)))
    {
      hide Valid, Rest, Canonical, Peek, ParseCall;
      name, item := "", None;
      if !Peek().Identifier? {
        return None, name, item;
      }
      var token := Advance();
      name := token.name;
      if Peek() != Colon {
        return Some((token.name, PropertyRef)), name, item;
      }
      var str := token.name;
      var _ := Consume(Colon);
      if !Peek().Identifier? {
        return None, name, item;
      }
      token := Advance();
      item := Some(token.name);
      var propertyItem := Canonical(token.name);
      if propertyItem == "value" {
        r := Some((str + ":" + propertyItem, ValueRef));
      } else if propertyItem == "selectedvalue" {
        r := Some((str + ":" + propertyItem, SelectedValueRef));
      } else if propertyItem == "propertynames" {
        r := Some((str + ":" + propertyItem, PropertyNamesRef));
      } else {
        r := None;
      }
    }

    /** propref(), after the percent sign */
    method PropRef() returns (r: Option<(string, RefType)>)
      requires Valid()
      modifies this`current, this`propertyReferences
      ensures Valid()
      ensures match ParseProp(old(Rest()))
              case Fail => r.None?
              case Ok(ref, rest) =>
                && r == Some((RefString(ref), RefTypeOf(ref)))
                && Rest() == rest && propertyReferences == old(propertyReferences) + RefProperties(ref)
    {
      hide Valid, Rest, Peek, ParseProp, RefString, RefTypeOf;
      ghost var name, item;
      r, name, item := PropHead();
      if r.None? {
        return;
      }
      CallDoesNotMatter(name, item);
      var (str, refType) := r.value;
      if Peek() == OpenParen {
        var _ := Consume(OpenParen);
        var ok := Consume(CloseParen);
        if !ok {
          return None;
        }
      }
      if refType == PropertyRef {
        propertyReferences := propertyReferences + {str};
      }
    }

    method ValRefNode(ghost ts: seq<Token>) returns (r: Option<Node>)
      requires Valid() && Ends(ts) && ts[0] == Dollar && Rest() == ts[1..]
      modifies this`current, this`propertyReferences
      ensures Agrees(ParseReference(ts), r, old(propertyReferences))
    {
      hide ParseVal, RefString;
      var ref := ValRef();
      r := if ref.None? then None else Some(RefNode(ref.value, ValueRef, -1));
    }

    method PropRefNode(ghost ts: seq<Token>) returns (r: Option<Node>)
      requires Valid() && Ends(ts) && ts[0] == Percent && Rest() == ts[1..]
      modifies this`current, this`propertyReferences
      ensures Agrees(ParseReference(ts), r, old(propertyReferences))
    {
      hide ParseProp, RefString, RefTypeOf, RefProperties;
      var ref := PropRef();
      r := if ref.None? then None else Some(RefNode(ref.value.0, ref.value.1, -1));
    }

    /** {n}.$x or {n}.%x: the node of the reference, with its argument index replaced. */
    method ArgumentRef(ghost ts: seq<Token>) returns (r: Option<Node>)
      requires Valid() && Ends(ts) && ts[0] == OpenCurly && Rest() == ts[1..]
      modifies this`current, this`propertyReferences
      ensures Agrees(ParseArgReference(ts), r, old(propertyReferences))
    {
      hide ParseReference, ParseArgIndex, RefString, RefTypeOf, RefProperties, ToInt32, Valid, Rest, Peek, Abstract,
          Properties;
      var index := ArgumentIndex();
      if index.None? {
        return None;
      }
      ghost var tail := Rest();
      var token := Advance();
      var next := None;
      if token == Percent {
        next := PropRefNode(tail);
      } else if token == Dollar {
        next := ValRefNode(tail);
      }
      if next.None? {
        return None;
      }
      RefMeaning(index.value, ParseReference(tail).value.ref);
      r := Some(RefNode(next.value.refStr, next.value.refType, ToInt32(index.value)));
    }

    method ArgumentIndex() returns (r: Option<int>)
      requires Valid()
      modifies this`current
      ensures Valid()
      ensures match ParseArgIndex(old(Rest()))
              case Fail => r.None?
              case Ok(n, rest) => r == Some(n) && Rest() == rest
    {
      hide Valid, Rest, Peek;
      var token := Advance();
      if !token.IntValue? {
        return None;
      }
      var ok := Consume(CloseCurly);
      if !ok {
        return None;
      }
      ok := Consume(Dot);
      r := if ok then Some(token.n) else None;
    }
  }

  lemma ExprBegins(ts: seq<Token>, p: int, funcs: bool)
    requires Ends(ts)
    ensures ParseExpr(ts, p, funcs) ==
              match ParsePrefix(ts, funcs)
              case Fail => Fail
              case Ok(t, rest) => ParseLoop(t, rest, p, funcs)
  {
    hide ParsePrefix, ParseLoop;
  }

  lemma EndIsNoPrefix(ts: seq<Token>, funcs: bool)
    requires Ends(ts) && ts[0] == End
    ensures ParsePrefix(ts, funcs).Fail?
  {}

  lemma LoopTurn(left: Tree, ts: seq<Token>, p: int, funcs: bool)
    requires Ends(ts) && p < InfixPrecedence(ts[0]) && ts[0] != End
    ensures ParseLoop(left, ts, p, funcs) ==
              match ParseExpr(ts[1..], InfixPrecedence(ts[0]), funcs)
              case Fail => Fail
              case Ok(right, rest) => ParseLoop(Infixed(left, ts[0], right), rest, p, funcs)
  {
    hide ParseExpr;
  }

  lemma LoopStops(left: Tree, ts: seq<Token>, p: int, funcs: bool)
    requires Ends(ts) && p >= InfixPrecedence(ts[0])
    ensures ParseLoop(left, ts, p, funcs) == Ok(left, ts)
  {
    hide ParseExpr;
  }

  lemma InfixMeaning(l: Tree, op: Token, r: Tree)
    requires IsInfix(op)
    ensures Abstract(Infixed(l, op, r)) == BinaryOp(BinaryOf(op), Abstract(l), Abstract(r))
    ensures Properties(Infixed(l, op, r)) == Properties(l) + Properties(r)
  {}
}
