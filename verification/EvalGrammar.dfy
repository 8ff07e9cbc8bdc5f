/**
 A recursive description of what the parser does, and its exact relation to the grammar:
 it accepts a token sequence with a tree if and only if that tree is grammatical, is written with
 the consumed tokens, and could not have gone on. Hence the tree is unique.
 */
module EvalGrammar {
  import opened Options
  import opened EvalSyntax

  datatype Parse<+T> = Ok(value: T, rest: seq<Token>) | Fail

  predicate Ends(ts: seq<Token>)
  {
    |ts| > 0 && ts[|ts| - 1] == End
  }

  /** A parse that consumed something and left a proper token sequence. */
  ghost predicate Consumed<T>(r: Parse<T>, ts: seq<Token>)
  {
    r.Ok? ==> Ends(r.rest) && |r.rest| < |ts|
  }

  // ---------- Parsing ----------

  /** valref, after the dollar sign */
  function ParseVal(ts: seq<Token>): (r: Parse<Ref>)
    requires Ends(ts)
    ensures Consumed(r, ts)
  {
    if !ts[0].Identifier? then Fail
    else
      var r1 := ts[1..];
      if r1[0] != OpenBracket then Ok(Val(ts[0].name, None), r1)
      else
        var r2 := r1[1..];
        if !r2[0].IntValue? then Fail
        else
          var r3 := r2[1..];
          if r3[0] != CloseBracket then Fail else Ok(Val(ts[0].name, Some(r2[0].n)), r3[1..])
  }

  /** propref, after the percent sign */
  function ParseProp(ts: seq<Token>): (r: Parse<Ref>)
    requires Ends(ts)
    ensures Consumed(r, ts)
  {
    if !ts[0].Identifier? then Fail
    else
      var r1 := ts[1..];
      if r1[0] != Colon then ParseCall(ts[0].name, None, r1)
      else
        var r2 := r1[1..];
        if !r2[0].Identifier? || !IsItem(r2[0].name) then Fail
        else ParseCall(ts[0].name, Some(r2[0].name), r2[1..])
  }

  function ParseCall(name: string, item: Option<string>, ts: seq<Token>): (r: Parse<Ref>)
    requires Ends(ts)
    ensures r.Ok? ==> Ends(r.rest) && |r.rest| <= |ts|
  {
    if ts[0] != OpenParen then Ok(Prop(name, item, false), ts)
    else
      var r1 := ts[1..];
      if r1[0] != CloseParen then Fail else Ok(Prop(name, item, true), r1[1..])
  }

  /** expression(p) */
  function ParseExpr(ts: seq<Token>, p: int, funcs: bool): (r: Parse<Tree>)
    requires Ends(ts)
    ensures Consumed(r, ts)
    decreases |ts|, 2
  {
    match ParsePrefix(ts, funcs)
    case Fail => Fail
    case Ok(t, rest) => ParseLoop(t, rest, p, funcs)
  }

  /** The loop of expression(p), with `left` built so far. */
  function ParseLoop(left: Tree, ts: seq<Token>, p: int, funcs: bool): (r: Parse<Tree>)
    requires Ends(ts)
    ensures r.Ok? ==> Ends(r.rest) && |r.rest| <= |ts|
    decreases |ts|, 2
  {
    if p >= InfixPrecedence(ts[0]) || ts[0] == End then Ok(left, ts)
    else
      match ParseExpr(ts[1..], InfixPrecedence(ts[0]), funcs)
      case Fail => Fail
      case Ok(right, rest) => ParseLoop(Infixed(left, ts[0], right), rest, p, funcs)
  }

  /** prefix() on the token taken by expression() */
  function ParsePrefix(ts: seq<Token>, funcs: bool): (r: Parse<Tree>)
    requires Ends(ts)
    ensures Consumed(r, ts)
    decreases |ts|, 1
  {
    match ts[0]
    case FloatValue(_) => Ok(Leaf(ts[0]), ts[1..])
    case IntValue(_) => Ok(Leaf(ts[0]), ts[1..])
    case BoolValue(_) => Ok(Leaf(ts[0]), ts[1..])
    case StringValue(_) => Ok(Leaf(ts[0]), ts[1..])
    case Identifier(_) => if funcs then Ok(Leaf(ts[0]), ts[1..]) else Fail
    case Exclamation => ParseOperand(ts, funcs)
    case Minus => ParseOperand(ts, funcs)
    case OpenParen => ParseParen(ts, funcs)
    case OpenBracket => ParseBracket(ts, funcs)
    case If => ParseIf(ts, funcs)
    case Switch => ParseSwitch(ts, funcs)
    case Unit => ParseUnit(ts, funcs)
    case Dollar => ParseReference(ts)
    case Percent => ParseReference(ts)
    case OpenCurly => ParseArgReference(ts)
    case _ => Fail
  }

  function ParseParen(ts: seq<Token>, funcs: bool): (r: Parse<Tree>)
    requires Ends(ts) && ts[0] == OpenParen
    ensures Consumed(r, ts)
    decreases |ts|, 0
  {
    match ParseExpr(ts[1..], MIN_PRECEDENCE, funcs)
    case Fail => Fail
    case Ok(e, rest) => if rest[0] != CloseParen then Fail else Ok(Paren(e), rest[1..])
  }

  function ParseBracket(ts: seq<Token>, funcs: bool): (r: Parse<Tree>)
    requires Ends(ts) && ts[0] == OpenBracket
    ensures Consumed(r, ts)
    decreases |ts|, 0
  {
    match ParseArgs(ts[1..], CloseBracket, -1, funcs)
    case Fail => Fail
    case Ok((es, tc), rest) => Ok(Bracket(es, tc && es.Trees?), rest[1..])
  }

  function ParseUnit(ts: seq<Token>, funcs: bool): (r: Parse<Tree>)
    requires Ends(ts) && ts[0] == Unit
    ensures Consumed(r, ts)
    decreases |ts|, 0
  {
    var r1 := ts[1..];
    if r1[0] != OpenParen then Fail else
    match ParseArgs(r1[1..], CloseParen, 4, funcs)
    case Fail => Fail
    case Ok((ps, tc), rest) => if ps.NoTrees? then Fail else Ok(UnitLit(ps, tc), rest[1..])
  }

  function ParseReference(ts: seq<Token>): (r: Parse<Tree>)
    requires Ends(ts) && (ts[0] == Dollar || ts[0] == Percent)
    ensures Consumed(r, ts) && (r.Ok? ==> r.value.Reference?)
  {
    match if ts[0] == Dollar then ParseVal(ts[1..]) else ParseProp(ts[1..])
    case Fail => Fail
    case Ok(r, rest) => Ok(Reference(r), rest)
  }

  function ParseOperand(ts: seq<Token>, funcs: bool): (r: Parse<Tree>)
    requires Ends(ts) && ts[0] != End
    ensures Consumed(r, ts)
    decreases |ts|, 0
  {
    match ParseExpr(ts[1..], PREFIX, funcs)
    case Fail => Fail
    case Ok(e, rest) => Ok(Prefixed(ts[0], e), rest)
  }

  /** consume(tok), then expression() */
  function ParseAfter(tok: Token, ts: seq<Token>, funcs: bool): (r: Parse<Tree>)
    requires Ends(ts) && tok != End
    ensures Consumed(r, ts)
    decreases |ts|, 0
  {
    if ts[0] != tok then Fail else ParseExpr(ts[1..], MIN_PRECEDENCE, funcs)
  }

  function ParseIf(ts: seq<Token>, funcs: bool): (r: Parse<Tree>)
    requires Ends(ts) && ts[0] == If
    ensures Consumed(r, ts)
    decreases |ts|, 0
  {
    match ParseAfter(OpenParen, ts[1..], funcs)
    case Fail => Fail
    case Ok(c, r1) =>
      match ParseAfter(Comma, r1, funcs)
      case Fail => Fail
      case Ok(a, r2) =>
        match ParseAfter(Comma, r2, funcs)
        case Fail => Fail
        case Ok(b, r3) => if r3[0] != CloseParen then Fail else Ok(Cond(c, a, b), r3[1..])
  }

  function ParseSwitch(ts: seq<Token>, funcs: bool): (r: Parse<Tree>)
    requires Ends(ts) && ts[0] == Switch
    ensures Consumed(r, ts)
    decreases |ts|, 0
  {
    match ParseAfter(OpenParen, ts[1..], funcs)
    case Fail => Fail
    case Ok(v, r1) =>
      match ParseValues(r1, funcs)
      case Fail => Fail
      case Ok(vs, r2) => if Count(vs) < 2 then Fail else Ok(Select(v, vs), r2[1..])
  }

  /** INTVALUE "}" "." after the opening brace */
  function ParseArgIndex(ts: seq<Token>): (r: Parse<int>)
    requires Ends(ts)
    ensures Consumed(r, ts)
  {
    if !ts[0].IntValue? then Fail
    else
      var r1 := ts[1..];
      if r1[0] != CloseCurly then Fail
      else
        var r2 := r1[1..];
        if r2[0] != Dot then Fail else Ok(ts[0].n, r2[1..])
  }

  function ParseArgReference(ts: seq<Token>): (r: Parse<Tree>)
    requires Ends(ts) && ts[0] == OpenCurly
    ensures Consumed(r, ts)
  {
    match ParseArgIndex(ts[1..])
    case Fail => Fail
    case Ok(n, r1) =>
      if r1[0] != Dollar && r1[0] != Percent then Fail
      else
        match ParseReference(r1)
        case Fail => Fail
        case Ok(t, rest) => Ok(ArgReference(n, t.ref), rest)
  }

  /**
   The list loop: elements up to `close`, which is left in place. `room` is how many more are
   accepted (negative: any number); the flag tells whether a comma came last.
   */
  function ParseArgs(ts: seq<Token>, close: Token, room: int, funcs: bool): (r: Parse<(Trees, bool)>)
    requires Ends(ts) && close != End && close != Comma
    ensures r.Ok? ==> Ends(r.rest) && |r.rest| <= |ts| && r.rest[0] == close
    decreases |ts|, 3
  {
    if ts[0] == close then Ok((NoTrees, true), ts)
    else if room == 0 then Fail
    else
      match ParseExpr(ts, MIN_PRECEDENCE, funcs)
      case Fail => Fail
      case Ok(e, r1) =>
        if r1[0] == close then Ok((Trees(e, NoTrees), false), r1)
        else if r1[0] != Comma then Fail
        else
          match ParseArgs(r1[1..], close, room - 1, funcs)
          case Fail => Fail
          case Ok((es, tc), r2) => Ok((Trees(e, es), tc), r2)
  }

  /** The loop of a switch: values, each after a comma, up to the closing parenthesis. */
  function ParseValues(ts: seq<Token>, funcs: bool): (r: Parse<Trees>)
    requires Ends(ts)
    ensures r.Ok? ==> Ends(r.rest) && |r.rest| <= |ts| && r.rest[0] == CloseParen
    decreases |ts|, 3
  {
    if ts[0] == CloseParen then Ok(NoTrees, ts)
    else
      match ParseAfter(Comma, ts, funcs)
      case Fail => Fail
      case Ok(e, r1) =>
        match ParseValues(r1, funcs)
        case Fail => Fail
        case Ok(es, r2) => Ok(Trees(e, es), r2)
  }
}
