/**
 The parser's result is exactly the grammatical tree of the consumed tokens: soundness,
 completeness, and uniqueness of the tree as their consequence.
 */
module EvalUnique {
  import opened Options
  import opened EvalSyntax
  import opened EvalGrammar

  /** t is a grammatical reading of a first part of ts that stops in front of rest. */
  ghost predicate Reads(ts: seq<Token>, p: int, funcs: bool, t: Tree, rest: seq<Token>)
  {
    && Ends(rest)
    && ts == Written(t, rest)
    && Grammatical(t, p, funcs)
    && InfixPrecedence(rest[0]) <= p
    && !Extends(t, rest[0])
  }

  /** A prefix form is grammatical at every level. */
  ghost predicate ReadsPrefix(ts: seq<Token>, funcs: bool, t: Tree, rest: seq<Token>)
  {
    && Ends(rest)
    && ts == Written(t, rest)
    && !t.Infixed?
    && Grammatical(t, PREFIX, funcs)
    && !Extends(t, rest[0])
  }

  /** The level up to which a following operator leaves t alone. */
  function RightLevel(t: Tree): int
  {
    if t.Infixed? then InfixPrecedence(t.op) else PREFIX
  }

  lemma Split(ts: seq<Token>)
    requires |ts| > 0
    ensures ts == Then(ts[0], ts[1..])
  {}

  // ---------- Soundness ----------

  lemma {:induction false} SoundExpr(ts: seq<Token>, p: int, funcs: bool)
    requires Ends(ts) && p >= MIN_PRECEDENCE
    ensures var r := ParseExpr(ts, p, funcs); r.Ok? ==> Reads(ts, p, funcs, r.value, r.rest)
    decreases |ts|, 2
  {
    hide ParsePrefix, ParseLoop, Then, Written, Extends;
    SoundPrefix(ts, funcs);
    var r := ParsePrefix(ts, funcs);
    if r.Ok? {
      SoundLoop(r.value, r.rest, p, funcs);
    }
  }

  lemma {:induction false} SoundLoop(left: Tree, ts: seq<Token>, p: int, funcs: bool)
    requires Ends(ts) && p >= MIN_PRECEDENCE
    requires Grammatical(left, p, funcs) && InfixPrecedence(ts[0]) <= RightLevel(left) && !Extends(left, ts[0])
    ensures var r := ParseLoop(left, ts, p, funcs); r.Ok? ==> Reads(Written(left, ts), p, funcs, r.value, r.rest)
    decreases |ts|, 2
  {
    hide ParseExpr, ParsePrefix, Then;
    if !(p >= InfixPrecedence(ts[0]) || ts[0] == End) {
      var q := InfixPrecedence(ts[0]);
      SoundExpr(ts[1..], q, funcs);
      var r := ParseExpr(ts[1..], q, funcs);
      if r.Ok? {
        assert Grammatical(left, q - 1, funcs);
        Split(ts);
        SoundLoop(Infixed(left, ts[0], r.value), r.rest, p, funcs);
      }
    }
  }

  lemma {:induction false} SoundPrefix(ts: seq<Token>, funcs: bool)
    requires Ends(ts)
    ensures var r := ParsePrefix(ts, funcs); r.Ok? ==> ReadsPrefix(ts, funcs, r.value, r.rest)
    decreases |ts|, 1
  {
    hide ParseOperand, ParseParen, ParseBracket, ParseIf, ParseSwitch, ParseUnit, ParseReference, ParseArgReference,
        Then;
    match ts[0]
    case Exclamation => SoundOperand(ts, funcs);
    case Minus => SoundOperand(ts, funcs);
    case OpenParen => SoundParen(ts, funcs);
    case OpenBracket => SoundBracket(ts, funcs);
    case If => SoundIf(ts, funcs);
    case Switch => SoundSwitch(ts, funcs);
    case Unit => SoundUnit(ts, funcs);
    case Dollar => SoundReference(ts, funcs);
    case Percent => SoundReference(ts, funcs);
    case OpenCurly => SoundArgReference(ts, funcs);
    case _ => Split(ts);
  }

  lemma SoundVal(ts: seq<Token>)
    requires Ends(ts)
    ensures var r := ParseVal(ts);
            r.Ok? ==> r.value.Val? && Then(Dollar, ts) == WrittenRef(r.value, r.rest) && !RefExtends(r.value, r.rest[0])
  {
    hide Then;
    Split(ts);
    if ts[0].Identifier? {
      var r1 := ts[1..];
      if r1[0] == OpenBracket {
        Split(r1);
        var r2 := r1[1..];
        if r2[0].IntValue? {
          Split(r2);
          Split(r2[1..]);
        }
      }
    }
  }

  lemma SoundProp(ts: seq<Token>)
    requires Ends(ts)
    ensures var r := ParseProp(ts);
            r.Ok? ==>
              && r.value.Prop? && RefOk(r.value) && Then(Percent, ts) == WrittenRef(r.value, r.rest)
              && !RefExtends(r.value, r.rest[0])
  {
    hide Then, ParseCall, IsItem;
    Split(ts);
    if ts[0].Identifier? {
      var r1 := ts[1..];
      if r1[0] != Colon {
        SoundCall(ts[0].name, None, r1);
      } else {
        var r2 := r1[1..];
        if r2[0].Identifier? {
          Split(r1);
          Split(r2);
          SoundCall(ts[0].name, Some(r2[0].name), r2[1..]);
        }
      }
    }
  }

  lemma SoundCall(name: string, item: Option<string>, ts: seq<Token>)
    requires Ends(ts) && (item.Some? || ts[0] != Colon)
    ensures var r := ParseCall(name, item, ts);
            r.Ok? ==>
              && r.value.Prop? && r.value.name == name && r.value.item == item
              && ts == (if r.value.call then Then(OpenParen, Then(CloseParen, r.rest)) else r.rest)
              && !RefExtends(r.value, r.rest[0])
  {
    hide Then;
    Split(ts);
    if ts[0] == OpenParen {
      Split(ts[1..]);
    }
  }

  lemma SoundReference(ts: seq<Token>, funcs: bool)
    requires Ends(ts) && (ts[0] == Dollar || ts[0] == Percent)
    ensures var r := ParseReference(ts); r.Ok? ==> ReadsPrefix(ts, funcs, r.value, r.rest)
  {
    hide ParseVal, ParseProp, RefExtends, WrittenRef, Then;
    Split(ts);
    if ts[0] == Dollar {
      SoundVal(ts[1..]);
    } else {
      SoundProp(ts[1..]);
    }
  }

  lemma SoundArgReference(ts: seq<Token>, funcs: bool)
    requires Ends(ts) && ts[0] == OpenCurly
    ensures var r := ParseArgReference(ts); r.Ok? ==> ReadsPrefix(ts, funcs, r.value, r.rest)
  {
    hide ParseReference, ParseArgIndex, RefExtends, WrittenRef, Then;
    Split(ts);
    SoundArgIndex(ts[1..]);
    var r := ParseArgReference(ts);
    if r.Ok? {
      SoundReference(ParseArgIndex(ts[1..]).rest, funcs);
    }
  }

  lemma SoundArgIndex(ts: seq<Token>)
    requires Ends(ts)
    ensures var r := ParseArgIndex(ts); r.Ok? ==> ts == Then(IntValue(r.value), Then(CloseCurly, Then(Dot, r.rest)))
  {
    hide Then;
    if ParseArgIndex(ts).Ok? {
      var r1 := ts[1..];
      Split(ts);
      Split(r1);
      Split(r1[1..]);
    }
  }

  lemma {:induction false} SoundOperand(ts: seq<Token>, funcs: bool)
    requires Ends(ts) && (ts[0] == Exclamation || ts[0] == Minus)
    ensures var r := ParseOperand(ts, funcs); r.Ok? ==> ReadsPrefix(ts, funcs, r.value, r.rest)
    decreases |ts|, 0
  {
    hide ParseExpr, Then;
    Split(ts);
    SoundExpr(ts[1..], PREFIX, funcs);
  }

  lemma {:induction false} SoundParen(ts: seq<Token>, funcs: bool)
    requires Ends(ts) && ts[0] == OpenParen
    ensures var r := ParseParen(ts, funcs); r.Ok? ==> ReadsPrefix(ts, funcs, r.value, r.rest)
    decreases |ts|, 0
  {
    hide ParseExpr, Then;
    Split(ts);
    SoundExpr(ts[1..], MIN_PRECEDENCE, funcs);
    var r := ParseExpr(ts[1..], MIN_PRECEDENCE, funcs);
    if r.Ok? {
      Split(r.rest);
    }
  }

  lemma {:induction false} SoundBracket(ts: seq<Token>, funcs: bool)
    requires Ends(ts) && ts[0] == OpenBracket
    ensures var r := ParseBracket(ts, funcs); r.Ok? ==> ReadsPrefix(ts, funcs, r.value, r.rest)
    decreases |ts|, 0
  {
    hide ParseArgs, Then;
    Split(ts);
    SoundArgs(ts[1..], CloseBracket, -1, funcs);
    var r := ParseArgs(ts[1..], CloseBracket, -1, funcs);
    if r.Ok? {
      var (es, tc) := r.value;
      assert WrittenArgs(es, tc, r.rest) == WrittenArgs(es, tc && es.Trees?, r.rest);
      Split(r.rest);
    }
  }

  lemma {:induction false} SoundUnit(ts: seq<Token>, funcs: bool)
    requires Ends(ts) && ts[0] == Unit
    ensures var r := ParseUnit(ts, funcs); r.Ok? ==> ReadsPrefix(ts, funcs, r.value, r.rest)
    decreases |ts|, 0
  {
    hide ParseArgs, WrittenArgs, Then;
    var r1 := ts[1..];
    if r1[0] == OpenParen {
      Split(ts);
      Split(r1);
      SoundArgs(r1[1..], CloseParen, 4, funcs);
      var r := ParseArgs(r1[1..], CloseParen, 4, funcs);
      if r.Ok? {
        Split(r.rest);
      }
    }
  }

  lemma {:induction false} SoundAfter(tok: Token, ts: seq<Token>, funcs: bool)
    requires Ends(ts) && tok != End
    ensures var r := ParseAfter(tok, ts, funcs);
            r.Ok? ==> ts == Then(tok, Written(r.value, r.rest)) && Grammatical(r.value, MIN_PRECEDENCE, funcs)
    decreases |ts|, 0
  {
    hide ParseExpr, Then, Written, Grammatical;
    Split(ts);
    if ts[0] == tok {
      SoundExpr(ts[1..], MIN_PRECEDENCE, funcs);
    }
  }

  lemma {:induction false} SoundIf(ts: seq<Token>, funcs: bool)
    requires Ends(ts) && ts[0] == If
    ensures var r := ParseIf(ts, funcs); r.Ok? ==> ReadsPrefix(ts, funcs, r.value, r.rest)
    decreases |ts|, 0
  {
    hide ParseAfter, Then, Written, Grammatical, Extends, ReadsPrefix;
    var r := ParseIf(ts, funcs);
    if r.Ok? {
      Split(ts);
      SoundAfter(OpenParen, ts[1..], funcs);
      var r1 := ParseAfter(OpenParen, ts[1..], funcs);
      SoundAfter(Comma, r1.rest, funcs);
      var r2 := ParseAfter(Comma, r1.rest, funcs);
      SoundAfter(Comma, r2.rest, funcs);
      var r3 := ParseAfter(Comma, r2.rest, funcs);
      Split(r3.rest);
      CondReads(ts, funcs, r1.value, r2.value, r3.value, r.rest);
    }
  }

  lemma CondReads(ts: seq<Token>, funcs: bool, c: Tree, a: Tree, b: Tree, rest: seq<Token>)
    requires Ends(rest)
    requires ts == Then(If,
             Then(OpenParen, Written(c, Then(Comma, Written(a, Then(Comma, Written(b, Then(CloseParen, rest))))))))
    requires Grammatical(c, MIN_PRECEDENCE, funcs) && Grammatical(a, MIN_PRECEDENCE, funcs)
             && Grammatical(b, MIN_PRECEDENCE, funcs)
    ensures ReadsPrefix(ts, funcs, Cond(c, a, b), rest)
  {
    hide Then;
  }

  lemma SelectReads(ts: seq<Token>, funcs: bool, v: Tree, vs: Trees, rest: seq<Token>)
    requires Ends(rest) && Count(vs) >= 2
    requires ts == Then(Switch, Then(OpenParen, Written(v, WrittenValues(vs, Then(CloseParen, rest)))))
    requires Grammatical(v, MIN_PRECEDENCE, funcs) && AllGrammatical(vs, funcs)
    ensures ReadsPrefix(ts, funcs, Select(v, vs), rest)
  {
    hide Then;
  }

  lemma {:induction false} SoundSwitch(ts: seq<Token>, funcs: bool)
    requires Ends(ts) && ts[0] == Switch
    ensures var r := ParseSwitch(ts, funcs); r.Ok? ==> ReadsPrefix(ts, funcs, r.value, r.rest)
    decreases |ts|, 0
  {
    hide ParseAfter, ParseValues, WrittenValues, Then, Written, Grammatical, AllGrammatical, Extends, ReadsPrefix;
    var r := ParseSwitch(ts, funcs);
    if r.Ok? {
      Split(ts);
      SoundAfter(OpenParen, ts[1..], funcs);
      var r1 := ParseAfter(OpenParen, ts[1..], funcs);
      SoundValues(r1.rest, funcs);
      var r2 := ParseValues(r1.rest, funcs);
      Split(r2.rest);
      SelectReads(ts, funcs, r1.value, r2.value, r.rest);
    }
  }

  lemma {:induction false} SoundArgs(ts: seq<Token>, close: Token, room: int, funcs: bool)
    requires Ends(ts) && close != End && close != Comma
    ensures var r := ParseArgs(ts, close, room, funcs);
            r.Ok? ==>
              var (es, tc) := r.value;
              && ts == WrittenArgs(es, tc, r.rest) && AllGrammatical(es, funcs)
              && (room >= 0 ==> Count(es) <= room) && (es.NoTrees? ==> tc)
    decreases |ts|, 3
  {
    hide ParseExpr, Then, Grammatical, Written;
    var r := ParseArgs(ts, close, room, funcs);
    if r.Ok? && ts[0] != close {
      SoundExpr(ts, MIN_PRECEDENCE, funcs);
      var r1 := ParseExpr(ts, MIN_PRECEDENCE, funcs);
      if r1.rest[0] != close {
        Split(r1.rest);
        SoundArgs(r1.rest[1..], close, room - 1, funcs);
      }
    }
  }

  lemma {:induction false} SoundValues(ts: seq<Token>, funcs: bool)
    requires Ends(ts)
    ensures var r := ParseValues(ts, funcs);
            r.Ok? ==> ts == WrittenValues(r.value, r.rest) && AllGrammatical(r.value, funcs)
    decreases |ts|, 3
  {
    hide ParseAfter, Then, Grammatical, Written;
    var r := ParseValues(ts, funcs);
    if r.Ok? && ts[0] != CloseParen {
      SoundAfter(Comma, ts, funcs);
      SoundValues(ParseAfter(Comma, ts, funcs).rest, funcs);
    }
  }

  // ---------- Shape of written trees ----------

  lemma ThenParts(tok: Token, k: seq<Token>)
    ensures |Then(tok, k)| == |k| + 1 && Then(tok, k)[0] == tok && Then(tok, k)[1..] == k
    ensures Ends(k) ==> Ends(Then(tok, k))
  {}

  /** The first token of a tree. */
  function First(t: Tree): Token
  {
    match t
    case Leaf(tok) => tok
    case Prefixed(pre, _) => pre
    case Infixed(l, _, _) => First(l)
    case Paren(_) => OpenParen
    case Bracket(_, _) => OpenBracket
    case Cond(_, _, _) => If
    case Select(_, _) => Switch
    case UnitLit(_, _) => Unit
    case Reference(r) => if r.Val? then Dollar else Percent
    case ArgReference(_, _) => OpenCurly
  }

  lemma {:induction false} FirstNotCloser(t: Tree, p: int, funcs: bool)
    requires Grammatical(t, p, funcs)
    ensures First(t) !in {CloseParen, CloseBracket, Comma, End}
  {
    if t.Infixed? {
      FirstNotCloser(t.lhs, InfixPrecedence(t.op) - 1, funcs);
    }
  }

  lemma {:induction false} WrittenStart(t: Tree, k: seq<Token>)
    ensures |Written(t, k)| > 0 && Written(t, k)[0] == First(t)
  {
    match t
    case Infixed(l, op, r) => WrittenStart(l, Then(op, Written(r, k)));
    case _ =>
  }

  lemma {:induction false} WrittenEnds(t: Tree, k: seq<Token>)
    requires Ends(k)
    ensures Ends(Written(t, k)) && |Written(t, k)| > |k|
  {
    WrittenAppend(t, [], k);
    assert [] + k == k;
    WrittenStart(t, []);
  }

  lemma {:induction false} WrittenArgsEnds(ts: Trees, trailing: bool, k: seq<Token>)
    requires Ends(k)
    ensures Ends(WrittenArgs(ts, trailing, k))
  {
    WrittenArgsAppend(ts, trailing, [], k);
    assert [] + k == k;
  }

  // ---------- Completeness ----------

  lemma {:induction false} CompleteExpr(t: Tree, p: int, funcs: bool, rest: seq<Token>)
    requires p >= MIN_PRECEDENCE && Ends(rest) && Grammatical(t, p, funcs)
    requires InfixPrecedence(rest[0]) <= p && !Extends(t, rest[0])
    ensures Ends(Written(t, rest)) && ParseExpr(Written(t, rest), p, funcs) == Ok(t, rest)
    decreases t, 2
  {
    hide ParseExpr, Written, Grammatical, Extends;
    RightLevelAbove(t, p, funcs, rest[0]);
    CompleteSpine(t, p, funcs, rest);
  }

  lemma RightLevelAbove(t: Tree, p: int, funcs: bool, tok: Token)
    requires Grammatical(t, p, funcs) && InfixPrecedence(tok) <= p
    ensures InfixPrecedence(tok) <= RightLevel(t)
  {}

  /** Parsing the tokens of t leads to the loop with t as its left operand. */
  lemma {:induction false} CompleteSpine(t: Tree, p: int, funcs: bool, rest: seq<Token>)
    requires p >= MIN_PRECEDENCE && Ends(rest) && Grammatical(t, p, funcs)
    requires InfixPrecedence(rest[0]) <= RightLevel(t) && !Extends(t, rest[0])
    ensures Ends(Written(t, rest)) && ParseExpr(Written(t, rest), p, funcs) == ParseLoop(t, rest, p, funcs)
    decreases t, 1
  {
    hide Then;
    WrittenEnds(t, rest);
    if t.Infixed? {
      SpineStep(t, p, funcs, rest);
    } else {
      CompletePrefix(t, funcs, rest);
    }
  }

  lemma {:induction false} SpineStep(t: Tree, p: int, funcs: bool, rest: seq<Token>)
    requires t.Infixed? && p >= MIN_PRECEDENCE && Ends(rest) && Grammatical(t, p, funcs)
    requires InfixPrecedence(rest[0]) <= RightLevel(t) && !Extends(t, rest[0]) && Ends(Written(t, rest))
    ensures ParseExpr(Written(t, rest), p, funcs) == ParseLoop(t, rest, p, funcs)
    decreases t, 0
  {
    hide ParseExpr, ParsePrefix, Then;
    var q := InfixPrecedence(t.op);
    var k := Then(t.op, Written(t.rhs, rest));
    WrittenEnds(t.rhs, rest);
    ThenParts(t.op, Written(t.rhs, rest));
    GrammaticalBelow(t.lhs, q - 1, p, funcs);
    NoExtension(t.lhs, t.op);
    CompleteSpine(t.lhs, p, funcs, k);
    CompleteExpr(t.rhs, q, funcs, rest);
  }

  lemma GrammaticalBelow(t: Tree, q: int, p: int, funcs: bool)
    requires Grammatical(t, q, funcs) && p <= q
    ensures Grammatical(t, p, funcs) && (q < PREFIX ==> RightLevel(t) > q)
  {}

  /** Operators, commas and closers never extend a reference. */
  lemma {:induction false} NoExtension(t: Tree, tok: Token)
    requires IsInfix(tok) || tok in {Comma, CloseParen, CloseBracket}
    ensures !Extends(t, tok)
  {
    match t
    case Prefixed(_, e) => NoExtension(e, tok);
    case Infixed(_, _, r) => NoExtension(r, tok);
    case _ =>
  }

  lemma {:induction false} CompletePrefix(t: Tree, funcs: bool, rest: seq<Token>)
    requires !t.Infixed? && Ends(rest) && Grammatical(t, PREFIX, funcs) && !Extends(t, rest[0])
             && Ends(Written(t, rest))
    ensures ParsePrefix(Written(t, rest), funcs) == Ok(t, rest)
    decreases t, 0
  {
    hide ParseOperand, ParseParen, ParseBracket, ParseIf, ParseSwitch, ParseUnit, ParseReference, ParseArgReference,
        Then;
    WrittenStart(t, rest);
    match t
    case Leaf(tok) => ThenParts(tok, rest);
    case Prefixed(pre, e) => CompleteOperand(t, funcs, rest);
    case Paren(e) => CompleteParen(t, funcs, rest);
    case Bracket(_, _) => CompleteBracket(t, funcs, rest);
    case Cond(_, _, _) => CompleteIf(t, funcs, rest);
    case Select(_, _) => CompleteSwitch(t, funcs, rest);
    case UnitLit(_, _) => CompleteUnit(t, funcs, rest);
    case Reference(r) => CompleteReference(r, rest);
    case ArgReference(n, r) => CompleteArgReference(n, r, rest);
  }

  lemma {:induction false} CompleteOperand(t: Tree, funcs: bool, rest: seq<Token>)
    requires t.Prefixed? && Ends(rest) && Grammatical(t, PREFIX, funcs) && !Extends(t, rest[0])
             && Ends(Written(t, rest))
    ensures Written(t, rest)[0] == t.pre && t.pre != End
    ensures ParseOperand(Written(t, rest), funcs) == Ok(t, rest)
    decreases t, -1
  {
    hide ParseExpr, Then;
    CompleteExpr(t.operand, PREFIX, funcs, rest);
    ThenParts(t.pre, Written(t.operand, rest));
  }

  /** expression() in front of a closing token or a comma */
  lemma {:induction false} CompleteInner(e: Tree, tok: Token, funcs: bool, k: seq<Token>)
    requires Grammatical(e, MIN_PRECEDENCE, funcs) && tok in {Comma, CloseParen, CloseBracket} && Ends(k) && k[0] == tok
    ensures Ends(Written(e, k)) && ParseExpr(Written(e, k), MIN_PRECEDENCE, funcs) == Ok(e, k)
    decreases e, 3
  {
    hide ParseExpr, Written;
    NoExtension(e, tok);
    CompleteExpr(e, MIN_PRECEDENCE, funcs, k);
  }

  lemma {:induction false} CompleteParen(t: Tree, funcs: bool, rest: seq<Token>)
    requires t.Paren? && Ends(rest) && Grammatical(t, PREFIX, funcs) && Ends(Written(t, rest))
    ensures Written(t, rest)[0] == OpenParen
    ensures ParseParen(Written(t, rest), funcs) == Ok(t, rest)
    decreases t, -1
  {
    hide ParseExpr, Then;
    ThenParts(CloseParen, rest);
    CompleteInner(t.inner, CloseParen, funcs, Then(CloseParen, rest));
    ThenParts(OpenParen, Written(t.inner, Then(CloseParen, rest)));
  }

  lemma {:induction false} CompleteBracket(t: Tree, funcs: bool, rest: seq<Token>)
    requires t.Bracket? && Ends(rest) && Grammatical(t, PREFIX, funcs) && Ends(Written(t, rest))
    ensures Written(t, rest)[0] == OpenBracket
    ensures ParseBracket(Written(t, rest), funcs) == Ok(t, rest)
    decreases t, -1
  {
    hide ParseArgs, Then;
    ThenParts(CloseBracket, rest);
    var k := Then(CloseBracket, rest);
    if t.elements.Trees? {
      CompleteArgs(t.elements, t.trailingComma, CloseBracket, -1, funcs, k);
    } else {
      EmptyArgs(CloseBracket, -1, funcs, k);
    }
    ThenParts(OpenBracket, WrittenArgs(t.elements, t.trailingComma, k));
  }

  lemma {:induction false} CompleteUnit(t: Tree, funcs: bool, rest: seq<Token>)
    requires t.UnitLit? && Ends(rest) && Grammatical(t, PREFIX, funcs) && Ends(Written(t, rest))
    ensures Written(t, rest)[0] == Unit
    ensures ParseUnit(Written(t, rest), funcs) == Ok(t, rest)
    decreases t, -1
  {
    hide ParseArgs, Then, WrittenArgs;
    ThenParts(CloseParen, rest);
    var k := Then(CloseParen, rest);
    CompleteArgs(t.params, t.trailing, CloseParen, 4, funcs, k);
    var a := WrittenArgs(t.params, t.trailing, k);
    ThenParts(OpenParen, a);
    ThenParts(Unit, Then(OpenParen, a));
  }

  lemma {:induction false} CompleteAfter(tok: Token, e: Tree, funcs: bool, k: seq<Token>)
    requires Grammatical(e, MIN_PRECEDENCE, funcs) && tok != End && Ends(k) && k[0] in {Comma, CloseParen, CloseBracket}
    ensures Ends(Then(tok, Written(e, k))) && ParseAfter(tok, Then(tok, Written(e, k)), funcs) == Ok(e, k)
    decreases e, 4
  {
    hide ParseExpr, Then, Written;
    CompleteInner(e, k[0], funcs, k);
    ThenParts(tok, Written(e, k));
  }

  lemma {:induction false} CompleteIf(t: Tree, funcs: bool, rest: seq<Token>)
    requires t.Cond? && Ends(rest) && Grammatical(t, PREFIX, funcs) && Ends(Written(t, rest))
    ensures Written(t, rest)[0] == If
    ensures ParseIf(Written(t, rest), funcs) == Ok(t, rest)
    decreases t, -1
  {
    hide ParseAfter, Then;
    ThenParts(CloseParen, rest);
    var k3 := Then(CloseParen, rest);
    CompleteAfter(Comma, t.ifFalse, funcs, k3);
    var k2 := Then(Comma, Written(t.ifFalse, k3));
    ThenParts(Comma, Written(t.ifFalse, k3));
    CompleteAfter(Comma, t.ifTrue, funcs, k2);
    var k1 := Then(Comma, Written(t.ifTrue, k2));
    ThenParts(Comma, Written(t.ifTrue, k2));
    CompleteAfter(OpenParen, t.cond, funcs, k1);
    ThenParts(If, Then(OpenParen, Written(t.cond, k1)));
  }

  lemma {:induction false} CompleteSwitch(t: Tree, funcs: bool, rest: seq<Token>)
    requires t.Select? && Ends(rest) && Grammatical(t, PREFIX, funcs) && Ends(Written(t, rest))
    ensures Written(t, rest)[0] == Switch
    ensures ParseSwitch(Written(t, rest), funcs) == Ok(t, rest)
    decreases t, -1
  {
    hide ParseAfter, ParseValues, Then;
    ThenParts(CloseParen, rest);
    var k2 := Then(CloseParen, rest);
    CompleteValues(t.values, funcs, k2);
    var k1 := WrittenValues(t.values, k2);
    ValuesStart(t.values, k2);
    CompleteAfter(OpenParen, t.variable, funcs, k1);
    ThenParts(Switch, Then(OpenParen, Written(t.variable, k1)));
  }

  lemma ValuesStart(vs: Trees, k: seq<Token>)
    requires Ends(k)
    ensures |WrittenValues(vs, k)| > 0
    ensures WrittenValues(vs, k)[0] == if vs.NoTrees? then k[0] else Comma
  {}

  lemma CompleteVal(r: Ref, k: seq<Token>)
    requires r.Val? && Ends(k) && !RefExtends(r, k[0])
    ensures |WrittenRef(r, k)| > 1 && WrittenRef(r, k)[0] == Dollar && Ends(WrittenRef(r, k)[1..])
    ensures ParseVal(WrittenRef(r, k)[1..]) == Ok(r, k)
  {
    hide Then;
    var k1 := k;
    if r.index.Some? {
      ThenParts(CloseBracket, k);
      ThenParts(IntValue(r.index.value), Then(CloseBracket, k));
      k1 := Then(OpenBracket, Then(IntValue(r.index.value), Then(CloseBracket, k)));
      ThenParts(OpenBracket, Then(IntValue(r.index.value), Then(CloseBracket, k)));
    }
    ThenParts(Identifier(r.name), k1);
    ThenParts(Dollar, Then(Identifier(r.name), k1));
  }

  lemma CompleteProp(r: Ref, k: seq<Token>)
    requires r.Prop? && RefOk(r) && Ends(k) && !RefExtends(r, k[0])
    ensures |WrittenRef(r, k)| > 1 && WrittenRef(r, k)[0] == Percent && Ends(WrittenRef(r, k)[1..])
    ensures ParseProp(WrittenRef(r, k)[1..]) == Ok(r, k)
  {
    hide Then, IsItem;
    var k1 := k;
    if r.call {
      ThenParts(CloseParen, k);
      ThenParts(OpenParen, Then(CloseParen, k));
      k1 := Then(OpenParen, Then(CloseParen, k));
    }
    assert ParseCall(r.name, r.item, k1) == Ok(r, k);
    var k2 := k1;
    if r.item.Some? {
      ThenParts(Identifier(r.item.value), k1);
      ThenParts(Colon, Then(Identifier(r.item.value), k1));
      k2 := Then(Colon, Then(Identifier(r.item.value), k1));
    }
    ThenParts(Identifier(r.name), k2);
    ThenParts(Percent, Then(Identifier(r.name), k2));
  }

  lemma CompleteReference(r: Ref, k: seq<Token>)
    requires RefOk(r) && Ends(k) && !RefExtends(r, k[0])
    ensures Ends(WrittenRef(r, k)) && WrittenRef(r, k)[0] in {Dollar, Percent}
    ensures ParseReference(WrittenRef(r, k)) == Ok(Reference(r), k)
  {
    hide Then, WrittenRef, ParseVal, ParseProp;
    if r.Val? {
      CompleteVal(r, k);
    } else {
      CompleteProp(r, k);
    }
  }

  lemma CompleteArgReference(n: int, r: Ref, k: seq<Token>)
    requires RefOk(r) && Ends(k) && !RefExtends(r, k[0])
    ensures var ts := Written(ArgReference(n, r), k);
            Ends(ts) && ts[0] == OpenCurly && ParseArgReference(ts) == Ok(ArgReference(n, r), k)
  {
    hide Then, WrittenRef, ParseReference;
    CompleteReference(r, k);
    var w := WrittenRef(r, k);
    ThenParts(Dot, w);
    ThenParts(CloseCurly, Then(Dot, w));
    ThenParts(IntValue(n), Then(CloseCurly, Then(Dot, w)));
    ThenParts(OpenCurly, Then(IntValue(n), Then(CloseCurly, Then(Dot, w))));
  }

  lemma EmptyArgs(close: Token, room: int, funcs: bool, k: seq<Token>)
    requires Ends(k) && k[0] == close && close in {CloseParen, CloseBracket}
    ensures ParseArgs(k, close, room, funcs) == Ok((NoTrees, true), k)
  {
    hide ParseExpr;
  }

  lemma {:induction false} CompleteArgs(ts: Trees, trailing: bool, close: Token, room: int, funcs: bool, k: seq<Token>)
    requires ts.Trees? && AllGrammatical(ts, funcs) && (room >= 0 ==> Count(ts) <= room)
    requires close in {CloseParen, CloseBracket} && Ends(k) && k[0] == close
    ensures Ends(WrittenArgs(ts, trailing, k))
    ensures ParseArgs(WrittenArgs(ts, trailing, k), close, room, funcs) == Ok((ts, trailing), k)
    decreases ts, 0
  {
    hide ParseExpr, Then, Grammatical, Written;
    WrittenArgsEnds(ts, trailing, k);
    FirstNotCloser(ts.head, MIN_PRECEDENCE, funcs);
    if ts.tail.NoTrees? && !trailing {
      WrittenStart(ts.head, k);
      CompleteInner(ts.head, close, funcs, k);
    } else {
      var rest := WrittenArgs(ts.tail, trailing, k);
      if ts.tail.Trees? {
        CompleteArgs(ts.tail, trailing, close, room - 1, funcs, k);
      } else {
        EmptyArgs(close, room - 1, funcs, k);
      }
      ThenParts(Comma, rest);
      WrittenStart(ts.head, Then(Comma, rest));
      CompleteInner(ts.head, Comma, funcs, Then(Comma, rest));
    }
  }

  lemma {:induction false} CompleteValues(ts: Trees, funcs: bool, k: seq<Token>)
    requires AllGrammatical(ts, funcs) && Ends(k) && k[0] == CloseParen
    ensures Ends(WrittenValues(ts, k)) && ParseValues(WrittenValues(ts, k), funcs) == Ok(ts, k)
    decreases ts, 0
  {
    hide ParseAfter, Then, Grammatical, Written;
    if ts.Trees? {
      var rest := WrittenValues(ts.tail, k);
      CompleteValues(ts.tail, funcs, k);
      ValuesStart(ts.tail, k);
      CompleteAfter(Comma, ts.head, funcs, rest);
      ThenParts(Comma, Written(ts.head, rest));
    }
  }

  // ---------- The parser and the grammar agree ----------

  /** expression(p) accepts with tree t exactly when t reads the tokens. */
  lemma ParserIsGrammar(ts: seq<Token>, p: int, funcs: bool, t: Tree, rest: seq<Token>)
    requires Ends(ts) && p >= MIN_PRECEDENCE
    ensures ParseExpr(ts, p, funcs) == Ok(t, rest) <==> Reads(ts, p, funcs, t, rest)
  {
    SoundExpr(ts, p, funcs);
    if Reads(ts, p, funcs, t, rest) {
      CompleteExpr(t, p, funcs, rest);
    }
  }

  /** There is at most one reading. */
  lemma ReadingIsUnique(ts: seq<Token>, p: int, funcs: bool, t: Tree, rest: seq<Token>, t': Tree, rest': seq<Token>)
    requires Ends(ts) && p >= MIN_PRECEDENCE
    requires Reads(ts, p, funcs, t, rest) && Reads(ts, p, funcs, t', rest')
    ensures t == t' && rest == rest'
  {
    ParserIsGrammar(ts, p, funcs, t, rest);
    ParserIsGrammar(ts, p, funcs, t', rest');
  }

  /** Failure means that no reading exists. */
  lemma FailureMeansNoReading(ts: seq<Token>, p: int, funcs: bool)
    requires Ends(ts) && p >= MIN_PRECEDENCE
    ensures ParseExpr(ts, p, funcs).Fail? <==> !exists t, rest :: Reads(ts, p, funcs, t, rest)
  {
    var r := ParseExpr(ts, p, funcs);
    if r.Ok? {
      ParserIsGrammar(ts, p, funcs, r.value, r.rest);
    }
    forall t, rest | Reads(ts, p, funcs, t, rest)
      ensures r.Ok?
    {
      ParserIsGrammar(ts, p, funcs, t, rest);
    }
  }
}
