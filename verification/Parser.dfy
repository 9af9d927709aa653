/** The Pratt parser for expressions: binding powers, prefix and postfix operators, comparison chains. */
module Parser {
  import opened Wrappers

  datatype Op =
    | Or | Xor | And
    | Eq | Ne | Lt | Le | Gt | Ge
    | In | Contains | StartsWith | EndsWith
    | Add | Sub | Mul | Div | Mod | Pow

  /**
   * `Infix(Sub)` is the dash and `Infix(Add)` the plus, also as prefixes. `Lit` stands for a literal
   * or parameter token, `MinMagnitude` for the number 9223372036854775808.
   */
  datatype Token =
    | Lit(n: nat) | Ident(n: nat) | MinMagnitude | NullTok
    | LParen | RParen | NotTok | IsTok | With
    | Infix(op: Op)
    | Eof

  datatype Expr =
    | Literal(n: nat) | Variable(n: nat) | MinInt | NullLit | Star
    | Negate(operand: Expr) | Not(operand: Expr)
    | NullTest(operand: Expr, negated: bool)
    | Binary(left: Expr, op: Op, right: Expr)
    /** Two or more nodes, each with its variable if it has one, joined by undirected relationships. */
    | PatternExists(first: Option<nat>, second: Option<nat>, more: seq<Option<nat>>)

  const BP_NOT: nat := 40
  const BP_PREFIX: nat := 80

  /** Left binding power; the right one is always one more. */
  function Bp(op: Op): nat {
    match op
    case Or => 10
    case Xor => 20
    case And => 30
    case Eq | Ne | Lt | Le | Gt | Ge => 40
    case In | Contains | StartsWith | EndsWith => 45
    case Add | Sub => 50
    case Mul | Div | Mod => 60
    case Pow => 70
  }

  predicate Chainable(op: Op) { Bp(op) == 40 }

  predicate NeedsWith(op: Op) { op.StartsWith? || op.EndsWith? }

  // ---- The parser as functions of the remaining tokens ---------------------------------------

  datatype Parsed = Parsed(expr: Expr, rest: seq<Token>)

  function Head(ts: seq<Token>): Token { if ts == [] then Eof else ts[0] }

  /** `peek_infix_operator`. */
  function PeekInfix(ts: seq<Token>): Option<Op> {
    if Head(ts).Infix? && (NeedsWith(ts[0].op) ==> Head(ts[1..]) == With) then Some(ts[0].op) else None
  }

  /** The tokens after the operator. */
  function AfterOp(ts: seq<Token>, op: Op): (r: seq<Token>)
    requires PeekInfix(ts) == Some(op)
    ensures |r| < |ts|
  {
    if NeedsWith(op) then ts[2..] else ts[1..]
  }

  function Syntax<T>(message: string): Result<T> { Err(SyntaxError(message)) }

  /** `parse_expression_bp`. */
  function ParseBp(ts: seq<Token>, minBp: nat): (r: Result<Parsed>)
    ensures r.Ok? ==> |r.value.rest| < |ts|
    decreases |ts|, 4
  {
    var p :- ParsePrefix(ts);
    var q :- ParseNullTests(p.expr, p.rest);
    ParseInfix(q.expr, q.rest, minBp)
  }

  /** `parse_prefix_expression`. */
  function ParsePrefix(ts: seq<Token>): (r: Result<Parsed>)
    ensures r.Ok? ==> |r.value.rest| < |ts|
    decreases |ts|, 3
  {
    if Head(ts) == NotTok then
      var p :- ParseBp(ts[1..], BP_NOT);
      Ok(Parsed(Not(p.expr), p.rest))
    else if Head(ts) == Infix(Sub) then
      if Head(ts[1..]) == MinMagnitude then Ok(Parsed(MinInt, ts[2..]))
      else
        var p :- ParseBp(ts[1..], BP_PREFIX);
        Ok(Parsed(Negate(p.expr), p.rest))
    else if Head(ts) == Infix(Add) then ParseBp(ts[1..], BP_PREFIX)
    else ParsePrimary(ts)
  }

  datatype Found = Found(nodes: seq<Option<nat>>, rest: seq<Token>)

  /** `parse_node_pattern`: parentheses around a bare or missing identifier. */
  function ParseNode(ts: seq<Token>): (r: Option<(Option<nat>, seq<Token>)>)
    ensures r.Some? ==> |r.value.1| < |ts|
  {
    if Head(ts) != LParen then None
    else if Head(ts[1..]).Ident? then
      if Head(ts[2..]) == RParen then Some((Some(ts[1].n), ts[3..])) else None
    else if Head(ts[1..]) == RParen then Some((None, ts[2..]))
    else None
  }

  /** A relationship without brackets is one dash or two. */
  function AfterDashes(ts: seq<Token>): (r: seq<Token>)
    requires Head(ts) == Infix(Sub)
    ensures |r| < |ts|
  {
    if Head(ts[1..]) == Infix(Sub) then ts[2..] else ts[1..]
  }

  /** The loop of `parse_pattern`: as long as a dash follows, a relationship and a node. */
  function ParseHops(nodes: seq<Option<nat>>, ts: seq<Token>): (r: Option<Found>)
    ensures r.Some? ==> |r.value.rest| <= |ts| && |r.value.nodes| >= |nodes|
    decreases |ts|
  {
    if Head(ts) != Infix(Sub) then Some(Found(nodes, ts))
    else
      var node := ParseNode(AfterDashes(ts));
      if node.None? then None else ParseHops(nodes + [node.value.0], node.value.1)
  }

  function AsPattern(nodes: seq<Option<nat>>): Expr
    requires |nodes| >= 2
  {
    PatternExists(nodes[0], nodes[1], nodes[2..])
  }

  /** `try_parse_relationship_pattern_predicate`: a pattern with a relationship, or nothing. */
  function PatternAt(ts: seq<Token>): (r: Option<Found>)
    ensures r.Some? ==> |r.value.rest| < |ts| && |r.value.nodes| >= 2
  {
    var first := ParseNode(ts);
    if first.None? then None
    else
      var found := ParseHops([first.value.0], first.value.1);
      if found.Some? && |found.value.nodes| >= 2 then found else None
  }

  /** `parse_primary_expression` on this fragment. */
  function ParsePrimary(ts: seq<Token>): (r: Result<Parsed>)
    ensures r.Ok? ==> |r.value.rest| < |ts|
    decreases |ts|, 2
  {
    match Head(ts)
    case LParen =>
      var pattern := PatternAt(ts);
      if pattern.Some? then Ok(Parsed(AsPattern(pattern.value.nodes), pattern.value.rest))
      else
        var p :- ParseBp(ts[1..], 0);
        if Head(p.rest) == RParen then Ok(Parsed(p.expr, p.rest[1..])) else Syntax("Expected ')'")
    case Lit(n) => Ok(Parsed(Literal(n), ts[1..]))
    case MinMagnitude => Syntax("IntegerOverflow")
    case NullTok => Ok(Parsed(NullLit, ts[1..]))
    case Ident(n) =>
      if Head(ts[1..]) == LParen then Syntax("function call") else Ok(Parsed(Variable(n), ts[1..]))
    case Infix(op) => if op == Mul then Ok(Parsed(Star, ts[1..])) else Syntax("expression")
    case _ => Syntax("expression")
  }

  /** The postfix loop `IS [NOT] NULL`. */
  function ParseNullTests(lhs: Expr, ts: seq<Token>): (r: Result<Parsed>)
    ensures r.Ok? ==> |r.value.rest| <= |ts|
    decreases |ts|
  {
    if Head(ts) != IsTok then Ok(Parsed(lhs, ts))
    else if Head(ts[1..]) == NotTok then
      if Head(ts[2..]) == NullTok then ParseNullTests(NullTest(lhs, true), ts[3..])
      else Syntax("Expected NULL after IS NOT")
    else if Head(ts[1..]) == NullTok then ParseNullTests(NullTest(lhs, false), ts[2..])
    else Syntax("Expected NULL after IS")
  }

  /** The infix loop. */
  function ParseInfix(lhs: Expr, ts: seq<Token>, minBp: nat): (r: Result<Parsed>)
    ensures r.Ok? ==> |r.value.rest| <= |ts|
    decreases |ts|, 1
  {
    var op := PeekInfix(ts);
    if op.None? || Bp(op.value) < minBp then Ok(Parsed(lhs, ts))
    else
      var rhs :- ParseBp(AfterOp(ts, op.value), Bp(op.value) + 1);
      var first := Binary(lhs, op.value, rhs.expr);
      if Chainable(op.value) then
        var chain :- ParseChain(first, rhs.expr, rhs.rest);
        ParseInfix(chain.expr, chain.rest, minBp)
      else ParseInfix(first, rhs.rest, minBp)
  }

  /** The rest of a comparison chain: each further comparison is joined by AND. */
  function ParseChain(combined: Expr, left: Expr, ts: seq<Token>): (r: Result<Parsed>)
    ensures r.Ok? ==> |r.value.rest| <= |ts|
    decreases |ts|, 0
  {
    var op := PeekInfix(ts);
    if op.None? || !Chainable(op.value) then Ok(Parsed(combined, ts))
    else
      var rhs :- ParseBp(AfterOp(ts, op.value), Bp(op.value) + 1);
      ParseChain(Binary(combined, And, Binary(left, op.value, rhs.expr)), rhs.expr, rhs.rest)
  }

  // ---- Steps ----------------------------------------------------------------------------------------

  /** Tokens the attempt at a node consumes, found or not. */
  function NodeSteps(ts: seq<Token>): (n: nat)
    ensures n <= |ts| && (ParseNode(ts).Some? ==> n + |ParseNode(ts).value.1| == |ts|)
  {
    if Head(ts) != LParen then 0
    else if Head(ts[1..]).Ident? then if Head(ts[2..]) == RParen then 3 else 2
    else if Head(ts[1..]) == RParen then 2 else 1
  }

  function HopSteps(ts: seq<Token>): (n: nat)
    ensures n <= |ts|
    decreases |ts|
  {
    if Head(ts) != Infix(Sub) then 0
    else
      var more := AfterDashes(ts);
      |ts| - |more| + NodeSteps(more) + if ParseNode(more).Some? then HopSteps(ParseNode(more).value.1) else 0
  }

  /** Tokens the attempt at a pattern consumes before it succeeds or goes back. */
  function PatternSteps(ts: seq<Token>): (n: nat)
    ensures n <= |ts|
  {
    NodeSteps(ts) + if ParseNode(ts).Some? then HopSteps(ParseNode(ts).value.1) else 0
  }

  /** Steps for the rest of the tokens: one each, the tokens of a pattern that is found, and those of an attempt that fails besides. */
  function Price(ts: seq<Token>): nat
    decreases |ts|
  {
    if ts == [] then 0
    else if ts[0] != LParen then 1 + Price(ts[1..])
    else if PatternAt(ts).Some? then PatternSteps(ts) + Price(PatternAt(ts).value.rest)
    else 1 + PatternSteps(ts) + Price(ts[1..])
  }

  predicate Ends(ts: seq<Token>) { ts != [] && ts[|ts| - 1] == Eof }

  lemma {:induction false} HopsLeave(nodes: seq<Option<nat>>, ts: seq<Token>)
    requires Ends(ts)
    ensures ParseHops(nodes, ts).Some? ==> Ends(ParseHops(nodes, ts).value.rest)
    decreases |ts|
  {
    if Head(ts) == Infix(Sub) {
      var more := AfterDashes(ts);
      assert Ends(more);
      var node := ParseNode(more);
      if node.Some? {
        assert Ends(node.value.1);
        HopsLeave(nodes + [node.value.0], node.value.1);
      }
    }
  }

  /** The end of the tokens is never part of a pattern. */
  lemma PatternLeaves(ts: seq<Token>)
    requires Ends(ts) && PatternAt(ts).Some?
    ensures Ends(PatternAt(ts).value.rest)
  {
    hide ParseHops;
    var first := ParseNode(ts).value;
    assert Ends(first.1);
    HopsLeave([first.0], first.1);
  }

  lemma PriceOfEnd(ts: seq<Token>)
    requires ts != []
    ensures Price(ts) >= 1
  {
  }

  lemma {:induction false} PriceBound(ts: seq<Token>, n: nat)
    requires |ts| <= n
    ensures Price(ts) <= |ts| * (n + 1)
    decreases |ts|
  {
    hide PatternSteps, PatternAt;
    if ts != [] {
      if ts[0] == LParen && PatternAt(ts).Some? {
        var rest := PatternAt(ts).value.rest;
        PriceBound(rest, n);
        Multiples(|rest|, |ts|, n + 1);
      } else {
        PriceBound(ts[1..], n);
        Multiples(|ts| - 1, |ts|, n + 1);
      }
    }
  }

  lemma {:induction false} Multiples(a: nat, b: nat, k: nat)
    requires a < b
    ensures a * k + k <= b * k
    decreases b
  {
    assert b * k == (b - 1) * k + k;
    if a < b - 1 { Multiples(a, b - 1, k); }
  }

  // ---- The token parser ---------------------------------------------------------------------------------

  const PARSE_STEP_FACTOR: nat := 2048
  const PARSE_STEP_FLOOR: nat := 50000

  /** `max_parse_steps_for`. */
  function MaxSteps(n: nat): nat {
    if n * PARSE_STEP_FACTOR >= PARSE_STEP_FLOOR then n * PARSE_STEP_FACTOR else PARSE_STEP_FLOOR
  }

  /** The default budget covers every attempt at a pattern; the last token is not consumed. */
  predicate Affordable(tokens: seq<Token>) { Price(tokens) <= MaxSteps(|tokens|) + 1 }

  /** Up to 2047 tokens it always does. */
  lemma ShortIsAffordable(tokens: seq<Token>)
    requires |tokens| < PARSE_STEP_FACTOR
    ensures Affordable(tokens)
  {
    hide Price;
    PriceBound(tokens, |tokens|);
    TimesMonotone(|tokens|, |tokens| + 1, PARSE_STEP_FACTOR);
  }

  lemma TimesMonotone(a: nat, b: nat, c: nat)
    requires b <= c
    ensures a * b <= a * c
  {
  }

  function Complexity<T>(): Result<T> { Syntax("ParserComplexityLimitExceeded") }

  class TokenParser {
    const tokens: seq<Token>
    const maxParseSteps: nat
    var position: nat
    var parseSteps: nat
    var budgetExhausted: bool

    /** Tokens end with the only `Eof`, and the position is on a token. */
    ghost predicate Placed()
      reads this
    {
      && tokens != [] && tokens[|tokens| - 1] == Eof && (forall i :: 0 <= i < |tokens| - 1 ==> tokens[i] != Eof)
      && position < |tokens|
    }

    /** Until the budget is exhausted the steps taken and those still to come make up the price of the tokens. */
    ghost predicate Valid()
      reads this
    {
      && Placed() && maxParseSteps == MaxSteps(|tokens|)
      && (!budgetExhausted ==> parseSteps + Price(Rest()) == Price(tokens) && parseSteps <= maxParseSteps)
      && (Affordable(tokens) ==> !budgetExhausted)
    }

    function Rest(): seq<Token>
      reads this
      requires position <= |tokens|
    {
      tokens[position..]
    }

    constructor (tokens: seq<Token>)
      requires tokens != [] && tokens[|tokens| - 1] == Eof && forall i :: 0 <= i < |tokens| - 1 ==> tokens[i] != Eof
      ensures Valid() && this.tokens == tokens && position == 0 && !budgetExhausted
    {
      this.tokens := tokens;
      maxParseSteps := MaxSteps(|tokens|);
      position, parseSteps, budgetExhausted := 0, 0, false;
      new;
      assert Rest() == tokens;
    }

    /** `advance`: one step, and one token unless at the end or out of budget. */
    method Advance()
      requires Placed()
      modifies this
      ensures Placed() && parseSteps == old(parseSteps) + 1
      ensures parseSteps > maxParseSteps ==> budgetExhausted && position == |tokens| - 1
      ensures parseSteps <= maxParseSteps ==> budgetExhausted == old(budgetExhausted)
      ensures parseSteps <= maxParseSteps ==> position == old(position) + if tokens[old(position)] == Eof then 0 else 1
    {
      parseSteps := parseSteps + 1;
      if parseSteps > maxParseSteps {
        budgetExhausted := true;
        position := |tokens| - 1;
        return;
      }
      if tokens[position] != Eof { position := position + 1; }
    }

    /** Consume the token at hand. */
    method Take()
      requires Valid() && tokens[position] != Eof && tokens[position] != LParen
      modifies this
      ensures Valid() && position > old(position) && (old(budgetExhausted) ==> budgetExhausted)
      ensures !budgetExhausted ==> position == old(position) + 1 && Rest() == old(Rest())[1..]
    {
      ghost var ts := Rest();
      PriceOfEnd(ts[1..]);
      Advance();
      assert position == old(position) + 1 ==> Rest() == ts[1..];
    }

    /** The operator's tokens. */
    method TakeOp(op: Op) returns (r: Result<()>)
      requires Valid() && PeekInfix(Rest()) == Some(op)
      modifies this
      ensures Valid() && position > old(position) && (old(budgetExhausted) ==> budgetExhausted)
      ensures !budgetExhausted ==> r.Ok? && Rest() == AfterOp(old(Rest()), op)
    {
      hide Price;
      ghost var ts := Rest();
      Take();
      if NeedsWith(op) {
        assert !budgetExhausted ==> ts[1..][0] == With;
        if tokens[position] != With { return Syntax("Expected WITH after STARTS/ENDS"); }
        Take();
        assert ts[1..][1..] == ts[2..];
      }
      r := Ok(());
    }

    /** `parse_node_pattern` on this fragment. */
    method TakeNode() returns (node: Option<Option<nat>>)
      requires Placed() && !budgetExhausted && parseSteps <= maxParseSteps
      modifies this
      ensures Placed() && position >= old(position) && parseSteps <= old(parseSteps) + NodeSteps(old(Rest()))
      ensures budgetExhausted <==> parseSteps > maxParseSteps
      ensures node.Some? ==> position > old(position)
      ensures !budgetExhausted ==> NodeIs(node, Rest(), ParseNode(old(Rest()))) && parseSteps == old(parseSteps) + NodeSteps(old(Rest()))
    {
      ghost var ts := Rest();
      if tokens[position] != LParen { return None; }
      Advance();
      var name := None;
      assert !budgetExhausted ==> Head(ts[1..]) == tokens[position];
      if tokens[position].Ident? {
        assert !budgetExhausted && Head(ts[1..]).Ident?;
        name := Some(tokens[position].n);
        Advance();
        assert !budgetExhausted ==> position == old(position) + 2 && ts[2..] == Rest() && Head(ts[2..]) == tokens[position];
      }
      if tokens[position] != RParen { return None; }
      assert !budgetExhausted && NodeSteps(ts) == position - old(position) + 1;
      Advance();
      node := Some(name);
    }

    /** `parse_pattern` on this fragment; its steps are those of the specification. */
    method ParsePattern() returns (found: Option<seq<Option<nat>>>)
      requires Placed() && !budgetExhausted && parseSteps <= maxParseSteps
      modifies this
      ensures Placed() && position >= old(position) && parseSteps <= old(parseSteps) + PatternSteps(old(Rest()))
      ensures budgetExhausted <==> parseSteps > maxParseSteps
      ensures found.Some? ==> position > old(position)
      ensures !budgetExhausted ==>
                var first := ParseNode(old(Rest()));
                && (if first.None? then found.None? else FoundIs(found, Rest(), ParseHops([first.value.0], first.value.1)))
                && parseSteps == old(parseSteps) + PatternSteps(old(Rest()))
    {
      hide NodeSteps, HopSteps, ParseHops, ParseNode;
      var node := TakeNode();
      if node.None? { return None; }
      if budgetExhausted { return Some([node.value]); }
      found := TakeHops(node.value);
    }

    /** One dash or two. */
    method TakeDashes()
      requires Placed() && !budgetExhausted && parseSteps <= maxParseSteps && tokens[position] == Infix(Sub)
      modifies this
      ensures Placed() && position > old(position) && parseSteps <= old(parseSteps) + |old(Rest())| - |AfterDashes(old(Rest()))|
      ensures budgetExhausted <==> parseSteps > maxParseSteps
      ensures !budgetExhausted ==>
                Rest() == AfterDashes(old(Rest())) && parseSteps == old(parseSteps) + |old(Rest())| - |AfterDashes(old(Rest()))|
    {
      ghost var ts := Rest();
      Advance();
      assert !budgetExhausted ==> Head(ts[1..]) == tokens[position];
      if tokens[position] == Infix(Sub) { Advance(); }
    }

    method TakeHops(first: Option<nat>) returns (found: Option<seq<Option<nat>>>)
      requires Placed() && !budgetExhausted && parseSteps <= maxParseSteps
      modifies this
      ensures Placed() && position >= old(position) && parseSteps <= old(parseSteps) + HopSteps(old(Rest()))
      ensures budgetExhausted <==> parseSteps > maxParseSteps
      ensures !budgetExhausted ==>
                FoundIs(found, Rest(), ParseHops([first], old(Rest()))) && parseSteps == old(parseSteps) + HopSteps(old(Rest()))
    {
      hide NodeSteps, ParseNode, AfterDashes;
      var nodes := [first];
      ghost var start, steps := Rest(), parseSteps;
      while tokens[position] == Infix(Sub)
        invariant Placed() && position >= old(position) && !budgetExhausted && parseSteps <= maxParseSteps
        invariant ParseHops([first], start) == ParseHops(nodes, Rest())
        invariant parseSteps + HopSteps(Rest()) == steps + HopSteps(start)
        decreases |tokens| - position
      {
        TakeDashes();
        if budgetExhausted { return None; }
        var node := TakeNode();
        if node.None? { return None; }
        nodes := nodes + [node.value];
        if budgetExhausted { return Some(nodes); }
      }
      found := Some(nodes);
    }

    /** `try_parse_relationship_pattern_predicate`: back to the start unless a relationship was found. */
    method TryPattern() returns (found: Option<seq<Option<nat>>>)
      requires Valid() && tokens[position] == LParen && !budgetExhausted
      modifies this
      ensures Placed() && if found.None? then position == old(position) else position > old(position) && |found.value| >= 2
      ensures budgetExhausted <==> parseSteps > maxParseSteps
      ensures parseSteps <= old(parseSteps) + PatternSteps(old(Rest()))
      ensures !budgetExhausted ==>
                var pattern := PatternAt(old(Rest()));
                && (found.Some? <==> pattern.Some?)
                && (found.Some? ==> found.value == pattern.value.nodes && Rest() == pattern.value.rest)
                && parseSteps == old(parseSteps) + PatternSteps(old(Rest())) <= maxParseSteps
    {
      hide ParseNode, ParseHops, PatternSteps, Price;
      var checkpoint := position;
      found := ParsePattern();
      if found.Some? && |found.value| >= 2 { return; }
      position := checkpoint;
      found := None;
    }

    /** `parse_expression_bp`: null tests, then the infix loop with its inner chain loop. */
    method ParseExpressionBp(minBp: nat) returns (r: Result<Expr>)
      requires Valid()
      modifies this
      ensures Valid() && position >= old(position) && (old(budgetExhausted) ==> budgetExhausted)
      ensures !budgetExhausted ==> Agrees(r, Rest(), ParseBp(old(Rest()), minBp))
      ensures r.Ok? ==> position > old(position)
      decreases |tokens| - position, 3
    {
      hide ParsePrefix, ParseNullTests, ParseInfix, Price, Affordable;
      if budgetExhausted { return Complexity(); }
      var first := ParsePrefixExpression();
      if first.Err? { return Err(first.error); }
      var lhs := ParseNullLoop(first.value);
      if lhs.Err? { return Err(lhs.error); }
      r := ParseInfixLoop(lhs.value, minBp);
    }

    method ParseNullLoop(first: Expr) returns (r: Result<Expr>)
      requires Valid()
      modifies this
      ensures Valid() && position >= old(position) && (old(budgetExhausted) ==> budgetExhausted)
      ensures !budgetExhausted ==> Agrees(r, Rest(), ParseNullTests(first, old(Rest())))
      decreases |tokens| - position, 0
    {
      hide Price, Affordable;
      var lhs := first;
      ghost var start := Rest();
      while tokens[position] == IsTok
        invariant Valid() && position >= old(position) && (old(budgetExhausted) ==> budgetExhausted)
        invariant !budgetExhausted ==> ParseNullTests(first, start) == ParseNullTests(lhs, Rest())
        decreases |tokens| - position
      {
        ghost var ts := Rest();
        Take();
        var negated := tokens[position] == NotTok;
        assert !budgetExhausted ==> Head(ts[1..]) == tokens[position];
        if negated {
          Take();
          assert !budgetExhausted ==> ts[1..][1..] == ts[2..] && Head(ts[2..]) == tokens[position];
        }
        if tokens[position] != NullTok {
          return Syntax(if negated then "Expected NULL after IS NOT" else "Expected NULL after IS");
        }
        Take();
        assert negated ==> ts[1..][1..][1..] == ts[3..];
        assert !negated ==> ts[1..][1..] == ts[2..];
        lhs := NullTest(lhs, negated);
      }
      r := Ok(lhs);
    }

    method ParseInfixLoop(first: Expr, minBp: nat) returns (r: Result<Expr>)
      requires Valid()
      modifies this
      ensures Valid() && position >= old(position) && (old(budgetExhausted) ==> budgetExhausted)
      ensures !budgetExhausted ==> Agrees(r, Rest(), ParseInfix(first, old(Rest()), minBp))
      decreases |tokens| - position, 1
    {
      hide ParseBp, ParseChain, PeekInfix, Price, Affordable;
      var lhs := first;
      ghost var start := Rest();
      while true
        invariant Valid() && position >= old(position) && (old(budgetExhausted) ==> budgetExhausted)
        invariant !budgetExhausted ==> ParseInfix(first, start, minBp) == ParseInfix(lhs, Rest(), minBp)
        decreases |tokens| - position
      {
        var op := PeekInfix(Rest());
        if op.None? || Bp(op.value) < minBp { return Ok(lhs); }
        var taken := TakeOp(op.value);
        if taken.Err? { return Err(taken.error); }
        var rhs := ParseExpressionBp(Bp(op.value) + 1);
        if rhs.Err? { return Err(rhs.error); }
        if Chainable(op.value) {
          var chain := ParseChainLoop(Binary(lhs, op.value, rhs.value), rhs.value);
          if chain.Err? { return Err(chain.error); }
          lhs := chain.value;
          continue;
        }
        lhs := Binary(lhs, op.value, rhs.value);
      }
    }

    method ParseChainLoop(first: Expr, second: Expr) returns (r: Result<Expr>)
      requires Valid()
      modifies this
      ensures Valid() && position >= old(position) && (old(budgetExhausted) ==> budgetExhausted)
      ensures !budgetExhausted ==> Agrees(r, Rest(), ParseChain(first, second, old(Rest())))
      decreases |tokens| - position, 0
    {
      hide ParseBp, PeekInfix, Price, Affordable;
      var combined, chainLeft := first, second;
      ghost var start := Rest();
      while true
        invariant Valid() && position >= old(position) && (old(budgetExhausted) ==> budgetExhausted)
        invariant !budgetExhausted ==> ParseChain(first, second, start) == ParseChain(combined, chainLeft, Rest())
        decreases |tokens| - position
      {
        var op := PeekInfix(Rest());
        if op.None? || !Chainable(op.value) { return Ok(combined); }
        var taken := TakeOp(op.value);
        if taken.Err? { return Err(taken.error); }
        var rhs := ParseExpressionBp(Bp(op.value) + 1);
        if rhs.Err? { return Err(rhs.error); }
        combined := Binary(combined, And, Binary(chainLeft, op.value, rhs.value));
        chainLeft := rhs.value;
      }
    }

    method ParsePrefixExpression() returns (r: Result<Expr>)
      requires Valid()
      modifies this
      ensures Valid() && position >= old(position) && (old(budgetExhausted) ==> budgetExhausted)
      ensures !budgetExhausted ==> Agrees(r, Rest(), ParsePrefix(old(Rest())))
      ensures r.Ok? ==> position > old(position)
      decreases |tokens| - position, 2
    {
      hide ParseBp, ParsePrimary, Price, Affordable;
      if budgetExhausted { return Complexity(); }
      ghost var ts := Rest();
      var head := tokens[position];
      if head == NotTok {
        Take();
        var x := ParseExpressionBp(BP_NOT);
        if x.Err? { return Err(x.error); }
        return Ok(Not(x.value));
      }
      if head == Infix(Sub) {
        Take();
        assert !budgetExhausted ==> Head(ts[1..]) == tokens[position];
        if tokens[position] == MinMagnitude {
          Take();
          assert ts[1..][1..] == ts[2..];
          return Ok(MinInt);
        }
        var x := ParseExpressionBp(BP_PREFIX);
        if x.Err? { return Err(x.error); }
        return Ok(Negate(x.value));
      }
      if head == Infix(Add) {
        Take();
        r := ParseExpressionBp(BP_PREFIX);
        return;
      }
      r := ParsePrimaryExpression();
    }

    method ParsePrimaryExpression() returns (r: Result<Expr>)
      requires Valid()
      modifies this
      ensures Valid() && position >= old(position) && (old(budgetExhausted) ==> budgetExhausted)
      ensures !budgetExhausted ==> Agrees(r, Rest(), ParsePrimary(old(Rest())))
      ensures r.Ok? ==> position > old(position)
      decreases |tokens| - position, 1
    {
      hide ParseBp, Price, Affordable, PatternAt;
      if budgetExhausted { return Complexity(); }
      ghost var ts := Rest();
      match tokens[position] {
      case LParen =>
        r := ParseParen();
      case Lit(n) =>
        Take();
        r := Ok(Literal(n));
      case MinMagnitude =>
        Take();
        r := Syntax("IntegerOverflow");
      case NullTok =>
        Take();
        r := Ok(NullLit);
      case Ident(n) =>
        Take();
        assert !budgetExhausted ==> Head(ts[1..]) == tokens[position];
        r := if tokens[position] == LParen then Syntax("function call") else Ok(Variable(n));
      case Infix(op) =>
        if op == Mul {
          Take();
          r := Ok(Star);
        } else {
          r := Syntax("expression");
        }
      case _ =>
        r := Syntax("expression");
      }
    }

    /** What an attempt at a pattern costs is in the price. */
    lemma AttemptPaid(before: nat, ts: seq<Token>)
      requires Placed() && maxParseSteps == MaxSteps(|tokens|) && before + Price(ts) == Price(tokens)
      requires |ts| >= 2 && ts[0] == LParen && parseSteps <= before + PatternSteps(ts)
      requires PatternAt(ts).Some? ==> PatternAt(ts).value.rest != []
      ensures parseSteps == before + PatternSteps(ts) ==>
                parseSteps + (if PatternAt(ts).Some? then Price(PatternAt(ts).value.rest) else 1 + Price(ts[1..])) == Price(tokens)
      ensures Affordable(tokens) ==> parseSteps + (if PatternAt(ts).Some? then 0 else 1) <= maxParseSteps
    {
      hide PatternAt, PatternSteps, MaxSteps;
      PriceOfEnd(if PatternAt(ts).Some? then PatternAt(ts).value.rest else ts[1..]);
    }

    method ParseParen() returns (r: Result<Expr>)
      requires Valid() && tokens[position] == LParen && !budgetExhausted
      modifies this
      ensures Valid() && position >= old(position)
      ensures !budgetExhausted ==> Agrees(r, Rest(), ParsePrimary(old(Rest())))
      ensures r.Ok? ==> position > old(position)
      decreases |tokens| - position, 0
    {
      hide ParseBp, PatternAt, PatternSteps, Price, Affordable;
      ghost var ts, steps := Rest(), parseSteps;
      var pattern := TryPattern();
      if PatternAt(ts).Some? { PatternLeaves(ts); }
      AttemptPaid(steps, ts);
      if pattern.Some? {
        return Ok(AsPattern(pattern.value));
      }
      Advance();
      assert !budgetExhausted ==> Rest() == ts[1..];
      var x := ParseExpressionBp(0);
      if x.Err? { return Err(x.error); }
      if tokens[position] != RParen { return Syntax("Expected ')'"); }
      Take();
      r := x;
    }
  }

  /** The expression read from the front of the tokens. */
  function Reading(ts: seq<Token>): Result<Expr> {
    var p :- ParseBp(ts, 0);
    Ok(p.expr)
  }

  /**
   * `parse_expression` and the check of the budget behind it: what the specification says, as long as the budget lasts. A
   * list of tokens that is read to its end is refused for its complexity exactly when the budget does not cover its price.
   */
  method ParseExpression(tokens: seq<Token>) returns (r: Result<Expr>)
    requires Ends(tokens) && forall i :: 0 <= i < |tokens| - 1 ==> tokens[i] != Eof
    ensures r == Reading(tokens) || (r == Complexity() && !Affordable(tokens))
    ensures ReadToEnd(tokens) ==> r == if Affordable(tokens) then Reading(tokens) else Complexity()
  {
    hide ParseBp, Price, MaxSteps;
    var parser := new TokenParser(tokens);
    assert parser.Rest() == tokens;
    r := parser.ParseExpressionBp(0);
    if parser.budgetExhausted { return Complexity(); }
    if ReadToEnd(tokens) { assert Price([Eof]) == 1 by { PriceOfOne(); } }
  }

  predicate ReadToEnd(tokens: seq<Token>) { ParseBp(tokens, 0).Ok? && ParseBp(tokens, 0).value.rest == [Eof] }

  lemma PriceOfOne()
    ensures Price([Eof]) == 1
  {
    assert [Eof][1..] == [];
  }

  /** The method's result and position are the function's. */
  ghost predicate Agrees(r: Result<Expr>, rest: seq<Token>, p: Result<Parsed>) {
    if p.Ok? then r == Ok(p.value.expr) && rest == p.value.rest else r == Err(p.error)
  }

  ghost predicate NodeIs(node: Option<Option<nat>>, rest: seq<Token>, p: Option<(Option<nat>, seq<Token>)>) {
    if p.Some? then node == Some(p.value.0) && rest == p.value.1 else node.None?
  }

  ghost predicate FoundIs(found: Option<seq<Option<nat>>>, rest: seq<Token>, p: Option<Found>) {
    if p.Some? then found == Some(p.value.nodes) && rest == p.value.rest else found.None?
  }
}
