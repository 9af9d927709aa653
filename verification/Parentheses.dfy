/**
 * Expressions with parentheses: which placements the parser reads as the intended tree, the rendering with the
 * fewest of them, and comparison chains.
 */
module Parentheses {
  import opened Wrappers
  import opened Parser

  // ---- Trees with their parentheses ------------------------------------------------------------

  /** An expression as written. `Link` extends a chain of comparisons by one more. */
  datatype Tree =
    | Leaf(e: Expr)
    | Neg(x: Tree)
    | Inv(x: Tree)
    | Test(x: Tree, negated: bool)
    | Bin(l: Tree, op: Op, r: Tree)
    | Paren(x: Tree)
    | Link(l: Tree, op: Op, r: Tree)

  predicate Atom(e: Expr) { e.Literal? || e.Variable? || e.MinInt? || e.NullLit? || e.Star? || e.PatternExists? }

  /** Leaves are atoms, and links extend comparisons. */
  predicate Proper(t: Tree) {
    match t
    case Leaf(e) => Atom(e)
    case Neg(x) => Proper(x)
    case Inv(x) => Proper(x)
    case Test(x, _) => Proper(x)
    case Bin(l, _, r) => Proper(l) && Proper(r)
    case Paren(x) => Proper(x)
    case Link(l, op, r) => Proper(l) && Proper(r) && Chainable(op) && (l.Link? || (l.Bin? && Chainable(l.op)))
  }

  predicate LinkFree(t: Tree) {
    match t
    case Leaf(_) => true
    case Neg(x) => LinkFree(x)
    case Inv(x) => LinkFree(x)
    case Test(x, _) => LinkFree(x)
    case Bin(l, _, r) => LinkFree(l) && LinkFree(r)
    case Paren(x) => LinkFree(x)
    case Link(_, _, _) => false
  }

  /** The expression that is meant. */
  function Meaning(t: Tree): Expr
    requires Proper(t)
  {
    match t
    case Leaf(e) => e
    case Neg(x) => Negate(Meaning(x))
    case Inv(x) => Not(Meaning(x))
    case Test(x, negated) => NullTest(Meaning(x), negated)
    case Bin(l, op, r) => Binary(Meaning(l), op, Meaning(r))
    case Paren(x) => Meaning(x)
    case Link(l, op, r) => Binary(Meaning(l), And, Binary(Meaning(l.r), op, Meaning(r)))
  }

  function Size(t: Tree): nat {
    match t
    case Leaf(_) => 1
    case Neg(x) => 1 + Size(x)
    case Inv(x) => 1 + Size(x)
    case Test(x, _) => 1 + Size(x)
    case Bin(l, _, r) => 1 + Size(l) + Size(r)
    case Paren(x) => 1 + Size(x)
    case Link(l, _, r) => 1 + Size(l) + Size(r)
  }

  function OpTokens(op: Op): seq<Token> { if NeedsWith(op) then [Infix(op), With] else [Infix(op)] }

  function NullTokens(negated: bool): seq<Token> { if negated then [IsTok, NotTok, NullTok] else [IsTok, NullTok] }

  function AtomTokens(e: Expr): seq<Token>
    requires Atom(e)
  {
    match e
    case Literal(n) => [Lit(n)]
    case Variable(n) => [Ident(n)]
    case MinInt => [Infix(Sub), MinMagnitude]
    case NullLit => [NullTok]
    case Star => [Infix(Mul)]
    case PatternExists(first, second, more) => NodeTokens(first) + HopTokens([second] + more)
  }

  function NodeTokens(name: Option<nat>): seq<Token> { if name.Some? then [LParen, Ident(name.value), RParen] else [LParen, RParen] }

  /** Each further node of a pattern behind one dash. */
  function HopTokens(nodes: seq<Option<nat>>): seq<Token> {
    if nodes == [] then [] else [Infix(Sub)] + (NodeTokens(nodes[0]) + HopTokens(nodes[1..]))
  }

  function Tokens(t: Tree): seq<Token>
    requires Proper(t)
  {
    match t
    case Leaf(e) => AtomTokens(e)
    case Neg(x) => [Infix(Sub)] + Tokens(x)
    case Inv(x) => [NotTok] + Tokens(x)
    case Test(x, negated) => Tokens(x) + NullTokens(negated)
    case Bin(l, op, r) => Tokens(l) + OpTokens(op) + Tokens(r)
    case Paren(x) => [LParen] + Tokens(x) + [RParen]
    case Link(l, op, r) => Tokens(l) + OpTokens(op) + Tokens(r)
  }

  /** An operator of power `f` after `a op b` would be taken into `b`, or continue the chain. */
  predicate Absorbs(op: Op, f: nat) { f > Bp(op) || (Chainable(op) && f == Bp(op)) }

  /**
   * The tree stands as it is written where an operator needs at least `minBp` to be taken and one of power `f`, or
   * none if `f` is 0, follows. A prefix operator fits anywhere as long as what follows stays outside of it.
   */
  predicate Fits(t: Tree, minBp: nat, f: nat) {
    match t
    case Leaf(_) => true
    case Paren(x) => Fits(x, 0, 0)
    case Neg(x) => f < BP_PREFIX && Fits(x, BP_PREFIX, f)
    case Inv(x) => f < BP_NOT && Fits(x, BP_NOT, f)
    case Test(x, _) => (x.Leaf? || x.Paren? || x.Test?) && Fits(x, minBp, f)
    case Bin(l, op, r) => minBp <= Bp(op) && !Absorbs(op, f) && Fits(l, minBp, Bp(op)) && Fits(r, Bp(op) + 1, f)
    case Link(_, _, _) => false
  }

  /**
   * Before `rest` no parenthesis of the tree starts a pattern of nodes and relationships, unless it is one that is meant,
   * which ends there. Only a bare identifier in parentheses can, and only before a dash.
   */
  predicate Clear(t: Tree, rest: seq<Token>)
    requires Proper(t)
  {
    match t
    case Leaf(e) => e.PatternExists? ==> Head(rest) != Infix(Sub)
    case Neg(x) => Clear(x, rest)
    case Inv(x) => Clear(x, rest)
    case Test(x, negated) => Clear(x, NullTokens(negated) + rest)
    case Paren(x) => PatternAt(Tokens(t) + rest).None? && Clear(x, [RParen] + rest)
    case Bin(l, op, r) => Clear(l, OpTokens(op) + (Tokens(r) + rest)) && Clear(r, rest)
    case Link(l, op, r) => Clear(l, OpTokens(op) + (Tokens(r) + rest)) && Clear(r, rest)
  }

  /** No identifier stands alone in parentheses. */
  predicate NoBare(t: Tree) {
    match t
    case Leaf(_) => true
    case Neg(x) => NoBare(x)
    case Inv(x) => NoBare(x)
    case Test(x, _) => NoBare(x)
    case Paren(x) => !(x.Leaf? && x.e.Variable?) && NoBare(x)
    case Bin(l, _, r) => NoBare(l) && NoBare(r)
    case Link(l, _, r) => NoBare(l) && NoBare(r)
  }

  /** The expression holds no pattern predicate. */
  predicate PatternFree(e: Expr) {
    match e
    case Negate(x) => PatternFree(x)
    case Not(x) => PatternFree(x)
    case NullTest(x, _) => PatternFree(x)
    case Binary(l, _, r) => PatternFree(l) && PatternFree(r)
    case PatternExists(_, _, _) => false
    case _ => true
  }

  /** No leaf is a pattern predicate. */
  predicate Patternless(t: Tree) {
    match t
    case Leaf(e) => !e.PatternExists?
    case Neg(x) => Patternless(x)
    case Inv(x) => Patternless(x)
    case Test(x, _) => Patternless(x)
    case Paren(x) => Patternless(x)
    case Bin(l, _, r) => Patternless(l) && Patternless(r)
    case Link(l, _, r) => Patternless(l) && Patternless(r)
  }

  lemma {:induction false} MeaningFree(t: Tree)
    requires Proper(t) && Patternless(t)
    ensures PatternFree(Meaning(t))
    decreases t
  {
    match t
    case Leaf(_) =>
    case Neg(x) => MeaningFree(x);
    case Inv(x) => MeaningFree(x);
    case Test(x, _) => MeaningFree(x);
    case Paren(x) => MeaningFree(x);
    case Bin(l, _, r) => MeaningFree(l); MeaningFree(r);
    case Link(l, _, r) => MeaningFree(l); MeaningFree(l.r); MeaningFree(r);
  }

  lemma {:induction false} FitsLess(t: Tree, minBp: nat, f: nat, m: nat, g: nat)
    requires Fits(t, minBp, f) && m <= minBp && g <= f
    ensures Fits(t, m, g)
  {
    match t
    case Neg(x) => FitsLess(x, BP_PREFIX, f, BP_PREFIX, g);
    case Inv(x) => FitsLess(x, BP_NOT, f, BP_NOT, g);
    case Test(x, _) => FitsLess(x, minBp, f, m, g);
    case Bin(l, op, r) =>
      FitsLess(l, minBp, Bp(op), m, Bp(op));
      FitsLess(r, Bp(op) + 1, f, Bp(op) + 1, g);
    case _ =>
  }

  // ---- Depth and shape of the tokens -------------------------------------------------------------

  function Depth(ts: seq<Token>): int {
    if ts == [] then 0 else (if ts[0] == LParen then 1 else if ts[0] == RParen then -1 else 0) + Depth(ts[1..])
  }

  lemma {:induction false} DepthConcat(a: seq<Token>, b: seq<Token>)
    ensures Depth(a + b) == Depth(a) + Depth(b)
  {
    if a == [] {
      assert a + b == b;
    } else {
      assert (a + b)[1..] == a[1..] + b;
      DepthConcat(a[1..], b);
    }
  }

  lemma {:induction false} Flat(ts: seq<Token>)
    requires forall i :: 0 <= i < |ts| ==> ts[i] != LParen && ts[i] != RParen
    ensures Depth(ts) == 0
  {
    if ts != [] { Flat(ts[1..]); }
  }

  lemma OpFlat(op: Op, k: nat)
    requires k <= |OpTokens(op)|
    ensures Depth(OpTokens(op)[..k]) == 0 && Depth(OpTokens(op)) == 0
  {
    Flat(OpTokens(op)[..k]);
    Flat(OpTokens(op));
  }

  lemma NullFlat(negated: bool, k: nat)
    requires k <= |NullTokens(negated)|
    ensures Depth(NullTokens(negated)[..k]) == 0 && Depth(NullTokens(negated)) == 0
  {
    Flat(NullTokens(negated)[..k]);
    Flat(NullTokens(negated));
  }

  lemma NodeDepth(name: Option<nat>, k: nat)
    requires k <= |NodeTokens(name)|
    ensures Depth(NodeTokens(name)[..k]) == if 0 < k < |NodeTokens(name)| then 1 else 0
  {
    var ts := NodeTokens(name)[..k];
    if k > 0 {
      DepthConcat([LParen], ts[1..]);
      assert ts == [LParen] + ts[1..] && Depth([LParen]) == 1 by { assert [LParen][1..] == []; }
      if k == |NodeTokens(name)| {
        var inner := ts[1..k - 1];
        assert ts[1..] == inner + [RParen];
        DepthConcat(inner, [RParen]);
        Flat(inner);
        assert Depth([RParen]) == -1 by { assert [RParen][1..] == []; }
      } else {
        Flat(ts[1..]);
      }
    }
  }

  lemma {:induction false} HopDepth(nodes: seq<Option<nat>>, k: nat)
    requires k <= |HopTokens(nodes)|
    ensures Depth(HopTokens(nodes)[..k]) >= 0 && (k == |HopTokens(nodes)| ==> Depth(HopTokens(nodes)[..k]) == 0)
    decreases |nodes|
  {
    hide NodeTokens;
    var ts := HopTokens(nodes);
    if nodes != [] && k > 0 {
      var node, rest := NodeTokens(nodes[0]), HopTokens(nodes[1..]);
      assert ts[..k] == [Infix(Sub)] + (node + rest)[..k - 1];
      DepthConcat([Infix(Sub)], (node + rest)[..k - 1]);
      Flat([Infix(Sub)]);
      JoinedNode(nodes[0], rest, k - 1);
      if k - 1 >= |node| { HopDepth(nodes[1..], k - 1 - |node|); }
    }
  }

  /** A node, then more tokens. */
  lemma JoinedNode(name: Option<nat>, rest: seq<Token>, k: nat)
    requires k <= |NodeTokens(name) + rest|
    ensures var n := |NodeTokens(name)|;
            if k < n then Depth((NodeTokens(name) + rest)[..k]) >= 0
            else Depth((NodeTokens(name) + rest)[..k]) == Depth(rest[..k - n])
  {
    hide NodeTokens;
    var node := NodeTokens(name);
    if k < |node| {
      assert (node + rest)[..k] == node[..k];
      NodeDepth(name, k);
    } else {
      assert (node + rest)[..k] == node + rest[..k - |node|];
      DepthConcat(node, rest[..k - |node|]);
      NodeDepth(name, |node|);
      assert node[..|node|] == node;
    }
  }

  lemma AtomDepth(e: Expr, k: nat)
    requires Atom(e) && k <= |AtomTokens(e)|
    ensures AtomTokens(e) != [] && Depth(AtomTokens(e)[..k]) >= 0 && (k == |AtomTokens(e)| ==> Depth(AtomTokens(e)[..k]) == 0)
  {
    if e.PatternExists? {
      var rest := HopTokens([e.second] + e.more);
      JoinedNode(e.first, rest, k);
      if k >= |NodeTokens(e.first)| { HopDepth([e.second] + e.more, k - |NodeTokens(e.first)|); }
    } else {
      Flat(AtomTokens(e)[..k]);
    }
  }

  /** Parentheses of a tree are balanced. */
  lemma {:induction false} Balanced(t: Tree)
    requires Proper(t)
    ensures Tokens(t) != [] && Depth(Tokens(t)) == 0
    decreases t
  {
    hide AtomTokens, NullTokens, OpTokens;
    match t
    case Leaf(e) => AtomDepth(e, |AtomTokens(e)|); assert AtomTokens(e)[..|AtomTokens(e)|] == AtomTokens(e);
    case Neg(x) => Balanced(x); DepthConcat([Infix(Sub)], Tokens(x)); Flat([Infix(Sub)]);
    case Inv(x) => Balanced(x); DepthConcat([NotTok], Tokens(x)); Flat([NotTok]);
    case Test(x, negated) => Balanced(x); DepthConcat(Tokens(x), NullTokens(negated)); NullFlat(negated, 0);
    case Paren(x) => Balanced(x); Wrapped(Tokens(x));
    case Bin(l, op, r) => Balanced(l); Balanced(r); Joined(Tokens(l), op, Tokens(r));
    case Link(l, op, r) => Balanced(l); Balanced(r); Joined(Tokens(l), op, Tokens(r));
  }

  lemma Wrapped(ts: seq<Token>)
    ensures Depth([LParen] + ts + [RParen]) == Depth(ts)
  {
    DepthConcat([LParen] + ts, [RParen]);
    DepthConcat([LParen], ts);
    assert Depth([LParen]) == 1 by { assert [LParen][1..] == []; }
    assert Depth([RParen]) == -1 by { assert [RParen][1..] == []; }
  }

  lemma Joined(a: seq<Token>, op: Op, b: seq<Token>)
    ensures Depth(a + OpTokens(op) + b) == Depth(a) + Depth(b)
  {
    DepthConcat(a + OpTokens(op), b);
    DepthConcat(a, OpTokens(op));
    OpFlat(op, 0);
  }

  /** No prefix of a tree's tokens closes more than it opened. */
  lemma {:induction false} NeverNegative(t: Tree, k: nat)
    requires Proper(t) && k <= |Tokens(t)|
    ensures Depth(Tokens(t)[..k]) >= 0
    decreases Size(t), 1
  {
    var ts := Tokens(t);
    match t
    case Leaf(e) => AtomDepth(e, k);
    case Neg(x) => PrefixAfterOne(Infix(Sub), x, k);
    case Inv(x) => PrefixAfterOne(NotTok, x, k);
    case Test(x, negated) =>
      if k <= |Tokens(x)| {
        assert ts[..k] == Tokens(x)[..k];
        NeverNegative(x, k);
      } else {
        var j := k - |Tokens(x)|;
        assert ts[..k] == Tokens(x) + NullTokens(negated)[..j];
        DepthConcat(Tokens(x), NullTokens(negated)[..j]);
        Balanced(x);
        NullFlat(negated, j);
      }
    case Paren(x) => InsideParen(x, k);
    case Bin(l, op, r) => PrefixOfJoined(l, op, r, k);
    case Link(l, op, r) => PrefixOfJoined(l, op, r, k);
  }

  lemma {:induction false} PrefixAfterOne(tok: Token, x: Tree, k: nat)
    requires Proper(x) && tok != LParen && tok != RParen && k <= 1 + |Tokens(x)|
    ensures Depth(([tok] + Tokens(x))[..k]) >= 0
    decreases Size(x) + 1, 0
  {
    var ts := [tok] + Tokens(x);
    if k == 0 {
      assert ts[..k] == [];
    } else {
      assert ts[..k] == [tok] + Tokens(x)[..k - 1];
      DepthConcat([tok], Tokens(x)[..k - 1]);
      Flat([tok]);
      NeverNegative(x, k - 1);
    }
  }

  /** Inside parentheses the depth stays positive. */
  lemma {:induction false} InsideParen(x: Tree, k: nat)
    requires Proper(x) && k <= |Tokens(x)| + 2
    ensures var ts := [LParen] + Tokens(x) + [RParen];
            Depth(ts[..k]) >= (if 0 < k < |ts| then 1 else 0)
    decreases Size(x) + 1, 0
  {
    var ts := [LParen] + Tokens(x) + [RParen];
    if k == 0 {
      assert ts[..k] == [];
    } else if k == |ts| {
      assert ts[..k] == ts;
      Wrapped(Tokens(x));
      Balanced(x);
    } else {
      assert ts[..k] == [LParen] + Tokens(x)[..k - 1];
      DepthConcat([LParen], Tokens(x)[..k - 1]);
      assert Depth([LParen]) == 1 by { assert [LParen][1..] == []; }
      NeverNegative(x, k - 1);
    }
  }

  lemma {:induction false} PrefixOfJoined(l: Tree, op: Op, r: Tree, k: nat)
    requires Proper(l) && Proper(r) && k <= |Tokens(l) + OpTokens(op) + Tokens(r)|
    ensures Depth((Tokens(l) + OpTokens(op) + Tokens(r))[..k]) >= 0
    decreases Size(l) + Size(r) + 1, 0
  {
    var a, o, b := Tokens(l), OpTokens(op), Tokens(r);
    var ts := a + o + b;
    Balanced(l);
    if k <= |a| {
      assert ts[..k] == a[..k];
      NeverNegative(l, k);
    } else if k <= |a| + |o| {
      var j := k - |a|;
      assert ts[..k] == a + o[..j];
      DepthConcat(a, o[..j]);
      OpFlat(op, j);
    } else {
      var j := k - |a| - |o|;
      assert ts[..k] == a + o + b[..j];
      Joined(a, op, b[..j]);
      NeverNegative(r, j);
    }
  }

  /** How the tokens of a tree start. */
  lemma {:induction false} Starts(t: Tree)
    requires Proper(t)
    ensures Tokens(t) != []
    ensures var first := Tokens(t)[0]; first != RParen && first != MinMagnitude && first != IsTok && first != With
    ensures |Tokens(t)| == 1 && Tokens(t)[0].Ident? ==> t.Leaf? && t.e.Variable?
  {
    match t
    case Neg(x) => Starts(x);
    case Inv(x) => Starts(x);
    case Test(x, _) => Starts(x);
    case Bin(l, _, _) => Starts(l);
    case Link(l, _, _) => Starts(l);
    case _ =>
  }

  lemma SecondToken(t: Tree)
    requires Proper(t) && |Tokens(t)| >= 2 && Tokens(t)[0].Ident?
    ensures Tokens(t)[1] != RParen
  {
    hide Tokens;
    var ts := Tokens(t);
    NeverNegative(t, 2);
    assert ts[..2] == [ts[0]] + [ts[1]];
    DepthConcat([ts[0]], [ts[1]]);
    Flat([ts[0]]);
    assert [ts[1]][1..] == [];
  }

  // ---- Trees that fit are read back -----------------------------------------------------------------

  /** The power of the operator at the head, 0 if there is none. */
  function Power(ts: seq<Token>): nat { if PeekInfix(ts).Some? then Bp(PeekInfix(ts).value) else 0 }

  /** What follows is not part of the operand: no null test, no call, no operator above `f`. */
  ghost predicate Outside(rest: seq<Token>, f: nat) { Head(rest) != IsTok && Head(rest) != LParen && Power(rest) <= f }

  /** Prefix expression and null tests, the operand of the infix loop. */
  function ParseOperand(ts: seq<Token>): Result<Parsed> {
    var p :- ParsePrefix(ts);
    ParseNullTests(p.expr, p.rest)
  }

  lemma OperandThenInfix(ts: seq<Token>, e: Expr, rest: seq<Token>, minBp: nat)
    requires ParseOperand(ts) == Ok(Parsed(e, rest))
    ensures ParseBp(ts, minBp) == ParseInfix(e, rest, minBp)
  {
    hide ParsePrefix, ParseNullTests, ParseInfix;
  }

  lemma OpHead(op: Op, more: seq<Token>)
    ensures PeekInfix(OpTokens(op) + more) == Some(op) && AfterOp(OpTokens(op) + more, op) == more
    ensures Head(OpTokens(op) + more) == Infix(op)
  {
    var ts := OpTokens(op) + more;
    if NeedsWith(op) { assert ts[1..] == [With] + more && ts[2..] == more; } else { assert ts[1..] == more; }
  }

  lemma Assoc(a: seq<Token>, b: seq<Token>, c: seq<Token>)
    ensures a + b + c == a + (b + c)
  {
  }

  lemma ParenReads(x: Tree, rest: seq<Token>)
    requires Proper(x) && PatternAt(Tokens(Paren(x)) + rest).None?
    requires ParseBp(Tokens(x) + ([RParen] + rest), 0) == Ok(Parsed(Meaning(x), [RParen] + rest))
    ensures ParseOperand(Tokens(Paren(x)) + rest) == ParseNullTests(Meaning(x), rest)
  {
    hide ParseBp, ParseNullTests, Meaning, PatternAt;
    var inner := Tokens(x) + ([RParen] + rest);
    var ts := Tokens(Paren(x)) + rest;
    assert ts == [LParen] + inner && ts[1..] == inner;
    assert ([RParen] + rest)[1..] == rest;
    assert ParsePrimary(ts) == Ok(Parsed(Meaning(x), rest));
  }

  /** Around anything else than an identifier parentheses start no pattern; the attempt takes at most two steps. */
  lemma NotPattern(x: Tree, rest: seq<Token>)
    requires Proper(x) && !(x.Leaf? && x.e.Variable?)
    ensures var ts := Tokens(Paren(x)) + rest; PatternAt(ts).None? && PatternSteps(ts) <= 2
  {
    var ts, inner := Tokens(Paren(x)) + rest, Tokens(x) + ([RParen] + rest);
    assert ts == [LParen] + inner;
    Starts(x);
    assert ts[1..] == inner;
    assert Head(ts[1..]) == Tokens(x)[0];
    if Tokens(x)[0].Ident? {
      assert |Tokens(x)| >= 2;
      SecondToken(x);
      assert Head(ts[2..]) == Tokens(x)[1];
    }
  }

  /** A parenthesis starts a pattern only around a bare identifier and before a dash. */
  lemma OnlyBeforeDash(x: Tree, rest: seq<Token>)
    requires Proper(x) && PatternAt(Tokens(Paren(x)) + rest).Some?
    ensures x.Leaf? && x.e.Variable? && Head(rest) == Infix(Sub)
  {
    hide PatternSteps;
    var ts := Tokens(Paren(x)) + rest;
    if x.Leaf? && x.e.Variable? {
      assert ts == [LParen, Ident(x.e.n), RParen] + rest;
      assert ts[1..][0] == Ident(x.e.n) && ts[2..][0] == RParen && ts[3..] == rest;
    } else {
      NotPattern(x, rest);
    }
  }

  /** No pattern predicate stands before a dash, nor at the end if a dash follows the tree. */
  predicate DashSafe(t: Tree, dash: bool) {
    match t
    case Leaf(e) => e.PatternExists? ==> !dash
    case Neg(x) => DashSafe(x, dash)
    case Inv(x) => DashSafe(x, dash)
    case Test(x, _) => DashSafe(x, false)
    case Paren(x) => DashSafe(x, false)
    case Bin(l, op, r) => DashSafe(l, op == Sub) && DashSafe(r, dash)
    case Link(l, op, r) => DashSafe(l, op == Sub) && DashSafe(r, dash)
  }

  lemma {:induction false} NoBareClear(t: Tree, dash: bool, rest: seq<Token>)
    requires Proper(t) && NoBare(t) && DashSafe(t, dash) && (Head(rest) == Infix(Sub) ==> dash)
    ensures Clear(t, rest)
    decreases t
  {
    hide PatternAt;
    match t
    case Leaf(_) =>
    case Neg(x) => NoBareClear(x, dash, rest);
    case Inv(x) => NoBareClear(x, dash, rest);
    case Test(x, negated) => NoBareClear(x, false, NullTokens(negated) + rest);
    case Paren(x) => NotPattern(x, rest); NoBareClear(x, false, [RParen] + rest);
    case Bin(l, op, r) => OpHead(op, Tokens(r) + rest); NoBareClear(l, op == Sub, OpTokens(op) + (Tokens(r) + rest)); NoBareClear(r, dash, rest);
    case Link(l, op, r) => OpHead(op, Tokens(r) + rest); NoBareClear(l, op == Sub, OpTokens(op) + (Tokens(r) + rest)); NoBareClear(r, dash, rest);
  }

  lemma AtomReads(e: Expr, rest: seq<Token>)
    requires Atom(e) && Head(rest) != LParen && (e.PatternExists? ==> Head(rest) != Infix(Sub))
    ensures ParseOperand(AtomTokens(e) + rest) == ParseNullTests(e, rest)
  {
    hide ParseBp, ParseNullTests, PatternAt, HopTokens;
    var ts := AtomTokens(e) + rest;
    assert e.MinInt? ==> ts[1..] == [MinMagnitude] + rest && ts[2..] == rest;
    if e.PatternExists? {
      PatternReads(e, rest);
      assert ts[0] == LParen;
      assert ParsePrimary(ts) == Ok(Parsed(e, rest));
    } else if !e.MinInt? {
      assert ts[1..] == rest && Head(ts) == AtomTokens(e)[0];
      assert ParsePrimary(ts) == Ok(Parsed(e, rest));
    }
  }

  lemma NodeReads(name: Option<nat>, rest: seq<Token>)
    ensures ParseNode(NodeTokens(name) + rest) == Some((name, rest))
    ensures Head(NodeTokens(name) + rest) == LParen
  {
    var ts := NodeTokens(name) + rest;
    if name.Some? {
      assert ts[1..][0] == Ident(name.value) && ts[2..][0] == RParen && ts[3..] == rest;
    } else {
      assert ts[1..][0] == RParen && ts[2..] == rest;
    }
  }

  lemma {:induction false} HopsRead(front: seq<Option<nat>>, nodes: seq<Option<nat>>, rest: seq<Token>)
    requires Head(rest) != Infix(Sub)
    ensures ParseHops(front, HopTokens(nodes) + rest) == Some(Found(front + nodes, rest))
    decreases |nodes|
  {
    hide NodeTokens, ParseNode;
    var ts := HopTokens(nodes) + rest;
    if nodes == [] {
      assert ts == rest && front + nodes == front;
    } else {
      var more := NodeTokens(nodes[0]) + (HopTokens(nodes[1..]) + rest);
      assert ts == [Infix(Sub)] + more;
      assert ts[1..] == more;
      NodeReads(nodes[0], HopTokens(nodes[1..]) + rest);
      assert AfterDashes(ts) == more;
      HopsRead(front + [nodes[0]], nodes[1..], rest);
      assert front + [nodes[0]] + nodes[1..] == front + nodes;
    }
  }

  /** A pattern is read as itself before anything but a dash. */
  lemma PatternReads(e: Expr, rest: seq<Token>)
    requires e.PatternExists? && Head(rest) != Infix(Sub)
    ensures var found := PatternAt(AtomTokens(e) + rest);
            found.Some? && AsPattern(found.value.nodes) == e && found.value.rest == rest
  {
    hide NodeTokens, HopTokens, ParseNode, ParseHops;
    var nodes := [e.second] + e.more;
    Assoc(NodeTokens(e.first), HopTokens(nodes), rest);
    NodeReads(e.first, HopTokens(nodes) + rest);
    HopsRead([e.first], nodes, rest);
    assert ([e.first] + nodes)[2..] == e.more;
  }

  lemma NullTestStep(x: Expr, negated: bool, rest: seq<Token>)
    ensures ParseNullTests(x, NullTokens(negated) + rest) == ParseNullTests(NullTest(x, negated), rest)
    ensures Head(NullTokens(negated) + rest) == IsTok
  {
    var ts := NullTokens(negated) + rest;
    if negated {
      assert ts[1..] == [NotTok, NullTok] + rest && ts[2..] == [NullTok] + rest && ts[3..] == rest;
    } else {
      assert ts[1..] == [NullTok] + rest && ts[2..] == rest;
    }
  }

  predicate Tight(t: Tree) { t.Leaf? || t.Paren? || t.Test? }

  /** An atom, a parenthesised expression or a null test is read as one operand. */
  lemma {:induction false} TightReads(t: Tree, minBp: nat, f: nat, rest: seq<Token>)
    requires Proper(t) && LinkFree(t) && Tight(t) && Fits(t, minBp, f) && Clear(t, rest) && Head(rest) != LParen
    ensures ParseOperand(Tokens(t) + rest) == ParseNullTests(Meaning(t), rest)
    decreases t, 0
  {
    hide ParseOperand, ParseNullTests, ParseBp, PatternAt;
    match t
    case Leaf(e) => AtomReads(e, rest);
    case Paren(x) =>
      EndsAtParen(Meaning(x), rest);
      FitsReads(x, 0, 0, [RParen] + rest);
      ParenReads(x, rest);
    case Test(x, negated) =>
      Assoc(Tokens(x), NullTokens(negated), rest);
      NullTestStep(Meaning(x), negated, rest);
      TightReads(x, minBp, f, NullTokens(negated) + rest);
  }

  lemma EndsAtParen(e: Expr, rest: seq<Token>)
    ensures ParseInfix(e, [RParen] + rest, 0) == Ok(Parsed(e, [RParen] + rest)) && Outside([RParen] + rest, 0)
  {
  }

  lemma NoNullTest(e: Expr, rest: seq<Token>)
    requires Head(rest) != IsTok
    ensures ParseNullTests(e, rest) == Ok(Parsed(e, rest))
  {
  }

  lemma InfixStops(e: Expr, rest: seq<Token>, minBp: nat)
    requires PeekInfix(rest).Some? ==> Power(rest) < minBp
    ensures ParseInfix(e, rest, minBp) == Ok(Parsed(e, rest))
  {
  }

  lemma ChainStops(e: Expr, left: Expr, rest: seq<Token>)
    requires Power(rest) < 40
    ensures ParseChain(e, left, rest) == Ok(Parsed(e, rest))
  {
  }

  lemma PrefixNegate(ts: seq<Token>, x: Expr, rest: seq<Token>)
    requires ts != [] && ts[0] != MinMagnitude && ParseBp(ts, BP_PREFIX) == Ok(Parsed(x, rest))
    ensures ParsePrefix([Infix(Sub)] + ts) == Ok(Parsed(Negate(x), rest))
  {
    hide ParseBp, ParsePrimary;
    assert ([Infix(Sub)] + ts)[1..] == ts;
  }

  lemma PrefixNot(ts: seq<Token>, x: Expr, rest: seq<Token>)
    requires ParseBp(ts, BP_NOT) == Ok(Parsed(x, rest))
    ensures ParsePrefix([NotTok] + ts) == Ok(Parsed(Not(x), rest))
  {
    hide ParseBp, ParsePrimary;
    assert ([NotTok] + ts)[1..] == ts;
  }

  lemma InfixTakes(l: Expr, op: Op, more: seq<Token>, r: Expr, rest: seq<Token>, minBp: nat)
    requires minBp <= Bp(op) && ParseBp(more, Bp(op) + 1) == Ok(Parsed(r, rest)) && !Absorbs(op, Power(rest))
    ensures ParseInfix(l, OpTokens(op) + more, minBp) == ParseInfix(Binary(l, op, r), rest, minBp)
  {
    hide ParseBp, ParseChain;
    OpHead(op, more);
    if Chainable(op) { ChainStops(Binary(l, op, r), r, rest); }
  }

  /**
   * The heart of it: on the tokens of a tree that fits and whatever follows, the parser arrives at its infix loop with
   * exactly that tree on the left.
   */
  lemma {:induction false} FitsReads(t: Tree, minBp: nat, f: nat, rest: seq<Token>)
    requires Proper(t) && LinkFree(t) && Fits(t, minBp, f) && Clear(t, rest) && Outside(rest, f)
    ensures ParseBp(Tokens(t) + rest, minBp) == ParseInfix(Meaning(t), rest, minBp)
    decreases t, 1
  {
    hide ParseBp, ParsePrefix, ParseNullTests, ParseInfix, ParseOperand, PatternAt;
    if Tight(t) {
      TightReads(t, minBp, f, rest);
      NoNullTest(Meaning(t), rest);
      OperandThenInfix(Tokens(t) + rest, Meaning(t), rest, minBp);
    } else {
      match t
      case Neg(x) => NegReads(x, minBp, f, rest);
      case Inv(x) => InvReads(x, minBp, f, rest);
      case Bin(l, op, r) => BinReads(l, op, r, minBp, f, rest);
      case _ =>
    }
  }

  lemma {:induction false} NegReads(x: Tree, minBp: nat, f: nat, rest: seq<Token>)
    requires Proper(x) && LinkFree(x) && Fits(Neg(x), minBp, f) && Clear(x, rest) && Outside(rest, f)
    ensures ParseBp(Tokens(Neg(x)) + rest, minBp) == ParseInfix(Meaning(Neg(x)), rest, minBp)
    decreases x, 2
  {
    hide ParseBp, ParsePrefix, ParseNullTests, ParseInfix, Clear;
    FitsReads(x, BP_PREFIX, f, rest);
    InfixStops(Meaning(x), rest, BP_PREFIX);
    Starts(x);
    PrefixNegate(Tokens(x) + rest, Meaning(x), rest);
    Assoc([Infix(Sub)], Tokens(x), rest);
    NoNullTest(Negate(Meaning(x)), rest);
    OperandThenInfix(Tokens(Neg(x)) + rest, Negate(Meaning(x)), rest, minBp);
  }

  lemma {:induction false} InvReads(x: Tree, minBp: nat, f: nat, rest: seq<Token>)
    requires Proper(x) && LinkFree(x) && Fits(Inv(x), minBp, f) && Clear(x, rest) && Outside(rest, f)
    ensures ParseBp(Tokens(Inv(x)) + rest, minBp) == ParseInfix(Meaning(Inv(x)), rest, minBp)
    decreases x, 2
  {
    hide ParseBp, ParsePrefix, ParseNullTests, ParseInfix, Clear;
    FitsReads(x, BP_NOT, f, rest);
    InfixStops(Meaning(x), rest, BP_NOT);
    PrefixNot(Tokens(x) + rest, Meaning(x), rest);
    Assoc([NotTok], Tokens(x), rest);
    NoNullTest(Not(Meaning(x)), rest);
    OperandThenInfix(Tokens(Inv(x)) + rest, Not(Meaning(x)), rest, minBp);
  }

  lemma {:induction false} BinReads(l: Tree, op: Op, r: Tree, minBp: nat, f: nat, rest: seq<Token>)
    requires Proper(l) && Proper(r) && LinkFree(l) && LinkFree(r) && Fits(Bin(l, op, r), minBp, f) && Outside(rest, f)
    requires Clear(l, OpTokens(op) + (Tokens(r) + rest)) && Clear(r, rest)
    ensures ParseBp(Tokens(Bin(l, op, r)) + rest, minBp) == ParseInfix(Meaning(Bin(l, op, r)), rest, minBp)
    decreases Bin(l, op, r), 0
  {
    hide ParseBp, ParseInfix, Fits, Clear, Tokens, Meaning, OpTokens;
    var more := Tokens(r) + rest;
    BinParts(l, op, r, minBp, f);
    BinMeans(l, op, r);
    Rejoined(Tokens(l), OpTokens(op), Tokens(r), rest);
    OpHead(op, more);
    FitsReads(l, minBp, Bp(op), OpTokens(op) + more);
    FitsReads(r, Bp(op) + 1, f, rest);
    InfixStops(Meaning(r), rest, Bp(op) + 1);
    InfixTakes(Meaning(l), op, more, Meaning(r), rest, minBp);
  }

  lemma BinMeans(l: Tree, op: Op, r: Tree)
    requires Proper(l) && Proper(r)
    ensures Tokens(Bin(l, op, r)) == Tokens(l) + OpTokens(op) + Tokens(r)
    ensures Meaning(Bin(l, op, r)) == Binary(Meaning(l), op, Meaning(r))
  {
  }

  lemma BinParts(l: Tree, op: Op, r: Tree, minBp: nat, f: nat)
    requires Fits(Bin(l, op, r), minBp, f)
    ensures minBp <= Bp(op) && !Absorbs(op, f) && Fits(l, minBp, Bp(op)) && Fits(r, Bp(op) + 1, f)
  {
  }

  // ---- The rendering with the fewest parentheses ----------------------------------------------------------

  /** The operand of a null test. */
  function TightTree(e: Expr): Tree
    decreases e, 2
  {
    if Atom(e) || e.NullTest? then Plain(e, 0, 0, false) else Paren(Plain(e, 0, 0, false))
  }

  /** Without outer parentheses. */
  function Plain(e: Expr, minBp: nat, f: nat, dash: bool): Tree
    decreases e, 0
  {
    match e
    case Negate(x) => Neg(Minimal(x, BP_PREFIX, f, dash))
    case Not(x) => Inv(Minimal(x, BP_NOT, f, dash))
    case NullTest(x, negated) => Test(TightTree(x), negated)
    case Binary(l, op, r) => Bin(Minimal(l, minBp, Bp(op), op == Sub), op, Minimal(r, Bp(op) + 1, f, dash))
    case _ => Leaf(e)
  }

  /** Parentheses are needed around a binary expression that is too loose or would absorb what follows, around NOT
      before an operator it would absorb, and around a pattern before a dash. */
  predicate NeedsParens(e: Expr, minBp: nat, f: nat, dash: bool) {
    match e
    case Binary(_, op, _) => Bp(op) < minBp || Absorbs(op, f)
    case Not(_) => f >= BP_NOT
    case PatternExists(_, _, _) => dash
    case _ => false
  }

  /** Where an operator needs at least `minBp` and one of power `f` follows, which is a dash or not. */
  function Minimal(e: Expr, minBp: nat, f: nat, dash: bool): Tree
    decreases e, 1
  {
    if NeedsParens(e, minBp, f, dash) then Paren(Plain(e, 0, 0, false)) else Plain(e, minBp, f, dash)
  }

  ghost predicate Renders(t: Tree, e: Expr, minBp: nat, f: nat, dash: bool) {
    Proper(t) && LinkFree(t) && NoBare(t) && Meaning(t) == e && Fits(t, minBp, f) && DashSafe(t, dash)
  }

  lemma {:induction false} MinimalMeans(e: Expr, minBp: nat, f: nat, dash: bool)
    requires f < BP_PREFIX
    ensures Renders(Minimal(e, minBp, f, dash), e, minBp, f, dash)
    decreases e, 1
  {
    hide Plain;
    if NeedsParens(e, minBp, f, dash) { PlainMeans(e, 0, 0, false); } else { PlainMeans(e, minBp, f, dash); }
    PlainKind(e, 0, 0, false);
  }

  lemma PlainKind(e: Expr, minBp: nat, f: nat, dash: bool)
    ensures Plain(e, minBp, f, dash).Leaf? <==> Atom(e)
    ensures Plain(e, minBp, f, dash).Leaf? ==> Plain(e, minBp, f, dash).e == e
    ensures Plain(e, minBp, f, dash).Test? <==> e.NullTest?
    ensures !Plain(e, minBp, f, dash).Paren?
  {
    hide Minimal, TightTree;
  }

  lemma {:induction false} PlainMeans(e: Expr, minBp: nat, f: nat, dash: bool)
    requires f < BP_PREFIX && !NeedsParens(e, minBp, f, dash)
    ensures Renders(Plain(e, minBp, f, dash), e, minBp, f, dash)
    decreases e, 0
  {
    hide Minimal, TightTree;
    match e
    case Negate(x) => MinimalMeans(x, BP_PREFIX, f, dash);
    case Not(x) => MinimalMeans(x, BP_NOT, f, dash);
    case NullTest(x, _) => TightMeans(x, minBp, f);
    case Binary(l, op, r) =>
      MinimalMeans(l, minBp, Bp(op), op == Sub);
      MinimalMeans(r, Bp(op) + 1, f, dash);
    case _ =>
  }

  lemma {:induction false} TightMeans(e: Expr, minBp: nat, f: nat)
    ensures Tight(TightTree(e)) && Renders(TightTree(e), e, minBp, f, false)
    decreases e, 2
  {
    hide Plain;
    PlainMeans(e, 0, 0, false);
    PlainKind(e, 0, 0, false);
    TightAnywhere(TightTree(e), minBp, f);
  }

  lemma {:induction false} TightAnywhere(t: Tree, minBp: nat, f: nat)
    ensures Tight(t) && Fits(t, 0, 0) ==> Fits(t, minBp, f)
  {
    if t.Test? { TightAnywhere(t.x, minBp, f); }
  }

  /** The minimally parenthesised rendering. */
  function Render(e: Expr): seq<Token> {
    MinimalMeans(e, 0, 0, false);
    Tokens(Minimal(e, 0, 0, false))
  }

  /** Parsing the minimally parenthesised rendering consumes all of it and gives back the tree, for every tree. */
  lemma ParseRender(e: Expr)
    ensures ParseBp(Render(e) + [Eof], 0) == Ok(Parsed(e, [Eof]))
  {
    hide ParseBp, Minimal, Tokens, Fits, Clear, NoBare, DashSafe;
    MinimalMeans(e, 0, 0, false);
    NoBareClear(Minimal(e, 0, 0, false), false, [Eof]);
    FitsReads(Minimal(e, 0, 0, false), 0, 0, [Eof]);
    InfixStops(e, [Eof], 0);
  }

  /** Different trees have different renderings. */
  lemma RenderInjective(a: Expr, b: Expr)
    requires Render(a) == Render(b)
    ensures a == b
  {
    hide ParseBp, Render;
    ParseRender(a);
    ParseRender(b);
  }

  // ---- Dropping a pair --------------------------------------------------------------------------------------

  /** `u` is `t` without one of its pairs of parentheses. */
  ghost predicate Drops(t: Tree, u: Tree) {
    match t
    case Leaf(_) => false
    case Neg(x) => u.Neg? && Drops(x, u.x)
    case Inv(x) => u.Inv? && Drops(x, u.x)
    case Test(x, negated) => u.Test? && u.negated == negated && Drops(x, u.x)
    case Paren(x) => u == x || (u.Paren? && Drops(x, u.x))
    case Bin(l, op, r) => u.Bin? && u.op == op && ((Drops(l, u.l) && u.r == r) || (u.l == l && Drops(r, u.r)))
    case Link(_, _, _) => false
  }

  lemma {:induction false} DropKeeps(t: Tree, u: Tree)
    requires Proper(t) && LinkFree(t) && Drops(t, u)
    ensures Proper(u) && LinkFree(u) && Meaning(u) == Meaning(t)
  {
    match t
    case Neg(x) => DropKeeps(x, u.x);
    case Inv(x) => DropKeeps(x, u.x);
    case Test(x, _) => DropKeeps(x, u.x);
    case Paren(x) => if u != x { DropKeeps(x, u.x); }
    case Bin(l, _, r) => if Drops(l, u.l) && u.r == r { DropKeeps(l, u.l); } else { DropKeeps(r, u.r); }
    case _ =>
  }

  /** No pair of the minimal tree can go: what is inside would not fit, or would be a pattern before a dash. */
  lemma {:induction false} DropUnfits(e: Expr, minBp: nat, f: nat, dash: bool, u: Tree)
    requires Drops(Minimal(e, minBp, f, dash), u)
    ensures !Fits(u, minBp, f) || !DashSafe(u, dash)
    decreases e, 1
  {
    hide Plain;
    if NeedsParens(e, minBp, f, dash) {
      if u == Plain(e, 0, 0, false) { PlainUnfit(e, 0, 0, false, minBp, f, dash); } else { PlainDropUnfits(e, 0, 0, false, u.x); }
    } else {
      PlainDropUnfits(e, minBp, f, dash, u);
    }
  }

  lemma PlainUnfit(e: Expr, m: nat, g: nat, d: bool, minBp: nat, f: nat, dash: bool)
    requires NeedsParens(e, minBp, f, dash)
    ensures !Fits(Plain(e, m, g, d), minBp, f) || !DashSafe(Plain(e, m, g, d), dash)
  {
    hide Minimal;
  }

  lemma {:induction false} PlainDropUnfits(e: Expr, minBp: nat, f: nat, dash: bool, u: Tree)
    requires Drops(Plain(e, minBp, f, dash), u)
    ensures !Fits(u, minBp, f) || !DashSafe(u, dash)
    decreases e, 0
  {
    hide Minimal, TightTree;
    match e
    case Negate(x) => DropUnfits(x, BP_PREFIX, f, dash, u.x);
    case Not(x) => DropUnfits(x, BP_NOT, f, dash, u.x);
    case NullTest(x, _) => TightDropUnfits(x, minBp, f, u.x);
    case Binary(l, op, r) =>
      if Drops(Minimal(l, minBp, Bp(op), op == Sub), u.l) {
        DropUnfits(l, minBp, Bp(op), op == Sub, u.l);
      } else {
        DropUnfits(r, Bp(op) + 1, f, dash, u.r);
      }
    case _ =>
  }

  lemma {:induction false} TightDropUnfits(e: Expr, minBp: nat, f: nat, u: Tree)
    requires Drops(TightTree(e), u)
    ensures !(Tight(u) && Fits(u, minBp, f)) || !DashSafe(u, false)
    decreases e, 2
  {
    hide Plain;
    PlainKind(e, 0, 0, false);
    if Atom(e) || e.NullTest? {
      PlainDropUnfits(e, 0, 0, false, u);
      TightBelow(u, minBp, f);
    } else if u != Plain(e, 0, 0, false) {
      PlainDropUnfits(e, 0, 0, false, u.x);
    }
  }

  lemma {:induction false} TightBelow(t: Tree, minBp: nat, f: nat)
    ensures Tight(t) && Fits(t, minBp, f) ==> Fits(t, 0, 0)
  {
    if t.Test? { TightBelow(t.x, minBp, f); }
  }

  // ---- One way to place the parentheses ----------------------------------------------------------------------

  predicate IsParen(tok: Token) { tok == LParen || tok == RParen }

  /** Tokens other than parentheses. */
  function Solid(ts: seq<Token>): nat { if ts == [] then 0 else (if IsParen(ts[0]) then 0 else 1) + Solid(ts[1..]) }

  lemma {:induction false} SolidConcat(a: seq<Token>, b: seq<Token>)
    ensures Solid(a + b) == Solid(a) + Solid(b)
  {
    if a == [] {
      assert a + b == b;
    } else {
      assert (a + b)[1..] == a[1..] + b;
      SolidConcat(a[1..], b);
    }
  }

  lemma {:induction false} AllSolid(ts: seq<Token>)
    requires forall i :: 0 <= i < |ts| ==> !IsParen(ts[i])
    ensures Solid(ts) == |ts|
  {
    if ts != [] { AllSolid(ts[1..]); }
  }

  /** The tokens an expression takes without parentheses. */
  function Weight(e: Expr): nat {
    match e
    case MinInt => 2
    case Negate(x) => 1 + Weight(x)
    case Not(x) => 1 + Weight(x)
    case NullTest(x, negated) => Weight(x) + |NullTokens(negated)|
    case Binary(l, op, r) => Weight(l) + |OpTokens(op)| + Weight(r)
    case _ => 1
  }

  lemma SolidAfter(tok: Token, ts: seq<Token>)
    ensures Solid([tok] + ts) == (if IsParen(tok) then 0 else 1) + Solid(ts)
  {
    assert ([tok] + ts)[1..] == ts;
  }

  lemma SolidWrapped(ts: seq<Token>)
    ensures Solid([LParen] + ts + [RParen]) == Solid(ts)
  {
    SolidConcat([LParen] + ts, [RParen]);
    SolidAfter(LParen, ts);
    SolidAfter(RParen, []);
    assert [RParen] + [] == [RParen];
  }

  lemma SolidTested(ts: seq<Token>, negated: bool)
    ensures Solid(ts + NullTokens(negated)) == Solid(ts) + |NullTokens(negated)|
  {
    SolidConcat(ts, NullTokens(negated));
    AllSolid(NullTokens(negated));
  }

  lemma LinkWeight(t: Tree)
    requires Proper(t) && t.Link?
    ensures Weight(Meaning(t)) > Weight(Meaning(t.l)) + |OpTokens(t.op)| + Weight(Meaning(t.r))
  {
    hide Tokens, Meaning;
    WeightPositive(Meaning(t.l.r));
    assert Meaning(t) == Binary(Meaning(t.l), And, Binary(Meaning(t.l.r), t.op, Meaning(t.r))) by { LinkMeaning(t); }
  }

  lemma LinkMeaning(t: Tree)
    requires Proper(t) && t.Link?
    ensures Meaning(t) == Binary(Meaning(t.l), And, Binary(Meaning(t.l.r), t.op, Meaning(t.r)))
  {
  }

  lemma {:induction false} WeightPositive(e: Expr)
    ensures Weight(e) > 0
  {
  }

  /** A tree without links is as heavy as what it means; a chain means more than it says. */
  lemma {:induction false} Weighs(t: Tree)
    requires Proper(t) && Patternless(t)
    ensures LinkFree(t) ==> Solid(Tokens(t)) == Weight(Meaning(t))
    ensures !LinkFree(t) ==> Solid(Tokens(t)) < Weight(Meaning(t))
  {
    hide Solid, OpTokens, NullTokens;
    match t
    case Leaf(e) => LeafWeighs(e);
    case Neg(x) => Weighs(x); SolidAfter(Infix(Sub), Tokens(x));
    case Inv(x) => Weighs(x); SolidAfter(NotTok, Tokens(x));
    case Test(x, negated) => Weighs(x); SolidTested(Tokens(x), negated);
    case Paren(x) => Weighs(x); SolidWrapped(Tokens(x));
    case Bin(l, op, r) => Weighs(l); Weighs(r); SolidJoined(Tokens(l), op, Tokens(r));
    case Link(l, op, r) => Weighs(l); Weighs(r); SolidJoined(Tokens(l), op, Tokens(r)); LinkWeight(t);
  }

  lemma LeafWeighs(e: Expr)
    requires Atom(e) && !e.PatternExists?
    ensures Solid(AtomTokens(e)) == Weight(e)
  {
    AllSolid(AtomTokens(e));
  }

  lemma SolidJoined(a: seq<Token>, op: Op, b: seq<Token>)
    ensures Solid(a + OpTokens(op) + b) == Solid(a) + |OpTokens(op)| + Solid(b)
  {
    SolidConcat(a + OpTokens(op), b);
    SolidConcat(a, OpTokens(op));
    AllSolid(OpTokens(op));
  }

  /** Where the same text splits at an operator into parts of the same weight, the parts are the same. */
  lemma SameSplit(a: seq<Token>, b: seq<Token>, op: Op, c: seq<Token>, d: seq<Token>)
    requires a + OpTokens(op) + b == c + OpTokens(op) + d && Solid(a) == Solid(c)
    ensures a == c && b == d
  {
    var ts := a + OpTokens(op) + b;
    if |a| < |c| {
      LongerIsHeavier(a, op, b, c);
    } else if |c| < |a| {
      LongerIsHeavier(c, op, d, a);
    }
    assert a == ts[..|a|] && c == ts[..|c|];
    assert b == ts[|a| + |OpTokens(op)|..] && d == ts[|c| + |OpTokens(op)|..];
  }

  lemma LongerIsHeavier(a: seq<Token>, op: Op, b: seq<Token>, c: seq<Token>)
    requires c <= a + OpTokens(op) + b && |a| < |c|
    ensures Solid(a) < Solid(c)
  {
    var ts, rest := a + OpTokens(op) + b, c[|a|..];
    assert ts[|a|] == Infix(op);
    assert c[|a|] == ts[|a|];
    assert c == a + rest by { assert c[..|a|] == a; }
    SolidConcat(a, rest);
    assert Solid(rest) >= 1;
  }

  /** A text in parentheses is not the text of a tree without. */
  lemma ParenOrNot(x: Tree, u: Tree)
    requires Proper(x) && Proper(u) && LinkFree(u) && Patternless(u) && !u.Paren?
    ensures Tokens(Paren(x)) != Tokens(u)
  {
    if u.Bin? || u.Test? {
      var front := Tokens(if u.Bin? then u.l else u.x);
      Balanced(if u.Bin? then u.l else u.x);
      assert Tokens(u)[..|front|] == front && |front| < |Tokens(u)|;
      if |front| < |Tokens(Paren(x))| { InsideParen(x, |front|); }
    } else {
      assert Tokens(u)[0] != LParen;
    }
  }

  /** The same text for the same expression has its parentheses in the same places. */
  lemma {:induction false} SamePlaces(t: Tree, u: Tree)
    requires Proper(t) && Proper(u) && LinkFree(t) && LinkFree(u) && Patternless(t) && Patternless(u)
    requires Tokens(t) == Tokens(u) && Meaning(t) == Meaning(u)
    ensures t == u
    decreases t
  {
    if t.Paren? != u.Paren? {
      if t.Paren? { ParenOrNot(t.x, u); } else { ParenOrNot(u.x, t); }
    } else {
      match t
      case Leaf(_) =>
      case Neg(x) =>
        assert Tokens(t)[1..] == Tokens(x) && Tokens(u)[1..] == Tokens(u.x);
        SamePlaces(x, u.x);
      case Inv(x) =>
        assert Tokens(t)[1..] == Tokens(x) && Tokens(u)[1..] == Tokens(u.x);
        SamePlaces(x, u.x);
      case Test(x, negated) =>
        var n := |Tokens(t)| - |NullTokens(negated)|;
        assert Tokens(t)[..n] == Tokens(x) && Tokens(u)[..n] == Tokens(u.x);
        SamePlaces(x, u.x);
      case Paren(x) =>
        var n := |Tokens(t)| - 1;
        assert Tokens(t)[1..n] == Tokens(x) && Tokens(u)[1..n] == Tokens(u.x);
        SamePlaces(x, u.x);
      case Bin(l, op, r) =>
        Weighs(l);
        Weighs(u.l);
        SameSplit(Tokens(l), Tokens(r), op, Tokens(u.l), Tokens(u.r));
        SamePlaces(l, u.l);
        SamePlaces(r, u.r);
      case Link(_, _, _) =>
    }
  }

  // ---- What the parser reads --------------------------------------------------------------------------------

  /** What may come next: an operand, or something after one. */
  datatype Mode = Want | Have | WantWith | AfterIs | AfterIsNot

  function After(m: Mode, tok: Token): Option<Mode> {
    match m
    case Want =>
      if tok == LParen || tok == NotTok || tok == Infix(Sub) then Some(Want)
      else if tok.Lit? || tok.Ident? || tok == NullTok || tok == MinMagnitude || tok == Infix(Mul) then Some(Have)
      else None
    case Have =>
      if tok == RParen || tok == Eof then Some(Have)
      else if tok == IsTok then Some(AfterIs)
      else if tok.Infix? then Some(if NeedsWith(tok.op) then WantWith else Want)
      else None
    case WantWith => if tok == With then Some(Want) else None
    case AfterIs => if tok == NotTok then Some(AfterIsNot) else if tok == NullTok then Some(Have) else None
    case AfterIsNot => if tok == NullTok then Some(Have) else None
  }

  /** Operands and operators alternate; there is no plus as a prefix. */
  predicate Aligned(ts: seq<Token>, m: Mode) {
    ts == [] || (After(m, ts[0]).Some? && Aligned(ts[1..], After(m, ts[0]).value))
  }

  lemma AlignedAfter(tok: Token, ts: seq<Token>, m: Mode)
    requires After(m, tok).Some?
    ensures Aligned([tok] + ts, m) <==> Aligned(ts, After(m, tok).value)
  {
    assert ([tok] + ts)[1..] == ts;
  }

  lemma AlignedOp(op: Op, more: seq<Token>)
    ensures Aligned(OpTokens(op) + more, Have) <==> Aligned(more, Want)
  {
    if NeedsWith(op) {
      assert OpTokens(op) + more == [Infix(op)] + ([With] + more);
      AlignedAfter(Infix(op), [With] + more, Have);
      AlignedAfter(With, more, WantWith);
    } else {
      AlignedAfter(Infix(op), more, Have);
    }
  }

  lemma AlignedTest(negated: bool, more: seq<Token>)
    ensures Aligned(NullTokens(negated) + more, Have) <==> Aligned(more, Have)
  {
    if negated {
      assert NullTokens(negated) + more == [IsTok] + ([NotTok] + ([NullTok] + more));
      AlignedAfter(IsTok, [NotTok] + ([NullTok] + more), Have);
      AlignedAfter(NotTok, [NullTok] + more, AfterIs);
      AlignedAfter(NullTok, more, AfterIsNot);
    } else {
      assert NullTokens(negated) + more == [IsTok] + ([NullTok] + more);
      AlignedAfter(IsTok, [NullTok] + more, Have);
      AlignedAfter(NullTok, more, AfterIs);
    }
  }

  lemma AlignedAtom(e: Expr, more: seq<Token>)
    requires Atom(e) && !e.PatternExists?
    ensures Aligned(AtomTokens(e) + more, Want) <==> Aligned(more, Have)
  {
    if e.MinInt? {
      assert AtomTokens(e) + more == [Infix(Sub)] + ([MinMagnitude] + more);
      AlignedAfter(Infix(Sub), [MinMagnitude] + more, Want);
      AlignedAfter(MinMagnitude, more, Want);
    } else {
      AlignedAfter(AtomTokens(e)[0], more, Want);
    }
  }

  lemma {:induction false} TreeAligned(t: Tree, rest: seq<Token>)
    requires Proper(t) && Patternless(t) && Aligned(rest, Have)
    ensures Aligned(Tokens(t) + rest, Want)
    decreases Size(t), 1
  {
    hide Aligned, OpTokens, NullTokens, AtomTokens;
    match t
    case Leaf(e) => AlignedAtom(e, rest);
    case Neg(x) => TreeAligned(x, rest); Assoc([Infix(Sub)], Tokens(x), rest); AlignedAfter(Infix(Sub), Tokens(x) + rest, Want);
    case Inv(x) => TreeAligned(x, rest); Assoc([NotTok], Tokens(x), rest); AlignedAfter(NotTok, Tokens(x) + rest, Want);
    case Test(x, negated) =>
      AlignedTest(negated, rest);
      TreeAligned(x, NullTokens(negated) + rest);
      Assoc(Tokens(x), NullTokens(negated), rest);
    case Paren(x) =>
      AlignedAfter(RParen, rest, Have);
      TreeAligned(x, [RParen] + rest);
      AlignedAfter(LParen, Tokens(x) + ([RParen] + rest), Want);
      assert Tokens(t) + rest == [LParen] + (Tokens(x) + ([RParen] + rest));
    case Bin(l, op, r) => JoinedAligned(l, op, r, rest);
    case Link(l, op, r) => JoinedAligned(l, op, r, rest);
  }

  lemma {:induction false} JoinedAligned(l: Tree, op: Op, r: Tree, rest: seq<Token>)
    requires Proper(l) && Proper(r) && Patternless(l) && Patternless(r) && Aligned(rest, Have)
    ensures Aligned(Tokens(l) + OpTokens(op) + Tokens(r) + rest, Want)
    decreases Size(l) + Size(r) + 1, 0
  {
    hide Aligned, OpTokens, Tokens;
    TreeAligned(r, rest);
    AlignedOp(op, Tokens(r) + rest);
    TreeAligned(l, OpTokens(op) + (Tokens(r) + rest));
    assert Tokens(l) + OpTokens(op) + Tokens(r) + rest == Tokens(l) + (OpTokens(op) + (Tokens(r) + rest));
  }

  /** The tree accounts for what was read, and no null test is left over. */
  ghost predicate Accounts(t: Tree, ts: seq<Token>, p: Parsed) {
    Proper(t) && Meaning(t) == p.expr && ts == Tokens(t) + p.rest && Aligned(p.rest, Have) && Clear(t, p.rest) && Patternless(t)
  }

  ghost predicate FitsIfFree(t: Tree, minBp: nat, f: nat) { LinkFree(t) ==> Fits(t, minBp, f) }

  lemma TakeOp(ts: seq<Token>, op: Op)
    requires Aligned(ts, Have) && PeekInfix(ts) == Some(op)
    ensures ts == OpTokens(op) + AfterOp(ts, op) && Aligned(AfterOp(ts, op), Want)
  {
    var more := AfterOp(ts, op);
    if NeedsWith(op) { assert ts[1..] == [With] + more; }
    assert ts == OpTokens(op) + more;
    AlignedOp(op, more);
  }

  lemma {:induction false} TestsKeep(lhs: Expr, ts: seq<Token>)
    requires ParseNullTests(lhs, ts).Ok? && PatternFree(ParseNullTests(lhs, ts).value.expr)
    ensures PatternFree(lhs)
    decreases |ts|
  {
    if Head(ts) == IsTok {
      if Head(ts[1..]) == NotTok { TestsKeep(NullTest(lhs, true), ts[3..]); } else { TestsKeep(NullTest(lhs, false), ts[2..]); }
    }
  }

  lemma {:induction false} ChainKeeps(combined: Expr, left: Expr, ts: seq<Token>)
    requires ParseChain(combined, left, ts).Ok? && PatternFree(ParseChain(combined, left, ts).value.expr)
    ensures PatternFree(combined)
    decreases |ts|
  {
    hide ParseBp, PeekInfix, AfterOp;
    var op := PeekInfix(ts);
    if op.Some? && Chainable(op.value) {
      var rhs := ParseBp(AfterOp(ts, op.value), Bp(op.value) + 1).value;
      ChainKeeps(Binary(combined, And, Binary(left, op.value, rhs.expr)), rhs.expr, rhs.rest);
    }
  }

  /** What the loop returns holds everything it was given. */
  lemma {:induction false} InfixKeeps(lhs: Expr, ts: seq<Token>, minBp: nat)
    requires ParseInfix(lhs, ts, minBp).Ok? && PatternFree(ParseInfix(lhs, ts, minBp).value.expr)
    ensures PatternFree(lhs)
    decreases |ts|, 1
  {
    hide ParseBp, PeekInfix, AfterOp, ParseChain;
    var op := PeekInfix(ts);
    if op.Some? && Bp(op.value) >= minBp { RightIsFree(lhs, ts, minBp); }
  }

  lemma {:induction false} RightIsFree(lhs: Expr, ts: seq<Token>, minBp: nat)
    requires ParseInfix(lhs, ts, minBp).Ok? && PatternFree(ParseInfix(lhs, ts, minBp).value.expr)
    requires PeekInfix(ts).Some? && Bp(PeekInfix(ts).value) >= minBp
    ensures var op := PeekInfix(ts).value;
            var rhs := ParseBp(AfterOp(ts, op), Bp(op) + 1);
            && rhs.Ok? && PatternFree(lhs) && PatternFree(rhs.value.expr)
    decreases |ts|, 0
  {
    hide ParseBp, PeekInfix, AfterOp, ParseChain;
    var op := PeekInfix(ts).value;
    var rhs := ParseBp(AfterOp(ts, op), Bp(op) + 1).value;
    var first := Binary(lhs, op, rhs.expr);
    if Chainable(op) {
      var chain := ParseChain(first, rhs.expr, rhs.rest).value;
      InfixKeeps(chain.expr, chain.rest, minBp);
      ChainKeeps(first, rhs.expr, rhs.rest);
    } else {
      InfixKeeps(first, rhs.rest, minBp);
    }
  }

  lemma LinkIsFree(combined: Expr, left: Expr, ts: seq<Token>)
    requires ParseChain(combined, left, ts).Ok? && PatternFree(ParseChain(combined, left, ts).value.expr)
    requires PeekInfix(ts).Some? && Chainable(PeekInfix(ts).value)
    ensures var op := PeekInfix(ts).value;
            var rhs := ParseBp(AfterOp(ts, op), Bp(op) + 1);
            rhs.Ok? && PatternFree(rhs.value.expr)
  {
    hide ParseBp, PeekInfix, AfterOp;
    var op := PeekInfix(ts).value;
    var rhs := ParseBp(AfterOp(ts, op), Bp(op) + 1).value;
    ChainKeeps(Binary(combined, And, Binary(left, op, rhs.expr)), rhs.expr, rhs.rest);
  }

  /** What `parse_expression_bp` returns is a tree that fits, unless it holds a chain. */
  lemma {:induction false} ReadsBp(ts: seq<Token>, minBp: nat) returns (t: Tree)
    requires Aligned(ts, Want) && ParseBp(ts, minBp).Ok? && PatternFree(ParseBp(ts, minBp).value.expr)
    ensures var p := ParseBp(ts, minBp).value;
            && Accounts(t, ts, p) && FitsIfFree(t, minBp, Power(p.rest)) && Head(p.rest) != IsTok
            && (PeekInfix(p.rest).Some? ==> Power(p.rest) < minBp)
    decreases |ts|, 4
  {
    hide ParsePrefix, ParseNullTests, ParseInfix, Aligned, Fits, Tokens, Meaning, Clear, PatternFree, Patternless;
    var p := ParsePrefix(ts).value;
    var q := ParseNullTests(p.expr, p.rest).value;
    InfixKeeps(q.expr, q.rest, minBp);
    TestsKeep(p.expr, p.rest);
    var first := ReadsPrefix(ts, minBp);
    AccountsMeans(first, ts, p);
    var operand := ReadsTests(first, p.rest, minBp);
    t := ReadsInfix(operand, q.rest, minBp);
  }

  lemma {:induction false} ReadsPrefix(ts: seq<Token>, minBp: nat) returns (t: Tree)
    requires Aligned(ts, Want) && ParsePrefix(ts).Ok? && PatternFree(ParsePrefix(ts).value.expr)
    ensures var p := ParsePrefix(ts).value;
            Accounts(t, ts, p) && FitsIfFree(t, minBp, Power(p.rest)) && (Tight(t) || Head(p.rest) != IsTok)
    decreases |ts|, 3
  {
    hide ParseBp, ParsePrimary, Accounts;
    assert ts != [] && ts == [ts[0]] + ts[1..];
    if ts[0] == NotTok {
      var x := ReadsBp(ts[1..], BP_NOT);
      t := Inv(x);
      NotAccounts(x, ts, ParseBp(ts[1..], BP_NOT).value);
    } else if ts[0] == Infix(Sub) {
      if Head(ts[1..]) == MinMagnitude {
        assert ts == AtomTokens(MinInt) + ts[2..];
        t := LeafAccounts(MinInt, ts, ts[2..]);
      } else {
        var x := ReadsBp(ts[1..], BP_PREFIX);
        t := Neg(x);
        NegAccounts(x, ts, ParseBp(ts[1..], BP_PREFIX).value);
      }
    } else {
      t := ReadsPrimary(ts, minBp);
    }
  }

  lemma Prepended(tok: Token, ts: seq<Token>, a: seq<Token>, rest: seq<Token>)
    requires ts != [] && ts[0] == tok && ts[1..] == a + rest
    ensures ts == [tok] + a + rest
  {
    assert ts == [tok] + ts[1..];
  }

  lemma NotAccounts(x: Tree, ts: seq<Token>, p: Parsed)
    requires ts != [] && ts[0] == NotTok && Accounts(x, ts[1..], p)
    ensures Accounts(Inv(x), ts, Parsed(Not(p.expr), p.rest))
  {
    hide Aligned;
    Prepended(NotTok, ts, Tokens(x), p.rest);
    assert Tokens(Inv(x)) == [NotTok] + Tokens(x);
  }

  lemma NegAccounts(x: Tree, ts: seq<Token>, p: Parsed)
    requires ts != [] && ts[0] == Infix(Sub) && Accounts(x, ts[1..], p)
    ensures Accounts(Neg(x), ts, Parsed(Negate(p.expr), p.rest))
  {
    hide Aligned;
    Prepended(Infix(Sub), ts, Tokens(x), p.rest);
    assert Tokens(Neg(x)) == [Infix(Sub)] + Tokens(x);
  }

  lemma LeafAccounts(e: Expr, ts: seq<Token>, rest: seq<Token>) returns (t: Tree)
    requires Atom(e) && !e.PatternExists? && ts == AtomTokens(e) + rest && Aligned(ts, Want)
    ensures Accounts(t, ts, Parsed(e, rest)) && t == Leaf(e)
  {
    AlignedAtom(e, rest);
    t := Leaf(e);
  }

  lemma {:induction false} ReadsPrimary(ts: seq<Token>, minBp: nat) returns (t: Tree)
    requires Aligned(ts, Want) && ParsePrimary(ts).Ok? && PatternFree(ParsePrimary(ts).value.expr)
    ensures var p := ParsePrimary(ts).value; Accounts(t, ts, p) && FitsIfFree(t, minBp, Power(p.rest)) && Tight(t)
    decreases |ts|, 2
  {
    hide ParseBp, Accounts, PatternAt;
    assert ts != [] && ts == [ts[0]] + ts[1..];
    if ts[0] == LParen {
      assert PatternAt(ts).None?;
      var p := ParseBp(ts[1..], 0).value;
      var x := ReadsBp(ts[1..], 0);
      t := Paren(x);
      ParenAccounts(x, ts, p);
    } else {
      var e := ParsePrimary(ts).value.expr;
      OneToken(e, ts);
      t := LeafAccounts(e, ts, ts[1..]);
    }
  }

  lemma OneToken(e: Expr, ts: seq<Token>)
    requires Atom(e) && !e.MinInt? && !e.PatternExists? && ts != [] && [ts[0]] == AtomTokens(e)
    ensures ts == AtomTokens(e) + ts[1..]
  {
  }

  lemma ParenAccounts(x: Tree, ts: seq<Token>, p: Parsed)
    requires ts != [] && ts[0] == LParen && Accounts(x, ts[1..], p) && Head(p.rest) == RParen && PatternAt(ts).None?
    requires FitsIfFree(x, 0, Power(p.rest))
    ensures Accounts(Paren(x), ts, Parsed(p.expr, p.rest[1..])) && FitsIfFree(Paren(x), 0, 0)
  {
    hide Aligned, PatternAt, PeekInfix;
    var rest := p.rest[1..];
    assert p.rest == [RParen] + rest;
    NoOperator(p.rest);
    AlignedAfter(RParen, rest, Have);
    Prepended(LParen, ts, Tokens(x), p.rest);
    Assoc([LParen] + Tokens(x), [RParen], rest);
    assert Tokens(Paren(x)) == [LParen] + Tokens(x) + [RParen];
  }

  lemma NoOperator(rest: seq<Token>)
    requires Head(rest) == RParen
    ensures PeekInfix(rest).None?
  {
  }

  lemma {:induction false} ReadsTests(t1: Tree, ts: seq<Token>, minBp: nat) returns (t: Tree)
    requires Proper(t1) && Aligned(ts, Have) && (Tight(t1) || Head(ts) != IsTok) && ParseNullTests(Meaning(t1), ts).Ok? && Clear(t1, ts) && Patternless(t1)
    requires FitsIfFree(t1, minBp, Power(ts))
    ensures var q := ParseNullTests(Meaning(t1), ts).value;
            Accounts(t, Tokens(t1) + ts, q) && FitsIfFree(t, minBp, Power(q.rest)) && Head(q.rest) != IsTok
    decreases |ts|
  {
    hide Fits, PeekInfix;
    if Head(ts) != IsTok {
      t := t1;
    } else {
      var negated := Head(ts[1..]) == NotTok;
      var n := |NullTokens(negated)|;
      var more := ts[n..];
      TestSplits(ts, negated);
      AlignedTest(negated, more);
      Assoc(Tokens(t1), NullTokens(negated), more);
      if LinkFree(t1) { TightTestFits(t1, negated, minBp, Power(ts), Power(more)); }
      t := ReadsTests(Test(t1, negated), more, minBp);
    }
  }

  lemma TestSplits(ts: seq<Token>, negated: bool)
    requires Head(ts) == IsTok && (if negated then Head(ts[1..]) == NotTok && Head(ts[2..]) == NullTok else Head(ts[1..]) == NullTok)
    ensures |ts| >= |NullTokens(negated)| && ts == NullTokens(negated) + ts[|NullTokens(negated)|..]
  {
    assert ts[0] == IsTok && ts[1] == ts[1..][0];
    if negated { assert ts[2] == ts[2..][0]; }
  }

  lemma TightTestFits(t: Tree, negated: bool, minBp: nat, f: nat, g: nat)
    requires Tight(t) && Fits(t, minBp, f)
    ensures Fits(Test(t, negated), minBp, g)
  {
    TightBelow(t, minBp, f);
    TightAnywhere(t, minBp, g);
  }

  lemma {:induction false} ReadsInfix(t1: Tree, ts: seq<Token>, minBp: nat) returns (t: Tree)
    requires Proper(t1) && Aligned(ts, Have) && Head(ts) != IsTok && ParseInfix(Meaning(t1), ts, minBp).Ok?
    requires Clear(t1, ts) && Patternless(t1) && PatternFree(ParseInfix(Meaning(t1), ts, minBp).value.expr)
    requires FitsIfFree(t1, minBp, Power(ts))
    ensures var q := ParseInfix(Meaning(t1), ts, minBp).value;
            && Accounts(t, Tokens(t1) + ts, q) && FitsIfFree(t, minBp, Power(q.rest)) && Head(q.rest) != IsTok
            && (PeekInfix(q.rest).Some? ==> Power(q.rest) < minBp)
    decreases |ts|, 1
  {
    hide ParseBp, ParseChain, Accounts, Aligned, AfterOp, PeekInfix, Clear, PatternFree, Patternless;
    var op := PeekInfix(ts);
    if op.None? || Bp(op.value) < minBp {
      t := t1;
      Nothing(t1, ts);
    } else {
      var more := AfterOp(ts, op.value);
      TakeOp(ts, op.value);
      var p := ParseBp(more, Bp(op.value) + 1).value;
      RightIsFree(Meaning(t1), ts, minBp);
      var r := ReadsBp(more, Bp(op.value) + 1);
      var b := Bin(t1, op.value, r);
      BinAccounts(t1, ts, op.value, r, p);
      if Chainable(op.value) {
        var chain := ParseChain(Meaning(b), p.expr, p.rest).value;
        InfixKeeps(chain.expr, chain.rest, minBp);
        if Power(p.rest) < 40 { BinFits(t1, ts, op.value, r, minBp, Power(p.rest)); }
        var c := ReadsChain(b, p.rest, minBp);
        AccountsMeans(c, Tokens(b) + p.rest, chain);
        t := ReadsInfix(c, chain.rest, minBp);
      } else {
        BinFits(t1, ts, op.value, r, minBp, Power(p.rest));
        t := ReadsInfix(b, p.rest, minBp);
      }
    }
  }

  lemma Nothing(t: Tree, ts: seq<Token>)
    requires Proper(t) && Aligned(ts, Have) && Clear(t, ts) && Patternless(t)
    ensures Accounts(t, Tokens(t) + ts, Parsed(Meaning(t), ts))
  {
  }

  lemma AccountsMeans(t: Tree, ts: seq<Token>, p: Parsed)
    requires Accounts(t, ts, p)
    ensures Proper(t) && Meaning(t) == p.expr && ts == Tokens(t) + p.rest && Aligned(p.rest, Have) && Clear(t, p.rest) && Patternless(t)
  {
  }

  lemma Rejoined(a: seq<Token>, b: seq<Token>, c: seq<Token>, d: seq<Token>)
    ensures a + b + c + d == a + (b + (c + d))
  {
  }

  lemma BinAccounts(l: Tree, ts: seq<Token>, op: Op, r: Tree, p: Parsed)
    requires Proper(l) && Aligned(ts, Have) && PeekInfix(ts) == Some(op) && Accounts(r, AfterOp(ts, op), p) && Clear(l, ts) && Patternless(l)
    ensures Proper(Bin(l, op, r)) && Meaning(Bin(l, op, r)) == Binary(Meaning(l), op, p.expr)
    ensures Tokens(Bin(l, op, r)) + p.rest == Tokens(l) + ts && Aligned(p.rest, Have) && Proper(r) && Meaning(r) == p.expr
    ensures Clear(Bin(l, op, r), p.rest) && Patternless(Bin(l, op, r))
  {
    hide Aligned, PeekInfix, AfterOp, OpTokens, Chainable;
    TakeOp(ts, op);
    Rejoined(Tokens(l), OpTokens(op), Tokens(r), p.rest);
  }

  lemma BinFits(l: Tree, ts: seq<Token>, op: Op, r: Tree, minBp: nat, f: nat)
    requires FitsIfFree(l, minBp, Power(ts)) && PeekInfix(ts) == Some(op) && minBp <= Bp(op)
    requires FitsIfFree(r, Bp(op) + 1, f) && !Absorbs(op, f)
    ensures FitsIfFree(Bin(l, op, r), minBp, f)
  {
  }

  /** The chain loop: it goes on with comparisons and stops below them. */
  lemma {:induction false} ReadsChain(t1: Tree, ts: seq<Token>, minBp: nat) returns (t: Tree)
    requires Proper(t1) && (t1.Link? || (t1.Bin? && Chainable(t1.op))) && Aligned(ts, Have) && Head(ts) != IsTok && Power(ts) <= 40
    requires Clear(t1, ts) && Patternless(t1) && ParseChain(Meaning(t1), Meaning(t1.r), ts).Ok? && PatternFree(ParseChain(Meaning(t1), Meaning(t1.r), ts).value.expr)
    requires (Power(ts) < 40 ==> FitsIfFree(t1, minBp, Power(ts)))
    ensures var q := ParseChain(Meaning(t1), Meaning(t1.r), ts).value;
            && Accounts(t, Tokens(t1) + ts, q) && FitsIfFree(t, minBp, Power(q.rest)) && Head(q.rest) != IsTok
    decreases |ts|, 0
  {
    hide ParseBp, Accounts, Aligned, AfterOp, PeekInfix, Clear, PatternFree, Patternless;
    var op := PeekInfix(ts);
    if op.None? || !Chainable(op.value) {
      t := t1;
      Nothing(t1, ts);
    } else {
      var more := AfterOp(ts, op.value);
      TakeOp(ts, op.value);
      var p := ParseBp(more, Bp(op.value) + 1).value;
      LinkIsFree(Meaning(t1), Meaning(t1.r), ts);
      var r := ReadsBp(more, Bp(op.value) + 1);
      LinkAccounts(t1, ts, op.value, r, p);
      t := ReadsChain(Link(t1, op.value, r), p.rest, minBp);
    }
  }

  lemma LinkAccounts(l: Tree, ts: seq<Token>, op: Op, r: Tree, p: Parsed)
    requires Proper(l) && (l.Link? || (l.Bin? && Chainable(l.op))) && Chainable(op)
    requires Aligned(ts, Have) && PeekInfix(ts) == Some(op) && Accounts(r, AfterOp(ts, op), p) && Clear(l, ts) && Patternless(l)
    ensures var t := Link(l, op, r);
            && Proper(t) && Meaning(t) == Binary(Meaning(l), And, Binary(Meaning(l.r), op, p.expr))
            && Tokens(t) + p.rest == Tokens(l) + ts && Aligned(p.rest, Have) && Meaning(t.r) == p.expr && Clear(t, p.rest) && Patternless(t)
  {
    hide Aligned, PeekInfix, AfterOp, OpTokens, Chainable;
    TakeOp(ts, op);
    Rejoined(Tokens(l), OpTokens(op), Tokens(r), p.rest);
  }

  // ---- Exactly when parentheses suffice --------------------------------------------------------------------------

  /**
   * However an expression is parenthesised, the parser reads it as meant exactly when the tree fits and none of its
   * parentheses starts a pattern.
   */
  lemma ReadAsMeantIff(t: Tree)
    requires Proper(t) && LinkFree(t) && Patternless(t)
    ensures ParseBp(Tokens(t) + [Eof], 0) == Ok(Parsed(Meaning(t), [Eof])) <==> Fits(t, 0, 0) && Clear(t, [Eof])
  {
    hide ParseBp, Tokens, Meaning, Fits, Clear;
    if Fits(t, 0, 0) && Clear(t, [Eof]) {
      FitsReads(t, 0, 0, [Eof]);
      InfixStops(Meaning(t), [Eof], 0);
    }
    if ParseBp(Tokens(t) + [Eof], 0) == Ok(Parsed(Meaning(t), [Eof])) {
      assert Aligned([Eof], Have) by { AlignedAfter(Eof, [], Have); assert [Eof] + [] == [Eof]; }
      TreeAligned(t, [Eof]);
      MeaningFree(t);
      var u := ReadsBp(Tokens(t) + [Eof], 0);
      SameEnd(Tokens(t), Tokens(u));
      Weighs(t);
      Weighs(u);
      SamePlaces(t, u);
    }
  }

  /** Between two identifiers in parentheses a dash is a relationship, not a subtraction. */
  lemma SubtractionReadAsPattern(a: nat, b: nat)
    ensures var t := Bin(Paren(Leaf(Variable(a))), Sub, Paren(Leaf(Variable(b))));
            && Proper(t) && Fits(t, 0, 0) && !Clear(t, [Eof])
            && ParseBp(Tokens(t) + [Eof], 0) == Ok(Parsed(PatternExists(Some(a), Some(b), []), [Eof]))
  {
    hide ParseBp, ParseInfix, PatternAt, ParseNullTests, Proper, Fits, Clear, Tokens;
    var e := PatternExists(Some(a), Some(b), []);
    var ts := [LParen, Ident(a), RParen, Infix(Sub), LParen, Ident(b), RParen, Eof];
    TwoBare(a, b);
    TwoNodes(a, b, ts);
    assert ParsePrimary(ts) == Ok(Parsed(e, [Eof]));
    NoNullTest(e, [Eof]);
    OperandThenInfix(ts, e, [Eof], 0);
    InfixStops(e, [Eof], 0);
  }

  lemma TwoBare(a: nat, b: nat)
    ensures var t := Bin(Paren(Leaf(Variable(a))), Sub, Paren(Leaf(Variable(b))));
            var ts := [LParen, Ident(a), RParen, Infix(Sub), LParen, Ident(b), RParen, Eof];
            && Proper(t) && Fits(t, 0, 0) && Tokens(t) + [Eof] == ts && (Clear(t, [Eof]) ==> PatternAt(ts).None?)
  {
    hide PatternAt;
    var l, r := Paren(Leaf(Variable(a))), Paren(Leaf(Variable(b)));
    var ts := [LParen, Ident(a), RParen, Infix(Sub), LParen, Ident(b), RParen, Eof];
    assert Proper(l) && Proper(r) && Fits(l, 0, 50) && Fits(r, 51, 0);
    assert Tokens(l) == [LParen, Ident(a), RParen] && Tokens(r) == [LParen, Ident(b), RParen];
    BinMeans(l, Sub, r);
    var rest := OpTokens(Sub) + (Tokens(r) + [Eof]);
    assert Tokens(l) + rest == ts;
    assert Clear(Bin(l, Sub, r), [Eof]) ==> Clear(l, rest);
    assert Clear(l, rest) ==> PatternAt(Tokens(l) + rest).None?;
  }

  lemma TwoNodes(a: nat, b: nat, ts: seq<Token>)
    requires ts == [LParen, Ident(a), RParen, Infix(Sub), LParen, Ident(b), RParen, Eof]
    ensures PatternAt(ts) == Some(Found([Some(a), Some(b)], [Eof]))
  {
    assert ts[3..] == [Infix(Sub), LParen, Ident(b), RParen, Eof];
    assert ts[3..][1..] == ts[4..] == [LParen, Ident(b), RParen, Eof];
    assert ts[4..][1..] == ts[5..] && ts[4..][2..] == ts[6..] && ts[4..][3..] == [Eof];
    assert ParseNode(ts) == Some((Some(a), ts[3..])) && ParseNode(ts[4..]) == Some((Some(b), [Eof]));
    assert AfterDashes(ts[3..]) == ts[4..];
    assert [Some(a)] + [Some(b)] == [Some(a), Some(b)];
    assert ParseHops([Some(a), Some(b)], [Eof]) == Some(Found([Some(a), Some(b)], [Eof]));
  }

  lemma SameEnd(a: seq<Token>, b: seq<Token>)
    requires a + [Eof] == b + [Eof]
    ensures a == b
  {
    assert a == (a + [Eof])[..|a|] && b == (b + [Eof])[..|b|];
  }

  lemma {:induction false} FreeIsPatternless(t: Tree)
    requires Proper(t) && LinkFree(t) && PatternFree(Meaning(t))
    ensures Patternless(t)
  {
    match t
    case Leaf(_) =>
    case Neg(x) => FreeIsPatternless(x);
    case Inv(x) => FreeIsPatternless(x);
    case Test(x, _) => FreeIsPatternless(x);
    case Paren(x) => FreeIsPatternless(x);
    case Bin(l, _, r) => FreeIsPatternless(l); FreeIsPatternless(r);
    case Link(_, _, _) =>
  }

  lemma {:induction false} PatternlessIsSafe(t: Tree, dash: bool)
    requires Patternless(t)
    ensures DashSafe(t, dash)
    decreases t
  {
    match t
    case Leaf(_) =>
    case Neg(x) => PatternlessIsSafe(x, dash);
    case Inv(x) => PatternlessIsSafe(x, dash);
    case Test(x, _) => PatternlessIsSafe(x, false);
    case Paren(x) => PatternlessIsSafe(x, false);
    case Bin(l, op, r) => PatternlessIsSafe(l, op == Sub); PatternlessIsSafe(r, dash);
    case Link(l, op, r) => PatternlessIsSafe(l, op == Sub); PatternlessIsSafe(r, dash);
  }

  /** The rendering is minimal: without any one of its pairs of parentheses it is not read as the same expression. */
  lemma RenderIsMinimal(e: Expr, u: Tree)
    requires PatternFree(e) && Drops(Minimal(e, 0, 0, false), u)
    ensures Proper(u) && ParseBp(Tokens(u) + [Eof], 0) != Ok(Parsed(e, [Eof]))
  {
    hide ParseBp, Tokens, Minimal, Fits, Drops, Clear;
    MinimalMeans(e, 0, 0, false);
    DropKeeps(Minimal(e, 0, 0, false), u);
    DropUnfits(e, 0, 0, false, u);
    FreeIsPatternless(u);
    PatternlessIsSafe(u, false);
    ReadAsMeantIff(u);
  }

  // ---- Comparison chains ----------------------------------------------------------------------------

  /** A further comparison of a chain. */
  datatype Step = Step(op: Op, operand: Expr)

  ghost predicate Comparisons(links: seq<Step>) { forall i :: 0 <= i < |links| ==> Chainable(links[i].op) }

  /** An operand between comparisons. */
  function Operand(e: Expr): seq<Token> {
    MinimalMeans(e, 41, 40, false);
    Tokens(Minimal(e, 41, 40, false))
  }

  function ChainTokens(links: seq<Step>): seq<Token> {
    if links == [] then [] else OpTokens(links[0].op) + Operand(links[0].operand) + ChainTokens(links[1..])
  }

  /** The conjunction of the adjacent pairs, joined to the left. */
  function Pairs(combined: Expr, left: Expr, links: seq<Step>): Expr
    decreases |links|
  {
    if links == [] then combined
    else Pairs(Binary(combined, And, Binary(left, links[0].op, links[0].operand)), links[0].operand, links[1..])
  }

  lemma OperandReads(e: Expr, rest: seq<Token>, minBp: nat)
    requires Outside(rest, 40) && minBp <= 41
    ensures ParseBp(Operand(e) + rest, minBp) == ParseInfix(e, rest, minBp)
  {
    hide ParseBp, ParseInfix, Minimal, Tokens, Fits, Clear, NoBare, DashSafe;
    var t := Minimal(e, 41, 40, false);
    MinimalMeans(e, 41, 40, false);
    FitsLess(t, 41, 40, minBp, 40);
    NoBareClear(t, false, rest);
    FitsReads(t, minBp, 40, rest);
  }

  lemma {:induction false} ChainParses(combined: Expr, left: Expr, links: seq<Step>, rest: seq<Token>)
    requires Comparisons(links) && Outside(rest, 39)
    ensures ParseChain(combined, left, ChainTokens(links) + rest) == Ok(Parsed(Pairs(combined, left, links), rest))
    decreases |links|
  {
    hide ParseBp, Operand;
    if links == [] {
      assert ChainTokens(links) + rest == rest;
      ChainStops(combined, left, rest);
    } else {
      var op, x, more := links[0].op, links[0].operand, ChainTokens(links[1..]) + rest;
      assert ChainTokens(links) + rest == OpTokens(op) + (Operand(x) + more);
      OpHead(op, Operand(x) + more);
      OperandOfChain(x, links[1..], rest);
      ChainParses(Binary(combined, And, Binary(left, op, x)), x, links[1..], rest);
    }
  }

  /** An operand of a chain ends where the next comparison or the rest begins. */
  lemma OperandOfChain(x: Expr, links: seq<Step>, rest: seq<Token>)
    requires Comparisons(links) && Outside(rest, 39)
    ensures ParseBp(Operand(x) + (ChainTokens(links) + rest), 41) == Ok(Parsed(x, ChainTokens(links) + rest))
  {
    hide ParseBp, Operand;
    var more := ChainTokens(links) + rest;
    if links == [] {
      assert more == rest;
    } else {
      assert more == OpTokens(links[0].op) + (Operand(links[0].operand) + ChainTokens(links[1..]) + rest);
      OpHead(links[0].op, Operand(links[0].operand) + ChainTokens(links[1..]) + rest);
    }
    OperandReads(x, more, 41);
    InfixStops(x, more, 41);
  }

  /** An unparenthesised chain of comparisons means the conjunction of its adjacent pairs. */
  lemma ChainMeansPairs(first: Expr, op: Op, second: Expr, links: seq<Step>)
    requires Chainable(op) && Comparisons(links)
    ensures ParseBp(Operand(first) + OpTokens(op) + Operand(second) + ChainTokens(links) + [Eof], 0)
         == Ok(Parsed(Pairs(Binary(first, op, second), second, links), [Eof]))
  {
    hide ParseBp, Operand, ParseInfix, ChainTokens, Pairs;
    var more := ChainTokens(links) + [Eof];
    var ts := OpTokens(op) + (Operand(second) + more);
    assert Operand(first) + OpTokens(op) + Operand(second) + ChainTokens(links) + [Eof] == Operand(first) + ts;
    OpHead(op, Operand(second) + more);
    OperandReads(first, ts, 0);
    InfixTakesChain(first, op, second, links, [Eof], 0);
    InfixStops(Pairs(Binary(first, op, second), second, links), [Eof], 0);
  }

  lemma InfixTakesChain(first: Expr, op: Op, second: Expr, links: seq<Step>, rest: seq<Token>, minBp: nat)
    requires Chainable(op) && Comparisons(links) && Outside(rest, 39) && minBp <= 40
    ensures ParseInfix(first, OpTokens(op) + (Operand(second) + (ChainTokens(links) + rest)), minBp)
         == ParseInfix(Pairs(Binary(first, op, second), second, links), rest, minBp)
  {
    hide ParseBp, Operand, ParseChain, ChainTokens, Pairs, Comparisons, Outside;
    OpHead(op, Operand(second) + (ChainTokens(links) + rest));
    OperandOfChain(second, links, rest);
    ChainParses(Binary(first, op, second), second, links, rest);
  }

  // ---- The token parser on a rendering -----------------------------------------------------------------------

  lemma {:induction false} HopsNoEof(nodes: seq<Option<nat>>)
    ensures Eof !in HopTokens(nodes)
  {
    if nodes != [] { HopsNoEof(nodes[1..]); }
  }

  lemma {:induction false} NoEof(t: Tree)
    requires Proper(t)
    ensures Eof !in Tokens(t)
  {
    match t
    case Leaf(e) => if e.PatternExists? { HopsNoEof([e.second] + e.more); }
    case Neg(x) => NoEof(x);
    case Inv(x) => NoEof(x);
    case Test(x, _) => NoEof(x);
    case Paren(x) => NoEof(x);
    case Bin(l, _, r) => NoEof(l); NoEof(r);
    case Link(l, _, r) => NoEof(l); NoEof(r);
  }

  lemma PriceAfter(tok: Token, ts: seq<Token>)
    requires tok != LParen
    ensures Price([tok] + ts) == 1 + Price(ts)
  {
    assert ([tok] + ts)[1..] == ts;
  }

  lemma {:induction false} PriceFlat(a: seq<Token>, ts: seq<Token>)
    requires LParen !in a
    ensures Price(a + ts) == |a| + Price(ts)
  {
    if a == [] {
      assert a + ts == ts;
    } else {
      assert a + ts == [a[0]] + (a[1..] + ts);
      PriceAfter(a[0], a[1..] + ts);
      PriceFlat(a[1..], ts);
    }
  }

  lemma {:induction false} HopsCost(nodes: seq<Option<nat>>, rest: seq<Token>)
    requires Head(rest) != Infix(Sub)
    ensures HopSteps(HopTokens(nodes) + rest) == |HopTokens(nodes)|
    decreases |nodes|
  {
    hide NodeTokens, ParseNode, NodeSteps;
    var ts := HopTokens(nodes) + rest;
    if nodes == [] {
      assert ts == rest;
    } else {
      var more := NodeTokens(nodes[0]) + (HopTokens(nodes[1..]) + rest);
      assert ts == [Infix(Sub)] + more && ts[1..] == more;
      NodeReads(nodes[0], HopTokens(nodes[1..]) + rest);
      assert AfterDashes(ts) == more;
      HopsCost(nodes[1..], rest);
    }
  }

  /** A pattern that is meant costs a step per token. */
  lemma PriceOfPattern(e: Expr, rest: seq<Token>)
    requires e.PatternExists? && Head(rest) != Infix(Sub)
    ensures Price(AtomTokens(e) + rest) == |AtomTokens(e)| + Price(rest)
  {
    hide NodeTokens, HopTokens, PatternAt, HopSteps, ParseNode, NodeSteps;
    var nodes := [e.second] + e.more;
    PatternReads(e, rest);
    Assoc(NodeTokens(e.first), HopTokens(nodes), rest);
    NodeReads(e.first, HopTokens(nodes) + rest);
    HopsCost(nodes, rest);
    assert PatternSteps(AtomTokens(e) + rest) == |AtomTokens(e)|;
  }

  /** Without bare identifiers in parentheses every attempt at a pattern that is not meant ends after two tokens. */
  lemma {:induction false} PriceOf(t: Tree, dash: bool, rest: seq<Token>)
    requires Proper(t) && NoBare(t) && DashSafe(t, dash) && (Head(rest) == Infix(Sub) ==> dash)
    ensures Price(Tokens(t) + rest) <= 3 * |Tokens(t)| + Price(rest)
    decreases Size(t), 1
  {
    hide Price, AtomTokens;
    match t
    case Leaf(e) => PriceOfAtom(e, rest);
    case Neg(x) => PriceOf(x, dash, rest); Assoc([Infix(Sub)], Tokens(x), rest); PriceAfter(Infix(Sub), Tokens(x) + rest);
    case Inv(x) => PriceOf(x, dash, rest); Assoc([NotTok], Tokens(x), rest); PriceAfter(NotTok, Tokens(x) + rest);
    case Test(x, negated) =>
      Assoc(Tokens(x), NullTokens(negated), rest);
      PriceOf(x, false, NullTokens(negated) + rest);
      PriceFlat(NullTokens(negated), rest);
    case Paren(x) =>
      PriceOf(x, false, [RParen] + rest);
      PriceOfParen(x, rest);
    case Bin(l, op, r) => PriceJoined(l, op, r, dash, rest);
    case Link(l, op, r) => PriceJoined(l, op, r, dash, rest);
  }

  lemma PriceOfAtom(e: Expr, rest: seq<Token>)
    requires Atom(e) && (e.PatternExists? ==> Head(rest) != Infix(Sub))
    ensures Price(AtomTokens(e) + rest) == |AtomTokens(e)| + Price(rest)
  {
    hide Price;
    if e.PatternExists? { PriceOfPattern(e, rest); } else { PriceFlat(AtomTokens(e), rest); }
  }

  lemma PriceOfParen(x: Tree, rest: seq<Token>)
    requires Proper(x) && !(x.Leaf? && x.e.Variable?)
    ensures Price(Tokens(Paren(x)) + rest) <= 3 + Price(Tokens(x) + ([RParen] + rest)) && Price([RParen] + rest) == 1 + Price(rest)
  {
    hide Price, PatternSteps, PatternAt;
    PriceAfter(RParen, rest);
    NotPattern(x, rest);
    assert Tokens(Paren(x)) + rest == [LParen] + (Tokens(x) + ([RParen] + rest));
    PriceOpen(Tokens(Paren(x)) + rest, Tokens(x) + ([RParen] + rest));
  }

  lemma PriceOpen(ts: seq<Token>, inner: seq<Token>)
    requires ts == [LParen] + inner && PatternAt(ts).None?
    ensures Price(ts) == 1 + PatternSteps(ts) + Price(inner)
  {
    assert ts[1..] == inner;
  }

  lemma {:induction false} PriceJoined(l: Tree, op: Op, r: Tree, dash: bool, rest: seq<Token>)
    requires Proper(l) && Proper(r) && NoBare(l) && NoBare(r) && DashSafe(l, op == Sub) && DashSafe(r, dash)
    requires Head(rest) == Infix(Sub) ==> dash
    ensures Price(Tokens(l) + OpTokens(op) + Tokens(r) + rest) <= 3 * |Tokens(l) + OpTokens(op) + Tokens(r)| + Price(rest)
    decreases Size(l) + Size(r) + 1, 0
  {
    hide Price, NoBare, DashSafe;
    Rejoined(Tokens(l), OpTokens(op), Tokens(r), rest);
    OpHead(op, Tokens(r) + rest);
    PriceOf(l, op == Sub, OpTokens(op) + (Tokens(r) + rest));
    PriceFlat(OpTokens(op), Tokens(r) + rest);
    PriceOf(r, dash, rest);
  }

  lemma RenderIsAffordable(e: Expr)
    ensures Affordable(Render(e) + [Eof])
  {
    hide Price, Minimal, Tokens;
    MinimalMeans(e, 0, 0, false);
    PriceOf(Minimal(e, 0, 0, false), false, [Eof]);
    PriceOfOne();
  }

  // ---- A difference too long for the budget --------------------------------------------------------------

  /** `(a) - (a) - … - 0`: every parenthesis starts an attempt at a pattern that fails only at the end. */
  function Difference(k: nat, a: nat): seq<Token> {
    if k == 0 then [Lit(0), Eof] else [LParen, Ident(a), RParen, Infix(Sub)] + Difference(k - 1, a)
  }

  lemma DifferenceNode(k: nat, a: nat)
    requires k > 0
    ensures var ts, more := Difference(k, a), [Infix(Sub)] + Difference(k - 1, a);
            ParseNode(ts) == Some((Some(a), more)) && NodeSteps(ts) == 3 && ts[0] == LParen
            && ts[1..] == [Ident(a), RParen] + more && AfterDashes(more) == Difference(k - 1, a)
  {
    var ts, more := Difference(k, a), [Infix(Sub)] + Difference(k - 1, a);
    assert ts[1..][0] == Ident(a) && ts[2..][0] == RParen && ts[3..] == more;
    assert more[1..] == Difference(k - 1, a) && Head(Difference(k - 1, a)) != Infix(Sub);
  }

  lemma {:induction false} DifferenceHops(front: seq<Option<nat>>, k: nat, a: nat)
    ensures ParseHops(front, [Infix(Sub)] + Difference(k, a)).None? && HopSteps([Infix(Sub)] + Difference(k, a)) == 4 * k + 1
    decreases k
  {
    hide ParseNode, NodeSteps;
    var ts := [Infix(Sub)] + Difference(k, a);
    DifferenceNode(k + 1, a);
    assert ts[1..] == Difference(k, a);
    if k == 0 {
      NoNode();
    } else {
      DifferenceNode(k, a);
      DifferenceHops(front + [Some(a)], k - 1, a);
    }
  }

  lemma NoNode()
    ensures ParseNode([Lit(0), Eof]).None? && NodeSteps([Lit(0), Eof]) == 0
  {
  }

  /** The attempts make its price quadratic. */
  lemma {:induction false} DifferencePrice(k: nat, a: nat)
    ensures Price(Difference(k, a)) == 2 * k * k + 6 * k + 2 && |Difference(k, a)| == 4 * k + 2
    ensures k > 0 ==> PatternAt(Difference(k, a)).None?
    decreases k
  {
    hide ParseNode, NodeSteps, HopSteps, ParseHops, Difference, Price;
    if k == 0 {
      DifferenceEnds(a);
    } else {
      var more := [Infix(Sub)] + Difference(k - 1, a);
      DifferenceNode(k, a);
      DifferenceHops([Some(a)], k - 1, a);
      DifferencePrice(k - 1, a);
      PriceFlat([Ident(a), RParen], more);
      PriceAfter(Infix(Sub), Difference(k - 1, a));
      assert Difference(k, a) == [LParen] + Difference(k, a)[1..];
      PriceOpen(Difference(k, a), Difference(k, a)[1..]);
      assert 2 * k * k + 6 * k + 2 == 2 * (k - 1) * (k - 1) + 6 * (k - 1) + 2 + 4 * k + 4;
    }
  }

  lemma DifferenceEnds(a: nat)
    ensures Price(Difference(0, a)) == 2 && |Difference(0, a)| == 2
  {
    PriceAfter(Lit(0), [Eof]);
    PriceOfOne();
    assert [Lit(0)] + [Eof] == [Lit(0), Eof];
  }

  /** The first `k` operands, joined to the left. */
  function Operands(k: nat, a: nat): Tree
    requires k > 0
  {
    if k == 1 then Paren(Leaf(Variable(a))) else Bin(Operands(k - 1, a), Sub, Paren(Leaf(Variable(a))))
  }

  lemma {:induction false} OperandsFit(k: nat, j: nat, a: nat)
    requires k > 0
    ensures var t, rest := Operands(k, a), [Infix(Sub)] + Difference(j, a);
            Proper(t) && LinkFree(t) && Fits(t, 0, 50) && Clear(t, rest) && Tokens(t) + rest == Difference(k + j, a)
    decreases k
  {
    hide Difference, Proper, LinkFree, Fits, Clear, Tokens;
    BareOperand(j, a);
    if k > 1 {
      OperandsFit(k - 1, j + 1, a);
      AddOperand(Operands(k - 1, a), Paren(Leaf(Variable(a))), [Infix(Sub)] + Difference(j, a));
    }
  }

  lemma BareOperand(j: nat, a: nat)
    ensures var p, rest := Paren(Leaf(Variable(a))), [Infix(Sub)] + Difference(j, a);
            Proper(p) && LinkFree(p) && Fits(p, 0, 50) && Fits(p, 51, 50) && Clear(p, rest) && Tokens(p) + rest == Difference(j + 1, a)
  {
    hide PatternAt, Difference;
    var p := Paren(Leaf(Variable(a)));
    assert Proper(p.x) && Tokens(p) == [LParen, Ident(a), RParen];
    DifferenceStep(j, a);
    DifferencePrice(j + 1, a);
  }

  lemma AddOperand(l: Tree, p: Tree, rest: seq<Token>)
    requires Proper(l) && LinkFree(l) && Fits(l, 0, 50) && Proper(p) && LinkFree(p) && Fits(p, 51, 50) && Clear(p, rest)
    requires Clear(l, [Infix(Sub)] + (Tokens(p) + rest))
    ensures var t := Bin(l, Sub, p);
            Proper(t) && LinkFree(t) && Fits(t, 0, 50) && Clear(t, rest) && Tokens(t) + rest == Tokens(l) + ([Infix(Sub)] + (Tokens(p) + rest))
  {
    hide PatternAt;
    BinMeans(l, Sub, p);
    Rejoined(Tokens(l), OpTokens(Sub), Tokens(p), rest);
  }

  lemma DifferenceStep(j: nat, a: nat)
    ensures [LParen, Ident(a), RParen] + ([Infix(Sub)] + Difference(j, a)) == Difference(j + 1, a)
  {
  }

  /** The grammar reads a difference of any length; the default budget covers it exactly up to 4093 operands in parentheses. */
  lemma LongDifferenceIff(k: nat, a: nat)
    ensures ReadToEnd(Difference(k, a)) && (Affordable(Difference(k, a)) <==> k <= 4093)
  {
    hide ParseBp, Difference, Price, Clear, Fits, Tokens;
    DifferenceReads(k, a);
    DifferencePrice(k, a);
    BudgetFor(k);
  }

  lemma BudgetFor(k: nat)
    ensures 2 * k * k + 6 * k + 2 <= MaxSteps(4 * k + 2) + 1 <==> k <= 4093
  {
    var n := 4 * k + 2;
    assert n * PARSE_STEP_FACTOR == 8192 * k + 4096;
    if k <= 4093 {
      TimesMonotone(2 * k, k, 4093);
    } else {
      TimesMonotone(2 * k, 4094, k);
    }
  }

  lemma DifferenceReads(k: nat, a: nat)
    ensures ReadToEnd(Difference(k, a))
  {
    hide ParseBp, Clear, Fits, PatternAt;
    var zero := Leaf(Literal(0));
    assert Proper(zero) && Tokens(zero) == [Lit(0)];
    if k == 0 {
      assert Difference(0, a) == Tokens(zero) + [Eof];
      ZeroReads(zero);
    } else {
      OperandsFit(k, 0, a);
      var l := Operands(k, a);
      var t := Bin(l, Sub, zero);
      BinMeans(l, Sub, zero);
      assert Tokens(t) + [Eof] == Tokens(l) + ([Infix(Sub)] + Difference(0, a)) by {
        Rejoined(Tokens(l), OpTokens(Sub), Tokens(zero), [Eof]);
        assert OpTokens(Sub) + (Tokens(zero) + [Eof]) == [Infix(Sub)] + Difference(0, a);
      }
      DifferenceFits(l, zero);
      FitsReads(t, 0, 0, [Eof]);
      InfixStops(Meaning(t), [Eof], 0);
    }
  }

  lemma ZeroReads(zero: Tree)
    requires zero == Leaf(Literal(0))
    ensures Proper(zero) && ReadToEnd(Tokens(zero) + [Eof])
  {
    hide ParseBp;
    FitsReads(zero, 0, 0, [Eof]);
    InfixStops(Meaning(zero), [Eof], 0);
  }

  lemma DifferenceFits(l: Tree, zero: Tree)
    requires Proper(l) && LinkFree(l) && Fits(l, 0, 50) && zero == Leaf(Literal(0)) && Clear(l, [Infix(Sub)] + [Lit(0), Eof])
    ensures var t := Bin(l, Sub, zero); Proper(t) && LinkFree(t) && Fits(t, 0, 0) && Clear(t, [Eof])
  {
    assert OpTokens(Sub) + (Tokens(zero) + [Eof]) == [Infix(Sub)] + [Lit(0), Eof];
  }

  /** `parse_expression` on the tokens of a rendering: the tree comes back, within the default budget. */
  method ParseRendering(e: Expr) returns (r: Result<Expr>)
    ensures r == Ok(e)
  {
    hide ParseBp, Minimal, Tokens, Affordable;
    MinimalMeans(e, 0, 0, false);
    NoEof(Minimal(e, 0, 0, false));
    RenderIsAffordable(e);
    ParseRender(e);
    r := ParseExpression(Render(e) + [Eof]);
  }
}
