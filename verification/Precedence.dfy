/** How operators stand to each other, as a ladder of levels, and what the parser makes of operators side by side. */
module Precedence {
  import opened Wrappers
  import opened Parser
  import opened Parentheses

  // ---- The ladder ------------------------------------------------------------------------------------

  /** The level of an operator, loosest first. */
  function Rung(op: Op): nat {
    match op
    case Or => 0
    case Xor => 1
    case And => 2
    case Eq | Ne | Lt | Le | Gt | Ge => 3
    case In | Contains | StartsWith | EndsWith => 4
    case Add | Sub => 5
    case Mul | Div | Mod => 6
    case Pow => 7
  }

  lemma LadderIsPowers(a: Op, b: Op)
    ensures Rung(a) < Rung(b) <==> Bp(a) < Bp(b)
    ensures Rung(a) == 3 <==> Chainable(a)
    ensures Rung(a) < 3 <==> Bp(a) < BP_NOT
    ensures Bp(a) < BP_PREFIX
  {
  }

  /** An operand of one token, or the smallest integer. */
  predicate Simple(e: Expr) { Atom(e) && !e.PatternExists? }

  function Text(e: Expr): seq<Token>
    requires Simple(e)
  {
    match e
    case Literal(n) => [Lit(n)]
    case Variable(n) => [Ident(n)]
    case MinInt => [Infix(Sub), MinMagnitude]
    case NullLit => [NullTok]
    case Star => [Infix(Mul)]
  }

  function Sign(op: Op): seq<Token> { if op.StartsWith? || op.EndsWith? then [Infix(op), With] else [Infix(op)] }

  lemma SignTokens(op: Op)
    ensures Sign(op) == OpTokens(op)
  {
  }

  /** The whole text is read, and as this expression. */
  predicate Reads(ts: seq<Token>, e: Expr) { ParseBp(ts + [Eof], 0) == Ok(Parsed(e, [Eof])) }

  // ---- Trees that are read ------------------------------------------------------------------------------

  /** A tree of simple operands without parentheses that fits its place and stands for `ts` and `e`. */
  ghost predicate Stands(t: Tree, m: nat, f: nat, ts: seq<Token>, e: Expr) {
    Proper(t) && LinkFree(t) && NoBare(t) && Patternless(t) && Fits(t, m, f) && Tokens(t) == ts && Meaning(t) == e
  }

  lemma TreeReads(t: Tree, ts: seq<Token>, e: Expr)
    requires Stands(t, 0, 0, ts, e)
    ensures Reads(ts, e)
  {
    hide ParseBp, Tokens, Meaning, Fits, Clear, LinkFree, Proper, NoBare, Patternless, DashSafe;
    PatternlessIsSafe(t, false);
    NoBareClear(t, false, [Eof]);
    FitsReads(t, 0, 0, [Eof]);
    InfixStops(Meaning(t), [Eof], 0);
  }

  lemma LeafStands(x: Expr, m: nat, f: nat)
    requires Simple(x)
    ensures Stands(Leaf(x), m, f, Text(x), x)
  {
  }

  lemma BinStands(l: Tree, op: Op, r: Tree, m: nat, f: nat, ls: seq<Token>, x: Expr, rs: seq<Token>, y: Expr)
    requires m <= Bp(op) && !Absorbs(op, f) && Stands(l, m, Bp(op), ls, x) && Stands(r, Bp(op) + 1, f, rs, y)
    ensures Stands(Bin(l, op, r), m, f, ls + Sign(op) + rs, Binary(x, op, y))
  {
    hide Bp, Sign;
    SignTokens(op);
  }

  lemma NotStands(t: Tree, m: nat, f: nat, ts: seq<Token>, x: Expr)
    requires f < BP_NOT && Stands(t, BP_NOT, f, ts, x)
    ensures Stands(Inv(t), m, f, [NotTok] + ts, Not(x))
  {
  }

  lemma NegStands(t: Tree, m: nat, f: nat, ts: seq<Token>, x: Expr)
    requires f < BP_PREFIX && Stands(t, BP_PREFIX, f, ts, x)
    ensures Stands(Neg(t), m, f, [Infix(Sub)] + ts, Negate(x))
  {
  }

  lemma TestStands(x: Expr, negated: bool, m: nat, f: nat)
    requires Simple(x)
    ensures Stands(Test(Leaf(x), negated), m, f, Text(x) + NullTokens(negated), NullTest(x, negated))
  {
    LeafStands(x, m, f);
  }

  // ---- Two operators side by side -----------------------------------------------------------------------

  /** `x a y b z`: the operator of the later level takes its operands first, otherwise the left one; comparisons chain. */
  function Grouped(x: Expr, a: Op, y: Expr, b: Op, z: Expr): Expr {
    if Rung(a) < Rung(b) then Binary(x, a, Binary(y, b, z))
    else if Rung(a) == 3 && Rung(b) == 3 then Binary(Binary(x, a, y), And, Binary(y, b, z))
    else Binary(Binary(x, a, y), b, z)
  }

  lemma TwoOperators(x: Expr, a: Op, y: Expr, b: Op, z: Expr)
    requires Simple(x) && Simple(y) && Simple(z)
    ensures Reads(Text(x) + Sign(a) + Text(y) + Sign(b) + Text(z), Grouped(x, a, y, b, z))
  {
    hide ParseBp, Bp, Text, Sign;
    LadderIsPowers(a, b);
    LadderIsPowers(b, a);
    if Rung(a) < Rung(b) {
      RightFirst(x, a, y, b, z);
    } else if Rung(a) == 3 && Rung(b) == 3 {
      Chained(x, a, y, b, z);
    } else {
      LeftFirst(x, a, y, b, z);
    }
  }

  lemma RightFirst(x: Expr, a: Op, y: Expr, b: Op, z: Expr)
    requires Simple(x) && Simple(y) && Simple(z) && Bp(a) < Bp(b)
    ensures Reads(Text(x) + Sign(a) + Text(y) + Sign(b) + Text(z), Binary(x, a, Binary(y, b, z)))
  {
    hide Stands, Reads, Bp, Text, Sign;
    LeafStands(x, 0, Bp(a));
    LeafStands(y, Bp(a) + 1, Bp(b));
    LeafStands(z, Bp(b) + 1, 0);
    BinStands(Leaf(y), b, Leaf(z), Bp(a) + 1, 0, Text(y), y, Text(z), z);
    BinStands(Leaf(x), a, Bin(Leaf(y), b, Leaf(z)), 0, 0, Text(x), x, Text(y) + Sign(b) + Text(z), Binary(y, b, z));
    assert Text(x) + Sign(a) + (Text(y) + Sign(b) + Text(z)) == Text(x) + Sign(a) + Text(y) + Sign(b) + Text(z);
    TreeReads(Bin(Leaf(x), a, Bin(Leaf(y), b, Leaf(z))), Text(x) + Sign(a) + Text(y) + Sign(b) + Text(z), Binary(x, a, Binary(y, b, z)));
  }

  lemma LeftFirst(x: Expr, a: Op, y: Expr, b: Op, z: Expr)
    requires Simple(x) && Simple(y) && Simple(z) && Bp(b) <= Bp(a) && !(Chainable(a) && Bp(a) == Bp(b))
    ensures Reads(Text(x) + Sign(a) + Text(y) + Sign(b) + Text(z), Binary(Binary(x, a, y), b, z))
  {
    hide Stands, Reads, Bp, Text, Sign;
    LeafStands(x, 0, Bp(a));
    LeafStands(y, Bp(a) + 1, Bp(b));
    LeafStands(z, Bp(b) + 1, 0);
    BinStands(Leaf(x), a, Leaf(y), 0, Bp(b), Text(x), x, Text(y), y);
    BinStands(Bin(Leaf(x), a, Leaf(y)), b, Leaf(z), 0, 0, Text(x) + Sign(a) + Text(y), Binary(x, a, y), Text(z), z);
    TreeReads(Bin(Bin(Leaf(x), a, Leaf(y)), b, Leaf(z)), Text(x) + Sign(a) + Text(y) + Sign(b) + Text(z), Binary(Binary(x, a, y), b, z));
  }

  lemma Chained(x: Expr, a: Op, y: Expr, b: Op, z: Expr)
    requires Simple(x) && Simple(y) && Simple(z) && Chainable(a) && Chainable(b)
    ensures Reads(Text(x) + Sign(a) + Text(y) + Sign(b) + Text(z), Binary(Binary(x, a, y), And, Binary(y, b, z)))
  {
    hide ParseBp, Operand, Text, Sign, OpTokens;
    var links := [Step(b, z)];
    SignTokens(a);
    SignTokens(b);
    SimpleOperand(x);
    SimpleOperand(y);
    SimpleOperand(z);
    assert links[1..] == [];
    assert ChainTokens(links) == Sign(b) + Text(z);
    assert Pairs(Binary(x, a, y), y, links) == Binary(Binary(x, a, y), And, Binary(y, b, z));
    ChainMeansPairs(x, a, y, links);
    assert Text(x) + Sign(a) + Text(y) + Sign(b) + Text(z) == Operand(x) + OpTokens(a) + Operand(y) + ChainTokens(links);
  }

  lemma SimpleOperand(e: Expr)
    requires Simple(e)
    ensures Operand(e) == Text(e)
  {
    assert Minimal(e, 41, 40, false) == Leaf(e);
  }

  // ---- Prefix and postfix operators ----------------------------------------------------------------------

  /** NOT takes comparisons and everything tighter with it, and leaves AND, XOR and OR outside. */
  lemma NotAndOperator(x: Expr, op: Op, y: Expr)
    requires Simple(x) && Simple(y)
    ensures Reads([NotTok] + Text(x) + Sign(op) + Text(y), if Rung(op) >= 3 then Not(Binary(x, op, y)) else Binary(Not(x), op, y))
  {
    hide Stands, Reads, Bp, Text, Sign;
    LadderIsPowers(op, op);
    var ts := [NotTok] + Text(x) + Sign(op) + Text(y);
    LeafStands(x, BP_NOT, Bp(op));
    LeafStands(y, Bp(op) + 1, 0);
    if Rung(op) >= 3 {
      BinStands(Leaf(x), op, Leaf(y), BP_NOT, 0, Text(x), x, Text(y), y);
      NotStands(Bin(Leaf(x), op, Leaf(y)), 0, 0, Text(x) + Sign(op) + Text(y), Binary(x, op, y));
      assert [NotTok] + (Text(x) + Sign(op) + Text(y)) == ts;
      TreeReads(Inv(Bin(Leaf(x), op, Leaf(y))), ts, Not(Binary(x, op, y)));
    } else {
      NotStands(Leaf(x), 0, Bp(op), Text(x), x);
      BinStands(Inv(Leaf(x)), op, Leaf(y), 0, 0, [NotTok] + Text(x), Not(x), Text(y), y);
      TreeReads(Bin(Inv(Leaf(x)), op, Leaf(y)), ts, Binary(Not(x), op, y));
    }
  }

  /** A minus sign takes its operand alone, before every operator. */
  lemma MinusAndOperator(x: Expr, op: Op, y: Expr)
    requires Simple(x) && Simple(y)
    ensures Reads([Infix(Sub)] + Text(x) + Sign(op) + Text(y), Binary(Negate(x), op, y))
  {
    hide Stands, Reads, Bp, Text, Sign;
    LadderIsPowers(op, op);
    LeafStands(x, BP_PREFIX, Bp(op));
    LeafStands(y, Bp(op) + 1, 0);
    NegStands(Leaf(x), 0, Bp(op), Text(x), x);
    BinStands(Neg(Leaf(x)), op, Leaf(y), 0, 0, [Infix(Sub)] + Text(x), Negate(x), Text(y), y);
    TreeReads(Bin(Neg(Leaf(x)), op, Leaf(y)), [Infix(Sub)] + Text(x) + Sign(op) + Text(y), Binary(Negate(x), op, y));
  }

  /** As a right operand NOT stands anywhere, and takes what follows as far as it does in front. */
  lemma NotInside(x: Expr, a: Op, y: Expr, b: Op, z: Expr)
    requires Simple(x) && Simple(y) && Simple(z)
    ensures Reads(Text(x) + Sign(a) + ([NotTok] + Text(y)) + Sign(b) + Text(z),
                  if Rung(b) >= 3 then Binary(x, a, Not(Binary(y, b, z)))
                  else if Rung(a) < Rung(b) then Binary(x, a, Binary(Not(y), b, z))
                  else Binary(Binary(x, a, Not(y)), b, z))
  {
    hide Reads, Bp, Text, Sign;
    LadderIsPowers(a, b);
    LadderIsPowers(b, a);
    if Rung(b) >= 3 {
      NotTakes(x, a, y, b, z);
    } else if Rung(a) < Rung(b) {
      NotLeavesRight(x, a, y, b, z);
    } else {
      NotLeavesLeft(x, a, y, b, z);
    }
  }

  lemma NotTakes(x: Expr, a: Op, y: Expr, b: Op, z: Expr)
    requires Simple(x) && Simple(y) && Simple(z) && BP_NOT <= Bp(b)
    ensures Reads(Text(x) + Sign(a) + ([NotTok] + Text(y)) + Sign(b) + Text(z), Binary(x, a, Not(Binary(y, b, z))))
  {
    hide Stands, Reads, Bp, Text, Sign;
    var ts := Text(y) + Sign(b) + Text(z);
    LeafStands(x, 0, Bp(a));
    LeafStands(y, BP_NOT, Bp(b));
    LeafStands(z, Bp(b) + 1, 0);
    BinStands(Leaf(y), b, Leaf(z), BP_NOT, 0, Text(y), y, Text(z), z);
    NotStands(Bin(Leaf(y), b, Leaf(z)), Bp(a) + 1, 0, ts, Binary(y, b, z));
    BinStands(Leaf(x), a, Inv(Bin(Leaf(y), b, Leaf(z))), 0, 0, Text(x), x, [NotTok] + ts, Not(Binary(y, b, z)));
    assert Text(x) + Sign(a) + ([NotTok] + ts) == Text(x) + Sign(a) + ([NotTok] + Text(y)) + Sign(b) + Text(z);
    TreeReads(Bin(Leaf(x), a, Inv(Bin(Leaf(y), b, Leaf(z)))), Text(x) + Sign(a) + ([NotTok] + ts), Binary(x, a, Not(Binary(y, b, z))));
  }

  lemma NotLeavesRight(x: Expr, a: Op, y: Expr, b: Op, z: Expr)
    requires Simple(x) && Simple(y) && Simple(z) && Bp(a) < Bp(b) < BP_NOT
    ensures Reads(Text(x) + Sign(a) + ([NotTok] + Text(y)) + Sign(b) + Text(z), Binary(x, a, Binary(Not(y), b, z)))
  {
    hide Stands, Reads, Bp, Text, Sign;
    var ts := [NotTok] + Text(y) + Sign(b) + Text(z);
    LeafStands(x, 0, Bp(a));
    LeafStands(y, BP_NOT, Bp(b));
    LeafStands(z, Bp(b) + 1, 0);
    NotStands(Leaf(y), Bp(a) + 1, Bp(b), Text(y), y);
    BinStands(Inv(Leaf(y)), b, Leaf(z), Bp(a) + 1, 0, [NotTok] + Text(y), Not(y), Text(z), z);
    BinStands(Leaf(x), a, Bin(Inv(Leaf(y)), b, Leaf(z)), 0, 0, Text(x), x, ts, Binary(Not(y), b, z));
    assert Text(x) + Sign(a) + ts == Text(x) + Sign(a) + ([NotTok] + Text(y)) + Sign(b) + Text(z);
    TreeReads(Bin(Leaf(x), a, Bin(Inv(Leaf(y)), b, Leaf(z))), Text(x) + Sign(a) + ts, Binary(x, a, Binary(Not(y), b, z)));
  }

  lemma NotLeavesLeft(x: Expr, a: Op, y: Expr, b: Op, z: Expr)
    requires Simple(x) && Simple(y) && Simple(z) && Bp(b) <= Bp(a) && Bp(b) < BP_NOT && !(Chainable(a) && Bp(a) == Bp(b))
    ensures Reads(Text(x) + Sign(a) + ([NotTok] + Text(y)) + Sign(b) + Text(z), Binary(Binary(x, a, Not(y)), b, z))
  {
    hide Stands, Reads, Bp, Text, Sign;
    var ts := Text(x) + Sign(a) + ([NotTok] + Text(y));
    LeafStands(x, 0, Bp(a));
    LeafStands(y, BP_NOT, Bp(b));
    LeafStands(z, Bp(b) + 1, 0);
    NotStands(Leaf(y), Bp(a) + 1, Bp(b), Text(y), y);
    BinStands(Leaf(x), a, Inv(Leaf(y)), 0, Bp(b), Text(x), x, [NotTok] + Text(y), Not(y));
    BinStands(Bin(Leaf(x), a, Inv(Leaf(y))), b, Leaf(z), 0, 0, ts, Binary(x, a, Not(y)), Text(z), z);
    TreeReads(Bin(Bin(Leaf(x), a, Inv(Leaf(y))), b, Leaf(z)), ts + Sign(b) + Text(z), Binary(Binary(x, a, Not(y)), b, z));
  }

  /** A null test takes the operand before it alone, also from NOT and minus. */
  lemma NullTestReads(x: Expr, op: Op, y: Expr, negated: bool)
    requires Simple(x) && Simple(y)
    ensures var test := if negated then [IsTok, NotTok, NullTok] else [IsTok, NullTok];
            && Reads(Text(x) + Sign(op) + (Text(y) + test), Binary(x, op, NullTest(y, negated)))
            && Reads([NotTok] + (Text(y) + test), Not(NullTest(y, negated)))
            && Reads([Infix(Sub)] + (Text(y) + test), Negate(NullTest(y, negated)))
  {
    hide Stands, Reads, Bp, Text, Sign;
    LadderIsPowers(op, op);
    var ts, t, e := Text(y) + NullTokens(negated), Test(Leaf(y), negated), NullTest(y, negated);
    LeafStands(x, 0, Bp(op));
    TestStands(y, negated, Bp(op) + 1, 0);
    BinStands(Leaf(x), op, t, 0, 0, Text(x), x, ts, e);
    TreeReads(Bin(Leaf(x), op, t), Text(x) + Sign(op) + ts, Binary(x, op, e));
    TestStands(y, negated, BP_NOT, 0);
    NotStands(t, 0, 0, ts, e);
    TreeReads(Inv(t), [NotTok] + ts, Not(e));
    TestStands(y, negated, BP_PREFIX, 0);
    NegStands(t, 0, 0, ts, e);
    TreeReads(Neg(t), [Infix(Sub)] + ts, Negate(e));
  }

  /** A plus sign where an operand may begin is as if it were not there. */
  lemma PlusIsNothing(ts: seq<Token>, minBp: nat)
    ensures ParseBp([Infix(Add)] + ts, minBp) == ParseBp(ts, minBp)
  {
    hide ParseInfix, ParsePrefix, ParseNullTests;
    PlusPrefix(ts);
    var p := ParsePrefix(ts);
    if p.Ok? {
      var q := ParseNullTests(p.value.expr, p.value.rest);
      if q.Ok? {
        TestsEnd(p.value.expr, p.value.rest);
        NoOperatorSoTight(q.value.rest);
        InfixStops(q.value.expr, q.value.rest, BP_PREFIX);
        NoNullTest(q.value.expr, q.value.rest);
      }
    }
  }

  lemma PlusPrefix(ts: seq<Token>)
    ensures ParsePrefix([Infix(Add)] + ts) == ParseBp(ts, BP_PREFIX)
  {
    hide ParseBp, ParsePrimary;
    var all := [Infix(Add)] + ts;
    assert all[0] == Infix(Add) && all[1..] == ts;
  }

  lemma {:induction false} TestsEnd(e: Expr, ts: seq<Token>)
    ensures ParseNullTests(e, ts).Ok? ==> Head(ParseNullTests(e, ts).value.rest) != IsTok
    decreases |ts|
  {
    if Head(ts) == IsTok {
      if Head(ts[1..]) == NotTok {
        if Head(ts[2..]) == NullTok { TestsEnd(NullTest(e, true), ts[3..]); }
      } else if Head(ts[1..]) == NullTok {
        TestsEnd(NullTest(e, false), ts[2..]);
      }
    }
  }

  lemma NoOperatorSoTight(ts: seq<Token>)
    ensures PeekInfix(ts).Some? ==> Power(ts) < BP_PREFIX
  {
    if PeekInfix(ts).Some? { LadderIsPowers(PeekInfix(ts).value, PeekInfix(ts).value); }
  }
}
