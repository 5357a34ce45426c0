/** How flow expressions are grouped, compared with the usual precedence of AND over OR, and how long they may be. */
module FlowPrecedence {
  import opened FlowExpr
  import opened FlowGrammar
  import opened FlowMachine

  function Operators(e: Expr): nat {
    if e.Single? then 0 else 1 + Operators(e.rest)
  }

  /** A chain of tests without parentheses, each of which is a single symbol. */
  predicate Flat(e: Expr) {
    e.p.Field? && e.p.depth == 1 && (e.Chain? ==> Flat(e.rest))
  }

  /** Every operator keeps two states on the stack until the end: a flat chain may have 4998 of them. */
  lemma {:induction false} FlatHeight(e: Expr)
    requires Flat(e)
    ensures Height(e) == 1 + 2 * Operators(e)
  {
    if e.Chain? {
      FlatHeight(e.rest);
    }
  }

  lemma FlatChain(e: Expr)
    requires Flat(e)
    ensures Run(Initial(Unparse(e) + [Semi])) == if Operators(e) <= 4998 then Value(Eval(e)) else Rejected
  {
    FlatHeight(e);
    ParseOne(e);
  }

  /* ---- precedence ---- */

  /** The value under the usual precedence; `acc` is that of the AND group begun before `e`. */
  function UsualFrom(acc: bool, e: Expr): bool
    decreases e, 1
  {
    match e
    case Single(p) => acc && UsualPrim(p)
    case Chain(p, OpAnd, rest) => UsualFrom(acc && UsualPrim(p), rest)
    case Chain(p, OpOr, rest) => (acc && UsualPrim(p)) || UsualFrom(true, rest)
  }

  function UsualPrim(p: Prim): bool
    decreases p, 0
  {
    match p
    case Field(b, _) => b
    case Paren(e) => UsualFrom(true, e)
  }

  /** With AND before OR. */
  function Usual(e: Expr): bool {
    UsualFrom(true, e)
  }

  predicate HasOr(e: Expr) {
    e.Chain? && (e.op == OpOr || HasOr(e.rest))
  }

  /** No AND stands before an OR in the same chain, neither here nor inside parentheses. */
  predicate Ordered(e: Expr) {
    match e
    case Single(p) => OrderedPrim(p)
    case Chain(p, op, rest) => OrderedPrim(p) && Ordered(rest) && (op == OpAnd ==> !HasOr(rest))
  }

  predicate OrderedPrim(p: Prim) {
    p.Paren? ==> Ordered(p.e)
  }

  /** The same expression but for the values of its tests. */
  predicate SameShape(e: Expr, e': Expr) {
    match e
    case Single(p) => e'.Single? && SameShapePrim(p, e'.p)
    case Chain(p, op, rest) => e'.Chain? && SameShapePrim(p, e'.p) && op == e'.op && SameShape(rest, e'.rest)
  }

  predicate SameShapePrim(p: Prim, p': Prim) {
    match p
    case Field(_, d) => p'.Field? && p'.depth == d
    case Paren(e) => p'.Paren? && SameShape(e, p'.e)
  }

  function AllSet(e: Expr, b: bool): Expr {
    match e
    case Single(p) => Single(AllSetPrim(p, b))
    case Chain(p, op, rest) => Chain(AllSetPrim(p, b), op, AllSet(rest, b))
  }

  function AllSetPrim(p: Prim, b: bool): Prim {
    match p
    case Field(_, d) => Field(b, d)
    case Paren(e) => Paren(AllSet(e, b))
  }

  lemma {:induction false} AllSetMeans(acc: bool, e: Expr, b: bool)
    ensures SameShape(e, AllSet(e, b)) && Eval(AllSet(e, b)) == b && HasOr(AllSet(e, b)) == HasOr(e)
    ensures UsualFrom(acc, AllSet(e, b)) == (b && (acc || HasOr(e)))
    decreases e, 1
  {
    match e
    case Single(p) => AllSetPrimMeans(p, b);
    case Chain(p, op, rest) =>
      AllSetPrimMeans(p, b);
      AllSetMeans(if op == OpAnd then acc && b else true, rest, b);
  }

  lemma {:induction false} AllSetPrimMeans(p: Prim, b: bool)
    ensures SameShapePrim(p, AllSetPrim(p, b)) && EvalPrim(AllSetPrim(p, b)) == b && UsualPrim(AllSetPrim(p, b)) == b
    decreases p, 0
  {
    if p.Paren? {
      AllSetMeans(true, p.e, b);
    }
  }

  lemma {:induction false} OrderedUsual(acc: bool, e: Expr)
    requires Ordered(e) && (acc || !HasOr(e))
    ensures UsualFrom(acc, e) == (acc && Eval(e))
    decreases e, 1
  {
    match e
    case Single(p) => OrderedUsualPrim(p);
    case Chain(p, op, rest) =>
      OrderedUsualPrim(p);
      OrderedUsual(if op == OpAnd then acc && UsualPrim(p) else true, rest);
  }

  lemma {:induction false} OrderedUsualPrim(p: Prim)
    requires OrderedPrim(p)
    ensures UsualPrim(p) == EvalPrim(p)
    decreases p, 0
  {
    if p.Paren? {
      OrderedUsual(true, p.e);
    }
  }

  lemma {:induction false} ShapeKeeps(e: Expr, e': Expr)
    requires SameShape(e, e')
    ensures Ordered(e') == Ordered(e) && HasOr(e') == HasOr(e) && Height(e') == Height(e)
    decreases e, 1
  {
    ShapeKeepsPrim(e.p, e'.p);
    if e.Chain? {
      ShapeKeeps(e.rest, e'.rest);
    }
  }

  lemma {:induction false} ShapeKeepsPrim(p: Prim, p': Prim)
    requires SameShapePrim(p, p')
    ensures OrderedPrim(p') == OrderedPrim(p) && HeightPrim(p') == HeightPrim(p)
    decreases p, 0
  {
    if p.Paren? {
      ShapeKeeps(p.e, p'.e);
    }
  }

  /** Values of the tests for which the two readings of an expression differ. */
  lemma {:induction false} Differs(e: Expr) returns (e': Expr)
    requires !Ordered(e)
    ensures SameShape(e, e') && Eval(e') != Usual(e')
    decreases e, 1
  {
    match e
    case Single(p) =>
      var p' := DiffersPrim(p);
      e' := Single(p');
      assert Usual(e') == UsualPrim(p') && Eval(e') == EvalPrim(p');
    case Chain(p, op, rest) =>
      if op == OpAnd && HasOr(rest) {
        AllSetPrimMeans(p, false);
        AllSetMeans(false, rest, true);
        e' := Chain(AllSetPrim(p, false), op, AllSet(rest, true));
        assert UsualFrom(true, e') == UsualFrom(false, AllSet(rest, true)) == true;
      } else if !OrderedPrim(p) {
        var p' := DiffersPrim(p);
        AllSetMeans(if op == OpAnd then UsualPrim(p') else true, rest, op == OpAnd);
        e' := Chain(p', op, AllSet(rest, op == OpAnd));
        if op == OpAnd {
          assert UsualFrom(true, e') == UsualFrom(UsualPrim(p'), AllSet(rest, true)) == UsualPrim(p');
        } else {
          assert UsualFrom(true, e') == (UsualPrim(p') || UsualFrom(true, AllSet(rest, false)));
        }
      } else {
        var rest' := Differs(rest);
        AllSetPrimMeans(p, op == OpAnd);
        e' := Chain(AllSetPrim(p, op == OpAnd), op, rest');
        assert UsualFrom(true, e') == UsualFrom(true, rest') && Eval(e') == Eval(rest');
      }
  }

  lemma {:induction false} DiffersPrim(p: Prim) returns (p': Prim)
    requires !OrderedPrim(p)
    ensures SameShapePrim(p, p') && EvalPrim(p') != UsualPrim(p')
    decreases p, 0
  {
    var e' := Differs(p.e);
    p' := Paren(e');
    assert UsualPrim(p') == Usual(e') && EvalPrim(p') == Eval(e');
  }

  /** What the machine makes of an input of one expression. */
  function Parsed(e: Expr): Outcome {
    Run(Initial(Unparse(e) + [Semi]))
  }

  /** It computes the usual value whatever the values of the tests are. */
  ghost predicate AgreesWithUsual(e: Expr) {
    forall e' :: SameShape(e, e') ==> Parsed(e') == Value(Usual(e'))
  }

  /**
   * The machine computes the value under the usual precedence for all values of the tests if and only if
   * the expression has no AND before an OR in one chain.
   */
  lemma UsualPrecedence(e: Expr)
    ensures 2 + Height(e) < YYMAXDEPTH ==> (AgreesWithUsual(e) <==> Ordered(e))
    ensures 2 + Height(e) >= YYMAXDEPTH ==> !AgreesWithUsual(e)
  {
    forall e' | SameShape(e, e')
      ensures Parsed(e') == if 2 + Height(e) < YYMAXDEPTH then Value(Eval(e')) else Rejected
    {
      ShapeKeeps(e, e');
      ParseOne(e');
    }
    if 2 + Height(e) >= YYMAXDEPTH {
      AllSetMeans(true, e, true);
      assert Parsed(AllSet(e, true)) == Rejected;
    } else if Ordered(e) {
      forall e' | SameShape(e, e')
        ensures Eval(e') == Usual(e')
      {
        ShapeKeeps(e, e');
        OrderedUsual(true, e');
      }
    } else {
      var e' := Differs(e);
      assert Parsed(e') != Value(Usual(e'));
    }
  }

  /** A derivation in which no OR stands directly below an AND. */
  predicate AndFirst(t: Tree) {
    match t
    case Leaf(_, _) => true
    case Node(l, op, r) => AndFirst(l) && AndFirst(r) && (op == OpAnd ==> !OrNode(l) && !OrNode(r))
    case Group(t) => AndFirst(t)
  }

  predicate OrNode(t: Tree) {
    t.Node? && t.op == OpOr
  }

  lemma {:induction false} UsualAppend(acc: bool, e: Expr, op: Op, rest: Expr)
    ensures HasOr(Append(e, op, rest)) == (HasOr(e) || op == OpOr || HasOr(rest))
    ensures op == OpOr ==> UsualFrom(acc, Append(e, op, rest)) == (UsualFrom(acc, e) || UsualFrom(true, rest))
    ensures op == OpAnd && !HasOr(e) ==> UsualFrom(acc, Append(e, op, rest)) == UsualFrom(UsualFrom(acc, e), rest)
    decreases e
  {
    match e
    case Single(p) =>
    case Chain(p, OpAnd, e') => UsualAppend(acc && UsualPrim(p), e', op, rest);
    case Chain(p, OpOr, e') => UsualAppend(true, e', op, rest);
  }

  lemma {:induction false} NoOrFrom(acc: bool, e: Expr)
    requires !HasOr(e)
    ensures UsualFrom(acc, e) == (acc && UsualFrom(true, e))
    decreases e
  {
    if e.Chain? {
      NoOrFrom(acc && UsualPrim(e.p), e.rest);
      NoOrFrom(UsualPrim(e.p), e.rest);
    }
  }

  /** The usual precedence is the meaning of any such derivation. */
  lemma {:induction false} UsualIsAndFirst(t: Tree)
    requires AndFirst(t)
    ensures Usual(RightNested(t)) == Meaning(t)
    ensures !OrNode(t) ==> !HasOr(RightNested(t))
  {
    match t
    case Leaf(b, d) => assert UsualPrim(Field(b, d)) == b;
    case Node(l, op, r) =>
      UsualIsAndFirst(l);
      UsualIsAndFirst(r);
      UsualAppend(true, RightNested(l), op, RightNested(r));
      if op == OpAnd {
        NoOrFrom(Usual(RightNested(l)), RightNested(r));
      }
    case Group(t) =>
      UsualIsAndFirst(t);
      assert UsualPrim(Paren(RightNested(t))) == Usual(RightNested(t));
  }

  /** AND does not bind tighter than OR: `false AND false OR true` is false. */
  lemma AndDoesNotBindTighter()
    ensures var t := Node(Node(Leaf(false, 1), OpAnd, Leaf(false, 1)), OpOr, Leaf(true, 1));
            Meaning(t) && Run(Initial(Tokens(t) + [Semi])) == Value(false)
  {
    var t := Node(Node(Leaf(false, 1), OpAnd, Leaf(false, 1)), OpOr, Leaf(true, 1));
    ParseTree(t);
    assert RightNested(t) == Chain(Field(false, 1), OpAnd, Chain(Field(false, 1), OpOr, Single(Field(true, 1))));
  }

  /** What the connectives, the parentheses and the semicolon do, on tests of one symbol. */
  lemma Connectives(a: bool, b: bool)
    ensures Run(Initial([Test(a, 1), And, Test(b, 1), Semi])) == Value(a && b)
    ensures Run(Initial([Test(a, 1), Or, Test(b, 1), Semi])) == Value(a || b)
    ensures Run(Initial([LParen, Test(a, 1), RParen, Semi])) == Value(a)
    ensures Run(Initial([Test(a, 1), Semi, Test(b, 1), Semi])) == Value(b)
  {
    Joined(a, OpAnd, b);
    Joined(a, OpOr, b);
    Parenthesized(a);
    TwoTests(a, b);
  }

  function OneTest(b: bool): (e: Expr)
    ensures Unparse(e) == [Test(b, 1)] && Eval(e) == b && Height(e) == 1
  {
    assert UnparsePrim(Field(b, 1)) == [Test(b, 1)];
    Single(Field(b, 1))
  }

  lemma Joined(a: bool, op: Op, b: bool)
    ensures Run(Initial([Test(a, 1), OpToken(op), Test(b, 1), Semi])) == Value(if op == OpAnd then a && b else a || b)
  {
    var e := Chain(Field(a, 1), op, OneTest(b));
    assert UnparsePrim(Field(a, 1)) == [Test(a, 1)];
    assert Unparse(e) == [Test(a, 1)] + [OpToken(op)] + [Test(b, 1)];
    assert Unparse(e) + [Semi] == [Test(a, 1), OpToken(op), Test(b, 1), Semi];
    ParseOne(e);
  }

  lemma Parenthesized(a: bool)
    ensures Run(Initial([LParen, Test(a, 1), RParen, Semi])) == Value(a)
  {
    var p := Paren(OneTest(a));
    assert UnparsePrim(p) == [LParen] + [Test(a, 1)] + [RParen];
    assert Unparse(Single(p)) + [Semi] == [LParen, Test(a, 1), RParen, Semi];
    assert Eval(Single(p)) == EvalPrim(p) == a;
    ParseOne(Single(p));
  }

  lemma TwoTests(a: bool, b: bool)
    ensures Run(Initial([Test(a, 1), Semi, Test(b, 1), Semi])) == Value(b)
  {
    var es := [OneTest(a), OneTest(b)];
    assert es[1..] == [OneTest(b)] && es[1..][1..] == [];
    assert UnparseAll(es[1..]) == Unparse(es[1]) + [Semi] + UnparseAll([]);
    assert UnparseAll(es) == Unparse(es[0]) + [Semi] + UnparseAll(es[1..]);
    assert UnparseAll(es) == [Test(a, 1), Semi, Test(b, 1), Semi];
    assert AllFit(es[1..]) && AllFit(es);
    ParseMeaning(UnparseAll(es), b);
  }
}
