/** The shift/reduce machine computes the meaning that the grammar gives to flow expressions. */
module FlowMachine {
  import opened Prelude
  import opened FlowExpr
  import opened FlowGrammar

  /* ---- the machine against the grammar ---- */

  /** The machine after the expression `value` has been read and its symbol pushed. */
  function Accepted(c: Config, value: bool, rest: seq<Token>): Config
    requires c.states != []
  {
    c.Push(Goto(c.Top(), EXPR), value).(result := value, rest := rest)
  }

  /** Where an expression was expected, any other token ends the parse. */
  lemma StepUnexpected(c: Config)
    requires Ok(c) && ExpectsExpr(c.Top()) && (c.Top() == 1 ==> c.rest != [])
    requires c.rest == [] || !(c.rest[0].Test? || c.rest[0].LParen?)
    ensures Run(c) == Rejected
  {
    assert Decide(c.Top(), c.rest) == Error;
  }

  lemma RunStep(c: Config, next: Next)
    requires Ok(c) && Step(c) == next
    ensures Run(c) == match next case More(c') => Run(c') case Stop(o) => o
  {
  }

  lemma TestStep(c: Config, next: Config)
    requires Ok(c) && ExpectsExpr(c.Top()) && c.rest != [] && c.rest[0].Test?
    requires next == Accepted(c, c.rest[0].b, c.rest[1..])
    ensures Ok(next) && Step(c) == if |c.states| + c.rest[0].depth < YYMAXDEPTH then More(next) else Stop(Rejected)
  {
    assert Decide(c.Top(), c.rest) == ShiftTest;
    ShiftsViable(c.Top(), c.rest);
  }

  lemma StepTest(c: Config)
    requires Ok(c) && ExpectsExpr(c.Top()) && c.rest != [] && c.rest[0].Test?
    ensures Ok(Accepted(c, c.rest[0].b, c.rest[1..]))
    ensures Run(c)
            == if |c.states| + c.rest[0].depth < YYMAXDEPTH
               then Run(Accepted(c, c.rest[0].b, c.rest[1..])) else Rejected
  {
    var next := Accepted(c, c.rest[0].b, c.rest[1..]);
    TestStep(c, next);
    RunStep(c, if |c.states| + c.rest[0].depth < YYMAXDEPTH then More(next) else Stop(Rejected));
  }

  function Opened(c: Config): Config
    requires c.rest != []
  {
    c.Push(33, false).(rest := c.rest[1..])
  }

  lemma OpenStep(c: Config)
    requires Ok(c) && ExpectsExpr(c.Top()) && c.rest != [] && c.rest[0].LParen?
    ensures Ok(Opened(c)) && Step(c) == if |c.states| < YYMAXDEPTH then More(Opened(c)) else Stop(Rejected)
  {
    assert Decide(c.Top(), c.rest) == Shift(33);
    ShiftsViable(c.Top(), c.rest);
  }

  lemma StepOpen(c: Config)
    requires Ok(c) && ExpectsExpr(c.Top()) && c.rest != [] && c.rest[0].LParen?
    ensures Ok(Opened(c)) && Run(c) == if |c.states| < YYMAXDEPTH then Run(Opened(c)) else Rejected
  {
    OpenStep(c);
    RunStep(c, if |c.states| < YYMAXDEPTH then More(Opened(c)) else Stop(Rejected));
  }

  /** After `( expr`: a closing parenthesis completes the primary, anything else is an error. */
  lemma StepClose(c: Config, c': Config, value: bool, rest: seq<Token>)
    requires Ok(c) && ExpectsExpr(c.Top()) && c.rest != [] && Ok(Opened(c)) && !OpNext(rest)
    requires c' == Accepted(Opened(c), value, rest) && Ok(c')
    ensures if rest != [] && rest[0] == RParen && |c.states| + 3 < YYMAXDEPTH
            then Ok(Accepted(c, value, rest[1..])) && Run(c') == Run(Accepted(c, value, rest[1..]))
            else Run(c') == Rejected
  {
    assert c'.Top() == 170;
    if |c'.states| >= YYMAXDEPTH {
      assert Step(c') == Stop(Rejected);
    } else if rest != [] && rest[0] == RParen && |c.states| + 3 >= YYMAXDEPTH {
      var c2 := c'.Push(322, false).(rest := rest[1..]);
      assert Decide(170, rest) == Shift(322) && Step(c') == More(c2) && Step(c2) == Stop(Rejected);
    } else if rest != [] && rest[0] == RParen {
      var c2 := c'.Push(322, false).(rest := rest[1..]);
      assert Decide(170, rest) == Shift(322) && Step(c') == More(c2);
      assert Decide(322, c2.rest) == Reduce(36) && Step(c2) == More(Reduced(c2, 36));
      ParenthesesReduced(c, value, rest);
    } else {
      assert Decide(170, rest) == Error;
    }
  }

  lemma ParenthesesReduced(c: Config, value: bool, rest: seq<Token>)
    requires Ok(c) && c.rest != [] && rest != []
    requires Ok(Accepted(Opened(c), value, rest).Push(322, false))
    ensures var c2 := Accepted(Opened(c), value, rest).Push(322, false).(rest := rest[1..]);
            Ok(c2) && R2(36) < |c2.states| && Reduced(c2, 36) == Accepted(c, value, rest[1..])
  {
    var c2 := Accepted(Opened(c), value, rest).Push(322, false).(rest := rest[1..]);
    assert c2.states[..|c.states|] == c.states && c2.values[..|c.values|] == c.values;
  }

  function Operated(c: Config): Config
    requires c.rest != []
  {
    c.Push(if c.rest[0] == And then 191 else 192, false).(rest := c.rest[1..])
  }

  /** All four states that hold a complete expression shift on either operator. */
  lemma StepOperator(c: Config, value: bool, rest: seq<Token>)
    requires Ok(c) && ExpectsExpr(c.Top()) && OpNext(rest) && Ok(Accepted(c, value, rest))
    requires |c.states| + 1 < YYMAXDEPTH
    ensures var c1 := Accepted(c, value, rest);
            Ok(Operated(c1)) && ExpectsExpr(Operated(c1).Top()) && Run(c1) == Run(Operated(c1))
  {
    var c1 := Accepted(c, value, rest);
    assert Decide(c1.Top(), rest) == Shift(Operated(c1).Top());
    assert Step(c1) == More(Operated(c1));
  }

  /** `expr op expr` is reduced as soon as no operator follows. */
  lemma StepReduce(c: Config, v: bool, mid: seq<Token>, w: bool, rest: seq<Token>)
    requires Ok(c) && ExpectsExpr(c.Top()) && OpNext(mid) && !OpNext(rest)
    requires Ok(Accepted(c, v, mid)) && Ok(Operated(Accepted(c, v, mid)))
    requires Ok(Accepted(Operated(Accepted(c, v, mid)), w, rest)) && |c.states| + 3 < YYMAXDEPTH
    ensures var value := if mid[0] == And then v && w else v || w;
            Ok(Accepted(c, value, rest))
            && Run(Accepted(Operated(Accepted(c, v, mid)), w, rest)) == Run(Accepted(c, value, rest))
  {
    var c3 := Accepted(Operated(Accepted(c, v, mid)), w, rest);
    var rule := if mid[0] == And then 35 else 34;
    assert Decide(c3.Top(), rest) == Reduce(rule);
    assert Step(c3) == More(Reduced(c3, rule));
    OperatorReduced(c, v, mid, w, rest);
  }

  lemma OperatorReduced(c: Config, v: bool, mid: seq<Token>, w: bool, rest: seq<Token>)
    requires Ok(c) && OpNext(mid) && Ok(Accepted(Operated(Accepted(c, v, mid)), w, rest))
    ensures var c3 := Accepted(Operated(Accepted(c, v, mid)), w, rest);
            |c3.states| == |c.states| + 3
            && Reduced(c3, if mid[0] == And then 35 else 34)
               == Accepted(c, if mid[0] == And then v && w else v || w, rest)
  {
    var c3 := Accepted(Operated(Accepted(c, v, mid)), w, rest);
    assert c3.states[..|c.states|] == c.states && c3.values[..|c.values|] == c.values;
  }

  /** On any stack that expects an expression, the machine pushes the value of the primary that comes next. */
  lemma {:induction false} MachinePrim(c: Config)
    requires Ok(c) && ExpectsExpr(c.Top()) && (c.Top() == 1 ==> c.rest != [])
    ensures match ReadPrim(c.rest)
            case None => Run(c) == Rejected
            case Some((p, rest)) =>
              if |c.states| + HeightPrim(p) < YYMAXDEPTH
              then Ok(Accepted(c, EvalPrim(p), rest)) && Run(c) == Run(Accepted(c, EvalPrim(p), rest))
              else Run(c) == Rejected
    decreases |c.rest|, 0
  {
    if c.rest == [] || !(c.rest[0].Test? || c.rest[0].LParen?) {
      StepUnexpected(c);
    } else if c.rest[0].Test? {
      StepTest(c);
    } else {
      StepOpen(c);
      MachineExpr(Opened(c));
      if ReadExpr(c.rest[1..]).Some? {
        var (e, rest) := ReadExpr(c.rest[1..]).value;
        if |Opened(c).states| + Height(e) < YYMAXDEPTH {
          StepClose(c, Accepted(Opened(c), Eval(e), rest), Eval(e), rest);
        }
      }
    }
  }

  /** The machine reads an expression off the input and pushes its value, or stops if there is none. */
  ghost predicate Computes(c: Config)
    requires Ok(c)
  {
    match ReadExpr(c.rest)
    case None => Run(c) == Rejected
    case Some((e, rest)) =>
      if |c.states| + Height(e) < YYMAXDEPTH
      then Ok(Accepted(c, Eval(e), rest)) && Run(c) == Run(Accepted(c, Eval(e), rest))
      else Run(c) == Rejected
  }

  /** The same for an expression: an operator takes everything to its right. */
  lemma {:induction false} MachineExpr(c: Config)
    requires Ok(c) && ExpectsExpr(c.Top()) && (c.Top() == 1 ==> c.rest != [])
    ensures Computes(c)
    decreases |c.rest|, 1
  {
    MachinePrim(c);
    if ReadPrim(c.rest).Some? {
      var (p, mid) := ReadPrim(c.rest).value;
      if OpNext(mid) && |c.states| + HeightPrim(p) < YYMAXDEPTH {
        StepOperator(c, EvalPrim(p), mid);
        MachineExpr(Operated(Accepted(c, EvalPrim(p), mid)));
        MachineChain(c, p, mid);
      }
    }
  }

  lemma MachineChain(c: Config, p: Prim, mid: seq<Token>)
    requires Ok(c) && ExpectsExpr(c.Top()) && ReadPrim(c.rest) == Some((p, mid)) && OpNext(mid)
    requires Ok(Accepted(c, EvalPrim(p), mid)) && Ok(Operated(Accepted(c, EvalPrim(p), mid)))
    requires Run(c) == Run(Operated(Accepted(c, EvalPrim(p), mid))) && Computes(Operated(Accepted(c, EvalPrim(p), mid)))
    requires |c.states| + HeightPrim(p) < YYMAXDEPTH
    ensures Computes(c)
  {
    ChainRead(c.rest, p, mid);
    match ReadExpr(mid[1..])
    case None =>
    case Some((e, rest)) =>
      if |c.states| + 2 + Height(e) < YYMAXDEPTH {
        StepReduce(c, EvalPrim(p), mid, Eval(e), rest);
      }
  }

  lemma ChainRead(toks: seq<Token>, p: Prim, mid: seq<Token>)
    requires ReadPrim(toks) == Some((p, mid)) && OpNext(mid)
    ensures match ReadExpr(mid[1..])
            case None => ReadExpr(toks) == None
            case Some((e, rest)) =>
              && ReadExpr(toks) == Some((Chain(p, if mid[0] == And then OpAnd else OpOr, e), rest)) && !OpNext(rest)
              && Eval(ReadExpr(toks).value.0)
                 == if mid[0] == And then EvalPrim(p) && Eval(e) else EvalPrim(p) || Eval(e)
  {
  }

  /** The machine between two semicolons. */
  function Between(result: bool, garbage: bool, rest: seq<Token>): Config {
    Config([0, 1], [false, garbage], result, rest)
  }

  lemma StepSemi(result: bool, garbage: bool, toks: seq<Token>, value: bool, rest: seq<Token>)
    requires !OpNext(rest)
    ensures var c := Accepted(Between(result, garbage, toks), value, rest);
            && Ok(c)
            && if rest != [] && rest[0] == Semi then Run(c) == Run(Between(value, false, rest[1..]))
               else Run(c) == Rejected
  {
    var c := Accepted(Between(result, garbage, toks), value, rest);
    assert c.Top() == 35;
    if rest != [] && rest[0] == Semi {
      var c2 := c.Push(193, false).(rest := rest[1..]);
      assert Decide(35, rest) == Shift(193) && Step(c) == More(c2);
      assert Decide(193, c2.rest) == Reduce(3) && Step(c2) == More(Reduced(c2, 3));
      assert Reduced(c2, 3) == Between(value, false, rest[1..]);
    } else {
      assert Decide(35, rest) == Error;
    }
  }

  lemma {:induction false} MachineAll(result: bool, garbage: bool, toks: seq<Token>)
    ensures Run(Between(result, garbage, toks))
            == match ReadAll(toks)
               case None => Rejected
               case Some(es) => if AllFit(es) then Value(LastValue(result, es)) else Rejected
    decreases |toks|
  {
    var c := Between(result, garbage, toks);
    if toks == [] {
      assert Decide(1, toks) == Shift(FINAL);
    } else {
      MachineExpr(c);
      if ReadExpr(toks).Some? {
        var (e, rest) := ReadExpr(toks).value;
        if 2 + Height(e) < YYMAXDEPTH {
          StepSemi(result, garbage, toks, Eval(e), rest);
        }
        if rest != [] && rest[0] == Semi {
          MachineAll(Eval(e), false, rest[1..]);
        }
      }
    }
  }

  /**
   * The machine accepts exactly the inputs of the grammar that its stack can hold, and its value is that of
   * the last expression, grouped to the right with AND and OR of equal precedence; false for no expression.
   */
  lemma ParseMeaning(toks: seq<Token>, b: bool)
    ensures Run(Initial(toks)) == Value(b)
            <==> exists es :: toks == UnparseAll(es) && AllFit(es) && b == LastValue(false, es)
  {
    RunInitial(toks);
    if es :| toks == UnparseAll(es) && AllFit(es) && b == LastValue(false, es) {
      ReadAllComplete(es);
    }
  }

  lemma RunInitial(toks: seq<Token>)
    ensures Run(Initial(toks))
            == match ReadAll(toks)
               case None => Rejected
               case Some(es) => if AllFit(es) then Value(LastValue(false, es)) else Rejected
  {
    var c := Initial(toks);
    assert Decide(0, toks) == Reduce(2) && Step(c) == More(Between(false, false, toks));
    MachineAll(false, false, toks);
  }

  /** An input of one expression. */
  lemma ParseOne(e: Expr)
    ensures Run(Initial(Unparse(e) + [Semi])) == if 2 + Height(e) < YYMAXDEPTH then Value(Eval(e)) else Rejected
  {
    var es := [e];
    calc {
      UnparseAll(es);
      Unparse(es[0]) + [Semi] + UnparseAll(es[1..]);
      { assert es[1..] == []; }
      Unparse(e) + [Semi];
    }
    ReadAllComplete(es);
    RunInitial(Unparse(e) + [Semi]);
    assert AllFit(es) <==> 2 + Height(e) < YYMAXDEPTH by { assert es[1..] == []; }
  }

  /* ---- the grammar as it is written, and its other readings ---- */

  /** Any derivation of `expr: expr OR expr | expr AND expr | '(' expr ')' | test`. */
  datatype Tree = Leaf(b: bool, depth: Depth) | Node(left: Tree, op: Op, right: Tree) | Group(t: Tree)

  function Tokens(t: Tree): seq<Token> {
    match t
    case Leaf(b, d) => [Test(b, d)]
    case Node(l, op, r) => Tokens(l) + [OpToken(op)] + Tokens(r)
    case Group(t) => [LParen] + Tokens(t) + [RParen]
  }

  function Append(e: Expr, op: Op, rest: Expr): Expr {
    match e
    case Single(p) => Chain(p, op, rest)
    case Chain(p, op', e') => Chain(p, op', Append(e', op, rest))
  }

  /** The same tokens, grouped to the right. */
  function RightNested(t: Tree): Expr {
    match t
    case Leaf(b, d) => Single(Field(b, d))
    case Node(l, op, r) => Append(RightNested(l), op, RightNested(r))
    case Group(t) => Single(Paren(RightNested(t)))
  }

  lemma {:induction false} AppendUnparse(e: Expr, op: Op, rest: Expr)
    ensures Unparse(Append(e, op, rest)) == Unparse(e) + [OpToken(op)] + Unparse(rest)
  {
    if e.Chain? {
      AppendUnparse(e.rest, op, rest);
    }
  }

  lemma {:induction false} RightNestedTokens(t: Tree)
    ensures Unparse(RightNested(t)) == Tokens(t)
  {
    match t
    case Leaf(_, _) =>
    case Node(l, op, r) =>
      RightNestedTokens(l);
      RightNestedTokens(r);
      AppendUnparse(RightNested(l), op, RightNested(r));
    case Group(t) => RightNestedTokens(t);
  }

  /** Whatever derivation the writer had in mind, the machine computes the right-nested one. */
  lemma ParseTree(t: Tree)
    ensures Run(Initial(Tokens(t) + [Semi]))
            == if 2 + Height(RightNested(t)) < YYMAXDEPTH then Value(Eval(RightNested(t))) else Rejected
  {
    RightNestedTokens(t);
    ParseOne(RightNested(t));
  }

  /** The value a derivation has on its own. */
  function Meaning(t: Tree): bool {
    match t
    case Leaf(b, _) => b
    case Node(l, OpAnd, r) => Meaning(l) && Meaning(r)
    case Node(l, OpOr, r) => Meaning(l) || Meaning(r)
    case Group(t) => Meaning(t)
  }
}
