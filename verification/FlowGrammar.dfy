/** The grammar of flow expressions: their meaning, their height on the stack, and a top-down reader of them. */
module FlowGrammar {
  import opened Prelude
  import opened FlowExpr

  /* ---- the grammar and its meaning ---- */

  datatype Op = OpAnd | OpOr

  /** Expressions as the machine groups them: an operator takes everything to its right. */
  datatype Expr = Single(p: Prim) | Chain(p: Prim, op: Op, rest: Expr)
  datatype Prim = Field(b: bool, depth: Depth) | Paren(e: Expr)

  function Eval(e: Expr): bool {
    match e
    case Single(p) => EvalPrim(p)
    case Chain(p, OpAnd, rest) => EvalPrim(p) && Eval(rest)
    case Chain(p, OpOr, rest) => EvalPrim(p) || Eval(rest)
  }

  function EvalPrim(p: Prim): bool {
    match p
    case Field(b, _) => b
    case Paren(e) => Eval(e)
  }

  /** How many states an expression stacks up at most. */
  function Height(e: Expr): (h: nat)
    ensures h >= 1
  {
    match e
    case Single(p) => HeightPrim(p)
    case Chain(p, _, rest) => Max(HeightPrim(p), 2 + Height(rest))
  }

  function HeightPrim(p: Prim): (h: nat)
    ensures h >= 1
  {
    match p
    case Field(_, depth) => depth
    case Paren(e) => Max(3, 1 + Height(e))
  }

  /** None of the expressions, each read on top of two states, exhausts the stack. */
  predicate AllFit(es: seq<Expr>) {
    es == [] || (2 + Height(es[0]) < YYMAXDEPTH && AllFit(es[1..]))
  }

  function Unparse(e: Expr): (s: seq<Token>)
    ensures s != []
  {
    match e
    case Single(p) => UnparsePrim(p)
    case Chain(p, op, rest) => UnparsePrim(p) + [OpToken(op)] + Unparse(rest)
  }

  function UnparsePrim(p: Prim): (s: seq<Token>)
    ensures s != []
  {
    match p
    case Field(b, d) => [Test(b, d)]
    case Paren(e) => [LParen] + Unparse(e) + [RParen]
  }

  function OpToken(op: Op): Token {
    if op == OpAnd then And else Or
  }

  /** An input: expressions, each ended by a semicolon. */
  function UnparseAll(es: seq<Expr>): seq<Token> {
    if es == [] then [] else Unparse(es[0]) + [Semi] + UnparseAll(es[1..])
  }

  /** The value of an input is that of its last expression, and `initial` when there is none. */
  function LastValue(initial: bool, es: seq<Expr>): bool {
    if es == [] then initial else Eval(es[|es| - 1])
  }

  predicate OpNext(rest: seq<Token>) {
    rest != [] && (rest[0] == And || rest[0] == Or)
  }

  /* ---- a top-down reader of the same grammar ---- */

  function ReadPrim(toks: seq<Token>): (r: Option<(Prim, seq<Token>)>)
    ensures r.Some? ==> toks == UnparsePrim(r.value.0) + r.value.1
    decreases |toks|, 0
  {
    if toks == [] then None
    else if toks[0].Test? then Some((Field(toks[0].b, toks[0].depth), toks[1..]))
    else if toks[0] != LParen then None
    else
      match ReadExpr(toks[1..])
      case None => None
      case Some((e, rest)) =>
        if rest == [] || rest[0] != RParen then None
        else
          assert toks == [LParen] + toks[1..] && rest == [RParen] + rest[1..];
          Some((Paren(e), rest[1..]))
  }

  function ReadExpr(toks: seq<Token>): (r: Option<(Expr, seq<Token>)>)
    ensures r.Some? ==> toks == Unparse(r.value.0) + r.value.1 && !OpNext(r.value.1)
    decreases |toks|, 1
  {
    match ReadPrim(toks)
    case None => None
    case Some((p, rest)) =>
      if !OpNext(rest) then Some((Single(p), rest))
      else
        var op := if rest[0] == And then OpAnd else OpOr;
        match ReadExpr(rest[1..])
        case None => None
        case Some((e, rest')) =>
          assert rest == [OpToken(op)] + (Unparse(e) + rest');
          assert toks == (UnparsePrim(p) + [OpToken(op)] + Unparse(e)) + rest';
          Some((Chain(p, op, e), rest'))
  }

  function ReadAll(toks: seq<Token>): (r: Option<seq<Expr>>)
    ensures r.Some? ==> toks == UnparseAll(r.value)
    decreases |toks|
  {
    if toks == [] then Some([])
    else
      match ReadExpr(toks)
      case None => None
      case Some((e, rest)) =>
        if rest == [] || rest[0] != Semi then None
        else
          match ReadAll(rest[1..])
          case None => None
          case Some(es) =>
            assert rest == [Semi] + rest[1..] && ([e] + es)[1..] == es;
            Some([e] + es)
  }

  lemma {:induction false} ReadPrimComplete(p: Prim, rest: seq<Token>)
    ensures ReadPrim(UnparsePrim(p) + rest) == Some((p, rest))
    decreases p, 0
  {
    if p.Paren? {
      var toks := UnparsePrim(p) + rest;
      assert toks[1..] == Unparse(p.e) + ([RParen] + rest);
      ReadExprComplete(p.e, [RParen] + rest);
      assert ([RParen] + rest)[1..] == rest;
    } else {
      assert (UnparsePrim(p) + rest)[1..] == rest;
    }
  }

  lemma {:induction false} ReadExprComplete(e: Expr, rest: seq<Token>)
    requires !OpNext(rest)
    ensures ReadExpr(Unparse(e) + rest) == Some((e, rest))
    decreases e, 1
  {
    match e
    case Single(p) => ReadPrimComplete(p, rest);
    case Chain(p, op, e') =>
      var tail := [OpToken(op)] + Unparse(e') + rest;
      assert Unparse(e) + rest == UnparsePrim(p) + tail;
      ReadPrimComplete(p, tail);
      assert tail[1..] == Unparse(e') + rest;
      ReadExprComplete(e', rest);
  }

  lemma {:induction false} ReadAllComplete(es: seq<Expr>)
    ensures ReadAll(UnparseAll(es)) == Some(es)
    decreases |es|
  {
    if es != [] {
      var tail := [Semi] + UnparseAll(es[1..]);
      assert UnparseAll(es) == Unparse(es[0]) + tail;
      ReadExprComplete(es[0], tail);
      assert tail[1..] == UnparseAll(es[1..]);
      ReadAllComplete(es[1..]);
      assert [es[0]] + es[1..] == es;
    }
  }
}
