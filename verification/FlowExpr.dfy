/**
 * The flow expression evaluator: a table-driven shift/reduce machine over a state stack and a value stack.
 *
 * A field test such as `ip_protocol == 6` is one token here: the rules for it leave the stack below
 * alone, set the result and end in the goto on `expr`. `depth` tells how many states they stack up before
 * that. The tables list the entries that the machine consults for the tokens below.
 */
module FlowExpr {
  import opened Prelude

  type Depth = n: nat | 1 <= n witness 1

  datatype Token = Test(b: bool, depth: Depth) | And | Or | LParen | RParen | Semi

  /* ---- the tables ---- */

  const NINF := -44
  const LAST := 335
  const FINAL := 2
  /** The stacks cannot grow beyond this. */
  const YYMAXDEPTH: nat := 10000

  const EXPRS := 69
  const EXPR := 70

  function Pact(state: nat): int {
    match state
    case 1 => 1
    case 33 => 31
    case 35 => 18
    case 170 => 28
    case 191 => 31
    case 192 => 31
    case 323 => 196
    case 324 => 196
    case _ => NINF
  }

  function Defact(state: nat): nat {
    match state
    case 0 => 2
    case 193 => 3
    case 322 => 36
    case 323 => 35
    case 324 => 34
    case _ => 0
  }

  function Check(i: int): int {
    match i
    case 0 => 33
    case 1 => 0
    case 18 => 17
    case 28 => 27
    case 31 => 30
    case 50 => 19
    case 51 => 20
    case 63 => 32
    case 64 => 63
    case 65 => 55
    case 67 => 49
    case 68 => 50
    case 77 => 49
    case 78 => 50
    case 80 => 62
    case 81 => 12
    case 82 => 13
    case 90 => 21
    case 91 => 61
    case 92 => 64
    case 93 => 24
    case 94 => 63
    case 95 => 26
    case 158 => 191
    case 159 => 192
    case 196 => 45
    case 245 => 49
    case 246 => 50
    case 258 => 61
    case 259 => 54
    case 260 => 54
    case _ => -1
  }

  function Table(i: int): int {
    match i
    case 0 => 170
    case 1 => 2
    case 64 => 33
    case 67 => 191
    case 68 => 192
    case 77 => 191
    case 78 => 192
    case 80 => 193
    case 92 => 322
    case 94 => 33
    case 158 => 323
    case 159 => 324
    case 245 => 191
    case 246 => 192
    case _ => 0
  }

  function Pgoto(lhs: int): int {
    if lhs == EXPR then -33 else -44
  }

  function Defgoto(lhs: int): nat {
    if lhs == EXPR then 35 else 1
  }

  /** The left-hand side of a rule. */
  function R1(rule: nat): nat {
    if rule == 2 || rule == 3 then EXPRS else EXPR
  }

  /** The length of the right-hand side of a rule. */
  function R2(rule: nat): nat {
    if rule == 2 then 0 else 3
  }

  /* ---- the machine ---- */

  datatype Action = Shift(state: nat) | Reduce(rule: nat) | ShiftTest | Error

  function Code(t: Token): nat
    requires !t.Test?
  {
    match t
    case And => 49
    case Or => 50
    case Semi => 62
    case LParen => 63
    case RParen => 64
  }

  predicate ExpectsExpr(state: nat) {
    state == 1 || state == 33 || state == 191 || state == 192
  }

  function Default(state: nat): Action {
    if Defact(state) == 0 then Error else Reduce(Defact(state))
  }

  function Consult(state: nat, code: nat): Action {
    var i := Pact(state) + code;
    if i < 0 || LAST < i || Check(i) != code then Default(state)
    else if Table(i) > 0 then Shift(Table(i))
    else Reduce(-Table(i))
  }

  function Decide(state: nat, rest: seq<Token>): Action {
    if Pact(state) == NINF then Default(state)
    else if rest == [] then Consult(state, 0)
    else if rest[0].Test? then (if ExpectsExpr(state) then ShiftTest else Default(state))
    else Consult(state, Code(rest[0]))
  }

  function Goto(state: nat, lhs: nat): nat {
    var i := Pgoto(lhs) + state;
    if 0 <= i <= LAST && Check(i) == state then Table(i) else Defgoto(lhs)
  }

  /** A syntax error and an exhausted stack both end in an exception. */
  datatype Outcome = Value(b: bool) | Rejected

  datatype Config = Config(states: seq<nat>, values: seq<bool>, result: bool, rest: seq<Token>) {
    function Top(): nat
      requires states != []
    {
      states[|states| - 1]
    }

    function Push(state: nat, value: bool): Config {
      this.(states := states + [state], values := values + [value])
    }
  }

  /** Which state can lie directly on which: the viable prefixes. */
  predicate Follows(below: nat, above: nat) {
    match above
    case 1 => below == 0
    case 33 => ExpectsExpr(below)
    case 35 => below == 1
    case 170 => below == 33
    case 323 => below == 191
    case 324 => below == 192
    case 191 => below == 35 || below == 170 || below == 323 || below == 324
    case 192 => below == 35 || below == 170 || below == 323 || below == 324
    case 193 => below == 35
    case 322 => below == 170
    case _ => false
  }

  predicate Viable(states: seq<nat>) {
    && states != [] && states[0] == 0
    && forall i :: 0 < i < |states| ==> Follows(states[i - 1], states[i])
  }

  predicate Ok(c: Config) {
    Viable(c.states) && |c.values| == |c.states|
  }

  function Initial(tokens: seq<Token>): Config {
    Config([0], [false], false, tokens)
  }

  datatype Next = More(c: Config) | Stop(o: Outcome)

  /** A reduction: pop the right-hand side, push its value, go to the next state. */
  function Reduced(c: Config, rule: nat): Config
    requires Ok(c) && R2(rule) < |c.states|
  {
    var n := |c.states| - R2(rule);
    var v := c.values;
    var value := match rule
      case 34 => v[n] || v[n + 2]
      case 35 => v[n] && v[n + 2]
      case 36 => v[n + 1]
      case _ => false;
    Config(c.states[..n] + [Goto(c.states[n - 1], R1(rule))], v[..n] + [value],
           if 34 <= rule <= 36 then value else c.result, c.rest)
  }

  function Step(c: Config): (n: Next)
    requires Ok(c)
    ensures n.More? ==> Ok(n.c) && Measure(n.c) < Measure(c)
  {
    if |c.states| >= YYMAXDEPTH then Stop(Rejected) else
    var a := Decide(c.Top(), c.rest);
    match a
    case Error => Stop(Rejected)
    case ShiftTest =>
      ShiftsViable(c.Top(), c.rest);
      if |c.states| + c.rest[0].depth >= YYMAXDEPTH then Stop(Rejected) else
      More(c.Push(Goto(c.Top(), EXPR), c.rest[0].b).(result := c.rest[0].b, rest := c.rest[1..]))
    case Shift(state) =>
      ShiftsViable(c.Top(), c.rest);
      if state == FINAL then Stop(Value(c.result)) else More(c.Push(state, false).(rest := c.rest[1..]))
    case Reduce(rule) =>
      PopsEnough(c);
      More(Reduced(c, rule))
  }

  function Measure(c: Config): nat {
    3 * |c.rest| + |c.states| + if |c.states| == 1 then 2 else 0
  }

  lemma ShiftsViable(top: nat, rest: seq<Token>)
    ensures Decide(top, rest) == ShiftTest ==> rest != [] && rest[0].Test? && Follows(top, Goto(top, EXPR))
    ensures Decide(top, rest).Shift? && Decide(top, rest).state != FINAL
            ==> rest != [] && Follows(top, Decide(top, rest).state)
  {
  }

  /** A viable stack holds the whole right-hand side of the rule that its top state reduces. */
  lemma RightHandSide(c: Config)
    requires Ok(c) && Decide(c.Top(), c.rest).Reduce?
    ensures var rule, n := Decide(c.Top(), c.rest).rule, |c.states|;
            || (rule == 2 && n == 1)
            || (R2(rule) == 3 && n >= 4 && Follows(c.states[n - 4], Goto(c.states[n - 4], R1(rule))))
  {
    var n := |c.states|;
    if n >= 2 {
      assert Follows(c.states[n - 2], c.states[n - 1]);
      if n >= 3 {
        assert Follows(c.states[n - 3], c.states[n - 2]);
        if n >= 4 {
          assert Follows(c.states[n - 4], c.states[n - 3]);
        }
      }
    }
  }

  lemma PopsEnough(c: Config)
    requires Ok(c) && Decide(c.Top(), c.rest).Reduce?
    ensures R2(Decide(c.Top(), c.rest).rule) < |c.states|
    ensures Ok(Reduced(c, Decide(c.Top(), c.rest).rule))
    ensures Measure(Reduced(c, Decide(c.Top(), c.rest).rule)) < Measure(c)
  {
    RightHandSide(c);
  }

  function Run(c: Config): Outcome
    requires Ok(c)
    decreases Measure(c)
  {
    match Step(c)
    case Stop(o) => o
    case More(next) => Run(next)
  }
}
