/** The parser object: the machine as a loop over two stacks. */
module FlowParsing {
  import opened Prelude
  import opened FlowExpr
  import opened FlowGrammar
  import opened FlowMachine

  /** `c` is a configuration of the run that starts at `start`. */
  ghost predicate OnRun(start: Config, c: Config) {
    Ok(start) && Ok(c) && Run(c) == Run(start)
  }

  lemma StaysOnRun(start: Config, c: Config, c': Config)
    requires OnRun(start, c) && Step(c) == More(c')
    ensures OnRun(start, c') && Measure(c') < Measure(c)
  {
  }

  class FlowParser {
    var exprResult: bool

    /** The driver loop: both stacks and the result are updated step by step. */
    method YyParse(tokens: seq<Token>) returns (ok: bool)
      modifies this
      ensures var o := Run(Initial(tokens).(result := old(exprResult))); o == if ok then Value(exprResult) else Rejected
    {
      var states, values, rest := [0], [false], tokens;
      ghost var start := Initial(tokens).(result := exprResult);
      while true
        invariant OnRun(start, Config(states, values, exprResult, rest))
        decreases Measure(Config(states, values, exprResult, rest))
      {
        ghost var c := Config(states, values, exprResult, rest);
        if |states| >= YYMAXDEPTH {
          return false;
        }
        var state := states[|states| - 1];
        match Decide(state, rest)
        case Error =>
          return false;
        case ShiftTest =>
          ShiftsViable(state, rest);
          if |states| + rest[0].depth >= YYMAXDEPTH {
            return false;
          }
          exprResult := rest[0].b;
          states, values, rest := states + [Goto(state, EXPR)], values + [exprResult], rest[1..];
        case Shift(next) =>
          ShiftsViable(state, rest);
          if next == FINAL {
            return true;
          }
          states, values, rest := states + [next], values + [false], rest[1..];
        case Reduce(rule) =>
          PopsEnough(c);
          states, values := Reduce(rule, states, values, rest);
        StaysOnRun(start, c, Config(states, values, exprResult, rest));
      }
    }

    /** Rules 34 to 36 compute a value; all rules pop their right-hand side and go on from below it. */
    method Reduce(rule: nat, states: seq<nat>, values: seq<bool>, ghost rest: seq<Token>)
      returns (states': seq<nat>, values': seq<bool>)
      requires Ok(Config(states, values, exprResult, rest)) && R2(rule) < |states|
      modifies this
      ensures Config(states', values', exprResult, rest) == Reduced(Config(states, values, old(exprResult), rest), rule)
    {
      var n := |states| - R2(rule);
      var value := false;
      if rule == 34 {
        value := values[n] || values[n + 2];
        exprResult := value;
      } else if rule == 35 {
        value := values[n] && values[n + 2];
        exprResult := value;
      } else if rule == 36 {
        value := values[n + 1];
        exprResult := value;
      }
      states', values' := states[..n], values[..n] + [value];
      states' := states' + [Goto(states'[n - 1], R1(rule))];
    }

    /** `lowerMapKnown` is false when the flow's lower side is neither local nor other: then nothing is parsed. */
    method Parse(lowerMapKnown: bool, tokens: seq<Token>) returns (r: Outcome)
      modifies this
      ensures !lowerMapKnown ==> r == Value(false)
      ensures lowerMapKnown ==>
                forall b :: r == Value(b)
                  <==> exists es :: tokens == UnparseAll(es) && AllFit(es) && b == LastValue(false, es)
    {
      exprResult := false;
      if !lowerMapKnown {
        return Value(false);
      }
      var ok := YyParse(tokens);
      r := if ok then Value(exprResult) else Rejected;
      assert r == Run(Initial(tokens));
      ParseMeaning(tokens, true);
      ParseMeaning(tokens, false);
    }
  }
}
