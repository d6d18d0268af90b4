/** `MathBot.solve_expression`: the normalised expression goes either to the
    restricted numeric evaluator or to one of five symbolic branches chosen by the
    first keyword found in it; the computer-algebra library is an `Engine` of
    opaque calls, each of which may raise. */
module Dispatcher {
  import opened Wrappers
  import opened Text
  import opened Normaliser

  /** A value owned by the computer-algebra library (an expression, a symbol, a
      list of solutions); the model only passes it around. */
  datatype Sym = Sym(handle: nat)

  /** The library calls the bot makes. A `Failure` is an exception, carrying
      `str(e)`. `eval` is the restricted `eval` of the numeric path; `x` is the
      symbol `symbols('x')`; `show` is `str(v)`, which an f-string calls and which
      may raise too (an integer too long to print, say); `pretty` is `pretty(r)`
      of a result that may be `None`. */
  datatype Engine = Engine(
    eval: string -> Result<Sym>,
    sympify: string -> Result<Sym>,
    diff: (Sym, Sym) -> Result<Sym>,
    integrate: (Sym, Sym) -> Result<Sym>,
    limit: (Sym, Sym, Sym) -> Result<Sym>,
    solve: (Sym, Sym) -> Result<Sym>,
    simplify: Sym -> Result<Sym>,
    x: Sym,
    show: Sym -> Result<string>,
    pretty: Option<Sym> -> Result<string>)

  /** One explanation line, holding the text printed into it; the Markdown
      around that text is not modelled. */
  datatype Step =
    | RawInput(text: string)
    | Cleaned(text: string)
    | Numeric(text: string, value: string)
    | Function(text: string)
    | DiffVariable(text: string)
    | Derivative(text: string)
    | IntegrationVariable(text: string)
    | Integral(text: string)
    | LimitVariable(text: string)
    | Point(text: string)
    | Limit(text: string)
    | Equation(text: string)
    | Solutions(text: string)
    | Parsed(text: string)
    | Simplified(text: string)
    | Error(text: string)

  /** The `"type"` entry of a successful result. */
  datatype ResultType = NumericType | SymbolicType

  /** The dictionary `solve_expression` returns: `success`, `result`, `steps` and
      `type`, or `success` false with `error` and `steps`. */
  datatype Solution =
    | Solved(result: Option<Sym>, steps: seq<Step>, kind: ResultType)
    | Failed(error: string, steps: seq<Step>)

  /** `any(c.isalpha() for c in s)`. */
  predicate HasAlpha(s: string) {
    exists i :: 0 <= i < |s| && IsAlpha(s[i])
  }

  // ---------------------------------------------------------------------------
  // Branch selection

  datatype Branch = DiffBranch | IntegrateBranch | LimitBranch | EquationBranch | GeneralBranch

  /** The substring test that guards each branch. */
  predicate Cue(b: Branch, clean: string) {
    match b
    case DiffBranch => Contains(clean, "diff")
    case IntegrateBranch => Contains(clean, "integrate")
    case LimitBranch => Contains(clean, "limit")
    case EquationBranch => Contains(clean, "solve") || Contains(clean, "=")
    case GeneralBranch => true
  }

  /** The position of each branch in the `if`/`elif` chain. */
  function Rank(b: Branch): nat {
    match b
    case DiffBranch => 0
    case IntegrateBranch => 1
    case LimitBranch => 2
    case EquationBranch => 3
    case GeneralBranch => 4
  }

  /** The `if`/`elif` chain of `solve_expression`. */
  function Classify(clean: string): Branch {
    if Contains(clean, "diff") then DiffBranch
    else if Contains(clean, "integrate") then IntegrateBranch
    else if Contains(clean, "limit") then LimitBranch
    else if Contains(clean, "solve") || Contains(clean, "=") then EquationBranch
    else GeneralBranch
  }

  /** First match wins: the chosen branch is the one whose cue holds and whose
      every predecessor's cue fails. */
  lemma ClassifyFirstMatch(clean: string, b: Branch)
    ensures Classify(clean) == b <==> Cue(b, clean) && forall b' :: Rank(b') < Rank(b) ==> !Cue(b', clean)
  {
    assert Rank(DiffBranch) == 0 && Rank(IntegrateBranch) == 1 && Rank(LimitBranch) == 2;
    assert Rank(EquationBranch) == 3 && Rank(GeneralBranch) == 4;
    forall b' | Rank(b') < Rank(Classify(clean))
      ensures !Cue(b', clean)
    {
    }
    if Cue(b, clean) && forall b' :: Rank(b') < Rank(b) ==> !Cue(b', clean) {
      assert Cue(Classify(clean), clean);
      assert Rank(b) <= Rank(Classify(clean));
      assert Rank(Classify(clean)) <= Rank(b);
    }
  }

  /** `clean.replace(call, '').replace(')', '').split(',')`. */
  function Arguments(clean: string, call: string): seq<string>
    requires call != []
  {
    SplitOn(ReplaceAll(ReplaceAll(clean, call, ""), ")", ""), ',')
  }

  /** Deleting text that holds no `c` keeps the number of `c` characters. */
  lemma {:induction false} DeleteKeepsCount(s: string, pat: string, c: char)
    requires pat != [] && c !in pat
    ensures multiset(ReplaceAll(s, pat, ""))[c] == multiset(s)[c]
    decreases |s|
  {
    if s != [] {
      if pat <= s {
        DeleteKeepsCount(s[|pat|..], pat, c);
        assert s == pat + s[|pat|..];
        assert multiset(s) == multiset(pat) + multiset(s[|pat|..]);
        assert multiset(pat)[c] == 0;
        assert ReplaceAll(s, pat, "") == ReplaceAll(s[|pat|..], pat, "");
      } else {
        DeleteKeepsCount(s[1..], pat, c);
        assert s == [s[0]] + s[1..];
        assert ReplaceAll(s, pat, "") == [s[0]] + ReplaceAll(s[1..], pat, "");
      }
    }
  }

  /** There is one argument more than there are commas in the expression; the
      arity rules below count commas. */
  lemma ArgumentsCount(clean: string, call: string)
    requires call != [] && ',' !in call
    ensures |Arguments(clean, call)| == multiset(clean)[','] + 1
  {
    DeleteKeepsCount(clean, call, ',');
    DeleteKeepsCount(ReplaceAll(clean, call, ""), ")", ',');
    SplitOnCount(ReplaceAll(ReplaceAll(clean, call, ""), ")", ""), ',');
  }

  // ---------------------------------------------------------------------------
  // The symbolic branches

  /** What a symbolic branch produces: the result (Python's `None` when the
      arguments did not match) and the steps it appends. */
  datatype Outcome = Outcome(result: Option<Sym>, steps: seq<Step>)

  /** `diff(f, v)` on the split arguments; any other count of arguments leaves
      the result `None`. */
  function DiffCall(e: Engine, parts: seq<string>): Result<Outcome> {
    if |parts| == 2 then
      var f :- e.sympify(Strip(parts[0]));
      var v :- e.sympify(Strip(parts[1]));
      var d :- e.diff(f, v);
      var fs :- e.show(f);
      var vs :- e.show(v);
      var ds :- e.show(d);
      Success(Outcome(Some(d), [Function(fs), DiffVariable(vs), Derivative(ds)]))
    else Success(Outcome(None, []))
  }

  /** `integrate(f, v)`; arguments after the second are ignored. */
  function IntegrateCall(e: Engine, parts: seq<string>): Result<Outcome> {
    if |parts| >= 2 then
      var f :- e.sympify(Strip(parts[0]));
      var v :- e.sympify(Strip(parts[1]));
      var i :- e.integrate(f, v);
      var fs :- e.show(f);
      var vs :- e.show(v);
      var ints :- e.show(i);
      Success(Outcome(Some(i), [Function(fs), IntegrationVariable(vs), Integral(ints)]))
    else Success(Outcome(None, []))
  }

  /** `limit(f, v, p)`; arguments after the third are ignored. */
  function LimitCall(e: Engine, parts: seq<string>): Result<Outcome> {
    if |parts| >= 3 then
      var f :- e.sympify(Strip(parts[0]));
      var v :- e.sympify(Strip(parts[1]));
      var p :- e.sympify(Strip(parts[2]));
      var l :- e.limit(f, v, p);
      var fs :- e.show(f);
      var vs :- e.show(v);
      var ps :- e.show(p);
      var ls :- e.show(l);
      Success(Outcome(Some(l), [Function(fs), LimitVariable(vs), Point(ps), Limit(ls)]))
    else Success(Outcome(None, []))
  }

  /** `solve(eq, v)`: with a `solve` call the first argument is the equation
      and the second, when present, the variable; otherwise the whole text is
      the equation. The variable defaults to `x`. */
  function EquationCall(e: Engine, clean: string, parts: seq<string>): Result<Outcome>
    requires |parts| >= 1
  {
    var eq :- e.sympify(if Contains(clean, "solve") then Strip(parts[0]) else clean);
    var v :- if Contains(clean, "solve") && |parts| > 1 then e.sympify(Strip(parts[1])) else Success(e.x);
    var sols :- e.solve(eq, v);
    var eqs :- e.show(eq);
    var ss :- e.show(sols);
    Success(Outcome(Some(sols), [Equation(eqs), Solutions(ss)]))
  }

  /** Parse and simplify the whole text. */
  function GeneralCall(e: Engine, clean: string): Result<Outcome> {
    var expr :- e.sympify(clean);
    var simplified :- e.simplify(expr);
    var es :- e.show(expr);
    var ss :- e.show(simplified);
    Success(Outcome(Some(simplified), [Parsed(es), Simplified(ss)]))
  }

  /** The branch `Classify` picks, with the arguments split for its call name. */
  function Symbolic(e: Engine, clean: string): Result<Outcome> {
    match Classify(clean)
    case DiffBranch => DiffCall(e, Arguments(clean, "diff("))
    case IntegrateBranch => IntegrateCall(e, Arguments(clean, "integrate("))
    case LimitBranch => LimitCall(e, Arguments(clean, "limit("))
    case EquationBranch => EquationCall(e, clean, Arguments(clean, "solve("))
    case GeneralBranch => GeneralCall(e, clean)
  }

  /** Whether the numeric path answers: no letter in the expression, and
      neither the restricted `eval` nor printing its value raises (both sit in
      the `try` whose `except` falls through to the symbolic branches). */
  predicate NumericAnswers(e: Engine, clean: string) {
    !HasAlpha(clean) && e.eval(clean).Success? && e.show(e.eval(clean).value).Success?
  }

  /** `solve_expression` once the message `expression` has been normalised to
      `clean`. */
  function SolveCleaned(e: Engine, expression: string, clean: string): (r: Solution)
    ensures r.Solved? ==>
      |r.steps| >= 2 && r.steps[0] == RawInput(expression) && r.steps[1] == Cleaned(clean)
    ensures r.Failed? ==> r.steps == [Error(r.error)]
    ensures r.Solved? && r.kind == NumericType <==> NumericAnswers(e, clean)
    ensures r.Solved? && r.kind == NumericType ==>
      r.result == Some(e.eval(clean).value) && |r.steps| == 3
  {
    var echo := [RawInput(expression), Cleaned(clean)];
    if NumericAnswers(e, clean) then
      var v := e.eval(clean).value;
      Solved(Some(v), echo + [Numeric(clean, e.show(v).value)], NumericType)
    else
      match Symbolic(e, clean)
      case Success(o) => Solved(o.result, echo + o.steps, SymbolicType)
      case Failure(msg) => Failed(msg, [Error(msg)])
  }

  /** The result of `solve_expression(expression)`. */
  function Solve(e: Engine, expression: string): Solution {
    SolveCleaned(e, expression, Normalised(expression))
  }

  /** `solve_expression`: normalise, then answer. */
  method SolveExpression(e: Engine, expression: string) returns (res: Solution)
    ensures res == Solve(e, expression)
  {
    var clean := Preprocess(expression);
    res := SolveSteps(e, expression, clean);
  }

  /** The body of `solve_expression` after normalising, building the step list
      by appending. */
  method SolveSteps(e: Engine, expression: string, clean: string) returns (res: Solution)
    ensures res == SolveCleaned(e, expression, clean)
  {
    var steps: seq<Step> := [];
    steps := steps + [RawInput(expression)];
    steps := steps + [Cleaned(clean)];
    Appended2(RawInput(expression), Cleaned(clean));

    if !HasAlpha(clean) {
      var value := e.eval(clean);
      if value.Success? {
        var shown := e.show(value.value);
        if shown.Success? {
          steps := steps + [Numeric(clean, shown.value)];
          return Solved(Some(value.value), steps, NumericType);
        }
      }
    }

    var outcome := SymbolicSteps(e, clean);
    assert !NumericAnswers(e, clean);
    if outcome.Failure? {
      return Failed(outcome.error, [Error(outcome.error)]);
    }
    steps := steps + outcome.value.steps;
    return Solved(outcome.value.result, steps, SymbolicType);
  }

  /** The `if`/`elif` chain over the symbolic branches. */
  method SymbolicSteps(e: Engine, clean: string) returns (outcome: Result<Outcome>)
    ensures outcome == Symbolic(e, clean)
  {
    if Contains(clean, "diff") {
      var parts := Arguments(clean, "diff(");
      outcome := DiffSteps(e, parts);
    } else if Contains(clean, "integrate") {
      var parts := Arguments(clean, "integrate(");
      outcome := IntegrateSteps(e, parts);
    } else if Contains(clean, "limit") {
      var parts := Arguments(clean, "limit(");
      outcome := LimitSteps(e, parts);
    } else if Contains(clean, "solve") || Contains(clean, "=") {
      outcome := EquationSteps(e, clean);
    } else {
      outcome := GeneralSteps(e, clean);
    }
  }

  /** Appending one step at a time to an empty list. */
  lemma Appended2<T>(a: T, b: T)
    ensures [] + [a] + [b] == [a, b]
  {
  }

  lemma Appended3<T>(a: T, b: T, c: T)
    ensures [] + [a] + [b] + [c] == [a, b, c]
  {
  }

  lemma Appended4<T>(a: T, b: T, c: T, d: T)
    ensures [] + [a] + [b] + [c] + [d] == [a, b, c, d]
  {
  }

  /** The `diff` branch: the steps it appends and the result it sets. */
  method DiffSteps(e: Engine, parts: seq<string>) returns (r: Result<Outcome>)
    ensures r == DiffCall(e, parts)
  {
    var steps: seq<Step> := [];
    if |parts| != 2 {
      return Success(Outcome(None, steps));
    }
    var f := e.sympify(Strip(parts[0]));
    if f.Failure? { return Failure(f.error); }
    var v := e.sympify(Strip(parts[1]));
    if v.Failure? { return Failure(v.error); }
    var d := e.diff(f.value, v.value);
    if d.Failure? { return Failure(d.error); }
    var fs := e.show(f.value);
    if fs.Failure? { return Failure(fs.error); }
    steps := steps + [Function(fs.value)];
    var vs := e.show(v.value);
    if vs.Failure? { return Failure(vs.error); }
    steps := steps + [DiffVariable(vs.value)];
    var ds := e.show(d.value);
    if ds.Failure? { return Failure(ds.error); }
    steps := steps + [Derivative(ds.value)];
    Appended3(Function(fs.value), DiffVariable(vs.value), Derivative(ds.value));
    return Success(Outcome(Some(d.value), steps));
  }

  /** The `integrate` branch. */
  method IntegrateSteps(e: Engine, parts: seq<string>) returns (r: Result<Outcome>)
    ensures r == IntegrateCall(e, parts)
  {
    var steps: seq<Step> := [];
    if |parts| < 2 {
      return Success(Outcome(None, steps));
    }
    var f := e.sympify(Strip(parts[0]));
    if f.Failure? { return Failure(f.error); }
    var v := e.sympify(Strip(parts[1]));
    if v.Failure? { return Failure(v.error); }
    var i := e.integrate(f.value, v.value);
    if i.Failure? { return Failure(i.error); }
    var fs := e.show(f.value);
    if fs.Failure? { return Failure(fs.error); }
    steps := steps + [Function(fs.value)];
    var vs := e.show(v.value);
    if vs.Failure? { return Failure(vs.error); }
    steps := steps + [IntegrationVariable(vs.value)];
    var ints := e.show(i.value);
    if ints.Failure? { return Failure(ints.error); }
    steps := steps + [Integral(ints.value)];
    Appended3(Function(fs.value), IntegrationVariable(vs.value), Integral(ints.value));
    return Success(Outcome(Some(i.value), steps));
  }

  /** The `limit` branch. */
  method LimitSteps(e: Engine, parts: seq<string>) returns (r: Result<Outcome>)
    ensures r == LimitCall(e, parts)
  {
    var steps: seq<Step> := [];
    if |parts| < 3 {
      return Success(Outcome(None, steps));
    }
    var f := e.sympify(Strip(parts[0]));
    if f.Failure? { return Failure(f.error); }
    var v := e.sympify(Strip(parts[1]));
    if v.Failure? { return Failure(v.error); }
    var p := e.sympify(Strip(parts[2]));
    if p.Failure? { return Failure(p.error); }
    var l := e.limit(f.value, v.value, p.value);
    if l.Failure? { return Failure(l.error); }
    var fs := e.show(f.value);
    if fs.Failure? { return Failure(fs.error); }
    steps := steps + [Function(fs.value)];
    var vs := e.show(v.value);
    if vs.Failure? { return Failure(vs.error); }
    steps := steps + [LimitVariable(vs.value)];
    var ps := e.show(p.value);
    if ps.Failure? { return Failure(ps.error); }
    steps := steps + [Point(ps.value)];
    var ls := e.show(l.value);
    if ls.Failure? { return Failure(ls.error); }
    steps := steps + [Limit(ls.value)];
    Appended4(Function(fs.value), LimitVariable(vs.value), Point(ps.value), Limit(ls.value));
    return Success(Outcome(Some(l.value), steps));
  }

  /** The `solve` / `=` branch. */
  method EquationSteps(e: Engine, clean: string) returns (r: Result<Outcome>)
    ensures r == EquationCall(e, clean, Arguments(clean, "solve("))
  {
    var steps: seq<Step> := [];
    var equation: Result<Sym>;
    var variable: Result<Sym>;
    if Contains(clean, "solve") {
      var parts := Arguments(clean, "solve(");
      equation := e.sympify(Strip(parts[0]));
      if equation.Failure? { return Failure(equation.error); }
      variable := if |parts| > 1 then e.sympify(Strip(parts[1])) else Success(e.x);
    } else {
      equation := e.sympify(clean);
      if equation.Failure? { return Failure(equation.error); }
      variable := Success(e.x);
    }
    if variable.Failure? { return Failure(variable.error); }
    var solutions := e.solve(equation.value, variable.value);
    if solutions.Failure? { return Failure(solutions.error); }
    var eqs := e.show(equation.value);
    if eqs.Failure? { return Failure(eqs.error); }
    steps := steps + [Equation(eqs.value)];
    var ss := e.show(solutions.value);
    if ss.Failure? { return Failure(ss.error); }
    steps := steps + [Solutions(ss.value)];
    Appended2(Equation(eqs.value), Solutions(ss.value));
    return Success(Outcome(Some(solutions.value), steps));
  }

  /** The general branch: parse and simplify. */
  method GeneralSteps(e: Engine, clean: string) returns (r: Result<Outcome>)
    ensures r == GeneralCall(e, clean)
  {
    var steps: seq<Step> := [];
    var expr := e.sympify(clean);
    if expr.Failure? { return Failure(expr.error); }
    var simplified := e.simplify(expr.value);
    if simplified.Failure? { return Failure(simplified.error); }
    var es := e.show(expr.value);
    if es.Failure? { return Failure(es.error); }
    steps := steps + [Parsed(es.value)];
    var ss := e.show(simplified.value);
    if ss.Failure? { return Failure(ss.error); }
    steps := steps + [Simplified(ss.value)];
    Appended2(Parsed(es.value), Simplified(ss.value));
    return Success(Outcome(Some(simplified.value), steps));
  }

  // ---------------------------------------------------------------------------
  // Properties of the dispatcher

  /** A symbolic branch that makes no call leaves only the two echo steps and
      no result, and still reports success. */
  lemma NoCallNoResult(e: Engine, expression: string, clean: string)
    requires !NumericAnswers(e, clean)
    requires Symbolic(e, clean) == Success(Outcome(None, []))
    ensures SolveCleaned(e, expression, clean) == Solved(None, [RawInput(expression), Cleaned(clean)], SymbolicType)
  {
    assert [RawInput(expression), Cleaned(clean)] + [] == [RawInput(expression), Cleaned(clean)];
  }

  /** A keyword that starts with a letter makes the text hold a letter: the
      numeric path is never tried on the `diff`, `integrate` or `limit` branch. */
  lemma KeywordHasLetter(clean: string, w: string)
    requires Contains(clean, w) && |w| > 0 && IsAlpha(w[0])
    ensures HasAlpha(clean)
  {
    var i := Occurrence(clean, w);
    assert clean[i..i + |w|][0] == clean[i];
  }

  /** On the `diff` branch, other than exactly one comma means success with no
      result: `diff` needs exactly two arguments. */
  lemma DiffArity(e: Engine, expression: string, clean: string)
    requires Classify(clean) == DiffBranch
    requires multiset(clean)[','] != 1
    ensures SolveCleaned(e, expression, clean) == Solved(None, [RawInput(expression), Cleaned(clean)], SymbolicType)
  {
    KeywordHasLetter(clean, "diff");
    ArgumentsCount(clean, "diff(");
    NoCallNoResult(e, expression, clean);
  }

  /** On the `integrate` branch, no comma means success with no result:
      `integrate` needs at least two arguments. */
  lemma IntegrateArity(e: Engine, expression: string, clean: string)
    requires Classify(clean) == IntegrateBranch
    requires multiset(clean)[','] == 0
    ensures SolveCleaned(e, expression, clean) == Solved(None, [RawInput(expression), Cleaned(clean)], SymbolicType)
  {
    KeywordHasLetter(clean, "integrate");
    ArgumentsCount(clean, "integrate(");
    NoCallNoResult(e, expression, clean);
  }

  /** On the `limit` branch, fewer than two commas means success with no result:
      `limit` needs at least three arguments. */
  lemma LimitArity(e: Engine, expression: string, clean: string)
    requires Classify(clean) == LimitBranch
    requires multiset(clean)[','] < 2
    ensures SolveCleaned(e, expression, clean) == Solved(None, [RawInput(expression), Cleaned(clean)], SymbolicType)
  {
    KeywordHasLetter(clean, "limit");
    ArgumentsCount(clean, "limit(");
    NoCallNoResult(e, expression, clean);
  }

  /** A `solve` call without a comma, and a bare equation whatever its commas,
      solve for `x`. */
  lemma EquationDefaultsToX(e: Engine, expression: string, clean: string, eq: Sym, sols: Sym,
                            eqText: string, solsText: string)
    requires !NumericAnswers(e, clean)
    requires Classify(clean) == EquationBranch
    requires Contains(clean, "solve") ==> multiset(clean)[','] == 0
    requires e.sympify(if Contains(clean, "solve") then Strip(Arguments(clean, "solve(")[0]) else clean) == Success(eq)
    requires e.solve(eq, e.x) == Success(sols)
    requires e.show(eq) == Success(eqText) && e.show(sols) == Success(solsText)
    ensures SolveCleaned(e, expression, clean) ==
      Solved(Some(sols), [RawInput(expression), Cleaned(clean), Equation(eqText), Solutions(solsText)], SymbolicType)
  {
    ArgumentsCount(clean, "solve(");
    assert [RawInput(expression), Cleaned(clean)] + [Equation(eqText), Solutions(solsText)]
      == [RawInput(expression), Cleaned(clean), Equation(eqText), Solutions(solsText)];
  }

  /** An engine none of whose calls raises. */
  ghost predicate NeverRaises(e: Engine) {
    && (forall s :: e.sympify(s).Success?)
    && (forall a, b :: e.diff(a, b).Success?)
    && (forall a, b :: e.integrate(a, b).Success?)
    && (forall a, b, c :: e.limit(a, b, c).Success?)
    && (forall a, b :: e.solve(a, b).Success?)
    && (forall a :: e.simplify(a).Success?)
    && (forall a :: e.show(a).Success?)
  }

  /** With an engine that never raises, no symbolic branch fails. */
  lemma SymbolicSucceeds(e: Engine, clean: string)
    requires NeverRaises(e)
    ensures Symbolic(e, clean).Success?
  {
    match Classify(clean)
    case DiffBranch => assert DiffCall(e, Arguments(clean, "diff(")).Success?;
    case IntegrateBranch => assert IntegrateCall(e, Arguments(clean, "integrate(")).Success?;
    case LimitBranch => assert LimitCall(e, Arguments(clean, "limit(")).Success?;
    case EquationBranch => assert EquationCall(e, clean, Arguments(clean, "solve(")).Success?;
    case GeneralBranch => assert GeneralCall(e, clean).Success?;
  }

  /** Every failure comes from a library call: the dispatcher's own string work
      never raises. */
  lemma FailuresComeFromEngine(e: Engine, expression: string, clean: string)
    requires NeverRaises(e)
    ensures SolveCleaned(e, expression, clean).Solved?
  {
    SymbolicSucceeds(e, clean);
  }
}
