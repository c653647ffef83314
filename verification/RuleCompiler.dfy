/** A whole rule as code: find the match, test repeated metas and conditions, rewrite. */
module RuleCompiler {
  import opened Options
  import opened Patterns
  import opened MatcherCode
  import opened Matchers
  import opened NestedMatchers

  /** The variable a meta is read from: its first occurrence. */
  function FirstTrail(p: Pattern, n: nat): Trail {
    var trails := Trails(p, n, []);
    if trails == [] then [] else trails[0]
  }

  /** A template with every meta replaced by its variable. */
  function Filled(p: Pattern, t: Template): Value {
    match t
    case Hole(n) => Use(FirstTrail(p, n))
    case Lit(v) => Number(v)
    case Build(f, args) => Make(f, seq(|args|, i requires 0 <= i < |args| => Filled(p, args[i])))
  }

  /** What a rule does to a formula. */
  ghost predicate Correct(rule: Rule, t: Term, checks: Checks, o: Outcome) {
    && o.Returned?
    && (o.ok ==> exists binding ::
          Applies(rule, t, binding, checks) && o.result == Some(Instantiate(rule.to, binding)))
    && (!o.ok ==> o.result == None && forall binding :: !Applies(rule, t, binding, checks))
  }

  /** There is no choice in how a rule rewrites a formula. */
  lemma CorrectIsUnique(sig: Signature, rule: Rule, t: Term, checks: Checks, a: Outcome, b: Outcome)
    requires RuleOk(sig, rule) && Correct(rule, t, checks, a) && Correct(rule, t, checks, b)
    ensures a == b
  {
    if a.ok && b.ok {
      var x :| Applies(rule, t, x, checks) && a.result == Some(Instantiate(rule.to, x));
      var y :| Applies(rule, t, y, checks) && b.result == Some(Instantiate(rule.to, y));
      MatchIsUnique(rule.from, t, x, y);
      InstantiateAgrees(rule.to, x, y);
    }
  }

  /** What a rule accepts is an instance of its pattern that passes all checks. */
  lemma AcceptedMeans(rule: Rule, t: Term, checks: Checks, o: Outcome)
    requires Correct(rule, t, checks, o) && o.ok
    ensures checks(rule.whole, t)
    ensures exists binding ::
      && Instantiate(AsTemplate(rule.from), binding) == Spelled(rule.from, t)
      && o.result == Some(Instantiate(rule.to, binding))
      && forall c | c in rule.conditions :: checks(c.0, Instantiate(c.1, binding))
  {
    var binding :| Applies(rule, t, binding, checks) && o.result == Some(Instantiate(rule.to, binding));
    InstanceOfMatch(rule.from, t, binding);
  }

  /** If the code accepts the formula, it rewrites it to itself. */
  predicate Keeps(t: Term, o: Outcome) {
    o.Returned? && (o.ok ==> o.result == Some(t))
  }

  /** A rule whose right-hand side repeats its pattern changes nothing. */
  lemma RepeatingKeeps(rule: Rule, t: Term, checks: Checks, o: Outcome)
    requires Correct(rule, t, checks, o)
    requires OptFree(rule.from) && rule.to == AsTemplate(rule.from)
    ensures Keeps(t, o)
  {
    if o.ok {
      AcceptedMeans(rule, t, checks, o);
      SpelledSame(rule.from, t);
    }
  }

  /** A rule whose right-hand side is a formula without metas rewrites to that formula. */
  lemma LiteralResult(rule: Rule, t: Term, u: Term, checks: Checks, o: Outcome)
    requires Correct(rule, t, checks, o) && o.ok && rule.to == AsTemplate(Quote(u))
    ensures o.result == Some(u)
  {
    var binding :| Applies(rule, t, binding, checks) && o.result == Some(Instantiate(rule.to, binding));
    QuoteIsItself(u, binding);
  }

  // ----- the final test

  /** All pairs of occurrences of one meta. */
  method EqualityConditions(trails: seq<Trail>) returns (equal: seq<(Trail, Trail)>)
    ensures forall i, j | 0 <= i < j < |trails| :: (trails[i], trails[j]) in equal
    ensures forall e | e in equal :: e.0 in trails && e.1 in trails
  {
    equal := [];
    for i := 0 to |trails|
      invariant forall a, b | 0 <= a < i && a < b < |trails| :: (trails[a], trails[b]) in equal
      invariant forall e | e in equal :: e.0 in trails && e.1 in trails
    {
      for j := i + 1 to |trails|
        invariant forall a, b | 0 <= a < i && a < b < |trails| :: (trails[a], trails[b]) in equal
        invariant forall b | i < b < j :: (trails[i], trails[b]) in equal
        invariant forall e | e in equal :: e.0 in trails && e.1 in trails
      {
        equal := equal + [(trails[i], trails[j])];
      }
    }
  }

  predicate PairOf(p: Pattern, n: nat, e: (Trail, Trail)) {
    e.0 in Trails(p, n, []) && e.1 in Trails(p, n, [])
  }

  /** The pairs compare occurrences of the same meta, and all of them. */
  ghost predicate ComparesUpTo(p: Pattern, n: nat, equal: seq<(Trail, Trail)>) {
    && (forall e | e in equal :: exists k: nat :: PairOf(p, k, e))
    && (forall k, i, j | 0 <= k < n && 0 <= i < j < |Trails(p, k, [])| ::
          (Trails(p, k, [])[i], Trails(p, k, [])[j]) in equal)
  }

  function Checked(rule: Rule): seq<(string, Value)> {
    seq(|rule.conditions|, i requires 0 <= i < |rule.conditions| =>
      (rule.conditions[i].0, Filled(rule.from, rule.conditions[i].1)))
    + [(rule.whole, Use([]))]
  }

  /** The test all metas, conditions and the global condition go into. */
  method FinalTest(rule: Rule) returns (test: Test)
    ensures test.Final? && ComparesUpTo(rule.from, MAX_META, test.equal) && test.checked == Checked(rule)
  {
    var equal := [];
    for n := 0 to MAX_META
      invariant ComparesUpTo(rule.from, n, equal)
    {
      var trails := FindTrails(rule.from, n, []);
      var more := EqualityConditions(trails);
      assert forall e | e in more :: PairOf(rule.from, n, e);
      equal := equal + more;
    }
    var checked := [];
    for i := 0 to |rule.conditions|
      invariant checked == Checked(rule)[..i]
    {
      checked := checked + [(rule.conditions[i].0, Filled(rule.from, rule.conditions[i].1))];
    }
    checked := checked + [(rule.whole, Use([]))];
    assert checked == Checked(rule);
    test := Final(equal, checked);
  }

  /** What the metas stand for, read from the variables. */
  function BindingOf(p: Pattern, m: map<Trail, Term>): map<nat, Term> {
    map n | n in Metas(p) && FirstTrail(p, n) in m :: m[FirstTrail(p, n)]
  }

  ghost predicate Consistent(p: Pattern, m: map<Trail, Term>) {
    forall n, y, z | y in Trails(p, n, []) && z in Trails(p, n, []) :: y in m && z in m && m[y] == m[z]
  }

  /** The only binding that can agree with the variables is the one read from them. */
  lemma ConsistentIff(p: Pattern, m: map<Trail, Term>)
    requires Covers(p, [], m)
    ensures Consistent(p, m) <==> Agrees(p, [], m, BindingOf(p, m))
    ensures forall binding :: Agrees(p, [], m, binding) ==> Consistent(p, m)
  {
    forall n
      ensures Trails(p, n, []) != [] <==> n in Metas(p)
      ensures Trails(p, n, []) != [] ==> FirstTrail(p, n) in Trails(p, n, []) && FirstTrail(p, n) in m
    {
      TrailsOccur(p, n, []);
    }
    forall binding | Agrees(p, [], m, binding)
      ensures Consistent(p, m)
    {
      forall n, y, z | y in Trails(p, n, []) && z in Trails(p, n, [])
        ensures y in m && z in m && m[y] == m[z]
      {
        assert Matchers.Carries(n, y, m, binding) && Matchers.Carries(n, z, m, binding);
      }
    }
    if Consistent(p, m) {
      forall n, y | y in Trails(p, n, [])
        ensures Matchers.Carries(n, y, m, BindingOf(p, m))
      {
        assert FirstTrail(p, n) in Trails(p, n, []);
        assert m[y] == m[FirstTrail(p, n)];
      }
    }
  }

  /** All comparisons hold exactly if every meta has one value. */
  lemma ComparesConsistent(sig: Signature, rule: Rule, m: map<Trail, Term>, equal: seq<(Trail, Trail)>)
    requires RuleOk(sig, rule) && Covers(rule.from, [], m) && ComparesUpTo(rule.from, MAX_META, equal)
    ensures forall e | e in equal :: e.0 in m && e.1 in m
    ensures Consistent(rule.from, m) <==> forall e | e in equal :: e.0 in m && e.1 in m && m[e.0] == m[e.1]
  {
    var p := rule.from;
    forall e | e in equal
      ensures e.0 in m && e.1 in m
      ensures Consistent(p, m) ==> m[e.0] == m[e.1]
    {
      var n: nat :| PairOf(p, n, e);
    }
    if forall e | e in equal :: e.0 in m && e.1 in m && m[e.0] == m[e.1] {
      forall n, y, z | y in Trails(p, n, []) && z in Trails(p, n, [])
        ensures y in m && z in m && m[y] == m[z]
      {
        TrailsOccur(p, n, []);
        var trails := Trails(p, n, []);
        var i, j :| 0 <= i < |trails| && 0 <= j < |trails| && trails[i] == y && trails[j] == z;
        if i < j {
          assert (trails[i], trails[j]) in equal;
        } else if j < i {
          assert (trails[j], trails[i]) in equal;
        }
      }
    }
  }

  /** Every variable used in a condition or in the replacement has a value, and it is the meta's. */
  lemma {:induction false} FilledComputes(p: Pattern, m: map<Trail, Term>, t: Template, s: State)
    requires Holes(t) <= Metas(p) && Covers(p, [], m)
    requires forall y | y in m :: Lookup(s, y) == Some(m[y])
    ensures Compute(Filled(p, t), s) == Some(Instantiate(t, BindingOf(p, m)))
  {
    match t
    case Hole(n) =>
      assert n in Holes(t);
      TrailsOccur(p, n, []);
      assert FirstTrail(p, n) in Trails(p, n, []);
    case Lit(_) =>
    case Build(f, args) =>
      forall i | 0 <= i < |args|
        ensures Compute(Filled(p, args[i]), s) == Some(Instantiate(args[i], BindingOf(p, m)))
      {
        assert forall n | n in Holes(args[i]) :: n in Holes(t);
        FilledComputes(p, m, args[i], s);
      }
      var values := seq(|args|, i requires 0 <= i < |args| => Filled(p, args[i]));
      var c := Compute(Make(f, values), s);
      assert forall i | 0 <= i < |args| :: values[i] == Filled(p, args[i]);
      assert c.Some?;
      var built := Instantiate(t, BindingOf(p, m)).args;
      assert c.value.args == built;
  }

  // ----- the whole rule

  /** The formula is in scope under its own name. */
  function Start(t: Term): State {
    State(map[[] := Some(t)], None)
  }

  function Body(rule: Rule): seq<Line> {
    [Replace(Filled(rule.from, rule.to)), Return(true)]
  }

  /** If any binding makes the rule applicable, the one read from the variables does. */
  lemma OnlyBinding(sig: Signature, rule: Rule, t: Term, m: map<Trail, Term>, other: map<nat, Term>, checks: Checks)
    requires RuleOk(sig, rule) && Bind(rule.from, t, []) == Some(m)
    requires Applies(rule, t, other, checks)
    ensures Applies(rule, t, BindingOf(rule.from, m), checks)
  {
    var binding := BindingOf(rule.from, m);
    BindCovers(rule.from, t, []);
    MatchesIff(rule.from, t, [], other);
    ConsistentIff(rule.from, m);
    MatchesIff(rule.from, t, [], binding);
    MatchIsUnique(rule.from, t, other, binding);
    forall i | 0 <= i < |rule.conditions|
      ensures checks(rule.conditions[i].0, Instantiate(rule.conditions[i].1, binding))
    {
      assert rule.conditions[i] in rule.conditions;
      InstantiateAgrees(rule.conditions[i].1, other, binding);
    }
  }

  ghost predicate ConditionsHold(rule: Rule, t: Term, binding: map<nat, Term>, checks: Checks) {
    && checks(rule.whole, t)
    && forall i | 0 <= i < |rule.conditions| :: checks(rule.conditions[i].0, Instantiate(rule.conditions[i].1, binding))
  }

  lemma ConditionsEvaluate(sig: Signature, rule: Rule, t: Term, m: map<Trail, Term>, s: State, checks: Checks)
    requires RuleOk(sig, rule) && Covers(rule.from, [], m)
    requires [] in m && m[[]] == t && forall y | y in m :: Lookup(s, y) == Some(m[y])
    ensures forall c | c in Checked(rule) :: Compute(c.1, s).Some?
    ensures (forall c | c in Checked(rule) :: checks(c.0, Compute(c.1, s).value))
       <==> ConditionsHold(rule, t, BindingOf(rule.from, m), checks)
  {
    var binding, checked := BindingOf(rule.from, m), Checked(rule);
    var n := |rule.conditions|;
    assert |checked| == n + 1 && checked[n] == (rule.whole, Use([]));
    forall i | 0 <= i < n
      ensures checked[i].0 == rule.conditions[i].0
      ensures Compute(checked[i].1, s) == Some(Instantiate(rule.conditions[i].1, binding))
    {
      assert rule.conditions[i] in rule.conditions;
      FilledComputes(rule.from, m, rule.conditions[i].1, s);
    }
    assert Compute(checked[n].1, s) == Some(t);
    if forall c | c in checked :: checks(c.0, Compute(c.1, s).value) {
      assert checked[n] in checked;
      forall i | 0 <= i < n
        ensures checks(rule.conditions[i].0, Instantiate(rule.conditions[i].1, binding))
      {
        assert checked[i] in checked;
      }
    }
  }

  lemma TestEvaluates(sig: Signature, rule: Rule, t: Term, test: Test, m: map<Trail, Term>, s: State, checks: Checks)
    requires RuleOk(sig, rule) && TermOk(sig, t) && Bind(rule.from, t, []) == Some(m)
    requires forall y | y in m :: Lookup(s, y) == Some(m[y])
    requires test.Final? && ComparesUpTo(rule.from, MAX_META, test.equal) && test.checked == Checked(rule)
    ensures Evaluate(test, s, checks) == Some(Applies(rule, t, BindingOf(rule.from, m), checks))
  {
    hide Bind, BindKids, Matches, RuleOk, TermOk, Covers, Agrees, Consistent, Checked, Compute, BindingOf, ComparesUpTo, Lookup;
    BindCovers(rule.from, t, []);
    BindKeys(rule.from, t, []);
    ComparesConsistent(sig, rule, m, test.equal);
    ConsistentIff(rule.from, m);
    MatchesIff(rule.from, t, [], BindingOf(rule.from, m));
    ConditionsEvaluate(sig, rule, t, m, s, checks);
    assert forall e | e in test.equal :: Lookup(s, e.0) == Some(m[e.0]) && Lookup(s, e.1) == Some(m[e.1]);
    assert Applies(rule, t, BindingOf(rule.from, m), checks)
      <==> Matches(rule.from, t, BindingOf(rule.from, m)) && ConditionsHold(rule, t, BindingOf(rule.from, m), checks);
  }

  /** Once the shape fits, the final test accepts exactly the formulas the rule applies to, and the
      body rewrites them as the rule says. */
  lemma FinalDecides(sig: Signature, rule: Rule, t: Term, test: Test, checks: Checks)
    requires RuleOk(sig, rule) && TermOk(sig, t) && Bind(rule.from, t, []).Some?
    requires test.Final? && ComparesUpTo(rule.from, MAX_META, test.equal) && test.checked == Checked(rule)
    ensures var s := With(Start(t), Bind(rule.from, t, []).value);
      var o := Run([If(test, Body(rule), [])], s, checks);
      Correct(rule, t, checks, if o.Fell? then Returned(false, o.state.result) else o)
  {
    hide Bind, BindKids, Matches, Evaluate, ComparesUpTo, Checked, RuleOk, TermOk;
    var p, m := rule.from, Bind(rule.from, t, []).value;
    var s, binding := With(Start(t), m), BindingOf(p, m);
    BindCovers(p, t, []);
    assert forall y | y in m :: Lookup(s, y) == Some(m[y]);
    TestEvaluates(sig, rule, t, test, m, s, checks);
    RunOne(If(test, Body(rule), []), s, checks);
    if Applies(rule, t, binding, checks) {
      HolesCovered(sig, rule);
      FilledComputes(p, m, rule.to, s);
      RunTwo(Replace(Filled(p, rule.to)), Return(true), s, checks);
    } else {
      LeaveSame(s);
      forall other
        ensures !Applies(rule, t, other, checks)
      {
        if Applies(rule, t, other, checks) {
          OnlyBinding(sig, rule, t, m, other, checks);
          assert false;
        }
      }
    }
  }

  lemma HolesCovered(sig: Signature, rule: Rule)
    requires RuleOk(sig, rule)
    ensures Holes(rule.to) <= Metas(rule.from)
  {}

  /** Without a fitting shape no binding helps. */
  lemma ShapeDecides(rule: Rule, t: Term, checks: Checks)
    requires Bind(rule.from, t, []).None?
    ensures Correct(rule, t, checks, Returned(false, None))
  {
    forall binding
      ensures !Applies(rule, t, binding, checks)
    {
      MatchesIff(rule.from, t, [], binding);
    }
  }

  lemma StartReady(t: Term)
    ensures Ready(Start(t), [], t)
  {}

  lemma ExitsCorrect(sig: Signature, rule: Rule, t: Term, test: Test, checks: Checks)
    requires RuleOk(sig, rule) && TermOk(sig, t)
    requires test.Final? && ComparesUpTo(rule.from, MAX_META, test.equal) && test.checked == Checked(rule)
    ensures Correct(rule, t, checks,
      Run(Exits(sig, rule.from, []) + [If(test, Body(rule), [])] + [Return(false)], Start(t), checks))
  {
    hide Bind, BindKids, Run, RunLine, ComparesUpTo, Checked, Correct, Ready, Exits;
    var s, m, last := Start(t), Bind(rule.from, t, []), [If(test, Body(rule), [])];
    StartReady(t);
    ExitsRun(sig, rule.from, t, [], s, checks);
    Regroup(Exits(sig, rule.from, []), last, [Return(false)]);
    RunAppend(Exits(sig, rule.from, []), last + [Return(false)], s, checks);
    if m.Some? {
      FinalDecides(sig, rule, t, test, checks);
      RunAppend(last, [Return(false)], With(s, m.value), checks);
      ReturnsFalse(Run(last, With(s, m.value), checks), checks);
    } else {
      ShapeDecides(rule, t, checks);
    }
  }

  lemma ReturnsFalse(o: Outcome, checks: Checks)
    ensures o.Fell? ==> Run([Return(false)], o.state, checks) == Returned(false, o.state.result)
  {
    if o.Fell? {
      RunOne(Return(false), o.state, checks);
    }
  }

  lemma NestedCorrect(sig: Signature, rule: Rule, t: Term, test: Test, block: seq<Line>, checks: Checks)
    requires RuleOk(sig, rule) && TermOk(sig, t)
    requires test.Final? && ComparesUpTo(rule.from, MAX_META, test.equal) && test.checked == Checked(rule)
    requires Nests(sig, rule.from, [], block)
    ensures Correct(rule, t, checks,
      Run(Fill(block, [If(test, Body(rule), [])]) + [Return(false)], Start(t), checks))
  {
    var s, m, last := Start(t), Bind(rule.from, t, []), [If(test, Body(rule), [])];
    var filled := Fill(block, last);
    assert Strip(filled) == Nest(sig, rule.from, [], Strip(last));
    LastPlain(test, rule);
    hide Bind, BindKids, Run, RunLine, ComparesUpTo, Checked, Correct, Ready, Nests, Nest, Fill, Strip;
    StripRuns(filled, s, checks);
    StartReady(t);
    NestRuns(sig, rule.from, t, [], last, s, checks);
    RunAppend(filled, [Return(false)], s, checks);
    ReturnsFalse(Run(filled, s, checks), checks);
    if m.Some? {
      FinalDecides(sig, rule, t, test, checks);
    } else {
      ShapeDecides(rule, t, checks);
    }
  }

  lemma LastPlain(test: Test, rule: Rule)
    ensures Strip([If(test, Body(rule), [])]) == [If(test, Body(rule), [])]
  {
    PairPlain(Replace(Filled(rule.from, rule.to)), Return(true));
    var line := If(test, Body(rule), []);
    assert [line][1..] == [];
    assert StripLine(line) == line;
  }

  /** Compiling a rule, with nested ifs (the default) or with early exits.  Both do what the rule
      says on every formula, whatever the conditions check, and never read what is not there.  But a
      rule whose pattern is a single meta has no place for the final test in the nested form, and
      never applies. */
  method CreateCodeFromMetaRule(sig: Signature, rule: Rule, positive: bool) returns (code: seq<Line>)
    requires RuleOk(sig, rule)
    ensures !positive || !rule.from.Meta? ==>
      forall t, checks | TermOk(sig, t) :: Correct(rule, t, checks, Run(code, Start(t), checks))
    ensures positive && rule.from.Meta? ==> forall t, checks :: Run(code, Start(t), checks) == Returned(false, None)
    ensures OptFree(rule.from) && rule.to == AsTemplate(rule.from) ==>
      forall t, checks | TermOk(sig, t) :: Keeps(t, Run(code, Start(t), checks))
  {
    hide Correct, Run, Fill, Exits, Nests, AsTemplate, OptFree;
    var definitions;
    if positive {
      var deepest;
      definitions, deepest := CreateNested(sig, rule.from, [], true);
    } else {
      definitions := CreateExits(sig, rule.from, []);
    }
    var test := FinalTest(rule);
    var last := If(test, Body(rule), []);
    if positive {
      if HasPlaceholder(definitions) {
        code := Fill(definitions, [last]);
      } else {
        code := definitions;
      }
    } else {
      code := definitions + [last];
    }
    code := code + [Return(false)];
    NestsHas(sig, rule.from, definitions);
    forall t, checks | TermOk(sig, t) && (!positive || !rule.from.Meta?)
      ensures Correct(rule, t, checks, Run(code, Start(t), checks))
    {
      if positive {
        NestedCorrect(sig, rule, t, test, definitions, checks);
      } else {
        ExitsCorrect(sig, rule, t, test, checks);
      }
    }
    forall t, checks | TermOk(sig, t) && OptFree(rule.from) && rule.to == AsTemplate(rule.from)
      ensures (!positive || !rule.from.Meta?) ==> Keeps(t, Run(code, Start(t), checks))
    {
      if !positive || !rule.from.Meta? {
        RepeatingKeeps(rule, t, checks, Run(code, Start(t), checks));
      }
    }
    forall t, checks | positive && rule.from.Meta?
      ensures Run(code, Start(t), checks) == Returned(false, None)
    {
      ReturnsFalse(Fell(Start(t)), checks);
      assert code == [Return(false)];
    }
  }

  lemma NestsHas(sig: Signature, p: Pattern, block: seq<Line>)
    ensures Nests(sig, p, [], block) ==> HasPlaceholder(block)
  {}

  /** Code that meets what is promised of the two styles agrees on all formulas and checks exactly if
      the pattern of the rule is not a single meta. */
  lemma StylesAgree(sig: Signature, rule: Rule, exits: seq<Line>, nested: seq<Line>)
    requires RuleOk(sig, rule)
    requires forall t, checks | TermOk(sig, t) :: Correct(rule, t, checks, Run(exits, Start(t), checks))
    requires !rule.from.Meta? ==>
      forall t, checks | TermOk(sig, t) :: Correct(rule, t, checks, Run(nested, Start(t), checks))
    requires rule.from.Meta? ==> forall t, checks :: Run(nested, Start(t), checks) == Returned(false, None)
    ensures (forall t, checks | TermOk(sig, t) :: Run(exits, Start(t), checks) == Run(nested, Start(t), checks))
       <==> !rule.from.Meta?
  {
    if !rule.from.Meta? {
      forall t, checks | TermOk(sig, t)
        ensures Run(exits, Start(t), checks) == Run(nested, Start(t), checks)
      {
        CorrectIsUnique(sig, rule, t, checks, Run(exits, Start(t), checks), Run(nested, Start(t), checks));
      }
    } else {
      var t: Term, always: Checks := Num(0), (name, term) => true;
      assert TermOk(sig, t);
      assert Applies(rule, t, map[rule.from.num := t], always);
      assert Correct(rule, t, always, Run(exits, Start(t), always));
      assert Run(exits, Start(t), always).ok;
    }
  }
}
