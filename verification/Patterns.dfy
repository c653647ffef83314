/** Formulas as rewrite rules see them, the patterns of rules, and what it means to match. */
module Patterns {

  datatype Term =
    | Num(value: int)
    | Op(name: string, args: seq<Term>)

  /** A pattern.  Opt is a binary operator one of whose operands is optional: the meta numbered num
      at the first or second place, standing for deflt when the operator is absent. */
  datatype Pattern =
    | Meta(num: nat)
    | Const(value: int)
    | Node(name: string, kids: seq<Pattern>)
    | Opt(name: string, first: bool, num: nat, deflt: Term, other: Pattern)

  /** The right-hand side of a rule. */
  datatype Template =
    | Hole(num: nat)
    | Lit(value: int)
    | Build(name: string, args: seq<Template>)

  /** Rewrite from into to where every condition and the global condition hold. */
  datatype Rule = Rule(from: Pattern, to: Template, conditions: seq<(string, Template)>, whole: string)

  /** An operator either has one fixed number of operands or is overloaded. */
  datatype Arity = Fixed(n: nat) | Overloaded

  type Signature = string -> Arity

  predicate Fits(sig: Signature, name: string, n: nat) {
    sig(name).Fixed? ==> sig(name).n == n
  }

  predicate TermOk(sig: Signature, t: Term) {
    t.Op? ==> Fits(sig, t.name, |t.args|) && forall i | 0 <= i < |t.args| :: TermOk(sig, t.args[i])
  }

  predicate PatternOk(sig: Signature, p: Pattern) {
    match p
    case Meta(_) => true
    case Const(_) => true
    case Node(f, kids) => Fits(sig, f, |kids|) && forall i | 0 <= i < |kids| :: PatternOk(sig, kids[i])
    case Opt(f, _, _, _, other) => Fits(sig, f, 2) && PatternOk(sig, other)
  }

  function Metas(p: Pattern): set<nat> {
    match p
    case Meta(n) => {n}
    case Const(_) => {}
    case Node(_, kids) => set i, n | 0 <= i < |kids| && n in Metas(kids[i]) :: n
    case Opt(_, _, n, _, other) => {n} + Metas(other)
  }

  function Holes(t: Template): set<nat> {
    match t
    case Hole(n) => {n}
    case Lit(_) => {}
    case Build(_, args) => set i, n | 0 <= i < |args| && n in Holes(args[i]) :: n
  }

  /** Every meta a rule uses occurs in its pattern, and meta numbers stay below the limit. */
  predicate RuleOk(sig: Signature, rule: Rule) {
    && PatternOk(sig, rule.from)
    && Holes(rule.to) <= Metas(rule.from)
    && (forall c | c in rule.conditions :: Holes(c.1) <= Metas(rule.from))
    && forall n | n in Metas(rule.from) :: n < MAX_META
  }

  const MAX_META := 100

  predicate IsOp(t: Term, name: string, n: nat) {
    t.Op? && t.name == name && |t.args| == n
  }

  /** The operands of a binary pattern with an optional operand; when the operator is absent, the
      formula itself and the default. */
  function Operands(p: Pattern, t: Term): (parts: seq<Term>)
    requires p.Opt?
    ensures |parts| == 2
  {
    if IsOp(t, p.name, 2) then t.args
    else if p.first then [p.deflt, t]
    else [t, p.deflt]
  }

  /** The place of the optional operand. */
  function Side(p: Pattern): nat
    requires p.Opt?
  {
    if p.first then 0 else 1
  }

  /** The pattern matches the formula with the metas standing for what the binding says. */
  predicate Matches(p: Pattern, t: Term, binding: map<nat, Term>) {
    match p
    case Meta(n) => n in binding && binding[n] == t
    case Const(v) => t == Num(v)
    case Node(f, kids) =>
      IsOp(t, f, |kids|) && forall i | 0 <= i < |kids| :: Matches(kids[i], t.args[i], binding)
    case Opt(_, _, n, _, other) =>
      var parts := Operands(p, t);
      n in binding && binding[n] == parts[Side(p)] && Matches(other, parts[1 - Side(p)], binding)
  }

  function Instantiate(t: Template, binding: map<nat, Term>): Term {
    match t
    case Hole(n) => if n in binding then binding[n] else Num(0)
    case Lit(v) => Num(v)
    case Build(f, args) => Op(f, seq(|args|, i requires 0 <= i < |args| => Instantiate(args[i], binding)))
  }

  /** The semantic checks that conditions of rules refer to. */
  type Checks = (string, Term) -> bool

  /** The rule applies to the formula under this binding. */
  predicate Applies(rule: Rule, t: Term, binding: map<nat, Term>, checks: Checks) {
    && Matches(rule.from, t, binding)
    && (forall i | 0 <= i < |rule.conditions| ::
          checks(rule.conditions[i].0, Instantiate(rule.conditions[i].1, binding)))
    && checks(rule.whole, t)
  }

  /** Two bindings under which a pattern matches agree on its metas. */
  lemma {:induction false} MatchIsUnique(p: Pattern, t: Term, a: map<nat, Term>, b: map<nat, Term>)
    requires Matches(p, t, a) && Matches(p, t, b)
    ensures forall n | n in Metas(p) :: n in a && n in b && a[n] == b[n]
  {
    match p
    case Meta(_) =>
    case Const(_) =>
    case Node(_, kids) =>
      forall i | 0 <= i < |kids|
        ensures forall n | n in Metas(kids[i]) :: n in a && n in b && a[n] == b[n]
      {
        MatchIsUnique(kids[i], t.args[i], a, b);
      }
    case Opt(_, _, _, _, other) =>
      MatchIsUnique(other, Operands(p, t)[1 - Side(p)], a, b);
  }

  lemma {:induction false} InstantiateAgrees(t: Template, a: map<nat, Term>, b: map<nat, Term>)
    requires forall n | n in Holes(t) :: n in a && n in b && a[n] == b[n]
    ensures Instantiate(t, a) == Instantiate(t, b)
  {
    match t
    case Hole(n) => assert n in Holes(t);
    case Lit(_) =>
    case Build(_, args) =>
      forall i | 0 <= i < |args|
        ensures Instantiate(args[i], a) == Instantiate(args[i], b)
      {
        assert forall n | n in Holes(args[i]) :: n in Holes(t);
        InstantiateAgrees(args[i], a, b);
      }
      assert seq(|args|, i requires 0 <= i < |args| => Instantiate(args[i], a))
          == seq(|args|, i requires 0 <= i < |args| => Instantiate(args[i], b));
  }

  // ----- patterns as templates

  /** Without optional operands. */
  predicate OptFree(p: Pattern) {
    match p
    case Meta(_) => true
    case Const(_) => true
    case Node(_, kids) => forall i | 0 <= i < |kids| :: OptFree(kids[i])
    case Opt(_, _, _, _, _) => false
  }

  /** The pattern read as a right-hand side, with every operator written out. */
  function AsTemplate(p: Pattern): Template {
    match p
    case Meta(n) => Hole(n)
    case Const(v) => Lit(v)
    case Node(f, kids) => Build(f, seq(|kids|, i requires 0 <= i < |kids| => AsTemplate(kids[i])))
    case Opt(f, first, n, _, other) =>
      Build(f, if first then [Hole(n), AsTemplate(other)] else [AsTemplate(other), Hole(n)])
  }

  /** The formula with those operators written out that the pattern lets be absent. */
  function Spelled(p: Pattern, t: Term): Term {
    match p
    case Meta(_) => t
    case Const(_) => t
    case Node(f, kids) =>
      if IsOp(t, f, |kids|) then Op(f, seq(|kids|, i requires 0 <= i < |kids| => Spelled(kids[i], t.args[i]))) else t
    case Opt(f, _, _, _, other) =>
      var parts := Operands(p, t);
      Op(f, parts[1 - Side(p) := Spelled(other, parts[1 - Side(p)])])
  }

  lemma {:induction false} SpelledSame(p: Pattern, t: Term)
    requires OptFree(p)
    ensures Spelled(p, t) == t
  {
    match p
    case Meta(_) =>
    case Const(_) =>
    case Node(f, kids) =>
      if IsOp(t, f, |kids|) {
        forall i | 0 <= i < |kids|
          ensures Spelled(kids[i], t.args[i]) == t.args[i]
        {
          SpelledSame(kids[i], t.args[i]);
        }
        assert Spelled(p, t).args == t.args;
      }
  }

  /** Putting what the metas stand for back into the pattern gives the formula that was matched. */
  lemma {:induction false} InstanceOfMatch(p: Pattern, t: Term, binding: map<nat, Term>)
    requires Matches(p, t, binding)
    ensures Instantiate(AsTemplate(p), binding) == Spelled(p, t)
  {
    match p
    case Meta(_) =>
    case Const(_) =>
    case Node(f, kids) =>
      var holes := AsTemplate(p).args;
      forall i | 0 <= i < |kids|
        ensures Instantiate(holes[i], binding) == Spelled(kids[i], t.args[i])
      {
        InstanceOfMatch(kids[i], t.args[i], binding);
      }
      assert Instantiate(AsTemplate(p), binding).args == Spelled(p, t).args;
    case Opt(f, first, n, _, other) =>
      var parts := Operands(p, t);
      InstanceOfMatch(other, parts[1 - Side(p)], binding);
      assert Instantiate(AsTemplate(p), binding).args == Spelled(p, t).args;
  }

  /** Without the operator the formula stands for the other operand, and the meta for the default. */
  lemma AbsentOperand(p: Pattern, t: Term, binding: map<nat, Term>)
    requires p.Opt? && !IsOp(t, p.name, 2)
    ensures Matches(p, t, binding) <==> p.num in binding && binding[p.num] == p.deflt && Matches(p.other, t, binding)
    ensures Spelled(p, t) == Op(p.name, if p.first then [p.deflt, Spelled(p.other, t)] else [Spelled(p.other, t), p.deflt])
  {}

  /** Every instance of a pattern matches it. */
  lemma {:induction false} MatchOfInstance(p: Pattern, binding: map<nat, Term>)
    requires Metas(p) <= binding.Keys
    ensures Matches(p, Instantiate(AsTemplate(p), binding), binding)
  {
    match p
    case Meta(n) => assert n in Metas(p);
    case Const(_) =>
    case Node(f, kids) =>
      forall i | 0 <= i < |kids|
        ensures Matches(kids[i], Instantiate(AsTemplate(kids[i]), binding), binding)
      {
        assert forall n | n in Metas(kids[i]) :: n in Metas(p);
        MatchOfInstance(kids[i], binding);
      }
      var args := Instantiate(AsTemplate(p), binding).args;
      assert forall i | 0 <= i < |kids| :: args[i] == Instantiate(AsTemplate(kids[i]), binding);
    case Opt(f, first, n, _, other) =>
      assert n in Metas(p);
      MatchOfInstance(other, binding);
      var holes, t := AsTemplate(p).args, Instantiate(AsTemplate(p), binding);
      assert holes[Side(p)] == Hole(n) && holes[1 - Side(p)] == AsTemplate(other);
      assert t.args[0] == Instantiate(holes[0], binding) && t.args[1] == Instantiate(holes[1], binding);
  }

  /** Matching and instantiating are inverse: a formula matches a pattern without optional operands
      exactly if it is the pattern's instance. */
  lemma {:induction false} MatchesIffInstance(p: Pattern, t: Term, binding: map<nat, Term>)
    requires OptFree(p)
    ensures Matches(p, t, binding) <==> Metas(p) <= binding.Keys && t == Instantiate(AsTemplate(p), binding)
  {
    if Matches(p, t, binding) {
      InstanceOfMatch(p, t, binding);
      SpelledSame(p, t);
      MatchIsUnique(p, t, binding, binding);
    }
    if Metas(p) <= binding.Keys {
      MatchOfInstance(p, binding);
    }
  }

  /** The pattern that has only the formula itself as an instance. */
  function Quote(t: Term): Pattern {
    match t
    case Num(v) => Const(v)
    case Op(f, args) => Node(f, seq(|args|, i requires 0 <= i < |args| => Quote(args[i])))
  }

  lemma {:induction false} QuoteIsItself(t: Term, binding: map<nat, Term>)
    ensures OptFree(Quote(t)) && Metas(Quote(t)) == {}
    ensures Instantiate(AsTemplate(Quote(t)), binding) == t
    ensures forall u :: Matches(Quote(t), u, binding) <==> u == t
  {
    match t {
      case Num(_) =>
      case Op(f, args) =>
        var kids := Quote(t).kids;
        forall i | 0 <= i < |args|
          ensures OptFree(kids[i]) && Metas(kids[i]) == {}
          ensures Instantiate(AsTemplate(kids[i]), binding) == args[i]
        {
          QuoteIsItself(args[i], binding);
        }
        assert Instantiate(AsTemplate(Quote(t)), binding).args == args;
    }
    forall u
      ensures Matches(Quote(t), u, binding) <==> u == t
    {
      MatchesIffInstance(Quote(t), u, binding);
    }
  }
}
