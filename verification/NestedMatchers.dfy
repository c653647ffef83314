/** The other way to compile a pattern: nested ifs, with a placeholder for what is still to come. */
module NestedMatchers {
  import opened Options
  import opened Patterns
  import opened MatcherCode
  import opened Matchers

  /** Nested ifs for the pattern at a variable, around what is to be done once everything fits. */
  function Nest(sig: Signature, p: Pattern, x: Trail, k: seq<Line>): seq<Line>
    decreases p, 0
  {
    match p
    case Meta(_) => k
    case Const(v) => [If(IsValue(x, v), k, [])]
    case Node(f, kids) =>
      [If(Head(sig, f, |kids|, x), Children(x, |kids|) + NestKids(sig, kids, x, |kids|, k), [])]
    case Opt(f, _, _, _, other) =>
      Operator(sig, p, x) + Nest(sig, other, x + [1 - Side(p)], k)
  }

  function NestKids(sig: Signature, kids: seq<Pattern>, x: Trail, n: nat, k: seq<Line>): seq<Line>
    requires n <= |kids|
    decreases kids, n
  {
    if n == 0 then k else NestKids(sig, kids, x, n - 1, Nest(sig, kids[n - 1], x + [n - 1], k))
  }

  function Operator(sig: Signature, p: Pattern, x: Trail): seq<Line>
    requires p.Opt?
  {
    [Decl(x + [0]), Decl(x + [1]), If(Head(sig, p.name, 2, x), Present(x), Absent(p, x))]
  }

  // ----- the generator

  predicate IsEmpty(block: seq<Line>) {
    forall line | line in block :: line.Placeholder?
  }

  lemma {:induction false} ChildrenPlain(x: Trail, n: nat)
    ensures !HasPlaceholder(Children(x, n)) && Strip(Children(x, n)) == Children(x, n)
  {
    if n > 0 {
      ChildrenPlain(x, n - 1);
      var c := [Child(x, n - 1, true)];
      HasAppend(Children(x, n - 1), c);
      StripAppend(Children(x, n - 1), c);
      assert c[1..] == [];
    }
  }

  lemma OnePlain(line: Line)
    requires !LineHasPlaceholder(line) && StripLine(line) == line
    ensures !HasPlaceholder([line]) && Strip([line]) == [line]
  {
    assert [line][1..] == [];
  }

  lemma PairPlain(a: Line, b: Line)
    requires !a.Placeholder? && !a.If? && !b.Placeholder? && !b.If?
    ensures !HasPlaceholder([a, b]) && Strip([a, b]) == [a, b]
  {
    OnePlain(a);
    OnePlain(b);
    assert [a, b] == [a] + [b];
    HasAppend([a], [b]);
    StripAppend([a], [b]);
  }

  lemma OperatorPlain(sig: Signature, p: Pattern, x: Trail)
    requires p.Opt?
    ensures !HasPlaceholder(Operator(sig, p, x)) && Strip(Operator(sig, p, x)) == Operator(sig, p, x)
  {
    var a, b, c := Decl(x + [0]), Decl(x + [1]), If(Head(sig, p.name, 2, x), Present(x), Absent(p, x));
    PairPlain(Present(x)[0], Present(x)[1]);
    PairPlain(Absent(p, x)[0], Absent(p, x)[1]);
    assert Present(x) == [Present(x)[0], Present(x)[1]] && Absent(p, x) == [Absent(p, x)[0], Absent(p, x)[1]];
    PairPlain(a, b);
    OnePlain(c);
    assert Operator(sig, p, x) == [a, b] + [c];
    HasAppend([a, b], [c]);
    StripAppend([a, b], [c]);
  }

  /** The block has a placeholder, and filling it gives the nested ifs around what it is filled with. */
  ghost predicate Nests(sig: Signature, p: Pattern, x: Trail, block: seq<Line>) {
    HasPlaceholder(block) && forall k :: Strip(Fill(block, k)) == Nest(sig, p, x, Strip(k))
  }

  /** The same for a body that fetches the operands and then tests the first n of them; before the
      first test it has no placeholder. */
  ghost predicate NestsKids(sig: Signature, kids: seq<Pattern>, x: Trail, n: nat, body: seq<Line>)
    requires n <= |kids|
  {
    if HasPlaceholder(body) then
      forall k :: Strip(Fill(body, k)) == Children(x, |kids|) + NestKids(sig, kids, x, n, Strip(k))
    else
      body == Children(x, |kids|) && forall k :: NestKids(sig, kids, x, n, k) == k
  }

  lemma MetaSkips(sig: Signature, kids: seq<Pattern>, x: Trail, n: nat, k: seq<Line>)
    requires n < |kids| && kids[n].Meta?
    ensures NestKids(sig, kids, x, n + 1, k) == NestKids(sig, kids, x, n, k)
  {
    assert Nest(sig, kids[n], x + [n], k) == k;
  }

  lemma MetaKid(sig: Signature, kids: seq<Pattern>, x: Trail, n: nat, body: seq<Line>)
    requires n < |kids| && kids[n].Meta? && NestsKids(sig, kids, x, n, body)
    ensures NestsKids(sig, kids, x, n + 1, body)
  {
    if HasPlaceholder(body) {
      forall k
        ensures Strip(Fill(body, k)) == Children(x, |kids|) + NestKids(sig, kids, x, n + 1, Strip(k))
      {
        MetaSkips(sig, kids, x, n, Strip(k));
      }
    } else {
      var next := n + 1;
      forall k
        ensures NestKids(sig, kids, x, next, k) == k
      {
        MetaSkips(sig, kids, x, n, k);
      }
    }
  }

  /** The next kid goes where the placeholder is, or to the end while there is none. */
  lemma NextKid(sig: Signature, kids: seq<Pattern>, x: Trail, n: nat, body: seq<Line>, rest: seq<Line>)
    requires n < |kids| && NestsKids(sig, kids, x, n, body)
    requires Nests(sig, kids[n], x + [n], rest)
    ensures var more := if HasPlaceholder(body) then Fill(body, rest) else body + rest;
      HasPlaceholder(more) && NestsKids(sig, kids, x, n + 1, more)
  {
    hide Fill, Strip;
    var more := if HasPlaceholder(body) then Fill(body, rest) else body + rest;
    assert HasPlaceholder(more) by {
      if HasPlaceholder(body) {
        FillTwice(body, rest, []);
      } else {
        HasAppend(body, rest);
      }
    }
    forall k
      ensures Strip(Fill(more, k)) == Children(x, |kids|) + NestKids(sig, kids, x, n + 1, Strip(k))
    {
      if HasPlaceholder(body) {
        FillTwice(body, rest, k);
      } else {
        HasAppend(body, rest);
        FillBehind(body, rest, k);
        ChildrenPlain(x, |kids|);
        StripAppend(body, Fill(rest, k));
      }
    }
  }

  /** A placeholder at the end, needed or surplus. */
  lemma EndKids(sig: Signature, kids: seq<Pattern>, x: Trail, body: seq<Line>)
    requires NestsKids(sig, kids, x, |kids|, body)
    ensures HasPlaceholder(body + [Placeholder])
    ensures NestsKids(sig, kids, x, |kids|, body + [Placeholder])
  {
    hide Fill;
    var end := [Placeholder];
    assert end[1..] == [];
    HasAppend(body, end);
    forall k
      ensures Strip(Fill(body + end, k)) == Children(x, |kids|) + NestKids(sig, kids, x, |kids|, Strip(k))
    {
      if HasPlaceholder(body) {
        FillBefore(body, end, k);
      } else {
        FillBehind(body, end, k);
        FillPlaceholder(k);
        ChildrenPlain(x, |kids|);
        StripAppend(body, k);
      }
    }
  }

  lemma FillPlaceholder(k: seq<Line>)
    ensures Fill([Placeholder], k) == k
  {}

  /** Wrapping a body into the if of its node. */
  lemma WrapNests(test: Test, body: seq<Line>)
    requires HasPlaceholder(body)
    ensures HasPlaceholder([If(test, body, [])])
    ensures forall k :: Strip(Fill([If(test, body, [])], k)) == [If(test, Strip(Fill(body, k)), [])]
  {
    var line := If(test, body, []);
    forall k
      ensures Strip(Fill([line], k)) == [If(test, Strip(Fill(body, k)), [])]
    {
      var filled := FillLine(line, k);
      assert Fill([line], k) == [filled];
      assert [filled][1..] == [];
    }
  }

  lemma OptNests(sig: Signature, p: Pattern, x: Trail, rest: seq<Line>)
    requires p.Opt?
    requires if p.other.Meta? then rest == [Placeholder] else Nests(sig, p.other, x + [1 - Side(p)], rest)
    ensures Nests(sig, p, x, Operator(sig, p, x) + rest)
  {
    hide Fill, Operator;
    var pre := Operator(sig, p, x);
    OperatorPlain(sig, p, x);
    HasAppend(pre, rest);
    forall k
      ensures Strip(Fill(pre + rest, k)) == Nest(sig, p, x, Strip(k))
    {
      FillBehind(pre, rest, k);
      FillPlaceholder(k);
      StripAppend(pre, Fill(rest, k));
    }
  }

  /** The generator.  While deepest is set, the first code that is not nested further gets a
      placeholder; filling a placeholder with the code of the next operand nests that operand. */
  method CreateNested(sig: Signature, p: Pattern, x: Trail, deepest: bool) returns (block: seq<Line>, deepest': bool)
    ensures p.Meta? ==> block == [] && deepest' == deepest
    ensures !p.Meta? && deepest ==> !deepest' && Nests(sig, p, x, block)
    decreases p, 1
  {
    deepest' := deepest;
    match p {
      case Meta(_) => block := [];
      case Const(v) =>
        var bodyIf := [];
        if deepest' {
          bodyIf := bodyIf + [Placeholder];
          deepest' := false;
        }
        block := [If(IsValue(x, v), bodyIf, [])];
        if deepest {
          WrapNests(IsValue(x, v), bodyIf);
          forall k
            ensures Fill(bodyIf, k) == k
          {
            FillPlaceholder(k);
          }
        }
      case Node(f, kids) =>
        var bodyIf;
        bodyIf, deepest' := CreateBody(sig, kids, x, deepest');
        block := [If(Head(sig, f, |kids|, x), bodyIf, [])];
        if deepest {
          WrapNests(Head(sig, f, |kids|, x), bodyIf);
        }
      case Opt(f, _, _, _, other) =>
        block := Operator(sig, p, x);
        OperatorPlain(sig, p, x);
        var rest;
        rest, deepest' := CreateNested(sig, other, x + [1 - Side(p)], deepest');
        if !IsEmpty(rest) {
          block := block + rest;
        }
        if deepest' {
          block := block + [Placeholder];
          deepest' := false;
        }
        if deepest {
          if !other.Meta? {
            NestsNonEmpty(sig, other, x + [1 - Side(p)], rest);
          }
          OptNests(sig, p, x, if other.Meta? then [Placeholder] else rest);
        }
    }
  }

  /** Lines that are all placeholders vanish, but a nested pattern never does. */
  lemma NestsNonEmpty(sig: Signature, p: Pattern, x: Trail, block: seq<Line>)
    requires !p.Meta? && Nests(sig, p, x, block)
    ensures !IsEmpty(block)
  {
    assert block[0] in block;
    assert IsEmpty(block) ==> Fill(block, []) == [];
    assert Strip(Fill(block, [])) == Nest(sig, p, x, Strip([]));
    assert Nest(sig, p, x, []) != [];
  }

  method CreateBody(sig: Signature, kids: seq<Pattern>, x: Trail, deepest: bool)
    returns (bodyIf: seq<Line>, deepest': bool)
    ensures deepest ==> !deepest' && HasPlaceholder(bodyIf) && NestsKids(sig, kids, x, |kids|, bodyIf)
    decreases kids, 0
  {
    hide Nest, NestKids, Nests, NestsKids, HasPlaceholder;
    deepest' := deepest;
    bodyIf := [];
    for n := 0 to |kids|
      invariant bodyIf == Children(x, n)
    {
      bodyIf := bodyIf + [Child(x, n, true)];
    }
    StartKids(sig, kids, x);
    for n := 0 to |kids|
      invariant deepest ==> (deepest' || HasPlaceholder(bodyIf)) && NestsKids(sig, kids, x, n, bodyIf)
    {
      if HasPlaceholder(bodyIf) {
        deepest' := true;
      }
      var rest;
      rest, deepest' := CreateNested(sig, kids[n], x + [n], deepest');
      if deepest {
        if kids[n].Meta? {
          MetaKid(sig, kids, x, n, bodyIf);
        } else {
          NestsNonEmpty(sig, kids[n], x + [n], rest);
          NextKid(sig, kids, x, n, bodyIf, rest);
        }
      }
      if !IsEmpty(rest) {
        if HasPlaceholder(bodyIf) {
          bodyIf := Fill(bodyIf, rest);
        } else {
          bodyIf := bodyIf + rest;
        }
      }
    }
    if deepest' {
      if deepest {
        EndKids(sig, kids, x, bodyIf);
      }
      bodyIf := bodyIf + [Placeholder];
      deepest' := false;
    }
  }

  lemma StartKids(sig: Signature, kids: seq<Pattern>, x: Trail)
    ensures NestsKids(sig, kids, x, 0, Children(x, |kids|))
  {
    ChildrenPlain(x, |kids|);
  }

  // ----- running the code

  /** The outcome of nested ifs: if the shape does not fit they are left, otherwise what they enclose
      decides, with the variables of the match defined. */
  ghost predicate Decides(o: Outcome, m: Option<map<Trail, Term>>, k: seq<Line>, s: State, checks: Checks) {
    if m.None? then o.Fell? && o.state.result == s.result
    else
      var r := Run(k, With(s, m.value), checks);
      if r.Fell? then o.Fell? && o.state.result == r.state.result else o == r
  }

  lemma {:induction false} NestRuns(sig: Signature, p: Pattern, t: Term, x: Trail, k: seq<Line>, s: State, checks: Checks)
    requires TermOk(sig, t) && PatternOk(sig, p) && Ready(s, x, t)
    ensures Decides(Run(Nest(sig, p, x, k), s, checks), Bind(p, t, x), k, s, checks)
    decreases p, 0
  {
    hide Ready, Bind, BindKids, Nest, NestKids, Children, Run, RunLine, With;
    match p
    case Meta(_) => LeafNest(sig, p, t, x, k, s, checks);
    case Const(_) => LeafNest(sig, p, t, x, k, s, checks);
    case Node(f, kids) =>
      NodeBind(p, t, x);
      NodeNest(sig, p, t, x, k, s, checks);
      if IsOp(t, f, |kids|) {
        OperandsReady(s, x, t);
        var s' := With(s, Operand(t.args, x, |kids|));
        WithResult(s, Operand(t.args, x, |kids|));
        NestKidsRun(sig, kids, t.args, x, |kids|, k, s', checks);
        if BindKids(kids, t.args, x, |kids|).Some? {
          NodeState(kids, t, x, s);
        }
      }
    case Opt(f, _, _, _, other) =>
      OptNest(sig, p, t, x, k, s, checks);
      BothReady(p, t, s, x);
      WithResult(s, Both(p, t, x));
      OptBind(p, t, x);
      var i, parts := Side(p), Operands(p, t);
      NestRuns(sig, other, parts[1 - i], x + [1 - i], k, With(s, Both(p, t, x)), checks);
      if Bind(p, t, x).Some? {
        OptState(p, t, s, x);
      }
  }

  lemma LeafNest(sig: Signature, p: Pattern, t: Term, x: Trail, k: seq<Line>, s: State, checks: Checks)
    requires (p.Meta? || p.Const?) && Ready(s, x, t)
    ensures Decides(Run(Nest(sig, p, x, k), s, checks), Bind(p, t, x), k, s, checks)
  {
    WithKnown(s, map[], x, t);
    assert With(s, map[]).vars == s.vars;
    if p.Const? {
      RunOne(If(IsValue(x, p.value), k, []), s, checks);
    }
  }

  lemma NodeNest(sig: Signature, p: Pattern, t: Term, x: Trail, k: seq<Line>, s: State, checks: Checks)
    requires p.Node? && TermOk(sig, t) && PatternOk(sig, p) && Ready(s, x, t)
    ensures var o := Run(Nest(sig, p, x, k), s, checks);
      if !IsOp(t, p.name, |p.kids|) then o.Fell? && o.state.result == s.result
      else
        var r := Run(NestKids(sig, p.kids, x, |p.kids|, k), With(s, Operand(t.args, x, |p.kids|)), checks);
        if r.Fell? then o.Fell? && o.state.result == r.state.result else o == r
  {
    var n := |p.kids|;
    var body := Children(x, n) + NestKids(sig, p.kids, x, n, k);
    HeadTest(sig, p.name, n, x, t, s, checks);
    RunOne(If(Head(sig, p.name, n, x), body, []), s, checks);
    if IsOp(t, p.name, n) {
      RunAppend(Children(x, n), NestKids(sig, p.kids, x, n, k), s, checks);
      ChildrenRun(s, x, t, n, checks);
    }
  }

  lemma OptNest(sig: Signature, p: Pattern, t: Term, x: Trail, k: seq<Line>, s: State, checks: Checks)
    requires p.Opt? && TermOk(sig, t) && PatternOk(sig, p) && Ready(s, x, t)
    ensures Run(Nest(sig, p, x, k), s, checks)
         == Run(Nest(sig, p.other, x + [1 - Side(p)], k), With(s, Both(p, t, x)), checks)
  {
    Apart(x);
    HeadTest(sig, p.name, 2, x, t, Declared(s, x), checks);
    OptRuns(sig, p, t, x, s, Head(sig, p.name, 2, x), Present(x), Absent(p, x), checks);
    RunAppend(Operator(sig, p, x), Nest(sig, p.other, x + [1 - Side(p)], k), s, checks);
  }

  lemma {:induction false} NestKidsRun(sig: Signature, kids: seq<Pattern>, args: seq<Term>, x: Trail, n: nat,
                                       k: seq<Line>, s: State, checks: Checks)
    requires n <= |kids| == |args| && KidsReady(s, x, args)
    requires forall i | 0 <= i < n :: TermOk(sig, args[i]) && PatternOk(sig, kids[i])
    ensures Decides(Run(NestKids(sig, kids, x, n, k), s, checks), BindKids(kids, args, x, n), k, s, checks)
    decreases kids, n
  {
    if n == 0 {
      assert With(s, map[]).vars == s.vars;
    } else {
      hide Ready, KidsReady, Bind, Nest, Run, RunLine, With;
      var inner := Nest(sig, kids[n - 1], x + [n - 1], k);
      NestKidsRun(sig, kids, args, x, n - 1, inner, s, checks);
      var a := BindKids(kids, args, x, n - 1);
      if a.Some? {
        BindKidsKeys(kids, args, x, n - 1);
        StillReady(s, x, args, n - 1, a.value);
        WithResult(s, a.value);
        NestRuns(sig, kids[n - 1], args[n - 1], x + [n - 1], k, With(s, a.value), checks);
        var b := Bind(kids[n - 1], args[n - 1], x + [n - 1]);
        if b.Some? {
          WithTwice(s, a.value, b.value);
        }
      }
    }
  }
}
