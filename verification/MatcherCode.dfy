/** The code that rules are compiled to: a block of lines, and what running it does. */
module MatcherCode {
  import opened Options
  import opened Patterns

  /** The name of a variable: formula, followed by the operand positions that lead to it. */
  type Trail = seq<nat>

  /** An expression that builds a formula from variables. */
  datatype Value =
    | Use(trail: Trail)
    | Number(value: int)
    | Make(name: string, args: seq<Value>)

  datatype Test =
    | IsValue(trail: Trail, value: int)
    | HasOptor(trail: Trail, name: string, size: Option<nat>)
    | Not(test: Test)
    | Final(equal: seq<(Trail, Trail)>, checked: seq<(string, Value)>)

  datatype Line =
    | Decl(trail: Trail)
    | Child(trail: Trail, i: nat, declare: bool)
    | Alias(target: Trail, source: Trail)
    | Default(target: Trail, term: Term)
    | If(test: Test, thn: seq<Line>, els: seq<Line>)
    | Replace(built: Value)
    | Return(ok: bool)
    | Placeholder

  /** The variables in scope, None while they have no value yet, and what the formula was replaced
      by, if it was. */
  datatype State = State(vars: map<Trail, Option<Term>>, result: Option<Term>)

  /** Crash is reading a variable that has no value or an operand that is not there, using a name
      that is not in scope, and declaring a name again. */
  datatype Outcome = Fell(state: State) | Returned(ok: bool, result: Option<Term>) | Crash

  function Lookup(s: State, x: Trail): Option<Term> {
    if x in s.vars then s.vars[x] else None
  }

  function Store(s: State, x: Trail, t: Term): State {
    s.(vars := s.vars[x := Some(t)])
  }

  function Compute(v: Value, s: State): Option<Term> {
    match v
    case Use(x) => Lookup(s, x)
    case Number(n) => Some(Num(n))
    case Make(f, args) =>
      if exists i | 0 <= i < |args| :: Compute(args[i], s).None? then None
      else Some(Op(f, seq(|args|, i requires 0 <= i < |args| => Compute(args[i], s).value)))
  }

  /** None if the test cannot be evaluated. */
  function Evaluate(test: Test, s: State, checks: Checks): Option<bool> {
    match test
    case IsValue(x, v) =>
      if Lookup(s, x).None? then None else Some(Lookup(s, x).value == Num(v))
    case HasOptor(x, f, n) =>
      if Lookup(s, x).None? then None
      else
        var t := Lookup(s, x).value;
        Some(t.Op? && t.name == f && (n.Some? ==> |t.args| == n.value))
    case Not(inner) =>
      var r := Evaluate(inner, s, checks);
      if r.None? then None else Some(!r.value)
    case Final(equal, checked) =>
      if exists e | e in equal :: Lookup(s, e.0).None? || Lookup(s, e.1).None? then None
      else if exists c | c in checked :: Compute(c.1, s).None? then None
      else Some(
          && (forall e | e in equal :: Lookup(s, e.0) == Lookup(s, e.1))
          && (forall c | c in checked :: checks(c.0, Compute(c.1, s).value)))
  }

  /** Leaving a block: what it declared goes out of scope. */
  function Leave(s: State, inner: State): State {
    State(map x | x in s.vars && x in inner.vars :: inner.vars[x], inner.result)
  }

  function RunLine(line: Line, s: State, checks: Checks): Outcome
    decreases line
  {
    match line
    case Decl(x) => if x in s.vars then Crash else Fell(s.(vars := s.vars[x := None]))
    case Child(x, i, declare) =>
      var t := Lookup(s, x);
      if t.None? || !t.value.Op? || i >= |t.value.args| || (declare <==> x + [i] in s.vars) then Crash
      else Fell(Store(s, x + [i], t.value.args[i]))
    case Alias(x, y) =>
      if x !in s.vars || Lookup(s, y).None? then Crash else Fell(Store(s, x, Lookup(s, y).value))
    case Default(x, t) => if x !in s.vars then Crash else Fell(Store(s, x, t))
    case If(test, a, b) =>
      var r := Evaluate(test, s, checks);
      if r.None? then Crash
      else
        var o := if r.value then Run(a, s, checks) else Run(b, s, checks);
        if o.Fell? then Fell(Leave(s, o.state)) else o
    case Replace(v) =>
      var t := Compute(v, s);
      if t.None? then Crash else Fell(s.(result := t))
    case Return(ok) => Returned(ok, s.result)
    case Placeholder => Fell(s)
  }

  function Run(block: seq<Line>, s: State, checks: Checks): Outcome
    decreases block
  {
    if block == [] then Fell(s)
    else
      var o := RunLine(block[0], s, checks);
      if o.Fell? then Run(block[1..], o.state, checks) else o
  }

  lemma {:induction false} RunAppend(a: seq<Line>, b: seq<Line>, s: State, checks: Checks)
    ensures Run(a + b, s, checks)
         == var o := Run(a, s, checks); if o.Fell? then Run(b, o.state, checks) else o
  {
    if a == [] {
      assert a + b == b;
    } else {
      var o := RunLine(a[0], s, checks);
      assert (a + b)[1..] == a[1..] + b;
      if o.Fell? {
        RunAppend(a[1..], b, o.state, checks);
      }
    }
  }

  lemma RunOne(line: Line, s: State, checks: Checks)
    ensures Run([line], s, checks) == RunLine(line, s, checks)
  {
    assert [line][1..] == [];
  }

  // ----- placeholders

  predicate HasPlaceholder(block: seq<Line>)
    decreases block
  {
    block != [] && (LineHasPlaceholder(block[0]) || HasPlaceholder(block[1..]))
  }

  predicate LineHasPlaceholder(line: Line)
    decreases line
  {
    line.Placeholder? || (line.If? && (HasPlaceholder(line.thn) || HasPlaceholder(line.els)))
  }

  /** Puts a block where the first placeholder is, visiting the bodies of an if before what follows
      it.  The lines after the placeholder in its own block are lost. */
  function Fill(block: seq<Line>, k: seq<Line>): seq<Line>
    decreases block
  {
    if block == [] then []
    else
      var line := block[0];
      if line.Placeholder? then k
      else if LineHasPlaceholder(line) then [FillLine(line, k)] + block[1..]
      else [line] + Fill(block[1..], k)
  }

  function FillLine(line: Line, k: seq<Line>): Line
    requires line.If?
    decreases line
  {
    if HasPlaceholder(line.thn) then line.(thn := Fill(line.thn, k)) else line.(els := Fill(line.els, k))
  }

  /** The block without its placeholders, as it is printed. */
  function Strip(block: seq<Line>): seq<Line>
    decreases block
  {
    if block == [] then []
    else if block[0].Placeholder? then Strip(block[1..])
    else [StripLine(block[0])] + Strip(block[1..])
  }

  function StripLine(line: Line): Line
    decreases line
  {
    match line
    case If(test, a, b) => If(test, Strip(a), Strip(b))
    case Decl(_) => line
    case Child(_, _, _) => line
    case Alias(_, _) => line
    case Default(_, _) => line
    case Replace(_) => line
    case Return(_) => line
    case Placeholder => line
  }

  lemma {:induction false} StripAppend(a: seq<Line>, b: seq<Line>)
    ensures Strip(a + b) == Strip(a) + Strip(b)
  {
    if a == [] {
      assert a + b == b;
    } else {
      StripAppend(a[1..], b);
      assert (a + b)[1..] == a[1..] + b;
    }
  }

  lemma {:induction false} HasAppend(a: seq<Line>, b: seq<Line>)
    ensures HasPlaceholder(a + b) <==> HasPlaceholder(a) || HasPlaceholder(b)
  {
    if a == [] {
      assert a + b == b;
    } else {
      HasAppend(a[1..], b);
      assert (a + b)[1..] == a[1..] + b;
    }
  }

  /** Placeholders do nothing. */
  lemma {:induction false} StripRuns(block: seq<Line>, s: State, checks: Checks)
    ensures Run(Strip(block), s, checks) == Run(block, s, checks)
    decreases block
  {
    if block != [] {
      var line := block[0];
      var o := RunLine(line, s, checks);
      if line.Placeholder? {
        StripRuns(block[1..], s, checks);
      } else {
        assert Strip(block)[1..] == Strip(block[1..]);
        if line.If? {
          StripRuns(line.thn, s, checks);
          StripRuns(line.els, s, checks);
        }
        assert RunLine(StripLine(line), s, checks) == o;
        if o.Fell? {
          StripRuns(block[1..], o.state, checks);
        }
      }
    }
  }

  /** Filling behind lines without a placeholder. */
  lemma {:induction false} FillBehind(a: seq<Line>, b: seq<Line>, k: seq<Line>)
    requires !HasPlaceholder(a)
    ensures Fill(a + b, k) == a + Fill(b, k)
  {
    if a == [] {
      assert a + b == b;
      assert a + Fill(b, k) == Fill(b, k);
    } else {
      FillBehind(a[1..], b, k);
      assert (a + b)[1..] == a[1..] + b;
    }
  }

  /** Filling before other lines: they stay, unless they share a block with the placeholder. */
  lemma {:induction false} FillBefore(a: seq<Line>, b: seq<Line>, k: seq<Line>)
    requires HasPlaceholder(a) && Strip(b) == []
    ensures Strip(Fill(a + b, k)) == Strip(Fill(a, k))
  {
    var line := a[0];
    assert (a + b)[0] == line && (a + b)[1..] == a[1..] + b;
    if line.Placeholder? {
    } else if LineHasPlaceholder(line) {
      StripAppend(a[1..], b);
      var l := FillLine(line, k);
      assert ([l] + (a[1..] + b))[1..] == a[1..] + b;
      assert ([l] + a[1..])[1..] == a[1..];
    } else {
      FillBefore(a[1..], b, k);
      assert ([line] + Fill(a[1..] + b, k))[1..] == Fill(a[1..] + b, k);
      assert ([line] + Fill(a[1..], k))[1..] == Fill(a[1..], k);
    }
  }

  /** Filling the first placeholder with a block that has one itself, and then filling again, fills
      the inner one. */
  lemma {:induction false} FillTwice(block: seq<Line>, inner: seq<Line>, k: seq<Line>)
    requires HasPlaceholder(block) && HasPlaceholder(inner)
    ensures HasPlaceholder(Fill(block, inner))
    ensures Fill(Fill(block, inner), k) == Fill(block, Fill(inner, k))
    decreases block
  {
    var line := block[0];
    if line.Placeholder? {
    } else if LineHasPlaceholder(line) {
      if HasPlaceholder(line.thn) {
        FillTwice(line.thn, inner, k);
      } else {
        FillTwice(line.els, inner, k);
      }
      var l := FillLine(line, inner);
      assert Fill(block, inner)[0] == l && Fill(block, inner)[1..] == block[1..];
    } else {
      FillTwice(block[1..], inner, k);
      assert Fill(block, inner)[0] == line && Fill(block, inner)[1..] == Fill(block[1..], inner);
    }
  }
}
