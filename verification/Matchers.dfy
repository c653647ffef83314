/** Compiling rules to code, with early exits or with nested ifs, and why the code matches. */
module Matchers {
  import opened Options
  import opened Patterns
  import opened MatcherCode

  // ----- which variable holds what

  /** The variables that matching defines: the given one and all below it.  None if the shape of the
      formula does not fit. */
  function Bind(p: Pattern, t: Term, x: Trail): Option<map<Trail, Term>>
    decreases p, 0
  {
    match p
    case Meta(_) => Some(map[x := t])
    case Const(v) => if t == Num(v) then Some(map[x := t]) else None
    case Node(f, kids) =>
      if !IsOp(t, f, |kids|) then None
      else
        var m := BindKids(kids, t.args, x, |kids|);
        if m.None? then None else Some(m.value[x := t])
    case Opt(_, _, _, _, other) =>
      var parts, i := Operands(p, t), Side(p);
      var m := Bind(other, parts[1 - i], x + [1 - i]);
      if m.None? then None else Some(m.value[x := t][x + [i] := parts[i]])
  }

  function BindKids(kids: seq<Pattern>, args: seq<Term>, x: Trail, n: nat): Option<map<Trail, Term>>
    requires n <= |kids| == |args|
    decreases kids, n
  {
    if n == 0 then Some(map[])
    else
      var a, b := BindKids(kids, args, x, n - 1), Bind(kids[n - 1], args[n - 1], x + [n - 1]);
      if a.None? || b.None? then None else Some(a.value + b.value)
  }

  /** All variables are at or below the given one, which holds the formula itself. */
  lemma {:induction false} BindKeys(p: Pattern, t: Term, x: Trail)
    requires Bind(p, t, x).Some?
    ensures var m := Bind(p, t, x).value; x in m && m[x] == t && forall y | y in m :: x <= y
    decreases p, 0
  {
    match p
    case Meta(_) =>
    case Const(_) =>
    case Node(f, kids) => BindKidsKeys(kids, t.args, x, |kids|);
    case Opt(_, _, _, _, other) =>
      BindKeys(other, Operands(p, t)[1 - Side(p)], x + [1 - Side(p)]);
  }

  predicate Below(x: Trail, n: nat, y: Trail) {
    |y| > |x| && x <= y && y[|x|] < n
  }

  lemma {:induction false} BindKidsKeys(kids: seq<Pattern>, args: seq<Term>, x: Trail, n: nat)
    requires n <= |kids| == |args| && BindKids(kids, args, x, n).Some?
    ensures var m := BindKids(kids, args, x, n).value;
      && (forall y | y in m :: Below(x, n, y))
      && (forall i | 0 <= i < n :: x + [i] in m && m[x + [i]] == args[i])
    decreases kids, n
  {
    if n > 0 {
      BindKidsKeys(kids, args, x, n - 1);
      BindKeys(kids[n - 1], args[n - 1], x + [n - 1]);
      var b := Bind(kids[n - 1], args[n - 1], x + [n - 1]).value;
      forall y | y in b
        ensures Below(x, n, y) && y[|x|] == n - 1
      {
        assert x + [n - 1] <= y;
        assert (x + [n - 1])[|x|] == n - 1;
      }
    }
  }

  // ----- the trails of a meta

  /** The variables of the occurrences of a meta, from left to right. */
  function Trails(p: Pattern, n: nat, x: Trail): seq<Trail>
    decreases p, 0
  {
    match p
    case Meta(k) => if k == n then [x] else []
    case Const(_) => []
    case Node(_, kids) => TrailsOfKids(kids, n, x, |kids|)
    case Opt(_, first, k, _, other) =>
      var mine := if k == n then [x + [Side(p)]] else [];
      var others := Trails(other, n, x + [1 - Side(p)]);
      if first then mine + others else others + mine
  }

  function TrailsOfKids(kids: seq<Pattern>, n: nat, x: Trail, k: nat): seq<Trail>
    requires k <= |kids|
    decreases kids, k
  {
    if k == 0 then [] else TrailsOfKids(kids, n, x, k - 1) + Trails(kids[k - 1], n, x + [k - 1])
  }

  /** Walks through the pattern and collects them. */
  method FindTrails(p: Pattern, n: nat, x: Trail) returns (trails: seq<Trail>)
    ensures trails == Trails(p, n, x)
    decreases p
  {
    match p {
      case Meta(k) => trails := if k == n then [x] else [];
      case Const(_) => trails := [];
      case Node(_, kids) =>
        trails := [];
        for k := 0 to |kids|
          invariant trails == TrailsOfKids(kids, n, x, k)
        {
          var more := FindTrails(kids[k], n, x + [k]);
          trails := trails + more;
        }
      case Opt(_, first, k, _, other) =>
        var others := FindTrails(other, n, x + [1 - Side(p)]);
        var mine := if k == n then [x + [Side(p)]] else [];
        trails := if first then mine + others else others + mine;
    }
  }

  lemma {:induction false} TrailsOccur(p: Pattern, n: nat, x: Trail)
    ensures Trails(p, n, x) != [] <==> n in Metas(p)
    decreases p, 0
  {
    match p
    case Meta(_) =>
    case Const(_) =>
    case Node(_, kids) => TrailsOfKidsOccur(kids, n, x, |kids|);
    case Opt(_, _, _, _, other) => TrailsOccur(other, n, x + [1 - Side(p)]);
  }

  lemma {:induction false} TrailsOfKidsOccur(kids: seq<Pattern>, n: nat, x: Trail, k: nat)
    requires k <= |kids|
    ensures TrailsOfKids(kids, n, x, k) != [] <==> exists i | 0 <= i < k :: n in Metas(kids[i])
    decreases kids, k
  {
    if k > 0 {
      TrailsOfKidsOccur(kids, n, x, k - 1);
      TrailsOccur(kids[k - 1], n, x + [k - 1]);
    }
  }

  predicate Carries(n: nat, y: Trail, m: map<Trail, Term>, binding: map<nat, Term>) {
    y in m && n in binding && binding[n] == m[y]
  }

  /** Wherever a meta occurs the variable holds what the binding says. */
  ghost predicate Agrees(p: Pattern, x: Trail, m: map<Trail, Term>, binding: map<nat, Term>) {
    forall n, y | y in Trails(p, n, x) :: Carries(n, y, m, binding)
  }

  ghost predicate KidsAgree(kids: seq<Pattern>, x: Trail, k: nat, m: map<Trail, Term>, binding: map<nat, Term>)
    requires k <= |kids|
  {
    forall n, y | y in TrailsOfKids(kids, n, x, k) :: Carries(n, y, m, binding)
  }

  lemma {:induction false} TrailsBound(p: Pattern, t: Term, x: Trail, n: nat)
    requires Bind(p, t, x).Some?
    ensures forall y | y in Trails(p, n, x) :: y in Bind(p, t, x).value
    decreases p, 0
  {
    match p
    case Meta(_) =>
    case Const(_) =>
    case Node(_, kids) => TrailsOfKidsBound(kids, t.args, x, |kids|, n);
    case Opt(_, _, _, _, other) =>
      TrailsBound(other, Operands(p, t)[1 - Side(p)], x + [1 - Side(p)], n);
  }

  lemma {:induction false} TrailsOfKidsBound(kids: seq<Pattern>, args: seq<Term>, x: Trail, k: nat, n: nat)
    requires k <= |kids| == |args| && BindKids(kids, args, x, k).Some?
    ensures forall y | y in TrailsOfKids(kids, n, x, k) :: y in BindKids(kids, args, x, k).value
    decreases kids, k
  {
    if k > 0 {
      TrailsOfKidsBound(kids, args, x, k - 1, n);
      TrailsBound(kids[k - 1], args[k - 1], x + [k - 1], n);
    }
  }

  ghost predicate Covers(p: Pattern, x: Trail, m: map<Trail, Term>) {
    forall n, y | y in Trails(p, n, x) :: y in m
  }

  ghost predicate KidsCovered(kids: seq<Pattern>, x: Trail, k: nat, m: map<Trail, Term>)
    requires k <= |kids|
  {
    forall n, y | y in TrailsOfKids(kids, n, x, k) :: y in m
  }

  lemma KidsAgreeSplit(kids: seq<Pattern>, x: Trail, k: nat, a: map<Trail, Term>, b: map<Trail, Term>, binding: map<nat, Term>)
    requires 0 < k <= |kids| && a.Keys !! b.Keys
    requires KidsCovered(kids, x, k - 1, a) && Covers(kids[k - 1], x + [k - 1], b)
    ensures KidsAgree(kids, x, k, a + b, binding)
       <==> KidsAgree(kids, x, k - 1, a, binding) && Agrees(kids[k - 1], x + [k - 1], b, binding)
  {
    var kid, x', all := kids[k - 1], x + [k - 1], a + b;
    if KidsAgree(kids, x, k, all, binding) {
      forall n, y | y in TrailsOfKids(kids, n, x, k - 1)
        ensures Carries(n, y, a, binding)
      {
        assert y in TrailsOfKids(kids, n, x, k);
        assert Carries(n, y, all, binding) && y in a;
      }
      forall n, y | y in Trails(kid, n, x')
        ensures Carries(n, y, b, binding)
      {
        assert y in TrailsOfKids(kids, n, x, k);
        assert Carries(n, y, all, binding) && y in b;
      }
    }
    if KidsAgree(kids, x, k - 1, a, binding) && Agrees(kid, x', b, binding) {
      forall n, y | y in TrailsOfKids(kids, n, x, k)
        ensures Carries(n, y, all, binding)
      {
        if y in TrailsOfKids(kids, n, x, k - 1) {
          assert Carries(n, y, a, binding);
        } else {
          assert Carries(n, y, b, binding);
        }
      }
    }
  }

  lemma OptAgreesSplit(p: Pattern, x: Trail, t: Term, m: map<Trail, Term>, part: Term, binding: map<nat, Term>)
    requires p.Opt?
    requires x !in m && x + [Side(p)] !in m && Covers(p.other, x + [1 - Side(p)], m)
    ensures Agrees(p, x, m[x := t][x + [Side(p)] := part], binding)
       <==> Agrees(p.other, x + [1 - Side(p)], m, binding) && p.num in binding && binding[p.num] == part
  {
    var x', mine, all := x + [1 - Side(p)], x + [Side(p)], m[x := t][x + [Side(p)] := part];
    assert mine in Trails(p, p.num, x);
    if Agrees(p, x, all, binding) {
      assert Carries(p.num, mine, all, binding);
      forall n, y | y in Trails(p.other, n, x')
        ensures Carries(n, y, m, binding)
      {
        assert y in Trails(p, n, x);
        assert Carries(n, y, all, binding) && y in m;
      }
    }
    if Agrees(p.other, x', m, binding) && p.num in binding && binding[p.num] == part {
      forall n, y | y in Trails(p, n, x)
        ensures Carries(n, y, all, binding)
      {
        if y in Trails(p.other, n, x') {
          assert Carries(n, y, m, binding);
        }
      }
    }
  }

  lemma BindCovers(p: Pattern, t: Term, x: Trail)
    requires Bind(p, t, x).Some?
    ensures Covers(p, x, Bind(p, t, x).value)
  {
    forall n, y | y in Trails(p, n, x)
      ensures y in Bind(p, t, x).value
    {
      TrailsBound(p, t, x, n);
    }
  }

  lemma BindKidsCovers(kids: seq<Pattern>, args: seq<Term>, x: Trail, k: nat)
    requires k <= |kids| == |args| && BindKids(kids, args, x, k).Some?
    ensures KidsCovered(kids, x, k, BindKids(kids, args, x, k).value)
  {
    forall n, y | y in TrailsOfKids(kids, n, x, k)
      ensures y in BindKids(kids, args, x, k).value
    {
      TrailsOfKidsBound(kids, args, x, k, n);
    }
  }

  lemma KidsApart(kids: seq<Pattern>, args: seq<Term>, x: Trail, k: nat)
    requires 0 < k <= |kids| == |args|
    requires BindKids(kids, args, x, k - 1).Some? && Bind(kids[k - 1], args[k - 1], x + [k - 1]).Some?
    ensures BindKids(kids, args, x, k - 1).value.Keys !! Bind(kids[k - 1], args[k - 1], x + [k - 1]).value.Keys
  {
    var x' := x + [k - 1];
    BindKidsKeys(kids, args, x, k - 1);
    BindKeys(kids[k - 1], args[k - 1], x');
    var a, b := BindKids(kids, args, x, k - 1).value, Bind(kids[k - 1], args[k - 1], x').value;
    forall y | y in a
      ensures y !in b
    {
      assert Below(x, k - 1, y);
      assert x'[|x|] == k - 1;
    }
  }

  lemma OptApart(p: Pattern, t: Term, x: Trail)
    requires p.Opt? && Bind(p.other, Operands(p, t)[1 - Side(p)], x + [1 - Side(p)]).Some?
    ensures var m := Bind(p.other, Operands(p, t)[1 - Side(p)], x + [1 - Side(p)]).value;
      x !in m && x + [Side(p)] !in m
  {
    var x' := x + [1 - Side(p)];
    BindKeys(p.other, Operands(p, t)[1 - Side(p)], x');
    assert (x + [Side(p)])[|x|] != x'[|x|];
  }

  /** A pattern matches under a binding exactly if the shape fits and all occurrences of a meta hold
      what the binding says. */
  lemma {:induction false} MatchesIff(p: Pattern, t: Term, x: Trail, binding: map<nat, Term>)
    ensures Matches(p, t, binding) <==> Bind(p, t, x).Some? && Agrees(p, x, Bind(p, t, x).value, binding)
    decreases p, 0
  {
    match p
    case Meta(n) =>
      assert x in Trails(p, n, x);
      if n in binding && binding[n] == t {
        assert forall k, y | y in Trails(p, k, x) :: k == n && y == x;
      }
      if Agrees(p, x, map[x := t], binding) {
        assert Carries(n, x, map[x := t], binding);
      }
    case Const(_) =>
    case Node(f, kids) =>
      if IsOp(t, f, |kids|) {
        KidsMatchIff(kids, t.args, x, |kids|, binding);
        if BindKids(kids, t.args, x, |kids|).Some? {
          NodeAgrees(p, t, x, binding);
        }
      }
    case Opt(_, _, _, _, other) =>
      var i, parts := Side(p), Operands(p, t);
      MatchesIff(other, parts[1 - i], x + [1 - i], binding);
      var r := Bind(other, parts[1 - i], x + [1 - i]);
      if r.Some? {
        OptApart(p, t, x);
        BindCovers(other, parts[1 - i], x + [1 - i]);
        OptAgreesSplit(p, x, t, r.value, parts[i], binding);
      }
  }

  lemma NodeAgrees(p: Pattern, t: Term, x: Trail, binding: map<nat, Term>)
    requires p.Node? && IsOp(t, p.name, |p.kids|) && BindKids(p.kids, t.args, x, |p.kids|).Some?
    ensures var m := BindKids(p.kids, t.args, x, |p.kids|).value;
      KidsAgree(p.kids, x, |p.kids|, m, binding) <==> Agrees(p, x, m[x := t], binding)
  {
    var m := BindKids(p.kids, t.args, x, |p.kids|).value;
    BindKidsKeys(p.kids, t.args, x, |p.kids|);
    assert forall n :: Trails(p, n, x) == TrailsOfKids(p.kids, n, x, |p.kids|);
    forall n, y | y in Trails(p, n, x)
      ensures Carries(n, y, m, binding) <==> Carries(n, y, m[x := t], binding)
    {
      TrailsOfKidsBound(p.kids, t.args, x, |p.kids|, n);
      assert Below(x, |p.kids|, y);
    }
  }

  lemma {:induction false} KidsMatchIff(kids: seq<Pattern>, args: seq<Term>, x: Trail, k: nat, binding: map<nat, Term>)
    requires k <= |kids| == |args|
    ensures (forall i | 0 <= i < k :: Matches(kids[i], args[i], binding))
       <==> BindKids(kids, args, x, k).Some? && KidsAgree(kids, x, k, BindKids(kids, args, x, k).value, binding)
    decreases kids, k
  {
    if k > 0 {
      var x', kid, arg := x + [k - 1], kids[k - 1], args[k - 1];
      KidsMatchIff(kids, args, x, k - 1, binding);
      MatchesIff(kid, arg, x', binding);
      var a, b := BindKids(kids, args, x, k - 1), Bind(kid, arg, x');
      if a.Some? && b.Some? {
        KidsApart(kids, args, x, k);
        BindKidsCovers(kids, args, x, k - 1);
        BindCovers(kid, arg, x');
        KidsAgreeSplit(kids, x, k, a.value, b.value, binding);
      }
    }
  }

  // ----- early exits

  function Head(sig: Signature, name: string, n: nat, x: Trail): Test {
    HasOptor(x, name, if sig(name).Overloaded? then Some(n) else None)
  }

  function Children(x: Trail, n: nat): seq<Line> {
    if n == 0 then [] else Children(x, n - 1) + [Child(x, n - 1, true)]
  }

  /** What the operands of an optional pattern are when its operator is there, and when not. */
  function Present(x: Trail): seq<Line> {
    [Child(x, 0, false), Child(x, 1, false)]
  }

  function Absent(p: Pattern, x: Trail): seq<Line>
    requires p.Opt?
  {
    if p.first then [Default(x + [0], p.deflt), Alias(x + [1], x)]
    else [Alias(x + [0], x), Default(x + [1], p.deflt)]
  }

  /** Code with early exits for the pattern at a variable. */
  function Exits(sig: Signature, p: Pattern, x: Trail): seq<Line>
    decreases p, 0
  {
    match p
    case Meta(_) => []
    case Const(v) => [If(Not(IsValue(x, v)), [Return(false)], [])]
    case Node(f, kids) =>
      [If(Not(Head(sig, f, |kids|, x)), [Return(false)], [])] + Children(x, |kids|)
      + ExitsOfKids(sig, kids, x, |kids|)
    case Opt(f, _, _, _, other) =>
      [Decl(x + [0]), Decl(x + [1]), If(Not(Head(sig, f, 2, x)), Absent(p, x), Present(x))]
      + Exits(sig, other, x + [1 - Side(p)])
  }

  function ExitsOfKids(sig: Signature, kids: seq<Pattern>, x: Trail, n: nat): seq<Line>
    requires n <= |kids|
    decreases kids, n
  {
    if n == 0 then [] else ExitsOfKids(sig, kids, x, n - 1) + Exits(sig, kids[n - 1], x + [n - 1])
  }

  lemma Regroup(a: seq<Line>, b: seq<Line>, c: seq<Line>)
    ensures (a + b) + c == a + (b + c)
  {}

  /** The generator: it appends line after line to the block. */
  method CreateExits(sig: Signature, p: Pattern, x: Trail) returns (block: seq<Line>)
    ensures block == Exits(sig, p, x)
    decreases p, 1
  {
    block := [];
    match p {
      case Meta(_) =>
      case Const(v) => block := block + [If(Not(IsValue(x, v)), [Return(false)], [])];
      case Node(f, kids) =>
        block := CreateNodeExits(sig, f, kids, x);
      case Opt(f, _, _, _, other) =>
        block := block + [Decl(x + [0])];
        block := block + [Decl(x + [1])];
        block := block + [If(Not(Head(sig, f, 2, x)), Absent(p, x), Present(x))];
        var rest := CreateExits(sig, other, x + [1 - Side(p)]);
        block := block + rest;
    }
  }

  method CreateNodeExits(sig: Signature, f: string, kids: seq<Pattern>, x: Trail) returns (block: seq<Line>)
    ensures block == [If(Not(Head(sig, f, |kids|, x)), [Return(false)], [])] + Children(x, |kids|)
                     + ExitsOfKids(sig, kids, x, |kids|)
    decreases kids, 0
  {
    hide Exits, Head;
    block := [If(Not(Head(sig, f, |kids|, x)), [Return(false)], [])];
    ghost var first := block;
    for n := 0 to |kids|
      invariant block == first + Children(x, n)
    {
      Regroup(first, Children(x, n), [Child(x, n, true)]);
      block := block + [Child(x, n, true)];
    }
    ghost var children := block;
    for n := 0 to |kids|
      invariant block == children + ExitsOfKids(sig, kids, x, n)
    {
      var rest := CreateExits(sig, kids[n], x + [n]);
      Regroup(children, ExitsOfKids(sig, kids, x, n), rest);
      block := block + rest;
    }
  }

  // ----- running the code

  /** Only the variable itself is in scope, not those below it. */
  ghost predicate Ready(s: State, x: Trail, t: Term) {
    x in s.vars && s.vars[x] == Some(t) && forall y | y in s.vars && x <= y :: y == x
  }

  function Some_(m: map<Trail, Term>): map<Trail, Option<Term>> {
    map y | y in m :: Some(m[y])
  }

  function With(s: State, m: map<Trail, Term>): State {
    s.(vars := s.vars + Some_(m))
  }

  lemma WithStore(s: State, m: map<Trail, Term>, x: Trail, t: Term)
    ensures With(s, m[x := t]) == Store(With(s, m), x, t)
  {
    assert With(s, m[x := t]).vars == Store(With(s, m), x, t).vars;
  }

  lemma WithTwice(s: State, a: map<Trail, Term>, b: map<Trail, Term>)
    ensures With(With(s, a), b) == With(s, a + b)
  {
    var l, r := With(With(s, a), b).vars, With(s, a + b).vars;
    assert l.Keys == r.Keys;
    forall y | y in l
      ensures l[y] == r[y]
    {}
    assert l == r;
  }

  /** What is known already may be stored again. */
  lemma WithKnown(s: State, m: map<Trail, Term>, x: Trail, t: Term)
    requires x in s.vars && s.vars[x] == Some(t)
    requires x in m ==> m[x] == t
    ensures With(s, m[x := t]) == With(s, m)
  {
    assert With(s, m[x := t]).vars == With(s, m).vars;
  }

  lemma HeadTest(sig: Signature, name: string, n: nat, x: Trail, t: Term, s: State, checks: Checks)
    requires Lookup(s, x) == Some(t) && TermOk(sig, t) && Fits(sig, name, n)
    ensures Evaluate(Head(sig, name, n, x), s, checks) == Some(IsOp(t, name, n))
  {}

  function Operand(args: seq<Term>, x: Trail, n: nat): map<Trail, Term>
    requires n <= |args|
  {
    if n == 0 then map[] else Operand(args, x, n - 1)[x + [n - 1] := args[n - 1]]
  }

  lemma {:induction false} OperandIs(args: seq<Term>, x: Trail, n: nat)
    requires n <= |args|
    ensures forall i | 0 <= i < n :: x + [i] in Operand(args, x, n) && Operand(args, x, n)[x + [i]] == args[i]
    ensures forall y | y in Operand(args, x, n) :: Below(x, n, y) && |y| == |x| + 1
  {
    if n > 0 {
      OperandIs(args, x, n - 1);
      assert (x + [n - 1])[|x|] == n - 1;
      forall i | 0 <= i < n - 1
        ensures x + [i] != x + [n - 1]
      {
        assert (x + [i])[|x|] == i;
      }
    }
  }

  lemma ChildRuns(s: State, x: Trail, t: Term, n: nat, checks: Checks)
    requires Ready(s, x, t) && t.Op? && n < |t.args|
    ensures RunLine(Child(x, n, true), With(s, Operand(t.args, x, n)), checks)
         == Fell(With(s, Operand(t.args, x, n + 1)))
  {
    var m, y := Operand(t.args, x, n), x + [n];
    OperandIs(t.args, x, n);
    assert y[|x|] == n && x <= y;
    assert y !in With(s, m).vars;
    assert x !in m;
    WithStore(s, m, y, t.args[n]);
  }

  /** Fetching the operands. */
  lemma {:induction false} ChildrenRun(s: State, x: Trail, t: Term, n: nat, checks: Checks)
    requires Ready(s, x, t) && t.Op? && n <= |t.args|
    ensures Run(Children(x, n), s, checks) == Fell(With(s, Operand(t.args, x, n)))
  {
    if n == 0 {
      assert With(s, map[]).vars == s.vars;
    } else {
      ChildRuns(s, x, t, n - 1, checks);
      ChildrenRun(s, x, t, n - 1, checks);
      hide Ready, RunLine, Run, Operand, With;
      RunAppend(Children(x, n - 1), [Child(x, n - 1, true)], s, checks);
      RunOne(Child(x, n - 1, true), With(s, Operand(t.args, x, n - 1)), checks);
    }
  }

  lemma LeaveSame(s: State)
    ensures Leave(s, s) == s
  {
    assert Leave(s, s).vars == s.vars;
  }

  /** After fetching the operands each of them is ready. */
  ghost predicate KidsReady(s: State, x: Trail, args: seq<Term>) {
    forall i | 0 <= i < |args| :: Ready(s, x + [i], args[i])
  }

  lemma OperandsReady(s: State, x: Trail, t: Term)
    requires Ready(s, x, t) && t.Op?
    ensures KidsReady(With(s, Operand(t.args, x, |t.args|)), x, t.args)
  {
    var s' := With(s, Operand(t.args, x, |t.args|));
    OperandIs(t.args, x, |t.args|);
    forall i | 0 <= i < |t.args|
      ensures Ready(s', x + [i], t.args[i])
    {
      forall y | y in s'.vars && x + [i] <= y
        ensures y == x + [i]
      {
        assert x <= y && y != x;
        assert y in Operand(t.args, x, |t.args|);
      }
    }
  }

  /** Kids that were not visited yet are still ready. */
  lemma StillReady(s: State, x: Trail, args: seq<Term>, n: nat, m: map<Trail, Term>)
    requires KidsReady(s, x, args) && n < |args|
    requires forall y | y in m :: Below(x, n, y)
    ensures Ready(With(s, m), x + [n], args[n])
  {
    var x' := x + [n];
    assert Ready(s, x', args[n]);
    assert x'[|x|] == n;
    forall y | y in With(s, m).vars && x' <= y
      ensures y == x'
    {
      assert y[|x|] == n;
      assert y in m ==> Below(x, n, y);
      assert y in s.vars;
    }
  }

  /** Fetching the operands first adds nothing to what the kids bind. */
  lemma OperandsBound(kids: seq<Pattern>, args: seq<Term>, x: Trail)
    requires |kids| == |args| && BindKids(kids, args, x, |kids|).Some?
    ensures Operand(args, x, |args|) + BindKids(kids, args, x, |kids|).value == BindKids(kids, args, x, |kids|).value
  {
    var a, m := Operand(args, x, |args|), BindKids(kids, args, x, |kids|).value;
    OperandIs(args, x, |args|);
    BindKidsKeys(kids, args, x, |kids|);
    forall y | y in a
      ensures y in m
    {
      assert y == x + [y[|x|]];
    }
    assert (a + m).Keys == m.Keys;
  }

  lemma NodeState(kids: seq<Pattern>, t: Term, x: Trail, s: State)
    requires Ready(s, x, t) && t.Op? && |kids| == |t.args| && BindKids(kids, t.args, x, |kids|).Some?
    ensures var m := BindKids(kids, t.args, x, |kids|).value;
      With(With(s, Operand(t.args, x, |kids|)), m) == With(s, m[x := t])
  {
    var m := BindKids(kids, t.args, x, |kids|).value;
    OperandsBound(kids, t.args, x);
    WithTwice(s, Operand(t.args, x, |kids|), m);
    BindKidsKeys(kids, t.args, x, |kids|);
    assert x !in m;
    WithKnown(s, m, x, t);
  }

  /** The two operands of a pattern with an optional one, as variables. */
  function Both(p: Pattern, t: Term, x: Trail): map<Trail, Term>
    requires p.Opt?
  {
    map[x + [0] := Operands(p, t)[0], x + [1] := Operands(p, t)[1]]
  }

  function Declared(s: State, x: Trail): State {
    s.(vars := s.vars[x + [0] := None][x + [1] := None])
  }

  lemma DeclareBoth(s: State, x: Trail, t: Term, checks: Checks)
    requires Ready(s, x, t)
    ensures Run([Decl(x + [0]), Decl(x + [1])], s, checks) == Fell(Declared(s, x))
  {
    assert (x + [0])[|x|] == 0 && (x + [1])[|x|] == 1;
    assert x + [0] !in s.vars && x + [1] !in s.vars;
    RunTwo(Decl(x + [0]), Decl(x + [1]), s, checks);
  }

  lemma RunTwo(a: Line, b: Line, s: State, checks: Checks)
    ensures Run([a, b], s, checks) == var o := RunLine(a, s, checks); if o.Fell? then RunLine(b, o.state, checks) else o
  {
    assert [a, b][1..] == [b];
    if RunLine(a, s, checks).Fell? {
      RunOne(b, RunLine(a, s, checks).state, checks);
    }
  }

  lemma Apart(x: Trail)
    ensures x + [0] != x + [1] && x != x + [0] && x != x + [1]
  {
    assert (x + [0])[|x|] != (x + [1])[|x|];
  }

  lemma BothStored(p: Pattern, t: Term, s: State, x: Trail)
    requires p.Opt?
    ensures With(s, Both(p, t, x))
         == Store(Store(Declared(s, x), x + [0], Operands(p, t)[0]), x + [1], Operands(p, t)[1])
  {
    Apart(x);
    var end := Store(Store(Declared(s, x), x + [0], Operands(p, t)[0]), x + [1], Operands(p, t)[1]);
    assert With(s, Both(p, t, x)).vars == end.vars;
  }

  /** Either branch gives both operands their value. */
  lemma BranchSets(p: Pattern, t: Term, s: State, x: Trail, checks: Checks)
    requires p.Opt? && Ready(s, x, t)
    ensures Run(if IsOp(t, p.name, 2) then Present(x) else Absent(p, x), Declared(s, x), checks)
         == Fell(With(s, Both(p, t, x)))
  {
    var d := Declared(s, x);
    Apart(x);
    assert Lookup(d, x) == Some(t);
    var parts := Operands(p, t);
    var mid := Store(d, x + [0], parts[0]);
    var end := Store(mid, x + [1], parts[1]);
    BothStored(p, t, s, x);
    hide With, Both, Declared;
    if IsOp(t, p.name, 2) {
      RunTwo(Child(x, 0, false), Child(x, 1, false), d, checks);
    } else if p.first {
      RunTwo(Default(x + [0], p.deflt), Alias(x + [1], x), d, checks);
    } else {
      RunTwo(Alias(x + [0], x), Default(x + [1], p.deflt), d, checks);
    }
  }

  lemma LeaveWith(s: State, inner: State)
    requires s.vars.Keys == inner.vars.Keys
    ensures Leave(s, inner) == inner
  {
    assert Leave(s, inner).vars == inner.vars;
  }

  /** Declaring both operands and setting them one way or the other. */
  lemma OptRuns(sig: Signature, p: Pattern, t: Term, x: Trail, s: State, test: Test, thn: seq<Line>, els: seq<Line>, checks: Checks)
    requires p.Opt? && Ready(s, x, t)
    requires Evaluate(test, Declared(s, x), checks).Some?
    requires (if Evaluate(test, Declared(s, x), checks).value then thn else els)
          == if IsOp(t, p.name, 2) then Present(x) else Absent(p, x)
    ensures Run([Decl(x + [0]), Decl(x + [1]), If(test, thn, els)], s, checks) == Fell(With(s, Both(p, t, x)))
  {
    DeclareBoth(s, x, t, checks);
    RunAppend([Decl(x + [0]), Decl(x + [1])], [If(test, thn, els)], s, checks);
    assert [Decl(x + [0]), Decl(x + [1])] + [If(test, thn, els)] == [Decl(x + [0]), Decl(x + [1]), If(test, thn, els)];
    RunOne(If(test, thn, els), Declared(s, x), checks);
    BranchSets(p, t, s, x, checks);
    LeaveWith(Declared(s, x), With(s, Both(p, t, x)));
  }

  lemma BothReady(p: Pattern, t: Term, s: State, x: Trail)
    requires p.Opt? && Ready(s, x, t)
    ensures Ready(With(s, Both(p, t, x)), x + [1 - Side(p)], Operands(p, t)[1 - Side(p)])
  {
    Apart(x);
    var x', s' := x + [1 - Side(p)], With(s, Both(p, t, x));
    forall y | y in s'.vars && x' <= y
      ensures y == x'
    {
      assert x <= y && y != x;
      assert y in Both(p, t, x);
      assert (x + [Side(p)])[|x|] != x'[|x|];
    }
  }

  lemma OptMaps(p: Pattern, t: Term, x: Trail)
    requires p.Opt? && Bind(p, t, x).Some?
    ensures var i, parts := Side(p), Operands(p, t);
      var m := Bind(p.other, parts[1 - i], x + [1 - i]).value;
      Bind(p, t, x).value == (Both(p, t, x) + m)[x := t] && x !in m && x !in Both(p, t, x)
  {
    var i, parts := Side(p), Operands(p, t);
    var m := Bind(p.other, parts[1 - i], x + [1 - i]).value;
    BindKeys(p.other, parts[1 - i], x + [1 - i]);
    OptApart(p, t, x);
    Apart(x);
    var l, r := Bind(p, t, x).value, (Both(p, t, x) + m)[x := t];
    assert l == m[x := t][x + [i] := parts[i]];
    assert l.Keys == r.Keys;
    forall y | y in l
      ensures l[y] == r[y]
    {}
    assert l == r;
  }

  lemma OptState(p: Pattern, t: Term, s: State, x: Trail)
    requires p.Opt? && Ready(s, x, t) && Bind(p, t, x).Some?
    ensures var i := Side(p);
      With(With(s, Both(p, t, x)), Bind(p.other, Operands(p, t)[1 - i], x + [1 - i]).value) == With(s, Bind(p, t, x).value)
  {
    var i := Side(p);
    var m := Bind(p.other, Operands(p, t)[1 - i], x + [1 - i]).value;
    OptMaps(p, t, x);
    hide Bind, Both, Operands;
    WithTwice(s, Both(p, t, x), m);
    WithKnown(s, Both(p, t, x) + m, x, t);
  }

  lemma LeafExits(sig: Signature, p: Pattern, t: Term, x: Trail, s: State, checks: Checks)
    requires (p.Meta? || p.Const?) && Ready(s, x, t)
    ensures Run(Exits(sig, p, x), s, checks)
         == var m := Bind(p, t, x); if m.Some? then Fell(With(s, m.value)) else Returned(false, s.result)
  {
    WithKnown(s, map[], x, t);
    assert With(s, map[]).vars == s.vars;
    if p.Const? {
      var line := If(Not(IsValue(x, p.value)), [Return(false)], []);
      RunOne(line, s, checks);
      RunOne(Return(false), s, checks);
      LeaveSame(s);
      assert Evaluate(IsValue(x, p.value), s, checks) == Some(t == Num(p.value));
    }
  }

  /** The check of the operator, then the operands. */
  lemma NodeSteps(sig: Signature, p: Pattern, t: Term, x: Trail, s: State, checks: Checks)
    requires p.Node? && TermOk(sig, t) && PatternOk(sig, p) && Ready(s, x, t)
    ensures !IsOp(t, p.name, |p.kids|) ==> Run(Exits(sig, p, x), s, checks) == Returned(false, s.result)
    ensures IsOp(t, p.name, |p.kids|) ==>
      Run(Exits(sig, p, x), s, checks)
      == Run(ExitsOfKids(sig, p.kids, x, |p.kids|), With(s, Operand(t.args, x, |p.kids|)), checks)
  {
    var head := If(Not(Head(sig, p.name, |p.kids|, x)), [Return(false)], []);
    var rest := Children(x, |p.kids|) + ExitsOfKids(sig, p.kids, x, |p.kids|);
    HeadTest(sig, p.name, |p.kids|, x, t, s, checks);
    RunOne(head, s, checks);
    RunOne(Return(false), s, checks);
    LeaveSame(s);
    Regroup([head], Children(x, |p.kids|), ExitsOfKids(sig, p.kids, x, |p.kids|));
    RunAppend([head], rest, s, checks);
    if IsOp(t, p.name, |p.kids|) {
      RunAppend(Children(x, |p.kids|), ExitsOfKids(sig, p.kids, x, |p.kids|), s, checks);
      ChildrenRun(s, x, t, |p.kids|, checks);
    }
  }

  lemma OptSteps(sig: Signature, p: Pattern, t: Term, x: Trail, s: State, checks: Checks)
    requires p.Opt? && TermOk(sig, t) && PatternOk(sig, p) && Ready(s, x, t)
    ensures Run(Exits(sig, p, x), s, checks)
         == Run(Exits(sig, p.other, x + [1 - Side(p)]), With(s, Both(p, t, x)), checks)
  {
    var test := Not(Head(sig, p.name, 2, x));
    Apart(x);
    HeadTest(sig, p.name, 2, x, t, Declared(s, x), checks);
    OptRuns(sig, p, t, x, s, test, Absent(p, x), Present(x), checks);
    RunAppend([Decl(x + [0]), Decl(x + [1]), If(test, Absent(p, x), Present(x))],
      Exits(sig, p.other, x + [1 - Side(p)]), s, checks);
  }

  lemma OptBind(p: Pattern, t: Term, x: Trail)
    requires p.Opt?
    ensures Bind(p, t, x).Some? <==> Bind(p.other, Operands(p, t)[1 - Side(p)], x + [1 - Side(p)]).Some?
  {}

  lemma NodeBind(p: Pattern, t: Term, x: Trail)
    requires p.Node?
    ensures !IsOp(t, p.name, |p.kids|) ==> Bind(p, t, x).None?
    ensures IsOp(t, p.name, |p.kids|) ==>
      var m := BindKids(p.kids, t.args, x, |p.kids|);
      Bind(p, t, x) == if m.None? then None else Some(m.value[x := t])
  {}

  /** Running the code with early exits: it returns false if the shape does not fit, and otherwise
      falls through with exactly the variables of the match defined. */
  lemma {:induction false} ExitsRun(sig: Signature, p: Pattern, t: Term, x: Trail, s: State, checks: Checks)
    requires TermOk(sig, t) && PatternOk(sig, p) && Ready(s, x, t)
    ensures Run(Exits(sig, p, x), s, checks)
         == var m := Bind(p, t, x); if m.Some? then Fell(With(s, m.value)) else Returned(false, s.result)
    decreases p, 0
  {
    hide Ready, Bind, BindKids, Exits, ExitsOfKids, Children, Run, RunLine, With;
    match p
    case Meta(_) => LeafExits(sig, p, t, x, s, checks);
    case Const(_) => LeafExits(sig, p, t, x, s, checks);
    case Node(f, kids) =>
      NodeSteps(sig, p, t, x, s, checks);
      NodeBind(p, t, x);
      if IsOp(t, f, |kids|) {
        OperandsReady(s, x, t);
        var s' := With(s, Operand(t.args, x, |kids|));
        WithResult(s, Operand(t.args, x, |kids|));
        ExitsOfKidsRun(sig, kids, t.args, x, |kids|, s', checks);
        if BindKids(kids, t.args, x, |kids|).Some? {
          NodeState(kids, t, x, s);
        }
      }
    case Opt(f, _, _, _, other) =>
      OptSteps(sig, p, t, x, s, checks);
      BothReady(p, t, s, x);
      WithResult(s, Both(p, t, x));
      OptBind(p, t, x);
      var i, parts := Side(p), Operands(p, t);
      ExitsRun(sig, other, parts[1 - i], x + [1 - i], With(s, Both(p, t, x)), checks);
      if Bind(p, t, x).Some? {
        OptState(p, t, s, x);
      }
  }

  lemma WithResult(s: State, m: map<Trail, Term>)
    ensures With(s, m).result == s.result
  {}

  lemma {:induction false} ExitsOfKidsRun(sig: Signature, kids: seq<Pattern>, args: seq<Term>, x: Trail, n: nat, s: State, checks: Checks)
    requires n <= |kids| == |args| && KidsReady(s, x, args)
    requires forall i | 0 <= i < n :: TermOk(sig, args[i]) && PatternOk(sig, kids[i])
    ensures Run(ExitsOfKids(sig, kids, x, n), s, checks)
         == var m := BindKids(kids, args, x, n); if m.Some? then Fell(With(s, m.value)) else Returned(false, s.result)
    decreases kids, n
  {
    if n == 0 {
      assert With(s, map[]).vars == s.vars;
    } else {
      hide Ready, KidsReady, Bind, Exits, Run, RunLine, With;
      ExitsOfKidsRun(sig, kids, args, x, n - 1, s, checks);
      RunAppend(ExitsOfKids(sig, kids, x, n - 1), Exits(sig, kids[n - 1], x + [n - 1]), s, checks);
      var a := BindKids(kids, args, x, n - 1);
      if a.Some? {
        BindKidsKeys(kids, args, x, n - 1);
        StillReady(s, x, args, n - 1, a.value);
        WithResult(s, a.value);
        ExitsRun(sig, kids[n - 1], args[n - 1], x + [n - 1], With(s, a.value), checks);
        var b := Bind(kids[n - 1], args[n - 1], x + [n - 1]);
        if b.Some? {
          WithTwice(s, a.value, b.value);
        }
      }
    }
  }
}
