/** Where its side condition is violated, flattening goes wrong for a callback of the same shape. */
module FlatteningLimits {
  import opened Terms
  import opened Programs
  import opened Flattening

  const FALSE := Val(0)

  // ----- callbacks of the same shape

  /** The same assignments in the same places, whatever they compute, under the same conditions,
      some of them possibly fixed to true or false. */
  predicate Variant(c: Cmd, d: Cmd) {
    match c
    case Set(x, _) => d.Set? && d.name == x
    case Seq(a, b) => d.Seq? && Variant(a, d.fst) && Variant(b, d.snd)
    case If(e, a) => d.If? && d.cond in {e, TRUE, FALSE} && Variant(a, d.thn)
    case IfElse(e, a, b) =>
      d.IfElse? && d.cond in {e, TRUE, FALSE} && Variant(a, d.thn) && Variant(b, d.els)
    case Skip(_) => d.Skip?
  }

  // ----- the main result, and how its second half is shown

  /** The side condition holds exactly when flattening is right for every callback of the shape. */
  lemma SideConditionIsExact(c: Cmd)
    ensures KeepsConditions(c) <==> forall d | Variant(c, d) :: Meets(d)
  {
    if KeepsConditions(c) {
      forall d | Variant(c, d)
        ensures Meets(d)
      {
        VariantKeeps(c, d);
        FlatteningPreserves(d);
      }
    } else {
      var d, w := BrokenVariant(c);
      BreaksTop(d, w);
    }
  }

  /** At a single if: the then-branch must not flip the condition before its last assignment. */
  lemma ThenIsExact(e: Expr, a: Cmd)
    requires KeepsConditions(a)
    ensures Steady(e, true, a) <==> forall d | Variant(If(e, a), d) :: Meets(d)
  {
    SideConditionIsExact(If(e, a));
  }

  /** And the else-branch not at all, if the then-branch sets something, or not before its last
      assignment, if it does not. */
  lemma ElseIsExact(e: Expr, a: Cmd, b: Cmd)
    requires KeepsConditions(a) && KeepsConditions(b) && Steady(e, true, a)
    ensures (if Sets(a) then Undisturbed(e, false, b) else Steady(e, false, b))
       <==> forall d | Variant(IfElse(e, a, b), d) :: Meets(d)
  {
    SideConditionIsExact(IfElse(e, a, b));
  }

  /** A callback that violates the side condition has a variant that goes wrong. */
  lemma {:induction false} BrokenVariant(c: Cmd) returns (d: Cmd, w: World)
    requires !KeepsConditions(c)
    ensures Variant(c, d) && Breaks(d, w)
  {
    match c
    case Seq(a, b) =>
      if !KeepsConditions(a) {
        d, w := BrokenVariant(a);
        BreaksWithin(a, b, d, w);
        d := Seq(d, Inert(b));
      } else {
        d, w := BrokenVariant(b);
        BreaksWithin(a, b, d, w);
        d := Seq(Inert(a), d);
      }
    case If(e, a) =>
      if !KeepsConditions(a) {
        d, w := BrokenVariant(a);
        BreaksWithin(a, a, d, w);
        d := If(TRUE, d);
      } else {
        var x :| Early(a, x) && !Kept(e, true, x);
        var v;
        w, v := Flip(e, true, x);
        ThenBreaks(e, a, x, v, w);
        d := If(e, Trip(a, x, v));
      }
    case IfElse(e, a, b) =>
      if !KeepsConditions(a) {
        d, w := BrokenVariant(a);
        BreaksWithin(a, b, d, w);
        d := IfElse(TRUE, d, Inert(b));
      } else if !KeepsConditions(b) {
        d, w := BrokenVariant(b);
        BreaksWithin(a, b, d, w);
        d := IfElse(FALSE, Inert(a), d);
      } else {
        d, w := BrokenIfElse(e, a, b);
      }
  }

  lemma Flip(e: Expr, truth: bool, x: string) returns (w: World, v: int)
    requires !Kept(e, truth, x)
    ensures Flips(e, truth, x, v, w)
  {
    w, v :| Holds(e, w) == truth && Holds(e, w.Put(x, v)) != truth;
  }

  lemma BrokenIfElse(e: Expr, a: Cmd, b: Cmd) returns (d: Cmd, w: World)
    requires !Steady(e, true, a) || !(if Sets(a) then Undisturbed(e, false, b) else Steady(e, false, b))
    ensures Variant(IfElse(e, a, b), d) && Breaks(d, w)
  {
    var v;
    if x :| Early(a, x) && !Kept(e, true, x) {
      w, v := Flip(e, true, x);
      ThenOfTwoBreaks(e, a, b, x, v, w);
      d := IfElse(e, Trip(a, x, v), Inert(b));
    } else if Sets(a) {
      var x :| Assigns(b, x) && !Kept(e, false, x);
      w, v := Flip(e, false, x);
      BothBreak(e, a, b, x, v, w);
      d := IfElse(e, Count(a), Fire(b, x, Val(v)));
    } else {
      var x :| Early(b, x) && !Kept(e, false, x);
      w, v := Flip(e, false, x);
      ElseBreaks(e, a, b, x, v, w);
      d := IfElse(e, Inert(a), Trip(b, x, v));
    }
  }

  // ----- variants keep the side condition

  lemma {:induction false} VariantAssigns(c: Cmd, d: Cmd, x: string)
    requires Variant(c, d)
    ensures Assigns(d, x) <==> Assigns(c, x)
    ensures Early(d, x) <==> Early(c, x)
    ensures Sets(d) <==> Sets(c)
  {
    match c
    case Seq(a, b) => VariantAssigns(a, d.fst, x); VariantAssigns(b, d.snd, x);
    case If(_, a) => VariantAssigns(a, d.thn, x);
    case IfElse(_, a, b) => VariantAssigns(a, d.thn, x); VariantAssigns(b, d.els, x);
    case Set(_, _) =>
    case Skip(_) =>
  }

  lemma ConstantIsKept(e: Expr, truth: bool, x: string)
    requires e == TRUE || e == FALSE
    ensures Kept(e, truth, x)
  {
  }

  lemma VariantSteady(e: Expr, e': Expr, truth: bool, c: Cmd, d: Cmd)
    requires Variant(c, d) && e' in {e, TRUE, FALSE}
    ensures Steady(e, truth, c) ==> Steady(e', truth, d)
    ensures Undisturbed(e, truth, c) ==> Undisturbed(e', truth, d)
    ensures Sets(d) <==> Sets(c)
  {
    VariantAssigns(c, d, "");
    forall x
      ensures Early(d, x) <==> Early(c, x)
      ensures Assigns(d, x) <==> Assigns(c, x)
      ensures Kept(e, truth, x) ==> Kept(e', truth, x)
    {
      VariantAssigns(c, d, x);
      if e' != e {
        ConstantIsKept(e', truth, x);
      }
    }
  }

  lemma {:induction false} VariantKeeps(c: Cmd, d: Cmd)
    requires Variant(c, d) && KeepsConditions(c)
    ensures KeepsConditions(d)
  {
    match c
    case Seq(a, b) => VariantKeeps(a, d.fst); VariantKeeps(b, d.snd);
    case If(e, a) =>
      VariantKeeps(a, d.thn);
      VariantSteady(e, d.cond, true, a, d.thn);
    case IfElse(e, a, b) =>
      VariantKeeps(a, d.thn);
      VariantKeeps(b, d.els);
      VariantSteady(e, d.cond, true, a, d.thn);
      VariantSteady(e, d.cond, false, b, d.els);
    case Set(_, _) =>
    case Skip(_) =>
  }

  // ----- worlds that cannot be told apart

  ghost predicate SameData(w: World, w': World) {
    && w.ops == w'.ops
    && forall y {:trigger w.Get(y)} {:trigger w'.Get(y)} :: w.Get(y) == w'.Get(y)
  }

  lemma {:induction false} EvalSame(e: Expr, w: World, w': World)
    requires SameData(w, w')
    ensures Eval(e, w) == Eval(e, w')
  {
    match e
    case Val(_) =>
    case Var(_) =>
    case Not(a) => EvalSame(a, w, w');
    case Bin(_, l, r) => EvalSame(l, w, w'); EvalSame(r, w, w');
    case App(_, args) =>
      forall i | 0 <= i < |args|
        ensures Eval(args[i], w) == Eval(args[i], w')
      {
        EvalSame(args[i], w, w');
      }
      assert seq(|args|, i requires 0 <= i < |args| => Eval(args[i], w))
          == seq(|args|, i requires 0 <= i < |args| => Eval(args[i], w'));
  }

  lemma PutSame(w: World, w': World, x: string, v: int)
    requires SameData(w, w')
    ensures SameData(w.Put(x, v), w'.Put(x, v))
  {
    forall y
      ensures w.Put(x, v).Get(y) == w'.Put(x, v).Get(y)
    {
      assert w.Get(y) == w'.Get(y);
    }
  }

  // ----- running below a condition

  /** The way to the root passes exactly when the condition has the given truth value. */
  ghost predicate Gated(path: seq<Frame>, e: Expr, truth: bool) {
    forall w :: Passes(path, w) <==> Holds(e, w) == truth
  }

  lemma GatedCons(f: Frame, path: seq<Frame>, e: Expr, truth: bool)
    requires Gated(path, e, truth) && forall w :: FrameHolds(f, w)
    ensures Gated([f] + path, e, truth)
  {
    forall w
      ensures Passes([f] + path, w) <==> Passes(path, w)
    {
      PassesCons(f, path, w);
    }
  }

  /** On a free way to the root, the condition of one more if decides. */
  lemma GatedBy(f: Frame, path: seq<Frame>, e: Expr)
    requires Gated(path, TRUE, true) && Conditional(f) && f.cond == e
    ensures Gated([f] + path, e, !f.InElse?)
  {
    forall w
      ensures Passes([f] + path, w) <==> Holds(e, w) == !f.InElse?
    {
      PassesCons(f, path, w);
      assert Holds(TRUE, w);
    }
  }

  lemma BranchAsFlat(c: Cmd, path: seq<Frame>, w: World)
    ensures ExecNodes(FlatBranch(c, path), w) == ExecNodes(Flat(c, path), w)
  {
    if c.Skip? {
      ExecNodesOne(Node(c, path), w);
    }
  }

  lemma FlatSeq(a: Cmd, b: Cmd, path: seq<Frame>, w: World)
    ensures ExecNodes(Flat(Seq(a, b), path), w)
         == ExecNodes(Flat(b, [InSnd(a)] + path), ExecNodes(Flat(a, [InFst(b)] + path), w))
  {
    ExecNodesAppend(Flat(a, [InFst(b)] + path), Flat(b, [InSnd(a)] + path), w);
  }

  lemma FlatIf(e: Expr, a: Cmd, path: seq<Frame>, w: World)
    ensures ExecNodes(Flat(If(e, a), path), w) == ExecNodes(Flat(a, [InIf(e)] + path), w)
  {
    BranchAsFlat(a, [InIf(e)] + path, w);
  }

  lemma FlatIfElse(e: Expr, a: Cmd, b: Cmd, path: seq<Frame>, w: World)
    ensures ExecNodes(Flat(IfElse(e, a, b), path), w)
         == ExecNodes(Flat(a, [InThen(e, b)] + path), ExecNodes(Flat(b, [InElse(e, a)] + path), w))
  {
    var mid := ExecNodes(Flat(b, [InElse(e, a)] + path), w);
    BranchAsFlat(b, [InElse(e, a)] + path, w);
    BranchAsFlat(a, [InThen(e, b)] + path, mid);
    ExecNodesAppend(FlatBranch(b, [InElse(e, a)] + path), FlatBranch(a, [InThen(e, b)] + path), w);
  }

  lemma FlatSet(x: string, r: Expr, path: seq<Frame>, w: World)
    ensures ExecNodes(Flat(Set(x, r), path), w) == if Passes(path, w) then w.Put(x, Eval(r, w)) else w
  {
    ExecNodesOne(Node(Set(x, r), path), w);
    GuardMeaning(path, w);
  }

  // ----- variants that do next to nothing

  /** Every assignment assigns a variable to itself. */
  function Inert(c: Cmd): (d: Cmd)
    ensures Variant(c, d)
  {
    match c
    case Set(x, _) => Set(x, Var(x))
    case Seq(a, b) => Seq(Inert(a), Inert(b))
    case If(_, a) => If(TRUE, Inert(a))
    case IfElse(_, a, b) => IfElse(TRUE, Inert(a), Inert(b))
    case Skip(_) => c
  }

  lemma {:induction false} InertRuns(c: Cmd, path: seq<Frame>, w: World)
    ensures SameData(w, ExecNodes(Flat(Inert(c), path), w))
    ensures SameData(w, Exec(Inert(c), w))
  {
    match c
    case Set(x, _) => FlatSet(x, Var(x), path, w);
    case Skip(_) => ExecNodesOne(Node(c, path), w);
    case Seq(a, b) =>
      var a', b' := Inert(a), Inert(b);
      FlatSeq(a', b', path, w);
      InertRuns(a, [InFst(b')] + path, w);
      InertRuns(b, [InSnd(a')] + path, ExecNodes(Flat(a', [InFst(b')] + path), w));
      InertRuns(b, path, Exec(a', w));
    case If(_, a) =>
      FlatIf(TRUE, Inert(a), path, w);
      InertRuns(a, [InIf(TRUE)] + path, w);
    case IfElse(_, a, b) =>
      var a', b' := Inert(a), Inert(b);
      FlatIfElse(TRUE, a', b', path, w);
      InertRuns(b, [InElse(TRUE, a')] + path, w);
      InertRuns(a, [InThen(TRUE, b')] + path, ExecNodes(Flat(b', [InElse(TRUE, a')] + path), w));
      InertRuns(a, path, w);
  }

  /** One assignment to x is reached and assigns r; every other one is inert. */
  function Fire(c: Cmd, x: string, r: Expr): (d: Cmd)
    requires Assigns(c, x)
    ensures Variant(c, d)
  {
    match c
    case Set(_, _) => Set(x, r)
    case Seq(a, b) => if Assigns(a, x) then Seq(Fire(a, x, r), Inert(b)) else Seq(Inert(a), Fire(b, x, r))
    case If(_, a) => If(TRUE, Fire(a, x, r))
    case IfElse(_, a, b) =>
      if Assigns(a, x) then IfElse(TRUE, Fire(a, x, r), Inert(b)) else IfElse(FALSE, Inert(a), Fire(b, x, r))
  }

  /** What firing has done to a world. */
  ghost predicate Fired(w: World, w': World, x: string, r: Expr, fired: bool) {
    SameData(w', if fired then w.Put(x, Eval(r, w)) else w)
  }

  lemma FiredLater(w: World, w1: World, w2: World, w3: World, x: string, r: Expr, fired: bool)
    requires SameData(w, w1) && Fired(w1, w2, x, r, fired) && SameData(w2, w3)
    ensures Fired(w, w3, x, r, fired)
  {
    EvalSame(r, w, w1);
    PutSame(w, w1, x, Eval(r, w));
  }

  lemma {:induction false} FireRuns(c: Cmd, x: string, r: Expr, path: seq<Frame>, e: Expr, truth: bool, w: World)
    requires Assigns(c, x) && Gated(path, e, truth)
    ensures Fired(w, ExecNodes(Flat(Fire(c, x, r), path), w), x, r, Holds(e, w) == truth)
    ensures Fired(w, Exec(Fire(c, x, r), w), x, r, true)
    decreases c, 1
  {
    match c
    case Set(_, _) => FlatSet(x, r, path, w);
    case Seq(a, b) => FireSeqRuns(a, b, x, r, path, e, truth, w);
    case If(_, a) =>
      FlatIf(TRUE, Fire(a, x, r), path, w);
      GatedCons(InIf(TRUE), path, e, truth);
      FireRuns(a, x, r, [InIf(TRUE)] + path, e, truth, w);
    case IfElse(_, a, b) => FireIfElseRuns(a, b, c.cond, x, r, path, e, truth, w);
  }

  lemma {:induction false} FireSeqRuns(a: Cmd, b: Cmd, x: string, r: Expr, path: seq<Frame>, e: Expr, truth: bool, w: World)
    requires Assigns(Seq(a, b), x) && Gated(path, e, truth)
    ensures Fired(w, ExecNodes(Flat(Fire(Seq(a, b), x, r), path), w), x, r, Holds(e, w) == truth)
    ensures Fired(w, Exec(Fire(Seq(a, b), x, r), w), x, r, true)
    decreases Seq(a, b), 0
  {
    var d := Fire(Seq(a, b), x, r);
    var p, q := [InFst(d.snd)] + path, [InSnd(d.fst)] + path;
    FlatSeq(d.fst, d.snd, path, w);
    GatedCons(InFst(d.snd), path, e, truth);
    GatedCons(InSnd(d.fst), path, e, truth);
    var mid, mid' := ExecNodes(Flat(d.fst, p), w), Exec(d.fst, w);
    if Assigns(a, x) {
      FireRuns(a, x, r, p, e, truth, w);
      InertRuns(b, q, mid);
      InertRuns(b, q, mid');
      FiredLater(w, w, mid, ExecNodes(Flat(d.snd, q), mid), x, r, Holds(e, w) == truth);
      FiredLater(w, w, mid', Exec(d.snd, mid'), x, r, true);
    } else {
      InertRuns(a, p, w);
      EvalSame(e, w, mid);
      FireRuns(b, x, r, q, e, truth, mid);
      FireRuns(b, x, r, q, e, truth, mid');
      FiredLater(w, mid, ExecNodes(Flat(d.snd, q), mid), ExecNodes(Flat(d.snd, q), mid), x, r, Holds(e, w) == truth);
      FiredLater(w, mid', Exec(d.snd, mid'), Exec(d.snd, mid'), x, r, true);
    }
  }

  lemma {:induction false} FireIfElseRuns(a: Cmd, b: Cmd, e0: Expr, x: string, r: Expr, path: seq<Frame>, e: Expr, truth: bool, w: World)
    requires Assigns(IfElse(e0, a, b), x) && Gated(path, e, truth)
    ensures Fired(w, ExecNodes(Flat(Fire(IfElse(e0, a, b), x, r), path), w), x, r, Holds(e, w) == truth)
    ensures Fired(w, Exec(Fire(IfElse(e0, a, b), x, r), w), x, r, true)
    decreases IfElse(e0, a, b), 0
  {
    var d := Fire(IfElse(e0, a, b), x, r);
    var p, q := [InElse(d.cond, d.thn)] + path, [InThen(d.cond, d.els)] + path;
    FlatIfElse(d.cond, d.thn, d.els, path, w);
    var mid := ExecNodes(Flat(d.els, p), w);
    var end := ExecNodes(Flat(d.thn, q), mid);
    if Assigns(a, x) {
      GatedCons(InThen(TRUE, d.els), path, e, truth);
      InertRuns(b, p, w);
      EvalSame(e, w, mid);
      FireRuns(a, x, r, q, e, truth, mid);
      FireRuns(a, x, r, q, e, truth, w);
      FiredLater(w, mid, end, end, x, r, Holds(e, w) == truth);
    } else {
      GatedCons(InElse(FALSE, d.thn), path, e, truth);
      FireRuns(b, x, r, p, e, truth, w);
      InertRuns(a, q, mid);
      FiredLater(w, w, mid, end, x, r, Holds(e, w) == truth);
    }
  }

  /** A variable a callback that sets something assigns. */
  function Target(c: Cmd): (x: string)
    requires Sets(c)
    ensures Assigns(c, x)
  {
    match c
    case Set(x, _) => x
    case Seq(a, b) => if Sets(a) then Target(a) else Target(b)
    case If(_, a) => Target(a)
    case IfElse(_, a, b) => if Sets(a) then Target(a) else Target(b)
  }

  function Count(c: Cmd): (d: Cmd)
    requires Sets(c)
    ensures Variant(c, d)
  {
    Fire(c, Target(c), Bin(Plus, Var(Target(c)), Val(1)))
  }

  /** Counting happens when the way passes and leaves the world alone otherwise. */
  lemma CountRuns(c: Cmd, path: seq<Frame>, e: Expr, truth: bool, w: World)
    requires Sets(c) && Gated(path, e, truth)
    ensures Holds(e, w) != truth ==> SameData(w, ExecNodes(Flat(Count(c), path), w))
    ensures Holds(e, w) == truth ==> !SameData(w, ExecNodes(Flat(Count(c), path), w))
    ensures !SameData(w, Exec(Count(c), w))
  {
    var z := Target(c);
    var r := Bin(Plus, Var(z), Val(1));
    FireRuns(c, z, r, path, e, truth, w);
    assert Eval(Var(z), w) == w.Get(z) && Eval(Val(1), w) == 1;
    assert w.Put(z, Eval(r, w)).Get(z) == w.Get(z) + 1;
  }

  /** An assignment of v to x, followed by a counting one; everything else is inert. */
  function Trip(c: Cmd, x: string, v: int): (d: Cmd)
    requires Early(c, x)
    ensures Variant(c, d)
  {
    match c
    case Seq(a, b) =>
      if Sets(b) && Assigns(a, x) then Seq(Fire(a, x, Val(v)), Count(b))
      else if Early(a, x) then Seq(Trip(a, x, v), Inert(b))
      else Seq(Inert(a), Trip(b, x, v))
    case If(_, a) => If(TRUE, Trip(a, x, v))
    case IfElse(_, a, b) =>
      if Early(a, x) then IfElse(TRUE, Trip(a, x, v), Inert(b)) else IfElse(FALSE, Inert(a), Trip(b, x, v))
  }

  /** The assignment flips the condition. */
  predicate Flips(e: Expr, truth: bool, x: string, v: int, w: World) {
    Holds(e, w) == truth && Holds(e, w.Put(x, v)) != truth
  }

  lemma FlipsAlike(e: Expr, truth: bool, x: string, v: int, w: World, w': World)
    requires SameData(w, w') && Flips(e, truth, x, v, w)
    ensures Flips(e, truth, x, v, w')
    ensures SameData(w.Put(x, v), w'.Put(x, v))
  {
    EvalSame(e, w, w');
    PutSame(w, w', x, v);
    EvalSame(e, w.Put(x, v), w'.Put(x, v));
  }

  /** The flat list is cut short by the flip, the callback is not. */
  lemma {:induction false} TripRuns(c: Cmd, x: string, v: int, path: seq<Frame>, e: Expr, truth: bool, w: World)
    requires Early(c, x) && Gated(path, e, truth) && Flips(e, truth, x, v, w)
    ensures SameData(w.Put(x, v), ExecNodes(Flat(Trip(c, x, v), path), w))
    ensures !SameData(w.Put(x, v), Exec(Trip(c, x, v), w))
    decreases c, 1
  {
    match c
    case Seq(a, b) => TripSeqRuns(a, b, x, v, path, e, truth, w);
    case If(_, a) =>
      FlatIf(TRUE, Trip(a, x, v), path, w);
      GatedCons(InIf(TRUE), path, e, truth);
      TripRuns(a, x, v, [InIf(TRUE)] + path, e, truth, w);
    case IfElse(_, a, b) =>
      var d := Trip(c, x, v);
      var p, q := [InElse(d.cond, d.thn)] + path, [InThen(d.cond, d.els)] + path;
      FlatIfElse(d.cond, d.thn, d.els, path, w);
      var mid := ExecNodes(Flat(d.els, p), w);
      if Early(a, x) {
        GatedCons(InThen(TRUE, d.els), path, e, truth);
        InertRuns(b, p, w);
        FlipsAlike(e, truth, x, v, w, mid);
        TripRuns(a, x, v, q, e, truth, mid);
        TripRuns(a, x, v, q, e, truth, w);
      } else {
        GatedCons(InElse(FALSE, d.thn), path, e, truth);
        TripRuns(b, x, v, p, e, truth, w);
        InertRuns(a, q, mid);
      }
  }

  lemma {:induction false} TripSeqRuns(a: Cmd, b: Cmd, x: string, v: int, path: seq<Frame>, e: Expr, truth: bool, w: World)
    requires Early(Seq(a, b), x) && Gated(path, e, truth) && Flips(e, truth, x, v, w)
    ensures SameData(w.Put(x, v), ExecNodes(Flat(Trip(Seq(a, b), x, v), path), w))
    ensures !SameData(w.Put(x, v), Exec(Trip(Seq(a, b), x, v), w))
    decreases Seq(a, b), 0
  {
    var d := Trip(Seq(a, b), x, v);
    var p, q := [InFst(d.snd)] + path, [InSnd(d.fst)] + path;
    FlatSeq(d.fst, d.snd, path, w);
    GatedCons(InFst(d.snd), path, e, truth);
    GatedCons(InSnd(d.fst), path, e, truth);
    var mid, mid' := ExecNodes(Flat(d.fst, p), w), Exec(d.fst, w);
    if Sets(b) && Assigns(a, x) {
      FireRuns(a, x, Val(v), p, e, truth, w);
      EvalSame(e, w.Put(x, v), mid);
      CountRuns(b, q, e, truth, mid);
      CountRuns(b, q, e, truth, mid');
    } else if Early(a, x) {
      TripRuns(a, x, v, p, e, truth, w);
      InertRuns(b, q, mid);
      InertRuns(b, q, mid');
    } else {
      InertRuns(a, p, w);
      FlipsAlike(e, truth, x, v, w, mid);
      FlipsAlike(e, truth, x, v, w, mid');
      TripRuns(b, x, v, q, e, truth, mid);
      TripRuns(b, x, v, q, e, truth, mid');
    }
  }

  // ----- where the side condition is violated

  /** From w, the flat list of the callback goes wrong in every position that is reached. */
  ghost predicate Breaks(d: Cmd, w: World) {
    forall w1, path | SameData(w, w1) && Gated(path, TRUE, true) :: BreaksAt(d, path, w1)
  }

  ghost predicate BreaksAt(d: Cmd, path: seq<Frame>, w: World) {
    !SameData(ExecNodes(Flat(d, path), w), Exec(d, w))
  }

  lemma BreaksTop(d: Cmd, w: World)
    requires Breaks(d, w)
    ensures !Meets(d)
  {
    assert Gated([], TRUE, true);
    assert BreaksAt(d, [], w);
  }

  /** A then-branch that can flip its condition before its last assignment is cut short. */
  lemma ThenBreaks(e: Expr, a: Cmd, x: string, v: int, w: World)
    requires Early(a, x) && Flips(e, true, x, v, w)
    ensures Breaks(If(e, Trip(a, x, v)), w)
  {
    var a' := Trip(a, x, v);
    forall w1, path | SameData(w, w1) && Gated(path, TRUE, true)
      ensures BreaksAt(If(e, a'), path, w1)
    {
      FlipsAlike(e, true, x, v, w, w1);
      FlatIf(e, a', path, w1);
      GatedBy(InIf(e), path, e);
      TripRuns(a, x, v, [InIf(e)] + path, e, true, w1);
    }
  }

  lemma ThenOfTwoBreaks(e: Expr, a: Cmd, b: Cmd, x: string, v: int, w: World)
    requires Early(a, x) && Flips(e, true, x, v, w)
    ensures Breaks(IfElse(e, Trip(a, x, v), Inert(b)), w)
  {
    var a', b' := Trip(a, x, v), Inert(b);
    forall w1, path | SameData(w, w1) && Gated(path, TRUE, true)
      ensures BreaksAt(IfElse(e, a', b'), path, w1)
    {
      var mid := ExecNodes(Flat(b', [InElse(e, a')] + path), w1);
      FlatIfElse(e, a', b', path, w1);
      InertRuns(b, [InElse(e, a')] + path, w1);
      FlipsAlike(e, true, x, v, w, w1);
      FlipsAlike(e, true, x, v, w1, mid);
      GatedBy(InThen(e, b'), path, e);
      TripRuns(a, x, v, [InThen(e, b')] + path, e, true, w1);
      TripRuns(a, x, v, [InThen(e, b')] + path, e, true, mid);
    }
  }

  /** So is an else-branch. */
  lemma ElseBreaks(e: Expr, a: Cmd, b: Cmd, x: string, v: int, w: World)
    requires Early(b, x) && Flips(e, false, x, v, w)
    ensures Breaks(IfElse(e, Inert(a), Trip(b, x, v)), w)
  {
    var a', b' := Inert(a), Trip(b, x, v);
    forall w1, path | SameData(w, w1) && Gated(path, TRUE, true)
      ensures BreaksAt(IfElse(e, a', b'), path, w1)
    {
      var mid := ExecNodes(Flat(b', [InElse(e, a')] + path), w1);
      FlatIfElse(e, a', b', path, w1);
      FlipsAlike(e, false, x, v, w, w1);
      GatedBy(InElse(e, a'), path, e);
      TripRuns(b, x, v, [InElse(e, a')] + path, e, false, w1);
      InertRuns(a, [InThen(e, b')] + path, mid);
    }
  }

  /** After an else-branch that flips the condition, a then-branch that sets something runs as
      well. */
  lemma BothBreak(e: Expr, a: Cmd, b: Cmd, x: string, v: int, w: World)
    requires Sets(a) && Assigns(b, x) && Flips(e, false, x, v, w)
    ensures Breaks(IfElse(e, Count(a), Fire(b, x, Val(v))), w)
  {
    var a', b' := Count(a), Fire(b, x, Val(v));
    forall w1, path | SameData(w, w1) && Gated(path, TRUE, true)
      ensures BreaksAt(IfElse(e, a', b'), path, w1)
    {
      var mid := ExecNodes(Flat(b', [InElse(e, a')] + path), w1);
      FlatIfElse(e, a', b', path, w1);
      FlipsAlike(e, false, x, v, w, w1);
      GatedBy(InElse(e, a'), path, e);
      GatedBy(InThen(e, b'), path, e);
      FireRuns(b, x, Val(v), [InElse(e, a')] + path, e, false, w1);
      EvalSame(e, w1.Put(x, v), mid);
      CountRuns(a, [InThen(e, b')] + path, e, true, mid);
    }
  }

  /** Surrounded by inert commands and constant conditions, a callback breaks as it does alone. */
  lemma BreaksWithin(a: Cmd, b: Cmd, d: Cmd, w: World)
    requires Breaks(d, w)
    ensures Breaks(Seq(d, Inert(b)), w) && Breaks(Seq(Inert(a), d), w) && Breaks(If(TRUE, d), w)
    ensures Breaks(IfElse(TRUE, d, Inert(b)), w) && Breaks(IfElse(FALSE, Inert(a), d), w)
  {
    forall w1, path | SameData(w, w1) && Gated(path, TRUE, true)
      ensures BreaksAt(Seq(d, Inert(b)), path, w1) && BreaksAt(Seq(Inert(a), d), path, w1)
    {
      BreaksInSeq(a, b, d, path, w, w1);
    }
    forall w1, path | SameData(w, w1) && Gated(path, TRUE, true)
      ensures BreaksAt(If(TRUE, d), path, w1)
    {
      FlatIf(TRUE, d, path, w1);
      GatedCons(InIf(TRUE), path, TRUE, true);
      assert BreaksAt(d, [InIf(TRUE)] + path, w1);
    }
    forall w1, path | SameData(w, w1) && Gated(path, TRUE, true)
      ensures BreaksAt(IfElse(TRUE, d, Inert(b)), path, w1) && BreaksAt(IfElse(FALSE, Inert(a), d), path, w1)
    {
      BreaksInIfElse(a, b, d, path, w, w1);
    }
  }

  lemma BreaksInSeq(a: Cmd, b: Cmd, d: Cmd, path: seq<Frame>, w: World, w1: World)
    requires Breaks(d, w) && SameData(w, w1) && Gated(path, TRUE, true)
    ensures BreaksAt(Seq(d, Inert(b)), path, w1) && BreaksAt(Seq(Inert(a), d), path, w1)
  {
    var a', b' := Inert(a), Inert(b);
    FlatSeq(d, b', path, w1);
    GatedCons(InFst(b'), path, TRUE, true);
    assert BreaksAt(d, [InFst(b')] + path, w1);
    InertRuns(b, [InSnd(d)] + path, ExecNodes(Flat(d, [InFst(b')] + path), w1));
    InertRuns(b, path, Exec(d, w1));
    FlatSeq(a', d, path, w1);
    GatedCons(InSnd(a'), path, TRUE, true);
    InertRuns(a, [InFst(d)] + path, w1);
    var mid := ExecNodes(Flat(a', [InFst(d)] + path), w1);
    assert BreaksAt(d, [InSnd(a')] + path, mid);
    ExecSame(d, mid, Exec(a', w1));
  }

  lemma BreaksInIfElse(a: Cmd, b: Cmd, d: Cmd, path: seq<Frame>, w: World, w1: World)
    requires Breaks(d, w) && SameData(w, w1) && Gated(path, TRUE, true)
    ensures BreaksAt(IfElse(TRUE, d, Inert(b)), path, w1) && BreaksAt(IfElse(FALSE, Inert(a), d), path, w1)
  {
    var a', b' := Inert(a), Inert(b);
    FlatIfElse(TRUE, d, b', path, w1);
    GatedCons(InThen(TRUE, b'), path, TRUE, true);
    InertRuns(b, [InElse(TRUE, d)] + path, w1);
    var mid := ExecNodes(Flat(b', [InElse(TRUE, d)] + path), w1);
    assert BreaksAt(d, [InThen(TRUE, b')] + path, mid);
    ExecSame(d, mid, w1);
    FlatIfElse(FALSE, a', d, path, w1);
    GatedCons(InElse(FALSE, a'), path, TRUE, true);
    assert BreaksAt(d, [InElse(FALSE, a')] + path, w1);
    InertRuns(a, [InThen(FALSE, d)] + path, ExecNodes(Flat(d, [InElse(FALSE, a')] + path), w1));
  }

  lemma {:induction false} ExecSame(c: Cmd, w: World, w': World)
    requires SameData(w, w')
    ensures SameData(Exec(c, w), Exec(c, w'))
  {
    match c
    case Set(x, e) => EvalSame(e, w, w'); PutSame(w, w', x, Eval(e, w));
    case Skip(_) =>
    case Seq(a, b) => ExecSame(a, w, w'); ExecSame(b, Exec(a, w), Exec(a, w'));
    case If(e, a) => EvalSame(e, w, w'); ExecSame(a, w, w');
    case IfElse(e, a, b) => EvalSame(e, w, w'); ExecSame(a, w, w'); ExecSame(b, w, w');
  }
}
