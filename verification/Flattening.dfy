/** Flattening a structured callback into a list of guarded commands. */
module Flattening {
  import opened Terms
  import opened Programs

  // ----- left association

  /** Rotating one sequence whose second part is a sequence. */
  function Rotate(c: Cmd): (r: Cmd)
    ensures Size(r) == Size(c)
    ensures r == c || Weight(r) < Weight(c)
  {
    if c.Seq? && c.snd.Seq? then Seq(Seq(c.fst, c.snd.fst), c.snd.snd) else c
  }

  /** One traversal: rotate at a node, then visit its children. */
  function RotateAll(c: Cmd): (r: Cmd)
    ensures Weight(r) <= Weight(c)
    ensures Weight(r) == Weight(c) ==> r == c && LeftAssociated(c)
    decreases Size(c)
  {
    match Rotate(c)
    case Seq(a, b) => Seq(RotateAll(a), RotateAll(b))
    case If(e, a) => If(e, RotateAll(a))
    case IfElse(e, a, b) => IfElse(e, RotateAll(a), RotateAll(b))
    case Set(_, _) => c
    case Skip(_) => c
  }

  /** Heavier the further sequences lean to the right. */
  function Weight(c: Cmd): (n: nat)
    ensures n >= 1
  {
    match c
    case Set(_, _) => 1
    case Skip(_) => 1
    case Seq(a, b) => Weight(a) + 2 * Weight(b)
    case If(_, a) => Weight(a)
    case IfElse(_, a, b) => Weight(a) + Weight(b)
  }

  predicate LeftAssociated(c: Cmd) {
    match c
    case Seq(a, b) => !b.Seq? && LeftAssociated(a) && LeftAssociated(b)
    case If(_, a) => LeftAssociated(a)
    case IfElse(_, a, b) => LeftAssociated(a) && LeftAssociated(b)
    case Set(_, _) => true
    case Skip(_) => true
  }

  lemma {:induction false} RotateAllExec(c: Cmd, w: World)
    ensures Exec(RotateAll(c), w) == Exec(c, w)
    decreases Size(c)
  {
    match Rotate(c)
    case Seq(a, b) =>
      RotateAllExec(a, w);
      RotateAllExec(b, Exec(a, w));
    case If(e, a) => RotateAllExec(a, w);
    case IfElse(e, a, b) => RotateAllExec(a, w); RotateAllExec(b, w);
    case Set(_, _) =>
    case Skip(_) =>
  }

  // ----- what an if may assign

  predicate Assigns(c: Cmd, x: string) {
    match c
    case Set(y, _) => x == y
    case Seq(a, b) => Assigns(a, x) || Assigns(b, x)
    case If(_, a) => Assigns(a, x)
    case IfElse(_, a, b) => Assigns(a, x) || Assigns(b, x)
    case Skip(_) => false
  }

  /** Assigning x never takes the condition away from the truth value it has. */
  ghost predicate Kept(e: Expr, truth: bool, x: string) {
    forall w: World, v: int :: Holds(e, w) == truth ==> Holds(e, w.Put(x, v)) == truth
  }

  /** The callback sets something. */
  predicate Sets(c: Cmd) {
    match c
    case Set(_, _) => true
    case Seq(a, b) => Sets(a) || Sets(b)
    case If(_, a) => Sets(a)
    case IfElse(_, a, b) => Sets(a) || Sets(b)
    case Skip(_) => false
  }

  /** x is assigned where another assignment of the callback may still follow in the same run. */
  predicate Early(c: Cmd, x: string) {
    match c
    case Set(_, _) => false
    case Seq(a, b) => if Sets(b) then Assigns(a, x) || Early(b, x) else Early(a, x)
    case If(_, a) => Early(a, x)
    case IfElse(_, a, b) => Early(a, x) || Early(b, x)
    case Skip(_) => false
  }

  /** No assignment of the command flips the condition. */
  ghost predicate Undisturbed(e: Expr, truth: bool, c: Cmd) {
    forall x :: Assigns(c, x) ==> Kept(e, truth, x)
  }

  /** No assignment of the command that another one may follow flips the condition. */
  ghost predicate Steady(e: Expr, truth: bool, c: Cmd) {
    forall x :: Early(c, x) ==> Kept(e, truth, x)
  }

  /** No if assigns, in the branch it takes, a variable that could flip its own condition while
      there is still something to set under it.  The last assignment of a then-branch may flip the
      condition; that of an else-branch may if the then-branch, which is listed behind it, sets
      nothing. */
  ghost predicate KeepsConditions(c: Cmd) {
    match c
    case Seq(a, b) => KeepsConditions(a) && KeepsConditions(b)
    case If(e, a) => Steady(e, true, a) && KeepsConditions(a)
    case IfElse(e, a, b) =>
      && Steady(e, true, a)
      && (if Sets(a) then Undisturbed(e, false, b) else Steady(e, false, b))
      && KeepsConditions(a) && KeepsConditions(b)
    case Set(_, _) => true
    case Skip(_) => true
  }

  lemma {:induction false} EarlyIsAssigned(c: Cmd, x: string)
    ensures Early(c, x) ==> Assigns(c, x)
  {
    match c
    case Seq(a, b) => EarlyIsAssigned(a, x); EarlyIsAssigned(b, x);
    case If(_, a) => EarlyIsAssigned(a, x);
    case IfElse(_, a, b) => EarlyIsAssigned(a, x); EarlyIsAssigned(b, x);
    case Set(_, _) =>
    case Skip(_) =>
  }

  lemma UndisturbedIsSteady(e: Expr, truth: bool, c: Cmd)
    requires Undisturbed(e, truth, c)
    ensures Steady(e, truth, c)
  {
    forall x | Early(c, x)
      ensures Kept(e, truth, x)
    {
      EarlyIsAssigned(c, x);
    }
  }

  /** The simple rule: no branch ever flips the condition it stands under. */
  ghost predicate NeverFlips(c: Cmd) {
    match c
    case Seq(a, b) => NeverFlips(a) && NeverFlips(b)
    case If(e, a) => Undisturbed(e, true, a) && NeverFlips(a)
    case IfElse(e, a, b) =>
      Undisturbed(e, true, a) && Undisturbed(e, false, b) && NeverFlips(a) && NeverFlips(b)
    case Set(_, _) => true
    case Skip(_) => true
  }

  /** The simple rule is enough... */
  lemma {:induction false} NeverFlipsKeeps(c: Cmd)
    requires NeverFlips(c)
    ensures KeepsConditions(c)
  {
    match c
    case Seq(a, b) => NeverFlipsKeeps(a); NeverFlipsKeeps(b);
    case If(e, a) => NeverFlipsKeeps(a); UndisturbedIsSteady(e, true, a);
    case IfElse(e, a, b) =>
      NeverFlipsKeeps(a);
      NeverFlipsKeeps(b);
      UndisturbedIsSteady(e, true, a);
      UndisturbedIsSteady(e, false, b);
    case Set(_, _) =>
    case Skip(_) =>
  }

  /** ...and not needed: a branch may switch itself off with its last assignment. */
  lemma LastMayFlip(x: string)
    ensures var c := If(Var(x), Set(x, Val(0))); KeepsConditions(c) && !NeverFlips(c)
  {
    var w := NOWHERE.Put(x, 1);
    assert Holds(Var(x), w) && !Holds(Var(x), w.Put(x, 0));
    assert Assigns(Set(x, Val(0)), x) && !Kept(Var(x), true, x);
  }

  /** A variable the condition does not mention is always fine to assign. */
  lemma NotMentionedIsKept(e: Expr, truth: bool, x: string)
    requires !Mentions(e, x)
    ensures Kept(e, truth, x)
  {
    forall w: World, v: int
      ensures Holds(e, w) == Holds(e, w.Put(x, v))
    {
      EvalIgnores(e, w, w.Put(x, v), x);
    }
  }

  lemma {:induction false} AssignsSets(c: Cmd, x: string)
    requires Assigns(c, x)
    ensures Sets(c)
  {
    match c
    case Seq(a, b) => if Assigns(a, x) { AssignsSets(a, x); } else { AssignsSets(b, x); }
    case If(_, a) => AssignsSets(a, x);
    case IfElse(_, a, b) => if Assigns(a, x) { AssignsSets(a, x); } else { AssignsSets(b, x); }
    case Set(_, _) =>
  }

  lemma RotateAssigns(c: Cmd)
    ensures forall x :: Assigns(Rotate(c), x) <==> Assigns(c, x)
    ensures forall x :: Early(Rotate(c), x) <==> Early(c, x)
    ensures Sets(Rotate(c)) <==> Sets(c)
    ensures KeepsConditions(c) ==> KeepsConditions(Rotate(c))
  {
    if c.Seq? && c.snd.Seq? {
      var left := Seq(c.fst, c.snd.fst);
      assert Rotate(c) == Seq(left, c.snd.snd);
      assert KeepsConditions(left) <==> KeepsConditions(c.fst) && KeepsConditions(c.snd.fst);
      assert KeepsConditions(c.snd) <==> KeepsConditions(c.snd.fst) && KeepsConditions(c.snd.snd);
      forall x
        ensures Assigns(Rotate(c), x) <==> Assigns(c, x)
        ensures Early(Rotate(c), x) <==> Early(c, x)
      {
        assert Assigns(left, x) <==> Assigns(c.fst, x) || Assigns(c.snd.fst, x);
        assert Assigns(c.snd, x) <==> Assigns(c.snd.fst, x) || Assigns(c.snd.snd, x);
        assert Sets(left) <==> Sets(c.fst) || Sets(c.snd.fst);
        assert Sets(c.snd) <==> Sets(c.snd.fst) || Sets(c.snd.snd);
      }
    }
  }

  lemma {:induction false} RotateAllAssigns(c: Cmd)
    ensures forall x :: Assigns(RotateAll(c), x) <==> Assigns(c, x)
    ensures forall x :: Early(RotateAll(c), x) <==> Early(c, x)
    ensures Sets(RotateAll(c)) <==> Sets(c)
    ensures KeepsConditions(c) ==> KeepsConditions(RotateAll(c))
    decreases Size(c)
  {
    RotateAssigns(c);
    match Rotate(c)
    case Seq(a, b) => RotateAllAssigns(a); RotateAllAssigns(b);
    case If(e, a) => RotateAllAssigns(a);
    case IfElse(e, a, b) => RotateAllAssigns(a); RotateAllAssigns(b);
    case Set(_, _) =>
    case Skip(_) =>
  }

  /** The commands of a callback that are not composed of others, in the order they are written. */
  function Leaves(c: Cmd): seq<Cmd> {
    match c
    case Set(_, _) => [c]
    case Skip(_) => [c]
    case Seq(a, b) => Leaves(a) + Leaves(b)
    case If(_, a) => Leaves(a)
    case IfElse(_, a, b) => Leaves(a) + Leaves(b)
  }

  lemma {:induction false} RotateAllLeaves(c: Cmd)
    ensures Leaves(RotateAll(c)) == Leaves(c)
    decreases Size(c)
  {
    assert Leaves(Rotate(c)) == Leaves(c);
    match Rotate(c)
    case Seq(a, b) => RotateAllLeaves(a); RotateAllLeaves(b);
    case If(_, a) => RotateAllLeaves(a);
    case IfElse(_, a, b) => RotateAllLeaves(a); RotateAllLeaves(b);
    case Set(_, _) =>
    case Skip(_) =>
  }

  /** What rotating until nothing changes arrives at. */
  function Associated(c: Cmd): (r: Cmd)
    ensures LeftAssociated(r)
    decreases Weight(c)
  {
    var next := RotateAll(c);
    if next == c then c else Associated(next)
  }

  /** The left-associated callback means the same. */
  lemma {:induction false} AssociatedMeans(c: Cmd)
    ensures forall w :: Exec(Associated(c), w) == Exec(c, w)
    ensures KeepsConditions(c) ==> KeepsConditions(Associated(c))
    ensures Leaves(Associated(c)) == Leaves(c)
    decreases Weight(c)
  {
    var next := RotateAll(c);
    if next != c {
      RotateAllLeaves(c);
      RotateAllAssigns(c);
      AssociatedMeans(next);
      forall w
        ensures Exec(next, w) == Exec(c, w)
      {
        RotateAllExec(c, w);
      }
    }
  }

  method MakeAssociative(c: Cmd) returns (r: Cmd)
    ensures r == Associated(c) && LeftAssociated(r)
    ensures forall w :: Exec(r, w) == Exec(c, w)
    ensures Leaves(r) == Leaves(c)
  {
    r := c;
    var changed := true;
    while changed
      invariant Associated(r) == Associated(c)
      invariant !changed ==> RotateAll(r) == r
      decreases changed, Weight(r)
    {
      var next := RotateAll(r);
      changed := next != r;
      r := next;
    }
    AssociatedMeans(c);
  }

  // ----- positions in a callback

  /** The step from a command to its father: which operand it is, and what surrounds it. */
  datatype Frame =
    | InFst(snd: Cmd)
    | InSnd(fst: Cmd)
    | InIf(cond: Expr)
    | InThen(cond: Expr, els: Cmd)
    | InElse(cond: Expr, thn: Cmd)

  /** A command together with the way to the root of its callback, father first. */
  datatype Node = Node(cmd: Cmd, path: seq<Frame>)

  predicate FatherIsSequence(path: seq<Frame>) {
    path != [] && (path[0].InFst? || path[0].InSnd?)
  }

  predicate FrameHolds(f: Frame, w: World) {
    match f
    case InFst(_) => true
    case InSnd(_) => true
    case InIf(e) => Holds(e, w)
    case InThen(e, _) => Holds(e, w)
    case InElse(e, _) => !Holds(e, w)
  }

  ghost predicate Passes(path: seq<Frame>, w: World) {
    forall k :: 0 <= k < |path| ==> FrameHolds(path[k], w)
  }

  lemma PassesCons(f: Frame, path: seq<Frame>, w: World)
    ensures Passes([f] + path, w) <==> FrameHolds(f, w) && Passes(path, w)
  {
    var all := [f] + path;
    assert all[0] == f && all[1..] == path;
    if Passes(all, w) {
      forall k | 0 <= k < |path|
        ensures FrameHolds(path[k], w)
      {
        assert all[k + 1] == path[k];
      }
    }
  }

  /** The conditions on the way to the root, innermost first. */
  function Guard(path: seq<Frame>): Expr {
    if path == [] then TRUE
    else
      var f, g := path[|path| - 1], Guard(path[..|path| - 1]);
      match f
      case InFst(_) => g
      case InSnd(_) => g
      case InIf(e) => Bin(And, g, e)
      case InThen(e, _) => Bin(And, g, e)
      case InElse(e, _) => Bin(And, g, Not(e))
  }

  lemma {:induction false} GuardMeaning(path: seq<Frame>, w: World)
    ensures Holds(Guard(path), w) <==> Passes(path, w)
  {
    if path != [] {
      var rest := path[..|path| - 1];
      GuardMeaning(rest, w);
      var f, g := path[|path| - 1], Guard(rest);
      match f {
        case InFst(_) =>
        case InSnd(_) =>
        case InIf(e) => assert Guard(path) == Bin(And, g, e);
        case InThen(e, _) => assert Guard(path) == Bin(And, g, e);
        case InElse(e, _) => assert Guard(path) == Bin(And, g, Not(e)) && (Holds(Not(e), w) <==> !Holds(e, w));
      }
      assert Passes(path, w) <==> FrameHolds(path[|path| - 1], w) && Passes(rest, w) by {
        assert forall k :: 0 <= k < |rest| ==> rest[k] == path[k];
      }
    }
  }

  /** Climbs to the root and conjoins the condition of every if on the way, negated when coming
      from its else-branch. */
  method CollectIfConditions(n: Node) returns (condition: Expr)
    requires n.cmd.Set? || n.cmd.Skip?
    ensures condition == Guard(n.path)
    ensures forall w :: Holds(condition, w) <==> Passes(n.path, w)
  {
    condition := TRUE;
    var k := 0;
    while k < |n.path|
      invariant k <= |n.path|
      invariant condition == Guard(n.path[..k])
    {
      assert n.path[..k + 1][..k] == n.path[..k];
      match n.path[k] {
        case InFst(_) =>
        case InSnd(_) =>
        case InIf(e) => condition := Bin(And, condition, e);
        case InThen(e, _) => condition := Bin(And, condition, e);
        case InElse(e, _) => condition := Bin(And, condition, Not(e));
      }
      k := k + 1;
    }
    assert n.path[..k] == n.path;
    forall w
      ensures Holds(condition, w) <==> Passes(n.path, w)
    {
      GuardMeaning(n.path, w);
    }
  }

  // ----- the flat list

  /** The guarded commands of a callback: a sequence in order, the else-branch before the
      then-branch; a branch that sets nothing disappears. */
  function Flat(c: Cmd, path: seq<Frame>): seq<Node>
    decreases c, 0
  {
    match c
    case Set(_, _) => [Node(c, path)]
    case Skip(_) => [Node(c, path)]
    case Seq(a, b) => Flat(a, [InFst(b)] + path) + Flat(b, [InSnd(a)] + path)
    case If(e, a) => FlatBranch(a, [InIf(e)] + path)
    case IfElse(e, a, b) => FlatBranch(b, [InElse(e, a)] + path) + FlatBranch(a, [InThen(e, b)] + path)
  }

  function FlatBranch(c: Cmd, path: seq<Frame>): seq<Node>
    decreases c, 1
  {
    if c.Skip? then [] else Flat(c, path)
  }

  /** The command one step up. */
  function Father(f: Frame, c: Cmd): Cmd {
    match f
    case InFst(b) => Seq(c, b)
    case InSnd(a) => Seq(a, c)
    case InIf(e) => If(e, c)
    case InThen(e, b) => IfElse(e, c, b)
    case InElse(e, a) => IfElse(e, a, c)
  }

  /** The whole callback a command is part of. */
  function Whole(c: Cmd, path: seq<Frame>): Cmd
    decreases |path|
  {
    if path == [] then c else Whole(Father(path[0], c), path[1..])
  }

  /** The assignments, in the order they are written but else-branches before then-branches. */
  function Assignments(c: Cmd): seq<Cmd> {
    match c
    case Set(_, _) => [c]
    case Skip(_) => []
    case Seq(a, b) => Assignments(a) + Assignments(b)
    case If(_, a) => Assignments(a)
    case IfElse(_, a, b) => Assignments(b) + Assignments(a)
  }

  function AssignmentsOf(ns: seq<Node>): seq<Cmd> {
    if ns == [] then []
    else (if ns[0].cmd.Set? then [ns[0].cmd] else []) + AssignmentsOf(ns[1..])
  }

  lemma {:induction false} AssignmentsAppend(a: seq<Node>, b: seq<Node>)
    ensures AssignmentsOf(a + b) == AssignmentsOf(a) + AssignmentsOf(b)
  {
    if a == [] {
      assert a + b == b;
    } else {
      var rest, first := a[1..], if a[0].cmd.Set? then [a[0].cmd] else [];
      AssignmentsAppend(rest, b);
      assert (a + b)[0] == a[0] && (a + b)[1..] == rest + b;
      assert first + (AssignmentsOf(rest) + AssignmentsOf(b)) == (first + AssignmentsOf(rest)) + AssignmentsOf(b);
    }
  }

  lemma FathersWhole(f: Frame, c: Cmd, path: seq<Frame>)
    ensures Whole(c, [f] + path) == Whole(Father(f, c), path)
  {
    assert ([f] + path)[1..] == path;
  }

  /** Every assignment is listed exactly once, nothing is listed that is not a command of this callback
      at this place, and what sets nothing is only listed as an operand of a sequence or alone. */
  lemma {:induction false} FlatLists(c: Cmd, path: seq<Frame>)
    ensures AssignmentsOf(Flat(c, path)) == Assignments(c)
    ensures forall n | n in Flat(c, path) :: Whole(n.cmd, n.path) == Whole(c, path)
    ensures forall n | n in Flat(c, path) && n.cmd.Skip? :: FatherIsSequence(n.path) || n == Node(c, path)
    decreases c, 0
  {
    match c
    case Set(_, _) => assert [Node(c, path)][1..] == [];
    case Skip(_) => assert [Node(c, path)][1..] == [];
    case Seq(a, b) =>
      FlatLists(a, [InFst(b)] + path);
      FlatLists(b, [InSnd(a)] + path);
      FathersWhole(InFst(b), a, path);
      FathersWhole(InSnd(a), b, path);
      AssignmentsAppend(Flat(a, [InFst(b)] + path), Flat(b, [InSnd(a)] + path));
    case If(e, a) =>
      BranchLists(a, [InIf(e)] + path);
      FathersWhole(InIf(e), a, path);
    case IfElse(e, a, b) =>
      BranchLists(a, [InThen(e, b)] + path);
      BranchLists(b, [InElse(e, a)] + path);
      FathersWhole(InThen(e, b), a, path);
      FathersWhole(InElse(e, a), b, path);
      AssignmentsAppend(FlatBranch(b, [InElse(e, a)] + path), FlatBranch(a, [InThen(e, b)] + path));
  }

  lemma {:induction false} BranchLists(c: Cmd, path: seq<Frame>)
    ensures AssignmentsOf(FlatBranch(c, path)) == Assignments(c)
    ensures forall n | n in FlatBranch(c, path) :: Whole(n.cmd, n.path) == Whole(c, path)
    ensures forall n | n in FlatBranch(c, path) && n.cmd.Skip? :: FatherIsSequence(n.path)
    decreases c, 1
  {
    if !c.Skip? {
      FlatLists(c, path);
    }
  }

  function FlatAll(ns: seq<Node>): seq<Node> {
    if ns == [] then [] else Flat(ns[0].cmd, ns[0].path) + FlatAll(ns[1..])
  }

  predicate IsBranching(n: Node) {
    n.cmd.If? || n.cmd.IfElse?
  }

  lemma {:induction false} FlatAllAppend(a: seq<Node>, b: seq<Node>)
    ensures FlatAll(a + b) == FlatAll(a) + FlatAll(b)
  {
    hide Flat;
    if a == [] {
      assert a + b == b;
    } else {
      var rest, first := a[1..], Flat(a[0].cmd, a[0].path);
      FlatAllAppend(rest, b);
      assert (a + b)[0] == a[0] && (a + b)[1..] == rest + b;
      assert first + (FlatAll(rest) + FlatAll(b)) == (first + FlatAll(rest)) + FlatAll(b);
    }
  }

  lemma FlatAllOne(n: Node)
    ensures FlatAll([n]) == Flat(n.cmd, n.path)
  {
    assert [n][1..] == [];
  }

  // ----- the worklist

  /** The commands of a left-associated sequence. */
  function TopLevel(c: Cmd, path: seq<Frame>): seq<Node> {
    if c.Seq? then TopLevel(c.fst, [InFst(c.snd)] + path) + [Node(c.snd, [InSnd(c.fst)] + path)]
    else [Node(c, path)]
  }

  method ExtractTopLevelCommands(c: Cmd, path: seq<Frame>) returns (vec: seq<Node>)
    ensures vec == TopLevel(c, path)
  {
    vec := [];
    var sub, p := c, path;
    while sub.Seq?
      invariant TopLevel(c, path) == TopLevel(sub, p) + vec
      decreases sub
    {
      vec := [Node(sub.snd, [InSnd(sub.fst)] + p)] + vec;
      sub, p := sub.fst, [InFst(sub.snd)] + p;
    }
    vec := [Node(sub, p)] + vec;
  }

  /** What visiting a command below an if contributes. */
  function Found(c: Cmd, path: seq<Frame>): seq<Node> {
    match c
    case Seq(_, _) => TopLevel(c, path)
    case Set(_, _) => [Node(c, path)]
    case Skip(_) => []
    case If(e, a) => Found(a, [InIf(e)] + path)
    case IfElse(e, a, b) => Found(b, [InElse(e, a)] + path) + Found(a, [InThen(e, b)] + path)
  }

  /** Visits a command and its children, inserting what it finds at position i. */
  method Visit(m: Cmd, path: seq<Frame>, vec: seq<Node>, i: nat) returns (r: seq<Node>)
    requires i <= |vec|
    ensures i <= |r|
    ensures FatherIsSequence(path) ==> m.If? || m.IfElse? ==> r == vec[..i] + Found(m, path) + vec[i..]
    ensures !FatherIsSequence(path) ==> r == vec[..i] + Found(m, path) + vec[i..]
    decreases m
  {
    r := vec;
    if m.Seq? && !FatherIsSequence(path) {
      var vec2 := ExtractTopLevelCommands(m, path);
      r := vec[..i] + vec2 + vec[i..];
      return;
    } else if m.Set? && !FatherIsSequence(path) {
      r := vec[..i] + [Node(m, path)] + vec[i..];
    }
    match m {
      case Set(_, _) =>
      case Skip(_) =>
      case If(e, a) =>
        r := Visit(a, [InIf(e)] + path, r, i);
      case IfElse(e, a, b) =>
        r := Visit(a, [InThen(e, b)] + path, r, i);
        r := Visit(b, [InElse(e, a)] + path, r, i);
      case Seq(a, b) =>
        r := Visit(a, [InFst(b)] + path, r, i);
        r := Visit(b, [InSnd(a)] + path, r, i);
    }
  }

  lemma {:induction false} TopLevelFlat(c: Cmd, path: seq<Frame>)
    ensures FlatAll(TopLevel(c, path)) == Flat(c, path)
  {
    if c.Seq? {
      var n := Node(c.snd, [InSnd(c.fst)] + path);
      TopLevelFlat(c.fst, [InFst(c.snd)] + path);
      FlatAllAppend(TopLevel(c.fst, [InFst(c.snd)] + path), [n]);
      FlatAllOne(n);
    } else {
      FlatAllOne(Node(c, path));
    }
  }

  lemma {:induction false} FoundFlat(c: Cmd, path: seq<Frame>)
    ensures FlatAll(Found(c, path)) == FlatBranch(c, path)
  {
    match c
    case Seq(_, _) => TopLevelFlat(c, path);
    case Set(_, _) => FlatAllOne(Node(c, path));
    case Skip(_) =>
    case If(e, a) => FoundFlat(a, [InIf(e)] + path);
    case IfElse(e, a, b) =>
      FoundFlat(a, [InThen(e, b)] + path);
      FoundFlat(b, [InElse(e, a)] + path);
      FlatAllAppend(Found(b, [InElse(e, a)] + path), Found(a, [InThen(e, b)] + path));
  }

  function Ifs(c: Cmd): nat {
    match c
    case Seq(a, b) => Ifs(a) + Ifs(b)
    case If(_, a) => Ifs(a) + 1
    case IfElse(_, a, b) => Ifs(a) + Ifs(b) + 1
    case Set(_, _) => 0
    case Skip(_) => 0
  }

  function IfsOf(ns: seq<Node>): nat {
    if ns == [] then 0 else Ifs(ns[0].cmd) + IfsOf(ns[1..])
  }

  lemma {:induction false} IfsAppend(a: seq<Node>, b: seq<Node>)
    ensures IfsOf(a + b) == IfsOf(a) + IfsOf(b)
  {
    if a == [] {
      assert a + b == b;
    } else {
      IfsAppend(a[1..], b);
      assert (a + b)[1..] == a[1..] + b;
    }
  }

  lemma {:induction false} TopLevelIfs(c: Cmd, path: seq<Frame>)
    ensures IfsOf(TopLevel(c, path)) == Ifs(c)
    ensures LeftAssociated(c) ==> Pending(TopLevel(c, path))
  {
    if c.Seq? {
      var n := Node(c.snd, [InSnd(c.fst)] + path);
      TopLevelIfs(c.fst, [InFst(c.snd)] + path);
      IfsAppend(TopLevel(c.fst, [InFst(c.snd)] + path), [n]);
      assert [n][1..] == [];
    } else {
      assert [Node(c, path)][1..] == [];
    }
  }

  lemma {:induction false} FoundIfs(c: Cmd, path: seq<Frame>)
    ensures IfsOf(Found(c, path)) <= Ifs(c)
    ensures c.If? || c.IfElse? ==> IfsOf(Found(c, path)) < Ifs(c)
    ensures LeftAssociated(c) ==> Pending(Found(c, path))
  {
    match c
    case Seq(_, _) => TopLevelIfs(c, path);
    case Set(_, _) => assert [Node(c, path)][1..] == [];
    case Skip(_) =>
    case If(e, a) => FoundIfs(a, [InIf(e)] + path);
    case IfElse(e, a, b) =>
      FoundIfs(a, [InThen(e, b)] + path);
      FoundIfs(b, [InElse(e, a)] + path);
      IfsAppend(Found(b, [InElse(e, a)] + path), Found(a, [InThen(e, b)] + path));
  }

  lemma {:induction false} FlatAllAtomic(ns: seq<Node>)
    requires Atomic(ns)
    ensures FlatAll(ns) == ns
  {
    if ns != [] {
      FlatAllAtomic(ns[1..]);
    }
  }

  predicate Atomic(ns: seq<Node>) {
    forall n | n in ns :: n.cmd.Set? || n.cmd.Skip?
  }

  predicate Pending(ns: seq<Node>) {
    forall n | n in ns :: LeftAssociated(n.cmd) && !n.cmd.Seq?
  }

  /** Replacing an if by what is found below it leaves the flat list as it is. */
  lemma ExpandStep(before: seq<Node>, n: Node, after: seq<Node>)
    requires IsBranching(n)
    ensures FlatAll(before + Found(n.cmd, n.path) + after) == FlatAll(before + [n] + after)
    ensures IfsOf(Found(n.cmd, n.path) + after) < IfsOf([n] + after)
  {
    var found := Found(n.cmd, n.path);
    FoundFlat(n.cmd, n.path);
    FlatAllOne(n);
    FlatAllAppend(before + found, after);
    FlatAllAppend(before, found);
    FlatAllAppend(before + [n], after);
    FlatAllAppend(before, [n]);
    FoundIfs(n.cmd, n.path);
    IfsAppend(found, after);
    IfsAppend([n], after);
    assert [n][1..] == [];
  }

  lemma WorkSplit(n: Node, after: seq<Node>)
    requires Pending([n] + after)
    ensures Pending(after) && !n.cmd.Seq?
    ensures IfsOf(after) <= IfsOf([n] + after)
    ensures Pending(Found(n.cmd, n.path) + after)
  {
    var all := [n] + after;
    assert all[0] == n && all[1..] == after;
    assert n in all;
    FoundIfs(n.cmd, n.path);
  }

  /** The worklist: every if in the list is replaced by the commands found below it until only
      commands that are no if remain. */
  method ExtractTopLevelCommandsRecursively(f: Cmd) returns (vec: seq<Node>)
    requires LeftAssociated(f)
    ensures vec == Flat(f, [])
    ensures Atomic(vec)
  {
    hide Flat, FlatBranch, FlatAll, Found, TopLevel, Ifs, IfsOf, LeftAssociated;
    vec := ExtractTopLevelCommands(f, []);
    TopLevelFlat(f, []);
    TopLevelIfs(f, []);
    var i := 0;
    while i < |vec|
      invariant i <= |vec|
      invariant FlatAll(vec) == Flat(f, [])
      invariant Atomic(vec[..i]) && Pending(vec[i..])
      decreases IfsOf(vec[i..]), |vec| - i
    {
      var n := vec[i];
      ghost var before, after := vec[..i], vec[i + 1..];
      assert vec == before + [n] + after && vec[i..] == [n] + after;
      WorkSplit(n, after);
      if IsBranching(n) {
        ExpandStep(before, n, after);
        vec := vec[..i] + vec[i + 1..];
        assert vec[..i] == before && vec[i..] == after;
        vec := Visit(n.cmd, n.path, vec, i);
        assert vec[..i] == before && vec[i..] == Found(n.cmd, n.path) + after;
      } else {
        assert vec[..i + 1] == before + [n] && vec[i + 1..] == after;
        i := i + 1;
      }
    }
    assert vec[..i] == vec;
    FlatAllAtomic(vec);
  }

  // ----- what the flat list does

  /** A command of the list, under its guard as it stands when the command is reached. */
  function ExecNode(n: Node, w: World): World {
    if Holds(Guard(n.path), w) then Exec(n.cmd, w) else w
  }

  function ExecNodes(ns: seq<Node>, w: World): World {
    if ns == [] then w else ExecNodes(ns[1..], ExecNode(ns[0], w))
  }

  lemma {:induction false} ExecNodesAppend(a: seq<Node>, b: seq<Node>, w: World)
    ensures ExecNodes(a + b, w) == ExecNodes(b, ExecNodes(a, w))
  {
    if a == [] {
      assert a + b == b;
    } else {
      ExecNodesAppend(a[1..], b, ExecNode(a[0], w));
      assert (a + b)[1..] == a[1..] + b;
    }
  }

  lemma ExecNodesOne(n: Node, w: World)
    ensures ExecNodes([n], w) == ExecNode(n, w)
  {
    assert [n][1..] == [];
  }

  lemma {:induction false} Stays(e: Expr, truth: bool, c: Cmd, w: World)
    requires Undisturbed(e, truth, c) && Holds(e, w) == truth
    ensures Holds(e, Exec(c, w)) == truth
  {
    match c
    case Set(x, r) => assert Assigns(c, x) && Kept(e, truth, x);
    case Skip(_) =>
    case Seq(a, b) =>
      assert forall x :: Assigns(a, x) ==> Assigns(c, x);
      assert forall x :: Assigns(b, x) ==> Assigns(c, x);
      Stays(e, truth, a, w);
      Stays(e, truth, b, Exec(a, w));
    case If(e', a) =>
      assert forall x :: Assigns(a, x) ==> Assigns(c, x);
      Stays(e, truth, a, w);
    case IfElse(e', a, b) =>
      assert forall x :: Assigns(a, x) ==> Assigns(c, x);
      assert forall x :: Assigns(b, x) ==> Assigns(c, x);
      Stays(e, truth, a, w);
      Stays(e, truth, b, w);
  }

  predicate Conditional(f: Frame) {
    !f.InFst? && !f.InSnd?
  }

  /** What a conditional frame asks of the commands below it. */
  ghost predicate PathUndisturbed(path: seq<Frame>, c: Cmd) {
    forall k :: 0 <= k < |path| && Conditional(path[k]) ==> Undisturbed(path[k].cond, !path[k].InElse?, c)
  }

  /** The same for the assignments that another one may follow. */
  ghost predicate PathSteady(path: seq<Frame>, c: Cmd) {
    forall k :: 0 <= k < |path| && Conditional(path[k]) ==> Steady(path[k].cond, !path[k].InElse?, c)
  }

  lemma PathStays(path: seq<Frame>, c: Cmd, w: World)
    requires PathUndisturbed(path, c) && Passes(path, w)
    ensures Passes(path, Exec(c, w))
  {
    forall k | 0 <= k < |path|
      ensures FrameHolds(path[k], Exec(c, w))
    {
      if Conditional(path[k]) {
        Stays(path[k].cond, !path[k].InElse?, c, w);
      }
    }
  }

  lemma PathCons(f: Frame, path: seq<Frame>, c: Cmd, sub: Cmd)
    requires PathSteady(path, c)
    requires forall x :: Early(sub, x) ==> Early(c, x)
    requires !Conditional(f) || Steady(f.cond, !f.InElse?, sub)
    ensures PathSteady([f] + path, sub)
  {
    var all := [f] + path;
    forall k | 0 <= k < |all| && Conditional(all[k])
      ensures Steady(all[k].cond, !all[k].InElse?, sub)
    {
      if k > 0 {
        assert all[k] == path[k - 1] && Steady(path[k - 1].cond, !path[k - 1].InElse?, c);
      }
    }
  }

  /** Nothing to set, nothing to flip. */
  lemma {:induction false} SkipsRun(c: Cmd, path: seq<Frame>, w: World)
    requires !Sets(c)
    ensures ExecNodes(Flat(c, path), w) == w && Exec(c, w) == w
  {
    match c
    case Skip(_) => ExecNodesOne(Node(c, path), w);
    case Seq(a, b) =>
      SkipsRun(a, [InFst(b)] + path, w);
      SkipsRun(b, [InSnd(a)] + path, w);
      ExecNodesAppend(Flat(a, [InFst(b)] + path), Flat(b, [InSnd(a)] + path), w);
    case If(e, a) => SkipsRun(a, [InIf(e)] + path, w);
    case IfElse(e, a, b) =>
      SkipsRun(a, [InThen(e, b)] + path, w);
      SkipsRun(b, [InElse(e, a)] + path, w);
      ExecNodesAppend(FlatBranch(b, [InElse(e, a)] + path), FlatBranch(a, [InThen(e, b)] + path), w);
    case Set(_, _) =>
  }

  /** Running the flat list of a command does what the command does, provided its way to the root
      passes; otherwise nothing happens. */
  lemma {:induction false} FlatRuns(c: Cmd, path: seq<Frame>, w: World)
    requires KeepsConditions(c) && PathSteady(path, c)
    ensures ExecNodes(Flat(c, path), w) == if Passes(path, w) then Exec(c, w) else w
    decreases c, 1
  {
    GuardMeaning(path, w);
    match c
    case Set(_, _) => ExecNodesOne(Node(c, path), w);
    case Skip(_) => ExecNodesOne(Node(c, path), w);
    case Seq(a, b) => SequenceRuns(a, b, path, w);
    case If(e, a) =>
      PathCons(InIf(e), path, c, a);
      BranchRuns(a, InIf(e), path, w);
    case IfElse(e, a, b) =>
      if Sets(a) {
        UndisturbedIsSteady(e, false, b);
      }
      PathCons(InElse(e, a), path, c, b);
      PathCons(InThen(e, b), path, c, a);
      ExecNodesAppend(FlatBranch(b, [InElse(e, a)] + path), FlatBranch(a, [InThen(e, b)] + path), w);
      BranchRuns(b, InElse(e, a), path, w);
      var mid := if Passes(path, w) && !Holds(e, w) then Exec(b, w) else w;
      BranchRuns(a, InThen(e, b), path, mid);
      if !Sets(a) {
        SkipsRun(a, [InThen(e, b)] + path, mid);
        SkipsRun(a, [InThen(e, b)] + path, w);
      } else if Passes(path, w) && !Holds(e, w) {
        Stays(e, false, b, w);
      }
  }

  lemma {:induction false} SequenceRuns(a: Cmd, b: Cmd, path: seq<Frame>, w: World)
    requires KeepsConditions(a) && KeepsConditions(b) && PathSteady(path, Seq(a, b))
    ensures ExecNodes(Flat(Seq(a, b), path), w) == if Passes(path, w) then Exec(b, Exec(a, w)) else w
    decreases Seq(a, b), 0
  {
    var c := Seq(a, b);
    forall x
      ensures Early(a, x) ==> Early(c, x)
    {
      EarlyIsAssigned(a, x);
    }
    PathCons(InFst(b), path, c, a);
    PathCons(InSnd(a), path, c, b) by {
      forall x | Early(b, x)
        ensures Early(c, x)
      {
        EarlyIsAssigned(b, x);
        AssignsSets(b, x);
      }
    }
    ExecNodesAppend(Flat(a, [InFst(b)] + path), Flat(b, [InSnd(a)] + path), w);
    FlatRuns(a, [InFst(b)] + path, w);
    PassesCons(InFst(b), path, w);
    var mid := if Passes(path, w) then Exec(a, w) else w;
    if !Sets(b) {
      SkipsRun(b, [InSnd(a)] + path, mid);
    } else {
      FlatRuns(b, [InSnd(a)] + path, mid);
      PassesCons(InSnd(a), path, mid);
      if Passes(path, w) {
        assert PathUndisturbed(path, a) by {
          forall k | 0 <= k < |path| && Conditional(path[k])
            ensures Undisturbed(path[k].cond, !path[k].InElse?, a)
          {
            assert Steady(path[k].cond, !path[k].InElse?, c);
            assert forall x :: Assigns(a, x) ==> Early(c, x);
          }
        }
        PathStays(path, a, w);
      }
    }
  }

  lemma {:induction false} BranchRuns(c: Cmd, f: Frame, path: seq<Frame>, w: World)
    requires KeepsConditions(c) && PathSteady([f] + path, c)
    ensures ExecNodes(FlatBranch(c, [f] + path), w)
         == if FrameHolds(f, w) && Passes(path, w) then Exec(c, w) else w
    decreases c, 2
  {
    PassesCons(f, path, w);
    FlatRuns(c, [f] + path, w);
  }

  ghost predicate Meets(c: Cmd) {
    forall w :: ExecNodes(Flat(c, []), w) == Exec(c, w)
  }

  /** Flattening preserves meaning. */
  lemma FlatteningPreserves(c: Cmd)
    requires KeepsConditions(c)
    ensures Meets(c)
  {
    forall w
      ensures ExecNodes(Flat(c, []), w) == Exec(c, w)
    {
      FlatRuns(c, [], w);
    }
  }
}
