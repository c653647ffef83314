/** Conditions and right-hand sides: pure formulas over the data pack. */
module Terms {

  /** The data pack together with the operators the parser knows.  A formula is evaluated against
      both; only the variables can be written by a callback. */
  datatype World = World(vals: map<string, int>, ops: (string, seq<int>) -> int) {

    function Get(x: string): int {
      if x in vals then vals[x] else 0
    }

    function Put(x: string, v: int): World {
      this.(vals := vals[x := v])
    }
  }

  datatype BinOp = And | Or | Eq | Neq | Less | LessEq | Plus | Minus | Times | Max | Min

  /** Formulas without side effects.  App is any operator outside the built-in list; what it
      computes is part of the world. */
  datatype Expr =
    | Val(v: int)
    | Var(name: string)
    | Not(arg: Expr)
    | Bin(op: BinOp, left: Expr, right: Expr)
    | App(fct: string, args: seq<Expr>)

  const TRUE := Val(1)

  function FromBool(b: bool): int {
    if b then 1 else 0
  }

  function Apply(op: BinOp, x: int, y: int): int {
    match op
    case And => FromBool(x != 0 && y != 0)
    case Or => FromBool(x != 0 || y != 0)
    case Eq => FromBool(x == y)
    case Neq => FromBool(x != y)
    case Less => FromBool(x < y)
    case LessEq => FromBool(x <= y)
    case Plus => x + y
    case Minus => x - y
    case Times => x * y
    case Max => if x < y then y else x
    case Min => if x < y then x else y
  }

  function Eval(e: Expr, w: World): int {
    match e
    case Val(v) => v
    case Var(x) => w.Get(x)
    case Not(a) => FromBool(Eval(a, w) == 0)
    case Bin(op, l, r) => Apply(op, Eval(l, w), Eval(r, w))
    case App(f, args) => w.ops(f, seq(|args|, i requires 0 <= i < |args| => Eval(args[i], w)))
  }

  /** A transition is enabled when its condition evaluates to anything but zero. */
  predicate Holds(e: Expr, w: World) {
    Eval(e, w) != 0
  }

  predicate IsConst(e: Expr) {
    match e
    case Val(_) => true
    case Var(_) => false
    case Not(a) => IsConst(a)
    case Bin(_, l, r) => IsConst(l) && IsConst(r)
    case App(_, _) => false
  }

  const NOWHERE := World(map[], (f: string, args: seq<int>) => 0)

  predicate AlwaysTrue(e: Expr) {
    IsConst(e) && Eval(e, NOWHERE) != 0
  }

  predicate AlwaysFalse(e: Expr) {
    IsConst(e) && Eval(e, NOWHERE) == 0
  }

  lemma {:induction false} ConstIsConstant(e: Expr, w: World, w': World)
    requires IsConst(e)
    ensures Eval(e, w) == Eval(e, w')
  {
    match e
    case Val(_) =>
    case Not(a) => ConstIsConstant(a, w, w');
    case Bin(_, l, r) => ConstIsConstant(l, w, w'); ConstIsConstant(r, w, w');
  }

  /** The constant checks are sound in every world. */
  lemma AlwaysSound(e: Expr, w: World)
    ensures AlwaysTrue(e) ==> Holds(e, w)
    ensures AlwaysFalse(e) ==> !Holds(e, w)
  {
    if IsConst(e) {
      ConstIsConstant(e, w, NOWHERE);
    }
  }

  /** Conjunction the way guards are composed: an operand that is constantly true is dropped. */
  function Conjoin(a: Expr, b: Expr): Expr {
    if AlwaysTrue(a) then b else if AlwaysTrue(b) then a else Bin(And, a, b)
  }

  lemma ConjoinHolds(a: Expr, b: Expr, w: World)
    ensures Holds(Conjoin(a, b), w) <==> Holds(a, w) && Holds(b, w)
  {
    AlwaysSound(a, w);
    AlwaysSound(b, w);
  }

  predicate Mentions(e: Expr, x: string) {
    match e
    case Val(_) => false
    case Var(y) => x == y
    case Not(a) => Mentions(a, x)
    case Bin(_, l, r) => Mentions(l, x) || Mentions(r, x)
    case App(_, args) => exists i | 0 <= i < |args| :: Mentions(args[i], x)
  }

  /** Same operators, and same variables except possibly x. */
  ghost predicate AgreeExcept(w: World, w': World, x: string) {
    && w.ops == w'.ops
    && forall y {:trigger w.Get(y)} {:trigger w'.Get(y)} :: y != x ==> w.Get(y) == w'.Get(y)
  }

  lemma {:induction false} EvalIgnores(e: Expr, w: World, w': World, x: string)
    requires AgreeExcept(w, w', x) && !Mentions(e, x)
    ensures Eval(e, w) == Eval(e, w')
  {
    match e
    case Val(_) =>
    case Var(_) =>
    case Not(a) => EvalIgnores(a, w, w', x);
    case Bin(_, l, r) => EvalIgnores(l, w, w', x); EvalIgnores(r, w, w', x);
    case App(_, args) =>
      forall i | 0 <= i < |args|
        ensures Eval(args[i], w) == Eval(args[i], w')
      {
        EvalIgnores(args[i], w, w', x);
      }
      assert seq(|args|, i requires 0 <= i < |args| => Eval(args[i], w))
          == seq(|args|, i requires 0 <= i < |args| => Eval(args[i], w'));
  }

  /** Some operator outside the built-in list occurs. */
  predicate UsesOperators(e: Expr) {
    match e
    case Val(_) => false
    case Var(_) => false
    case Not(a) => UsesOperators(a)
    case Bin(_, l, r) => UsesOperators(l) || UsesOperators(r)
    case App(_, _) => true
  }

  /** Built from numbers and built-in operators alone. */
  ghost predicate Ground(e: Expr) {
    !UsesOperators(e) && forall x :: !Mentions(e, x)
  }

  lemma {:induction false} GroundIsConst(e: Expr)
    requires Ground(e)
    ensures IsConst(e)
  {
    match e
    case Val(_) =>
    case Var(x) => assert Mentions(e, x);
    case Not(a) =>
      assert forall x :: Mentions(a, x) ==> Mentions(e, x);
      GroundIsConst(a);
    case Bin(_, l, r) =>
      assert forall x :: Mentions(l, x) || Mentions(r, x) ==> Mentions(e, x);
      GroundIsConst(l);
      GroundIsConst(r);
  }

  /** The constant checks miss nothing: a formula without variables and without unknown operators is
      found to be true or false. */
  lemma AlwaysComplete(e: Expr, w: World)
    requires Ground(e)
    ensures AlwaysTrue(e) <==> Holds(e, w)
    ensures AlwaysFalse(e) <==> !Holds(e, w)
  {
    GroundIsConst(e);
    ConstIsConstant(e, w, NOWHERE);
  }

  lemma PutAgrees(w: World, w': World, y: string, v: int, x: string)
    requires AgreeExcept(w, w', x)
    ensures AgreeExcept(w.Put(y, v), w'.Put(y, v), x)
  {
    forall z | z != x
      ensures w.Put(y, v).Get(z) == w'.Put(y, v).Get(z)
    {
      assert w.Get(z) == w'.Get(z);
    }
  }
}
