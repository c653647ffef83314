/** Callbacks: the structured programs attached to states. */
module Programs {
  import opened Terms

  /** A callback.  Skip is any formula that sets nothing. */
  datatype Cmd =
    | Set(name: string, rhs: Expr)
    | Seq(fst: Cmd, snd: Cmd)
    | If(cond: Expr, thn: Cmd)
    | IfElse(cond: Expr, thn: Cmd, els: Cmd)
    | Skip(formula: Expr)

  function Exec(c: Cmd, w: World): World {
    match c
    case Set(x, e) => w.Put(x, Eval(e, w))
    case Seq(a, b) => Exec(b, Exec(a, w))
    case If(e, a) => if Holds(e, w) then Exec(a, w) else w
    case IfElse(e, a, b) => if Holds(e, w) then Exec(a, w) else Exec(b, w)
    case Skip(_) => w
  }

  function ExecAll(cs: seq<Cmd>, w: World): World {
    if cs == [] then w else ExecAll(cs[1..], Exec(cs[0], w))
  }

  lemma ExecOne(c: Cmd, w: World)
    ensures ExecAll([c], w) == Exec(c, w)
  {
    assert [c][1..] == [];
  }

  function Size(c: Cmd): (n: nat)
    ensures n >= 1
  {
    match c
    case Set(_, _) => 1
    case Skip(_) => 1
    case Seq(a, b) => Size(a) + Size(b) + 1
    case If(_, a) => Size(a) + 1
    case IfElse(_, a, b) => Size(a) + Size(b)
  }

  predicate Uses(c: Cmd, x: string) {
    match c
    case Set(y, e) => y == x || Mentions(e, x)
    case Seq(a, b) => Uses(a, x) || Uses(b, x)
    case If(e, a) => Mentions(e, x) || Uses(a, x)
    case IfElse(e, a, b) => Mentions(e, x) || Uses(a, x) || Uses(b, x)
    case Skip(e) => Mentions(e, x)
  }

  /** A callback that does not use x neither sees nor touches it. */
  lemma {:induction false} ExecIgnores(c: Cmd, w: World, w': World, x: string)
    requires AgreeExcept(w, w', x) && !Uses(c, x)
    ensures AgreeExcept(Exec(c, w), Exec(c, w'), x)
    ensures Exec(c, w).Get(x) == w.Get(x)
  {
    match c
    case Set(y, e) =>
      EvalIgnores(e, w, w', x);
      PutAgrees(w, w', y, Eval(e, w), x);
    case Skip(_) =>
    case Seq(a, b) =>
      ExecIgnores(a, w, w', x);
      ExecIgnores(b, Exec(a, w), Exec(a, w'), x);
    case If(e, a) =>
      EvalIgnores(e, w, w', x);
      ExecIgnores(a, w, w', x);
    case IfElse(e, a, b) =>
      EvalIgnores(e, w, w', x);
      ExecIgnores(a, w, w', x);
      ExecIgnores(b, w, w', x);
  }

  lemma {:induction false} ExecAllIgnores(cs: seq<Cmd>, w: World, w': World, x: string)
    requires AgreeExcept(w, w', x) && forall c | c in cs :: !Uses(c, x)
    ensures AgreeExcept(ExecAll(cs, w), ExecAll(cs, w'), x)
  {
    if cs != [] {
      ExecIgnores(cs[0], w, w', x);
      ExecAllIgnores(cs[1..], Exec(cs[0], w), Exec(cs[0], w'), x);
    }
  }
}
