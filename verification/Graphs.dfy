/** Machines as values, and their steps. */
module Graphs {
  // The value of a machine: its states, its transitions in insertion order, the callbacks of its
  // states, and the clusters of implicit callback states.

  import opened Options
  import opened Terms
  import opened Programs

  /** Where every machine starts. */
  const INVALID_STATE := -1

  datatype Edge = Edge(src: int, dst: int, cond: Expr)

  datatype Graph = Graph(
    states: set<int>,
    edges: seq<Edge>,
    acts: map<int, seq<Cmd>>,
    clusters: map<string, set<int>>)
  {
    function Acts(s: int): seq<Cmd> {
      if s in acts then acts[s] else []
    }

    /** isImplicitCBState */
    predicate InCluster(s: int) {
      exists k | k in clusters :: s in clusters[k]
    }
  }

  /** Some member of a set, in whatever order the container yields them. */
  method Pick<T>(s: set<T>) returns (x: T)
    requires s != {}
    ensures x in s
  {
    x :| x in s;
  }

  // ----- transition lists

  function Out(es: seq<Edge>, s: int): seq<Edge> {
    if es == [] then [] else
      var e := es[|es| - 1];
      if e.src == s then Out(es[..|es| - 1], s) + [e] else Out(es[..|es| - 1], s)
  }

  function In(es: seq<Edge>, s: int): seq<Edge> {
    if es == [] then [] else
      var e := es[|es| - 1];
      if e.dst == s then In(es[..|es| - 1], s) + [e] else In(es[..|es| - 1], s)
  }

  lemma {:induction false} OutAppend(es: seq<Edge>, fs: seq<Edge>, s: int)
    ensures Out(es + fs, s) == Out(es, s) + Out(fs, s)
  {
    if fs == [] {
      assert es + fs == es;
    } else {
      OutAppend(es, fs[..|fs| - 1], s);
      assert (es + fs)[..|es + fs| - 1] == es + fs[..|fs| - 1];
    }
  }

  lemma {:induction false} OutMembers(es: seq<Edge>, s: int)
    ensures forall e :: e in Out(es, s) <==> e in es && e.src == s
  {
    if es != [] {
      OutMembers(es[..|es| - 1], s);
      assert es == es[..|es| - 1] + [es[|es| - 1]];
    }
  }

  lemma {:induction false} InMembers(es: seq<Edge>, s: int)
    ensures forall e :: e in In(es, s) <==> e in es && e.dst == s
  {
    if es != [] {
      InMembers(es[..|es| - 1], s);
      assert es == es[..|es| - 1] + [es[|es| - 1]];
    }
  }

  /** Insertion keeps an existing structurally equal transition. */
  function Insert(es: seq<Edge>, e: Edge): seq<Edge> {
    if e in es then es else es + [e]
  }

  function InsertAll(es: seq<Edge>, fs: seq<Edge>): seq<Edge> {
    if fs == [] then es else Insert(InsertAll(es, fs[..|fs| - 1]), fs[|fs| - 1])
  }

  lemma InsertAllLast(es: seq<Edge>, fs: seq<Edge>, e: Edge)
    ensures InsertAll(es, fs + [e]) == Insert(InsertAll(es, fs), e)
  {
    assert (fs + [e])[..|fs + [e]| - 1] == fs;
  }

  lemma {:induction false} InsertAllMembers(es: seq<Edge>, fs: seq<Edge>)
    ensures forall e :: e in InsertAll(es, fs) <==> e in es || e in fs
  {
    if fs != [] {
      InsertAllMembers(es, fs[..|fs| - 1]);
      assert fs == fs[..|fs| - 1] + [fs[|fs| - 1]];
    }
  }

  lemma {:induction false} InsertAllSameOut(es: seq<Edge>, fs: seq<Edge>, s: int)
    requires forall f | f in fs :: f.src != s
    ensures Out(InsertAll(es, fs), s) == Out(es, s)
  {
    if fs != [] {
      InsertAllSameOut(es, fs[..|fs| - 1], s);
    }
  }

  lemma {:induction false} InsertAllSameIn(es: seq<Edge>, fs: seq<Edge>, s: int)
    requires forall f | f in fs :: f.dst != s
    ensures In(InsertAll(es, fs), s) == In(es, s)
  {
    if fs != [] {
      InsertAllSameIn(es, fs[..|fs| - 1], s);
    }
  }

  // ----- resolving a step

  /** The destination of the first transition of the list that is enabled and does not lead into
      skip. */
  function First(es: seq<Edge>, w: World, skip: set<int>): Option<int> {
    if es == [] then None else
      var e := es[|es| - 1];
      var r := First(es[..|es| - 1], w, skip);
      if r.Some? then r
      else if Holds(e.cond, w) && e.dst !in skip then Some(e.dst)
      else None
  }

  lemma FirstSnoc(es: seq<Edge>, e: Edge, w: World, skip: set<int>)
    ensures First(es + [e], w, skip)
         == OrElse(First(es, w, skip), if Holds(e.cond, w) && e.dst !in skip then Some(e.dst) else None)
  {
    assert (es + [e])[..|es|] == es;
  }

  function OrElse(a: Option<int>, b: Option<int>): Option<int> {
    if a.Some? then a else b
  }

  /** Some enabled transition of the list leads to x. */
  ghost predicate Hit(es: seq<Edge>, w: World, x: int) {
    exists e :: e in es && e.dst == x && Holds(e.cond, w)
  }

  lemma {:induction false} FirstAppend(es: seq<Edge>, fs: seq<Edge>, w: World, skip: set<int>)
    ensures First(es + fs, w, skip) == OrElse(First(es, w, skip), First(fs, w, skip))
  {
    if fs == [] {
      assert es + fs == es;
    } else {
      FirstAppend(es, fs[..|fs| - 1], w, skip);
      assert (es + fs)[..|es + fs| - 1] == es + fs[..|fs| - 1];
    }
  }

  lemma HitAppend(es: seq<Edge>, fs: seq<Edge>, w: World, x: int)
    ensures Hit(es + fs, w, x) <==> Hit(es, w, x) || Hit(fs, w, x)
  {
    forall e
      ensures e in es + fs <==> e in es || e in fs
    {}
  }

  lemma {:induction false} FirstIsHit(es: seq<Edge>, w: World, skip: set<int>)
    ensures First(es, w, skip).Some? ==>
              First(es, w, skip).value !in skip && Hit(es, w, First(es, w, skip).value)
    ensures First(es, w, skip).None? ==> forall x :: Hit(es, w, x) ==> x in skip
  {
    if es != [] {
      var e, rest := es[|es| - 1], es[..|es| - 1];
      FirstIsHit(rest, w, skip);
      assert es == rest + [e] && e in [e];
      forall x
        ensures Hit(es, w, x) <==> Hit(rest, w, x) || (e.dst == x && Holds(e.cond, w))
      {
        HitAppend(rest, [e], w, x);
      }
    }
  }

  /** Suppressing a duplicate never changes which transition is taken. */
  lemma {:induction false} InsertAllFirst(es: seq<Edge>, fs: seq<Edge>, s: int, w: World, skip: set<int>)
    ensures First(Out(InsertAll(es, fs), s), w, skip)
         == OrElse(First(Out(es, s), w, skip), First(Out(fs, s), w, skip))
  {
    if fs != [] {
      var e, rest := fs[|fs| - 1], fs[..|fs| - 1];
      var mid := InsertAll(es, rest);
      InsertAllFirst(es, rest, s, w, skip);
      FirstSnoc(Out(mid, s), e, w, skip);
      FirstSnoc(Out(rest, s), e, w, skip);
      if e in mid {
        if e.src == s && Holds(e.cond, w) && e.dst !in skip {
          OutMembers(mid, s);
          assert Hit(Out(mid, s), w, e.dst);
          FirstIsHit(Out(mid, s), w, skip);
        }
      }
    }
  }

  lemma HitUnion(es: seq<Edge>, fs: seq<Edge>, s: int, w: World, x: int)
    ensures Hit(Out(InsertAll(es, fs), s), w, x) <==> Hit(Out(es, s), w, x) || Hit(Out(fs, s), w, x)
  {
    OutMembers(es, s);
    OutMembers(fs, s);
    OutMembers(InsertAll(es, fs), s);
    InsertAllMembers(es, fs);
    if Hit(Out(es, s), w, x) {
      var e :| e in Out(es, s) && e.dst == x && Holds(e.cond, w);
      assert e in Out(InsertAll(es, fs), s);
    }
    if Hit(Out(fs, s), w, x) {
      var e :| e in Out(fs, s) && e.dst == x && Holds(e.cond, w);
      assert e in Out(InsertAll(es, fs), s);
    }
  }

  /** The resolver: the first enabled transition in insertion order, else remain. */
  function Next(g: Graph, s: int, w: World): int {
    var r := First(Out(g.edges, s), w, {});
    if r.Some? then r.value else s
  }

  /** One step in the default order: execute the callbacks of the state, then take a transition. */
  function Micro(g: Graph, s: int, w: World): (int, World) {
    var w' := ExecAll(g.Acts(s), w);
    (Next(g, s, w'), w')
  }

  /** A step as seen from outside: keep stepping until the callback clusters are left. */
  function Macro(g: Graph, s: int, w: World, fuel: nat): Option<(int, World)>
    decreases fuel
  {
    var (s', w') := Micro(g, s, w);
    if !g.InCluster(s') then Some((s', w'))
    else if fuel == 0 then None
    else Macro(g, s', w', fuel - 1)
  }

  lemma {:induction false} MacroFuel(g: Graph, s: int, w: World, f: nat, f': nat)
    requires Macro(g, s, w, f).Some? && f <= f'
    ensures Macro(g, s, w, f') == Macro(g, s, w, f)
    decreases f
  {
    var (s', w') := Micro(g, s, w);
    if g.InCluster(s') {
      MacroFuel(g, s', w', f - 1, f' - 1);
    }
  }

  /** A step as seen from outside; None if it never leaves the callback clusters. */
  ghost function Step(g: Graph, s: int, w: World): Option<(int, World)> {
    if EndsAt(g, s, w) then
      var fuel: nat :| Macro(g, s, w, fuel).Some?;
      Macro(g, s, w, fuel)
    else None
  }

  ghost predicate EndsAt(g: Graph, s: int, w: World) {
    exists fuel: nat :: Macro(g, s, w, fuel).Some?
  }

  lemma StepIs(g: Graph, s: int, w: World, f: nat)
    requires Macro(g, s, w, f).Some?
    ensures Step(g, s, w) == Macro(g, s, w, f)
  {
    assert EndsAt(g, s, w);
    var fuel: nat :| Macro(g, s, w, fuel).Some? && Macro(g, s, w, fuel) == Step(g, s, w);
    if fuel <= f {
      MacroFuel(g, s, w, fuel, f);
    } else {
      MacroFuel(g, s, w, f, fuel);
    }
  }

  /** n steps as seen from outside. */
  ghost function Steps(g: Graph, s: int, w: World, n: nat): Option<(int, World)>
    decreases n
  {
    if n == 0 then Some((s, w))
    else
      var r := Step(g, s, w);
      if r.None? then None else Steps(g, r.value.0, r.value.1, n - 1)
  }

  function MicroSteps(g: Graph, s: int, w: World, n: nat): (int, World)
    decreases n
  {
    if n == 0 then (s, w)
    else
      var (s', w') := Micro(g, s, w);
      MicroSteps(g, s', w', n - 1)
  }

  lemma {:induction false} StepsAppend(g: Graph, s: int, w: World, n: nat, k: nat)
    requires Steps(g, s, w, n).Some?
    ensures Steps(g, s, w, n + k) == Steps(g, Steps(g, s, w, n).value.0, Steps(g, s, w, n).value.1, k)
    decreases n
  {
    if n > 0 {
      var r := Step(g, s, w).value;
      StepsAppend(g, r.0, r.1, n - 1, k);
    }
  }
}
