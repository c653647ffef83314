/** Reachability, and pruning a machine to what can happen. */
module Pruning {
  import opened Options
  import opened Terms
  import opened Programs
  import opened Graphs
  import opened Bottlenecks
  import opened Machines
  import opened Cleanup

  /** A path of n transitions, whatever their conditions. */
  ghost predicate Path(es: seq<Edge>, a: int, b: int, n: nat)
    decreases n
  {
    if n == 0 then a == b else exists e | e in es :: e.dst == b && Path(es, a, e.src, n - 1)
  }

  ghost predicate LeadsTo(es: seq<Edge>, a: int, b: int) {
    exists n: nat :: Path(es, a, b, n)
  }

  ghost predicate Reachable(es: seq<Edge>, start: set<int>, b: int) {
    exists a | a in start :: LeadsTo(es, a, b)
  }

  lemma ReachableStart(es: seq<Edge>, start: set<int>, a: int)
    requires a in start
    ensures Reachable(es, start, a)
  {
    assert Path(es, a, a, 0);
    assert LeadsTo(es, a, a);
  }

  lemma ReachableStep(es: seq<Edge>, start: set<int>, e: Edge)
    requires e in es && Reachable(es, start, e.src)
    ensures Reachable(es, start, e.dst)
  {
    var a :| a in start && LeadsTo(es, a, e.src);
    var n: nat :| Path(es, a, e.src, n);
    assert Path(es, a, e.dst, n + 1);
    assert LeadsTo(es, a, e.dst);
  }

  /** A set of states that no transition leaves. */
  ghost predicate ClosedUnder(es: seq<Edge>, states: set<int>) {
    forall e | e in es :: e.src in states ==> e.dst in states
  }

  lemma {:induction false} PathStaysIn(es: seq<Edge>, states: set<int>, a: int, b: int, n: nat)
    requires ClosedUnder(es, states) && a in states && Path(es, a, b, n)
    ensures b in states
    decreases n
  {
    if n > 0 {
      var e :| e in es && e.dst == b && Path(es, a, e.src, n - 1);
      PathStaysIn(es, states, a, e.src, n - 1);
    }
  }

  lemma ReachableStaysIn(es: seq<Edge>, states: set<int>)
    requires ClosedUnder(es, states)
    ensures forall b :: Reachable(es, states, b) ==> b in states
  {
    forall b | Reachable(es, states, b)
      ensures b in states
    {
      var a :| a in states && LeadsTo(es, a, b);
      var n: nat :| Path(es, a, b, n);
      PathStaysIn(es, states, a, b, n);
    }
  }

  /** Where the states of a set lead in one transition. */
  function EndsFrom(es: seq<Edge>, states: set<int>): set<int> {
    set e | e in es && e.src in states :: e.dst
  }

  function EndsOf(ts: seq<FsmTransition>): set<int> {
    if ts == [] then {} else EndsOf(ts[..|ts| - 1]) + {ts[|ts| - 1].destination}
  }

  method Successors(m: Fsm, states: set<int>) returns (next: set<int>)
    requires m.Valid()
    ensures next == EndsFrom(m.model.edges, states)
  {
    next := {};
    var todo := states;
    while todo != {}
      invariant todo <= states
      invariant next == EndsFrom(m.model.edges, states - todo)
      decreases todo
    {
      hide Fsm.Valid, Listed, EndsFrom, EndsOf;
      var s := Pick(todo);
      var ts := Listed(m.outgoing, s);
      ListsAre(m, s);
      EndsOfListed(m.model.edges, ts, s);
      var found := Destinations(ts);
      EndsMore(m.model.edges, states - todo, s);
      next := next + found;
      todo := todo - {s};
      assert states - todo == states - (todo + {s}) + {s};
    }
    assert states - todo == states;
  }

  method Destinations(ts: seq<FsmTransition>) returns (found: set<int>)
    ensures found == EndsOf(ts)
  {
    found := {};
    for i := 0 to |ts|
      invariant found == EndsOf(ts[..i])
    {
      assert ts[..i + 1][..i] == ts[..i];
      found := found + {ts[i].destination};
    }
    assert ts[..|ts|] == ts;
  }

  lemma {:induction false} EndsOfIs(ts: seq<FsmTransition>, b: int)
    ensures b in EndsOf(ts) <==> exists i | 0 <= i < |ts| :: ts[i].destination == b
  {
    if ts != [] {
      EndsOfIs(ts[..|ts| - 1], b);
    }
  }

  lemma EndsFromIs(es: seq<Edge>, states: set<int>, b: int)
    ensures b in EndsFrom(es, states) <==> exists e | e in es :: e.src in states && e.dst == b
  {}

  lemma EndsMore(es: seq<Edge>, states: set<int>, s: int)
    ensures EndsFrom(es, states + {s}) == EndsFrom(es, states) + EndsFrom(es, {s})
  {
    hide EndsFrom;
    var all, some, more := EndsFrom(es, states + {s}), EndsFrom(es, states), EndsFrom(es, {s});
    forall b
      ensures b in all <==> b in some + more
    {
      EndsFromIs(es, states + {s}, b);
      EndsFromIs(es, states, b);
      EndsFromIs(es, {s}, b);
    }
    assert all == some + more;
  }

  lemma EndsOfListed(es: seq<Edge>, ts: seq<FsmTransition>, s: int)
    requires EdgesOf(ts) == Out(es, s)
    ensures EndsOf(ts) == EndsFrom(es, {s})
  {
    hide EndsOf, EndsFrom;
    OutMembers(es, s);
    var out, a, b := EdgesOf(ts), EndsOf(ts), EndsFrom(es, {s});
    forall x
      ensures x in a <==> x in b
    {
      EndsOfIs(ts, x);
      EndsFromIs(es, {s}, x);
      if i :| 0 <= i < |ts| && ts[i].destination == x {
        assert out[i] in out && out[i].dst == x;
      }
      if e :| e in es && e.src in {s} && e.dst == x {
        assert e in out;
        var i :| 0 <= i < |out| && out[i] == e;
        assert ts[i].destination == x;
      }
    }
    assert a == b;
  }

  /** Adds successors until the set no longer grows: exactly the states that some path reaches. */
  method ReachableStatesFrom(m: Fsm, states: set<int>, ghost all: set<int>) returns (r: set<int>)
    requires m.Valid() && states <= all && m.model.states <= all
    ensures forall b :: b in r <==> Reachable(m.model.edges, states, b)
    ensures ClosedUnder(m.model.edges, r)
    decreases all - states
  {
    var newStates := Successors(m, states);
    ValidIsConsistent(m);
    hide Fsm.Valid, Reachable, ClosedUnder, Consistent, EndsFrom;
    r := states + newStates;
    SuccessorsKnown(m.model, states);
    if r == states {
      NothingNew(m.model.edges, states);
    } else {
      GrownReaches(m.model.edges, states);
      StrictlyLess(states, newStates, all);
      r := ReachableStatesFrom(m, r, all);
    }
  }

  lemma SuccessorsKnown(g: Graph, states: set<int>)
    requires Consistent(g)
    ensures EndsFrom(g.edges, states) <= g.states
  {
    forall b | b in EndsFrom(g.edges, states)
      ensures b in g.states
    {
      var e :| e in g.edges && e.src in states && e.dst == b;
    }
  }

  lemma StrictlyLess(states: set<int>, next: set<int>, all: set<int>)
    requires next <= all && states + next != states
    ensures all - (states + next) < all - states
  {
    assert all - (states + next) <= all - states;
    assert (forall b | b in next :: b in states) ==> states + next == states;
    var b :| b in next && b !in states;
    assert b in all - states;
  }

  /** When a set holds all its successors it is what can be reached from it. */
  lemma NothingNew(es: seq<Edge>, states: set<int>)
    requires states + EndsFrom(es, states) == states
    ensures ClosedUnder(es, states) && forall b :: b in states <==> Reachable(es, states, b)
  {
    forall e | e in es && e.src in states
      ensures e.dst in states
    {
      assert e.dst in EndsFrom(es, states);
      assert e.dst in states + EndsFrom(es, states);
    }
    ReachableStaysIn(es, states);
    forall a | a in states
      ensures Reachable(es, states, a)
    {
      ReachableStart(es, states, a);
    }
  }

  lemma GrownReaches(es: seq<Edge>, states: set<int>)
    ensures forall b :: Reachable(es, states + EndsFrom(es, states), b) <==> Reachable(es, states, b)
  {
    var next := EndsFrom(es, states);
    forall b
      ensures Reachable(es, states + next, b) <==> Reachable(es, states, b)
    {
      if Reachable(es, states, b) {
        var a :| a in states && LeadsTo(es, a, b);
        assert a in states + next;
      }
      if Reachable(es, states + next, b) {
        var a :| a in states + next && LeadsTo(es, a, b);
        if a !in states {
          var e :| e in es && e.src in states && e.dst == a;
          var n: nat :| Path(es, a, b, n);
          PathPrepend(es, e, b, n);
          assert LeadsTo(es, e.src, b);
        }
      }
    }
  }

  lemma {:induction false} PathPrepend(es: seq<Edge>, e: Edge, b: int, n: nat)
    requires e in es && Path(es, e.dst, b, n)
    ensures Path(es, e.src, b, n + 1)
    decreases n
  {
    if n == 0 {
      assert Path(es, e.src, e.src, 0);
    } else {
      var f :| f in es && f.dst == b && Path(es, e.dst, f.src, n - 1);
      PathPrepend(es, e, f.src, n - 1);
    }
  }

  // ----- removing what cannot happen

  function Satisfiable(es: seq<Edge>): seq<Edge> {
    if es == [] then []
    else
      var rest := Satisfiable(es[..|es| - 1]);
      if AlwaysFalse(es[|es| - 1].cond) then rest else rest + [es[|es| - 1]]
  }

  /** Dropping transitions that are never enabled does not change which one is taken. */
  lemma {:induction false} SatisfiableFirst(es: seq<Edge>, s: int, w: World, skip: set<int>)
    ensures First(Out(Satisfiable(es), s), w, skip) == First(Out(es, s), w, skip)
  {
    if es != [] {
      var e, rest := es[|es| - 1], es[..|es| - 1];
      SatisfiableFirst(rest, s, w, skip);
      AlwaysSound(e.cond, w);
      OutSnoc(Satisfiable(rest), e);
      FirstSnoc(Out(rest, s), e, w, skip);
      FirstSnoc(Out(Satisfiable(rest), s), e, w, skip);
    }
  }

  lemma {:induction false} SatisfiableMembers(es: seq<Edge>)
    ensures forall e :: e in Satisfiable(es) <==> e in es && !AlwaysFalse(e.cond)
  {
    if es != [] {
      SatisfiableMembers(es[..|es| - 1]);
      assert es == es[..|es| - 1] + [es[|es| - 1]];
    }
  }

  lemma {:induction false} RemovingUnsatisfiable(ts: seq<FsmTransition>, gone: set<FsmTransition>)
    requires forall t | t in ts :: t in gone <==> AlwaysFalse(t.condition)
    ensures EdgesOf(Removing(ts, gone)) == Satisfiable(EdgesOf(ts))
  {
    if ts != [] {
      RemovingUnsatisfiable(ts[..|ts| - 1], gone);
    }
  }

  /** What is left when everything that cannot happen is gone. */
  ghost predicate Pruned(g: Graph, g': Graph) {
    && (forall s :: s in g'.states <==> s in g.states && Reachable(Satisfiable(g.edges), {INVALID_STATE}, s))
    && g'.edges == Without(Satisfiable(g.edges), g.states - g'.states)
    && (forall s | s !in g.states - g'.states :: g'.Acts(s) == g.Acts(s) && (g'.InCluster(s) <==> g.InCluster(s)))
  }

  method UnsatisfiableTransitions(m: Fsm) returns (toRemove: seq<FsmTransition>)
    requires m.Valid()
    ensures forall t | t in m.plain :: t in toRemove <==> AlwaysFalse(t.condition)
  {
    toRemove := [];
    for i := 0 to |m.plain|
      invariant forall t :: t in toRemove <==> t in m.plain[..i] && AlwaysFalse(t.condition)
    {
      assert m.plain[..i + 1] == m.plain[..i] + [m.plain[i]];
      if AlwaysFalse(m.plain[i].condition) {
        toRemove := toRemove + [m.plain[i]];
      }
    }
    assert m.plain[..|m.plain|] == m.plain;
  }

  method RemoveUnsatisfiableTransitions(m: Fsm)
    requires m.Valid()
    modifies m`plain, m`outgoing, m`incoming, m`model
    ensures m.Valid()
    ensures m.model == old(m.model).(edges := Satisfiable(old(m.model).edges))
  {
    var toRemove := UnsatisfiableTransitions(m);
    RemovingUnsatisfiable(m.plain, AsSet(toRemove));
    ListsAre(m, 0);
    hide Fsm.Valid, Removing, Satisfiable;
    ghost var left := Removing(m.plain, AsSet(toRemove));
    label before:
    m.RemoveTransitions(toRemove);
    assert old@before(EdgesOf(left)) == EdgesOf(left);
  }

  /** The states that are not in the set, in whatever order they come. */
  method Others(states: set<int>, reachable: set<int>) returns (others: seq<int>)
    ensures forall s :: s in others <==> s in states && s !in reachable
  {
    others := [];
    var todo := states;
    while todo != {}
      invariant todo <= states
      invariant forall s :: s in others <==> s in states && s !in todo && s !in reachable
      decreases todo
    {
      var s := Pick(todo);
      if s !in reachable {
        others := others + [s];
      }
      todo := todo - {s};
    }
  }

  lemma PruneDone(g: Graph, reachable: set<int>, unreachable: seq<int>)
    requires forall s :: s in reachable <==> Reachable(Satisfiable(g.edges), {INVALID_STATE}, s)
    requires forall s :: s in unreachable <==> s in g.states && s !in reachable
    ensures Pruned(g, DropStates(g.(edges := Satisfiable(g.edges)), unreachable))
  {
    hide Reachable, Satisfiable, Without;
    var mid := g.(edges := Satisfiable(g.edges));
    var g' := DropStates(mid, unreachable);
    DropStatesIs(mid, unreachable);
    var gone := Ids(unreachable);
    assert forall s :: s in gone <==> s in g.states && s !in g'.states;
    assert gone == g.states - g'.states;
    assert forall s :: mid.InCluster(s) <==> g.InCluster(s);
    assert forall s :: mid.Acts(s) == g.Acts(s);
  }

  /** If the condition is built from numbers alone, it is true. */
  ghost predicate CanBeTrue(e: Expr) {
    Ground(e) ==> forall w :: Holds(e, w)
  }

  /** No transition is left whose condition is plainly false. */
  lemma PrunedCanBeTrue(g: Graph, g': Graph)
    requires Pruned(g, g')
    ensures forall e | e in g'.edges :: CanBeTrue(e.cond)
  {
    WithoutMembers(Satisfiable(g.edges), g.states - g'.states);
    SatisfiableMembers(g.edges);
    forall e, w | e in g'.edges && Ground(e.cond)
      ensures Holds(e.cond, w)
    {
      AlwaysComplete(e.cond, w);
    }
  }

  /** Removes the transitions that are never enabled, and then what is no longer reachable. */
  method RemoveUnsatisfiableTransitionsAndUnreachableStates(m: Fsm)
    requires m.Valid()
    modifies m`plain, m`outgoing, m`incoming, m`model, m`acts, m`states, m`clusters
    ensures m.Valid()
    ensures Pruned(old(m.model), m.model)
    ensures forall e | e in m.model.edges :: CanBeTrue(e.cond)
  {
    hide Fsm.Valid, Reachable, Satisfiable, Pruned, DropStates;
    ghost var g := m.model;
    var states := m.states;
    ValidIsConsistent(m);
    RemoveUnsatisfiableTransitions(m);
    var reachable := ReachableStatesFrom(m, {INVALID_STATE}, m.model.states + {INVALID_STATE});
    var unreachable := Others(states, reachable);
    RemoveStates(m, unreachable);
    PruneDone(g, reachable, unreachable);
    PrunedCanBeTrue(g, m.model);
  }

  /** A state that some path from the start reaches, or the start itself. */
  ghost predicate Live(g: Graph, s: int) {
    Reachable(Satisfiable(g.edges), {INVALID_STATE}, s)
  }

  lemma LiveNext(g: Graph, g': Graph, s: int, w: World)
    requires Consistent(g) && Pruned(g, g') && Live(g, s)
    ensures Next(g', s, w) == Next(g, s, w) && Live(g, Next(g, s, w))
    ensures g'.Acts(s) == g.Acts(s) && (g'.InCluster(s) <==> g.InCluster(s))
  {
    hide Reachable;
    var sat, gone := Satisfiable(g.edges), g.states - g'.states;
    assert s !in gone;
    SatisfiableFirst(g.edges, s, w, {});
    SatisfiableFirst(g.edges, s, w, gone);
    WithoutFirst(sat, gone, s, w);
    OutMembers(sat, s);
    SatisfiableMembers(g.edges);
    forall e | e in Out(sat, s)
      ensures Live(g, e.dst) && e.dst !in gone
    {
      ReachableStep(sat, {INVALID_STATE}, e);
    }
    SkipNothing(Out(sat, s), w, gone);
    FirstIsHit(Out(sat, s), w, {});
  }

  lemma {:induction false} SkipNothing(es: seq<Edge>, w: World, skip: set<int>)
    requires forall e | e in es :: e.dst !in skip
    ensures First(es, w, skip) == First(es, w, {})
  {
    if es != [] {
      assert es[|es| - 1] in es;
      SkipNothing(es[..|es| - 1], w, skip);
    }
  }

  lemma {:induction false} LiveMacro(g: Graph, g': Graph, s: int, w: World, fuel: nat)
    requires Consistent(g) && Pruned(g, g') && Live(g, s)
    ensures Macro(g', s, w, fuel) == Macro(g, s, w, fuel)
    ensures Macro(g, s, w, fuel).Some? ==> Live(g, Macro(g, s, w, fuel).value.0)
    decreases fuel
  {
    hide Pruned, Live;
    var w' := ExecAll(g.Acts(s), w);
    LiveNext(g, g', s, w');
    var s' := Next(g, s, w');
    LiveNext(g, g', s', w');
    if g.InCluster(s') && fuel > 0 {
      LiveMacro(g, g', s', w', fuel - 1);
    }
  }

  lemma LiveStep(g: Graph, g': Graph, s: int, w: World)
    requires Consistent(g) && Pruned(g, g') && Live(g, s)
    ensures Step(g', s, w) == Step(g, s, w)
    ensures Step(g, s, w).Some? ==> Live(g, Step(g, s, w).value.0)
  {
    forall fuel: nat
      ensures Macro(g', s, w, fuel) == Macro(g, s, w, fuel)
      ensures Macro(g, s, w, fuel).Some? ==> Live(g, Macro(g, s, w, fuel).value.0)
    {
      LiveMacro(g, g', s, w, fuel);
    }
    hide Pruned, Live, Macro;
    assert EndsAt(g', s, w) <==> EndsAt(g, s, w);
    if EndsAt(g, s, w) {
      var fuel: nat :| Macro(g, s, w, fuel).Some?;
      StepIs(g, s, w, fuel);
      StepIs(g', s, w, fuel);
    }
  }

  /** Pruning leaves every run from the invalid state as it is: the states visited, the data, and
      what is seen from outside. */
  lemma {:induction false} PruningKeepsRuns(g: Graph, g': Graph, s: int, w: World, n: nat)
    requires Consistent(g) && Pruned(g, g') && Live(g, s)
    ensures MicroSteps(g', s, w, n) == MicroSteps(g, s, w, n)
    ensures Steps(g', s, w, n) == Steps(g, s, w, n)
    decreases n
  {
    hide Pruned, Live;
    if n > 0 {
      var w' := ExecAll(g.Acts(s), w);
      LiveNext(g, g', s, w');
      PruningKeepsRuns(g, g', Next(g, s, w'), w', n - 1);
      LiveStep(g, g', s, w);
      var r := Step(g, s, w);
      if r.Some? {
        PruningKeepsRuns(g, g', r.value.0, r.value.1, n - 1);
      }
    }
  }

  lemma StartIsLive(g: Graph)
    ensures Live(g, INVALID_STATE)
  {
    ReachableStart(Satisfiable(g.edges), {INVALID_STATE}, INVALID_STATE);
  }
}
