/** Completing every state with a transition to itself, and giving every callback of a state a state
    of its own: a state with several callbacks becomes a chain of states with one callback each, and
    its transitions move to the end of the chain. */
module Splitting {
  import opened Options
  import opened Terms
  import opened Programs
  import opened Graphs
  import opened Bottlenecks
  import opened Fragments
  import opened Machines

  // ----- completing transitions

  function NonFalse(es: seq<Edge>): seq<Expr> {
    if es == [] then [] else
      var c := es[|es| - 1].cond;
      if AlwaysFalse(c) then NonFalse(es[..|es| - 1]) else NonFalse(es[..|es| - 1]) + [c]
  }

  function Disjunction(cs: seq<Expr>): Expr
    requires cs != []
  {
    if |cs| == 1 then cs[0] else Bin(Or, Disjunction(cs[..|cs| - 1]), cs[|cs| - 1])
  }

  ghost predicate SomeHolds(cs: seq<Expr>, w: World) {
    exists c :: c in cs && Holds(c, w)
  }

  lemma SomeSnoc(cs: seq<Expr>, c: Expr, w: World)
    ensures SomeHolds(cs + [c], w) <==> SomeHolds(cs, w) || Holds(c, w)
  {
    hide Holds;
    assert c in cs + [c];
    forall d
      ensures d in cs + [c] <==> d in cs || d == c
    {}
  }

  lemma {:induction false} DisjunctionHolds(cs: seq<Expr>, w: World)
    requires cs != []
    ensures Holds(Disjunction(cs), w) <==> SomeHolds(cs, w)
  {
    var c, rest := cs[|cs| - 1], cs[..|cs| - 1];
    assert cs == rest + [c];
    SomeSnoc(rest, c, w);
    if |cs| > 1 {
      DisjunctionHolds(rest, w);
      var or := Bin(Or, Disjunction(rest), c);
      assert Disjunction(cs) == or && (Holds(or, w) <==> Holds(or.left, w) || Holds(c, w));
    }
  }

  /** Dropping the constantly false conditions loses no enabled transition. */
  lemma {:induction false} NonFalseHolds(es: seq<Edge>, w: World)
    ensures SomeHolds(NonFalse(es), w) <==> First(es, w, {}).Some?
  {
    if es != [] {
      var c, rest := es[|es| - 1].cond, es[..|es| - 1];
      NonFalseHolds(rest, w);
      AlwaysSound(c, w);
      SomeSnoc(NonFalse(rest), c, w);
    }
  }

  /** g' is g, except that s is left to d whenever it was not left at all before. */
  ghost predicate Completed(g: Graph, g': Graph, s: int, d: int) {
    && g' == g.(edges := g'.edges)
    && (forall p | p != s :: Out(g'.edges, p) == Out(g.edges, p))
    && (forall w: World :: CompletedAt(g, g', s, d, w))
    && (forall e | e in g'.edges :: e in g.edges || (e.src == s && e.dst == d))
  }

  /** The one transition that is taken in addition is enabled only where none was. */
  ghost predicate CompletedAt(g: Graph, g': Graph, s: int, d: int, w: World) {
    && First(Out(g'.edges, s), w, {}) == OrElse(First(Out(g.edges, s), w, {}), Some(d))
    && forall x :: Hit(Out(g'.edges, s), w, x) <==> Hit(Out(g.edges, s), w, x) || (First(Out(g.edges, s), w, {}).None? && x == d)
  }

  lemma OneMoreAt(g: Graph, g': Graph, e: Edge, w: World)
    requires g' == AddEdge(g, e, false, true)
    requires First(Out(g.edges, e.src), w, {}).None? <==> Holds(e.cond, w)
    ensures CompletedAt(g, g', e.src, e.dst, w)
  {
    var es := Out(g.edges, e.src);
    FirstIsHit(es, w, {});
    if e in g.edges {
      OutMembers(g.edges, e.src);
      assert Holds(e.cond, w) ==> Hit(es, w, e.dst);
    } else {
      OutSnoc(g.edges, e);
      FirstSnoc(es, e, w, {});
      assert e in [e];
      forall x
        ensures Hit(es + [e], w, x) <==> Hit(es, w, x) || (Holds(e.cond, w) && x == e.dst)
      {
        HitAppend(es, [e], w, x);
      }
    }
  }

  lemma CompletedByEdge(g: Graph, s: int, d: int, c: Expr)
    requires s in g.states && d in g.states
    requires forall w: World :: First(Out(g.edges, s), w, {}).None? <==> Holds(c, w)
    ensures Completed(g, AddEdge(g, Edge(s, d, c), false, true), s, d)
  {
    var e := Edge(s, d, c);
    var g' := AddEdge(g, e, false, true);
    assert g.states + {s, d} == g.states;
    forall w: World
      ensures CompletedAt(g, g', s, d, w)
    {
      OneMoreAt(g, g', e, w);
    }
    forall p | p != s
      ensures Out(g'.edges, p) == Out(g.edges, p)
    {
      if e !in g.edges {
        assert (g.edges + [e])[..|g.edges|] == g.edges;
      }
    }
  }

  lemma AlreadyComplete(g: Graph, s: int, d: int)
    requires forall w: World :: First(Out(g.edges, s), w, {}).Some?
    ensures Completed(g, g, s, d)
  {
    forall w: World
      ensures CompletedAt(g, g, s, d, w)
    {
      assert First(Out(g.edges, s), w, {}).Some?;
    }
  }

  lemma {:induction false} DisjunctionMentions(es: seq<Edge>, cs: seq<Expr>, x: string)
    requires forall e | e in es :: !Mentions(e.cond, x)
    ensures forall c | c in NonFalse(es) :: !Mentions(c, x)
    ensures cs != [] && (forall c | c in cs :: !Mentions(c, x)) ==> !Mentions(Disjunction(cs), x)
    decreases |es| + |cs|
  {
    if es != [] {
      var rest := es[..|es| - 1];
      assert es == rest + [es[|es| - 1]];
      assert es[|es| - 1] in es;
      DisjunctionMentions(rest, [], x);
    }
    if |cs| > 1 {
      var rest := cs[..|cs| - 1];
      assert cs == rest + [cs[|cs| - 1]];
      DisjunctionMentions([], rest, x);
    }
  }

  lemma CompletionCondFree(g: Graph, s: int, d: int)
    requires CondFree(g)
    ensures CondFree(AddEdge(g, Edge(s, d, TRUE), false, true))
    ensures var cs := NonFalse(Out(g.edges, s));
            cs != [] ==> CondFree(AddEdge(g, Edge(s, d, Not(Disjunction(cs))), false, true))
  {
    OutMembers(g.edges, s);
    DisjunctionMentions(Out(g.edges, s), [], LAST);
    DisjunctionMentions([], NonFalse(Out(g.edges, s)), LAST);
  }

  /** extractOnlyNonFalseConditions */
  method NonFalseConditions(ts: seq<FsmTransition>) returns (conditions: seq<Expr>)
    ensures conditions == NonFalse(EdgesOf(ts))
  {
    conditions := [];
    ghost var es := EdgesOf(ts);
    for i := 0 to |ts|
      invariant conditions == NonFalse(es[..i])
    {
      assert es[i] == ts[i].AsEdge();
      assert es[..i + 1][..i] == es[..i];
      if !AlwaysFalse(ts[i].condition) {
        conditions := conditions + [ts[i].condition];
      }
    }
    assert es[..|ts|] == es;
  }

  /** Add the transition that fits. */
  method CompleteBy(m: Fsm, source: int, destination: int, c: Expr)
    requires m.Valid() && !m.prohibitDoubleEdges && source in m.states && destination in m.states
    requires forall w: World :: First(Out(m.model.edges, source), w, {}).None? <==> Holds(c, w)
    modifies m`plain, m`outgoing, m`incoming, m`states, m`model
    ensures m.Valid() && m.outgoing.Keys >= old(m.outgoing.Keys)
    ensures m.model == AddEdge(old(m.model), Edge(source, destination, c), false, true)
    ensures Completed(old(m.model), m.model, source, destination)
  {
    hide Fsm.Valid, AddEdge, Completed, Out, First, Holds, Listed, Consistent;
    ValidIsConsistent(m);
    CompletedByEdge(m.model, source, destination, c);
    m.AddTransition(source, destination, c);
  }

  /** addCompletingTransition: lead to destination whenever no other transition is enabled. */
  method AddCompletingTransition(m: Fsm, source: int, destination: int)
    requires m.Valid() && !m.prohibitDoubleEdges
    requires source in m.outgoing && source in m.states && destination in m.states
    modifies m`plain, m`outgoing, m`incoming, m`states, m`model
    ensures m.Valid() && m.outgoing.Keys >= old(m.outgoing.Keys)
    ensures Completed(old(m.model), m.model, source, destination)
    ensures CondFree(old(m.model)) ==> CondFree(m.model)
  {
    hide Fsm.Valid, AddEdge, Completed, CondFree, EdgesOf, NonFalse, Out, AlwaysTrue, AlwaysFalse, First, Holds, Consistent;
    ghost var g := m.model;
    if CondFree(g) {
      CompletionCondFree(g, source, destination);
    }
    ghost var es := Out(g.edges, source);
    ListsAre(m, source);
    var conditions := NonFalseConditions(m.outgoing[source]);
    if conditions == [] {
      TrueFits(es);
      CompleteBy(m, source, destination, TRUE);
      return;
    }
    var condition := conditions[0];
    if AlwaysTrue(condition) {
      EverEnabled(g, source, destination, condition);
      return;
    }
    for i := 1 to |conditions|
      invariant condition == Disjunction(conditions[..i])
    {
      assert conditions[..i + 1][..i] == conditions[..i];
      if AlwaysTrue(conditions[i]) {
        EverEnabled(g, source, destination, conditions[i]);
        return;
      }
      condition := Bin(Or, condition, conditions[i]);
    }
    assert conditions[..|conditions|] == conditions;
    NegationFits(es);
    CompleteBy(m, source, destination, Not(condition));
  }

  lemma EverEnabled(g: Graph, s: int, d: int, c: Expr)
    requires c in NonFalse(Out(g.edges, s)) && AlwaysTrue(c)
    ensures Completed(g, g, s, d)
  {
    forall w: World
      ensures First(Out(g.edges, s), w, {}).Some?
    {
      AlwaysSound(c, w);
      NonFalseHolds(Out(g.edges, s), w);
    }
    AlreadyComplete(g, s, d);
  }

  lemma TrueFits(es: seq<Edge>)
    requires NonFalse(es) == []
    ensures forall w: World :: First(es, w, {}).None? <==> Holds(TRUE, w)
  {
    forall w: World
      ensures First(es, w, {}).None?
    {
      NonFalseHolds(es, w);
    }
  }

  lemma NegationFits(es: seq<Edge>)
    requires NonFalse(es) != []
    ensures forall w: World :: First(es, w, {}).None? <==> Holds(Not(Disjunction(NonFalse(es))), w)
  {
    forall w: World
      ensures First(es, w, {}).None? <==> Holds(Not(Disjunction(NonFalse(es))), w)
    {
      NonFalseHolds(es, w);
      DisjunctionHolds(NonFalse(es), w);
    }
  }

  /** Some transition is enabled in every state and world. */
  ghost predicate Total(g: Graph) {
    forall s: int, w: World | s in g.states :: First(Out(g.edges, s), w, {}).Some?
  }

  /** g' is g with the states of done completed to themselves. */
  ghost predicate SelfCompleted(g: Graph, g': Graph, done: set<int>) {
    && g' == g.(edges := g'.edges)
    && (forall s: int, w: World | s in done :: CompletedAt(g, g', s, s, w))
    && (forall s | s !in done :: Out(g'.edges, s) == Out(g.edges, s))
    && (forall e | e in g'.edges :: e in g.edges || (e.src == e.dst && e.src in done))
  }

  lemma CompleteOneMore(g: Graph, mid: Graph, g': Graph, done: set<int>, s: int)
    requires SelfCompleted(g, mid, done) && s !in done && Completed(mid, g', s, s)
    ensures SelfCompleted(g, g', done + {s})
  {
    forall p: int, w: World | p in done + {s}
      ensures CompletedAt(g, g', p, p, w)
    {
      if p == s {
        assert CompletedAt(mid, g', s, s, w);
      } else {
        assert CompletedAt(g, mid, p, p, w);
      }
    }
  }

  /** completeAllStatesToSelf(true): from now on some transition is always enabled, yet no step
      leads anywhere else. */
  method CompleteAllStatesToSelf(m: Fsm)
    requires m.Valid() && !m.prohibitDoubleEdges && forall s | s in m.states :: s in m.outgoing
    modifies m`plain, m`outgoing, m`incoming, m`states, m`model
    ensures m.Valid() && m.outgoing.Keys >= old(m.outgoing.Keys)
    ensures SelfCompleted(old(m.model), m.model, m.states) && m.states == old(m.states)
    ensures Total(m.model)
    ensures forall s: int, w: World :: Next(m.model, s, w) == Next(old(m.model), s, w)
    ensures CondFree(old(m.model)) ==> CondFree(m.model)
  {
    hide Fsm.Valid, SelfCompleted, Completed, CondFree, Total, Consistent, First, Out;
    ghost var g := m.model;
    var todo, all := m.states, m.states;
    ValidIsConsistent(m);
    NoneCompleted(g);
    assert all - todo == {};
    while todo != {}
      invariant m.Valid() && m.states == all && todo <= all && m.outgoing.Keys >= old(m.outgoing.Keys)
      invariant SelfCompleted(g, m.model, all - todo)
      invariant CondFree(g) ==> CondFree(m.model)
      decreases todo
    {
      ghost var mid := m.model;
      var s := Pick(todo);
      AddCompletingTransition(m, s, s);
      CompleteOneMore(g, mid, m.model, all - todo, s);
      assert all - (todo - {s}) == (all - todo) + {s};
      todo := todo - {s};
      ValidIsConsistent(m);
      CompletedStates(g, m.model, all - todo);
    }
    assert all - todo == all;
    CompletedMeans(g, m.model);
  }

  lemma NoneCompleted(g: Graph)
    ensures SelfCompleted(g, g, {})
  {
  }

  lemma CompletedStates(g: Graph, g': Graph, done: set<int>)
    requires SelfCompleted(g, g', done)
    ensures g'.states == g.states
  {
  }

  lemma CompletedMeans(g: Graph, g': Graph)
    requires SelfCompleted(g, g', g.states)
    ensures Total(g')
    ensures forall s: int, w: World :: Next(g', s, w) == Next(g, s, w)
  {
    forall s: int, w: World
      ensures Next(g', s, w) == Next(g, s, w)
      ensures s in g.states ==> First(Out(g'.edges, s), w, {}).Some?
    {
      if s in g.states {
        assert CompletedAt(g, g', s, s, w);
      }
    }
  }

  // ----- one state per callback

  /** The transitions of es, except those to stay, leaving last instead. */
  function Moved(es: seq<Edge>, last: int, stay: int): seq<Edge> {
    if es == [] then [] else
      var e, rest := es[|es| - 1], Moved(es[..|es| - 1], last, stay);
      if e.dst == stay then rest else rest + [Edge(last, e.dst, e.cond)]
  }

  lemma {:induction false} MovedFirst(es: seq<Edge>, last: int, stay: int, w: World)
    ensures First(Out(Moved(es, last, stay), last), w, {}) == First(es, w, {stay})
  {
    if es != [] {
      var e, rest := es[|es| - 1], Moved(es[..|es| - 1], last, stay);
      MovedFirst(es[..|es| - 1], last, stay, w);
      if e.dst != stay {
        var n := Edge(last, e.dst, e.cond);
        assert (rest + [n])[..|rest|] == rest;
        FirstSnoc(Out(rest, last), n, w, {});
      }
    }
  }

  lemma {:induction false} MovedMembers(es: seq<Edge>, last: int, stay: int)
    ensures forall n | n in Moved(es, last, stay) :: n.src == last && exists e :: e in es && e.dst == n.dst && e.cond == n.cond
  {
    if es != [] {
      var rest := es[..|es| - 1];
      MovedMembers(rest, last, stay);
      assert es == rest + [es[|es| - 1]];
      forall n | n in Moved(es, last, stay)
        ensures exists e :: e in es && e.dst == n.dst && e.cond == n.cond
      {
        if n in Moved(rest, last, stay) {
          var e :| e in rest && e.dst == n.dst && e.cond == n.cond;
          assert e in es;
        } else {
          assert es[|es| - 1] in es;
        }
      }
    }
  }

  /** In g', the callbacks cs of s are executed one per state of ch, and the last of these states is
      left the way s is left in g. */
  ghost predicate ChainOk(g: Graph, g': Graph, cs: seq<Cmd>, s: int, ch: seq<int>) {
    && |ch| == |cs| >= 1 && ch[0] == s
    && (forall i | 0 <= i < |ch| :: g'.Acts(ch[i]) == [cs[i]])
    && (forall i, j | 0 <= i < j < |ch| :: ch[i] != ch[j])
    && (forall i: nat, w: World | i < |ch| - 1 :: LinksOn(g', ch, i, w))
    && (forall w: World :: LeftAlike(g, g', s, ch, w))
  }

  ghost predicate LinksOn(g: Graph, ch: seq<int>, i: nat, w: World)
    requires i < |ch| - 1
  {
    First(Out(g.edges, ch[i]), w, {}) == Some(ch[i + 1])
  }

  ghost predicate LeftAlike(g: Graph, g': Graph, s: int, ch: seq<int>, w: World)
    requires ch != []
  {
    First(Out(g'.edges, ch[|ch| - 1]), w, {}) == First(Out(g.edges, s), w, {})
  }

  /** A chain of n states takes n steps to do what one state with n callbacks did in one. */
  lemma {:induction false} ChainRuns(g: Graph, g': Graph, cs: seq<Cmd>, s: int, ch: seq<int>, i: nat, w: World)
    requires ChainOk(g, g', cs, s, ch) && i < |ch|
    requires First(Out(g.edges, s), ExecAll(cs[i..], w), {}).Some?
    ensures MicroSteps(g', ch[i], w, |ch| - i) == (Next(g, s, ExecAll(cs[i..], w)), ExecAll(cs[i..], w))
    decreases |ch| - i
  {
    ExecOne(cs[i], w);
    var w' := Exec(cs[i], w);
    assert cs[i..][1..] == cs[i + 1..];
    assert ExecAll(cs[i..], w) == ExecAll(cs[i + 1..], w');
    if i < |ch| - 1 {
      assert LinksOn(g', ch, i, w');
      ChainRuns(g, g', cs, s, ch, i + 1, w');
    } else {
      assert LeftAlike(g, g', s, ch, w');
      assert MicroSteps(g', ch[i], w, 1) == MicroSteps(g', Next(g', ch[i], w'), w', 0);
    }
  }

  /** Ids of the new states of a chain. */
  function Tail(ch: seq<int>): set<int>
    requires ch != []
  {
    set x | x in ch[1..]
  }

  /** g' is g with the states of ch added behind s; nothing else is touched. */
  ghost predicate ChainAdded(g: Graph, g': Graph, s: int, ch: seq<int>) {
    && ch != [] && ch[0] == s && Tail(ch) !! g.states
    && g'.states == g.states + Tail(ch) && g'.clusters == g.clusters
    && (forall p | p != s && p !in ch :: Out(g'.edges, p) == Out(g.edges, p) && g'.Acts(p) == g.Acts(p))
    && (forall w: World, x | x in ch :: First(Out(g.edges, s), w, {}).Some? ==> First(Out(g'.edges, x), w, {}).Some?)
  }

  ghost predicate FewNames(names: map<StateName, int>, todo: set<int>) {
    forall n | n in names && n.Further? :: n.state !in todo
  }

  /** A new state behind last that executes c. */
  method AppendState(m: Fsm, s: int, i: nat, last: int, c: Cmd) returns (id: int)
    requires m.Valid() && !m.prohibitDoubleEdges && Further(s, i) !in m.names
    modifies m`states, m`names, m`outgoing, m`incoming, m`model, m`plain, m`acts
    ensures m.Valid() && m.outgoing.Keys >= old(m.outgoing.Keys)
    ensures m.names == old(m.names)[Further(s, i) := id] && id !in old(m.model.states)
    ensures m.model == old(m.model).(
              states := old(m.model.states) + {last, id},
              edges := old(m.model).edges + [Edge(last, id, TRUE)],
              acts := old(m.model).acts[id := [c]])
  {
    hide Fsm.Valid, AddEdge, Consistent, Listed;
    ghost var before := m.model;
    ValidIsConsistent(m);
    id := m.AddUnconnectedState(Further(s, i));
    FreshEdge(before, Edge(last, id, TRUE));
    UnknownState(before, id);
    m.AddTransition(last, id, TRUE);
    m.AddAction(id, c);
    assert [] + [c] == [c];
    assert before.states + {id} + {last, id} + {id} == before.states + {last, id};
  }

  /** The first half of splitting: append a state for every further callback. */
  method AppendCallbackStates(m: Fsm, s: int, cs: seq<Cmd>) returns (first: int, last: int, ghost ch: seq<int>)
    requires m.Valid() && !m.prohibitDoubleEdges && s in m.states && |cs| >= 2
    requires FewNames(m.names, {s})
    modifies m`states, m`names, m`outgoing, m`incoming, m`model, m`plain, m`acts
    ensures m.Valid() && m.outgoing.Keys >= old(m.outgoing.Keys)
    ensures |ch| == |cs| && ch[0] == s && first == ch[1] && last == ch[|ch| - 1]
    ensures forall n | n in m.names :: n in old(m.names) || (n.Further? && n.state == s)
    ensures Extended(old(m.model), m.model, s, cs, ch)
  {
    hide Fsm.Valid, AddEdge, Consistent, Extended;
    first, last, ch := INVALID_STATE, s, [s];
    ghost var g := m.model;
    ValidIsConsistent(m);
    ExtendNone(g, s, cs);
    assert cs[..1] == [cs[0]];
    for i := 1 to |cs|
      invariant m.Valid() && m.outgoing.Keys >= old(m.outgoing.Keys)
      invariant |ch| == i && ch[0] == s && last == ch[i - 1] && (i > 1 ==> first == ch[1])
      invariant forall n | n in m.names :: n in old(m.names) || (n.Further? && n.state == s && n.number < i)
      invariant Extended(g, m.model, s, cs[..i], ch)
    {
      ghost var before := m.model;
      ValidIsConsistent(m);
      var id := AppendState(m, s, i, last, cs[i]);
      ExtendMore(g, before, m.model, s, cs[..i], ch, id, cs[i]);
      assert cs[..i] + [cs[i]] == cs[..i + 1];
      last, ch := id, ch + [id];
      if i == 1 {
        first := id;
      }
    }
    assert cs[..|cs|] == cs;
  }

  /** g' is g with the chain ch behind s, while s itself still has all it had before. */
  ghost predicate Extended(g: Graph, g': Graph, s: int, cs: seq<Cmd>, ch: seq<int>) {
    && |ch| == |cs| >= 1 && ch[0] == s && s in g.states
    && NewStates(g, g', ch) && Bodies(g, g', cs, ch) && Wires(g, g', s, ch)
  }

  ghost predicate NewStates(g: Graph, g': Graph, ch: seq<int>)
    requires ch != []
  {
    && (forall i, j | 0 <= i < j < |ch| :: ch[i] != ch[j])
    && (forall i | 1 <= i < |ch| :: ch[i] !in g.states)
    && g'.states == g.states + Tail(ch) && g'.clusters == g.clusters
  }

  ghost predicate Bodies(g: Graph, g': Graph, cs: seq<Cmd>, ch: seq<int>)
    requires |ch| == |cs| >= 1
  {
    && (forall p | p !in Tail(ch) :: g'.Acts(p) == g.Acts(p))
    && (forall i | 1 <= i < |ch| :: g'.Acts(ch[i]) == [cs[i]])
  }

  ghost predicate Wires(g: Graph, g': Graph, s: int, ch: seq<int>)
    requires ch != []
  {
    && (forall p | p !in ch :: Out(g'.edges, p) == Out(g.edges, p))
    && (forall i | 1 <= i < |ch| - 1 :: Out(g'.edges, ch[i]) == [Edge(ch[i], ch[i + 1], TRUE)])
    && (|ch| > 1 ==> Out(g'.edges, ch[|ch| - 1]) == [])
    && Out(g'.edges, s) == (if |ch| > 1 then Out(g.edges, s) + [Edge(s, ch[1], TRUE)] else Out(g.edges, s))
    && (forall e | e in g'.edges :: e in g.edges || (e.dst in Tail(ch) && e.cond == TRUE))
  }

  lemma ExtendNone(g: Graph, s: int, cs: seq<Cmd>)
    requires s in g.states && cs != []
    ensures Extended(g, g, s, [cs[0]], [s])
  {
    assert [s][1..] == [];
  }

  lemma ExtendMore(g: Graph, g1: Graph, g2: Graph, s: int, cs: seq<Cmd>, ch: seq<int>, id: int, c: Cmd)
    requires Consistent(g1) && Extended(g, g1, s, cs, ch) && id !in g1.states
    requires g2.states == g1.states + {ch[|ch| - 1], id} && g2.clusters == g1.clusters
    requires g2.edges == g1.edges + [Edge(ch[|ch| - 1], id, TRUE)] && g2.acts == g1.acts[id := [c]]
    ensures Extended(g, g2, s, cs + [c], ch + [id])
  {
    hide Wires, NewStates, Bodies, Consistent;
    StateMore(g, g1, g2, cs, ch, id, c);
    WireMore(g, g1, g2, s, ch, id);
  }

  lemma TailMore(ch: seq<int>, id: int)
    requires ch != []
    ensures Tail(ch + [id]) == Tail(ch) + {id}
    ensures forall i | 1 <= i < |ch| :: ch[i] in Tail(ch)
  {
    assert (ch + [id])[1..] == ch[1..] + [id];
    assert forall i | 1 <= i < |ch| :: ch[i] == ch[1..][i - 1];
  }

  lemma StateMore(g: Graph, g1: Graph, g2: Graph, cs: seq<Cmd>, ch: seq<int>, id: int, c: Cmd)
    requires |ch| == |cs| >= 1 && ch[0] in g.states && NewStates(g, g1, ch) && Bodies(g, g1, cs, ch) && id !in g1.states
    requires g2.states == g1.states + {ch[|ch| - 1], id} && g2.clusters == g1.clusters && g2.acts == g1.acts[id := [c]]
    ensures Tail(ch + [id]) == Tail(ch) + {id}
    ensures forall i | 0 <= i < |ch| :: ch[i] in g1.states
    ensures forall i, j | 0 <= i < j < |ch| :: ch[i] != ch[j]
    ensures NewStates(g, g2, ch + [id]) && Bodies(g, g2, cs + [c], ch + [id])
  {
    TailMore(ch, id);
    hide Tail;
    assert forall i | 0 <= i < |ch| :: ch[i] in g1.states;
    assert g2.states == g.states + Tail(ch + [id]);
    assert NewStates(g, g2, ch + [id]);
  }

  lemma WireMore(g: Graph, g1: Graph, g2: Graph, s: int, ch: seq<int>, id: int)
    requires Consistent(g1) && ch != [] && ch[0] == s && Wires(g, g1, s, ch) && id !in g1.states
    requires forall i, j | 0 <= i < j < |ch| :: ch[i] != ch[j]
    requires forall i | 0 <= i < |ch| :: ch[i] in g1.states
    requires g2.edges == g1.edges + [Edge(ch[|ch| - 1], id, TRUE)]
    requires Tail(ch + [id]) == Tail(ch) + {id}
    ensures Wires(g, g2, s, ch + [id])
  {
    hide Out, Consistent, Tail;
    OutSnoc(g1.edges, Edge(ch[|ch| - 1], id, TRUE));
    UnknownState(g1, id);
  }

  lemma FreshEdge(g: Graph, e: Edge)
    requires Consistent(g) && e.dst !in g.states
    ensures forall h: Graph {:trigger AddEdge(h, e, false, true)} | h.edges == g.edges ::
              AddEdge(h, e, false, true) == h.(edges := h.edges + [e], states := h.states + {e.src, e.dst})
  {
  }

  function Others(ts: seq<FsmTransition>, stay: int): seq<FsmTransition> {
    if ts == [] then [] else
      var t, rest := ts[|ts| - 1], Others(ts[..|ts| - 1], stay);
      if t.destination == stay then rest else rest + [t]
  }

  lemma {:induction false} OthersMembers(ts: seq<FsmTransition>, stay: int)
    ensures forall t :: t in Others(ts, stay) <==> t in ts && t.destination != stay
  {
    if ts != [] {
      OthersMembers(ts[..|ts| - 1], stay);
      assert ts == ts[..|ts| - 1] + [ts[|ts| - 1]];
    }
  }

  lemma OthersMore(ts: seq<FsmTransition>, stay: int, i: nat)
    requires i < |ts|
    ensures Others(ts[..i + 1], stay) == if ts[i].destination == stay then Others(ts[..i], stay) else Others(ts[..i], stay) + [ts[i]]
  {
    assert ts[..i + 1][..i] == ts[..i];
  }

  /** Copy what leaves s, except towards stay, to last; return what is to be erased afterwards. */
  method CopyTransitions(m: Fsm, s: int, last: int, stay: int) returns (toErase: seq<FsmTransition>)
    requires m.Valid() && !m.prohibitDoubleEdges && s != last && s in m.outgoing && last in m.states
    modifies m`plain, m`outgoing, m`incoming, m`states, m`model
    ensures m.Valid() && m.outgoing.Keys >= old(m.outgoing.Keys)
    ensures Listed(m.outgoing, s) == Listed(old(m.outgoing), s)
    ensures toErase == Others(Listed(m.outgoing, s), stay)
    ensures m.model == old(m.model).(edges := InsertAll(old(m.model).edges, Moved(Out(old(m.model).edges, s), last, stay)))
  {
    hide Fsm.Valid, InsertAll, Moved, Out, Consistent, AddEdge, Others, EdgesOf, Listed;
    ghost var g, ex := m.model, Out(m.model.edges, s);
    ValidIsConsistent(m);
    ListsAre(m, s);
    var ts := Listed(m.outgoing, s);
    toErase := [];
    MoveNothing(g, ex, last, stay);
    for i := 0 to |ts|
      invariant m.Valid() && m.outgoing.Keys >= old(m.outgoing.Keys) && Listed(m.outgoing, s) == ts
      invariant m.model == g.(edges := InsertAll(g.edges, Moved(ex[..i], last, stay)))
      invariant EdgesOf(ts) == ex
      invariant toErase == Others(ts[..i], stay)
    {
      CopyNext(m, s, last, stay, ts, i, g, ex);
      OthersMore(ts, stay, i);
      if ts[i].destination != stay {
        toErase := toErase + [ts[i]];
      }
    }
    assert ts[..|ts|] == ts && ex[..|ts|] == ex;
  }

  /** Copy the i-th of them. */
  method CopyNext(m: Fsm, s: int, last: int, stay: int, ts: seq<FsmTransition>, i: nat, ghost g: Graph, ghost ex: seq<Edge>)
    requires m.Valid() && !m.prohibitDoubleEdges && s != last && last in g.states
    requires i < |ts| && EdgesOf(ts) == ex && ex == Out(g.edges, s) && Consistent(g)
    requires m.model == g.(edges := InsertAll(g.edges, Moved(ex[..i], last, stay)))
    modifies m`plain, m`outgoing, m`incoming, m`states, m`model
    ensures m.Valid() && m.outgoing.Keys >= old(m.outgoing.Keys) && Listed(m.outgoing, s) == old(Listed(m.outgoing, s))
    ensures m.model == g.(edges := InsertAll(g.edges, Moved(ex[..i + 1], last, stay)))
    ensures EdgesOf(ts) == ex
  {
    hide Fsm.Valid, InsertAll, Moved, Out, Consistent, AddEdge, EdgesOf, Listed;
    assert ex[i] == ts[i].AsEdge();
    MoveOne(g, ex, last, stay, s, i);
    if ts[i].destination != stay {
      CopyOne(m, s, last, ts[i]);
    }
  }

  /** The second half of splitting: what leaves s, except towards stay, leaves last instead. */
  method MoveTransitions(m: Fsm, s: int, last: int, stay: int)
    requires m.Valid() && !m.prohibitDoubleEdges && s != last && s in m.outgoing
    requires last in m.states && Out(m.model.edges, last) == []
    modifies m`plain, m`outgoing, m`incoming, m`states, m`model
    ensures m.Valid() && m.outgoing.Keys >= old(m.outgoing.Keys)
    ensures m.model == old(m.model).(edges := m.model.edges)
    ensures forall p | p != s && p != last :: Out(m.model.edges, p) == Out(old(m.model.edges), p)
    ensures forall w: World :: First(Out(m.model.edges, last), w, {}) == First(Out(old(m.model.edges), s), w, {stay})
    ensures forall e :: e in Out(m.model.edges, s) <==> e in Out(old(m.model.edges), s) && e.dst == stay
    ensures forall e | e in m.model.edges :: e in old(m.model.edges) || exists d | d in old(m.model.edges) :: d.dst == e.dst && d.cond == e.cond
  {
    hide Fsm.Valid, InsertAll, Moved, Out, EdgesOf, Listed, From, Removing;
    ghost var es, ex := m.model.edges, Out(m.model.edges, s);
    ListsAre(m, s);
    var toErase := CopyTransitions(m, s, last, stay);
    MovedOut(es, ex, s, last, stay);
    ListsAre(m, s);
    FromIsListed(m, s);
    ErasedOut(m.plain, Listed(m.outgoing, s), s, stay);
    ghost var left := Removing(m.plain, AsSet(toErase));
    label before:
    m.RemoveTransitions(toErase);
    assert old@before(EdgesOf(left)) == EdgesOf(left);
  }

  method CopyOne(m: Fsm, s: int, last: int, t: FsmTransition)
    requires m.Valid() && !m.prohibitDoubleEdges && s != last
    modifies m`plain, m`outgoing, m`incoming, m`states, m`model
    ensures m.Valid() && m.outgoing.Keys >= old(m.outgoing.Keys)
    ensures Listed(m.outgoing, s) == old(Listed(m.outgoing, s))
    ensures m.model == AddEdge(old(m.model), Edge(last, t.destination, t.condition), false, true)
  {
    hide Fsm.Valid, AddEdge;
    m.AddTransition(last, t.destination, t.condition);
  }

  lemma MoveNothing(g: Graph, ex: seq<Edge>, last: int, stay: int)
    ensures InsertAll(g.edges, Moved(ex[..0], last, stay)) == g.edges
    ensures forall ts: seq<FsmTransition> :: Others(ts[..0], stay) == []
  {
  }

  lemma MoveOne(g: Graph, ex: seq<Edge>, last: int, stay: int, s: int, i: nat)
    requires Consistent(g) && ex == Out(g.edges, s) && last in g.states && i < |ex|
    ensures ex[i].dst == stay ==> Moved(ex[..i + 1], last, stay) == Moved(ex[..i], last, stay)
    ensures ex[i].dst == stay || (
              g.(edges := InsertAll(g.edges, Moved(ex[..i + 1], last, stay)))
              == AddEdge(g.(edges := InsertAll(g.edges, Moved(ex[..i], last, stay))), Edge(last, ex[i].dst, ex[i].cond), false, true))
  {
    OutMembers(g.edges, s);
    assert ex[i] in ex && ex[..i + 1][..i] == ex[..i];
    InsertAllLast(g.edges, Moved(ex[..i], last, stay), Edge(last, ex[i].dst, ex[i].cond));
    assert g.states + {last, ex[i].dst} == g.states;
  }

  lemma MovedOut(es: seq<Edge>, ex: seq<Edge>, s: int, last: int, stay: int)
    requires s != last && ex == Out(es, s) && Out(es, last) == []
    ensures var es' := InsertAll(es, Moved(ex, last, stay));
            && (forall p | p != last :: Out(es', p) == Out(es, p))
            && (forall w: World :: First(Out(es', last), w, {}) == First(ex, w, {stay}))
            && (forall e | e in es' :: e in es || exists d | d in es :: d.dst == e.dst && d.cond == e.cond)
  {
    var news := Moved(ex, last, stay);
    var es' := InsertAll(es, news);
    MovedMembers(ex, last, stay);
    InsertAllMembers(es, news);
    OutMembers(es, s);
    forall p | p != last
      ensures Out(es', p) == Out(es, p)
    {
      InsertAllSameOut(es, news, p);
    }
    forall w: World
      ensures First(Out(es', last), w, {}) == First(ex, w, {stay})
    {
      InsertAllFirst(es, news, last, w, {});
      MovedFirst(ex, last, stay, w);
    }
    forall e | e in es' && e !in es
      ensures exists d | d in es :: d.dst == e.dst && d.cond == e.cond
    {
      var d :| d in ex && d.dst == e.dst && d.cond == e.cond;
      assert d in es;
    }
  }

  lemma ErasedOut(plain: seq<FsmTransition>, ts: seq<FsmTransition>, s: int, stay: int)
    requires From(plain, s) == ts
    ensures var es := EdgesOf(Removing(plain, AsSet(Others(ts, stay))));
            && (forall p | p != s :: Out(es, p) == Out(EdgesOf(plain), p))
            && (forall e :: e in Out(es, s) <==> e in Out(EdgesOf(plain), s) && e.dst == stay)
            && (forall e | e in es :: e in EdgesOf(plain))
  {
    var gone := AsSet(Others(ts, stay));
    FromMembers(plain, s);
    OthersMembers(ts, stay);
    RemovingEdges(plain, gone);
    hide From, Removing, EdgesOf, Others, Out;
    forall p
      ensures p != s ==> Out(EdgesOf(Removing(plain, gone)), p) == Out(EdgesOf(plain), p)
    {
      RemovingOut(plain, gone, p);
    }
    RemovingOut(plain, gone, s);
    EdgesFrom(plain, s);
    RemovingByDestination(ts, gone, d => d == stay);
  }

  // ----- the whole split

  /** g1 is g with a chain behind s (Extended), g3 is g1 with the callbacks and transitions of s
      distributed over that chain. */
  lemma SplitDone(g: Graph, g1: Graph, g3: Graph, s: int, cs: seq<Cmd>, ch: seq<int>)
    requires Consistent(g) && Extended(g, g1, s, cs, ch) && |cs| >= 2
    requires g3 == g1.(edges := g3.edges, acts := g1.acts[s := [cs[0]]])
    requires forall p | p != s && p != ch[|ch| - 1] :: Out(g3.edges, p) == Out(g1.edges, p)
    requires forall w: World :: First(Out(g3.edges, ch[|ch| - 1]), w, {}) == First(Out(g1.edges, s), w, {ch[1]})
    requires forall e :: e in Out(g3.edges, s) <==> e in Out(g1.edges, s) && e.dst == ch[1]
    ensures ChainOk(g, g3, cs, s, ch) && ChainAdded(g, g3, s, ch)
  {
    TailMore(ch, 0);
    OutMembers(g.edges, s);
    assert ch[1] !in g.states;
    forall e | e in Out(g3.edges, s)
      ensures e == Edge(s, ch[1], TRUE)
    {
      assert e in Out(g.edges, s) || e == Edge(s, ch[1], TRUE);
    }
    assert Edge(s, ch[1], TRUE) in Out(g3.edges, s);
    forall i: nat, w: World | i < |ch| - 1
      ensures LinksOn(g3, ch, i, w)
    {
      if i == 0 {
        LinkIsTaken(Out(g3.edges, s), ch[1], w);
      } else {
        LinkIsTaken(Out(g3.edges, ch[i]), ch[i + 1], w);
      }
    }
    forall w: World
      ensures LeftAlike(g, g3, s, ch, w)
    {
      var ex := Out(g.edges, s);
      FirstSnoc(ex, Edge(s, ch[1], TRUE), w, {ch[1]});
      FirstSkipMore(ex, w, {}, ch[1]);
      assert {} + {ch[1]} == {ch[1]};
    }
    hide Out, First;
    SplitTouches(g, g1, g3, s, cs, ch);
  }

  lemma SplitTouches(g: Graph, g1: Graph, g3: Graph, s: int, cs: seq<Cmd>, ch: seq<int>)
    requires Extended(g, g1, s, cs, ch) && |cs| >= 2
    requires g3 == g1.(edges := g3.edges, acts := g1.acts[s := [cs[0]]])
    requires forall p | p != s && p != ch[|ch| - 1] :: Out(g3.edges, p) == Out(g1.edges, p)
    requires forall i: nat, w: World | i < |ch| - 1 :: LinksOn(g3, ch, i, w)
    requires forall w: World :: LeftAlike(g, g3, s, ch, w)
    ensures ChainAdded(g, g3, s, ch)
  {
    TailMore(ch, 0);
    hide Out, First;
    forall w: World, x | x in ch && First(Out(g.edges, s), w, {}).Some?
      ensures First(Out(g3.edges, x), w, {}).Some?
    {
      var i :| 0 <= i < |ch| && ch[i] == x;
      if i < |ch| - 1 {
        assert LinksOn(g3, ch, i, w);
      } else {
        assert LeftAlike(g, g3, s, ch, w);
      }
    }
  }

  /** Give every callback of s a state of its own. */
  method SplitState(m: Fsm, s: int) returns (ghost ch: seq<int>)
    requires m.Valid() && !m.prohibitDoubleEdges && s in m.states && s in m.outgoing
    requires FewNames(m.names, {s}) && |m.model.Acts(s)| >= 2
    modifies m`states, m`names, m`outgoing, m`incoming, m`model, m`plain, m`acts
    ensures m.Valid() && m.outgoing.Keys >= old(m.outgoing.Keys)
    ensures forall n | n in m.names :: n in old(m.names) || (n.Further? && n.state == s)
    ensures ch != [] && ChainAdded(old(m.model), m.model, s, ch)
    ensures ChainOk(old(m.model), m.model, old(m.model).Acts(s), s, ch)
    ensures CondFree(old(m.model)) ==> CondFree(m.model)
  {
    hide Fsm.Valid, Extended, ChainAdded, ChainOk, Out, First, Consistent;
    ValidIsConsistent(m);
    ghost var g := m.model;
    var cs := m.acts[s];
    var first, last;
    first, last, ch := AppendCallbackStates(m, s, cs);
    ghost var g1 := m.model;
    ValidIsConsistent(m);
    ChainFacts(g, g1, s, cs, ch);
    m.SetActions(s, [cs[0]]);
    MoveTransitions(m, s, last, first);
    SplitDone(g, g1, m.model, s, cs, ch);
  }

  lemma ChainFacts(g: Graph, g1: Graph, s: int, cs: seq<Cmd>, ch: seq<int>)
    requires Extended(g, g1, s, cs, ch) && |cs| >= 2
    ensures var last := ch[|ch| - 1]; last != s && last in g1.states && s in g1.states && Out(g1.edges, last) == []
    ensures CondFree(g) ==> CondFree(g1)
  {
    TailMore(ch, 0);
  }

  /** How far the states of all have been split: those of todo are as in g, the others execute at
      most one callback, and the chain of each state with several takes its place. */
  ghost predicate SplitSoFar(g: Graph, g': Graph, all: set<int>, todo: set<int>, chains: map<int, seq<int>>) {
    && all <= g'.states && g'.clusters == g.clusters
    && (forall s | s in all && (s in todo || |g.Acts(s)| <= 1) :: Untouched(g, g', s))
    && (forall s | s in chains :: s in all && s !in todo && ChainOk(g, g', g.Acts(s), s, chains[s]))
    && (forall s | s in all - todo && |g.Acts(s)| > 1 :: s in chains)
    && (forall s, x | s in chains && x in chains[s] :: x in g'.states && (x in all ==> x == s))
    && (forall s, t, x | s in chains && t in chains && x in chains[s] && x in chains[t] :: s == t)
    && (forall p | p in g'.states :: p in all || InChain(chains, p))
    && (forall p | p in g'.states && p !in todo :: |g'.Acts(p)| <= 1)
    && (forall p, c | p in g'.states && c in g'.Acts(p) :: CallbackOf(g, all, c))
    && Total(g')
  }

  ghost predicate InChain(chains: map<int, seq<int>>, p: int) {
    exists s :: s in chains && p in chains[s]
  }

  ghost predicate Untouched(g: Graph, g': Graph, s: int) {
    Out(g'.edges, s) == Out(g.edges, s) && g'.Acts(s) == g.Acts(s)
  }

  ghost predicate CallbackOf(g: Graph, all: set<int>, c: Cmd) {
    exists q :: q in all && c in g.Acts(q)
  }

  lemma ChainMembers(ch: seq<int>)
    requires ch != []
    ensures forall x :: x in ch <==> x == ch[0] || x in Tail(ch)
  {
    assert ch == [ch[0]] + ch[1..];
  }

  /** A chain survives the splitting of another state. */
  lemma ChainKept(g: Graph, g1: Graph, g2: Graph, s: int, ch: seq<int>, t: int, ch2: seq<int>)
    requires ChainOk(g, g1, g.Acts(s), s, ch) && ChainAdded(g1, g2, t, ch2)
    requires forall x | x in ch :: x in g1.states && x != t
    ensures ChainOk(g, g2, g.Acts(s), s, ch)
  {
    ChainMembers(ch2);
    hide Out, First, Tail;
    assert forall i | 0 <= i < |ch| :: ch[i] in ch;
    forall i: nat, w: World | i < |ch| - 1
      ensures LinksOn(g2, ch, i, w)
    {
      assert LinksOn(g1, ch, i, w);
    }
    forall w: World
      ensures LeftAlike(g, g2, s, ch, w)
    {
      assert LeftAlike(g, g1, s, ch, w);
    }
  }

  lemma ChainFromTouchless(g: Graph, g1: Graph, g2: Graph, t: int, ch: seq<int>)
    requires Untouched(g, g1, t) && ChainOk(g1, g2, g1.Acts(t), t, ch)
    ensures ChainOk(g, g2, g.Acts(t), t, ch)
  {
    forall w: World
      ensures LeftAlike(g, g2, t, ch, w)
    {
      assert LeftAlike(g1, g2, t, ch, w);
    }
  }

  lemma TotalKept(g1: Graph, g2: Graph, t: int, ch: seq<int>)
    requires Total(g1) && ChainAdded(g1, g2, t, ch) && t in g1.states
    ensures Total(g2)
  {
    hide Out, First;
    forall s: int, w: World | s in g2.states
      ensures First(Out(g2.edges, s), w, {}).Some?
    {
      assert First(Out(g1.edges, t), w, {}).Some?;
      if s !in ch {
        assert s in g1.states;
      }
    }
  }

  lemma SplitMore(g: Graph, g1: Graph, g2: Graph, all: set<int>, todo: set<int>, chains: map<int, seq<int>>, t: int, ch: seq<int>)
    requires SplitSoFar(g, g1, all, todo, chains) && t in todo && t in all && |g.Acts(t)| > 1
    requires ChainAdded(g1, g2, t, ch) && ChainOk(g1, g2, g1.Acts(t), t, ch)
    ensures SplitSoFar(g, g2, all, todo - {t}, chains[t := ch])
  {
    ChainFromTouchless(g, g1, g2, t, ch);
    TotalKept(g1, g2, t, ch);
    ChainMembers(ch);
    forall s | s in chains
      ensures ChainOk(g, g2, g.Acts(s), s, chains[s])
    {
      ChainKept(g, g1, g2, s, chains[s], t, ch);
    }
    forall p | p in ch
      ensures |g2.Acts(p)| == 1 && g2.Acts(p)[0] in g.Acts(t)
    {
      var i :| 0 <= i < |ch| && ch[i] == p;
      assert g2.Acts(ch[i]) == [g.Acts(t)[i]];
    }
    hide ChainOk, Total, Out, First;
    SplitRest(g, g1, g2, all, todo, chains, t, ch);
  }

  lemma SplitRest(g: Graph, g1: Graph, g2: Graph, all: set<int>, todo: set<int>, chains: map<int, seq<int>>, t: int, ch: seq<int>)
    requires SplitSoFar(g, g1, all, todo, chains) && t in todo && t in all && |g.Acts(t)| > 1
    requires ChainAdded(g1, g2, t, ch) && ChainOk(g, g2, g.Acts(t), t, ch) && Total(g2)
    requires forall x :: x in ch <==> x == t || x in Tail(ch)
    requires forall s | s in chains :: ChainOk(g, g2, g.Acts(s), s, chains[s])
    requires forall p | p in ch :: |g2.Acts(p)| == 1 && g2.Acts(p)[0] in g.Acts(t)
    ensures SplitSoFar(g, g2, all, todo - {t}, chains[t := ch])
  {
    hide ChainOk, Total, Out, First, Tail;
    var chains' := chains[t := ch];
    forall p | p in g2.states
      ensures p in all || InChain(chains', p)
    {
      if p in ch {
        assert t in chains';
      } else if InChain(chains, p) {
        var s :| s in chains && p in chains[s];
        assert s in chains' && p in chains'[s];
      }
    }
    forall p, c | p in g2.states && c in g2.Acts(p)
      ensures CallbackOf(g, all, c)
    {
      if p in ch {
        assert t in all && c in g.Acts(t);
      } else {
        assert p in g1.states && c in g1.Acts(p);
      }
    }
  }

  lemma SkipOne(g: Graph, g1: Graph, all: set<int>, todo: set<int>, chains: map<int, seq<int>>, t: int)
    requires SplitSoFar(g, g1, all, todo, chains) && t in todo && t in all && |g.Acts(t)| <= 1
    ensures SplitSoFar(g, g1, all, todo - {t}, chains)
  {
    hide ChainOk, Total, Out, First;
    assert Untouched(g, g1, t);
  }

  /** The number of steps that correspond to one step of a state of g. */
  function StepsOf(g: Graph, s: int): nat {
    if g.Acts(s) == [] then 1 else |g.Acts(s)|
  }

  /** A step of s in g corresponds to as many steps in g' as s has callbacks. */
  ghost predicate Stutters(g: Graph, g': Graph, s: int, w: World) {
    MicroSteps(g', s, w, StepsOf(g, s)) == Micro(g, s, w)
  }

  lemma SplitStutters(g0: Graph, g: Graph, g': Graph, chains: map<int, seq<int>>, s: int, w: World)
    requires g.acts == g0.acts && Next(g, s, ExecAll(g.Acts(s), w)) == Next(g0, s, ExecAll(g.Acts(s), w))
    requires SplitSoFar(g, g', g0.states, {}, chains) && Total(g) && g.states == g0.states && s in g0.states
    ensures Stutters(g0, g', s, w)
  {
    var cs := g.Acts(s);
    if |cs| <= 1 {
      assert Untouched(g, g', s);
      assert MicroSteps(g', s, w, 1) == MicroSteps(g', Micro(g', s, w).0, Micro(g', s, w).1, 0);
    } else {
      assert s in chains;
      assert cs[0..] == cs;
      ChainRuns(g, g', cs, s, chains[s], 0, w);
    }
  }

  /** The states of g' are the states of g and of the chains behind them, and every callback of g is
      executed by exactly one of them: the i-th callback of s by the i-th state of its chain. */
  ghost predicate EachOnce(g: Graph, g': Graph, chains: map<int, seq<int>>) {
    && chains.Keys == g.states
    && (forall s | s in chains :: HoldsChain(g, g', s, chains[s]))
    && (forall s, t, x | s in chains && t in chains && x in chains[s] && x in chains[t] :: s == t)
    && (forall p | p in g'.states :: InChain(chains, p))
  }

  ghost predicate HoldsChain(g: Graph, g': Graph, s: int, ch: seq<int>) {
    && |ch| == StepsOf(g, s) && ch[0] == s
    && (forall i | 0 <= i < |ch| :: ch[i] in g'.states && g'.Acts(ch[i]) == (if g.Acts(s) == [] then [] else [g.Acts(s)[i]]))
    && (forall i, j | 0 <= i < j < |ch| :: ch[i] != ch[j])
  }

  ghost predicate Distributed(g: Graph, g': Graph) {
    exists chains :: EachOnce(g, g', chains)
  }

  /** The chains, with that of a state that was not split consisting of itself. */
  ghost function AllChains(g: Graph, chains: map<int, seq<int>>): map<int, seq<int>> {
    map s | s in g.states :: if s in chains then chains[s] else [s]
  }

  lemma ChainHolds(g: Graph, g': Graph, chains: map<int, seq<int>>, s: int)
    requires SplitSoFar(g, g', g.states, {}, chains) && s in g.states
    ensures HoldsChain(g, g', s, AllChains(g, chains)[s])
  {
    hide Total, Out, First, LinksOn, LeftAlike;
    if s in chains {
      assert ChainOk(g, g', g.Acts(s), s, chains[s]);
      assert forall i | 0 <= i < |chains[s]| :: chains[s][i] in chains[s];
    } else {
      assert s in g.states - {} && s !in chains;
      assert |g.Acts(s)| <= 1 && Untouched(g, g', s);
      assert |g.Acts(s)| == 1 ==> g.Acts(s) == [g.Acts(s)[0]];
    }
  }

  lemma ChainsApart(g: Graph, g': Graph, chains: map<int, seq<int>>)
    requires SplitSoFar(g, g', g.states, {}, chains)
    ensures var full := AllChains(g, chains);
      && (forall s, t, x | s in full && t in full && x in full[s] && x in full[t] :: s == t)
      && (forall p | p in g'.states :: InChain(full, p))
  {
    hide Total, Out, First, LinksOn, LeftAlike, CallbackOf, Untouched;
    var full := AllChains(g, chains);
    forall s | s in full
      ensures s in full[s]
    {
      if s in chains {
        assert chains[s][0] == s && chains[s][0] in chains[s];
      }
    }
    forall p | p in g'.states
      ensures InChain(full, p)
    {
      if InChain(chains, p) {
        var s :| s in chains && p in chains[s];
        assert s in full && p in full[s];
      } else {
        assert p in full;
      }
    }
  }

  lemma SplitDistributes(g: Graph, g': Graph, chains: map<int, seq<int>>)
    requires SplitSoFar(g, g', g.states, {}, chains)
    ensures Distributed(g, g')
  {
    hide SplitSoFar, HoldsChain, InChain;
    var full := AllChains(g, chains);
    ChainsApart(g, g', chains);
    forall s | s in full
      ensures HoldsChain(g, g', s, full[s])
    {
      ChainHolds(g, g', chains, s);
    }
    assert EachOnce(g, g', full);
  }

  /** fanOutMultipleCallbacksToIndividualStates: afterwards every state has at most one callback,
      some transition is always enabled, and a state that had n callbacks takes n steps to produce
      the data and the successor of its former single step. */
  method FanOutMultiple(m: Fsm)
    requires m.Valid() && !m.prohibitDoubleEdges && (forall s | s in m.states :: s in m.outgoing)
    requires FewNames(m.names, m.states)
    modifies m`states, m`names, m`outgoing, m`incoming, m`model, m`plain, m`acts
    ensures m.Valid() && old(m.states) <= m.states && m.model.clusters == old(m.model).clusters
    ensures forall n | n in m.names :: n in old(m.names) || n.Further?
    ensures Total(m.model)
    ensures forall s | s in m.states :: |m.model.Acts(s)| <= 1
    ensures forall s, c | s in m.states && c in m.model.Acts(s) :: CallbackOf(old(m.model), old(m.states), c)
    ensures Distributed(old(m.model), m.model)
    ensures forall s: int, w: World | s in old(m.states) :: Stutters(old(m.model), m.model, s, w)
    ensures CondFree(old(m.model)) ==> CondFree(m.model)
  {
    hide Fsm.Valid, SplitSoFar, ChainOk, ChainAdded, Total, SelfCompleted, CondFree, CallbackOf, Stutters, Distributed;
    ghost var g0 := m.model;
    ValidIsConsistent(m);
    CompleteAllStatesToSelf(m);
    ghost var g := m.model;
    ValidIsConsistent(m);
    CompletedStates(g0, g, g0.states);
    ghost var all, chains: map<int, seq<int>> := m.states, map[];
    var todo := m.states;
    SplitStarts(g0, g);
    while todo != {}
      invariant m.Valid() && todo <= all && m.outgoing.Keys >= all && m.acts == m.model.acts && m.states == m.model.states
      invariant FewNames(m.names, todo) && forall n | n in m.names :: n in old(m.names) || n.Further?
      invariant SplitSoFar(g, m.model, all, todo, chains)
      invariant CondFree(g) ==> CondFree(m.model)
      decreases todo
    {
      var s := Pick(todo);
      ghost var g1 := m.model;
      SplitKnows(g, g1, all, todo, chains, s);
      if s in m.acts && |m.acts[s]| > 1 {
        ghost var ch := SplitState(m, s);
        SplitMore(g, g1, m.model, all, todo, chains, s, ch);
        chains := chains[s := ch];
        ValidIsConsistent(m);
      } else {
        SkipOne(g, g1, all, todo, chains, s);
      }
      todo := todo - {s};
    }
    SplitEnds(g0, g, m.model, chains);
  }

  lemma SplitStarts(g0: Graph, g: Graph)
    requires SelfCompleted(g0, g, g0.states) && Total(g)
    ensures SplitSoFar(g, g, g0.states, g0.states, map[])
  {
  }

  lemma SplitKnows(g: Graph, g1: Graph, all: set<int>, todo: set<int>, chains: map<int, seq<int>>, s: int)
    requires SplitSoFar(g, g1, all, todo, chains) && s in todo && s in all
    ensures s in g1.states && g1.Acts(s) == g.Acts(s)
  {
    assert Untouched(g, g1, s);
  }

  lemma DistributedSame(g0: Graph, g: Graph, g': Graph)
    requires Distributed(g, g') && g.states == g0.states && g.acts == g0.acts
    ensures Distributed(g0, g')
  {
    hide InChain;
    var chains :| EachOnce(g, g', chains);
    forall s | s in chains
      ensures HoldsChain(g0, g', s, chains[s])
    {
      assert HoldsChain(g, g', s, chains[s]);
    }
    assert EachOnce(g0, g', chains);
  }

  lemma SplitEnds(g0: Graph, g: Graph, g': Graph, chains: map<int, seq<int>>)
    requires SelfCompleted(g0, g, g0.states) && Total(g) && SplitSoFar(g, g', g0.states, {}, chains)
    requires forall s: int, w: World :: Next(g, s, w) == Next(g0, s, w)
    ensures g0.states <= g'.states && g'.clusters == g0.clusters && Total(g')
    ensures forall s | s in g'.states :: |g'.Acts(s)| <= 1
    ensures forall s, c | s in g'.states && c in g'.Acts(s) :: CallbackOf(g0, g0.states, c)
    ensures forall s: int, w: World | s in g0.states :: Stutters(g0, g', s, w)
    ensures Distributed(g0, g')
  {
    hide Distributed, InChain;
    SplitDistributes(g, g', chains);
    DistributedSame(g0, g, g');
    forall s, c | s in g'.states && c in g'.Acts(s)
      ensures CallbackOf(g0, g0.states, c)
    {
      assert CallbackOf(g, g0.states, c);
      var q :| q in g0.states && c in g.Acts(q);
      assert c in g0.Acts(q);
    }
    forall s: int, w: World | s in g0.states
      ensures Stutters(g0, g', s, w)
    {
      SplitStutters(g0, g, g', chains, s, w);
    }
  }
}
