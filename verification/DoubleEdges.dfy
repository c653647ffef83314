/** Machines that never have two transitions between the same states, and complements. */
module DoubleEdges {
  import opened Terms
  import opened Graphs
  import opened Bottlenecks
  import opened Machines

  ghost predicate OnePerPair(es: seq<Edge>) {
    forall i, j | 0 <= i < j < |es| :: !SamePair(es[i], es[j])
  }

  /** Some transition from a to b is enabled. */
  predicate Enabled(es: seq<Edge>, a: int, b: int, w: World) {
    exists e | e in es :: e.src == a && e.dst == b && Holds(e.cond, w)
  }

  predicate Joined(es: seq<Edge>, a: int, b: int) {
    exists e | e in es :: e.src == a && e.dst == b
  }

  /** Adding transition after transition with double edges prohibited. */
  function MergeAll(es: seq<Edge>, added: seq<Edge>): seq<Edge> {
    if added == [] then es else Merge(MergeAll(es, added[..|added| - 1]), added[|added| - 1])
  }

  /** Where a merged transition ends up: at its pair, or at the end. */
  lemma {:induction false} MergeShape(es: seq<Edge>, e: Edge)
    ensures !HasPair(es, e) ==> Merge(es, e) == es + [e]
    ensures HasPair(es, e) ==>
      |Merge(es, e)| == |es| && forall i | 0 <= i < |es| :: SamePair(Merge(es, e)[i], es[i])
  {
    if es == [] {
    } else if SamePair(es[0], e) {
      assert es[0] in es;
    } else {
      MergeShape(es[1..], e);
      assert HasPair(es, e) <==> HasPair(es[1..], e) by {
        assert forall d | d in es :: d == es[0] || d in es[1..];
      }
      assert es == [es[0]] + es[1..];
    }
  }

  lemma MergeKeepsOne(es: seq<Edge>, e: Edge)
    requires OnePerPair(es)
    ensures OnePerPair(Merge(es, e))
  {
    MergeShape(es, e);
  }

  lemma {:induction false} MergeEnables(es: seq<Edge>, e: Edge, a: int, b: int, w: World)
    ensures Enabled(Merge(es, e), a, b, w) <==> Enabled(es, a, b, w) || (e.src == a && e.dst == b && Holds(e.cond, w))
  {
    if es == [] {
    } else {
      var d, rest := es[0], es[1..];
      assert es == [d] + rest;
      EnabledCons(d, rest, a, b, w);
      if SamePair(d, e) {
        var d' := if d.cond == e.cond then d else Edge(d.src, d.dst, Bin(Or, d.cond, e.cond));
        EnabledCons(d', rest, a, b, w);
        assert Holds(Bin(Or, d.cond, e.cond), w) <==> Holds(d.cond, w) || Holds(e.cond, w);
      } else {
        MergeEnables(rest, e, a, b, w);
        EnabledCons(d, Merge(rest, e), a, b, w);
      }
    }
  }

  lemma EnabledCons(d: Edge, rest: seq<Edge>, a: int, b: int, w: World)
    ensures Enabled([d] + rest, a, b, w) <==> Enabled(rest, a, b, w) || (d.src == a && d.dst == b && Holds(d.cond, w))
  {
    var all := [d] + rest;
    assert forall e :: e in all <==> e == d || e in rest;
    if d.src == a && d.dst == b && Holds(d.cond, w) {
      assert d in all;
    }
    if Enabled(rest, a, b, w) {
      var e :| e in rest && e.src == a && e.dst == b && Holds(e.cond, w);
      assert e in all;
    }
  }

  /** With double edges prohibited from the start there is one transition for every pair of states
      that was ever joined, enabled exactly when some condition added for that pair holds. */
  lemma {:induction false} OneEdgePerPair(added: seq<Edge>, a: int, b: int, w: World)
    ensures OnePerPair(MergeAll([], added))
    ensures Enabled(MergeAll([], added), a, b, w) <==> Enabled(added, a, b, w)
  {
    if added != [] {
      var rest, e := added[..|added| - 1], added[|added| - 1];
      OneEdgePerPair(rest, a, b, w);
      MergeKeepsOne(MergeAll([], rest), e);
      MergeEnables(MergeAll([], rest), e, a, b, w);
      assert added == rest + [e];
      if Enabled(rest, a, b, w) {
        var d :| d in rest && d.src == a && d.dst == b && Holds(d.cond, w);
        assert d in added;
      }
      if Enabled(added, a, b, w) {
        var d :| d in added && d.src == a && d.dst == b && Holds(d.cond, w);
        assert d in rest || d == e;
      }
      assert e in added;
    }
  }

  /** What addTransition does to the value of such a machine. */
  lemma AddingIsMerging(g: Graph, e: Edge)
    ensures AddEdge(g, e, true, true).edges == Merge(g.edges, e)
  {
    MergeShape(g.edges, e);
  }

  // ----- runs of changes to a machine

  /** A change to the transitions of a machine. */
  datatype Change =
    | Adding(edge: Edge, evenUnnecessary: bool)
    | Deleting(k: nat)
    | Dropping(id: int)

  /** The value of a machine after a change, merge saying whether it prohibits double edges; there is
      no transition to delete beyond the last one. */
  function Changed(g: Graph, change: Change, merge: bool): Graph {
    match change
    case Adding(e, evenUnnecessary) => AddEdge(g, e, merge, evenUnnecessary)
    case Deleting(k) => if k < |g.edges| then g.(edges := g.edges[..k] + g.edges[k + 1..]) else g
    case Dropping(id) => DropState(g, id)
  }

  function AfterAll(g: Graph, changes: seq<Change>, merge: bool): Graph {
    if changes == [] then g
    else Changed(AfterAll(g, changes[..|changes| - 1], merge), changes[|changes| - 1], merge)
  }

  ghost predicate NoneTwice(es: seq<Edge>) {
    forall i, j | 0 <= i < j < |es| :: es[i] != es[j]
  }

  /** What a machine promises about its transitions. */
  ghost predicate Tidy(es: seq<Edge>, merge: bool) {
    if merge then OnePerPair(es) else NoneTwice(es)
  }

  lemma {:induction false} WithoutKeepsNone(es: seq<Edge>, gone: set<int>)
    requires NoneTwice(es)
    ensures NoneTwice(Without(es, gone))
  {
    if es != [] {
      var rest, e := es[..|es| - 1], es[|es| - 1];
      WithoutKeepsNone(rest, gone);
      WithoutMembers(rest, gone);
      assert e !in rest;
    }
  }

  lemma {:induction false} WithoutKeepsOne(es: seq<Edge>, gone: set<int>)
    requires OnePerPair(es)
    ensures OnePerPair(Without(es, gone))
  {
    if es != [] {
      var rest, e := es[..|es| - 1], es[|es| - 1];
      WithoutKeepsOne(rest, gone);
      WithoutMembers(rest, gone);
      forall d | d in Without(rest, gone)
        ensures !SamePair(d, e)
      {
        var i :| 0 <= i < |rest| && rest[i] == d;
        assert !SamePair(es[i], es[|es| - 1]);
      }
    }
  }

  lemma ChangeKeepsTidy(g: Graph, change: Change, merge: bool)
    requires Tidy(g.edges, merge)
    ensures Tidy(Changed(g, change, merge).edges, merge)
  {
    match change
    case Adding(e, evenUnnecessary) =>
      if merge {
        MergeKeepsOne(g.edges, e);
        MergeShape(g.edges, e);
      }
    case Deleting(_) =>
    case Dropping(id) =>
      if merge {
        WithoutKeepsOne(g.edges, {id});
      } else {
        WithoutKeepsNone(g.edges, {id});
      }
  }

  /** However transitions and states come and go, no transition is ever there twice, and with double
      edges prohibited no two transitions ever join the same states. */
  lemma {:induction false} ChangesKeepTidy(g: Graph, changes: seq<Change>, merge: bool)
    requires Tidy(g.edges, merge)
    ensures Tidy(AfterAll(g, changes, merge).edges, merge)
  {
    if changes != [] {
      ChangesKeepTidy(g, changes[..|changes| - 1], merge);
      ChangeKeepsTidy(AfterAll(g, changes[..|changes| - 1], merge), changes[|changes| - 1], merge);
    }
  }

  lemma MergeJoins(es: seq<Edge>, e: Edge, a: int, b: int)
    requires HasPair(es, e)
    ensures Joined(Merge(es, e), a, b) <==> Joined(es, a, b)
  {
    MergeShape(es, e);
    var es' := Merge(es, e);
    if Joined(es, a, b) {
      var i :| 0 <= i < |es| && es[i].src == a && es[i].dst == b;
      assert SamePair(es'[i], es[i]) && es'[i] in es';
    }
    if Joined(es', a, b) {
      var i :| 0 <= i < |es'| && es'[i].src == a && es'[i].dst == b;
      assert SamePair(es'[i], es[i]) && es[i] in es;
    }
  }

  /** A transition from a state to itself that was not asked for in any case is not added, and no step
      can tell the difference. */
  lemma UnnecessaryLoop(g: Graph, s: int, c: Expr, merge: bool, p: int, w: World)
    ensures Joined(AddEdge(g, Edge(s, s, c), merge, false).edges, p, p) <==> Joined(g.edges, p, p)
    ensures Next(AddEdge(g, Edge(s, s, c), merge, false), p, w) == Next(AddEdge(g, Edge(s, s, c), merge, true), p, w)
  {
    hide Joined, Merge, HasPair, Out, First;
    var e := Edge(s, s, c);
    AddEdgeCases(g, e, merge, false);
    AddEdgeCases(g, e, merge, true);
    if merge && HasPair(g.edges, e) {
      MergeJoins(g.edges, e, p, p);
    }
    FirstSnoc(Out(g.edges, p), e, w, {});
    OutSnoc(g.edges, e);
  }

  lemma {:induction false} RemovingAt(ts: seq<FsmTransition>, k: nat)
    requires Distinct(ts) && k < |ts|
    ensures Removing(ts, {ts[k]}) == ts[..k] + ts[k + 1..]
  {
    var n := |ts| - 1;
    var rest := ts[..n];
    if k == n {
      RemovingNothing(rest, {ts[k]});
    } else {
      RemovingAt(rest, k);
      assert rest[..k] + rest[k + 1..] + [ts[n]] == ts[..k] + ts[k + 1..];
    }
  }

  lemma EdgesWithout(ts: seq<FsmTransition>, k: nat)
    requires Distinct(ts) && k < |ts|
    ensures EdgesOf(Removing(ts, {ts[k]})) == EdgesOf(ts)[..k] + EdgesOf(ts)[k + 1..]
    ensures AsSet(Removing(ts, {ts[k]})) <= AsSet(ts)
  {
    hide EdgesOf, Removing, Distinct;
    RemovingAt(ts, k);
    RemovingMembers(ts, {ts[k]});
    var left, es := ts[..k] + ts[k + 1..], EdgesOf(ts);
    forall i | 0 <= i < |left|
      ensures EdgesOf(left)[i] == (es[..k] + es[k + 1..])[i]
    {
      assert left[i] == if i < k then ts[i] else ts[i + 1];
    }
  }

  lemma ValidIsDistinct(m: Fsm)
    requires m.Valid()
    ensures Distinct(m.plain) && EdgesOf(m.plain) == m.model.edges && |m.model.edges| == |m.plain|
  {
    hide BySource, ByDestination, Consistent;
  }

  method DeleteAt(m: Fsm, k: nat)
    requires m.Valid() && k < |m.plain|
    modifies m`plain, m`outgoing, m`incoming, m`model
    ensures m.Valid() && AsSet(m.plain) <= old(AsSet(m.plain))
    ensures m.model == old(m.model).(edges := old(EdgesOf(m.plain))[..k] + old(EdgesOf(m.plain))[k + 1..])
  {
    hide Fsm.Valid, Removing, EdgesOf, Distinct, AsSet;
    ValidIsDistinct(m);
    EdgesWithout(m.plain, k);
    var t := m.plain[k];
    ghost var g, es, left := m.model, EdgesOf(m.plain), Removing(m.plain, {t});
    ghost var fewer := es[..k] + es[k + 1..];
    assert EdgesOf(left) == fewer && AsSet(left) <= AsSet(m.plain);
    m.RemoveTransition(t);
    assert m.plain == left && EdgesOf(left) == fewer;
    assert m.model == g.(edges := fewer);
  }

  method Delete(m: Fsm, k: nat)
    requires m.Valid()
    modifies m`plain, m`outgoing, m`incoming, m`model
    ensures m.Valid() && forall merge :: m.model == Changed(old(m.model), Deleting(k), merge)
    ensures AsSet(m.plain) <= old(AsSet(m.plain))
  {
    hide Fsm.Valid, EdgesOf, AsSet;
    ValidIsDistinct(m);
    if k < |m.plain| {
      DeleteAt(m, k);
    }
  }

  method Perform(m: Fsm, change: Change)
    requires m.Valid()
    modifies m`plain, m`outgoing, m`incoming, m`states, m`model, m`acts, m`clusters, AsSet(m.plain)
    ensures m.Valid() && m.model == Changed(old(m.model), change, m.prohibitDoubleEdges)
    ensures fresh(AsSet(m.plain) - old(AsSet(m.plain)))
  {
    hide AddEdge, DropState, Fsm.Valid, Listed;
    match change
    case Adding(e, evenUnnecessary) => m.AddTransition(e.src, e.dst, e.cond, evenUnnecessary);
    case Deleting(k) => Delete(m, k);
    case Dropping(id) => m.RemoveState(id);
  }

  /** A machine never has a transition twice, and if it prohibits double edges never two transitions
      between the same states. */
  method PerformAll(m: Fsm, changes: seq<Change>)
    requires m.Valid() && Tidy(m.model.edges, m.prohibitDoubleEdges)
    modifies m`plain, m`outgoing, m`incoming, m`states, m`model, m`acts, m`clusters, AsSet(m.plain)
    ensures m.Valid() && m.model == AfterAll(old(m.model), changes, m.prohibitDoubleEdges)
    ensures Tidy(m.model.edges, m.prohibitDoubleEdges)
  {
    hide Fsm.Valid, Changed, Tidy;
    for i := 0 to |changes|
      invariant m.Valid() && m.model == AfterAll(old(m.model), changes[..i], m.prohibitDoubleEdges)
      invariant fresh(AsSet(m.plain) - old(AsSet(m.plain)))
    {
      assert changes[..i + 1][..i] == changes[..i];
      Perform(m, changes[i]);
    }
    assert changes[..|changes|] == changes;
    ChangesKeepTidy(old(m.model), changes, m.prohibitDoubleEdges);
  }

  // ----- complement

  /** Whether a pair of states takes part in the complement. */
  predicate Considered(states: set<int>, ignoreInvalid: bool, a: int, b: int) {
    a in states && b in states && (ignoreInvalid ==> a != INVALID_STATE && b != INVALID_STATE)
  }

  /** The pairs that are not joined. */
  function Complement(g: Graph, ignoreInvalid: bool): set<(int, int)> {
    set a, b | a in g.states && b in g.states && Considered(g.states, ignoreInvalid, a, b) && !Joined(g.edges, a, b) :: (a, b)
  }

  /** The transitions of g' are unconditional ones between exactly these pairs, one for each. */
  ghost predicate Joins(g: Graph, pairs: set<(int, int)>) {
    && OnePerPair(g.edges)
    && (forall e | e in g.edges :: e.cond == TRUE && (e.src, e.dst) in pairs)
    && (forall p | p in pairs :: Joined(g.edges, p.0, p.1))
  }

  lemma JoinedSnoc(es: seq<Edge>, e: Edge)
    ensures forall a, b :: Joined(es + [e], a, b) <==> Joined(es, a, b) || (e.src == a && e.dst == b)
  {
    var all := es + [e];
    assert forall d :: d in all <==> d in es || d == e;
    assert e in all;
    forall a, b | Joined(es, a, b)
      ensures Joined(all, a, b)
    {
      var d :| d in es && d.src == a && d.dst == b;
      assert d in all;
    }
  }

  lemma ComplementIs(g: Graph, ignoreInvalid: bool, pairs: set<(int, int)>)
    requires forall a, b :: (a, b) in pairs <==> Considered(g.states, ignoreInvalid, a, b) && !Joined(g.edges, a, b)
    ensures pairs == Complement(g, ignoreInvalid)
  {
    var complement := Complement(g, ignoreInvalid);
    forall a, b
      ensures (a, b) in pairs <==> (a, b) in complement
    {}
    forall p | p in pairs
      ensures p in complement
    {
      assert (p.0, p.1) in pairs;
    }
    forall p | p in complement
      ensures p in pairs
    {
      assert (p.0, p.1) in complement;
    }
  }

  lemma JoinsMeans(g: Graph, pairs: set<(int, int)>, a: int, b: int)
    requires Joins(g, pairs)
    ensures Joined(g.edges, a, b) <==> (a, b) in pairs
  {
    if (a, b) in pairs {
      assert Joined(g.edges, (a, b).0, (a, b).1);
    }
  }

  /** What was joined no longer is, and the other way round: among all states, or among all but the
      invalid one.  A state may be joined with itself. */
  lemma ComplementPairs(g: Graph, g': Graph, ignoreInvalid: bool)
    requires g'.states == g.states && Joins(g', Complement(g, ignoreInvalid))
    ensures var states := if ignoreInvalid then g.states - {INVALID_STATE} else g.states;
      forall a, b :: Joined(g'.edges, a, b) <==> a in states && b in states && !Joined(g.edges, a, b)
  {
    forall a, b
      ensures Joined(g'.edges, a, b) <==> (a, b) in Complement(g, ignoreInvalid)
    {
      JoinsMeans(g', Complement(g, ignoreInvalid), a, b);
    }
  }

  /** Complementing twice joins, among the states that take part, the pairs that were joined. */
  lemma ComplementTwice(g: Graph, g': Graph, g'': Graph, ignoreInvalid: bool, a: int, b: int)
    requires g'.states == g.states && Joins(g', Complement(g, ignoreInvalid))
    requires g''.states == g.states && Joins(g'', Complement(g', ignoreInvalid))
    ensures Joined(g''.edges, a, b) <==> Considered(g.states, ignoreInvalid, a, b) && Joined(g.edges, a, b)
  {
    JoinsMeans(g', Complement(g, ignoreInvalid), a, b);
    JoinsMeans(g'', Complement(g', ignoreInvalid), a, b);
  }

  method PairsNotJoined(m: Fsm, ignoreInvalid: bool) returns (complement: set<(int, int)>)
    requires m.Valid()
    ensures complement == Complement(m.model, ignoreInvalid)
  {
    ghost var g := m.model;
    var states := m.states;
    assert EdgesOf(m.plain) == g.edges && states == g.states;
    hide Fsm.Valid, EdgesOf;
    complement := set a, b | a in states && b in states && Considered(states, ignoreInvalid, a, b) :: (a, b);
    for i := 0 to |m.plain|
      invariant forall a, b :: (a, b) in complement <==>
          Considered(states, ignoreInvalid, a, b) && !Joined(g.edges[..i], a, b)
    {
      var t := m.plain[i];
      assert g.edges[i] == t.AsEdge();
      assert g.edges[..i + 1] == g.edges[..i] + [g.edges[i]];
      JoinedSnoc(g.edges[..i], g.edges[i]);
      complement := complement - {(t.source, t.destination)};
    }
    assert g.edges[..|m.plain|] == g.edges;
    ComplementIs(g, ignoreInvalid, complement);
  }

  lemma JoinAnother(g: Graph, g': Graph, done: set<(int, int)>, a: int, b: int, merge: bool)
    requires Joins(g, done) && (a, b) !in done && a in g.states && b in g.states
    requires g' == AddEdge(g, Edge(a, b, TRUE), merge, true)
    ensures Joins(g', done + {(a, b)}) && g' == g.(edges := g'.edges)
  {
    var e := Edge(a, b, TRUE);
    assert !HasPair(g.edges, e) by {
      forall d | d in g.edges
        ensures !SamePair(d, e)
      {
        assert (d.src, d.dst) in done;
      }
    }
    assert e !in g.edges;
    assert g'.edges == g.edges + [e];
    assert g.states + {a, b} == g.states;
    JoinedSnoc(g.edges, e);
    forall i | 0 <= i < |g.edges|
      ensures !SamePair(g.edges[i], e)
    {
      assert g.edges[i] in g.edges;
    }
  }

  method JoinPair(m: Fsm, a: int, b: int, ghost done: set<(int, int)>)
    requires m.Valid() && Joins(m.model, done) && (a, b) !in done && a in m.model.states && b in m.model.states
    modifies m`plain, m`outgoing, m`incoming, m`states, m`model
    modifies if m.prohibitDoubleEdges then AsSet(m.plain) else {}
    ensures m.Valid() && m.model == old(m.model).(edges := m.model.edges)
    ensures Joins(m.model, done + {(a, b)})
    ensures fresh(AsSet(m.plain) - old(AsSet(m.plain)))
  {
    hide Fsm.Valid, AddEdge, Joins, Listed;
    ghost var before := m.model;
    m.AddTransition(a, b, TRUE);
    JoinAnother(before, m.model, done, a, b, m.prohibitDoubleEdges);
  }

  lemma PairsInside(g: Graph, ignoreInvalid: bool)
    ensures forall p | p in Complement(g, ignoreInvalid) :: p.0 in g.states && p.1 in g.states
    ensures Joins(g.(edges := []), {})
  {}

  /** Replaces all transitions by unconditional ones between the states that were not joined. */
  method CreateComplementOfTransitions(m: Fsm, ignoreInvalid: bool)
    requires m.Valid()
    modifies m`plain, m`outgoing, m`incoming, m`states, m`model
    modifies if m.prohibitDoubleEdges then AsSet(m.plain) else {}
    ensures m.Valid()
    ensures m.model == old(m.model).(edges := m.model.edges)
    ensures Joins(m.model, Complement(old(m.model), ignoreInvalid))
    ensures var states := if ignoreInvalid then m.model.states - {INVALID_STATE} else m.model.states;
      forall a, b :: Joined(m.model.edges, a, b) <==> a in states && b in states && !Joined(old(m.model).edges, a, b)
  {
    hide Fsm.Valid, Complement, Joins;
    ghost var g := m.model;
    PairsInside(g, ignoreInvalid);
    var complement := PairsNotJoined(m, ignoreInvalid);
    Clear(m);
    var todo := complement;
    assert complement - todo == {};
    while todo != {}
      invariant todo <= complement && m.Valid()
      invariant m.model == g.(edges := m.model.edges) && Joins(m.model, complement - todo)
      invariant fresh(AsSet(m.plain))
      decreases todo
    {
      var p := Pick(todo);
      assert p == (p.0, p.1);
      ghost var done := complement - todo;
      JoinPair(m, p.0, p.1, done);
      todo := todo - {p};
      assert complement - todo == done + {(p.0, p.1)};
    }
    assert complement - todo == complement;
    ComplementPairs(g, m.model, ignoreInvalid);
  }

  method Clear(m: Fsm)
    requires m.Valid()
    modifies m`plain, m`outgoing, m`incoming, m`model
    ensures m.Valid() && m.plain == [] && m.model == old(m.model).(edges := [])
  {
    m.plain, m.outgoing, m.incoming := [], map[], map[];
    m.model := m.model.(edges := []);
  }
}
