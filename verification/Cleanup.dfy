/** cleanupCBBottleneckStates on the machine object: a pass over one cluster bypasses the states that
    execute nothing, by composing what enters them with what leaves them, and removes them together;
    passes are repeated until one finds nothing. */
module Cleanup {
  import opened Options
  import opened Terms
  import opened Programs
  import opened Graphs
  import opened Bottlenecks
  import opened Machines

  /** The callback states that execute nothing. */
  ghost function Idle(g: Graph): set<int> {
    set s | s in g.states && g.InCluster(s) && g.Acts(s) == []
  }

  /** What the states of a machine must satisfy for its idle callback states to be removable. */
  ghost predicate Removable(g: Graph) {
    Consistent(g) && Guarded(g.edges, Idle(g), {})
  }

  /** Idle callback states never hold the machine for ever. */
  ghost predicate AlwaysLeft(g: Graph) {
    Left(g.edges, Idle(g))
  }

  /** Every step of g that comes to an end ends in the same way in g'. */
  ghost predicate StepsKept(g: Graph, g': Graph) {
    forall p: int, w: World, f: nat :: p in g'.states && Macro(g, p, w, f).Some? ==> Macro(g', p, w, f) == Macro(g, p, w, f)
  }

  /** Every step is the same in g and g', whether it comes to an end or not. */
  ghost predicate StepsSame(g: Graph, g': Graph) {
    forall p: int, w: World :: p in g'.states ==> Step(g', p, w) == Step(g, p, w)
  }

  /** What a clean-up promises: steps that end are kept, and all steps are if idle states are left. */
  ghost predicate Cleaned(g: Graph, g': Graph) {
    && StepsKept(g, g') && OnlyClusterStatesLost(g, g')
    && (AlwaysLeft(g) ==> StepsSame(g, g') && AlwaysLeft(g'))
  }

  ghost predicate OnlyClusterStatesLost(g: Graph, g': Graph) {
    && g'.states <= g.states
    && (forall s | s in g.states && s !in g'.states :: g.InCluster(s))
    && (forall s | s in g'.states :: g'.Acts(s) == g.Acts(s) && (g'.InCluster(s) <==> g.InCluster(s)))
  }

  lemma CleanedTwice(a: Graph, b: Graph, c: Graph)
    requires Cleaned(a, b) && Cleaned(b, c)
    ensures Cleaned(a, c) && OnlyClusterStatesLost(a, b) && OnlyClusterStatesLost(b, c)
  {
    hide Macro, Step, AlwaysLeft;
  }

  // ----- bypassing one state

  /** Connect where t comes from with everything outs lead to. */
  method ConnectBridges(m: Fsm, t: FsmTransition, outs: seq<FsmTransition>, ghost g: Graph, ghost news: seq<Edge>)
    requires m.Valid() && !m.prohibitDoubleEdges
    requires m.model == g.(edges := InsertAll(g.edges, news))
    requires t.source in g.states && forall u | u in outs :: u.destination in g.states
    modifies m`plain, m`outgoing, m`incoming, m`states, m`model
    ensures m.Valid()
    ensures m.model == g.(edges := InsertAll(g.edges, news + Bridges(t.AsEdge(), EdgesOf(outs))))
  {
    hide Fsm.Valid, InsertAll, Bridges, AddEdge, EdgesOf;
    ghost var e, ex := t.AsEdge(), EdgesOf(outs);
    BridgesNone(e, ex, news);
    for j := 0 to |outs|
      invariant m.Valid()
      invariant m.model == g.(edges := InsertAll(g.edges, news + Bridges(e, ex[..j])))
    {
      assert outs[j] in outs;
      AddBridge(g, news, e, ex, j);
      var cond1, cond2 := t.condition, outs[j].condition;
      m.AddTransition(t.source, outs[j].destination,
        if AlwaysTrue(cond1) then cond2 else if AlwaysTrue(cond2) then cond1 else Bin(And, cond1, cond2));
    }
    assert ex[..|outs|] == ex;
  }

  /** Connect everything that enters id with everything that leaves it. */
  method BypassState(m: Fsm, id: int, ins: seq<FsmTransition>, outs: seq<FsmTransition>)
    requires m.Valid() && !m.prohibitDoubleEdges
    requires EdgesOf(ins) == In(m.model.edges, id) && EdgesOf(outs) == Out(m.model.edges, id)
    modifies m`plain, m`outgoing, m`incoming, m`states, m`model
    ensures m.Valid()
    ensures m.model == old(m.model).(edges := Bypass(old(m.model).edges, id))
  {
    hide Fsm.Valid, InsertAll, Bridges, Products, EdgesOf, In, Out, Consistent;
    ghost var g, en, ex := m.model, EdgesOf(ins), EdgesOf(outs);
    ValidIsConsistent(m);
    Endpoints(g, id, ins, outs);
    AddNothing(g, ex);
    for i := 0 to |ins|
      invariant m.Valid()
      invariant m.model == g.(edges := InsertAll(g.edges, Products(en[..i], ex)))
    {
      assert ins[i] in ins;
      AddBridges(en, ex, i);
      ConnectBridges(m, ins[i], outs, g, Products(en[..i], ex));
    }
    assert en[..|ins|] == en;
  }

  lemma Endpoints(g: Graph, id: int, ins: seq<FsmTransition>, outs: seq<FsmTransition>)
    requires Consistent(g) && EdgesOf(ins) == In(g.edges, id) && EdgesOf(outs) == Out(g.edges, id)
    ensures forall t | t in ins :: t.source in g.states
    ensures forall t | t in outs :: t.destination in g.states
  {
    InMembers(g.edges, id);
    OutMembers(g.edges, id);
    forall t | t in ins
      ensures t.source in g.states
    {
      assert t.AsEdge() in EdgesOf(ins);
    }
    forall t | t in outs
      ensures t.destination in g.states
    {
      assert t.AsEdge() in EdgesOf(outs);
    }
  }

  lemma AddNothing(g: Graph, ex: seq<Edge>)
    ensures InsertAll(g.edges, Products([], ex)) == g.edges
  {
  }

  lemma BridgesNone(e: Edge, ex: seq<Edge>, news: seq<Edge>)
    ensures news + Bridges(e, ex[..0]) == news
  {
  }

  lemma AddBridge(g: Graph, news: seq<Edge>, e: Edge, ex: seq<Edge>, j: nat)
    requires j < |ex| && e.src in g.states && ex[j].dst in g.states
    ensures AddEdge(g.(edges := InsertAll(g.edges, news + Bridges(e, ex[..j]))),
                    Edge(e.src, ex[j].dst, Conjoin(e.cond, ex[j].cond)), false, true)
         == g.(edges := InsertAll(g.edges, news + Bridges(e, ex[..j + 1])))
  {
    var n := Edge(e.src, ex[j].dst, Conjoin(e.cond, ex[j].cond));
    assert ex[..j + 1][..j] == ex[..j];
    assert news + (Bridges(e, ex[..j]) + [n]) == (news + Bridges(e, ex[..j])) + [n];
    InsertAllLast(g.edges, news + Bridges(e, ex[..j]), n);
    assert g.states + {n.src, n.dst} == g.states;
  }

  lemma AddBridges(en: seq<Edge>, ex: seq<Edge>, i: nat)
    requires i < |en|
    ensures Products(en[..i + 1], ex) == Products(en[..i], ex) + Bridges(en[i], ex)
  {
    assert en[..i + 1][..i] == en[..i];
  }

  // ----- removing what was bypassed

  function DropStates(g: Graph, ids: seq<int>): Graph {
    if ids == [] then g else DropState(DropStates(g, ids[..|ids| - 1]), ids[|ids| - 1])
  }

  function Ids(ids: seq<int>): set<int> {
    set i | i in ids
  }

  method RemoveStates(m: Fsm, ids: seq<int>)
    requires m.Valid()
    modifies m`plain, m`outgoing, m`incoming, m`model, m`acts, m`states, m`clusters
    ensures m.Valid()
    ensures m.model == DropStates(old(m.model), ids)
  {
    hide Fsm.Valid, DropState;
    for i := 0 to |ids|
      invariant m.Valid()
      invariant m.model == DropStates(old(m.model), ids[..i])
    {
      assert ids[..i + 1][..i] == ids[..i];
      m.RemoveState(ids[i]);
    }
    assert ids[..|ids|] == ids;
  }

  lemma {:induction false} WithoutTwice(es: seq<Edge>, a: set<int>, b: int)
    ensures Without(Without(es, a), {b}) == Without(es, a + {b})
  {
    if es != [] {
      WithoutTwice(es[..|es| - 1], a, b);
    }
  }

  lemma {:induction false} WithoutNothing(es: seq<Edge>)
    ensures Without(es, {}) == es
  {
    if es != [] {
      WithoutNothing(es[..|es| - 1]);
    }
  }

  lemma {:induction false} DropStatesIs(g: Graph, ids: seq<int>)
    ensures var g' := DropStates(g, ids);
            && g'.states == g.states - Ids(ids)
            && g'.edges == Without(g.edges, Ids(ids))
            && (forall s | s !in ids :: g'.Acts(s) == g.Acts(s) && (g'.InCluster(s) <==> g.InCluster(s)))
            && g'.clusters.Keys == g.clusters.Keys
            && (forall k | k in g.clusters :: g'.clusters[k] == g.clusters[k] - Ids(ids))
  {
    if ids == [] {
      assert Ids(ids) == {};
      WithoutNothing(g.edges);
    } else {
      var rest, b := ids[..|ids| - 1], ids[|ids| - 1];
      var h, g' := DropStates(g, rest), DropStates(g, ids);
      DropStatesIs(g, rest);
      WithoutTwice(g.edges, Ids(rest), b);
      assert ids == rest + [b];
      assert Ids(ids) == Ids(rest) + {b};
      assert g.states - Ids(ids) == (g.states - Ids(rest)) - {b};
      forall k | k in g.clusters
        ensures g'.clusters[k] == g.clusters[k] - Ids(ids)
      {
        assert g.clusters[k] - Ids(ids) == (g.clusters[k] - Ids(rest)) - {b};
      }
      forall s
        ensures g'.InCluster(s) <==> s != b && h.InCluster(s)
      {
        if h.InCluster(s) {
          var k :| k in h.clusters && s in h.clusters[k];
          assert k in g'.clusters;
        }
        if g'.InCluster(s) {
          var k :| k in g'.clusters && s in g'.clusters[k];
          assert k in h.clusters;
        }
      }
    }
  }

  lemma PassStarts(g: Graph)
    requires Removable(g)
    ensures PassInvariant(g.edges, g.edges, Idle(g), {})
  {
    forall p: int, w: World
      ensures EndsAlike(g.edges, g.edges, {}, p, w)
    {
      var r := First(Out(g.edges, p), w, {});
      if r.Some? {
        ChaseUnfolds(g.edges, {}, r.value, w);
      }
    }
  }

  /** What a pass that bypassed ids achieves once they are removed. */
  lemma PassDone(g: Graph, es: seq<Edge>, ids: seq<int>)
    requires Removable(g) && PassInvariant(g.edges, es, Idle(g), Ids(ids))
    ensures var g' := DropStates(g.(edges := es), ids);
            && Cleaned(g, g') && (Consistent(g') ==> Removable(g'))
            && g'.clusters.Keys == g.clusters.Keys
            && (forall k | k in g.clusters :: g'.clusters[k] == g.clusters[k] - Ids(ids))
  {
    var gone, g' := Ids(ids), DropStates(g.(edges := es), ids);
    DropStatesIs(g.(edges := es), ids);
    WithoutKeepsGuards(es, Idle(g), gone);
    assert forall s :: g.(edges := es).InCluster(s) <==> g.InCluster(s);
    assert forall s :: g.(edges := es).Acts(s) == g.Acts(s);
    assert Idle(g') == Idle(g) - gone;
    PassIsResult(g, g', es, gone);
    hide Macro, PassResult, PassInvariant, Step;
    forall p: int, w: World, f: nat | p in g'.states && Macro(g, p, w, f).Some?
      ensures Macro(g', p, w, f) == Macro(g, p, w, f)
    {
      PassPreservesSteps(g, g', gone, p, w, f);
    }
    if AlwaysLeft(g) {
      PassKeepsAll(g, g', gone);
    }
  }

  lemma PassKeepsAll(g: Graph, g': Graph, gone: set<int>)
    requires PassResult(g, g', gone) && AlwaysLeft(g) && gone <= Idle(g)
    requires Idle(g') == Idle(g) - gone && g'.states == g.states - gone
    ensures StepsSame(g, g') && AlwaysLeft(g')
  {
    LeftEscapes(g.edges, Idle(g), gone);
    forall p: int, w: World | p in g'.states
      ensures Step(g', p, w) == Step(g, p, w)
    {
      PassKeepsSteps(g, g', gone, p, w);
    }
    forall t: int, w: World
      ensures IsLeft(g'.edges, Idle(g'), t, w)
    {
      if t in gone {
        assert ChaseFor(g'.edges, Idle(g'), t, w, 0).Some?;
      } else {
        assert IsLeft(g.edges, Idle(g), t, w);
        var n: nat :| ChaseFor(g.edges, Idle(g), t, w, n).Some?;
        LeftAfterwards(g.edges, g'.edges, Idle(g), gone, t, w, n);
      }
    }
  }

  lemma PassIsResult(g: Graph, g': Graph, es: seq<Edge>, gone: set<int>)
    requires PassInvariant(g.edges, es, Idle(g), gone)
    requires g'.edges == Without(es, gone)
    requires forall s | s !in gone :: g'.Acts(s) == g.Acts(s) && (g'.InCluster(s) <==> g.InCluster(s))
    ensures PassResult(g, g', gone)
  {
    forall p: int, w: World | p !in gone
      ensures NextAlike(g.edges, g'.edges, gone, p, w)
    {
      WithoutFirst(es, gone, p, w);
      assert EndsAlike(g.edges, es, gone, p, w);
    }
  }

  // ----- the clean-up

  lemma IdleMember(g: Graph, name: string, id: int)
    requires Consistent(g) && name in g.clusters && id in g.clusters[name] && g.Acts(id) == []
    ensures id in Idle(g)
  {
  }

  /** What makes a state of a callback cluster a bottleneck. */
  predicate IsBottleneck(g: Graph, id: int) {
    && (|In(g.edges, id)| <= 2 || |Out(g.edges, id)| <= 2)
    && In(g.edges, id) != [] && Out(g.edges, id) != []
    && g.Acts(id) == []
  }

  /** A state that does nothing but cannot be bypassed cheaply, or not at all: at least three
      transitions enter it and at least three leave it, or none does one of the two. */
  ghost predicate Crossroads(g: Graph, id: int) {
    In(g.edges, id) == [] || Out(g.edges, id) == [] || (|In(g.edges, id)| >= 3 && |Out(g.edges, id)| >= 3)
  }

  /** The idle states left in the clusters are all of that kind. */
  ghost predicate NothingToBypass(g: Graph) {
    forall k, id | k in g.clusters && id in g.clusters[k] && g.Acts(id) == [] :: Crossroads(g, id)
  }

  lemma NoBottlenecks(g: Graph)
    ensures NothingToBypass(g) <==> forall name :: !HasBottleneck(g, name)
  {
    forall k, id | k in g.clusters && id in g.clusters[k]
      ensures IsBottleneck(g, id) <==> g.Acts(id) == [] && !Crossroads(g, id)
    {}
    if NothingToBypass(g) {
      OnlyClusters(g);
    } else {
      var k, id :| k in g.clusters && id in g.clusters[k] && g.Acts(id) == [] && !Crossroads(g, id);
      assert HasBottleneck(g, k);
    }
  }

  lemma DropNothing(g: Graph)
    ensures DropStates(g, []) == g
  {}

  lemma OnlyClusters(g: Graph)
    ensures forall name :: HasBottleneck(g, name) ==> name in g.clusters
  {}

  predicate HasBottleneck(g: Graph, name: string) {
    name in g.clusters && exists id | id in g.clusters[name] :: IsBottleneck(g, id)
  }

  // ----- what is done, step by step

  /** One iteration over states in the given order: the transitions afterwards, and the states that
      were bottlenecks when their turn came. */
  function PassOver(g: Graph, order: seq<int>): (seq<Edge>, seq<int>) {
    if order == [] then (g.edges, [])
    else
      var (es, ids) := PassOver(g, order[..|order| - 1]);
      var id := order[|order| - 1];
      if IsBottleneck(g.(edges := es), id) then (Bypass(es, id), ids + [id]) else (es, ids)
  }

  /** Every element once. */
  ghost predicate Lists<T(!new)>(order: seq<T>, elements: set<T>) {
    && (forall x :: x in order <==> x in elements)
    && forall i, j | 0 <= i < j < |order| :: order[i] != order[j]
  }

  /** g' is what one pass over the cluster makes of g. */
  ghost predicate IsPass(g: Graph, g': Graph, name: string) {
    name in g.clusters && exists order :: PassedInOrder(g, g', g.clusters[name], order)
  }

  ghost predicate PassedInOrder(g: Graph, g': Graph, states: set<int>, order: seq<int>) {
    Lists(order, states) && g' == DropStates(g.(edges := PassOver(g, order).0), PassOver(g, order).1)
  }

  /** g' is what n passes make of g, each of which found something. */
  ghost predicate Passes(g: Graph, g': Graph, name: string, n: nat)
    decreases n
  {
    if n == 0 then g' == g
    else exists mid :: Passes(g, mid, name, n - 1) && HasBottleneck(mid, name) && IsPass(mid, g', name)
  }

  /** Passes were repeated until nothing was left in the cluster. */
  ghost predicate ClusterCleaned(g: Graph, g': Graph, name: string) {
    (exists n: nat :: Passes(g, g', name, n)) && !HasBottleneck(g', name)
  }

  /** The clusters were cleaned one after the other, each starting from what the one before left. */
  ghost predicate CleanedInOrder(stages: seq<Graph>, order: seq<string>) {
    && |stages| == |order| + 1
    && forall i | 0 <= i < |order| :: ClusterCleaned(stages[i], stages[i + 1], order[i])
  }

  /** All of them were, once each. */
  ghost predicate AllCleaned(g: Graph, g': Graph) {
    exists stages, order ::
      && CleanedInOrder(stages, order) && Lists(order, g.clusters.Keys)
      && stages[0] == g && stages[|order|] == g'
  }

  // ----- clusters that do not touch

  /** No state is in two clusters, and no transition joins states of two clusters. */
  ghost predicate Separated(g: Graph) {
    && (forall j, k | j in g.clusters && k in g.clusters && j != k :: g.clusters[j] !! g.clusters[k])
    && (forall e, j, k | e in g.edges && j in g.clusters && k in g.clusters && e.src in g.clusters[j] && e.dst in g.clusters[k] :: j == k)
  }

  /** The same transitions at all states of clusters other than the one that is worked on. */
  ghost predicate SameElsewhere(g: Graph, es: seq<Edge>, name: string) {
    forall k, p | k in g.clusters && k != name && p in g.clusters[k] :: Out(es, p) == Out(g.edges, p) && In(es, p) == In(g.edges, p)
  }

  lemma BypassSeparated(g: Graph, es: seq<Edge>, name: string, b: int)
    requires name in g.clusters && b in g.clusters[name]
    requires Separated(g.(edges := es)) && SameElsewhere(g, es, name)
    ensures Separated(g.(edges := Bypass(es, b))) && SameElsewhere(g, Bypass(es, b), name)
  {
    var ins, outs := In(es, b), Out(es, b);
    var news := Products(ins, outs);
    hide Products;
    InMembers(es, b);
    OutMembers(es, b);
    InsertAllMembers(es, news);
    forall n, j | n in news && j in g.clusters
      ensures n.src in g.clusters[j] ==> j == name
      ensures n.dst in g.clusters[j] ==> j == name
    {
      var e, f := ProductOrigin(ins, outs, n);
    }
    forall k, p | k in g.clusters && k != name && p in g.clusters[k]
      ensures Out(Bypass(es, b), p) == Out(g.edges, p) && In(Bypass(es, b), p) == In(g.edges, p)
    {
      InsertAllSameOut(es, news, p);
      InsertAllSameIn(es, news, p);
    }
  }

  lemma {:induction false} PassOverSeparated(g: Graph, name: string, order: seq<int>)
    requires name in g.clusters && Separated(g) && forall id | id in order :: id in g.clusters[name]
    ensures Separated(g.(edges := PassOver(g, order).0)) && SameElsewhere(g, PassOver(g, order).0, name)
    ensures forall id | id in PassOver(g, order).1 :: id in g.clusters[name]
  {
    if order == [] {
      assert g.(edges := g.edges) == g;
    } else {
      var front, id := order[..|order| - 1], order[|order| - 1];
      assert order == front + [id];
      PassOverSeparated(g, name, front);
      hide Separated, SameElsewhere, IsBottleneck, Bypass;
      BypassSeparated(g, PassOver(g, front).0, name, id);
    }
  }

  /** A pass over one cluster makes no difference to the bottlenecks of another. */
  lemma PassSeparated(g: Graph, g': Graph, name: string, other: string)
    requires Separated(g) && IsPass(g, g', name)
    ensures Separated(g') && g'.clusters.Keys == g.clusters.Keys
    ensures other != name ==> (HasBottleneck(g', other) <==> HasBottleneck(g, other))
  {
    var order :| PassedInOrder(g, g', g.clusters[name], order);
    var (es, ids) := PassOver(g, order);
    PassOverSeparated(g, name, order);
    DropStatesIs(g.(edges := es), ids);
    WithoutMembers(es, Ids(ids));
    hide PassOver, DropStates, Lists, Without;
    assert Separated(g') by {
      assert forall k | k in g.clusters :: g'.clusters[k] <= g.clusters[k];
    }
    if other in g.clusters && other != name {
      SameBottlenecks(g, g', es, Ids(ids), name, other);
    }
  }

  lemma SameBottlenecks(g: Graph, g': Graph, es: seq<Edge>, gone: set<int>, name: string, other: string)
    requires name in g.clusters && other in g.clusters && other != name
    requires Separated(g.(edges := es)) && SameElsewhere(g, es, name) && forall id | id in gone :: id in g.clusters[name]
    requires g'.edges == Without(es, gone) && other in g'.clusters && g'.clusters[other] == g.clusters[other] - gone
    requires forall s | s !in gone :: g'.Acts(s) == g.Acts(s)
    ensures HasBottleneck(g', other) <==> HasBottleneck(g, other)
  {
    forall p | p in g.clusters[other]
      ensures p in g'.clusters[other] && (IsBottleneck(g', p) <==> IsBottleneck(g, p))
    {
      forall e | e in es && (e.src == p || e.dst == p)
        ensures e.src !in gone && e.dst !in gone
      {}
      WithoutSame(es, gone, p);
    }
  }

  lemma {:induction false} PassesSeparated(g: Graph, g': Graph, name: string, n: nat, other: string)
    requires Separated(g) && Passes(g, g', name, n)
    ensures Separated(g') && g'.clusters.Keys == g.clusters.Keys
    ensures other != name ==> (HasBottleneck(g', other) <==> HasBottleneck(g, other))
    decreases n
  {
    if n > 0 {
      var mid :| Passes(g, mid, name, n - 1) && HasBottleneck(mid, name) && IsPass(mid, g', name);
      hide Separated, HasBottleneck, IsPass;
      PassesSeparated(g, mid, name, n - 1, other);
      PassSeparated(mid, g', name, other);
    }
  }

  lemma ClusterSeparated(g: Graph, g': Graph, name: string, other: string)
    requires Separated(g) && ClusterCleaned(g, g', name)
    ensures Separated(g') && g'.clusters.Keys == g.clusters.Keys && !HasBottleneck(g', name)
    ensures !HasBottleneck(g, other) ==> !HasBottleneck(g', other)
  {
    hide Separated, HasBottleneck, Passes;
    var n: nat :| Passes(g, g', name, n);
    PassesSeparated(g, g', name, n, other);
  }

  /** When clusters do not touch, none of those that were cleaned has a bottleneck again. */
  lemma {:induction false} SeparatedClean(stages: seq<Graph>, order: seq<string>, i: nat)
    requires CleanedInOrder(stages, order) && Separated(stages[0]) && i <= |order|
    ensures Separated(stages[i]) && stages[i].clusters.Keys == stages[0].clusters.Keys
    ensures forall k | k in order[..i] :: !HasBottleneck(stages[i], k)
    decreases i
  {
    hide Separated, HasBottleneck, ClusterCleaned;
    if i > 0 {
      var g, g', name := stages[i - 1], stages[i], order[i - 1];
      SeparatedClean(stages, order, i - 1);
      assert order[..i] == order[..i - 1] + [name];
      assert ClusterCleaned(g, g', name);
      forall k: string
        ensures Separated(g') && g'.clusters.Keys == g.clusters.Keys && !HasBottleneck(g', name)
        ensures !HasBottleneck(g, k) ==> !HasBottleneck(g', k)
      {
        ClusterSeparated(g, g', name, k);
      }
      assert Separated(g') && !HasBottleneck(g', name) by {
        ClusterSeparated(g, g', name, name);
      }
    }
  }

  lemma AllCleanedSeparated(g: Graph, g': Graph)
    requires Separated(g) && AllCleaned(g, g')
    ensures Separated(g') && forall name :: !HasBottleneck(g', name)
  {
    var stages, order :| CleanedInOrder(stages, order) && Lists(order, g.clusters.Keys)
      && stages[0] == g && stages[|order|] == g';
    SeparatedClean(stages, order, |order|);
    assert order[..|order|] == order;
    OnlyClusters(g');
  }

  // ----- the methods

  lemma SeenFromLists(m: Fsm, id: int)
    requires m.Valid()
    ensures IsBottleneck(m.model, id) <==>
      && (|Listed(m.incoming, id)| <= 2 || |Listed(m.outgoing, id)| <= 2)
      && Listed(m.incoming, id) != [] && Listed(m.outgoing, id) != []
      && (id !in m.acts || m.acts[id] == [])
  {
    ListsAre(m, id);
    ValidIsConsistent(m);
    assert |EdgesOf(Listed(m.incoming, id))| == |Listed(m.incoming, id)|;
    assert |EdgesOf(Listed(m.outgoing, id))| == |Listed(m.outgoing, id)|;
  }

  method BypassBottlenecks(m: Fsm, name: string) returns (toRemove: seq<int>, ghost order: seq<int>)
    requires m.Valid() && !m.prohibitDoubleEdges && name in m.clusters && Removable(m.model)
    modifies m`plain, m`outgoing, m`incoming, m`states, m`model
    ensures m.Valid() && m.model == old(m.model).(edges := m.model.edges)
    ensures PassInvariant(old(m.model).edges, m.model.edges, Idle(old(m.model)), Ids(toRemove))
    ensures Ids(toRemove) <= m.clusters[name]
    ensures Lists(order, m.clusters[name]) && PassOver(old(m.model), order) == (m.model.edges, toRemove)
    ensures if toRemove == [] then m.model == old(m.model) else HasBottleneck(old(m.model), name)
    ensures HasBottleneck(old(m.model), name) ==> toRemove != []
  {
    hide Fsm.Valid, Removable, PassInvariant, Idle, Bypass, IsBottleneck, HasBottleneck, In, Out, EdgesOf, Consistent, Graph.InCluster, Lists, PassOver;
    ghost var g, idle := m.model, Idle(m.model);
    ValidIsConsistent(m);
    PassStarts(g);
    toRemove, order := [], [];
    assert Ids(toRemove) == {};
    var todo := m.clusters[name];
    NoneInOrder(g, todo);
    while todo != {}
      invariant m.Valid() && !m.prohibitDoubleEdges
      invariant m.model == g.(edges := m.model.edges)
      invariant m.clusters == old(m.clusters) && m.acts == old(m.acts)
      invariant PassInvariant(g.edges, m.model.edges, idle, Ids(toRemove))
      invariant todo !! Ids(toRemove) && todo + Ids(toRemove) <= m.clusters[name]
      invariant toRemove == [] ==> m.model == g && forall id | id in m.clusters[name] :: id in todo || !IsBottleneck(g, id)
      invariant toRemove != [] ==> HasBottleneck(g, name)
      invariant Lists(order, m.clusters[name] - todo) && PassOver(g, order) == (m.model.edges, toRemove)
      decreases todo
    {
      var id := Pick(todo);
      NextInOrder(g, order, m.clusters[name], todo, id);
      todo := todo - {id};
      order := order + [id];
      SeenFromLists(m, id);
      var ins, outs := Listed(m.incoming, id), Listed(m.outgoing, id);
      if (|ins| <= 2 || |outs| <= 2) && ins != [] && outs != [] && (id !in m.acts || m.acts[id] == []) {
        ListsAre(m, id);
        IdleMember(g, name, id);
        PassStep(g.edges, m.model.edges, idle, Ids(toRemove), id);
        if toRemove == [] {
          FoundBottleneck(g, name, id);
        }
        MoreIds(toRemove, id);
        toRemove := toRemove + [id];
        BypassState(m, id, ins, outs);
      }
    }
    assert m.clusters[name] - todo == m.clusters[name];
    if toRemove == [] {
      NoneFound(g, name);
    }
  }

  lemma NoneInOrder(g: Graph, states: set<int>)
    ensures Lists([], states - states) && PassOver(g, []) == (g.edges, [])
  {}

  lemma NextInOrder(g: Graph, order: seq<int>, states: set<int>, todo: set<int>, id: int)
    requires Lists(order, states - todo) && id in todo && todo <= states
    ensures Lists(order + [id], states - (todo - {id}))
    ensures PassOver(g, order + [id]) ==
      if IsBottleneck(g.(edges := PassOver(g, order).0), id) then
        (Bypass(PassOver(g, order).0, id), PassOver(g, order).1 + [id])
      else PassOver(g, order)
  {
    assert (order + [id])[..|order|] == order;
  }

  lemma MoreIds(ids: seq<int>, id: int)
    ensures Ids(ids + [id]) == Ids(ids) + {id}
  {}

  lemma FoundBottleneck(g: Graph, name: string, id: int)
    requires name in g.clusters && id in g.clusters[name] && IsBottleneck(g, id)
    ensures HasBottleneck(g, name)
  {}

  lemma NoneFound(g: Graph, name: string)
    requires name in g.clusters && forall id | id in g.clusters[name] :: !IsBottleneck(g, id)
    ensures !HasBottleneck(g, name)
  {}

  /** A pass over one cluster: every bottleneck is bypassed, then they are removed together.  It
      removes something exactly if there is a bottleneck when it starts. */
  method CleanupPass(m: Fsm, name: string) returns (removed: bool)
    requires m.Valid() && !m.prohibitDoubleEdges && name in m.clusters && Removable(m.model)
    modifies m`plain, m`outgoing, m`incoming, m`states, m`model, m`acts, m`clusters
    ensures m.Valid() && Removable(m.model)
    ensures Cleaned(old(m.model), m.model)
    ensures IsPass(old(m.model), m.model, name)
    ensures m.clusters.Keys == old(m.clusters.Keys)
    ensures forall k | k in m.clusters :: m.clusters[k] <= old(m.clusters)[k]
    ensures removed ==> m.clusters[name] < old(m.clusters)[name]
    ensures removed <==> HasBottleneck(old(m.model), name)
    ensures if removed then m.model.states != old(m.model.states) else m.model == old(m.model)
  {
    hide Fsm.Valid, Removable, PassInvariant, Cleaned, DropStates, Idle, HasBottleneck, Lists, PassOver;
    ghost var g := m.model;
    ValidIsConsistent(m);
    var toRemove;
    ghost var order;
    toRemove, order := BypassBottlenecks(m, name);
    ghost var gone := Ids(toRemove);
    PassDone(g, m.model.edges, toRemove);
    DropNothing(m.model);
    DropStatesIs(m.model, toRemove);
    ValidIsConsistent(m);
    RemoveStates(m, toRemove);
    ValidIsConsistent(m);
    assert PassedInOrder(g, m.model, g.clusters[name], order);
    removed := toRemove != [];
    if removed {
      SomeGone(g, name, toRemove);
    }
  }

  lemma SomeGone(g: Graph, name: string, ids: seq<int>)
    requires Consistent(g) && name in g.clusters && ids != [] && Ids(ids) <= g.clusters[name]
    ensures g.states - Ids(ids) != g.states && g.clusters[name] - Ids(ids) < g.clusters[name]
  {
    assert ids[0] in Ids(ids);
    assert ids[0] in g.clusters[name] && ids[0] in g.states;
  }

  /** cleanupCBBottleneckStates: pass over every cluster until nothing more can be removed.  Steps of
      the remaining states that end are kept, all steps are if idle states are always left, and only
      callback states vanish.  Clusters that do not touch have no bottleneck any more. */
  method CleanupBottlenecks(m: Fsm)
    requires m.Valid() && !m.prohibitDoubleEdges && Removable(m.model)
    modifies m`plain, m`outgoing, m`incoming, m`states, m`model, m`acts, m`clusters
    ensures m.Valid() && Removable(m.model)
    ensures Cleaned(old(m.model), m.model)
    ensures AllCleaned(old(m.model), m.model)
    ensures Separated(old(m.model)) ==> Separated(m.model) && forall name :: !HasBottleneck(m.model, name)
    ensures Separated(old(m.model)) ==> NothingToBypass(m.model)
    ensures if exists name :: HasBottleneck(old(m.model), name) then m.model.states != old(m.model.states)
            else m.model == old(m.model)
    ensures m.clusters != map[] ==> exists name :: name in m.clusters && !HasBottleneck(m.model, name)
  {
    hide Fsm.Valid, Removable, Cleaned, HasBottleneck, IsPass, ClusterCleaned, Lists, Separated, NothingToBypass;
    ghost var g := m.model;
    NothingLost(g);
    OnlyClusters(g);
    ValidIsConsistent(m);
    var names := m.clusters.Keys;
    ghost var stages, order := [g], [];
    NoneListed(m.clusters.Keys);
    while names != {}
      invariant m.Valid() && !m.prohibitDoubleEdges && Removable(m.model)
      invariant names <= m.clusters.Keys && m.clusters.Keys == g.clusters.Keys
      invariant Cleaned(g, m.model)
      invariant Untidied(g, m.model, names)
      invariant CleanedInOrder(stages, order) && Lists(order, g.clusters.Keys - names)
      invariant stages[0] == g && stages[|order|] == m.model
      decreases names
    {
      var name := Pick(names);
      ListedNext(order, g.clusters.Keys, names, name);
      names := names - {name};
      CleanCluster(m, name, g, names);
      CleanedNext(stages, order, m.model, name);
      stages, order := stages + [m.model], order + [name];
    }
    assert g.clusters.Keys - names == g.clusters.Keys;
    LastCleaned(stages, order, g.clusters.Keys);
    if Separated(g) {
      AllCleanedSeparated(g, m.model);
      NoBottlenecks(m.model);
    }
  }

  /** Passes over one cluster until nothing more can be removed from it. */
  method CleanCluster(m: Fsm, name: string, ghost g: Graph, ghost names: set<string>)
    requires m.Valid() && !m.prohibitDoubleEdges && Removable(m.model) && name in m.clusters
    requires Cleaned(g, m.model) && Untidied(g, m.model, names + {name})
    modifies m`plain, m`outgoing, m`incoming, m`states, m`model, m`acts, m`clusters
    ensures m.Valid() && Removable(m.model) && m.clusters.Keys == old(m.clusters.Keys)
    ensures Cleaned(g, m.model) && Untidied(g, m.model, names)
    ensures ClusterCleaned(old(m.model), m.model, name)
  {
    hide Fsm.Valid, Removable, Cleaned, HasBottleneck, IsPass;
    ghost var start, n: nat := m.model, 0;
    var keepGoing := true;
    while keepGoing
      invariant m.Valid() && !m.prohibitDoubleEdges && Removable(m.model)
      invariant name in m.clusters && m.clusters.Keys == old(m.clusters.Keys)
      invariant Cleaned(g, m.model)
      invariant Untidied(g, m.model, if keepGoing then names + {name} else names)
      invariant Passes(start, m.model, name, n)
      invariant !keepGoing ==> !HasBottleneck(m.model, name)
      decreases m.clusters[name], keepGoing
    {
      ghost var before := m.model;
      keepGoing := CleanupPass(m, name);
      CleanedTwice(g, before, m.model);
      if keepGoing {
        n := n + 1;
      }
    }
  }

  lemma NoneListed(names: set<string>)
    ensures Lists([], names - names)
  {}

  lemma ListedNext(order: seq<string>, all: set<string>, names: set<string>, name: string)
    requires Lists(order, all - names) && name in names && names <= all
    ensures Lists(order + [name], all - (names - {name}))
  {}

  lemma LastCleaned(stages: seq<Graph>, order: seq<string>, names: set<string>)
    requires CleanedInOrder(stages, order) && Lists(order, names)
    ensures names != {} ==> exists name :: name in names && !HasBottleneck(stages[|order|], name)
  {
    if order == [] {
      assert names == {};
    } else {
      var i := |order| - 1;
      assert ClusterCleaned(stages[i], stages[i + 1], order[i]) && order[i] in order;
    }
  }

  lemma CleanedNext(stages: seq<Graph>, order: seq<string>, g: Graph, name: string)
    requires CleanedInOrder(stages, order) && ClusterCleaned(stages[|order|], g, name)
    ensures CleanedInOrder(stages + [g], order + [name]) && (stages + [g])[0] == stages[0]
  {}

  /** Either states were removed, or nothing was done because no cluster outside names has a
      bottleneck. */
  ghost predicate Untidied(g: Graph, g': Graph, names: set<string>) {
    if g'.states == g.states then
      g' == g && forall k | k in g.clusters && k !in names :: !HasBottleneck(g, k)
    else exists k :: HasBottleneck(g, k)
  }

  lemma NothingLost(g: Graph)
    ensures Cleaned(g, g)
  {
  }

  // ----- a step that ends only afterwards

  /** One user state and one idle callback state, which can be left only while x is set. */
  function Trap(x: string): Graph {
    Graph({1, 2}, [Edge(1, 2, TRUE), Edge(2, 1, Var(x))], map[], map["cb" := {2}])
  }

  function TrapRemoved(x: string): Graph {
    DropStates(Trap(x).(edges := Bypass(Trap(x).edges, 2)), [2])
  }

  lemma TrapIs(x: string)
    ensures Idle(Trap(x)) == {2} && !Trap(x).InCluster(1) && IsBottleneck(Trap(x), 2)
    ensures Out(Trap(x).edges, 1) == [Edge(1, 2, TRUE)] && Out(Trap(x).edges, 2) == [Edge(2, 1, Var(x))]
    ensures Removable(Trap(x)) && Ranked(Trap(x).edges, Idle(Trap(x)), map[2 := 0])
  {
    var g := Trap(x);
    var e, f := Edge(1, 2, TRUE), Edge(2, 1, Var(x));
    assert g.edges == [e, f] && g.edges[..1] == [e] && [e][..0] == [];
    assert In([e][..0], 2) == [] && In([e], 2) == [] + [e];
    assert Out([e], 1) == [e] && Out([e], 2) == [] && In([e], 2) == [e];
    assert Out(g.edges, 1) == [e] && Out(g.edges, 2) == [f] && In(g.edges, 2) == [e];
    assert g.InCluster(2) by {
      assert "cb" in g.clusters && 2 in g.clusters["cb"];
    }
    forall p: int, w: World, z: int | Hit(Out(g.edges, p), w, z)
      ensures z == if p == 1 then 2 else 1
    {
      OutMembers(g.edges, p);
    }
  }

  /** While x is not set, the step of the user state never ends; after a pass it does. */
  lemma PassCanEndSteps(x: string, w: World)
    requires w.Get(x) == 0
    ensures HasBottleneck(Trap(x), "cb") && Removable(Trap(x))
    ensures Step(Trap(x), 1, w).None? && Step(TrapRemoved(x), 1, w) == Some((1, w))
  {
    var g, ids := Trap(x), [2];
    TrapIs(x);
    PassStarts(g);
    PassStep(g.edges, g.edges, Idle(g), {}, 2);
    var es := Bypass(g.edges, 2);
    assert {} + {2} == {2};
    assert Ids(ids) == {2};
    DropStatesIs(g.(edges := es), ids);
    assert forall s :: g.(edges := es).InCluster(s) <==> g.InCluster(s);
    PassIsResult(g, TrapRemoved(x), es, {2});
    var e, f := Edge(1, 2, TRUE), Edge(2, 1, Var(x));
    FirstSnoc([], e, w, {});
    FirstSnoc([], f, w, {});
    assert [] + [e] == [e] && [] + [f] == [f];
    assert First(Out(g.edges, 1), w, {}) == Some(2) && First(Out(g.edges, 2), w, {}).None?;
    ChaseUnfolds(g.edges, {2}, 2, w);
    assert ExecAll(g.Acts(1), w) == w;
    StuckStepEnds(g, TrapRemoved(x), {2}, 1, w);
  }
}
