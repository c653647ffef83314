/** The machine as an object: one list of transitions, indexed a second and a third time by source
    and by destination, with the transition objects shared between the three; the states and their
    callbacks and clusters; and what adding and removing transitions and states does to them. */
module Machines {
  import opened Terms
  import opened Programs
  import opened Graphs
  import opened Bottlenecks
  import opened Fragments

  class FsmTransition {
    const source: int
    const destination: int
    var condition: Expr

    constructor (source: int, destination: int, condition: Expr)
      ensures this.source == source && this.destination == destination && this.condition == condition
    {
      this.source, this.destination, this.condition := source, destination, condition;
    }

    ghost function AsEdge(): Edge
      reads this
    {
      Edge(source, destination, condition)
    }
  }

  // ----- lists of transition objects

  ghost function EdgesOf(ts: seq<FsmTransition>): (es: seq<Edge>)
    reads ts
    ensures |es| == |ts| && forall i | 0 <= i < |ts| :: es[i] == ts[i].AsEdge()
  {
    if ts == [] then [] else EdgesOf(ts[..|ts| - 1]) + [ts[|ts| - 1].AsEdge()]
  }

  function From(ts: seq<FsmTransition>, s: int): seq<FsmTransition> {
    if ts == [] then [] else
      var t := ts[|ts| - 1];
      if t.source == s then From(ts[..|ts| - 1], s) + [t] else From(ts[..|ts| - 1], s)
  }

  function Into(ts: seq<FsmTransition>, s: int): seq<FsmTransition> {
    if ts == [] then [] else
      var t := ts[|ts| - 1];
      if t.destination == s then Into(ts[..|ts| - 1], s) + [t] else Into(ts[..|ts| - 1], s)
  }

  function Removing(ts: seq<FsmTransition>, gone: set<FsmTransition>): seq<FsmTransition> {
    if ts == [] then [] else
      var t := ts[|ts| - 1];
      if t in gone then Removing(ts[..|ts| - 1], gone) else Removing(ts[..|ts| - 1], gone) + [t]
  }

  function AsSet(ts: seq<FsmTransition>): set<FsmTransition> {
    set t | t in ts
  }

  ghost predicate Distinct(ts: seq<FsmTransition>) {
    forall i, j :: 0 <= i < j < |ts| ==> ts[i] != ts[j]
  }

  lemma {:induction false} FromMembers(ts: seq<FsmTransition>, s: int)
    ensures forall t :: t in From(ts, s) <==> t in ts && t.source == s
    ensures forall t :: t in Into(ts, s) <==> t in ts && t.destination == s
  {
    if ts != [] {
      FromMembers(ts[..|ts| - 1], s);
      assert ts == ts[..|ts| - 1] + [ts[|ts| - 1]];
    }
  }

  lemma Snoc(ts: seq<FsmTransition>, t: FsmTransition)
    ensures EdgesOf(ts + [t]) == EdgesOf(ts) + [t.AsEdge()]
    ensures forall s :: From(ts + [t], s) == if t.source == s then From(ts, s) + [t] else From(ts, s)
    ensures forall s :: Into(ts + [t], s) == if t.destination == s then Into(ts, s) + [t] else Into(ts, s)
  {
    assert (ts + [t])[..|ts|] == ts;
  }

  function Listed(index: map<int, seq<FsmTransition>>, s: int): seq<FsmTransition> {
    if s in index then index[s] else []
  }

  ghost predicate BySource(index: map<int, seq<FsmTransition>>, ts: seq<FsmTransition>) {
    forall s :: Listed(index, s) == From(ts, s)
  }

  ghost predicate ByDestination(index: map<int, seq<FsmTransition>>, ts: seq<FsmTransition>) {
    forall s :: Listed(index, s) == Into(ts, s)
  }

  lemma FromListed(index: map<int, seq<FsmTransition>>, ts: seq<FsmTransition>, s: int)
    requires BySource(index, ts)
    ensures Listed(index, s) == From(ts, s)
  {
  }

  lemma IndexSnoc(outgoing: map<int, seq<FsmTransition>>, incoming: map<int, seq<FsmTransition>>, ts: seq<FsmTransition>, t: FsmTransition)
    requires Distinct(ts) && BySource(outgoing, ts) && ByDestination(incoming, ts) && t !in ts
    ensures Distinct(ts + [t])
    ensures BySource(outgoing[t.source := Listed(outgoing, t.source) + [t]], ts + [t])
    ensures ByDestination(incoming[t.destination := Listed(incoming, t.destination) + [t]], ts + [t])
  {
    hide From, Into, Listed;
    Snoc(ts, t);
    var outs, ins := Listed(outgoing, t.source) + [t], Listed(incoming, t.destination) + [t];
    forall s
      ensures Listed(outgoing[t.source := outs], s) == From(ts + [t], s)
    {
      assert Listed(outgoing, s) == From(ts, s);
      ListedUpdate(outgoing, t.source, outs, s);
    }
    forall s
      ensures Listed(incoming[t.destination := ins], s) == Into(ts + [t], s)
    {
      assert Listed(incoming, s) == Into(ts, s);
      ListedUpdate(incoming, t.destination, ins, s);
    }
  }

  lemma ListedUpdate(index: map<int, seq<FsmTransition>>, k: int, ts: seq<FsmTransition>, s: int)
    ensures Listed(index[k := ts], s) == if s == k then ts else Listed(index, s)
  {}

  lemma {:induction false} EdgesFrom(ts: seq<FsmTransition>, s: int)
    ensures Out(EdgesOf(ts), s) == EdgesOf(From(ts, s))
    ensures In(EdgesOf(ts), s) == EdgesOf(Into(ts, s))
  {
    if ts != [] {
      EdgesFrom(ts[..|ts| - 1], s);
      assert EdgesOf(ts)[..|ts| - 1] == EdgesOf(ts[..|ts| - 1]);
    }
  }

  lemma {:induction false} RemovingFrom(ts: seq<FsmTransition>, gone: set<FsmTransition>, s: int)
    ensures From(Removing(ts, gone), s) == Removing(From(ts, s), gone)
    ensures Into(Removing(ts, gone), s) == Removing(Into(ts, s), gone)
  {
    if ts != [] {
      RemovingFrom(ts[..|ts| - 1], gone, s);
    }
  }

  lemma {:induction false} RemovingNothing(ts: seq<FsmTransition>, gone: set<FsmTransition>)
    requires forall t | t in gone :: t !in ts
    ensures Removing(ts, gone) == ts
  {
    if ts != [] {
      RemovingNothing(ts[..|ts| - 1], gone);
      assert ts == ts[..|ts| - 1] + [ts[|ts| - 1]];
    }
  }

  lemma {:induction false} RemovingTwice(ts: seq<FsmTransition>, a: set<FsmTransition>, b: set<FsmTransition>)
    ensures Removing(Removing(ts, a), b) == Removing(ts, a + b)
  {
    if ts != [] {
      RemovingTwice(ts[..|ts| - 1], a, b);
    }
  }

  lemma {:induction false} RemovingMembers(ts: seq<FsmTransition>, gone: set<FsmTransition>)
    ensures forall t :: t in Removing(ts, gone) <==> t in ts && t !in gone
    ensures Distinct(ts) ==> Distinct(Removing(ts, gone))
  {
    if ts != [] {
      RemovingMembers(ts[..|ts| - 1], gone);
      assert ts == ts[..|ts| - 1] + [ts[|ts| - 1]];
    }
  }

  lemma IndexRemoving(outgoing: map<int, seq<FsmTransition>>, incoming: map<int, seq<FsmTransition>>, ts: seq<FsmTransition>, t: FsmTransition)
    requires Distinct(ts) && BySource(outgoing, ts) && ByDestination(incoming, ts)
    ensures Distinct(Removing(ts, {t}))
    ensures BySource(outgoing[t.source := Removing(Listed(outgoing, t.source), {t})], Removing(ts, {t}))
    ensures ByDestination(incoming[t.destination := Removing(Listed(incoming, t.destination), {t})], Removing(ts, {t}))
  {
    RemovingMembers(ts, {t});
    forall s
      ensures From(Removing(ts, {t}), s) == if s == t.source then Removing(From(ts, s), {t}) else From(ts, s)
      ensures Into(Removing(ts, {t}), s) == if s == t.destination then Removing(Into(ts, s), {t}) else Into(ts, s)
    {
      RemovingFrom(ts, {t}, s);
      FromMembers(ts, s);
      if s != t.source {
        RemovingNothing(From(ts, s), {t});
      }
      if s != t.destination {
        RemovingNothing(Into(ts, s), {t});
      }
    }
    hide From, Into, Removing;
  }

  lemma TouchingListed(outgoing: map<int, seq<FsmTransition>>, incoming: map<int, seq<FsmTransition>>, ts: seq<FsmTransition>, s: int)
    requires BySource(outgoing, ts) && ByDestination(incoming, ts)
    ensures forall t | t in ts :: t in AsSet(Listed(outgoing, s) + Listed(incoming, s)) <==> t.source == s || t.destination == s
  {
    FromMembers(ts, s);
  }

  lemma RemovingEdges(ts: seq<FsmTransition>, gone: set<FsmTransition>)
    ensures forall e | e in EdgesOf(Removing(ts, gone)) :: e in EdgesOf(ts)
  {
    RemovingMembers(ts, gone);
    hide Removing;
    forall e | e in EdgesOf(Removing(ts, gone))
      ensures e in EdgesOf(ts)
    {
      var i :| 0 <= i < |Removing(ts, gone)| && e == Removing(ts, gone)[i].AsEdge();
      assert Removing(ts, gone)[i] in ts;
      var j :| 0 <= j < |ts| && ts[j] == Removing(ts, gone)[i];
      assert EdgesOf(ts)[j] == e;
    }
  }

  /** Removing transitions by their destination, as objects and as values. */
  lemma RemovingByDestination(ts: seq<FsmTransition>, gone: set<FsmTransition>, stays: int -> bool)
    requires forall t | t in ts :: t in gone <==> !stays(t.destination)
    ensures forall e :: e in EdgesOf(Removing(ts, gone)) <==> e in EdgesOf(ts) && stays(e.dst)
  {
    var left := Removing(ts, gone);
    RemovingMembers(ts, gone);
    hide Removing;
    forall e
      ensures e in EdgesOf(left) <==> e in EdgesOf(ts) && stays(e.dst)
    {
      if e in EdgesOf(left) {
        var i :| 0 <= i < |left| && left[i].AsEdge() == e;
        assert left[i] in left;
        var j :| 0 <= j < |ts| && ts[j] == left[i];
        assert EdgesOf(ts)[j] == e;
      }
      if e in EdgesOf(ts) && stays(e.dst) {
        var i :| 0 <= i < |ts| && ts[i].AsEdge() == e;
        assert ts[i] in left;
        var j :| 0 <= j < |left| && left[j] == ts[i];
        assert EdgesOf(left)[j] == e;
      }
    }
  }

  /** The i-th transition leaving s, and what precedes it in the whole list. */
  lemma {:induction false} PlaceInList(ts: seq<FsmTransition>, s: int, i: nat) returns (k: nat)
    requires i < |From(ts, s)|
    ensures k < |ts| && ts[k] == From(ts, s)[i]
    ensures forall j | 0 <= j < k && ts[j].source == s :: ts[j] in From(ts, s)[..i]
  {
    var rest := ts[..|ts| - 1];
    if i < |From(rest, s)| {
      k := PlaceInList(rest, s, i);
      assert From(ts, s)[..i] == From(rest, s)[..i];
    } else {
      k := |ts| - 1;
      FromMembers(rest, s);
      assert From(ts, s)[..i] == From(rest, s);
      assert forall j | 0 <= j < k :: ts[j] in rest;
    }
  }

  /** Removing the transitions that touch a state, as objects and as values. */
  lemma {:induction false} RemovingTouching(ts: seq<FsmTransition>, gone: set<FsmTransition>, s: int)
    requires forall t | t in ts :: t in gone <==> t.source == s || t.destination == s
    ensures EdgesOf(Removing(ts, gone)) == Without(EdgesOf(ts), {s})
  {
    if ts != [] {
      var rest := ts[..|ts| - 1];
      assert ts == rest + [ts[|ts| - 1]];
      RemovingTouching(rest, gone, s);
      assert EdgesOf(ts)[..|ts| - 1] == EdgesOf(rest);
    }
  }

  // ----- what the operations do to the value of a machine

  predicate SamePair(e: Edge, f: Edge) {
    e.src == f.src && e.dst == f.dst
  }

  /** With double edges prohibited, a second condition for a pair of states joins the first one. */
  function Merge(es: seq<Edge>, e: Edge): seq<Edge> {
    if es == [] then [e] else
      var d := es[0];
      if SamePair(d, e) then
        [if d.cond == e.cond then d else Edge(d.src, d.dst, Bin(Or, d.cond, e.cond))] + es[1..]
      else [d] + Merge(es[1..], e)
  }

  lemma {:induction false} MergeAt(es: seq<Edge>, e: Edge, k: nat)
    requires k < |es| && SamePair(es[k], e)
    requires forall j | 0 <= j < k :: !SamePair(es[j], e)
    ensures Merge(es, e)
         == es[k := if es[k].cond == e.cond then es[k] else Edge(e.src, e.dst, Bin(Or, es[k].cond, e.cond))]
  {
    if k > 0 {
      MergeAt(es[1..], e, k - 1);
    }
  }

  predicate HasPair(es: seq<Edge>, e: Edge) {
    exists d | d in es :: SamePair(d, e)
  }

  function AddEdge(g: Graph, e: Edge, merge: bool, evenUnnecessary: bool): Graph {
    if (if merge then HasPair(g.edges, e) else e in g.edges) then
      if merge then g.(edges := Merge(g.edges, e)) else g
    else if !evenUnnecessary && e.src == e.dst then g
    else g.(edges := g.edges + [e], states := g.states + {e.src, e.dst})
  }

  lemma AddEdgeCases(g: Graph, e: Edge, merge: bool, evenUnnecessary: bool)
    ensures merge && HasPair(g.edges, e) ==> AddEdge(g, e, merge, evenUnnecessary) == g.(edges := Merge(g.edges, e))
    ensures !merge && e in g.edges ==> AddEdge(g, e, merge, evenUnnecessary) == g
    ensures (if merge then !HasPair(g.edges, e) else e !in g.edges) ==>
      AddEdge(g, e, merge, evenUnnecessary)
      == if evenUnnecessary || e.src != e.dst then g.(edges := g.edges + [e], states := g.states + {e.src, e.dst}) else g
  {}

  lemma IsPresent(es: seq<Edge>, e: Edge, k: nat)
    requires k < |es| && SamePair(es[k], e)
    ensures HasPair(es, e) && (es[k].cond == e.cond ==> e in es)
  {
    assert es[k] in es;
    assert es[k].cond == e.cond ==> es[k] == e;
  }

  lemma IsAbsent(ts: seq<FsmTransition>, e: Edge, merge: bool)
    requires forall u | u in ts && u.source == e.src && u.destination == e.dst :: !merge && u.condition != e.cond
    ensures if merge then !HasPair(EdgesOf(ts), e) else e !in EdgesOf(ts)
  {
    forall d | d in EdgesOf(ts)
      ensures d != e && (merge ==> !SamePair(d, e))
    {
      var i :| 0 <= i < |EdgesOf(ts)| && EdgesOf(ts)[i] == d;
      assert ts[i] in ts;
    }
  }

  function Clustered(clusters: map<string, set<int>>, name: string, ids: set<int>): map<string, set<int>> {
    clusters[name := (if name in clusters then clusters[name] else {}) + ids]
  }

  function Unclustered(clusters: map<string, set<int>>, s: int): map<string, set<int>> {
    map k | k in clusters :: clusters[k] - {s}
  }

  function DropState(g: Graph, s: int): Graph {
    Graph(
      g.states - {s},
      Without(g.edges, {s}),
      g.acts[s := []],
      Unclustered(g.clusters, s))
  }

  ghost predicate Consistent(g: Graph) {
    && (forall e | e in g.edges :: e.src in g.states && e.dst in g.states)
    && (forall s | s in g.acts && g.acts[s] != [] :: s in g.states)
    && (forall k | k in g.clusters :: g.clusters[k] <= g.states)
  }

  lemma ConsistentAppend(g: Graph, e: Edge)
    requires Consistent(g)
    ensures Consistent(g.(edges := g.edges + [e], states := g.states + {e.src, e.dst}))
  {
  }

  lemma ConsistentEdges(g: Graph, es: seq<Edge>)
    requires Consistent(g)
    requires forall e | e in es :: exists d :: d in g.edges && SamePair(d, e)
    ensures Consistent(g.(edges := es))
  {
  }

  lemma ConsistentFewer(g: Graph, es: seq<Edge>)
    requires Consistent(g) && forall e | e in es :: e in g.edges
    ensures Consistent(g.(edges := es))
  {
  }

  lemma ConsistentDrop(g: Graph, s: int)
    requires Consistent(g)
    ensures Consistent(DropState(g, s))
  {
    WithoutMembers(g.edges, {s});
  }

  /** Names of states: those of the user, the states for further callbacks of a state, the numbered
      states of a callback, and its common exit.  Generated names never collide with others. */
  datatype StateName =
    | User(name: string)
    | Further(state: int, number: nat)
    | CbNode(cb: string, number: nat)
    | CbOut(cb: string)

  const INITIAL_STATE := 1

  class Fsm {
    var plain: seq<FsmTransition>
    var outgoing: map<int, seq<FsmTransition>>
    var incoming: map<int, seq<FsmTransition>>
    var states: set<int>
    var acts: map<int, seq<Cmd>>
    var clusters: map<string, set<int>>
    var prohibitDoubleEdges: bool
    var names: map<StateName, int>
    var counters: map<string, nat>
    var interfaces: map<Cmd, Interface>
    var dummyCounter: int

    ghost var model: Graph

    ghost predicate Valid()
      reads `plain, `outgoing, `incoming, `states, `acts, `clusters, `model, plain
    {
      && Distinct(plain)
      && BySource(outgoing, plain)
      && ByDestination(incoming, plain)
      && model == Graph(states, EdgesOf(plain), acts, clusters)
      && Consistent(model)
    }

    /** The position, in the list of all transitions, of the one that makes adding
        (source, destination, condition) superfluous. */
    method FindTransition(source: int, destination: int, condition: Expr) returns (t: FsmTransition?, ghost k: nat)
      requires Valid()
      ensures t != null ==>
                && k < |plain| && plain[k] == t && SamePair(t.AsEdge(), Edge(source, destination, condition))
                && (!prohibitDoubleEdges ==> t.condition == condition)
                && (prohibitDoubleEdges ==> forall j | 0 <= j < k :: !SamePair(plain[j].AsEdge(), Edge(source, destination, condition)))
      ensures t == null ==>
                forall u | u in plain && u.source == source && u.destination == destination ::
                  !prohibitDoubleEdges && u.condition != condition
    {
      hide From, Into, EdgesOf, BySource, ByDestination, Consistent, Distinct;
      k := 0;
      FromMembers(plain, source);
      var candidates := Listed(outgoing, source);
      assert candidates == From(plain, source) by {
        FromListed(outgoing, plain, source);
      }
      for i := 0 to |candidates|
        invariant forall j | 0 <= j < i ::
            candidates[j].destination != destination || (!prohibitDoubleEdges && candidates[j].condition != condition)
      {
        if candidates[i].destination == destination {
          if prohibitDoubleEdges || candidates[i].condition == condition {
            assert candidates[i] in candidates;
            k := PlaceInList(plain, source, i);
            return candidates[i], k;
          }
        }
      }
      return null, 0;
    }

    /** The condition of an existing transition is widened in place. */
    method Widen(t: FsmTransition, condition: Expr, ghost k: nat)
      requires Valid() && k < |plain| && plain[k] == t
      modifies this`model, t
      ensures Valid() && plain == old(plain)
      ensures model == old(model).(edges := old(model).edges[k := Edge(t.source, t.destination, Bin(Or, old(t.condition), condition))])
    {
      hide BySource, ByDestination, EdgesOf, Consistent;
      ghost var es := model.edges;
      t.condition := Bin(Or, t.condition, condition);
      ghost var es' := es[k := t.AsEdge()];
      assert SamePair(es[k], t.AsEdge());
      assert forall i | 0 <= i < |es| :: es[i] in es && SamePair(es[i], es'[i]);
      ConsistentEdges(model, es');
      assert EdgesOf(plain) == es';
      model := model.(edges := es');
    }

    method AddTransition(source: int, destination: int, condition: Expr, evenUnnecessary: bool := true)
      requires Valid()
      modifies this`plain, this`outgoing, this`incoming, this`states, this`model
      modifies if prohibitDoubleEdges then set t | t in plain else {}
      ensures Valid()
      ensures model == AddEdge(old(model), Edge(source, destination, condition), prohibitDoubleEdges, evenUnnecessary)
      ensures fresh(AsSet(plain) - old(AsSet(plain)))
      ensures outgoing.Keys >= old(outgoing.Keys)
      ensures forall p | p != source :: Listed(outgoing, p) == old(Listed(outgoing, p))
      ensures forall t | t in Listed(outgoing, source) :: t in old(Listed(outgoing, source)) || t.destination == destination
      ensures forall t | t in old(Listed(outgoing, source)) :: t in Listed(outgoing, source)
    {
      hide From, Into, BySource, ByDestination, Consistent, Distinct, AddEdge, HasPair, Listed, Merge, EdgesOf;
      var t, k := FindTransition(source, destination, condition);
      ghost var e := Edge(source, destination, condition);
      AddEdgeCases(model, e, prohibitDoubleEdges, evenUnnecessary);
      if t != null {
        Absorb(t, condition, k);
      } else {
        IsAbsent(plain, e, prohibitDoubleEdges);
        if evenUnnecessary || source != destination {
          var u := Append(source, destination, condition);
        }
      }
    }

    /** A transition between the same states makes the new one superfluous; with double edges
        prohibited it takes in its condition. */
    method Absorb(t: FsmTransition, condition: Expr, ghost k: nat)
      requires Valid() && k < |plain| && plain[k] == t
      requires !prohibitDoubleEdges ==> t.condition == condition
      requires prohibitDoubleEdges ==> forall j | 0 <= j < k :: !SamePair(plain[j].AsEdge(), Edge(t.source, t.destination, condition))
      modifies this`model
      modifies if prohibitDoubleEdges then {t} else {}
      ensures Valid() && plain == old(plain)
      ensures var e := Edge(t.source, t.destination, condition);
        if prohibitDoubleEdges then HasPair(old(model).edges, e) && model == old(model).(edges := Merge(old(model).edges, e))
        else e in old(model).edges && model == old(model)
    {
      hide From, Into, BySource, ByDestination, Consistent, Distinct, HasPair, Listed, Merge;
      ghost var e := Edge(t.source, t.destination, condition);
      assert model.edges[k] == t.AsEdge();
      IsPresent(model.edges, e, k);
      if prohibitDoubleEdges {
        MergeAt(model.edges, e, k);
        if t.condition != condition {
          Widen(t, condition, k);
        }
      }
    }

    method Append(source: int, destination: int, condition: Expr) returns (t: FsmTransition)
      requires Valid()
      modifies this`plain, this`outgoing, this`incoming, this`states, this`model
      ensures Valid()
      ensures model == old(model).(
                edges := old(model).edges + [Edge(source, destination, condition)],
                states := old(model).states + {source, destination})
      ensures fresh(t) && plain == old(plain) + [t]
      ensures outgoing.Keys == old(outgoing.Keys) + {source}
      ensures forall p | p != source :: Listed(outgoing, p) == old(Listed(outgoing, p))
      ensures t.destination == destination && Listed(outgoing, source) == old(Listed(outgoing, source)) + [t]
    {
      hide EdgesOf, Distinct, BySource, ByDestination, Consistent;
      t := new FsmTransition(source, destination, condition);
      Snoc(plain, t);
      IndexSnoc(outgoing, incoming, plain, t);
      ConsistentAppend(model, t.AsEdge());
      outgoing := outgoing[source := Listed(outgoing, source) + [t]];
      incoming := incoming[destination := Listed(incoming, destination) + [t]];
      plain := plain + [t];
      states := states + {source, destination};
      model := model.(edges := model.edges + [t.AsEdge()], states := states);
    }
  
    method RemoveTransition(t: FsmTransition)
      requires Valid()
      modifies this`plain, this`outgoing, this`incoming, this`model
      ensures Valid()
      ensures plain == Removing(old(plain), {t})
      ensures model == old(model).(edges := EdgesOf(plain))
      ensures outgoing.Keys >= old(outgoing.Keys)
    {
      hide BySource, ByDestination, Distinct, Removing, Listed, Consistent, EdgesOf;
      IndexRemoving(outgoing, incoming, plain, t);
      RemovingEdges(plain, {t});
      ConsistentFewer(model, EdgesOf(Removing(plain, {t})));
      plain := Removing(plain, {t});
      outgoing := outgoing[t.source := Removing(Listed(outgoing, t.source), {t})];
      incoming := incoming[t.destination := Removing(Listed(incoming, t.destination), {t})];
      model := model.(edges := EdgesOf(plain));
    }

    method RemoveTransitions(ts: seq<FsmTransition>)
      requires Valid()
      modifies this`plain, this`outgoing, this`incoming, this`model
      ensures Valid()
      ensures plain == Removing(old(plain), AsSet(ts))
      ensures model == old(model).(edges := EdgesOf(plain))
      ensures outgoing.Keys >= old(outgoing.Keys)
    {
      hide Removing, Distinct, BySource, ByDestination, Consistent, EdgesOf;
      RemovingNothing(plain, {});
      assert AsSet(ts[..0]) == {};
      for i := 0 to |ts|
        invariant Valid()
        invariant plain == Removing(old(plain), AsSet(ts[..i]))
        invariant model == old(model).(edges := EdgesOf(plain)) && outgoing.Keys >= old(outgoing.Keys)
      {
        RemovingTwice(old(plain), AsSet(ts[..i]), {ts[i]});
        assert AsSet(ts[..i]) + {ts[i]} == AsSet(ts[..i + 1]);
        RemoveTransition(ts[i]);
      }
      assert ts[..|ts|] == ts;
    }

    /** Remove a state together with everything that leaves or enters it. */
    method RemoveState(id: int)
      requires Valid()
      modifies this`plain, this`outgoing, this`incoming, this`model, this`acts, this`states, this`clusters
      ensures Valid()
      ensures model == DropState(old(model), id)
      ensures AsSet(plain) <= old(AsSet(plain))
    {
      hide Removing, Distinct, EdgesOf, From, Into;
      hide BySource, ByDestination, Consistent, Listed, Without;
      var toRemove := Listed(outgoing, id) + Listed(incoming, id);
      TouchingListed(outgoing, incoming, plain, id);
      RemovingTouching(plain, AsSet(toRemove), id);
      RemovingMembers(plain, AsSet(toRemove));
      ConsistentDrop(model, id);
      ghost var left := Removing(plain, AsSet(toRemove));
      label before:
      RemoveTransitions(toRemove);
      assert old@before(EdgesOf(left)) == EdgesOf(left);
      acts := acts[id := []];
      states := states - {id};
      clusters := Unclustered(clusters, id);
      model := Graph(states, model.edges, acts, clusters);
    }
  
    /** A machine starts out with the unconditional transition from the invalid state to the initial
        one.  The initial state gets no entry of its own among the outgoing transitions. */
    constructor ()
      ensures Valid() && !prohibitDoubleEdges
      ensures model == Graph({INVALID_STATE, INITIAL_STATE}, [Edge(INVALID_STATE, INITIAL_STATE, TRUE)], map[], map[])
      ensures INVALID_STATE in outgoing && INITIAL_STATE !in outgoing
      ensures names == map[] && counters == map[] && interfaces == map[] && dummyCounter == 0
    {
      plain, outgoing, incoming := [], map[INVALID_STATE := []], map[INVALID_STATE := []];
      states, acts, clusters, prohibitDoubleEdges := {INVALID_STATE}, map[], map[], false;
      names, counters, interfaces, dummyCounter := map[], map[], map[], 0;
      model := Graph({INVALID_STATE}, [], map[], map[]);
      new;
      assert Valid() && Listed(outgoing, INVALID_STATE) == [];
      hide Consistent, From, Into, BySource, ByDestination, Distinct, Listed;
      var t := Append(INVALID_STATE, INITIAL_STATE, TRUE);
    }

    /** smallestFreeStateID */
    method SmallestFreeStateId() returns (id: int)
      ensures id >= INITIAL_STATE && id !in states
      ensures forall j | INITIAL_STATE <= j < id :: j in states
    {
      id := INITIAL_STATE;
      ghost var ahead := states;
      while id in states
        invariant id >= INITIAL_STATE
        invariant forall j | INITIAL_STATE <= j < id :: j in states
        invariant ahead <= states && forall j | j in states && j >= id :: j in ahead
        decreases ahead
      {
        ahead := ahead - {id};
        id := id + 1;
      }
    }

    /** The state of that name, created without any transition if there is none. */
    method AddUnconnectedState(name: StateName) returns (id: int)
      requires Valid()
      modifies this`states, this`names, this`outgoing, this`incoming, this`model
      ensures Valid() && outgoing.Keys >= old(outgoing.Keys)
      ensures forall p :: Listed(outgoing, p) == old(Listed(outgoing, p))
      ensures name in names && names[name] == id
      ensures name in old(names) ==> names == old(names) && model == old(model)
      ensures name !in old(names) ==>
                && id in outgoing && names == old(names)[name := id]
                && id !in old(states) && id >= INITIAL_STATE
                && (forall j | INITIAL_STATE <= j < id :: j in old(states))
                && model == old(model).(states := old(model).states + {id})
    {
      hide Valid, Listed;
      if name in names {
        return names[name];
      }
      id := SmallestFreeStateId();
      Register(id);
      names := names[name := id];
    }

    method Register(id: int)
      requires Valid()
      modifies this`states, this`outgoing, this`incoming, this`model
      ensures Valid() && outgoing.Keys >= old(outgoing.Keys) && (id !in old(states) ==> id in outgoing)
      ensures forall p :: Listed(outgoing, p) == old(Listed(outgoing, p))
      ensures model == old(model).(states := old(model).states + {id})
    {
      hide From, Into, EdgesOf, Distinct;
      if id !in states {
        states := states + {id};
        if id !in outgoing {
          outgoing := outgoing[id := []];
        }
        if id !in incoming {
          incoming := incoming[id := []];
        }
      }
      model := model.(states := model.states + {id});
    }

    /** addInternalActionToState */
    method AddAction(id: int, c: Cmd)
      requires Valid()
      modifies this`states, this`outgoing, this`incoming, this`model, this`acts
      ensures Valid() && outgoing.Keys >= old(outgoing.Keys)
      ensures forall p :: Listed(outgoing, p) == old(Listed(outgoing, p))
      ensures model == old(model).(
                states := old(model).states + {id},
                acts := old(model).acts[id := old(model).Acts(id) + [c]])
    {
      Register(id);
      SetActions(id, (if id in acts then acts[id] else []) + [c]);
    }

    method SetActions(id: int, cs: seq<Cmd>)
      requires Valid() && id in states
      modifies this`model, this`acts
      ensures Valid()
      ensures model == old(model).(acts := old(model).acts[id := cs])
    {
      hide From, Into, EdgesOf, Distinct, BySource, ByDestination;
      acts := acts[id := cs];
      model := model.(acts := acts);
    }

    /** Insert an empty cluster unless there is one of that name. */
    method OpenCluster(name: string)
      requires Valid()
      modifies this`model, this`clusters
      ensures Valid()
      ensures model == old(model).(clusters := Clustered(old(model).clusters, name, {}))
    {
      hide From, Into, EdgesOf, Distinct, BySource, ByDestination;
      clusters := Clustered(clusters, name, {});
      model := model.(clusters := clusters);
    }

    method AddToCluster(name: string, id: int)
      requires Valid() && id in states
      modifies this`model, this`clusters
      ensures Valid()
      ensures model == old(model).(clusters := Clustered(old(model).clusters, name, {id}))
    {
      hide From, Into, EdgesOf, Distinct, BySource, ByDestination;
      clusters := Clustered(clusters, name, {id});
      model := model.(clusters := clusters);
    }
  }

  /** A state the machine does not know has no transitions. */
  lemma UnknownState(g: Graph, id: int)
    requires Consistent(g) && id !in g.states
    ensures Out(g.edges, id) == [] && g.Acts(id) == [] && !g.InCluster(id)
    ensures forall e | e in g.edges :: e.src != id && e.dst != id
  {
    NothingLeaves(g.edges, id);
  }

  lemma {:induction false} NothingLeaves(es: seq<Edge>, s: int)
    requires forall e | e in es :: e.src != s
    ensures Out(es, s) == []
  {
    if es != [] {
      assert es[|es| - 1] in es;
      NothingLeaves(es[..|es| - 1], s);
    }
  }

  lemma OutSnoc(es: seq<Edge>, e: Edge)
    ensures forall p :: Out(es + [e], p) == if p == e.src then Out(es, p) + [e] else Out(es, p)
  {
    assert (es + [e])[..|es|] == es;
  }

  /** The variable in which shared callback states remember who called them. */
  const LAST := "last"

  ghost predicate CondFree(g: Graph) {
    forall e | e in g.edges :: !Mentions(e.cond, LAST)
  }

  lemma RemovingOut(ts: seq<FsmTransition>, gone: set<FsmTransition>, s: int)
    ensures Out(EdgesOf(Removing(ts, gone)), s) == EdgesOf(Removing(From(ts, s), gone))
    ensures (forall t | t in gone :: t.source != s) ==> Out(EdgesOf(Removing(ts, gone)), s) == Out(EdgesOf(ts), s)
  {
    EdgesFrom(Removing(ts, gone), s);
    EdgesFrom(ts, s);
    RemovingFrom(ts, gone, s);
    FromMembers(ts, s);
    if forall t | t in gone :: t.source != s {
      RemovingNothing(From(ts, s), gone);
    }
  }

  lemma ValidIsConsistent(m: Fsm)
    requires m.Valid()
    ensures Consistent(m.model) && m.model.states == m.states && m.model.acts == m.acts && m.model.clusters == m.clusters
  {
  }

  lemma FromIsListed(m: Fsm, s: int)
    requires m.Valid()
    ensures From(m.plain, s) == Listed(m.outgoing, s)
  {
  }

  /** What the three views of the transitions have to do with the value of the machine. */
  lemma ListsAre(m: Fsm, s: int)
    requires m.Valid()
    ensures EdgesOf(Listed(m.outgoing, s)) == Out(m.model.edges, s)
    ensures EdgesOf(Listed(m.incoming, s)) == In(m.model.edges, s)
    ensures EdgesOf(m.plain) == m.model.edges
  {
    EdgesFrom(m.plain, s);
  }
}
