/** Compiling one callback into a sub-machine with at most one assignment per state: an assignment
    becomes a state, a sequence links the exits of its first part to the entries of its second, and a
    branch puts the entries of both parts side by side under complementary guards. */
module FanOut {
  import opened Terms
  import opened Programs
  import opened Graphs
  import opened Fragments
  import opened Machines

  /** Every numbered state name in use is below the counter of its callback. */
  ghost predicate NumbersUsed(names: map<StateName, int>, counters: map<string, nat>) {
    forall n | n in names && n.CbNode? :: n.cb in counters && n.number < counters[n.cb]
  }

  ghost predicate Ready(m: Fsm)
    reads m`plain, m`outgoing, m`incoming, m`states, m`acts, m`clusters, m`model, m.plain
    reads m`prohibitDoubleEdges, m`names, m`counters
  {
    m.Valid() && !m.prohibitDoubleEdges && NumbersUsed(m.names, m.counters)
  }

  /** g' is g with new states of the given cluster, wired among themselves only. */
  ghost predicate Grown(g: Graph, g': Graph, name: string, nodes: set<int>) {
    && nodes !! g.states
    && g'.states == g.states + nodes
    && g'.clusters == Clustered(g.clusters, name, nodes)
    && (forall s | s !in nodes :: Out(g'.edges, s) == Out(g.edges, s) && g'.Acts(s) == g.Acts(s))
    && (forall e | e in g'.edges :: e in g.edges || (e.src in nodes && e.dst in nodes))
  }

  lemma GrownTwice(g: Graph, g1: Graph, g2: Graph, name: string, a: set<int>, b: set<int>)
    requires Grown(g, g1, name, a) && Grown(g1, g2, name, b)
    ensures Grown(g, g2, name, a + b) && a !! b
  {
    hide Out;
    var own := if name in g.clusters then g.clusters[name] else {};
    assert own + a + b == own + (a + b);
    assert Clustered(Clustered(g.clusters, name, a), name, b) == Clustered(g.clusters, name, a + b);
  }

  /** The callbacks a callback is made of, itself included. */
  ghost function Parts(c: Cmd): set<Cmd> {
    {c} + match c
          case Set(_, _) => {}
          case Skip(_) => {}
          case Seq(a, b) => Parts(a) + Parts(b)
          case If(_, a) => Parts(a)
          case IfElse(_, a, b) => Parts(a) + Parts(b)
  }

  lemma {:induction false} PartsAreSmaller(c: Cmd)
    ensures forall p | p in Parts(c) :: p == c || Size(p) < Size(c)
  {
    match c
    case Set(_, _) =>
    case Skip(_) =>
    case Seq(a, b) => PartsAreSmaller(a); PartsAreSmaller(b);
    case If(_, a) => PartsAreSmaller(a);
    case IfElse(_, a, b) => PartsAreSmaller(a); PartsAreSmaller(b);
  }

  ghost predicate IsNumber(c: Cmd) {
    c.Skip? && c.formula.Val?
  }

  /** What compiling c may have added to the interfaces known so far. */
  ghost predicate Learned(before: map<Cmd, Interface>, after: map<Cmd, Interface>, c: Cmd) {
    && (forall k | k in before :: k in after && after[k] == before[k])
    && (forall k | k in after :: k in before || k in Parts(c) || IsNumber(k))
  }

  ghost predicate OnlyNodesAdded(before: map<StateName, int>, after: map<StateName, int>) {
    && (forall n | n in before :: n in after && after[n] == before[n])
    && (forall n | n in after :: n in before || n.CbNode?)
  }

  /** g' is g with a fresh sub-machine f that implements c and is not left to anywhere yet. */
  ghost predicate Compiled(g: Graph, g': Graph, name: string, c: Cmd, f: Fragment) {
    Implements(g', c, f) && OpenEnded(g', f) && Grown(g, g', name, f.nodes)
  }

  /** A new numbered state of the given callback. */
  method NewNode(m: Fsm, name: string) returns (id: int)
    requires Ready(m) && name in m.counters
    modifies m`states, m`names, m`outgoing, m`incoming, m`model, m`clusters, m`counters
    ensures Ready(m) && m.counters.Keys == old(m.counters.Keys) && OnlyNodesAdded(old(m.names), m.names)
    ensures Grown(old(m.model), m.model, name, {id}) && m.model.Acts(id) == [] && id !in old(m.model.states)
    ensures m.model.edges == old(m.model.edges) && m.model.acts == old(m.model.acts)
    ensures forall p :: Listed(m.outgoing, p) == old(Listed(m.outgoing, p))
  {
    hide EdgesOf, Distinct, BySource, ByDestination;
    assert CbNode(name, m.counters[name]) !in m.names;
    id := m.AddUnconnectedState(CbNode(name, m.counters[name]));
    m.counters := m.counters[name := m.counters[name] + 1];
    m.AddToCluster(name, id);
  }

  /** A single state, which executes c if c is an assignment. */
  method FanOutAtomic(m: Fsm, c: Cmd, name: string) returns (face: Interface, ghost f: Fragment)
    requires Ready(m) && name in m.counters && (c.Set? || c.Skip?)
    modifies m`states, m`names, m`outgoing, m`incoming, m`model, m`clusters, m`counters, m`acts
    ensures Ready(m) && m.counters.Keys == old(m.counters.Keys) && OnlyNodesAdded(old(m.names), m.names)
    ensures face == f.face && Compiled(old(m.model), m.model, name, c, f)
    ensures forall p :: Listed(m.outgoing, p) == old(Listed(m.outgoing, p))
  {
    hide EdgesOf, Distinct, BySource, ByDestination, Out, Implements;
    var id := NewNode(m, name);
    if c.Set? {
      m.AddAction(id, c);
    }
    face := Interface([Entry(id, TRUE)], [id]);
    f := Single(id);
    SingleImplements(m.model, c, id);
  }

  // ----- wiring a sequence

  method ConnectExits(m: Fsm, exits: seq<int>, d: int)
    requires Ready(m) && d in m.model.states && forall x | x in exits :: x in m.model.states
    modifies m`plain, m`outgoing, m`incoming, m`states, m`model
    ensures Ready(m)
    ensures m.model == old(m.model).(edges := InsertAll(old(m.model).edges, LinkExits(exits, d)))
    ensures forall p | p !in exits :: Listed(m.outgoing, p) == old(Listed(m.outgoing, p))
  {
    hide EdgesOf, Distinct, BySource, ByDestination, Consistent, Merge;
    for i := 0 to |exits|
      invariant Ready(m)
      invariant m.model == old(m.model).(edges := InsertAll(old(m.model).edges, LinkExits(exits[..i], d)))
      invariant forall p | p !in exits :: Listed(m.outgoing, p) == old(Listed(m.outgoing, p))
    {
      assert exits[i] in exits && exits[..i + 1][..i] == exits[..i];
      InsertAllLast(old(m.model).edges, LinkExits(exits[..i], d), Edge(exits[i], d, TRUE));
      AddEdgeInserts(m.model, Edge(exits[i], d, TRUE));
      m.AddTransition(exits[i], d, TRUE);
    }
    assert exits[..|exits|] == exits;
  }

  method ConnectEntries(m: Fsm, d: int, entries: seq<Entry>)
    requires Ready(m) && d in m.model.states && forall e | e in entries :: e.state in m.model.states
    modifies m`plain, m`outgoing, m`incoming, m`states, m`model
    ensures Ready(m)
    ensures m.model == old(m.model).(edges := InsertAll(old(m.model).edges, LinkEntries(d, entries)))
    ensures forall p | p != d :: Listed(m.outgoing, p) == old(Listed(m.outgoing, p))
    ensures forall t | t in Listed(m.outgoing, d) :: t in old(Listed(m.outgoing, d)) || exists e :: e in entries && e.state == t.destination
    ensures forall t | t in old(Listed(m.outgoing, d)) :: t in Listed(m.outgoing, d)
  {
    hide EdgesOf, Distinct, BySource, ByDestination, Consistent, Merge;
    for i := 0 to |entries|
      invariant Ready(m)
      invariant m.model == old(m.model).(edges := InsertAll(old(m.model).edges, LinkEntries(d, entries[..i])))
      invariant forall p | p != d :: Listed(m.outgoing, p) == old(Listed(m.outgoing, p))
      invariant forall t | t in Listed(m.outgoing, d) :: t in old(Listed(m.outgoing, d)) || exists e :: e in entries && e.state == t.destination
      invariant forall t | t in old(Listed(m.outgoing, d)) :: t in Listed(m.outgoing, d)
    {
      var e := entries[i];
      assert e in entries && entries[..i + 1][..i] == entries[..i];
      InsertAllLast(old(m.model).edges, LinkEntries(d, entries[..i]), Edge(d, e.state, e.cond));
      AddEdgeInserts(m.model, Edge(d, e.state, e.cond));
      m.AddTransition(d, e.state, e.cond);
    }
    assert entries[..|entries|] == entries;
  }

  lemma AddEdgeInserts(g: Graph, e: Edge)
    requires e.src in g.states && e.dst in g.states
    ensures AddEdge(g, e, false, true) == g.(edges := Insert(g.edges, e))
  {
    assert g.states + {e.src, e.dst} == g.states;
  }

  /** g with the exits of a and the entries of b connected through d. */
  function Wired(g: Graph, a: Fragment, b: Fragment, d: int): Graph {
    g.(edges := InsertAll(InsertAll(g.edges, LinkExits(a.face.exits, d)), LinkEntries(d, b.face.entries)))
  }

  lemma WiredOut(g: Graph, a: Fragment, b: Fragment, d: int, s: int)
    ensures forall e :: e in Out(Wired(g, a, b, d).edges, s) <==>
              e.src == s && (e in g.edges || (s in a.face.exits && e.dst == d && e.cond == TRUE)
                             || (s == d && Entry(e.dst, e.cond) in b.face.entries))
    ensures s !in a.face.exits && s != d ==> Out(Wired(g, a, b, d).edges, s) == Out(g.edges, s)
  {
    var links, mid := LinkExits(a.face.exits, d), InsertAll(g.edges, LinkExits(a.face.exits, d));
    LinkExitsMembers(a.face.exits, d);
    LinkEntriesMembers(d, b.face.entries);
    InsertAllMembers(g.edges, links);
    InsertAllMembers(mid, LinkEntries(d, b.face.entries));
    OutMembers(Wired(g, a, b, d).edges, s);
    if s !in a.face.exits && s != d {
      InsertAllSameOut(g.edges, links, s);
      InsertAllSameOut(mid, LinkEntries(d, b.face.entries), s);
    }
  }

  lemma WiredKeeps(g1: Graph, g3: Graph, c: Cmd, f: Fragment, a: Fragment, b: Fragment, d: int)
    requires Implements(g1, c, f)
    requires forall n | n in f.nodes :: g3.Acts(n) == g1.Acts(n) && Out(g3.edges, n) == Out(g1.edges, n)
    requires forall n | n in f.nodes && n !in f.face.exits :: n !in a.face.exits && n != d
    ensures Implements(Wired(g3, a, b, d), c, f)
  {
    hide Implements, Out;
    forall n | n in f.nodes && n !in f.face.exits
      ensures Out(Wired(g3, a, b, d).edges, n) == Out(g1.edges, n)
    {
      WiredOut(g3, a, b, d, n);
    }
    ImplementsSame(g1, Wired(g3, a, b, d), c, f);
  }

  lemma WiredChained(g3: Graph, a: Fragment, b: Fragment, d: int)
    requires a.nodes !! b.nodes && d !in a.nodes && d !in b.nodes
    requires forall x | x in a.face.exits :: x in a.nodes
    requires forall e | e in g3.edges :: e.src !in a.face.exits && e.src != d
    requires g3.Acts(d) == []
    ensures Chained(Wired(g3, a, b, d), a, b, d)
  {
    hide Out;
    var g := Wired(g3, a, b, d);
    forall x | x in a.face.exits
      ensures Out(g.edges, x) != [] && forall e | e in Out(g.edges, x) :: e.dst == d && e.cond == TRUE
    {
      WiredOut(g3, a, b, d, x);
      assert Edge(x, d, TRUE) in Out(g.edges, x);
    }
    WiredOut(g3, a, b, d, d);
  }

  lemma WiredGrown(g0: Graph, g3: Graph, name: string, a: Fragment, b: Fragment, d: int)
    requires Grown(g0, g3, name, a.nodes + b.nodes + {d})
    requires forall x | x in a.face.exits :: x in a.nodes
    requires forall e | e in b.face.entries :: e.state in b.nodes
    ensures Grown(g0, Wired(g3, a, b, d), name, a.nodes + b.nodes + {d})
  {
    hide Out;
    var g := Wired(g3, a, b, d);
    forall s | s !in a.nodes + b.nodes + {d}
      ensures Out(g.edges, s) == Out(g3.edges, s)
    {
      WiredOut(g3, a, b, d, s);
    }
    forall e | e in g.edges
      ensures e in g0.edges || (e.src in a.nodes + b.nodes + {d} && e.dst in a.nodes + b.nodes + {d})
    {
      OutMembers(g.edges, e.src);
      WiredOut(g3, a, b, d, e.src);
    }
  }

  /** The sequence of two freshly compiled callbacks is wired correctly. */
  lemma SequenceWired(g0: Graph, g1: Graph, g2: Graph, g3: Graph, p: Cmd, q: Cmd, name: string, a: Fragment, b: Fragment, d: int)
    requires Consistent(g2)
    requires Grown(g0, g1, name, a.nodes) && Grown(g1, g2, name, b.nodes) && Grown(g2, g3, name, {d})
    requires g3.edges == g2.edges && g3.Acts(d) == []
    requires Implements(g1, p, a) && OpenEnded(g1, a)
    requires Implements(g2, q, b) && OpenEnded(g2, b)
    ensures g2.states <= g3.states && d in g3.states
    ensures a.rank.Keys == a.nodes && b.rank.Keys == b.nodes
    ensures var g, f := Wired(g3, a, b, d), SeqFragment(a, b, d, Size(q));
            Implements(g, Seq(p, q), f) && OpenEnded(g, f) && Grown(g0, g, name, f.nodes)
  {
    assert Located(p, a) && Located(q, b);
    hide Out, Implements, Clustered;
    var g, f := Wired(g3, a, b, d), SeqFragment(a, b, d, Size(q));
    GrownTwice(g0, g1, g2, name, a.nodes, b.nodes);
    GrownTwice(g0, g2, g3, name, a.nodes + b.nodes, {d});
    assert a.nodes + b.nodes <= g2.states;
    WiredKeeps(g1, g3, p, a, a, b, d);
    WiredKeeps(g2, g3, q, b, a, b, d);
    forall e | e in g3.edges
      ensures e.src !in a.face.exits && e.src !in b.face.exits && e.src != d
    {
      assert e.src in a.nodes ==> e in g1.edges;
    }
    WiredChained(g3, a, b, d);
    SeqImplements(g, p, q, a, b, d);
    WiredGrown(g0, g3, name, a, b, d);
    forall e | e in g.edges
      ensures e.src !in b.face.exits
    {
      OutMembers(g.edges, e.src);
      WiredOut(g3, a, b, d, e.src);
    }
  }

  // ----- branching

  lemma GrownKeeps(g1: Graph, g2: Graph, name: string, more: set<int>, c: Cmd, f: Fragment)
    requires Implements(g1, c, f) && OpenEnded(g1, f) && Grown(g1, g2, name, more) && f.nodes <= g1.states
    ensures Implements(g2, c, f) && OpenEnded(g2, f)
  {
    assert Located(c, f);
    hide Out, Implements, Clustered;
    ImplementsSame(g1, g2, c, f);
  }

  lemma BranchGrown(g0: Graph, g1: Graph, g2: Graph, c: Cmd, e: Expr, p: Cmd, q: Cmd, name: string, a: Fragment, b: Fragment)
    requires IsBranch(c, e, p, q)
    requires Grown(g0, g1, name, a.nodes) && Grown(g1, g2, name, b.nodes)
    requires Implements(g1, p, a) && OpenEnded(g1, a)
    requires Implements(g2, q, b) && OpenEnded(g2, b)
    ensures a.rank.Keys == a.nodes && b.rank.Keys == b.nodes
    ensures var f := BranchFragment(e, a, b);
            Implements(g2, c, f) && OpenEnded(g2, f) && Grown(g0, g2, name, f.nodes)
  {
    assert Located(p, a) && Located(q, b);
    assert a.nodes <= g1.states;
    hide Out, Implements, Clustered, Grown;
    GrownTwice(g0, g1, g2, name, a.nodes, b.nodes);
    GrownKeeps(g1, g2, name, b.nodes, p, a);
    BranchImplements(g2, c, e, p, q, a, b);
  }

  /** The guarded entries of a branch. */
  method Guarding(c: Expr, entries: seq<Entry>) returns (r: seq<Entry>)
    ensures r == AllBehind(c, entries)
  {
    r := [];
    for i := 0 to |entries|
      invariant r == AllBehind(c, entries[..i])
    {
      var guard := entries[i].cond;
      assert entries[..i + 1][..i] == entries[..i];
      r := r + [Entry(entries[i].state, if !AlwaysTrue(guard) then Bin(And, c, guard) else c)];
    }
    assert entries[..|entries|] == entries;
  }

  // ----- the compiler

  method OpenCluster(m: Fsm, name: string)
    requires Ready(m)
    modifies m`counters, m`clusters, m`model
    ensures Ready(m) && m.counters.Keys == old(m.counters.Keys) + {name}
    ensures name in old(m.counters) ==> m.model == old(m.model)
    ensures m.model == old(m.model) || m.model == old(m.model).(clusters := Clustered(old(m.model).clusters, name, {}))
  {
    hide EdgesOf, Distinct, BySource, ByDestination;
    if name !in m.counters {
      m.counters := m.counters[name := 0];
      m.OpenCluster(name);
    }
  }

  /** p and q are the sub-callbacks of c; the else part of an `if` is just a number. */
  ghost predicate MadeOf(c: Cmd, p: Cmd, q: Cmd) {
    c == Seq(p, q) || exists e :: c == IfElse(e, p, q) || (c == If(e, p) && IsNumber(q))
  }

  lemma LearnedTwice(before: map<Cmd, Interface>, mid: map<Cmd, Interface>, after: map<Cmd, Interface>, c: Cmd, p: Cmd, q: Cmd)
    requires Learned(before, mid, p) && Learned(mid, after, q) && MadeOf(c, p, q)
    ensures Learned(before, after, c)
    ensures c !in before ==> c !in after
  {
    PartsAreSmaller(p);
    PartsAreSmaller(q);
    assert Size(c) > Size(p) && Size(c) > Size(q);
  }

  lemma OnlyNodesAddedTwice(a: map<StateName, int>, b: map<StateName, int>, c: map<StateName, int>)
    requires OnlyNodesAdded(a, b) && OnlyNodesAdded(b, c)
    ensures OnlyNodesAdded(a, c)
  {
  }

  /** Where the states to be connected are. */
  lemma Endpoints(g: Graph, g': Graph, name: string, c: Cmd, f: Fragment)
    requires Compiled(g, g', name, c, f)
    ensures g.states <= g'.states
    ensures forall x | x in f.face.exits :: x in g'.states && x !in g.states
    ensures forall e | e in f.face.entries :: e.state in g'.states
  {
  }

  lemma OpenedCompiled(g: Graph, start: Graph, g': Graph, name: string, c: Cmd, f: Fragment)
    requires start == g || start == g.(clusters := Clustered(g.clusters, name, {}))
    requires Compiled(start, g', name, c, f)
    ensures Compiled(g, g', name, c, f)
  {
    hide Implements, Out;
    var own := if name in g.clusters then g.clusters[name] else {};
    assert own + {} == own && own + {} + f.nodes == own + f.nodes;
    assert Clustered(Clustered(g.clusters, name, {}), name, f.nodes) == Clustered(g.clusters, name, f.nodes);
  }

  /** fanOutSingleCallbackToStates: create a sub-machine that implements the callback, or return the
      interface of the one that was created for it before. */
  method FanOutSingle(m: Fsm, callback: Cmd, name: string, useExisting: bool) returns (face: Interface, ghost f: Fragment)
    requires Ready(m)
    modifies m
    ensures Ready(m) && m.counters.Keys == old(m.counters.Keys) + {name} && OnlyNodesAdded(old(m.names), m.names)
    ensures forall p | p in old(m.model.states) :: Listed(m.outgoing, p) == old(Listed(m.outgoing, p))
    ensures useExisting && callback in old(m.interfaces) ==>
              && face == old(m.interfaces)[callback]
              && m.interfaces == old(m.interfaces)
              && (name in old(m.counters) ==> m.model == old(m.model))
    ensures !(useExisting && callback in old(m.interfaces)) ==>
              face == f.face && Compiled(old(m.model), m.model, name, callback, f)
    ensures Learned(old(m.interfaces), m.interfaces, callback)
    ensures callback in m.interfaces && (callback !in old(m.interfaces) ==> m.interfaces[callback] == face)
    decreases Size(callback), 1
  {
    hide Implements, Grown, OpenEnded, Ready, Compiled, Learned, OnlyNodesAdded, Listed;
    NothingLearned(m.names, m.interfaces, callback);
    ghost var i0 := m.interfaces;
    ghost var g := m.model;
    OpenCluster(m, name);
    if useExisting && callback in m.interfaces {
      return m.interfaces[callback], Single(0);
    }
    ghost var start := m.model;
    match callback {
      case Set(_, _) =>
        face, f := FanOutAtomic(m, callback, name);
      case Skip(_) =>
        face, f := FanOutAtomic(m, callback, name);
      case Seq(p, q) =>
        face, f := FanOutSequence(m, p, q, name);
      case If(e, p) =>
        m.dummyCounter := m.dummyCounter + 1;
        face, f := FanOutBranch(m, callback, e, p, Skip(Val(m.dummyCounter - 1)), name);
      case IfElse(e, p, q) =>
        face, f := FanOutBranch(m, callback, e, p, q, name);
    }
    OpenedCompiled(g, start, m.model, name, callback, f);
    LearnedItself(i0, m.interfaces, callback, face);
    if callback !in m.interfaces {
      m.interfaces := m.interfaces[callback := face];
    }
  }

  lemma NothingLearned(names: map<StateName, int>, interfaces: map<Cmd, Interface>, c: Cmd)
    ensures Learned(interfaces, interfaces, c) && OnlyNodesAdded(names, names)
  {
  }

  lemma LearnedItself(before: map<Cmd, Interface>, after: map<Cmd, Interface>, c: Cmd, face: Interface)
    requires Learned(before, after, c)
    ensures Learned(before, if c in after then after else after[c := face], c)
  {
  }

  method FanOutSequence(m: Fsm, p: Cmd, q: Cmd, name: string) returns (face: Interface, ghost f: Fragment)
    requires Ready(m) && name in m.counters
    modifies m
    ensures Ready(m) && m.counters.Keys == old(m.counters.Keys) + {name} && OnlyNodesAdded(old(m.names), m.names)
    ensures forall p | p in old(m.model.states) :: Listed(m.outgoing, p) == old(Listed(m.outgoing, p))
    ensures Learned(old(m.interfaces), m.interfaces, Seq(p, q))
    ensures Seq(p, q) !in old(m.interfaces) ==> Seq(p, q) !in m.interfaces
    ensures face == f.face && Compiled(old(m.model), m.model, name, Seq(p, q), f)
    decreases Size(p) + Size(q) + 1, 0
  {
    hide Implements, Grown, OpenEnded, Learned, OnlyNodesAdded, InsertAll, LinkExits, LinkEntries, Consistent, Fsm.Valid, NumbersUsed;
    ghost var g0, n0, i0 := m.model, m.names, m.interfaces;
    var first, a := FanOutSingle(m, p, name, false);
    ghost var g1, n1, i1 := m.model, m.names, m.interfaces;
    var second, b := FanOutSingle(m, q, name, false);
    ghost var g2, n2, i2 := m.model, m.names, m.interfaces;
    assert m.Valid();
    ValidIsConsistent(m);
    Endpoints(g0, g1, name, p, a);
    Endpoints(g1, g2, name, q, b);
    var d := NewNode(m, name);
    ghost var g3 := m.model;
    SequenceWired(g0, g1, g2, g3, p, q, name, a, b, d);
    ConnectExits(m, first.exits, d);
    ConnectEntries(m, d, second.entries);
    LearnedTwice(i0, i1, i2, Seq(p, q), p, q);
    OnlyNodesAddedTwice(n0, n1, n2);
    OnlyNodesAddedTwice(n0, n2, m.names);
    f := SeqFragment(a, b, d, Size(q));
    face := Interface(first.entries, second.exits);
  }

  method FanOutBranch(m: Fsm, callback: Cmd, e: Expr, p: Cmd, q: Cmd, name: string) returns (face: Interface, ghost f: Fragment)
    requires Ready(m) && name in m.counters && IsBranch(callback, e, p, q)
    requires callback.If? ==> IsNumber(q)
    modifies m
    ensures Ready(m) && m.counters.Keys == old(m.counters.Keys) + {name} && OnlyNodesAdded(old(m.names), m.names)
    ensures forall p | p in old(m.model.states) :: Listed(m.outgoing, p) == old(Listed(m.outgoing, p))
    ensures Learned(old(m.interfaces), m.interfaces, callback)
    ensures callback !in old(m.interfaces) ==> callback !in m.interfaces
    ensures face == f.face && Compiled(old(m.model), m.model, name, callback, f)
    decreases Size(p) + Size(q), 0
  {
    hide Implements, Grown, OpenEnded, Ready, Learned, OnlyNodesAdded;
    ghost var g0, n0, i0 := m.model, m.names, m.interfaces;
    var first, a := FanOutSingle(m, p, name, false);
    ghost var g1, n1, i1 := m.model, m.names, m.interfaces;
    var second, b := FanOutSingle(m, q, name, false);
    Endpoints(g0, g1, name, p, a);
    BranchGrown(g0, g1, m.model, callback, e, p, q, name, a, b);
    LearnedTwice(i0, i1, m.interfaces, callback, p, q);
    OnlyNodesAddedTwice(n0, n1, m.names);
    var entries := Guarding(e, first.entries);
    var more := Guarding(Not(e), second.entries);
    f := BranchFragment(e, a, b);
    face := Interface(entries + more, first.exits + second.exits);
  }
}
