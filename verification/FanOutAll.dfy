/** fanOutAllNonAtomicCallbacksToStates on the machine object: further callbacks are split off, every
    structured callback is compiled or found again and connected with its state, the original
    transitions are removed, and the states that do nothing are cleaned up.  The last method states
    what the whole achieves. */
module FanOutAll {
  import opened Terms
  import opened Programs
  import opened Graphs
  import opened Fragments
  import opened Machines
  import opened FanOut
  import opened Cleanup
  import opened Splitting
  import opened Splice
  import opened Refinement

  /** Only the clusters' names or contents beyond membership have changed. */
  lemma SplicedKept(ctx: Context, g: Graph, h: Graph, sites: map<Cmd, Site>, callers: set<int>)
    requires Spliced(ctx, g, sites, callers, {})
    requires h == g.(clusters := h.clusters) && Consistent(h) && forall p :: h.InCluster(p) <==> g.InCluster(p)
    ensures Spliced(ctx, h, sites, callers, {})
  {
    hide Implements, Out, Consistent, CallerOk, Connects, HasCaller, SiteReady, Owned, Apart, Located1, Graph.InCluster;
    assert h.edges == g.edges && h.states == g.states;
    assert forall p :: h.Acts(p) == g.Acts(p);
    assert Preserved(g, h);
    hide Graph.Acts, Preserved;
    forall d | d in sites
      ensures SiteReady(ctx, h, d, sites[d]) && Connects(h, sites[d])
    {
      KeptSite(ctx, g, h, d, sites[d]);
    }
    forall s | s in callers
      ensures CallerOk(ctx, h, s, sites[ctx.Callback(s)])
    {
      SiteStates(ctx, g, ctx.Callback(s), sites[ctx.Callback(s)]);
      KeptCaller(ctx, g, h, s, sites[ctx.Callback(s)]);
    }
  }

  /** No callback that is to be compiled is a proper part of another one, or just a number. */
  ghost predicate NotNested(ctx: Context) {
    forall s, t | ctx.Structured(s) && ctx.Structured(t) ::
      !IsNumber(ctx.Callback(s)) && (ctx.Callback(s) in Parts(ctx.Callback(t)) ==> ctx.Callback(s) == ctx.Callback(t))
  }

  ghost predicate PartOfSite(sites: map<Cmd, Site>, k: Cmd) {
    exists c :: c in sites && k in Parts(c)
  }

  /** The interfaces remembered are those of the sites and of their parts. */
  ghost predicate Remembered(interfaces: map<Cmd, Interface>, sites: map<Cmd, Site>) {
    && (forall c | c in sites :: c in interfaces && interfaces[c] == sites[c].f.face)
    && (forall k | k in interfaces :: k in sites || IsNumber(k) || PartOfSite(sites, k))
  }

  /** Common exits are found by name. */
  ghost predicate OutsNamed(ctx: Context, names: map<StateName, int>, sites: map<Cmd, Site>) {
    && (forall c | c in sites && IsShared(sites[c]) ::
          CbOut(ctx.nameOf(c)) in names && names[CbOut(ctx.nameOf(c))] == sites[c].out)
    && (forall n | n in names && n.CbOut? :: SameNamedExit(ctx, sites, n.cb, names[n]))
  }

  ghost predicate SameNamedExit(ctx: Context, sites: map<Cmd, Site>, name: string, out: int) {
    exists d :: d in sites && IsShared(sites[d]) && sites[d].out == out && ctx.nameOf(d) == name
  }

  /** A cluster holds states of the sites of its name only. */
  ghost predicate ClustersNamed(ctx: Context, clusters: map<string, set<int>>, sites: map<Cmd, Site>) {
    forall k, p | k in clusters && p in clusters[k] :: InSiteNamed(ctx, sites, k, p)
  }

  ghost predicate InSiteNamed(ctx: Context, sites: map<Cmd, Site>, name: string, p: int) {
    exists d :: d in sites && ctx.nameOf(d) == name && (p in sites[d].f.nodes || p == sites[d].out)
  }

  /** A state of a site is in the cluster of that site's name at most. */
  lemma SiteCluster(ctx: Context, g: Graph, sites: map<Cmd, Site>, c: Cmd, k: string, p: int)
    requires forall a, b {:trigger Apart(ctx, a, sites[a], b, sites[b])} | a in sites && b in sites && a != b ::
      Apart(ctx, a, sites[a], b, sites[b])
    requires ClustersNamed(ctx, g.clusters, sites) && c in sites && (p in sites[c].f.nodes || p == sites[c].out)
    requires k in g.clusters && p in g.clusters[k]
    ensures k == ctx.nameOf(c)
  {
    assert InSiteNamed(ctx, sites, k, p);
    var d :| d in sites && ctx.nameOf(d) == k && (p in sites[d].f.nodes || p == sites[d].out);
    if d != c {
      assert Apart(ctx, c, sites[c], d, sites[d]);
    }
  }

  lemma ClustersNamedMore(ctx: Context, clusters: map<string, set<int>>, sites: map<Cmd, Site>, sites': map<Cmd, Site>)
    requires ClustersNamed(ctx, clusters, sites) && forall d | d in sites :: d in sites' && sites'[d] == sites[d]
    ensures ClustersNamed(ctx, clusters, sites')
  {
    forall k, p | k in clusters && p in clusters[k]
      ensures InSiteNamed(ctx, sites', k, p)
    {
      assert InSiteNamed(ctx, sites, k, p);
      var d :| d in sites && ctx.nameOf(d) == k && (p in sites[d].f.nodes || p == sites[d].out);
      assert d in sites';
    }
  }

  /** More states of a site in the cluster of its name. */
  lemma ClusteredNamed(ctx: Context, clusters: map<string, set<int>>, sites: map<Cmd, Site>, c: Cmd, ids: set<int>)
    requires ClustersNamed(ctx, clusters, sites) && c in sites
    requires forall p | p in ids :: p in sites[c].f.nodes || p == sites[c].out
    ensures ClustersNamed(ctx, Clustered(clusters, ctx.nameOf(c), ids), sites)
  {
    var clusters' := Clustered(clusters, ctx.nameOf(c), ids);
    forall k, p | k in clusters' && p in clusters'[k]
      ensures InSiteNamed(ctx, sites, k, p)
    {
      if k in clusters && p in clusters[k] {
        assert InSiteNamed(ctx, sites, k, p);
      }
    }
  }

  /** An interface is remembered for a callback exactly if its site exists. */
  lemma RememberedIffSite(ctx: Context, g: Graph, interfaces: map<Cmd, Interface>, sites: map<Cmd, Site>, callers: set<int>, s: int)
    requires Spliced(ctx, g, sites, callers, {}) && NotNested(ctx) && Remembered(interfaces, sites) && ctx.Structured(s)
    ensures ctx.Callback(s) in interfaces <==> ctx.Callback(s) in sites
  {
    var c := ctx.Callback(s);
    if PartOfSite(sites, c) {
      var d :| d in sites && c in Parts(d);
      assert HasCaller(ctx, callers, d);
      var t :| t in callers && ctx.Structured(t) && ctx.Callback(t) == d;
      assert c == d;
    }
  }

  /** id has been added to a cluster that contains member. */
  ghost predicate JoinsCluster(clusters: map<string, set<int>>, clusters': map<string, set<int>>, member: int, id: int) {
    exists k :: k in clusters && member in clusters[k] && clusters' == Clustered(clusters, k, {id})
  }

  /** Insert id into the cluster that contains member. */
  method AddToClusterOf(m: Fsm, member: int, id: int)
    requires m.Valid() && id in m.states && m.model.InCluster(member)
    modifies m`clusters, m`model
    ensures m.Valid()
    ensures m.model == old(m.model).(clusters := m.model.clusters)
    ensures forall p :: m.model.InCluster(p) <==> old(m.model).InCluster(p) || p == id
    ensures JoinsCluster(old(m.model).clusters, m.model.clusters, member, id)
  {
    ghost var g := m.model;
    ValidIsConsistent(m);
    hide Fsm.Valid, Consistent;
    var names := m.clusters.Keys;
    while names != {}
      invariant m.Valid() && m.model == g && m.clusters == g.clusters && names <= m.clusters.Keys
      invariant exists k :: k in names && member in g.clusters[k]
      decreases names
    {
      var name := Pick(names);
      if member in m.clusters[name] {
        m.AddToCluster(name, id);
        ClusteredMembers(g, m.model, name, {id});
        return;
      }
      names := names - {name};
    }
  }

  // ----- one caller

  /** Lead the exits back to where s leads, through the common exit if there is one; return the
      transitions of s, which are to be removed in the end. */
  method ConnectBack(m: Fsm, s: int, exits: seq<int>, shared: bool, out: int, tag: Expr) returns (toRemove: seq<FsmTransition>)
    requires m.Valid() && !m.prohibitDoubleEdges && s in m.states && out in m.states && s != out
    requires exits != [] && s !in exits && (forall x | x in exits :: x in m.states) && (!shared ==> exits == [out])
    modifies m`plain, m`outgoing, m`incoming, m`states, m`model
    ensures m.Valid()
    ensures m.model == old(m.model).(edges := InsertAll(old(m.model).edges, Exits(exits, shared, out, Out(old(m.model).edges, s), tag)))
    ensures AsSet(toRemove) == AsSet(Listed(m.outgoing, s))
    ensures forall p | p != out && p !in exits :: Listed(m.outgoing, p) == old(Listed(m.outgoing, p))
  {
    hide Fsm.Valid, InsertAll, Returns, Out, Consistent, AddEdge, EdgesOf;
    toRemove := [];
    ValidIsConsistent(m);
    ghost var g, ex := m.model, Out(m.model.edges, s);
    ghost var ts := Listed(m.outgoing, s);
    ExitsNone(g.edges, shared, out, ex, tag);
    for i := 0 to |exits|
      invariant m.Valid()
      invariant m.model == g.(edges := InsertAll(g.edges, Exits(exits[..i], shared, out, ex, tag)))
      invariant i > 0 ==> AsSet(toRemove) == AsSet(ts)
      invariant i == 0 ==> toRemove == []
      invariant forall p | p != out && p !in exits :: Listed(m.outgoing, p) == old(Listed(m.outgoing, p))
    {
      ghost var news := Exits(exits[..i], shared, out, ex, tag);
      ExitsMore(exits, shared, out, ex, tag, i);
      assert exits[i] in exits;
      ExitsSpare(g.edges, exits, shared, out, ex, tag, i, s);
      if shared {
        InsertAllLast(g.edges, news, Edge(exits[i], out, TRUE));
        AddEdgeInserts(m.model, Edge(exits[i], out, TRUE));
        m.AddTransition(exits[i], out, TRUE);
        news := news + [Edge(exits[i], out, TRUE)];
      } else {
        assert news + [] == news;
      }
      ConnectReturns(m, s, out, tag, g, news);
      toRemove := toRemove + Listed(m.outgoing, s);
    }
    assert exits[..|exits|] == exits;
  }

  lemma ExitsNone(es: seq<Edge>, shared: bool, out: int, ex: seq<Edge>, tag: Expr)
    ensures InsertAll(es, Exits([], shared, out, ex, tag)) == es
  {
  }

  /** What is added leaves s alone. */
  lemma ExitsSpare(es: seq<Edge>, exits: seq<int>, shared: bool, out: int, ex: seq<Edge>, tag: Expr, i: nat, s: int)
    requires i < |exits| && s !in exits && s != out
    ensures var news := Exits(exits[..i], shared, out, ex, tag);
            && Out(InsertAll(es, news), s) == Out(es, s)
            && Out(InsertAll(es, news + [Edge(exits[i], out, TRUE)]), s) == Out(es, s)
  {
    var news := Exits(exits[..i], shared, out, ex, tag);
    ExitsMembers(exits[..i], shared, out, ex, tag);
    assert exits[i] in exits;
    InsertAllSameOut(es, news, s);
    InsertAllSameOut(es, news + [Edge(exits[i], out, TRUE)], s);
  }

  lemma ExitsMore(exits: seq<int>, shared: bool, out: int, ex: seq<Edge>, tag: Expr, i: nat)
    requires i < |exits|
    ensures Exits(exits[..i + 1], shared, out, ex, tag)
         == Exits(exits[..i], shared, out, ex, tag) + (if shared then [Edge(exits[i], out, TRUE)] else []) + Returns(ex, out, tag)
  {
    assert exits[..i + 1][..i] == exits[..i];
  }

  /** Copy what leaves s to out, each transition under the additional condition tag. */
  method ConnectReturns(m: Fsm, s: int, out: int, tag: Expr, ghost g: Graph, ghost news: seq<Edge>)
    requires m.Valid() && !m.prohibitDoubleEdges && out in g.states && s != out
    requires m.model == g.(edges := InsertAll(g.edges, news)) && Out(m.model.edges, s) == Out(g.edges, s)
    modifies m`plain, m`outgoing, m`incoming, m`states, m`model
    ensures m.Valid()
    ensures m.model == g.(edges := InsertAll(g.edges, news + Returns(Out(g.edges, s), out, tag)))
    ensures forall p | p != out :: Listed(m.outgoing, p) == old(Listed(m.outgoing, p))
  {
    hide Fsm.Valid, InsertAll, Returns, Out, Consistent, AddEdge, EdgesOf;
    ValidIsConsistent(m);
    ListsAre(m, s);
    var ts := Listed(m.outgoing, s);
    ghost var ex := Out(g.edges, s);
    ReturnsNone(ex, out, tag, news);
    for i := 0 to |ts|
      invariant m.Valid() && Listed(m.outgoing, s) == ts
      invariant m.model == g.(edges := InsertAll(g.edges, news + Returns(ex[..i], out, tag)))
      invariant forall p | p != out :: Listed(m.outgoing, p) == old(Listed(m.outgoing, p))
    {
      assert ex[i] == ts[i].AsEdge();
      ReturnOne(g, news, s, out, tag, i);
      m.AddTransition(out, ts[i].destination, Bin(And, ts[i].condition, tag));
    }
    assert ex[..|ts|] == ex;
  }

  lemma ReturnsNone(ex: seq<Edge>, out: int, tag: Expr, news: seq<Edge>)
    ensures news + Returns(ex[..0], out, tag) == news
  {
  }

  lemma ReturnOne(g: Graph, news: seq<Edge>, s: int, out: int, tag: Expr, i: nat)
    requires Consistent(g.(edges := InsertAll(g.edges, news))) && out in g.states && i < |Out(g.edges, s)|
    ensures var ex := Out(g.edges, s);
            AddEdge(g.(edges := InsertAll(g.edges, news + Returns(ex[..i], out, tag))), Edge(out, ex[i].dst, Bin(And, ex[i].cond, tag)), false, true)
            == g.(edges := InsertAll(g.edges, news + Returns(ex[..i + 1], out, tag)))
  {
    var ex := Out(g.edges, s);
    var n := Edge(out, ex[i].dst, Bin(And, ex[i].cond, tag));
    OutMembers(g.edges, s);
    InsertAllMembers(g.edges, news);
    assert ex[i] in ex && ex[..i + 1][..i] == ex[..i];
    assert news + (Returns(ex[..i], out, tag) + [n]) == (news + Returns(ex[..i], out, tag)) + [n];
    InsertAllLast(g.edges, news + Returns(ex[..i], out, tag), n);
    assert g.states + {out, ex[i].dst} == g.states;
  }

  /** Everything that holds between two states of the main loop. */
  ghost predicate Progress(m: Fsm, ctx: Context, sites: map<Cmd, Site>, callers: set<int>)
    reads m, m.plain
  {
    && Ready(m)
    && Spliced(ctx, m.model, sites, callers, {})
    && Remembered(m.interfaces, sites)
    && OutsNamed(ctx, m.names, sites)
    && (forall c | c in sites :: ctx.nameOf(c) in m.counters)
    && ClustersNamed(ctx, m.model.clusters, sites)
  }

  /** The state the exits lead to: their common exit, found by name, or the only exit itself. */
  method ProvideOut(m: Fsm, face: Interface, name: string) returns (out: int)
    requires Ready(m) && face.exits != [] && m.model.InCluster(face.exits[0])
    requires CbOut(name) in m.names ==> m.names[CbOut(name)] in m.states
    modifies m`states, m`names, m`outgoing, m`incoming, m`model, m`clusters
    ensures Ready(m)
    ensures forall p :: Listed(m.outgoing, p) == old(Listed(m.outgoing, p))
    ensures |face.exits| == 1 ==> out == face.exits[0] && m.model == old(m.model) && m.names == old(m.names)
    ensures |face.exits| > 1 ==>
              && m.names == old(m.names)[CbOut(name) := out]
              && (if CbOut(name) in old(m.names) then out == old(m.names)[CbOut(name)] else out !in old(m.model.states))
              && m.model == old(m.model).(states := old(m.model.states) + {out}, clusters := m.model.clusters)
              && (forall p :: m.model.InCluster(p) <==> old(m.model).InCluster(p) || p == out)
              && JoinsCluster(old(m.model).clusters, m.model.clusters, face.exits[0], out)
  {
    hide JoinsCluster, EdgesOf, Distinct, BySource, ByDestination, Consistent;
    if |face.exits| > 1 {
      ghost var g := m.model;
      out := m.AddUnconnectedState(CbOut(name));
      assert forall p :: m.model.InCluster(p) <==> g.InCluster(p);
      assert m.model.states == g.states + {out};
      AddToClusterOf(m, face.exits[0], out);
    } else {
      out := face.exits[0];
    }
  }

  /** The site of the callback of s: the one that exists already, or a new one with its way out. */
  method ProvideSite(m: Fsm, s: int, c: Cmd, name: string, ghost ctx: Context, ghost sites: map<Cmd, Site>, ghost callers: set<int>)
      returns (face: Interface, out: int, ghost sites': map<Cmd, Site>)
    requires Progress(m, ctx, sites, callers) && NotNested(ctx)
    requires ctx.Structured(s) && s !in callers && c == ctx.Callback(s) && name == ctx.nameOf(c)
    modifies m
    ensures Ready(m) && c in sites' && face == sites'[c].f.face && out == sites'[c].out
    ensures Spliced(ctx, m.model, sites', callers, if c in sites then {} else {c})
    ensures Remembered(m.interfaces, sites') && OutsNamed(ctx, m.names, sites')
    ensures forall d | d in sites' :: ctx.nameOf(d) in m.counters
    ensures ClustersNamed(ctx, m.model.clusters, sites')
    ensures forall p | p in old(m.model.states) :: Listed(m.outgoing, p) == old(Listed(m.outgoing, p))
  {
    hide ClustersNamed, JoinsCluster, Spliced, Remembered, OutsNamed, NotNested, Compiled, Learned, OnlyNodesAdded, Listed, Graph.InCluster, IsShared, Fsm.Valid, NumbersUsed;
    RememberedIffSite(ctx, m.model, m.interfaces, sites, callers, s);
    ghost var i0, n0, g0 := m.interfaces, m.names, m.model;
    ghost var f;
    face, f := FanOutSingle(m, c, name, true);
    ghost var n1, g1 := m.names, m.model;
    ValidIsConsistent(m);
    if c in i0 {
      SiteKnown(ctx, g0, i0, n0, n1, sites, callers, c);
    } else {
      SiteUnknown(ctx, g0, g1, n0, n1, sites, callers, c, f);
    }
    out := ProvideOut(m, face, name);
    ValidIsConsistent(m);
    if c in i0 {
      sites' := sites;
      SiteReused(ctx, g0, m.model, n0, n1, m.names, sites, callers, c, out);
      ReusedNamed(ctx, g0, m.model, sites, callers, c, out);
    } else {
      sites' := sites[c := Site(f, out)];
      SiteCreated(ctx, g0, g1, m.model, n0, n1, m.names, sites, callers, c, f, out);
      CreatedNamed(ctx, g0, g1, m.model, sites, callers, c, f, out);
      RememberMore(i0, m.interfaces, sites, c, Site(f, out));
    }
  }

  lemma SiteKnown(ctx: Context, g: Graph, interfaces: map<Cmd, Interface>, n0: map<StateName, int>, n1: map<StateName, int>, sites: map<Cmd, Site>, callers: set<int>, c: Cmd)
    requires Spliced(ctx, g, sites, callers, {}) && Remembered(interfaces, sites) && OutsNamed(ctx, n0, sites)
    requires OnlyNodesAdded(n0, n1) && c in sites
    ensures interfaces[c] == sites[c].f.face
    ensures var xs, name := sites[c].f.face.exits, CbOut(ctx.nameOf(c));
            && xs != [] && g.InCluster(xs[0])
            && (name in n1 ==> n1[name] in g.states)
  {
    SiteWithName(ctx, g, n0, n1, sites, callers, c);
    assert SiteReady(ctx, g, c, sites[c]) && Located(c, sites[c].f);
  }

  lemma SiteUnknown(ctx: Context, g0: Graph, g1: Graph, n0: map<StateName, int>, n1: map<StateName, int>, sites: map<Cmd, Site>, callers: set<int>, c: Cmd, f: Fragment)
    requires Spliced(ctx, g0, sites, callers, {}) && OutsNamed(ctx, n0, sites)
    requires OnlyNodesAdded(n0, n1) && Compiled(g0, g1, ctx.nameOf(c), c, f)
    ensures var xs, name := f.face.exits, CbOut(ctx.nameOf(c));
            && xs != [] && g1.InCluster(xs[0])
            && (name in n1 ==> n1[name] in g1.states)
  {
    SiteWithName(ctx, g0, n0, n1, sites, callers, c);
    AddedFacts(ctx, g0, g1, c, f);
  }

  lemma SiteWithName(ctx: Context, g: Graph, n0: map<StateName, int>, n1: map<StateName, int>, sites: map<Cmd, Site>, callers: set<int>, c: Cmd)
    requires Spliced(ctx, g, sites, callers, {}) && OutsNamed(ctx, n0, sites) && OnlyNodesAdded(n0, n1)
    ensures var name := CbOut(ctx.nameOf(c));
            && (name in n1 <==> name in n0)
            && (name in n1 ==> n1[name] == n0[name] && n1[name] in g.states && SameNamedOut(ctx, sites, c, n1[name]))
  {
    var name := CbOut(ctx.nameOf(c));
    if name in n1 {
      assert SameNamedExit(ctx, sites, name.cb, n0[name]);
      var d :| d in sites && IsShared(sites[d]) && sites[d].out == n0[name] && ctx.nameOf(d) == name.cb;
      assert SiteReady(ctx, g, d, sites[d]);
    }
  }

  lemma SiteReused(ctx: Context, g0: Graph, g: Graph, n0: map<StateName, int>, n1: map<StateName, int>, n2: map<StateName, int>,
                   sites: map<Cmd, Site>, callers: set<int>, c: Cmd, out: int)
    requires Spliced(ctx, g0, sites, callers, {}) && OutsNamed(ctx, n0, sites) && OnlyNodesAdded(n0, n1) && c in sites
    requires var xs, name := sites[c].f.face.exits, CbOut(ctx.nameOf(c));
             if |xs| > 1 then
               && n2 == n1[name := out] && (name in n1 ==> out == n1[name])
               && g == g0.(states := g0.states + {out}, clusters := g.clusters)
               && (forall p :: g.InCluster(p) <==> g0.InCluster(p) || p == out)
             else |xs| == 1 ==> out == xs[0] && g == g0 && n2 == n1
    requires Consistent(g)
    ensures out == sites[c].out && Spliced(ctx, g, sites, callers, {}) && OutsNamed(ctx, n2, sites)
  {
    hide Spliced, Consistent, OutsNamed, Graph.InCluster, OnlyNodesAdded;
    var site, name := sites[c], CbOut(ctx.nameOf(c));
    SiteOut(ctx, g0, n0, sites, callers, c);
    SiteWithName(ctx, g0, n0, n1, sites, callers, c);
    OutsNamedMore(ctx, n0, n1, sites);
    if IsShared(site) {
      assert g0.states + {out} == g0.states;
      SplicedKept(ctx, g0, g, sites, callers);
      assert n1[name := out] == n1;
    }
  }

  lemma ReusedNamed(ctx: Context, g0: Graph, g: Graph, sites: map<Cmd, Site>, callers: set<int>, c: Cmd, out: int)
    requires Spliced(ctx, g0, sites, callers, {}) && ClustersNamed(ctx, g0.clusters, sites) && c in sites && out == sites[c].out
    requires var xs := sites[c].f.face.exits;
      if |xs| > 1 then JoinsCluster(g0.clusters, g.clusters, xs[0], out) else |xs| == 1 ==> g == g0
    ensures ClustersNamed(ctx, g.clusters, sites)
  {
    var xs := sites[c].f.face.exits;
    assert SiteReady(ctx, g0, c, sites[c]) && Located(c, sites[c].f);
    if |xs| > 1 {
      var k :| k in g0.clusters && xs[0] in g0.clusters[k] && g.clusters == Clustered(g0.clusters, k, {out});
      SiteCluster(ctx, g0, sites, c, k, xs[0]);
      ClusteredNamed(ctx, g0.clusters, sites, c, {out});
    }
  }

  lemma ClusteredFresh(clusters: map<string, set<int>>, name: string, ids: set<int>, k: string, p: int)
    requires forall j | j in clusters :: p !in clusters[j]
    requires k in Clustered(clusters, name, ids) && p in Clustered(clusters, name, ids)[k]
    ensures k == name
  {}

  lemma CreatedNamed(ctx: Context, g0: Graph, g1: Graph, g: Graph, sites: map<Cmd, Site>, callers: set<int>, c: Cmd, f: Fragment, out: int)
    requires Spliced(ctx, g0, sites, callers, {}) && ClustersNamed(ctx, g0.clusters, sites) && c !in sites
    requires Compiled(g0, g1, ctx.nameOf(c), c, f)
    requires if |f.face.exits| > 1 then JoinsCluster(g1.clusters, g.clusters, f.face.exits[0], out)
             else |f.face.exits| == 1 ==> g == g1
    ensures ClustersNamed(ctx, g.clusters, sites[c := Site(f, out)])
  {
    var sites', xs := sites[c := Site(f, out)], f.face.exits;
    assert Located(c, f) && g1.clusters == Clustered(g0.clusters, ctx.nameOf(c), f.nodes);
    assert f.nodes !! g0.states && forall j | j in g0.clusters :: g0.clusters[j] <= g0.states;
    hide Spliced, Compiled, Implements, Out, Grown, ClustersNamed;
    ClustersNamedMore(ctx, g0.clusters, sites, sites');
    ClusteredNamed(ctx, g0.clusters, sites', c, f.nodes);
    if |xs| > 1 {
      var k :| k in g1.clusters && xs[0] in g1.clusters[k] && g.clusters == Clustered(g1.clusters, k, {out});
      assert xs[0] in f.nodes && xs[0] !in g0.states;
      ClusteredFresh(g0.clusters, ctx.nameOf(c), f.nodes, k, xs[0]);
      ClusteredNamed(ctx, g1.clusters, sites', c, {out});
    }
  }

  lemma SiteOut(ctx: Context, g: Graph, names: map<StateName, int>, sites: map<Cmd, Site>, callers: set<int>, c: Cmd)
    requires Spliced(ctx, g, sites, callers, {}) && OutsNamed(ctx, names, sites) && c in sites
    ensures sites[c].out in g.states && g.InCluster(sites[c].out)
    ensures !IsShared(sites[c]) ==> sites[c].f.face.exits == [sites[c].out]
    ensures IsShared(sites[c]) ==> CbOut(ctx.nameOf(c)) in names && names[CbOut(ctx.nameOf(c))] == sites[c].out
  {
    hide Implements;
    assert SiteReady(ctx, g, c, sites[c]);
  }

  lemma OutsNamedMore(ctx: Context, n0: map<StateName, int>, n1: map<StateName, int>, sites: map<Cmd, Site>)
    requires OutsNamed(ctx, n0, sites) && OnlyNodesAdded(n0, n1)
    ensures OutsNamed(ctx, n1, sites)
  {
    forall n | n in n1 && n.CbOut?
      ensures SameNamedExit(ctx, sites, n.cb, n1[n])
    {
      assert SameNamedExit(ctx, sites, n.cb, n0[n]);
    }
  }

  lemma SiteCreated(ctx: Context, g0: Graph, g1: Graph, g: Graph, n0: map<StateName, int>, n1: map<StateName, int>, n2: map<StateName, int>,
                    sites: map<Cmd, Site>, callers: set<int>, c: Cmd, f: Fragment, out: int)
    requires Spliced(ctx, g0, sites, callers, {}) && OutsNamed(ctx, n0, sites) && OnlyNodesAdded(n0, n1) && c !in sites
    requires Compiled(g0, g1, ctx.nameOf(c), c, f) && Consistent(g1) && Consistent(g)
    requires var xs, name := f.face.exits, CbOut(ctx.nameOf(c));
             if |xs| > 1 then
               && n2 == n1[name := out] && (if name in n1 then out == n1[name] else out !in g1.states)
               && g == g1.(states := g1.states + {out}, clusters := g.clusters)
               && (forall p :: g.InCluster(p) <==> g1.InCluster(p) || p == out)
             else |xs| == 1 ==> out == xs[0] && g == g1 && n2 == n1
    ensures Spliced(ctx, g, sites[c := Site(f, out)], callers, {c}) && OutsNamed(ctx, n2, sites[c := Site(f, out)])
  {
    hide Spliced, Compiled, OutsNamed, OnlyNodesAdded, Consistent, Graph.InCluster, SameNamedOut;
    SiteWithName(ctx, g0, n0, n1, sites, callers, c);
    AddedFacts(ctx, g0, g1, c, f);
    OutsNamedMore(ctx, n0, n1, sites);
    NewOutNamed(ctx, n1, n2, sites, c, f, out);
    assert g.states == g1.states + {out};
    assert SiteAdded(ctx, g0, g1, g, sites, c, f, out);
    NewSite(ctx, g0, g1, g, sites, callers, c, f, out);
  }

  lemma NewOutNamed(ctx: Context, n1: map<StateName, int>, n2: map<StateName, int>, sites: map<Cmd, Site>, c: Cmd, f: Fragment, out: int)
    requires OutsNamed(ctx, n1, sites) && c !in sites
    requires var name := CbOut(ctx.nameOf(c));
             if |f.face.exits| > 1 then n2 == n1[name := out] && (name in n1 ==> out == n1[name]) else n2 == n1
    ensures OutsNamed(ctx, n2, sites[c := Site(f, out)])
  {
    var sites' := sites[c := Site(f, out)];
    forall n | n in n2 && n.CbOut?
      ensures SameNamedExit(ctx, sites', n.cb, n2[n])
    {
      if n in n1 && n2[n] == n1[n] {
        assert SameNamedExit(ctx, sites, n.cb, n1[n]);
        var d :| d in sites && IsShared(sites[d]) && sites[d].out == n1[n] && ctx.nameOf(d) == n.cb;
        assert d in sites' && sites'[d] == sites[d];
      } else {
        assert c in sites' && IsShared(sites'[c]);
      }
    }
    forall d | d in sites' && IsShared(sites'[d])
      ensures CbOut(ctx.nameOf(d)) in n2 && n2[CbOut(ctx.nameOf(d))] == sites'[d].out
    {
      if d != c {
        assert CbOut(ctx.nameOf(d)) in n1;
      }
    }
  }

  lemma RememberMore(before: map<Cmd, Interface>, after: map<Cmd, Interface>, sites: map<Cmd, Site>, c: Cmd, site: Site)
    requires Remembered(before, sites) && Learned(before, after, c) && c in after && after[c] == site.f.face
    ensures Remembered(after, sites[c := site])
  {
    var sites' := sites[c := site];
    forall k | k in after
      ensures k in sites' || IsNumber(k) || PartOfSite(sites', k)
    {
      if k in before && PartOfSite(sites, k) {
        var d :| d in sites && k in Parts(d);
        assert d in sites';
      } else if k in Parts(c) {
        assert c in sites';
      }
    }
  }

  lemma ConnectFacts(ctx: Context, g: Graph, sites: map<Cmd, Site>, callers: set<int>, ready: set<Cmd>, s: int, c: Cmd)
    requires Spliced(ctx, g, sites, callers, ready) && ctx.Structured(s) && s !in callers && c in sites
    ensures var xs, out := sites[c].f.face.exits, sites[c].out;
            && s in g.states && out in g.states && s != out && xs != [] && s !in xs
            && (forall x | x in xs :: x in g.states && x !in ctx.g.states)
            && (forall e | e in sites[c].f.face.entries :: e.state in g.states && e.state !in ctx.g.states)
            && out !in ctx.g.states
            && (|xs| <= 1 ==> xs == [out])
            && Out(g.edges, s) == Out(ctx.g.edges, s)
            && ctx.g.states <= g.states
  {
    assert SiteReady(ctx, g, c, sites[c]) && Located(c, sites[c].f);
  }

  /** Connect a state with a site, and leave it only the remembering of itself, where needed. */
  method ConnectCaller(m: Fsm, s: int, face: Interface, out: int, single: bool) returns (toRemove: seq<FsmTransition>)
    requires Ready(m) && s in m.states && out in m.states && s != out
    requires face.exits != [] && s !in face.exits && (forall x | x in face.exits :: x in m.states)
    requires |face.exits| <= 1 ==> face.exits == [out]
    requires forall e | e in face.entries :: e.state in m.states
    modifies m`plain, m`outgoing, m`incoming, m`states, m`model, m`acts
    ensures Ready(m)
    ensures m.model.states == old(m.model.states) + {s} || m.model.states == old(m.model.states)
    ensures m.model.clusters == old(m.model.clusters)
    ensures m.model.acts == if single then old(m.model.acts)[s := []] else old(m.model.acts)[s := []][s := [] + [Set(LAST, Val(s))]]
    ensures m.model.edges == InsertAll(InsertAll(old(m.model.edges), Exits(face.exits, |face.exits| > 1, out, Out(old(m.model.edges), s),
                               if single then TRUE else Bin(Eq, Var(LAST), Val(s)))), LinkEntries(s, face.entries))
    ensures AsSet(toRemove) == AsSet(old(Listed(m.outgoing, s)))
    ensures forall p | p != s && p != out && p !in face.exits :: Listed(m.outgoing, p) == old(Listed(m.outgoing, p))
    ensures forall t | t in Listed(m.outgoing, s) :: t in AsSet(toRemove) || exists e :: e in face.entries && e.state == t.destination
    ensures AsSet(toRemove) <= AsSet(Listed(m.outgoing, s))
  {
    hide NumbersUsed, Listed, Graph.InCluster, Fsm.Valid, InsertAll, Exits, LinkEntries, Out, Consistent;
    ValidIsConsistent(m);
    var tag := if single then TRUE else Bin(Eq, Var(LAST), Val(s));
    toRemove := ConnectBack(m, s, face.exits, |face.exits| > 1, out, tag);
    assert Listed(m.outgoing, s) == old(Listed(m.outgoing, s));
    ValidIsConsistent(m);
    ConnectEntries(m, s, face.entries);
    ValidIsConsistent(m);
    m.SetActions(s, []);
    ValidIsConsistent(m);
    if !single {
      m.AddAction(s, Set(LAST, Val(s)));
    }
  }

  /** Replace the callback of s by its site. */
  method SpliceState(m: Fsm, s: int, c: Cmd, name: string, single: bool, ghost ctx: Context, ghost sites: map<Cmd, Site>, ghost callers: set<int>)
      returns (toRemove: seq<FsmTransition>, ghost sites': map<Cmd, Site>)
    requires Progress(m, ctx, sites, callers) && NotNested(ctx)
    requires ctx.Structured(s) && s !in callers && c == ctx.Callback(s) && name == ctx.nameOf(c) && (single <==> ctx.IsSingle(s))
    modifies m
    ensures Progress(m, ctx, sites', callers + {s})
    ensures forall p | p in ctx.g.states && p != s :: Listed(m.outgoing, p) == old(Listed(m.outgoing, p))
    ensures AsSet(toRemove) == AsSet(old(Listed(m.outgoing, s)))
    ensures forall t | t in Listed(m.outgoing, s) :: t in AsSet(toRemove) || t.destination !in ctx.g.states
    ensures AsSet(toRemove) <= AsSet(Listed(m.outgoing, s))
  {
    hide ClustersNamed, Spliced, Remembered, OutsNamed, NotNested, Listed, Graph.InCluster, Fsm.Valid, NumbersUsed, InsertAll, Exits, LinkEntries, Out, Consistent;
    SplicedStates(ctx, m.model, sites, callers);
    var face, out;
    face, out, sites' := ProvideSite(m, s, c, name, ctx, sites, callers);
    ghost var g, ready: set<Cmd> := m.model, if c in sites then {} else {c};
    ConnectFacts(ctx, g, sites', callers, ready, s, c);
    ValidIsConsistent(m);
    toRemove := ConnectCaller(m, s, face, out, single);
    SplicedModel(ctx, g, m.model, s, sites'[c], single);
    ConnectStep(ctx, g, sites', callers, ready, s);
  }

  lemma SplicedModel(ctx: Context, g: Graph, g': Graph, s: int, site: Site, single: bool)
    requires ctx.g.Acts(s) != [] && s in g.states && (single <==> ctx.IsSingle(s)) && Out(g.edges, s) == Out(ctx.g.edges, s)
    requires g'.states == g.states + {s} || g'.states == g.states
    requires g'.clusters == g.clusters
    requires g'.acts == if single then g.acts[s := []] else g.acts[s := []][s := [] + [Set(LAST, Val(s))]]
    requires g'.edges == InsertAll(InsertAll(g.edges, Exits(site.f.face.exits, |site.f.face.exits| > 1, site.out, Out(g.edges, s),
                           if single then TRUE else Bin(Eq, Var(LAST), Val(s)))), LinkEntries(s, site.f.face.entries))
    ensures g' == Connected(ctx, g, s, site)
  {
    assert g.states + {s} == g.states;
    assert [] + [Set(LAST, Val(s))] == [Set(LAST, Val(s))];
    assert g.acts[s := []][s := [] + [Set(LAST, Val(s))]] == g.acts[s := [Set(LAST, Val(s))]];
  }

  // ----- all callers

  ghost predicate AloneAmong(g: Graph, nameOf: Cmd -> string, s: int, others: set<int>) {
    forall p | p in others && p != s && g.Acts(p) != [] && g.Acts(s) != [] :: nameOf(g.Acts(p)[0]) != nameOf(g.Acts(s)[0])
  }

  /** Find out which callbacks occur once only: no other state has a callback of the same name. */
  method FindSingles(m: Fsm, nameOf: Cmd -> string) returns (single: map<int, bool>)
    requires m.Valid()
    ensures single.Keys == m.states
    ensures forall s | s in m.states && m.model.Acts(s) != [] :: single[s] == Context(m.model, nameOf).IsSingle(s)
  {
    hide Fsm.Valid;
    ValidIsConsistent(m);
    single := map[];
    var todo := m.states;
    while todo != {}
      invariant todo <= m.states && single.Keys == m.states - todo
      invariant forall s | s in single && m.model.Acts(s) != [] :: single[s] == Context(m.model, nameOf).IsSingle(s)
      decreases todo
    {
      var s := Pick(todo);
      var rest := m.states;
      var alone := true;
      while rest != {}
        invariant rest <= m.states
        invariant alone <==> AloneAmong(m.model, nameOf, s, m.states - rest)
        decreases rest
      {
        var p := Pick(rest);
        assert m.states - (rest - {p}) == (m.states - rest) + {p};
        if p != s && s in m.acts && m.acts[s] != [] && p in m.acts && m.acts[p] != [] {
          if nameOf(m.acts[p][0]) == nameOf(m.acts[s][0]) {
            alone := false;
          }
        }
        rest := rest - {p};
      }
      single := single[s := alone];
      todo := todo - {s};
    }
  }

  /** What has been put aside for removal: the former transitions of the callers. */
  ghost predicate PutAside(m: Fsm, states: set<int>, callers: set<int>, toRemove: seq<FsmTransition>)
    reads m`outgoing
  {
    && (forall t | t in AsSet(toRemove) :: t.source in callers && t.destination in states)
    && (forall s, t | s in callers && t in Listed(m.outgoing, s) :: t in AsSet(toRemove) || t.destination !in states)
  }

  lemma NothingSpliced(g: Graph, nameOf: Cmd -> string, names: map<StateName, int>)
    requires Consistent(g) && (forall s | s in g.states :: !g.InCluster(s)) && forall n | n in names :: !n.CbOut?
    ensures var ctx := Context(g, nameOf); Spliced(ctx, g, map[], {}, {}) && Remembered(map[], map[]) && OutsNamed(ctx, names, map[])
    ensures ClustersNamed(Context(g, nameOf), g.clusters, map[])
  {
    forall k, p | k in g.clusters && p in g.clusters[k]
      ensures false
    {
      assert p in g.states && g.InCluster(p);
    }
  }

  lemma SplicedActs(ctx: Context, g: Graph, sites: map<Cmd, Site>, callers: set<int>, s: int)
    requires Spliced(ctx, g, sites, callers, {}) && s in ctx.g.states && s !in callers
    ensures g.Acts(s) == ctx.g.Acts(s) && Out(g.edges, s) == Out(ctx.g.edges, s)
    ensures forall e | e in Out(g.edges, s) :: e.src == s && e.dst in ctx.g.states
  {
    OutMembers(ctx.g.edges, s);
  }

  lemma ListedEdges(m: Fsm, s: int, targets: set<int>)
    requires m.Valid() && forall e | e in Out(m.model.edges, s) :: e.src == s && e.dst in targets
    ensures forall t | t in Listed(m.outgoing, s) :: t.source == s && t.destination in targets
  {
    ListsAre(m, s);
    hide Fsm.Valid, Out;
    forall t | t in Listed(m.outgoing, s)
      ensures t.source == s && t.destination in targets
    {
      var i :| 0 <= i < |Listed(m.outgoing, s)| && Listed(m.outgoing, s)[i] == t;
      assert EdgesOf(Listed(m.outgoing, s))[i] == t.AsEdge();
      assert t.AsEdge() in Out(m.model.edges, s);
    }
  }

  /** Replace the callbacks of all states that are more than assignments. */
  method SpliceAll(m: Fsm, nameOf: Cmd -> string, ghost ctx: Context) returns (toRemove: seq<FsmTransition>, ghost sites: map<Cmd, Site>)
    requires Ready(m) && ctx == Context(m.model, nameOf) && NotNested(ctx)
    requires m.interfaces == map[] && (forall s | s in m.states :: !m.model.InCluster(s)) && forall n | n in m.names :: !n.CbOut?
    modifies m
    ensures Progress(m, ctx, sites, Callers(ctx))
    ensures PutAside(m, ctx.g.states, Callers(ctx), toRemove)
  {
    hide ClustersNamed, Fsm.Valid, NumbersUsed, Spliced, Remembered, OutsNamed, NotNested, Context.IsSingle, Graph.InCluster, Consistent, Listed, Out;
    ValidIsConsistent(m);
    NothingSpliced(m.model, nameOf, m.names);
    sites, toRemove := map[], [];
    ghost var callers: set<int> := {};
    var single := FindSingles(m, nameOf);
    var todo := m.states;
    ghost var all := m.states;
    while todo != {}
      invariant Progress(m, ctx, sites, callers)
      invariant todo <= all && single.Keys == all && all == ctx.g.states
      invariant forall s | s in all && ctx.g.Acts(s) != [] :: single[s] == ctx.IsSingle(s)
      invariant callers == Callers(ctx) - todo
      invariant PutAside(m, all, callers, toRemove)
      decreases todo
    {
      var s := Pick(todo);
      SplicedActs(ctx, m.model, sites, callers, s);
      ValidIsConsistent(m);
      if s in m.acts && m.acts[s] != [] && !m.acts[s][0].Set? {
        ListedEdges(m, s, all);
        ghost var ts := AsSet(Listed(m.outgoing, s));
        assert forall t | t in ts :: t.source == s && t.destination in all;
        ghost var before := toRemove;
        var more;
        more, sites := SpliceState(m, s, m.acts[s][0], nameOf(m.acts[s][0]), single[s], ctx, sites, callers);
        toRemove := toRemove + more;
        assert AsSet(toRemove) == AsSet(before) + AsSet(more);
        callers := callers + {s};
      }
      todo := todo - {s};
    }
    assert callers == Callers(ctx);
  }

  /** Removing what was put aside leaves the callers their entries only. */
  lemma AsideErased(m: Fsm, ctx: Context, sites: map<Cmd, Site>, toRemove: seq<FsmTransition>)
    requires Progress(m, ctx, sites, Callers(ctx)) && PutAside(m, ctx.g.states, Callers(ctx), toRemove)
    ensures Erased(ctx, m.model, m.model.(edges := EdgesOf(Removing(m.plain, AsSet(toRemove)))))
  {
    hide Fsm.Valid, Spliced, Out, EdgesOf, Removing, NumbersUsed, Remembered, OutsNamed, Callers, AsSet, Listed;
    ListsAre(m, 0);
    RemovingEdges(m.plain, AsSet(toRemove));
    OthersErased(m, Callers(ctx), AsSet(toRemove));
    CallersErased(m, Callers(ctx), ctx.g.states, AsSet(toRemove));
  }

  lemma OthersErased(m: Fsm, callers: set<int>, gone: set<FsmTransition>)
    requires m.Valid() && forall t | t in gone :: t.source in callers
    ensures forall p | p !in callers :: Out(EdgesOf(Removing(m.plain, gone)), p) == Out(m.model.edges, p)
  {
    hide Fsm.Valid, Out, EdgesOf, Removing;
    ListsAre(m, 0);
    forall p
      ensures p !in callers ==> Out(EdgesOf(Removing(m.plain, gone)), p) == Out(m.model.edges, p)
    {
      RemovingOut(m.plain, gone, p);
    }
  }

  lemma CallersErased(m: Fsm, callers: set<int>, targets: set<int>, gone: set<FsmTransition>)
    requires m.Valid() && forall t | t in gone :: t.destination in targets
    requires forall s, t | s in callers && t in Listed(m.outgoing, s) :: t in gone || t.destination !in targets
    ensures forall s | s in callers :: LeftOutside(m.model.edges, EdgesOf(Removing(m.plain, gone)), s, targets)
  {
    hide Fsm.Valid, Out, EdgesOf, Removing, Listed, LeftOutside;
    forall s | s in callers
      ensures LeftOutside(m.model.edges, EdgesOf(Removing(m.plain, gone)), s, targets)
    {
      CallerErased(m, s, targets, gone);
    }
  }

  lemma CallerErased(m: Fsm, s: int, targets: set<int>, gone: set<FsmTransition>)
    requires m.Valid()
    requires forall t | t in gone :: t.destination in targets
    requires forall t | t in Listed(m.outgoing, s) :: t in gone || t.destination !in targets
    ensures LeftOutside(m.model.edges, EdgesOf(Removing(m.plain, gone)), s, targets)
  {
    hide Fsm.Valid, Out, EdgesOf, Removing, Listed;
    RemovingOut(m.plain, gone, s);
    FromIsListed(m, s);
    ListsAre(m, s);
    RemovingByDestination(Listed(m.outgoing, s), gone, d => d !in targets);
  }

  // ----- the whole translation

  ghost predicate IsCallback(g: Graph, c: Cmd) {
    CallbackOf(g, g.states, c) && !c.Set?
  }

  /** What the translation demands of a machine: a callback that is to be compiled is neither a
      proper part of another one nor just a number, and the bookkeeping variable is not used. */
  ghost predicate Compilable(g: Graph) {
    && (forall c | IsCallback(g, c) :: !IsNumber(c))
    && (forall c, d | IsCallback(g, c) && IsCallback(g, d) && c in Parts(d) :: c == d)
    && FreeOfLast(g) && CondFree(g)
  }

  lemma CompilableAfterSplit(g0: Graph, g1: Graph, nameOf: Cmd -> string)
    requires Compilable(g0) && Consistent(g0)
    requires forall s, c | s in g1.states && c in g1.Acts(s) :: CallbackOf(g0, g0.states, c)
    ensures NotNested(Context(g1, nameOf)) && FreeOfLast(g1)
  {
    var ctx := Context(g1, nameOf);
    forall s | ctx.Structured(s)
      ensures IsCallback(g0, ctx.Callback(s))
    {
      assert g1.Acts(s)[0] in g1.Acts(s);
    }
    forall s, c | s in g1.states && c in g1.Acts(s)
      ensures !Uses(c, LAST)
    {
      assert CallbackOf(g0, g0.states, c);
      var q :| q in g0.states && c in g0.Acts(q);
    }
  }

  lemma AllSpliced(ctx: Context, h: Graph, g: Graph, sites: map<Cmd, Site>)
    requires Spliced(ctx, h, sites, Callers(ctx), {}) && Erased(ctx, h, g) && Consistent(g)
    requires ClustersNamed(ctx, h.clusters, sites)
    ensures Settled(ctx, g, sites)
    ensures Removable(g) && Separated(g)
    ensures ctx.g.states <= g.states && forall s | s in ctx.g.states :: !g.InCluster(s)
  {
    assert g.clusters == h.clusters;
    hide Spliced, Erased, Consistent, Settled, RankMap, Removable, Separated, ClustersNamed;
    Settle(ctx, h, g, sites);
    SettledSeparated(ctx, g, sites);
    HasRanks(ctx, g, sites);
    SettledIsRemovable(ctx, g, sites);
    SettledStates(ctx, h, g, sites);
  }

  /** Callback clusters are separated by the states of the machine as it was. */
  lemma SettledSeparated(ctx: Context, g: Graph, sites: map<Cmd, Site>)
    requires Settled(ctx, g, sites) && ClustersNamed(ctx, g.clusters, sites)
    ensures Separated(g)
  {
    forall j, k, p | j in g.clusters && k in g.clusters && p in g.clusters[j] && p in g.clusters[k]
      ensures j == k
    {
      assert InSiteNamed(ctx, sites, j, p);
      var d :| d in sites && ctx.nameOf(d) == j && (p in sites[d].f.nodes || p == sites[d].out);
      SiteCluster(ctx, g, sites, d, k, p);
    }
    forall e, j, k | e in g.edges && j in g.clusters && k in g.clusters && e.src in g.clusters[j] && e.dst in g.clusters[k]
      ensures j == k
    {
      assert InSiteNamed(ctx, sites, j, e.src);
      var d :| d in sites && ctx.nameOf(d) == j && (e.src in sites[d].f.nodes || e.src == sites[d].out);
      assert g.InCluster(e.dst);
      EdgeStaysInSite(ctx, g, sites, d, e);
      SiteCluster(ctx, g, sites, d, k, e.dst);
    }
  }

  lemma EdgeStaysInSite(ctx: Context, g: Graph, sites: map<Cmd, Site>, d: Cmd, e: Edge)
    requires Settled(ctx, g, sites) && d in sites && e in g.edges && g.InCluster(e.dst)
    requires e.src in sites[d].f.nodes || e.src == sites[d].out
    ensures e.dst in sites[d].f.nodes || e.dst == sites[d].out
  {
    var site := sites[d];
    assert SiteReady(ctx, g, d, site) && Located(d, site.f) && Closed(g, site.f);
    assert e.dst !in ctx.g.states;
    OutMembers(g.edges, e.src);
    assert e in Out(g.edges, e.src);
  }

  lemma SettledStates(ctx: Context, h: Graph, g: Graph, sites: map<Cmd, Site>)
    requires Spliced(ctx, h, sites, Callers(ctx), {}) && Erased(ctx, h, g) && Settled(ctx, g, sites)
    ensures ctx.g.states <= g.states && forall s | s in ctx.g.states :: !g.InCluster(s)
  {
  }

  /** No callback of the machine other than the first of s has the name that one has. */
  ghost predicate NameOnce(g: Graph, nameOf: Cmd -> string, s: int)
    requires g.Acts(s) != []
  {
    forall q, j | q in g.states && 0 <= j < |g.Acts(q)| && (q != s || j != 0) :: nameOf(g.Acts(q)[j]) != nameOf(g.Acts(s)[0])
  }

  /** What a state executes in the end: its first callback if that is an assignment; otherwise nothing,
      or the remembering of itself if a callback of the same name occurs elsewhere. */
  ghost function Remaining(g: Graph, nameOf: Cmd -> string, s: int): seq<Cmd> {
    if g.Acts(s) == [] then []
    else if g.Acts(s)[0].Set? then [g.Acts(s)[0]]
    else if NameOnce(g, nameOf, s) then []
    else [Set(LAST, Val(s))]
  }

  /** Where the j-th callback of q went. */
  lemma PlaceOf(g0: Graph, g1: Graph, chains: map<int, seq<int>>, q: int, j: nat) returns (p: int)
    requires EachOnce(g0, g1, chains) && q in g0.states && j < |g0.Acts(q)|
    ensures p in g1.states && g1.Acts(p) == [g0.Acts(q)[j]] && p in chains[q] && (p == q <==> j == 0)
  {
    hide InChain;
    assert HoldsChain(g0, g1, q, chains[q]);
    p := chains[q][j];
    assert j != 0 ==> chains[q][0] != chains[q][j];
  }

  /** Where the callback of p came from. */
  lemma OriginOf(g0: Graph, g1: Graph, chains: map<int, seq<int>>, p: int) returns (q: int, j: nat)
    requires EachOnce(g0, g1, chains) && p in g1.states && g1.Acts(p) != []
    ensures q in g0.states && j < |g0.Acts(q)| && g1.Acts(p) == [g0.Acts(q)[j]] && p in chains[q]
    ensures q == p ==> j == 0
    ensures j == 0 ==> q == p
  {
    assert InChain(chains, p);
    q :| q in chains && p in chains[q];
    assert HoldsChain(g0, g1, q, chains[q]);
    j :| j < |chains[q]| && chains[q][j] == p;
    assert j != 0 ==> chains[q][0] != chains[q][j];
  }

  lemma SameFirst(g0: Graph, g1: Graph, chains: map<int, seq<int>>, s: int)
    requires EachOnce(g0, g1, chains) && s in g0.states
    ensures s in g1.states && g1.Acts(s) == if g0.Acts(s) == [] then [] else [g0.Acts(s)[0]]
    ensures forall q | q in g0.states && s in chains[q] :: q == s
  {
    hide InChain;
    assert HoldsChain(g0, g1, s, chains[s]);
    assert chains[s][0] == s && s in chains[s];
  }

  /** Names are as unique among the states after splitting as among the callbacks before. */
  lemma OnceIffSingle(g0: Graph, g1: Graph, chains: map<int, seq<int>>, nameOf: Cmd -> string, s: int)
    requires EachOnce(g0, g1, chains) && s in g0.states && g0.Acts(s) != [] && g1.Acts(s) == [g0.Acts(s)[0]]
    requires forall q | q in g0.states && s in chains[q] :: q == s
    ensures Context(g1, nameOf).IsSingle(s) <==> NameOnce(g0, nameOf, s)
  {
    hide EachOnce;
    if NameOnce(g0, nameOf, s) {
      forall p | p in g1.states && p != s && g1.Acts(p) != []
        ensures nameOf(g1.Acts(p)[0]) != nameOf(g1.Acts(s)[0])
      {
        var q, j := OriginOf(g0, g1, chains, p);
      }
    }
    if Context(g1, nameOf).IsSingle(s) {
      forall q, j: int | q in g0.states && 0 <= j < |g0.Acts(q)| && (q != s || j != 0)
        ensures nameOf(g0.Acts(q)[j]) != nameOf(g0.Acts(s)[0])
      {
        var p := PlaceOf(g0, g1, chains, q, j);
      }
    }
  }

  lemma FirstStays(g0: Graph, g1: Graph, nameOf: Cmd -> string, s: int)
    requires Distributed(g0, g1) && s in g0.states
    ensures s in g1.states && g1.Acts(s) == if g0.Acts(s) == [] then [] else [g0.Acts(s)[0]]
    ensures g0.Acts(s) != [] ==> (Context(g1, nameOf).IsSingle(s) <==> NameOnce(g0, nameOf, s))
  {
    var chains :| EachOnce(g0, g1, chains);
    assert chains.Keys == g0.states;
    hide EachOnce, NameOnce, Context.IsSingle;
    SameFirst(g0, g1, chains, s);
    if g0.Acts(s) != [] {
      OnceIffSingle(g0, g1, chains, nameOf, s);
    }
  }

  lemma RemainingActs(g0: Graph, ctx: Context, g2: Graph, sites: map<Cmd, Site>, s: int)
    requires Distributed(g0, ctx.g) && Settled(ctx, g2, sites) && s in g0.states
    ensures g2.Acts(s) == Remaining(g0, ctx.nameOf, s)
  {
    hide Distributed, Consistent, Out, SiteReady, Connects, Apart, ReturnsTo, Located1, NameOnce, Graph.InCluster, Context.IsSingle;
    FirstStays(g0, ctx.g, ctx.nameOf, s);
    if ctx.Structured(s) {
      assert CallerSettled(ctx, g2, s, sites[ctx.Callback(s)]);
    } else {
      assert Untouched(ctx.g, g2, s);
    }
  }

  lemma AllRemaining(g0: Graph, ctx: Context, g2: Graph, g3: Graph, sites: map<Cmd, Site>)
    requires Distributed(g0, ctx.g) && Settled(ctx, g2, sites) && OnlyClusterStatesLost(g2, g3)
    requires forall s | s in g0.states :: s in g3.states
    ensures forall s | s in g0.states :: g3.Acts(s) == Remaining(g0, ctx.nameOf, s)
  {
    hide Distributed, Settled, Remaining;
    forall s | s in g0.states
      ensures g3.Acts(s) == Remaining(g0, ctx.nameOf, s)
    {
      RemainingActs(g0, ctx, g2, sites, s);
    }
  }

  /** fanOutAllNonAtomicCallbacksToStates: whatever the data, a step of the machine before, at a state
      with n callbacks, corresponds to max(1, n) steps of the machine after, which end in the same
      state with the same data (up to the variable in which shared callbacks remember their caller). */
  method FanOutAllNonAtomicCallbacks(m: Fsm, nameOf: Cmd -> string)
    requires m.Valid() && (forall s | s in m.states :: s in m.outgoing && !m.model.InCluster(s))
    requires m.interfaces == map[] && forall n | n in m.names :: n.User?
    requires Compilable(m.model)
    modifies m
    ensures m.Valid()
    ensures forall s | s in old(m.model.states) :: s in m.model.states && !m.model.InCluster(s)
    ensures forall s | s in m.model.states :: IsAtomic(m.model.Acts(s))
    ensures forall s: int, w: World | s in old(m.model.states) :: FannedOut(old(m.model), m.model, s, w)
    ensures forall s | s in old(m.model.states) :: m.model.Acts(s) == Remaining(old(m.model), nameOf, s)
    ensures NothingToBypass(m.model) && forall name :: !HasBottleneck(m.model, name)
  {
    hide Remaining, Distributed, NothingToBypass, HasBottleneck, Separated, AllCleaned, ClustersNamed, Fsm.Valid, NumbersUsed, Total, FreeOfLast, CondFree, Settled, Removable, StepsKept, StepsSame, AlwaysLeft, Compilable, NotNested, Graph.InCluster,
      Consistent, Erased, Spliced, Remembered, OutsNamed, Callers, PutAside, Stutters, FannedOut, Removing, EdgesOf, StepsAlike, CallbackOf, IsAtomic;
    ghost var g0 := m.model;
    ValidIsConsistent(m);
    m.prohibitDoubleEdges := false;
    FanOutMultiple(m);
    ghost var g1 := m.model;
    ValidIsConsistent(m);
    SplitClusters(g0, g1);
    NumbersUnused(m.names, m.counters);
    CompilableAfterSplit(g0, g1, nameOf);
    CompilableConds(g0);
    ghost var ctx := Context(g1, nameOf);
    var toRemove;
    ghost var sites;
    toRemove, sites := SpliceAll(m, nameOf, ctx);
    AsideErased(m, ctx, sites, toRemove);
    ghost var h, left := m.model, Removing(m.plain, AsSet(toRemove));
    label before:
    m.RemoveTransitions(toRemove);
    assert old@before(EdgesOf(left)) == EdgesOf(left);
    ghost var g2 := m.model;
    ValidIsConsistent(m);
    AllSpliced(ctx, h, g2, sites);
    AllAtomic(ctx, g2, sites);
    CleanupBottlenecks(m);
    StillAtomic(g2, m.model);
    StatesKept(g1.states, g2, m.model);
    AllRemaining(g0, ctx, g2, m.model, sites);
    SplicedStepsAlike(ctx, g2, m.model, sites);
    forall s: int, w: World | s in g0.states
      ensures FannedOut(g0, m.model, s, w)
    {
      SplitThenSpliced(g0, g1, m.model, s, w);
    }
  }

  lemma AllAtomic(ctx: Context, g: Graph, sites: map<Cmd, Site>)
    requires Settled(ctx, g, sites) && forall s | s in ctx.g.states :: |ctx.g.Acts(s)| <= 1
    ensures forall s | s in g.states :: IsAtomic(g.Acts(s))
  {
    hide Settled, IsAtomic;
    forall s | s in g.states
      ensures IsAtomic(g.Acts(s))
    {
      SettledIsAtomic(ctx, g, sites, s);
    }
  }

  lemma StillAtomic(g: Graph, g': Graph)
    requires OnlyClusterStatesLost(g, g') && forall s | s in g.states :: IsAtomic(g.Acts(s))
    ensures forall s | s in g'.states :: IsAtomic(g'.Acts(s))
  {
    hide IsAtomic;
  }

  lemma StatesKept(states: set<int>, g: Graph, g': Graph)
    requires OnlyClusterStatesLost(g, g') && states <= g.states && forall s | s in states :: !g.InCluster(s)
    ensures forall s | s in states :: s in g'.states && !g'.InCluster(s)
  {
    forall s | s in states
      ensures s in g'.states && !g'.InCluster(s)
    {
      assert s !in g'.states ==> g.InCluster(s);
    }
  }

  lemma SplitClusters(g0: Graph, g1: Graph)
    requires g1.clusters == g0.clusters && Consistent(g0) && forall s | s in g0.states :: !g0.InCluster(s)
    ensures forall s :: !g1.InCluster(s)
  {
    assert forall s :: g1.InCluster(s) <==> g0.InCluster(s);
    forall s
      ensures !g0.InCluster(s)
    {
      if s !in g0.states {
        UnknownState(g0, s);
      }
    }
  }

  lemma NumbersUnused(names: map<StateName, int>, counters: map<string, nat>)
    requires forall n | n in names :: n.User? || n.Further?
    ensures NumbersUsed(names, counters)
  {
  }

  lemma CompilableConds(g: Graph)
    requires Compilable(g)
    ensures CondFree(g)
  {
  }
}
