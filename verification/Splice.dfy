/** Replacing the callback of a state by the sub-machine compiled from it: what has been achieved
    after any number of states, as statements about values.  A site is what was compiled from one
    callback; every state with that callback is connected with it, and finds its way back from it by
    a tag on the transitions that leave it.  Each further connection, and each further site, leaves
    the earlier ones correct. */
module Splice {
  import opened Options
  import opened Terms
  import opened Programs
  import opened Graphs
  import opened Fragments
  import opened Machines
  import opened FanOut

  /** The sub-machine of a callback, and the state whose transitions lead back to the callers'
      successors: the only exit, or the common exit behind all of them. */
  datatype Site = Site(f: Fragment, out: int)

  /** The machine to be transformed, with one callback per state at most, and how callbacks are named. */
  datatype Context = Context(g: Graph, nameOf: Cmd -> string)
  {
    /** s has a callback that is more than an assignment. */
    predicate Structured(s: int) {
      s in g.states && g.Acts(s) != [] && !g.Acts(s)[0].Set?
    }

    function Callback(s: int): Cmd
      requires g.Acts(s) != []
    {
      g.Acts(s)[0]
    }

    /** No other state has a callback of the same name. */
    ghost predicate IsSingle(s: int)
      requires g.Acts(s) != []
    {
      forall p | p in g.states && p != s && g.Acts(p) != [] :: nameOf(Callback(p)) != nameOf(Callback(s))
    }

    /** The condition under which the way back to the successors of s is open. */
    ghost function Tag(s: int): Expr
      requires g.Acts(s) != []
    {
      if IsSingle(s) then TRUE else Bin(Eq, Var(LAST), Val(s))
    }

    /** What s executes once its callback has been moved out. */
    ghost function CallerActs(s: int): seq<Cmd>
      requires g.Acts(s) != []
    {
      if IsSingle(s) then [] else [Set(LAST, Val(s))]
    }
  }

  ghost predicate IsShared(site: Site) {
    |site.f.face.exits| > 1
  }

  ghost predicate AllLeadTo(es: seq<Edge>, d: int) {
    forall e | e in es :: e.dst == d && e.cond == TRUE
  }

  /** The site implements c and lies in the callback clusters; its exits lead to its way out. */
  ghost predicate SiteReady(ctx: Context, g: Graph, c: Cmd, site: Site) {
    && Implements(g, c, site.f)
    && site.f.nodes !! ctx.g.states && site.out !in ctx.g.states
    && site.f.nodes <= g.states && site.out in g.states
    && (forall n | n in site.f.nodes :: g.InCluster(n))
    && g.InCluster(site.out)
    && (if IsShared(site) then
          && site.out !in site.f.nodes && g.Acts(site.out) == []
          && (forall x | x in site.f.face.exits :: AllLeadTo(Out(g.edges, x), site.out))
        else site.f.face.exits == [site.out])
    && (forall e | e in Out(g.edges, site.out) :: e.dst in ctx.g.states)
  }

  /** The exits do lead to the way out. */
  ghost predicate Connects(g: Graph, site: Site) {
    IsShared(site) ==> forall x | x in site.f.face.exits :: Out(g.edges, x) != []
  }

  ghost predicate ReturnsTo(ctx: Context, g: Graph, s: int, out: int, w: World)
    requires ctx.g.Acts(s) != []
  {
    Holds(ctx.Tag(s), w) ==> First(Out(g.edges, out), w, {}) == First(Out(ctx.g.edges, s), w, {})
  }

  /** s enters the site of its callback and the site leads back to where s led, in the same order. */
  ghost predicate CallerOk(ctx: Context, g: Graph, s: int, site: Site) {
    && ctx.Structured(s)
    && g.Acts(s) == ctx.CallerActs(s)
    && (forall w: World :: ReturnsTo(ctx, g, s, site.out, w))
    && (forall e :: e in Out(g.edges, s) <==> e in Out(ctx.g.edges, s) || (e.src == s && Entry(e.dst, e.cond) in site.f.face.entries))
  }

  /** A transition that leads back was put there for one of the callers. */
  ghost predicate Owned(ctx: Context, sites: map<Cmd, Site>, callers: set<int>, out: int, e: Edge) {
    exists s :: s in callers && ctx.Structured(s) && ctx.Callback(s) in sites && sites[ctx.Callback(s)].out == out
      && e.cond.Bin? && e.cond.op == And && e.cond.right == ctx.Tag(s)
  }

  ghost predicate Apart(ctx: Context, c: Cmd, a: Site, d: Cmd, b: Site) {
    && a.f.nodes !! b.f.nodes && a.out !in b.f.nodes && b.out !in a.f.nodes
    && (a.out == b.out ==> ctx.nameOf(c) == ctx.nameOf(d))
  }

  ghost predicate Located1(p: int, sites: map<Cmd, Site>) {
    exists c :: c in sites && (p in sites[c].f.nodes || p == sites[c].out)
  }

  ghost predicate HasCaller(ctx: Context, callers: set<int>, c: Cmd) {
    exists s :: s in callers && ctx.Structured(s) && ctx.Callback(s) == c
  }

  /** How far the machine has been transformed: the callers are done, their sites are in place, and
      all other states are as they were.  The sites of ready are not connected to a caller yet. */
  ghost predicate Spliced(ctx: Context, g: Graph, sites: map<Cmd, Site>, callers: set<int>, ready: set<Cmd>) {
    && Consistent(g) && Consistent(ctx.g) && ctx.g.states <= g.states
    && (forall s | s in ctx.g.states && s !in callers :: Out(g.edges, s) == Out(ctx.g.edges, s) && g.Acts(s) == ctx.g.Acts(s))
    && (forall s | s in ctx.g.states :: !g.InCluster(s))
    && (forall s | s in callers :: ctx.Structured(s) && ctx.Callback(s) in sites && CallerOk(ctx, g, s, sites[ctx.Callback(s)]))
    && (forall c {:trigger SiteReady(ctx, g, c, sites[c])} | c in sites :: SiteReady(ctx, g, c, sites[c]))
    && (forall c {:trigger Connects(g, sites[c])} {:trigger HasCaller(ctx, callers, c)} | c in sites && c !in ready ::
          Connects(g, sites[c]) && HasCaller(ctx, callers, c))
    && (forall c, d {:trigger Apart(ctx, c, sites[c], d, sites[d])} | c in sites && d in sites && c != d ::
          Apart(ctx, c, sites[c], d, sites[d]))
    && (forall c, e {:trigger Owned(ctx, sites, callers, sites[c].out, e)} | c in sites && e in Out(g.edges, sites[c].out) ::
          Owned(ctx, sites, callers, sites[c].out, e))
    && (forall p | p in g.states :: p in ctx.g.states || Located1(p, sites))
  }

  // ----- the transitions that lead back

  /** Copies of ex that leave out, each under the additional condition tag. */
  function Returns(ex: seq<Edge>, out: int, tag: Expr): seq<Edge> {
    if ex == [] then [] else
      var e := ex[|ex| - 1];
      Returns(ex[..|ex| - 1], out, tag) + [Edge(out, e.dst, Bin(And, e.cond, tag))]
  }

  /** What is added for every exit: the way to the common exit, if there is one, and from there on. */
  function Exits(xs: seq<int>, shared: bool, out: int, ex: seq<Edge>, tag: Expr): seq<Edge> {
    if xs == [] then [] else
      Exits(xs[..|xs| - 1], shared, out, ex, tag)
      + (if shared then [Edge(xs[|xs| - 1], out, TRUE)] else [])
      + Returns(ex, out, tag)
  }

  lemma {:induction false} ReturnsFire(ex: seq<Edge>, out: int, tag: Expr, w: World)
    ensures First(Out(Returns(ex, out, tag), out), w, {}) == if Holds(tag, w) then First(ex, w, {}) else None
  {
    if ex != [] {
      var e, rest := ex[|ex| - 1], Returns(ex[..|ex| - 1], out, tag);
      var n := Edge(out, e.dst, Bin(And, e.cond, tag));
      ReturnsFire(ex[..|ex| - 1], out, tag, w);
      assert Returns(ex, out, tag) == rest + [n];
      assert Holds(n.cond, w) <==> Holds(e.cond, w) && Holds(tag, w);
      hide Returns, Holds;
      OutSnoc(rest, n);
      FirstSnoc(Out(rest, out), n, w, {});
    }
  }

  lemma {:induction false} ReturnsMembers(ex: seq<Edge>, out: int, tag: Expr)
    ensures forall e | e in Returns(ex, out, tag) :: e.src == out && exists d :: d in ex && e == Edge(out, d.dst, Bin(And, d.cond, tag))
  {
    if ex != [] {
      var rest := ex[..|ex| - 1];
      ReturnsMembers(rest, out, tag);
      assert ex == rest + [ex[|ex| - 1]];
      forall e | e in Returns(ex, out, tag)
        ensures e.src == out && exists d :: d in ex && e == Edge(out, d.dst, Bin(And, d.cond, tag))
      {
        if e in Returns(rest, out, tag) {
          var d :| d in rest && e == Edge(out, d.dst, Bin(And, d.cond, tag));
          assert d in ex;
        } else {
          assert ex[|ex| - 1] in ex;
        }
      }
    }
  }

  /** Repeating the way back once per exit does not change where it leads. */
  lemma {:induction false} ExitsFire(xs: seq<int>, shared: bool, out: int, ex: seq<Edge>, tag: Expr, w: World)
    requires xs != [] && (shared ==> out !in xs)
    ensures First(Out(Exits(xs, shared, out, ex, tag), out), w, {}) == if Holds(tag, w) then First(ex, w, {}) else None
  {
    var x, rest := xs[|xs| - 1], xs[..|xs| - 1];
    var before := Exits(rest, shared, out, ex, tag);
    var link := if shared then [Edge(x, out, TRUE)] else [];
    assert x in xs && forall y | y in rest :: y in xs;
    OutAppend(before, link, out);
    OutAppend(before + link, Returns(ex, out, tag), out);
    assert Out(link, out) == [];
    assert Out(before + link, out) == Out(before, out);
    FirstAppend(Out(before, out), Out(Returns(ex, out, tag), out), w, {});
    ReturnsFire(ex, out, tag, w);
    if rest != [] {
      ExitsFire(rest, shared, out, ex, tag, w);
    }
  }

  ghost predicate IsExitLink(e: Edge, xs: seq<int>, shared: bool, out: int) {
    shared && e.src in xs && e.dst == out && e.cond == TRUE
  }

  ghost predicate IsReturn(e: Edge, out: int, ex: seq<Edge>, tag: Expr) {
    e.src == out && exists d :: d in ex && e == Edge(out, d.dst, Bin(And, d.cond, tag))
  }

  lemma {:induction false} ExitsMembers(xs: seq<int>, shared: bool, out: int, ex: seq<Edge>, tag: Expr)
    ensures forall e | e in Exits(xs, shared, out, ex, tag) :: IsExitLink(e, xs, shared, out) || IsReturn(e, out, ex, tag)
    ensures shared ==> forall x | x in xs :: Edge(x, out, TRUE) in Exits(xs, shared, out, ex, tag)
  {
    if xs != [] {
      var rest := xs[..|xs| - 1];
      assert xs == rest + [xs[|xs| - 1]];
      ExitsMembers(rest, shared, out, ex, tag);
      ReturnsMembers(ex, out, tag);
    }
  }

  // ----- the machine after one more caller

  /** g with s connected to the site. */
  ghost function Connected(ctx: Context, g: Graph, s: int, site: Site): Graph
    requires ctx.g.Acts(s) != []
  {
    var back := Exits(site.f.face.exits, IsShared(site), site.out, Out(ctx.g.edges, s), ctx.Tag(s));
    g.(edges := InsertAll(InsertAll(g.edges, back), LinkEntries(s, site.f.face.entries)),
       acts := g.acts[s := ctx.CallerActs(s)])
  }

  lemma ConnectedElsewhere(ctx: Context, g: Graph, s: int, site: Site, p: int)
    requires ctx.g.Acts(s) != [] && p != s && p != site.out && (IsShared(site) ==> p !in site.f.face.exits)
    ensures Out(Connected(ctx, g, s, site).edges, p) == Out(g.edges, p)
  {
    var back := Exits(site.f.face.exits, IsShared(site), site.out, Out(ctx.g.edges, s), ctx.Tag(s));
    ExitsMembers(site.f.face.exits, IsShared(site), site.out, Out(ctx.g.edges, s), ctx.Tag(s));
    LinkEntriesMembers(s, site.f.face.entries);
    InsertAllSameOut(g.edges, back, p);
    InsertAllSameOut(InsertAll(g.edges, back), LinkEntries(s, site.f.face.entries), p);
  }

  lemma ConnectedMembers(ctx: Context, g: Graph, s: int, site: Site, e: Edge)
    requires ctx.g.Acts(s) != [] && e in Connected(ctx, g, s, site).edges
    ensures e in g.edges || IsExitLink(e, site.f.face.exits, IsShared(site), site.out)
            || IsReturn(e, site.out, Out(ctx.g.edges, s), ctx.Tag(s))
            || (e.src == s && Entry(e.dst, e.cond) in site.f.face.entries)
  {
    var back := Exits(site.f.face.exits, IsShared(site), site.out, Out(ctx.g.edges, s), ctx.Tag(s));
    ExitsMembers(site.f.face.exits, IsShared(site), site.out, Out(ctx.g.edges, s), ctx.Tag(s));
    LinkEntriesMembers(s, site.f.face.entries);
    InsertAllMembers(g.edges, back);
    InsertAllMembers(InsertAll(g.edges, back), LinkEntries(s, site.f.face.entries));
  }

  lemma ConnectedHas(ctx: Context, g: Graph, s: int, site: Site)
    requires ctx.g.Acts(s) != []
    ensures forall e | e in g.edges :: e in Connected(ctx, g, s, site).edges
    ensures IsShared(site) ==> forall x | x in site.f.face.exits :: Edge(x, site.out, TRUE) in Connected(ctx, g, s, site).edges
    ensures forall e: Edge | e.src == s && Entry(e.dst, e.cond) in site.f.face.entries :: e in Connected(ctx, g, s, site).edges
  {
    var back := Exits(site.f.face.exits, IsShared(site), site.out, Out(ctx.g.edges, s), ctx.Tag(s));
    ExitsMembers(site.f.face.exits, IsShared(site), site.out, Out(ctx.g.edges, s), ctx.Tag(s));
    LinkEntriesMembers(s, site.f.face.entries);
    InsertAllMembers(g.edges, back);
    InsertAllMembers(InsertAll(g.edges, back), LinkEntries(s, site.f.face.entries));
  }

  lemma ConnectedFire(ctx: Context, g: Graph, s: int, site: Site, w: World)
    requires ctx.g.Acts(s) != [] && s != site.out && site.f.face.exits != []
    requires IsShared(site) ==> site.out !in site.f.face.exits
    ensures First(Out(Connected(ctx, g, s, site).edges, site.out), w, {})
         == OrElse(First(Out(g.edges, site.out), w, {}), if Holds(ctx.Tag(s), w) then First(Out(ctx.g.edges, s), w, {}) else None)
  {
    var xs, ex, tag := site.f.face.exits, Out(ctx.g.edges, s), ctx.Tag(s);
    var back := Exits(xs, IsShared(site), site.out, ex, tag);
    LinkEntriesMembers(s, site.f.face.entries);
    InsertAllSameOut(InsertAll(g.edges, back), LinkEntries(s, site.f.face.entries), site.out);
    InsertAllFirst(g.edges, back, site.out, w, {});
    ExitsFire(xs, IsShared(site), site.out, ex, tag, w);
  }

  lemma TagHolds(ctx: Context, s: int, w: World)
    requires ctx.g.Acts(s) != []
    ensures Holds(ctx.Tag(s), w) <==> ctx.IsSingle(s) || w.Get(LAST) == s
  {
    assert Eval(Bin(Eq, Var(LAST), Val(s)), w) == FromBool(Eval(Var(LAST), w) == Eval(Val(s), w));
  }

  /** Two states that share a way out are told apart by their tags. */
  lemma TagsExclude(ctx: Context, s: int, t: int, w: World)
    requires ctx.Structured(s) && ctx.Structured(t) && s != t
    requires ctx.nameOf(ctx.Callback(s)) == ctx.nameOf(ctx.Callback(t))
    ensures !(Holds(ctx.Tag(s), w) && Holds(ctx.Tag(t), w))
  {
    assert !ctx.IsSingle(s) && !ctx.IsSingle(t);
    TagHolds(ctx, s, w);
    TagHolds(ctx, t, w);
  }

  lemma OwnedIsClosed(ctx: Context, sites: map<Cmd, Site>, callers: set<int>, s: int, e: Edge, w: World)
    requires ctx.Structured(s) && s !in callers && ctx.Callback(s) in sites && Holds(ctx.Tag(s), w)
    requires forall c, d | c in sites && d in sites && c != d :: Apart(ctx, c, sites[c], d, sites[d])
    requires Owned(ctx, sites, callers, sites[ctx.Callback(s)].out, e)
    ensures !Holds(e.cond, w)
  {
    var c := ctx.Callback(s);
    var t :| t in callers && ctx.Structured(t) && ctx.Callback(t) in sites && sites[ctx.Callback(t)].out == sites[c].out
      && e.cond.Bin? && e.cond.op == And && e.cond.right == ctx.Tag(t);
    assert ctx.Callback(t) == c || Apart(ctx, c, sites[c], ctx.Callback(t), sites[ctx.Callback(t)]);
    AndHolds(e.cond.left, e.cond.right, w);
    TagsExclude(ctx, s, t, w);
  }

  lemma AndHolds(a: Expr, b: Expr, w: World)
    ensures Holds(Bin(And, a, b), w) <==> Holds(a, w) && Holds(b, w)
  {
  }

  /** Nothing leads back yet as far as s is concerned. */
  lemma NothingReturns(ctx: Context, g: Graph, sites: map<Cmd, Site>, callers: set<int>, ready: set<Cmd>, s: int, w: World)
    requires Spliced(ctx, g, sites, callers, ready)
    requires ctx.Structured(s) && s !in callers && ctx.Callback(s) in sites && Holds(ctx.Tag(s), w)
    ensures First(Out(g.edges, sites[ctx.Callback(s)].out), w, {}).None?
  {
    var es := Out(g.edges, sites[ctx.Callback(s)].out);
    forall e | e in es
      ensures !Holds(e.cond, w)
    {
      OwnedIsClosed(ctx, sites, callers, s, e, w);
    }
    hide Spliced, Out, Holds;
    FirstIsHit(es, w, {});
  }

  lemma StepCaller(ctx: Context, g: Graph, sites: map<Cmd, Site>, callers: set<int>, ready: set<Cmd>, s: int)
    requires Spliced(ctx, g, sites, callers, ready)
    requires ctx.Structured(s) && s !in callers && ctx.Callback(s) in sites
    ensures CallerOk(ctx, Connected(ctx, g, s, sites[ctx.Callback(s)]), s, sites[ctx.Callback(s)])
  {
    var c := ctx.Callback(s);
    var site := sites[c];
    var g' := Connected(ctx, g, s, site);
    assert SiteReady(ctx, g, c, site) && Located(c, site.f);
    forall w: World
      ensures ReturnsTo(ctx, g', s, site.out, w)
    {
      if Holds(ctx.Tag(s), w) {
        NothingReturns(ctx, g, sites, callers, ready, s, w);
      }
      ConnectedFire(ctx, g, s, site, w);
    }
    OutMembers(g'.edges, s);
    OutMembers(ctx.g.edges, s);
    OutMembers(g.edges, s);
    ConnectedHas(ctx, g, s, site);
    forall e: Edge | e in g'.edges && e.src == s
      ensures e in Out(ctx.g.edges, s) || Entry(e.dst, e.cond) in site.f.face.entries
    {
      ConnectedMembers(ctx, g, s, site, e);
    }
  }

  lemma StepOtherCaller(ctx: Context, g: Graph, sites: map<Cmd, Site>, callers: set<int>, ready: set<Cmd>, s: int, t: int)
    requires Spliced(ctx, g, sites, callers, ready)
    requires ctx.Structured(s) && s !in callers && ctx.Callback(s) in sites && t in callers
    ensures CallerOk(ctx, Connected(ctx, g, s, sites[ctx.Callback(s)]), t, sites[ctx.Callback(t)])
  {
    var c, d := ctx.Callback(s), ctx.Callback(t);
    var site, other := sites[c], sites[d];
    var g' := Connected(ctx, g, s, site);
    assert SiteReady(ctx, g, c, site) && Located(c, site.f) && SiteReady(ctx, g, d, other);
    assert CallerOk(ctx, g, t, other);
    assert c == d || Apart(ctx, c, site, d, other);
    ConnectedElsewhere(ctx, g, s, site, t);
    forall w: World
      ensures ReturnsTo(ctx, g', t, other.out, w)
    {
      assert ReturnsTo(ctx, g, t, other.out, w);
      if other.out == site.out {
        ConnectedFire(ctx, g, s, site, w);
        TagsExclude(ctx, s, t, w);
      } else {
        ConnectedElsewhere(ctx, g, s, site, other.out);
      }
    }
  }

  lemma SameClusters(g: Graph, g': Graph)
    requires g'.clusters == g.clusters
    ensures forall p :: g'.InCluster(p) <==> g.InCluster(p)
  {}

  lemma SiteParts(ctx: Context, g: Graph, sites: map<Cmd, Site>, callers: set<int>, ready: set<Cmd>, c: Cmd, d: Cmd)
    requires Spliced(ctx, g, sites, callers, ready) && c in sites && d in sites
    ensures SiteReady(ctx, g, c, sites[c]) && Located(c, sites[c].f)
    ensures c != d ==> Apart(ctx, c, sites[c], d, sites[d])
    ensures Consistent(ctx.g) && Consistent(g)
  {}

  lemma StepSite(ctx: Context, g: Graph, sites: map<Cmd, Site>, callers: set<int>, ready: set<Cmd>, s: int, d: Cmd)
    requires Spliced(ctx, g, sites, callers, ready)
    requires ctx.Structured(s) && s !in callers && ctx.Callback(s) in sites && d in sites
    ensures SiteReady(ctx, Connected(ctx, g, s, sites[ctx.Callback(s)]), d, sites[d])
  {
    hide Implements, Located, Spliced, First, Owned, Graph.InCluster, Consistent, Apart;
    var c := ctx.Callback(s);
    var site, other := sites[c], sites[d];
    var g' := Connected(ctx, g, s, site);
    SiteParts(ctx, g, sites, callers, ready, c, d);
    SiteParts(ctx, g, sites, callers, ready, d, c);
    assert g'.clusters == g.clusters;
    SameClusters(g, g');
    forall n | n in other.f.nodes && n !in other.f.face.exits
      ensures Out(g'.edges, n) == Out(g.edges, n)
    {
      ConnectedElsewhere(ctx, g, s, site, n);
    }
    ImplementsSame(g, g', d, other.f);
    OutMembers(g'.edges, other.out);
    OutMembers(g.edges, other.out);
    OutMembers(ctx.g.edges, s);
    forall e | e in Out(g'.edges, other.out)
      ensures e.dst in ctx.g.states
    {
      ConnectedMembers(ctx, g, s, site, e);
      ReturnTarget(ctx, s, site, e);
    }
    if IsShared(other) {
      forall x | x in other.f.face.exits
        ensures AllLeadTo(Out(g'.edges, x), other.out)
      {
        StepExit(ctx, g, s, site, other, x);
      }
    }
  }

  lemma ReturnTarget(ctx: Context, s: int, site: Site, e: Edge)
    requires ctx.Structured(s) && Consistent(ctx.g)
    ensures IsReturn(e, site.out, Out(ctx.g.edges, s), ctx.Tag(s)) ==> e.dst in ctx.g.states
  {
    OutMembers(ctx.g.edges, s);
  }

  lemma StepExit(ctx: Context, g: Graph, s: int, site: Site, other: Site, x: int)
    requires ctx.g.Acts(s) != [] && x != s && x != site.out && AllLeadTo(Out(g.edges, x), other.out)
    requires other == site || x !in site.f.face.exits
    ensures AllLeadTo(Out(Connected(ctx, g, s, site).edges, x), other.out)
    ensures Out(g.edges, x) != [] ==> Out(Connected(ctx, g, s, site).edges, x) != []
    ensures IsShared(site) && x in site.f.face.exits ==> Out(Connected(ctx, g, s, site).edges, x) != []
  {
    var g' := Connected(ctx, g, s, site);
    OutMembers(g'.edges, x);
    OutMembers(g.edges, x);
    ConnectedHas(ctx, g, s, site);
    hide Out, Connected;
    if x !in site.f.face.exits {
      ConnectedElsewhere(ctx, g, s, site, x);
    } else {
      forall e | e in Out(g'.edges, x)
        ensures e.dst == other.out && e.cond == TRUE
      {
        ConnectedMembers(ctx, g, s, site, e);
      }
      if Out(g.edges, x) != [] {
        assert Out(g.edges, x)[0] in Out(g'.edges, x);
      }
      if IsShared(site) {
        assert Edge(x, site.out, TRUE) in Out(g'.edges, x);
      }
    }
  }

  lemma StepConnects(ctx: Context, g: Graph, sites: map<Cmd, Site>, callers: set<int>, ready: set<Cmd>, s: int, d: Cmd)
    requires Spliced(ctx, g, sites, callers, ready)
    requires ctx.Structured(s) && s !in callers && ctx.Callback(s) in sites && d in sites
    requires d in ready ==> d == ctx.Callback(s)
    ensures Connects(Connected(ctx, g, s, sites[ctx.Callback(s)]), sites[d])
  {
    var c := ctx.Callback(s);
    var site, other := sites[c], sites[d];
    assert SiteReady(ctx, g, c, site) && Located(c, site.f) && SiteReady(ctx, g, d, other) && Located(d, other.f);
    assert c == d || (Apart(ctx, c, site, d, other) && Connects(g, other));
    hide Implements, Located, Spliced, Out, Connected;
    if IsShared(other) {
      forall x | x in other.f.face.exits
        ensures Out(Connected(ctx, g, s, site).edges, x) != []
      {
        StepExit(ctx, g, s, site, other, x);
      }
    }
  }

  lemma StepOwned(ctx: Context, g: Graph, sites: map<Cmd, Site>, callers: set<int>, ready: set<Cmd>, s: int, d: Cmd, e: Edge)
    requires Spliced(ctx, g, sites, callers, ready)
    requires ctx.Structured(s) && s !in callers && ctx.Callback(s) in sites && d in sites
    requires e in Out(Connected(ctx, g, s, sites[ctx.Callback(s)]).edges, sites[d].out)
    ensures Owned(ctx, sites, callers + {s}, sites[d].out, e)
  {
    var c := ctx.Callback(s);
    var site, other := sites[c], sites[d];
    assert SiteReady(ctx, g, c, site) && Located(c, site.f) && SiteReady(ctx, g, d, other);
    assert c == d || Apart(ctx, c, site, d, other);
    OutMembers(g.edges, other.out);
    OutMembers(Connected(ctx, g, s, site).edges, other.out);
    ConnectedMembers(ctx, g, s, site, e);
    if e in g.edges {
      assert e in Out(g.edges, other.out);
      assert Owned(ctx, sites, callers, other.out, e);
    } else {
      assert e.cond.right == ctx.Tag(s);
      assert s in callers + {s};
    }
  }

  lemma StepConsistent(ctx: Context, g: Graph, sites: map<Cmd, Site>, callers: set<int>, ready: set<Cmd>, s: int)
    requires Spliced(ctx, g, sites, callers, ready)
    requires ctx.Structured(s) && ctx.Callback(s) in sites
    ensures Consistent(Connected(ctx, g, s, sites[ctx.Callback(s)]))
  {
    var c := ctx.Callback(s);
    var site := sites[c];
    assert SiteReady(ctx, g, c, site) && Located(c, site.f);
    var g' := Connected(ctx, g, s, site);
    forall e | e in g'.edges
      ensures e.src in g'.states && e.dst in g'.states
    {
      ConnectedMembers(ctx, g, s, site, e);
      ReturnTarget(ctx, s, site, e);
    }
  }

  lemma StepUntouched(ctx: Context, g: Graph, sites: map<Cmd, Site>, callers: set<int>, ready: set<Cmd>, s: int, t: int)
    requires Spliced(ctx, g, sites, callers, ready)
    requires ctx.Structured(s) && ctx.Callback(s) in sites && t in ctx.g.states && t != s
    ensures var g' := Connected(ctx, g, s, sites[ctx.Callback(s)]);
            Out(g'.edges, t) == Out(g.edges, t) && g'.Acts(t) == g.Acts(t)
  {
    var c := ctx.Callback(s);
    assert SiteReady(ctx, g, c, sites[c]) && Located(c, sites[c].f);
    ConnectedElsewhere(ctx, g, s, sites[c], t);
  }

  lemma StepHasCaller(ctx: Context, sites: map<Cmd, Site>, callers: set<int>, ready: set<Cmd>, s: int, d: Cmd)
    requires ctx.Structured(s) && ready <= {ctx.Callback(s)}
    requires d !in ready ==> HasCaller(ctx, callers, d)
    ensures HasCaller(ctx, callers + {s}, d)
  {
    if d in ready {
      assert s in callers + {s};
    } else {
      var t :| t in callers && ctx.Structured(t) && ctx.Callback(t) == d;
      assert t in callers + {s};
    }
  }

  lemma StepCallers(ctx: Context, g: Graph, sites: map<Cmd, Site>, callers: set<int>, ready: set<Cmd>, s: int)
    requires Spliced(ctx, g, sites, callers, ready)
    requires ctx.Structured(s) && s !in callers && ctx.Callback(s) in sites && ready <= {ctx.Callback(s)}
    ensures var g' := Connected(ctx, g, s, sites[ctx.Callback(s)]);
            forall t | t in callers + {s} :: ctx.Structured(t) && ctx.Callback(t) in sites && CallerOk(ctx, g', t, sites[ctx.Callback(t)])
  {
    hide CallerOk, Out, Connected;
    StepCaller(ctx, g, sites, callers, ready, s);
    forall t | t in callers
      ensures CallerOk(ctx, Connected(ctx, g, s, sites[ctx.Callback(s)]), t, sites[ctx.Callback(t)])
    {
      StepOtherCaller(ctx, g, sites, callers, ready, s, t);
    }
  }

  lemma StepSites(ctx: Context, g: Graph, sites: map<Cmd, Site>, callers: set<int>, ready: set<Cmd>, s: int)
    requires Spliced(ctx, g, sites, callers, ready)
    requires ctx.Structured(s) && s !in callers && ctx.Callback(s) in sites && ready <= {ctx.Callback(s)}
    ensures var g' := Connected(ctx, g, s, sites[ctx.Callback(s)]);
            forall d | d in sites :: SiteReady(ctx, g', d, sites[d]) && Connects(g', sites[d]) && HasCaller(ctx, callers + {s}, d)
  {
    forall d | d in sites
      ensures d !in ready ==> HasCaller(ctx, callers, d)
    {}
    hide SiteReady, Connects, HasCaller, Connected, Spliced;
    forall d | d in sites
      ensures var g' := Connected(ctx, g, s, sites[ctx.Callback(s)]);
              SiteReady(ctx, g', d, sites[d]) && Connects(g', sites[d]) && HasCaller(ctx, callers + {s}, d)
    {
      StepSite(ctx, g, sites, callers, ready, s, d);
      StepConnects(ctx, g, sites, callers, ready, s, d);
      StepHasCaller(ctx, sites, callers, ready, s, d);
    }
  }

  lemma StepOwners(ctx: Context, g: Graph, sites: map<Cmd, Site>, callers: set<int>, ready: set<Cmd>, s: int)
    requires Spliced(ctx, g, sites, callers, ready)
    requires ctx.Structured(s) && s !in callers && ctx.Callback(s) in sites && ready <= {ctx.Callback(s)}
    ensures var g' := Connected(ctx, g, s, sites[ctx.Callback(s)]);
            forall d, e | d in sites && e in Out(g'.edges, sites[d].out) :: Owned(ctx, sites, callers + {s}, sites[d].out, e)
  {
    hide Owned, Connected, Spliced, Out;
    forall d, e | d in sites && e in Out(Connected(ctx, g, s, sites[ctx.Callback(s)]).edges, sites[d].out)
      ensures Owned(ctx, sites, callers + {s}, sites[d].out, e)
    {
      StepOwned(ctx, g, sites, callers, ready, s, d, e);
    }
  }

  lemma StepOthers(ctx: Context, g: Graph, sites: map<Cmd, Site>, callers: set<int>, ready: set<Cmd>, s: int)
    requires Spliced(ctx, g, sites, callers, ready)
    requires ctx.Structured(s) && s !in callers && ctx.Callback(s) in sites && ready <= {ctx.Callback(s)}
    ensures var g' := Connected(ctx, g, s, sites[ctx.Callback(s)]);
            forall t | t in ctx.g.states && t !in callers + {s} :: Out(g'.edges, t) == Out(ctx.g.edges, t) && g'.Acts(t) == ctx.g.Acts(t)
  {
    forall t | t in ctx.g.states && t !in callers
      ensures Out(g.edges, t) == Out(ctx.g.edges, t) && g.Acts(t) == ctx.g.Acts(t)
    {}
    hide Spliced, Out, Connected, Graph.Acts;
    forall t | t in ctx.g.states && t !in callers + {s}
      ensures var g' := Connected(ctx, g, s, sites[ctx.Callback(s)]);
              Out(g'.edges, t) == Out(ctx.g.edges, t) && g'.Acts(t) == ctx.g.Acts(t)
    {
      StepUntouched(ctx, g, sites, callers, ready, s, t);
    }
  }

  /** Connecting one more caller. */
  lemma ConnectStep(ctx: Context, g: Graph, sites: map<Cmd, Site>, callers: set<int>, ready: set<Cmd>, s: int)
    requires Spliced(ctx, g, sites, callers, ready)
    requires ctx.Structured(s) && s !in callers && ctx.Callback(s) in sites && ready <= {ctx.Callback(s)}
    ensures Spliced(ctx, Connected(ctx, g, s, sites[ctx.Callback(s)]), sites, callers + {s}, {})
  {
    hide CallerOk, SiteReady, Connects, HasCaller, Apart, Owned, Out, Located1, Consistent, Graph.Acts, Context.Tag, Context.CallerActs;
    StepConsistent(ctx, g, sites, callers, ready, s);
    StepCallers(ctx, g, sites, callers, ready, s);
    StepSites(ctx, g, sites, callers, ready, s);
    StepOwners(ctx, g, sites, callers, ready, s);
    StepOthers(ctx, g, sites, callers, ready, s);
  }

  // ----- a new site

  lemma ClusteredMembers(g: Graph, g': Graph, name: string, ids: set<int>)
    requires g'.clusters == Clustered(g.clusters, name, ids)
    ensures forall p :: g'.InCluster(p) <==> g.InCluster(p) || p in ids
  {
    forall p
      ensures g'.InCluster(p) <==> g.InCluster(p) || p in ids
    {
      if g.InCluster(p) {
        var k :| k in g.clusters && p in g.clusters[k];
        assert k in g'.clusters && p in g'.clusters[k];
      }
      if p in ids {
        assert name in g'.clusters && p in g'.clusters[name];
      }
    }
  }

  /** Where the way out of a fresh sub-machine can be: a fresh state, the common exit of a site of
      the same name, or the only exit. */
  ghost predicate WayOut(ctx: Context, g: Graph, sites: map<Cmd, Site>, c: Cmd, f: Fragment, out: int) {
    if |f.face.exits| > 1 then out !in g.states || SameNamedOut(ctx, sites, c, out) else f.face.exits == [out]
  }

  ghost predicate SameNamedOut(ctx: Context, sites: map<Cmd, Site>, c: Cmd, out: int) {
    exists d :: d in sites && IsShared(sites[d]) && sites[d].out == out && ctx.nameOf(d) == ctx.nameOf(c)
  }

  /** h is g with the fresh sub-machine f and its way out. */
  ghost predicate SiteAdded(ctx: Context, g: Graph, mid: Graph, h: Graph, sites: map<Cmd, Site>, c: Cmd, f: Fragment, out: int) {
    && Compiled(g, mid, ctx.nameOf(c), c, f)
    && WayOut(ctx, mid, sites, c, f, out)
    && h.edges == mid.edges && h.acts == mid.acts && h.states == mid.states + {out}
    && (forall p :: h.InCluster(p) <==> mid.InCluster(p) || p == out)
    && Consistent(h) && Consistent(mid)
  }

  /** Nothing that was there changes. */
  ghost predicate Preserved(g: Graph, h: Graph) {
    && g.states <= h.states
    && (forall p | p in g.states :: Out(h.edges, p) == Out(g.edges, p) && h.Acts(p) == g.Acts(p))
    && (forall p | p in g.states :: h.InCluster(p) <==> g.InCluster(p))
  }

  /** A common exit that already exists is the way out of a site. */
  lemma SharedOut(ctx: Context, g: Graph, sites: map<Cmd, Site>, callers: set<int>, c: Cmd, out: int)
    requires Spliced(ctx, g, sites, callers, {}) && SameNamedOut(ctx, sites, c, out)
    ensures out in g.states && out !in ctx.g.states && g.InCluster(out) && g.Acts(out) == []
    ensures forall e | e in Out(g.edges, out) :: e.dst in ctx.g.states
  {
    var d :| d in sites && IsShared(sites[d]) && sites[d].out == out;
    hide Implements, Out;
    assert SiteReady(ctx, g, d, sites[d]);
  }

  /** What is known about a fresh sub-machine without looking inside. */
  lemma AddedFacts(ctx: Context, g: Graph, mid: Graph, c: Cmd, f: Fragment)
    requires Compiled(g, mid, ctx.nameOf(c), c, f)
    ensures f.nodes !! g.states && mid.states == g.states + f.nodes
    ensures forall p | p !in f.nodes :: Out(mid.edges, p) == Out(g.edges, p) && mid.Acts(p) == g.Acts(p)
    ensures forall p :: mid.InCluster(p) <==> g.InCluster(p) || p in f.nodes
    ensures forall x | x in f.face.exits :: x in f.nodes
    ensures f.face.exits != [] && forall x | x in f.face.exits :: Out(mid.edges, x) == []
  {
    assert Located(c, f);
    ClusteredMembers(g, mid, ctx.nameOf(c), f.nodes);
    hide Implements, Graph.InCluster;
    forall x | x in f.face.exits
      ensures Out(mid.edges, x) == []
    {
      NothingLeaves(mid.edges, x);
    }
  }

  lemma AddedKeeps(ctx: Context, g: Graph, mid: Graph, h: Graph, sites: map<Cmd, Site>, callers: set<int>, c: Cmd, f: Fragment, out: int)
    requires Spliced(ctx, g, sites, callers, {}) && SiteAdded(ctx, g, mid, h, sites, c, f, out)
    ensures Preserved(g, h) && out !in ctx.g.states
  {
    hide Spliced, Compiled, Consistent, Out, Graph.InCluster, SameNamedOut;
    SplicedStates(ctx, g, sites, callers);
    AddedFacts(ctx, g, mid, c, f);
    if SameNamedOut(ctx, sites, c, out) {
      SharedOut(ctx, g, sites, callers, c, out);
    }
    assert f.face.exits == [out] ==> out in f.face.exits;
  }

  lemma SplicedStates(ctx: Context, g: Graph, sites: map<Cmd, Site>, callers: set<int>)
    requires Spliced(ctx, g, sites, callers, {})
    ensures ctx.g.states <= g.states
  {
  }

  lemma KeptSite(ctx: Context, g: Graph, h: Graph, c: Cmd, site: Site)
    requires Preserved(g, h) && SiteReady(ctx, g, c, site)
    ensures SiteReady(ctx, h, c, site)
    ensures Connects(g, site) ==> Connects(h, site)
  {
    assert Located(c, site.f);
    hide Implements, Out, Located, Graph.InCluster;
    ImplementsSame(g, h, c, site.f);
  }

  lemma KeptCaller(ctx: Context, g: Graph, h: Graph, s: int, site: Site)
    requires Preserved(g, h) && CallerOk(ctx, g, s, site) && s in g.states && site.out in g.states
    ensures CallerOk(ctx, h, s, site)
  {
    hide Out, First, Context.Tag;
    forall w: World
      ensures ReturnsTo(ctx, h, s, site.out, w)
    {
      assert ReturnsTo(ctx, g, s, site.out, w);
    }
  }

  /** Whatever leaves the way out of a new site was put there for a site of the same name. */
  lemma NewSiteOut(ctx: Context, g: Graph, mid: Graph, h: Graph, sites: map<Cmd, Site>, callers: set<int>, c: Cmd, f: Fragment, out: int)
    requires Spliced(ctx, g, sites, callers, {}) && SiteAdded(ctx, g, mid, h, sites, c, f, out)
    ensures Out(h.edges, out) == [] || (|f.face.exits| > 1 && SameNamedOut(ctx, sites, c, out) && Out(h.edges, out) == Out(g.edges, out))
    ensures forall e | e in Out(h.edges, out) :: e.dst in ctx.g.states
    ensures |f.face.exits| > 1 ==> out !in f.nodes && h.Acts(out) == []
  {
    hide Spliced, Compiled, Out, Graph.InCluster, SameNamedOut;
    AddedFacts(ctx, g, mid, c, f);
    if |f.face.exits| > 1 {
      if SameNamedOut(ctx, sites, c, out) {
        SharedOut(ctx, g, sites, callers, c, out);
      } else {
        UnknownState(mid, out);
      }
    } else {
      assert out in f.face.exits;
    }
  }

  lemma NewSiteImplements(ctx: Context, g: Graph, mid: Graph, h: Graph, sites: map<Cmd, Site>, callers: set<int>, c: Cmd, f: Fragment, out: int)
    requires SiteAdded(ctx, g, mid, h, sites, c, f, out)
    ensures Implements(h, c, f)
  {
    hide Out, Graph.InCluster, SameNamedOut, Implements, Consistent, WayOut;
    ImplementsSame(mid, h, c, f);
  }

  lemma NewSitePlace(ctx: Context, g: Graph, mid: Graph, h: Graph, sites: map<Cmd, Site>, callers: set<int>, c: Cmd, f: Fragment, out: int)
    requires Spliced(ctx, g, sites, callers, {}) && SiteAdded(ctx, g, mid, h, sites, c, f, out)
    ensures f.nodes !! ctx.g.states && out !in ctx.g.states && f.nodes <= h.states && out in h.states
    ensures h.InCluster(out) && forall n | n in f.nodes :: h.InCluster(n)
    ensures forall x | x in f.face.exits :: Out(h.edges, x) == []
  {
    hide Spliced, Compiled, Out, Graph.InCluster, SameNamedOut, Consistent, WayOut;
    SplicedStates(ctx, g, sites, callers);
    AddedFacts(ctx, g, mid, c, f);
    AddedKeeps(ctx, g, mid, h, sites, callers, c, f, out);
  }

  lemma NewSiteReady(ctx: Context, g: Graph, mid: Graph, h: Graph, sites: map<Cmd, Site>, callers: set<int>, c: Cmd, f: Fragment, out: int)
    requires Spliced(ctx, g, sites, callers, {}) && SiteAdded(ctx, g, mid, h, sites, c, f, out)
    ensures SiteReady(ctx, h, c, Site(f, out))
  {
    hide Spliced, SiteAdded, Compiled, Out, Graph.InCluster, SameNamedOut, Implements, Consistent, WayOut, Preserved, First;
    NewSitePlace(ctx, g, mid, h, sites, callers, c, f, out);
    NewSiteOut(ctx, g, mid, h, sites, callers, c, f, out);
    NewSiteImplements(ctx, g, mid, h, sites, callers, c, f, out);
    OnlyExit(ctx, g, mid, h, sites, c, f, out);
  }

  lemma OnlyExit(ctx: Context, g: Graph, mid: Graph, h: Graph, sites: map<Cmd, Site>, c: Cmd, f: Fragment, out: int)
    requires SiteAdded(ctx, g, mid, h, sites, c, f, out)
    ensures |f.face.exits| <= 1 ==> f.face.exits == [out]
  {
    hide Compiled, Consistent, SameNamedOut;
  }

  lemma NewSiteApart(ctx: Context, g: Graph, mid: Graph, h: Graph, sites: map<Cmd, Site>, callers: set<int>, c: Cmd, f: Fragment, out: int, d: Cmd)
    requires Spliced(ctx, g, sites, callers, {}) && SiteAdded(ctx, g, mid, h, sites, c, f, out) && d in sites && d != c
    ensures Apart(ctx, c, Site(f, out), d, sites[d]) && Apart(ctx, d, sites[d], c, Site(f, out))
  {
    assert SiteReady(ctx, g, d, sites[d]);
    assert forall b | b in sites && b != d :: Apart(ctx, b, sites[b], d, sites[d]);
    hide Spliced, Implements, Out, Graph.InCluster, Consistent, Compiled, SiteReady, Apart;
    SiteStates(ctx, g, d, sites[d]);
    AddedFacts(ctx, g, mid, c, f);
    assert out !in sites[d].f.nodes && (out == sites[d].out ==> ctx.nameOf(c) == ctx.nameOf(d)) by {
      if SameNamedOut(ctx, sites, c, out) {
        var b :| b in sites && IsShared(sites[b]) && sites[b].out == out && ctx.nameOf(b) == ctx.nameOf(c);
        if b != d {
          ApartMeans(ctx, b, sites[b], d, sites[d]);
        }
      } else if |f.face.exits| <= 1 {
        assert out in f.face.exits;
      }
    }
    MeansApart(ctx, c, Site(f, out), d, sites[d]);
  }

  lemma SiteStates(ctx: Context, g: Graph, c: Cmd, site: Site)
    requires SiteReady(ctx, g, c, site)
    ensures site.f.nodes <= g.states && site.out in g.states
    ensures IsShared(site) ==> site.out !in site.f.nodes
  {
  }

  lemma ApartMeans(ctx: Context, c: Cmd, a: Site, d: Cmd, b: Site)
    requires Apart(ctx, c, a, d, b)
    ensures a.out !in b.f.nodes && (a.out == b.out ==> ctx.nameOf(c) == ctx.nameOf(d))
  {
  }

  lemma MeansApart(ctx: Context, c: Cmd, a: Site, d: Cmd, b: Site)
    requires a.f.nodes !! b.f.nodes && a.out !in b.f.nodes && b.out !in a.f.nodes
    requires a.out == b.out ==> ctx.nameOf(c) == ctx.nameOf(d)
    ensures Apart(ctx, c, a, d, b) && Apart(ctx, d, b, c, a)
  {
  }

  lemma NewSiteOwned(ctx: Context, g: Graph, mid: Graph, h: Graph, sites: map<Cmd, Site>, callers: set<int>, c: Cmd, f: Fragment, out: int, d: Cmd, e: Edge)
    requires Spliced(ctx, g, sites, callers, {}) && SiteAdded(ctx, g, mid, h, sites, c, f, out) && c !in sites
    requires var sites' := sites[c := Site(f, out)]; d in sites' && e in Out(h.edges, sites'[d].out)
    ensures var sites' := sites[c := Site(f, out)]; Owned(ctx, sites', callers, sites'[d].out, e)
  {
    hide Implements, Out, Graph.InCluster, Consistent, Compiled, Apart, CallerOk, Connects, HasCaller, Located1;
    AddedKeeps(ctx, g, mid, h, sites, callers, c, f, out);
    NewSiteOut(ctx, g, mid, h, sites, callers, c, f, out);
    var b := d;
    if d == c {
      b :| b in sites && IsShared(sites[b]) && sites[b].out == out;
    }
    assert SiteReady(ctx, g, b, sites[b]);
    assert e in Out(g.edges, sites[b].out);
    assert Owned(ctx, sites, callers, sites[b].out, e);
    OwnedMore(ctx, sites, callers, sites[b].out, e, c, Site(f, out));
  }

  lemma OwnedMore(ctx: Context, sites: map<Cmd, Site>, callers: set<int>, out: int, e: Edge, c: Cmd, site: Site)
    requires Owned(ctx, sites, callers, out, e) && c !in sites
    ensures Owned(ctx, sites[c := site], callers, out, e)
  {
    var s :| s in callers && ctx.Structured(s) && ctx.Callback(s) in sites && sites[ctx.Callback(s)].out == out
      && e.cond.Bin? && e.cond.op == And && e.cond.right == ctx.Tag(s);
    assert ctx.Callback(s) in sites[c := site];
  }

  lemma NewSiteLocated(ctx: Context, g: Graph, mid: Graph, h: Graph, sites: map<Cmd, Site>, callers: set<int>, c: Cmd, f: Fragment, out: int, p: int)
    requires Spliced(ctx, g, sites, callers, {}) && SiteAdded(ctx, g, mid, h, sites, c, f, out) && c !in sites && p in h.states
    ensures p in ctx.g.states || Located1(p, sites[c := Site(f, out)])
  {
    var sites' := sites[c := Site(f, out)];
    hide Implements, Out, Graph.InCluster, Consistent, Compiled, Apart, CallerOk, Connects, HasCaller, SiteReady, Owned;
    AddedFacts(ctx, g, mid, c, f);
    if p in f.nodes || p == out {
      assert c in sites' && (p in sites'[c].f.nodes || p == sites'[c].out);
    } else if p !in ctx.g.states {
      var d :| d in sites && (p in sites[d].f.nodes || p == sites[d].out);
      assert d in sites' && sites'[d] == sites[d];
    }
  }

  lemma NewSiteOldSites(ctx: Context, g: Graph, mid: Graph, h: Graph, sites: map<Cmd, Site>, callers: set<int>, c: Cmd, f: Fragment, out: int)
    requires Spliced(ctx, g, sites, callers, {}) && SiteAdded(ctx, g, mid, h, sites, c, f, out) && c !in sites
    ensures var sites' := sites[c := Site(f, out)];
            forall d | d in sites :: SiteReady(ctx, h, d, sites'[d]) && Connects(h, sites'[d]) && HasCaller(ctx, callers, d)
  {
    hide Implements, Out, Graph.InCluster, Graph.Acts, Consistent, SiteAdded, CallerOk, Connects, HasCaller, SiteReady, Owned, Apart, Located1;
    AddedKeeps(ctx, g, mid, h, sites, callers, c, f, out);
    forall d | d in sites
      ensures SiteReady(ctx, h, d, sites[d]) && Connects(h, sites[d])
    {
      KeptSite(ctx, g, h, d, sites[d]);
    }
  }

  lemma NewSiteOldCallers(ctx: Context, g: Graph, mid: Graph, h: Graph, sites: map<Cmd, Site>, callers: set<int>, c: Cmd, f: Fragment, out: int)
    requires Spliced(ctx, g, sites, callers, {}) && SiteAdded(ctx, g, mid, h, sites, c, f, out) && c !in sites
    ensures var sites' := sites[c := Site(f, out)];
            forall s | s in callers :: ctx.Structured(s) && ctx.Callback(s) in sites' && CallerOk(ctx, h, s, sites'[ctx.Callback(s)])
  {
    hide Implements, Out, Graph.InCluster, Graph.Acts, Consistent, SiteAdded, CallerOk, Connects, HasCaller, SiteReady, Owned, Apart, Located1, Preserved;
    AddedKeeps(ctx, g, mid, h, sites, callers, c, f, out);
    forall s | s in callers
      ensures CallerOk(ctx, h, s, sites[ctx.Callback(s)])
    {
      SiteStates(ctx, g, ctx.Callback(s), sites[ctx.Callback(s)]);
      KeptCaller(ctx, g, h, s, sites[ctx.Callback(s)]);
    }
  }

  lemma NewSiteOthers(ctx: Context, g: Graph, mid: Graph, h: Graph, sites: map<Cmd, Site>, callers: set<int>, c: Cmd, f: Fragment, out: int)
    requires Spliced(ctx, g, sites, callers, {}) && SiteAdded(ctx, g, mid, h, sites, c, f, out) && c !in sites
    ensures forall s | s in ctx.g.states && s !in callers :: Out(h.edges, s) == Out(ctx.g.edges, s) && h.Acts(s) == ctx.g.Acts(s)
    ensures forall s | s in ctx.g.states :: !h.InCluster(s)
    ensures ctx.g.states <= h.states && Consistent(ctx.g) && Consistent(h)
  {
    hide Implements, Out, Graph.InCluster, Graph.Acts, Consistent, CallerOk, Connects, HasCaller, SiteReady, Owned, Apart, Located1;
    AddedKeeps(ctx, g, mid, h, sites, callers, c, f, out);
  }

  lemma NewSiteAllApart(ctx: Context, g: Graph, mid: Graph, h: Graph, sites: map<Cmd, Site>, callers: set<int>, c: Cmd, f: Fragment, out: int)
    requires Spliced(ctx, g, sites, callers, {}) && SiteAdded(ctx, g, mid, h, sites, c, f, out) && c !in sites
    ensures var sites' := sites[c := Site(f, out)];
            forall d, b | d in sites' && b in sites' && d != b :: Apart(ctx, d, sites'[d], b, sites'[b])
  {
    hide Implements, Out, Graph.InCluster, Graph.Acts, Consistent, SiteAdded, CallerOk, Connects, HasCaller, SiteReady, Owned, Apart, Located1;
    forall d | d in sites
      ensures Apart(ctx, c, Site(f, out), d, sites[d]) && Apart(ctx, d, sites[d], c, Site(f, out))
    {
      NewSiteApart(ctx, g, mid, h, sites, callers, c, f, out, d);
    }
  }

  lemma NewSiteOwners(ctx: Context, g: Graph, mid: Graph, h: Graph, sites: map<Cmd, Site>, callers: set<int>, c: Cmd, f: Fragment, out: int)
    requires Spliced(ctx, g, sites, callers, {}) && SiteAdded(ctx, g, mid, h, sites, c, f, out) && c !in sites
    ensures var sites' := sites[c := Site(f, out)];
            forall d, e | d in sites' && e in Out(h.edges, sites'[d].out) :: Owned(ctx, sites', callers, sites'[d].out, e)
  {
    hide Spliced, SiteAdded, Owned, Out;
    var sites' := sites[c := Site(f, out)];
    forall d, e | d in sites' && e in Out(h.edges, sites'[d].out)
      ensures Owned(ctx, sites', callers, sites'[d].out, e)
    {
      NewSiteOwned(ctx, g, mid, h, sites, callers, c, f, out, d, e);
    }
  }

  lemma NewSiteAllLocated(ctx: Context, g: Graph, mid: Graph, h: Graph, sites: map<Cmd, Site>, callers: set<int>, c: Cmd, f: Fragment, out: int)
    requires Spliced(ctx, g, sites, callers, {}) && SiteAdded(ctx, g, mid, h, sites, c, f, out) && c !in sites
    ensures forall p | p in h.states :: p in ctx.g.states || Located1(p, sites[c := Site(f, out)])
  {
    hide Spliced, SiteAdded, Located1;
    forall p | p in h.states
      ensures p in ctx.g.states || Located1(p, sites[c := Site(f, out)])
    {
      NewSiteLocated(ctx, g, mid, h, sites, callers, c, f, out, p);
    }
  }

  /** A freshly compiled callback becomes a site that is ready to be connected. */
  lemma NewSite(ctx: Context, g: Graph, mid: Graph, h: Graph, sites: map<Cmd, Site>, callers: set<int>, c: Cmd, f: Fragment, out: int)
    requires Spliced(ctx, g, sites, callers, {}) && SiteAdded(ctx, g, mid, h, sites, c, f, out) && c !in sites
    ensures Spliced(ctx, h, sites[c := Site(f, out)], callers, {c})
  {
    hide Implements, Out, Graph.InCluster, Graph.Acts, Consistent, SiteAdded, CallerOk, Connects, HasCaller, SiteReady, Owned, Apart, Located1;
    assert sites[c := Site(f, out)].Keys == sites.Keys + {c};
    NewSiteOwners(ctx, g, mid, h, sites, callers, c, f, out);
    NewSiteAllLocated(ctx, g, mid, h, sites, callers, c, f, out);
    NewSiteOldSites(ctx, g, mid, h, sites, callers, c, f, out);
    NewSiteOldCallers(ctx, g, mid, h, sites, callers, c, f, out);
    NewSiteOthers(ctx, g, mid, h, sites, callers, c, f, out);
    NewSiteReady(ctx, g, mid, h, sites, callers, c, f, out);
    NewSiteAllApart(ctx, g, mid, h, sites, callers, c, f, out);
  }
}
