/** The machine after all callbacks have been replaced: its steps are those of the machine before. */
module Refinement {
  import opened Options
  import opened Terms
  import opened Programs
  import opened Graphs
  import opened Bottlenecks
  import opened Fragments
  import opened Machines
  import opened Cleanup
  import opened Splitting
  import opened Splice

  ghost function Callers(ctx: Context): set<int> {
    set s | s in ctx.g.states && ctx.Structured(s)
  }

  /** h after the former transitions of the callers have been removed. */
  ghost predicate Erased(ctx: Context, h: Graph, g: Graph) {
    && g == h.(edges := g.edges)
    && (forall e | e in g.edges :: e in h.edges)
    && (forall p | p !in Callers(ctx) :: Out(g.edges, p) == Out(h.edges, p))
    && (forall s | s in Callers(ctx) :: LeftOutside(h.edges, g.edges, s, ctx.g.states))
  }

  /** Of the transitions leaving s, exactly those into targets are gone. */
  ghost predicate LeftOutside(es: seq<Edge>, es': seq<Edge>, s: int, targets: set<int>) {
    forall e :: e in Out(es', s) <==> e in Out(es, s) && e.dst !in targets
  }

  /** s is left into the entries of the site only, and the site leads back to where s led. */
  ghost predicate CallerSettled(ctx: Context, g: Graph, s: int, site: Site) {
    && ctx.Structured(s)
    && g.Acts(s) == ctx.CallerActs(s)
    && (forall w: World :: ReturnsTo(ctx, g, s, site.out, w))
    && (forall e :: e in Out(g.edges, s) <==> e.src == s && Entry(e.dst, e.cond) in site.f.face.entries)
  }

  ghost predicate Settled(ctx: Context, g: Graph, sites: map<Cmd, Site>) {
    && Consistent(g) && Consistent(ctx.g)
    && (forall p | p in g.states :: p in ctx.g.states || Located1(p, sites))
    && (forall s | s in ctx.g.states && !ctx.Structured(s) :: Untouched(ctx.g, g, s))
    && (forall s | s in ctx.g.states :: !g.InCluster(s))
    && (forall s | s in ctx.g.states && ctx.Structured(s) ::
          ctx.Callback(s) in sites && CallerSettled(ctx, g, s, sites[ctx.Callback(s)]))
    && (forall c {:trigger SiteReady(ctx, g, c, sites[c])} {:trigger Connects(g, sites[c])} | c in sites ::
          SiteReady(ctx, g, c, sites[c]) && Connects(g, sites[c]))
    && (forall c, d {:trigger Apart(ctx, c, sites[c], d, sites[d])} | c in sites && d in sites && c != d ::
          Apart(ctx, c, sites[c], d, sites[d]))
  }

  lemma ErasedSite(ctx: Context, h: Graph, g: Graph, c: Cmd, site: Site)
    requires Erased(ctx, h, g) && SiteReady(ctx, h, c, site) && Connects(h, site)
    ensures SiteReady(ctx, g, c, site) && Connects(g, site)
  {
    assert Located(c, site.f);
    assert forall p | p !in ctx.g.states :: Out(g.edges, p) == Out(h.edges, p);
    assert forall p :: g.Acts(p) == h.Acts(p) && (g.InCluster(p) <==> h.InCluster(p));
    hide Implements, Located, Out, Graph.InCluster, Erased;
    ImplementsSame(h, g, c, site.f);
  }

  lemma ErasedCaller(ctx: Context, h: Graph, g: Graph, s: int, c: Cmd, site: Site)
    requires Erased(ctx, h, g) && CallerOk(ctx, h, s, site) && SiteReady(ctx, h, c, site) && Consistent(ctx.g)
    ensures CallerSettled(ctx, g, s, site)
  {
    assert Located(c, site.f);
    OutMembers(ctx.g.edges, s);
    assert s in Callers(ctx) && site.out !in Callers(ctx);
    assert LeftOutside(h.edges, g.edges, s, ctx.g.states);
    hide Implements, Located, Out, First, Context.Tag;
    forall w: World
      ensures ReturnsTo(ctx, g, s, site.out, w)
    {
      assert ReturnsTo(ctx, h, s, site.out, w);
    }
    forall e
      ensures e in Out(g.edges, s) <==> e.src == s && Entry(e.dst, e.cond) in site.f.face.entries
    {
      if e.src == s && Entry(e.dst, e.cond) in site.f.face.entries {
        assert Entry(e.dst, e.cond).state in site.f.nodes;
      }
    }
  }

  lemma Settle(ctx: Context, h: Graph, g: Graph, sites: map<Cmd, Site>)
    requires Spliced(ctx, h, sites, Callers(ctx), {}) && Erased(ctx, h, g) && Consistent(g)
    ensures Settled(ctx, g, sites)
  {
    hide Consistent, SiteReady, Connects, CallerOk, CallerSettled, Apart, Owned, HasCaller, Located1, Out, Graph.InCluster, Graph.Acts;
    SettleOthers(ctx, h, g, sites);
    SettleCallers(ctx, h, g, sites);
    forall c | c in sites
      ensures SiteReady(ctx, g, c, sites[c]) && Connects(g, sites[c])
    {
      ErasedSite(ctx, h, g, c, sites[c]);
    }
  }

  lemma SettleOthers(ctx: Context, h: Graph, g: Graph, sites: map<Cmd, Site>)
    requires Spliced(ctx, h, sites, Callers(ctx), {}) && Erased(ctx, h, g)
    ensures forall s | s in ctx.g.states && !ctx.Structured(s) :: Untouched(ctx.g, g, s)
    ensures forall s | s in ctx.g.states :: !g.InCluster(s)
  {
    hide Consistent, SiteReady, Connects, CallerOk, Apart, Owned, HasCaller, Located1, Out;
    assert forall p :: g.Acts(p) == h.Acts(p) && (g.InCluster(p) <==> h.InCluster(p));
  }

  lemma SettleCallers(ctx: Context, h: Graph, g: Graph, sites: map<Cmd, Site>)
    requires Spliced(ctx, h, sites, Callers(ctx), {}) && Erased(ctx, h, g)
    ensures forall s | s in ctx.g.states && ctx.Structured(s) ::
              ctx.Callback(s) in sites && CallerSettled(ctx, g, s, sites[ctx.Callback(s)])
  {
    hide Consistent, SiteReady, Connects, CallerOk, CallerSettled, Apart, Owned, HasCaller, Located1, Out, Graph.InCluster, Erased;
    forall s | s in ctx.g.states && ctx.Structured(s)
      ensures ctx.Callback(s) in sites && CallerSettled(ctx, g, s, sites[ctx.Callback(s)])
    {
      assert s in Callers(ctx);
      ErasedCaller(ctx, h, g, s, ctx.Callback(s), sites[ctx.Callback(s)]);
    }
  }

  // ----- steps

  /** The data s continues with: a shared callback first notes down who calls it. */
  ghost function Mark(ctx: Context, s: int, w: World): World {
    if ctx.Structured(s) && !ctx.IsSingle(s) then w.Put(LAST, s) else w
  }

  function StepFuel(ctx: Context, s: int): nat {
    if ctx.g.Acts(s) == [] then 1 else Size(ctx.g.Acts(s)[0]) + 1
  }

  ghost predicate FreeOfLast(g: Graph) {
    forall s, c | s in g.states && c in g.Acts(s) :: !Uses(c, LAST)
  }

  lemma CallerWorld(ctx: Context, s: int, w: World)
    requires ctx.Structured(s)
    ensures ExecAll(ctx.CallerActs(s), w) == Mark(ctx, s, w)
    ensures Holds(ctx.Tag(s), Mark(ctx, s, w))
  {
    TagHolds(ctx, s, Mark(ctx, s, w));
    if !ctx.IsSingle(s) {
      ExecOne(Set(LAST, Val(s)), w);
    }
  }

  /** The tag is still set when the callback has been executed. */
  lemma TagSurvives(ctx: Context, s: int, w: World)
    requires ctx.Structured(s) && FreeOfLast(ctx.g) && Holds(ctx.Tag(s), w)
    ensures Holds(ctx.Tag(s), Exec(ctx.Callback(s), w))
  {
    var c := ctx.Callback(s);
    assert c in ctx.g.Acts(s);
    TagHolds(ctx, s, w);
    TagHolds(ctx, s, Exec(c, w));
    ExecIgnores(c, w, w, LAST);
  }

  /** The way out of its site leads s to where it led before. */
  lemma Successor(ctx: Context, g: Graph, sites: map<Cmd, Site>, s: int, w: World)
    requires Settled(ctx, g, sites) && Total(ctx.g) && ctx.Structured(s)
    requires ctx.Callback(s) in sites && Holds(ctx.Tag(s), w)
    ensures Next(g, sites[ctx.Callback(s)].out, w) == Next(ctx.g, s, w)
    ensures !g.InCluster(Next(ctx.g, s, w))
  {
    var site := sites[ctx.Callback(s)];
    assert CallerSettled(ctx, g, s, site);
    assert ReturnsTo(ctx, g, s, site.out, w);
    assert First(Out(ctx.g.edges, s), w, {}).Some?;
    hide SiteReady, CallerSettled, Connects, Apart, Located1, Graph.InCluster;
    FirstIsHit(Out(ctx.g.edges, s), w, {});
    OutMembers(ctx.g.edges, s);
  }

  /** From the entries of its site, the machine comes back to the successor of the caller. */
  lemma SiteSteps(ctx: Context, g: Graph, sites: map<Cmd, Site>, s: int, w: World, i: int)
    requires Settled(ctx, g, sites) && Total(ctx.g) && FreeOfLast(ctx.g) && ctx.Structured(s)
    requires ctx.Callback(s) in sites && Holds(ctx.Tag(s), w)
    requires Opens(sites[ctx.Callback(s)].f.face.entries, i, w)
    ensures var c := ctx.Callback(s);
            Macro(g, sites[c].f.face.entries[i].state, w, Size(c)) == Some((Next(ctx.g, s, Exec(c, w)), Exec(c, w)))
  {
    var c := ctx.Callback(s);
    var site := sites[c];
    var w' := Exec(c, w);
    assert SiteReady(ctx, g, c, site) && Connects(g, site);
    assert IsShared(site) ==> g.Acts(site.out) == [];
    hide Settled, SiteReady, Connects, Out, First, Graph.InCluster, Total, FreeOfLast;
    TagSurvives(ctx, s, w);
    Successor(ctx, g, sites, s, w');
    SiteExit(ctx, g, c, site, i, w);
    if IsShared(site) {
      OutSteps(g, site.out, Next(ctx.g, s, w'), w');
    }
  }

  lemma OutSteps(g: Graph, out: int, t: int, w: World)
    requires g.Acts(out) == [] && Next(g, out, w) == t && !g.InCluster(t)
    ensures Macro(g, out, w, 0) == Some((t, w))
  {
  }

  /** The run through the site, and what follows it. */
  lemma SiteExit(ctx: Context, g: Graph, c: Cmd, site: Site, i: int, w: World)
    requires SiteReady(ctx, g, c, site) && Connects(g, site) && Opens(site.f.face.entries, i, w)
    ensures var r := Run(g, site.f.face.exits, site.f.face.entries[i].state, w, Size(c) - 1);
            r.Some? && r.value.0 in site.f.face.exits && r.value.1 == Exec(c, w)
    ensures var e, w' := site.f.face.entries[i].state, Exec(c, w);
            if IsShared(site) then g.InCluster(site.out) && (Macro(g, site.out, w', 0).Some? ==> Macro(g, e, w, Size(c)) == Macro(g, site.out, w', 0))
            else !g.InCluster(Next(g, site.out, w')) ==> Macro(g, e, w, Size(c)) == Some((Next(g, site.out, w'), w'))
  {
    assert Located(c, site.f) && RunsLike(g, c, site.f, i, w);
    assert site.f.face.entries[i] in site.f.face.entries;
    ImplementsStaysIn(g, c, site.f);
    var e, w' := site.f.face.entries[i].state, Exec(c, w);
    var x := Run(g, site.f.face.exits, e, w, Size(c) - 1).value.0;
    if IsShared(site) {
      LinkIsTaken(Out(g.edges, x), site.out, w');
    }
    hide Implements, Located, Out, First, Graph.InCluster;
    MacroThrough(g, site.f.nodes, site.f.face.exits, e, w, Size(c) - 1, 0);
  }

  /** A step of the transformed machine is the step of the machine before, at every state of it. */
  lemma StepRefines(ctx: Context, g: Graph, sites: map<Cmd, Site>, s: int, w: World)
    requires Settled(ctx, g, sites) && Total(ctx.g) && FreeOfLast(ctx.g) && s in ctx.g.states
    requires |ctx.g.Acts(s)| <= 1
    ensures Macro(g, s, w, StepFuel(ctx, s)) == Some(Micro(ctx.g, s, Mark(ctx, s, w)))
  {
    if ctx.Structured(s) {
      CallerStep(ctx, g, sites, s, w);
    } else {
      PlainStep(ctx, g, sites, s, w);
    }
  }

  lemma PlainStep(ctx: Context, g: Graph, sites: map<Cmd, Site>, s: int, w: World)
    requires Settled(ctx, g, sites) && s in ctx.g.states && !ctx.Structured(s)
    ensures Macro(g, s, w, StepFuel(ctx, s)) == Some(Micro(ctx.g, s, w))
  {
    hide SiteReady, CallerSettled, Connects, Apart, Located1, Graph.InCluster;
    assert Untouched(ctx.g, g, s);
    var w' := ExecAll(g.Acts(s), w);
    FirstIsHit(Out(ctx.g.edges, s), w', {});
    OutMembers(ctx.g.edges, s);
  }

  lemma EntersSite(ctx: Context, g: Graph, s: int, c: Cmd, site: Site, w: World) returns (i: int)
    requires CallerSettled(ctx, g, s, site) && SiteReady(ctx, g, c, site)
    ensures Opens(site.f.face.entries, i, w)
    ensures Next(g, s, w) == site.f.face.entries[i].state && g.InCluster(site.f.face.entries[i].state)
  {
    assert OneEntry(site.f.face.entries, w) && Located(c, site.f);
    i :| Opens(site.f.face.entries, i, w);
    hide Implements, Out, First, Graph.InCluster;
    EntryIsTaken(Out(g.edges, s), s, site.f.face.entries, i, w);
    assert site.f.face.entries[i] in site.f.face.entries;
  }

  lemma CallerStep(ctx: Context, g: Graph, sites: map<Cmd, Site>, s: int, w: World)
    requires Settled(ctx, g, sites) && Total(ctx.g) && FreeOfLast(ctx.g) && s in ctx.g.states && ctx.Structured(s)
    requires |ctx.g.Acts(s)| == 1
    ensures Macro(g, s, w, StepFuel(ctx, s)) == Some(Micro(ctx.g, s, Mark(ctx, s, w)))
  {
    hide SiteReady, CallerSettled, Out, First, Graph.InCluster, Total, FreeOfLast, Apart, Connects, Located1, Untouched, Consistent, Mark;
    var c := ctx.Callback(s);
    var m := Mark(ctx, s, w);
    CallerWorld(ctx, s, w);
    var i := EntersSite(ctx, g, s, c, sites[c], m);
    SiteSteps(ctx, g, sites, s, m, i);
    CallerActions(ctx, g, s, sites[c]);
    ExecOne(c, m);
    assert ctx.g.Acts(s) == [c];
  }

  lemma CallerActions(ctx: Context, g: Graph, s: int, site: Site)
    requires CallerSettled(ctx, g, s, site)
    ensures g.Acts(s) == ctx.CallerActs(s)
  {
  }

  // ----- the clean-up may follow

  ghost function RankOf(sites: map<Cmd, Site>, p: int): nat
    requires forall c | c in sites :: sites[c].f.rank.Keys == sites[c].f.nodes
  {
    if InNodes(sites, p) then
      var c :| c in sites && p in sites[c].f.nodes;
      sites[c].f.rank[p] + 1
    else 0
  }

  ghost predicate InNodes(sites: map<Cmd, Site>, p: int) {
    exists c :: c in sites && p in sites[c].f.nodes
  }

  ghost function RankMap(g: Graph, sites: map<Cmd, Site>): map<int, nat>
    requires forall c | c in sites :: sites[c].f.rank.Keys == sites[c].f.nodes
  {
    map p | p in g.states :: RankOf(sites, p)
  }

  lemma RankIs(ctx: Context, g: Graph, sites: map<Cmd, Site>, c: Cmd, p: int)
    requires Settled(ctx, g, sites) && c in sites && p in sites[c].f.nodes
    requires forall c | c in sites :: sites[c].f.rank.Keys == sites[c].f.nodes
    ensures RankOf(sites, p) == sites[c].f.rank[p] + 1
  {
    forall d | d in sites && p in sites[d].f.nodes
      ensures d == c
    {
      assert d != c ==> Apart(ctx, c, sites[c], d, sites[d]);
    }
    assert InNodes(sites, p);
  }

  lemma HasRanks(ctx: Context, g: Graph, sites: map<Cmd, Site>)
    requires Settled(ctx, g, sites)
    ensures forall c | c in sites :: sites[c].f.rank.Keys == sites[c].f.nodes
  {
    forall c | c in sites
      ensures sites[c].f.rank.Keys == sites[c].f.nodes
    {
      assert SiteReady(ctx, g, c, sites[c]) && Located(c, sites[c].f);
    }
  }

  /** A common exit is not a state of any sub-machine. */
  lemma OutHasNoRank(ctx: Context, g: Graph, sites: map<Cmd, Site>, c: Cmd)
    requires Settled(ctx, g, sites) && c in sites && IsShared(sites[c])
    requires forall d | d in sites :: sites[d].f.rank.Keys == sites[d].f.nodes
    ensures RankOf(sites, sites[c].out) == 0
  {
    assert SiteReady(ctx, g, c, sites[c]);
    forall d | d in sites
      ensures sites[c].out !in sites[d].f.nodes
    {
      assert d != c ==> Apart(ctx, c, sites[c], d, sites[d]);
    }
  }

  /** Every transition between cluster states lowers the rank. */
  lemma EdgeDescends(ctx: Context, g: Graph, sites: map<Cmd, Site>, e: Edge)
    requires Settled(ctx, g, sites) && e in g.edges && g.InCluster(e.src) && g.InCluster(e.dst)
    requires forall c | c in sites :: sites[c].f.rank.Keys == sites[c].f.nodes
    ensures RankOf(sites, e.dst) < RankOf(sites, e.src)
  {
    assert e.src in g.states && e.src !in ctx.g.states && e.dst !in ctx.g.states;
    var c :| c in sites && (e.src in sites[c].f.nodes || e.src == sites[c].out);
    var site := sites[c];
    assert SiteReady(ctx, g, c, site) && Located(c, site.f) && Closed(g, site.f);
    OutMembers(g.edges, e.src);
    assert e in Out(g.edges, e.src);
    hide SiteReady, CallerSettled, Apart, Connects, Located1, Untouched, Consistent, Implements, Out, RankOf, Graph.InCluster;
    assert e.src != site.out;
    RankIs(ctx, g, sites, c, e.src);
    if e.src in site.f.face.exits {
      assert IsShared(site) && e.dst == site.out;
      OutHasNoRank(ctx, g, sites, c);
    } else {
      RankIs(ctx, g, sites, c, e.dst);
    }
  }

  lemma HitTarget(es: seq<Edge>, w: World, x: int, targets: set<int>)
    requires Hit(es, w, x) && forall e | e in es :: e.dst in targets
    ensures x in targets
  {
  }

  /** A state that can be left into a cluster state can be left into that state only. */
  lemma LeftOneWay(ctx: Context, g: Graph, sites: map<Cmd, Site>, p: int, w: World, x: int, y: int)
    requires Settled(ctx, g, sites) && g.InCluster(x)
    requires Hit(Out(g.edges, p), w, x) && Hit(Out(g.edges, p), w, y)
    ensures x == y
  {
    OutMembers(g.edges, p);
    var e :| e in Out(g.edges, p) && e.dst == x && Holds(e.cond, w);
    assert e.src in g.states && x !in ctx.g.states;
    if p in ctx.g.states {
      LeftFromCaller(ctx, g, sites, p, w, x, y);
    } else {
      var c :| c in sites && (p in sites[c].f.nodes || p == sites[c].out);
      LeftFromSite(ctx, g, c, sites[c], p, w, x, y);
    }
  }

  lemma LeftFromCaller(ctx: Context, g: Graph, sites: map<Cmd, Site>, p: int, w: World, x: int, y: int)
    requires Settled(ctx, g, sites) && p in ctx.g.states
    requires Hit(Out(g.edges, p), w, x) && Hit(Out(g.edges, p), w, y)
    ensures x == y || x in ctx.g.states
  {
    hide Implements, Graph.InCluster, Connects, Apart, Located1, First;
    OutMembers(g.edges, p);
    OutMembers(ctx.g.edges, p);
    if ctx.Structured(p) {
      var c := ctx.Callback(p);
      assert CallerSettled(ctx, g, p, sites[c]) && SiteReady(ctx, g, c, sites[c]);
      var i := EntersSite(ctx, g, p, c, sites[c], w);
      EntriesOpenOnce(g, c, sites[c].f, w);
      EntryIsTaken(Out(g.edges, p), p, sites[c].f.face.entries, i, w);
    } else {
      assert Untouched(ctx.g, g, p);
      HitTarget(Out(g.edges, p), w, x, ctx.g.states);
    }
  }

  lemma EntriesOpenOnce(g: Graph, c: Cmd, f: Fragment, w: World)
    requires Implements(g, c, f)
    ensures OneEntry(f.face.entries, w)
  {
  }

  lemma LeftFromSite(ctx: Context, g: Graph, c: Cmd, site: Site, p: int, w: World, x: int, y: int)
    requires SiteReady(ctx, g, c, site) && (p in site.f.nodes || p == site.out)
    requires Hit(Out(g.edges, p), w, x) && Hit(Out(g.edges, p), w, y)
    ensures x == y || x in ctx.g.states
  {
    if p == site.out {
      HitTarget(Out(g.edges, p), w, x, ctx.g.states);
    } else if p !in site.f.face.exits {
      assert OneWay(g, p, w);
    }
  }

  /** Every state is left with nothing to do or with one assignment. */
  lemma SettledIsAtomic(ctx: Context, g: Graph, sites: map<Cmd, Site>, p: int)
    requires Settled(ctx, g, sites) && p in g.states && forall s | s in ctx.g.states :: |ctx.g.Acts(s)| <= 1
    ensures IsAtomic(g.Acts(p))
  {
    hide Consistent, Graph.InCluster, Out, Apart, Connects, ReturnsTo;
    if p in ctx.g.states {
      if ctx.Structured(p) {
        assert CallerSettled(ctx, g, p, sites[ctx.Callback(p)]);
      } else {
        assert Untouched(ctx.g, g, p);
      }
    } else {
      var c :| c in sites && (p in sites[c].f.nodes || p == sites[c].out);
      assert SiteReady(ctx, g, c, sites[c]);
      SiteIsAtomic(ctx, g, c, sites[c], p);
    }
  }

  lemma SiteIsAtomic(ctx: Context, g: Graph, c: Cmd, site: Site, p: int)
    requires SiteReady(ctx, g, c, site) && (p in site.f.nodes || p == site.out)
    ensures IsAtomic(g.Acts(p))
  {
    hide Graph.InCluster, Out;
    assert Located(c, site.f);
    assert !IsShared(site) ==> site.out in site.f.face.exits;
  }

  /** Main result of the splicing: the idle callback states may now be removed. */
  lemma SettledIsRemovable(ctx: Context, g: Graph, sites: map<Cmd, Site>)
    requires Settled(ctx, g, sites)
    requires forall c | c in sites :: sites[c].f.rank.Keys == sites[c].f.nodes
    ensures Removable(g)
    ensures Ranked(g.edges, Idle(g), RankMap(g, sites))
  {
    hide SiteReady, CallerSettled, Apart, Connects, Located1, Untouched, Implements, Out, RankOf, Graph.InCluster;
    forall p: int, w: World, x: int, y: int | Hit(Out(g.edges, p), w, x) && Hit(Out(g.edges, p), w, y) && x in Idle(g)
      ensures x == y
    {
      LeftOneWay(ctx, g, sites, p, w, x, y);
    }
    forall e | e in g.edges && e.src in Idle(g) && e.dst in Idle(g)
      ensures RankOf(sites, e.dst) < RankOf(sites, e.src)
    {
      EdgeDescends(ctx, g, sites, e);
    }
  }

  // ----- runs

  lemma {:induction false} FirstIgnores(es: seq<Edge>, w: World, w': World, x: string)
    requires AgreeExcept(w, w', x) && forall e | e in es :: !Mentions(e.cond, x)
    ensures First(es, w, {}) == First(es, w', {})
  {
    if es != [] {
      assert es[|es| - 1] in es;
      FirstIgnores(es[..|es| - 1], w, w', x);
      EvalIgnores(es[|es| - 1].cond, w, w', x);
    }
  }

  /** A machine that does not use the variable takes the same step whatever its value. */
  lemma MicroIgnores(g: Graph, s: int, w: World, w': World)
    requires AgreeExcept(w, w', LAST) && FreeOfLast(g) && CondFree(g) && s in g.states
    ensures Micro(g, s, w).0 == Micro(g, s, w').0 && AgreeExcept(Micro(g, s, w).1, Micro(g, s, w').1, LAST)
  {
    ExecAllIgnores(g.Acts(s), w, w', LAST);
    OutMembers(g.edges, s);
    FirstIgnores(Out(g.edges, s), ExecAll(g.Acts(s), w), ExecAll(g.Acts(s), w'), LAST);
  }

  lemma MicroStays(g: Graph, s: int, w: World)
    requires Consistent(g) && s in g.states
    ensures Micro(g, s, w).0 in g.states
  {
    var w' := ExecAll(g.Acts(s), w);
    FirstIsHit(Out(g.edges, s), w', {});
    OutMembers(g.edges, s);
  }

  /** n steps of g, seen from outside, lead to t and, up to the bookkeeping variable, to w'. */
  ghost predicate Leads(g: Graph, s: int, w: World, n: nat, t: int, w': World) {
    var r := Steps(g, s, w, n);
    r.Some? && r.value.0 == t && AgreeExcept(r.value.1, w', LAST)
  }

  /** Every step of g ends and leads where the step of g1 leads. */
  ghost predicate StepsAlike(g1: Graph, g: Graph) {
    forall s: int, w: World | s in g1.states :: StepAlike(g1, g, s, w)
  }

  ghost predicate StepAlike(g1: Graph, g: Graph, s: int, w: World) {
    var r := Step(g, s, w);
    r.Some? && r.value.0 == Micro(g1, s, w).0 && AgreeExcept(r.value.1, Micro(g1, s, w).1, LAST)
  }

  lemma {:induction false} RunsAlike(g1: Graph, g: Graph, s: int, w: World, w': World, n: nat)
    requires StepsAlike(g1, g) && FreeOfLast(g1) && CondFree(g1) && Consistent(g1) && s in g1.states
    requires AgreeExcept(w, w', LAST)
    ensures Leads(g, s, w, n, MicroSteps(g1, s, w', n).0, MicroSteps(g1, s, w', n).1)
    decreases n
  {
    if n > 0 {
      assert StepAlike(g1, g, s, w);
      MicroIgnores(g1, s, w, w');
      MicroStays(g1, s, w);
      var r := Step(g, s, w).value;
      RunsAlike(g1, g, r.0, r.1, Micro(g1, s, w').1, n - 1);
    }
  }

  // ----- the whole fan-out

  /** A step of g0 corresponds to as many steps of g as the state has callbacks. */
  ghost predicate FannedOut(g0: Graph, g: Graph, s: int, w: World) {
    Leads(g, s, w, StepsOf(g0, s), Micro(g0, s, w).0, Micro(g0, s, w).1)
  }

  lemma MarkAgrees(ctx: Context, s: int, w: World)
    ensures AgreeExcept(Mark(ctx, s, w), w, LAST)
  {
    var m := Mark(ctx, s, w);
    forall y | y != LAST
      ensures m.Get(y) == w.Get(y)
    {}
  }

  /** Splicing and clean-up together. */
  lemma SplicedStepsAlike(ctx: Context, g2: Graph, g3: Graph, sites: map<Cmd, Site>)
    requires Settled(ctx, g2, sites) && Total(ctx.g) && FreeOfLast(ctx.g) && CondFree(ctx.g)
    requires forall s | s in ctx.g.states :: |ctx.g.Acts(s)| <= 1
    requires StepsKept(g2, g3) && forall s | s in ctx.g.states :: s in g3.states
    ensures StepsAlike(ctx.g, g3)
  {
    hide Settled, Total, FreeOfLast, CondFree, Macro, Step, Micro;
    forall s: int, w: World | s in ctx.g.states
      ensures StepAlike(ctx.g, g3, s, w)
    {
      StepRefines(ctx, g2, sites, s, w);
      StepIs(g3, s, w, StepFuel(ctx, s));
      MarkAgrees(ctx, s, w);
      MicroIgnores(ctx.g, s, Mark(ctx, s, w), w);
    }
  }

  lemma SplitThenSpliced(g0: Graph, g1: Graph, g3: Graph, s: int, w: World)
    requires StepsAlike(g1, g3) && FreeOfLast(g1) && CondFree(g1) && Consistent(g1)
    requires s in g1.states && Stutters(g0, g1, s, w)
    ensures FannedOut(g0, g3, s, w)
  {
    RunsAlike(g1, g3, s, w, w, StepsOf(g0, s));
  }

  /** All runs: wherever k steps of the original machine lead, some n >= k steps of the transformed
      machine lead. */
  lemma {:induction false} RunsRefine(g0: Graph, g: Graph, s: int, w: World, w': World, k: nat) returns (n: nat)
    requires forall s: int, w: World | s in g0.states :: FannedOut(g0, g, s, w)
    requires FreeOfLast(g0) && CondFree(g0) && Consistent(g0) && s in g0.states && AgreeExcept(w, w', LAST)
    ensures Leads(g, s, w, n, MicroSteps(g0, s, w', k).0, MicroSteps(g0, s, w', k).1) && n >= k
    decreases k
  {
    n := 0;
    if k > 0 {
      assert FannedOut(g0, g, s, w);
      MicroIgnores(g0, s, w, w');
      MicroStays(g0, s, w);
      var n1 := StepsOf(g0, s);
      var r := Steps(g, s, w, n1).value;
      var n2 := RunsRefine(g0, g, r.0, r.1, Micro(g0, s, w').1, k - 1);
      StepsAppend(g, s, w, n1, n2);
      n := n1 + n2;
    }
  }
}
