/** Sub-machines that implement a callback. */
module Fragments {
  // What such a fragment promises, and how the fragments of sub-callbacks are put together.

  import opened Options
  import opened Terms
  import opened Programs
  import opened Graphs

  datatype Entry = Entry(state: int, cond: Expr)

  /** CBInterface: the states a fragment is entered through, each with its guard, and the states it
      is left from. */
  datatype Interface = Interface(entries: seq<Entry>, exits: seq<int>)

  /** An interface together with the states behind it.  Every transition lowers the rank. */
  datatype Fragment = Fragment(face: Interface, nodes: set<int>, rank: map<int, nat>)

  /** Execute states from n until one of the exits has been executed. */
  function Run(g: Graph, exits: seq<int>, n: int, w: World, fuel: nat): Option<(int, World)>
    decreases fuel
  {
    var w' := ExecAll(g.Acts(n), w);
    if n in exits then Some((n, w'))
    else if fuel == 0 then None
    else Run(g, exits, Next(g, n, w'), w', fuel - 1)
  }

  ghost predicate Opens(entries: seq<Entry>, i: int, w: World) {
    0 <= i < |entries| && Holds(entries[i].cond, w)
  }

  ghost predicate OneEntry(entries: seq<Entry>, w: World) {
    && (exists i :: Opens(entries, i, w))
    && (forall i, j :: Opens(entries, i, w) && Opens(entries, j, w) ==> i == j)
  }

  /** Exactly one enabled way leads out of n. */
  ghost predicate OneWay(g: Graph, n: int, w: World) {
    var r := First(Out(g.edges, n), w, {});
    r.Some? && forall x :: Hit(Out(g.edges, n), w, x) ==> x == r.value
  }

  ghost predicate RunsLike(g: Graph, c: Cmd, f: Fragment, i: int, w: World)
    requires 0 <= i < |f.face.entries|
  {
    var r := Run(g, f.face.exits, f.face.entries[i].state, w, Size(c) - 1);
    r.Some? && r.value.0 in f.face.exits && r.value.1 == Exec(c, w)
  }

  ghost predicate Located(c: Cmd, f: Fragment) {
    && (forall e | e in f.face.entries :: e.state in f.nodes)
    && (forall x | x in f.face.exits :: x in f.nodes)
    && f.face.exits != []
    && f.rank.Keys == f.nodes
    && |f.nodes| == Size(c)
    && (forall n | n in f.nodes :: f.rank[n] < Size(c))
  }

  ghost predicate Closed(g: Graph, f: Fragment)
    requires f.rank.Keys == f.nodes
  {
    forall e | e in g.edges && e.src in f.nodes && e.src !in f.face.exits ::
      e.dst in f.nodes && f.rank[e.dst] < f.rank[e.src]
  }

  ghost predicate IsAtomic(cs: seq<Cmd>) {
    cs == [] || (|cs| == 1 && cs[0].Set?)
  }

  /** The fragment f of g implements the callback c. */
  ghost predicate Implements(g: Graph, c: Cmd, f: Fragment) {
    && Located(c, f)
    && Closed(g, f)
    && (forall n | n in f.nodes :: IsAtomic(g.Acts(n)))
    && (forall n: int, w: World | n in f.nodes && n !in f.face.exits :: OneWay(g, n, w))
    && (forall w: World :: OneEntry(f.face.entries, w))
    && (forall i: int, w: World :: Opens(f.face.entries, i, w) ==> RunsLike(g, c, f, i, w))
  }

  /** Nothing leaves the exits yet. */
  ghost predicate OpenEnded(g: Graph, f: Fragment) {
    forall e | e in g.edges :: e.src !in f.face.exits
  }

  // ----- running

  lemma {:induction false} RunFuel(g: Graph, exits: seq<int>, n: int, w: World, f: nat, f': nat)
    requires Run(g, exits, n, w, f).Some? && f <= f'
    ensures Run(g, exits, n, w, f') == Run(g, exits, n, w, f)
    decreases f
  {
    var w' := ExecAll(g.Acts(n), w);
    if n !in exits {
      RunFuel(g, exits, Next(g, n, w'), w', f - 1, f' - 1);
    }
  }

  ghost predicate StaysIn(g: Graph, nodes: set<int>, exits: seq<int>) {
    forall n: int, w: World | n in nodes && n !in exits :: Next(g, n, w) in nodes
  }

  lemma ImplementsStaysIn(g: Graph, c: Cmd, f: Fragment)
    requires Implements(g, c, f)
    ensures StaysIn(g, f.nodes, f.face.exits)
  {
    forall n: int, w: World | n in f.nodes && n !in f.face.exits
      ensures Next(g, n, w) in f.nodes
    {
      assert OneWay(g, n, w);
      FirstIsHit(Out(g.edges, n), w, {});
      OutMembers(g.edges, n);
    }
  }

  /** Continue a run beyond the exits of its first part. */
  lemma {:induction false} RunThrough(g: Graph, nodes: set<int>, exits: seq<int>, beyond: seq<int>, n: int, w: World, f: nat, f': nat)
    requires n in nodes && StaysIn(g, nodes, exits)
    requires forall x | x in beyond :: x !in nodes
    requires Run(g, exits, n, w, f).Some?
    requires var (x, w') := Run(g, exits, n, w, f).value; Run(g, beyond, Next(g, x, w'), w', f').Some?
    ensures var (x, w') := Run(g, exits, n, w, f).value;
            Run(g, beyond, n, w, f + 1 + f') == Run(g, beyond, Next(g, x, w'), w', f')
    decreases f
  {
    var w1 := ExecAll(g.Acts(n), w);
    if n in exits {
      RunFuel(g, beyond, Next(g, n, w1), w1, f', f + f');
    } else {
      RunThrough(g, nodes, exits, beyond, Next(g, n, w1), w1, f - 1, f');
    }
  }

  /** Seen from outside, a run through cluster states is part of one step. */
  lemma {:induction false} MacroThrough(g: Graph, nodes: set<int>, exits: seq<int>, n: int, w: World, f: nat, f': nat)
    requires n in nodes && StaysIn(g, nodes, exits)
    requires forall m | m in nodes :: g.InCluster(m)
    requires Run(g, exits, n, w, f).Some?
    ensures var (x, w') := Run(g, exits, n, w, f).value;
            var y := Next(g, x, w');
            && (!g.InCluster(y) ==> Macro(g, n, w, f + 1 + f') == Some((y, w')))
            && (g.InCluster(y) && Macro(g, y, w', f').Some? ==>
                  Macro(g, n, w, f + 1 + f') == Macro(g, y, w', f'))
    decreases f
  {
    var w1 := ExecAll(g.Acts(n), w);
    var y := Next(g, n, w1);
    if n in exits {
      if g.InCluster(y) && Macro(g, y, w1, f').Some? {
        MacroFuel(g, y, w1, f', f + f');
      }
    } else {
      MacroThrough(g, nodes, exits, y, w1, f - 1, f');
    }
  }

  // ----- what does not disturb a fragment

  ghost predicate SameInside(g: Graph, g': Graph, f: Fragment) {
    && (forall n | n in f.nodes :: g'.Acts(n) == g.Acts(n))
    && (forall n | n in f.nodes && n !in f.face.exits :: Out(g'.edges, n) == Out(g.edges, n))
  }

  lemma {:induction false} RunSame(g: Graph, g': Graph, f: Fragment, n: int, w: World, fuel: nat)
    requires SameInside(g, g', f) && n in f.nodes && StaysIn(g, f.nodes, f.face.exits)
    ensures Run(g', f.face.exits, n, w, fuel) == Run(g, f.face.exits, n, w, fuel)
    decreases fuel
  {
    var w' := ExecAll(g.Acts(n), w);
    if n !in f.face.exits && fuel > 0 {
      RunSame(g, g', f, Next(g, n, w'), w', fuel - 1);
    }
  }

  lemma ImplementsSame(g: Graph, g': Graph, c: Cmd, f: Fragment)
    requires Implements(g, c, f) && SameInside(g, g', f)
    ensures Implements(g', c, f)
  {
    ImplementsStaysIn(g, c, f);
    forall e | e in g'.edges && e.src in f.nodes && e.src !in f.face.exits
      ensures e.dst in f.nodes && f.rank[e.dst] < f.rank[e.src]
    {
      OutMembers(g.edges, e.src);
      OutMembers(g'.edges, e.src);
      assert e in Out(g'.edges, e.src);
    }
    forall n: int, w: World | n in f.nodes && n !in f.face.exits
      ensures OneWay(g', n, w)
    {
      assert OneWay(g, n, w);
    }
    forall i: int, w: World | Opens(f.face.entries, i, w)
      ensures RunsLike(g', c, f, i, w)
    {
      assert RunsLike(g, c, f, i, w);
      assert f.face.entries[i] in f.face.entries;
      RunSame(g, g', f, f.face.entries[i].state, w, Size(c) - 1);
    }
  }

  // ----- one state

  /** The command a single state executes when it stands for c. */
  ghost predicate StandsFor(cs: seq<Cmd>, c: Cmd) {
    (c.Set? && cs == [c]) || (c.Skip? && cs == [])
  }

  function Single(id: int): Fragment {
    Fragment(Interface([Entry(id, TRUE)], [id]), {id}, map[id := 0])
  }

  lemma SingleImplements(g: Graph, c: Cmd, id: int)
    requires StandsFor(g.Acts(id), c)
    ensures Implements(g, c, Single(id))
  {
    var f := Single(id);
    assert Size(c) == 1;
    forall w: World
      ensures OneEntry(f.face.entries, w)
    {
      assert Opens(f.face.entries, 0, w);
    }
    forall i: int, w: World | Opens(f.face.entries, i, w)
      ensures RunsLike(g, c, f, i, w)
    {
      ExecOne(c, w);
    }
  }

  // ----- wiring

  function LinkExits(exits: seq<int>, d: int): seq<Edge> {
    if exits == [] then [] else LinkExits(exits[..|exits| - 1], d) + [Edge(exits[|exits| - 1], d, TRUE)]
  }

  function LinkEntries(d: int, entries: seq<Entry>): seq<Edge> {
    if entries == [] then [] else
      var e := entries[|entries| - 1];
      LinkEntries(d, entries[..|entries| - 1]) + [Edge(d, e.state, e.cond)]
  }

  lemma {:induction false} LinkExitsMembers(exits: seq<int>, d: int)
    ensures forall e :: e in LinkExits(exits, d) <==> e.src in exits && e.dst == d && e.cond == TRUE
  {
    if exits != [] {
      LinkExitsMembers(exits[..|exits| - 1], d);
      assert exits == exits[..|exits| - 1] + [exits[|exits| - 1]];
    }
  }

  lemma {:induction false} LinkEntriesMembers(d: int, entries: seq<Entry>)
    ensures forall e :: e in LinkEntries(d, entries) <==> e.src == d && Entry(e.dst, e.cond) in entries
  {
    if entries != [] {
      LinkEntriesMembers(d, entries[..|entries| - 1]);
      assert entries == entries[..|entries| - 1] + [entries[|entries| - 1]];
    }
  }

  /** A state whose transitions are the entries of a fragment is left into the open entry. */
  lemma EntryIsTaken(es: seq<Edge>, d: int, entries: seq<Entry>, i: int, w: World)
    requires forall e :: e in es <==> e.src == d && Entry(e.dst, e.cond) in entries
    requires OneEntry(entries, w) && Opens(entries, i, w)
    ensures First(es, w, {}) == Some(entries[i].state)
    ensures forall x :: Hit(es, w, x) ==> x == entries[i].state
  {
    forall x | Hit(es, w, x)
      ensures x == entries[i].state
    {
      var e :| e in es && e.dst == x && Holds(e.cond, w);
      var j :| 0 <= j < |entries| && entries[j] == Entry(e.dst, e.cond);
      assert Opens(entries, j, w);
    }
    assert Edge(d, entries[i].state, entries[i].cond) in es;
    assert Hit(es, w, entries[i].state);
    FirstIsHit(es, w, {});
  }

  /** A state all of whose transitions lead unconditionally to d is left to d. */
  lemma LinkIsTaken(es: seq<Edge>, d: int, w: World)
    requires es != [] && forall e | e in es :: e.dst == d && e.cond == TRUE
    ensures First(es, w, {}) == Some(d)
    ensures forall x :: Hit(es, w, x) ==> x == d
  {
    assert es[0] in es && Hit(es, w, d);
    FirstIsHit(es, w, {});
  }

  // ----- sequence

  function SeqRank(a: Fragment, b: Fragment, d: int, shift: nat): map<int, nat>
    requires a.rank.Keys == a.nodes && b.rank.Keys == b.nodes
  {
    map n | n in a.nodes + b.nodes + {d} ::
      if n in a.nodes then a.rank[n] + shift + 1 else if n == d then shift else b.rank[n]
  }

  function SeqFragment(a: Fragment, b: Fragment, d: int, shift: nat): Fragment
    requires a.rank.Keys == a.nodes && b.rank.Keys == b.nodes
  {
    Fragment(Interface(a.face.entries, b.face.exits), a.nodes + b.nodes + {d}, SeqRank(a, b, d, shift))
  }

  /** a's exits lead to d, and d leads to b's entries. */
  ghost predicate Chained(g: Graph, a: Fragment, b: Fragment, d: int) {
    && a.nodes !! b.nodes && d !in a.nodes && d !in b.nodes
    && g.Acts(d) == []
    && (forall x | x in a.face.exits ::
          Out(g.edges, x) != [] && forall e | e in Out(g.edges, x) :: e.dst == d && e.cond == TRUE)
    && (forall e :: e in Out(g.edges, d) <==> e.src == d && Entry(e.dst, e.cond) in b.face.entries)
  }

  lemma SeqLocated(p: Cmd, q: Cmd, a: Fragment, b: Fragment, d: int)
    requires Located(p, a) && Located(q, b) && a.nodes !! b.nodes && d !in a.nodes && d !in b.nodes
    ensures Located(Seq(p, q), SeqFragment(a, b, d, Size(q)))
  {
    var f := SeqFragment(a, b, d, Size(q));
    assert |a.nodes + b.nodes| == |a.nodes| + |b.nodes|;
    assert |f.nodes| == |a.nodes + b.nodes| + 1;
  }

  lemma SeqClosed(g: Graph, p: Cmd, q: Cmd, a: Fragment, b: Fragment, d: int)
    requires Located(p, a) && Located(q, b) && Closed(g, a) && Closed(g, b) && Chained(g, a, b, d)
    ensures Closed(g, SeqFragment(a, b, d, Size(q)))
  {
    var f := SeqFragment(a, b, d, Size(q));
    forall e | e in g.edges && e.src in f.nodes && e.src !in f.face.exits
      ensures e.dst in f.nodes && f.rank[e.dst] < f.rank[e.src]
    {
      OutMembers(g.edges, e.src);
      assert e in Out(g.edges, e.src);
      if e.src == d {
        assert Entry(e.dst, e.cond) in b.face.entries;
      }
    }
  }

  lemma SeqOneWay(g: Graph, p: Cmd, q: Cmd, a: Fragment, b: Fragment, d: int, n: int, w: World)
    requires Implements(g, p, a) && Implements(g, q, b) && Chained(g, a, b, d)
    requires n in SeqFragment(a, b, d, Size(q)).nodes && n !in b.face.exits
    ensures OneWay(g, n, w)
  {
    if n == d {
      assert OneEntry(b.face.entries, w);
      var i :| Opens(b.face.entries, i, w);
      EntryIsTaken(Out(g.edges, d), d, b.face.entries, i, w);
    } else if n in a.face.exits {
      LinkIsTaken(Out(g.edges, n), d, w);
    }
  }

  lemma SeqImplements(g: Graph, p: Cmd, q: Cmd, a: Fragment, b: Fragment, d: int)
    requires Implements(g, p, a) && Implements(g, q, b) && Chained(g, a, b, d)
    ensures Implements(g, Seq(p, q), SeqFragment(a, b, d, Size(q)))
  {
    var c, f := Seq(p, q), SeqFragment(a, b, d, Size(q));
    SeqLocated(p, q, a, b, d);
    SeqClosed(g, p, q, a, b, d);
    assert forall n | n in f.nodes :: IsAtomic(g.Acts(n));
    assert forall w :: OneEntry(f.face.entries, w);
    hide Located, Closed, Chained, OneWay, Run, IsAtomic, OneEntry, RunsLike;
    forall n: int, w: World | n in f.nodes && n !in f.face.exits
      ensures OneWay(g, n, w)
    {
      SeqOneWay(g, p, q, a, b, d, n, w);
    }
    forall i: int, w: World | Opens(f.face.entries, i, w)
      ensures RunsLike(g, c, f, i, w)
    {
      SeqRuns(g, p, q, a, b, d, i, w);
      SeqRunsLike(g, p, q, a, b, d, i, w);
    }
  }

  /** From the exits of a through d to the end of b. */
  lemma SecondHalfRuns(g: Graph, q: Cmd, b: Fragment, d: int, w: World)
    requires Implements(g, q, b) && d !in b.nodes && g.Acts(d) == []
    requires forall e :: e in Out(g.edges, d) <==> e.src == d && Entry(e.dst, e.cond) in b.face.entries
    ensures var r := Run(g, b.face.exits, d, w, Size(q)); r.Some? && r.value.0 in b.face.exits && r.value.1 == Exec(q, w)
  {
    assert OneEntry(b.face.entries, w) && Located(q, b);
    var j :| Opens(b.face.entries, j, w);
    assert RunsLike(g, q, b, j, w);
    hide Implements, Out, First, Located;
    EntryIsTaken(Out(g.edges, d), d, b.face.entries, j, w);
    var e := b.face.entries[j].state;
    assert Next(g, d, w) == e;
    assert d !in b.face.exits;
    assert Run(g, b.face.exits, d, w, Size(q)) == Run(g, b.face.exits, e, w, Size(q) - 1);
  }

  /** From an enabled entry of a to one of its exits. */
  lemma FirstHalfRuns(g: Graph, p: Cmd, a: Fragment, i: int, w: World)
    requires Implements(g, p, a) && Opens(a.face.entries, i, w)
    ensures Located(p, a) && StaysIn(g, a.nodes, a.face.exits) && a.face.entries[i].state in a.nodes
    ensures var r := Run(g, a.face.exits, a.face.entries[i].state, w, Size(p) - 1);
            r.Some? && r.value.0 in a.face.exits && r.value.1 == Exec(p, w)
  {
    ImplementsStaysIn(g, p, a);
    hide Run, Exec, Size, OneWay, OneEntry, Closed;
    assert RunsLike(g, p, a, i, w);
    assert a.face.entries[i] in a.face.entries;
  }

  lemma ExitsLinked(g: Graph, a: Fragment, b: Fragment, d: int, x: int, w: World)
    requires Chained(g, a, b, d) && x in a.face.exits
    ensures Next(g, x, w) == d
  {
    LinkIsTaken(Out(g.edges, x), d, w);
  }

  /** From an enabled entry of a through d to an exit of b. */
  lemma SeqRuns(g: Graph, p: Cmd, q: Cmd, a: Fragment, b: Fragment, d: int, i: int, w: World)
    requires Implements(g, p, a) && Implements(g, q, b) && Chained(g, a, b, d)
    requires Opens(a.face.entries, i, w)
    ensures var r := Run(g, b.face.exits, a.face.entries[i].state, w, Size(p) + Size(q));
      r.Some? && r.value.0 in b.face.exits && r.value.1 == Exec(q, Exec(p, w))
  {
    hide Implements, Located, StaysIn, Run, Next, Size, Exec;
    FirstHalfRuns(g, p, a, i, w);
    var n, f := a.face.entries[i].state, Size(p) - 1;
    var (x, w1) := Run(g, a.face.exits, n, w, f).value;
    SecondHalfRuns(g, q, b, d, w1);
    ExitsLinked(g, a, b, d, x, w1);
    ExitsOutside(g, q, b, a, d);
    hide Chained;
    RunThrough(g, a.nodes, a.face.exits, b.face.exits, n, w, f, Size(q));
    assert f + 1 + Size(q) == Size(p) + Size(q);
  }

  lemma SeqRunsLike(g: Graph, p: Cmd, q: Cmd, a: Fragment, b: Fragment, d: int, i: int, w: World)
    requires a.rank.Keys == a.nodes && b.rank.Keys == b.nodes && 0 <= i < |a.face.entries|
    requires var r := Run(g, b.face.exits, a.face.entries[i].state, w, Size(p) + Size(q));
      r.Some? && r.value.0 in b.face.exits && r.value.1 == Exec(q, Exec(p, w))
    ensures RunsLike(g, Seq(p, q), SeqFragment(a, b, d, Size(q)), i, w)
  {
    hide Run;
    assert Size(Seq(p, q)) - 1 == Size(p) + Size(q);
  }

  lemma ExitsOutside(g: Graph, q: Cmd, b: Fragment, a: Fragment, d: int)
    requires Implements(g, q, b) && Chained(g, a, b, d)
    ensures Located(q, b) && forall x | x in b.face.exits :: x !in a.nodes
  {}

  // ----- cutting into a sequence

  /** g' has the transitions of g and, at the exits, possibly more behind them. */
  ghost predicate MoreAtExits(g: Graph, g': Graph, f: Fragment, exits: seq<int>)
  {
    && (forall n | n in f.nodes :: g'.Acts(n) == g.Acts(n) && Out(g.edges, n) <= Out(g'.edges, n))
    && (forall n | n in f.nodes && n !in exits :: Out(g'.edges, n) == Out(g.edges, n))
  }

  lemma {:induction false} RunUnchanged(g: Graph, g': Graph, c: Cmd, f: Fragment, cut: seq<int>, n: int, w: World, fuel: nat)
    requires Implements(g, c, f) && MoreAtExits(g, g', f, cut) && n in f.nodes
    ensures Run(g', f.face.exits, n, w, fuel) == Run(g, f.face.exits, n, w, fuel)
    decreases fuel
  {
    var w' := ExecAll(g.Acts(n), w);
    if n !in f.face.exits && fuel > 0 {
      assert OneWay(g, n, w');
      ImplementsStaysIn(g, c, f);
      var es, es' := Out(g.edges, n), Out(g'.edges, n);
      FirstAppend(es, es'[|es|..], w', {});
      assert es' == es + es'[|es|..];
      hide Implements, Out, First, OneWay;
      RunUnchanged(g, g', c, f, cut, Next(g, n, w'), w', fuel - 1);
    }
  }

  /** A caller that is connected with the first part of a sequence compiled before, by transitions
      added at the exits of that part, runs the second part as well. */
  lemma CutRunsOn(g: Graph, g': Graph, p: Cmd, q: Cmd, a: Fragment, b: Fragment, d: int, i: int, w: World)
    requires Implements(g, p, a) && Implements(g, q, b) && Chained(g, a, b, d) && Opens(a.face.entries, i, w)
    requires MoreAtExits(g, g', SeqFragment(a, b, d, Size(q)), a.face.exits)
    ensures var r := Run(g', b.face.exits, a.face.entries[i].state, w, Size(p) + Size(q));
      r.Some? && r.value.0 in b.face.exits && r.value.1 == Exec(q, Exec(p, w))
  {
    hide Chained, Run, MoreAtExits, Exec, Size, OneWay, RunsLike, OneEntry, Closed;
    assert Located(p, a) && Located(q, b);
    hide Implements;
    SeqImplements(g, p, q, a, b, d);
    SeqRuns(g, p, q, a, b, d, i, w);
    FirstHalfRuns(g, p, a, i, w);
    var f := SeqFragment(a, b, d, Size(q));
    RunUnchanged(g, g', Seq(p, q), f, a.face.exits, a.face.entries[i].state, w, Size(p) + Size(q));
  }

  // ----- branching

  /** The guard of an entry behind a branch condition. */
  function Behind(c: Expr, guard: Expr): Expr {
    if AlwaysTrue(guard) then c else Bin(And, c, guard)
  }

  lemma BehindHolds(c: Expr, guard: Expr, w: World)
    ensures Holds(Behind(c, guard), w) <==> Holds(c, w) && Holds(guard, w)
  {
    AlwaysSound(guard, w);
  }

  function AllBehind(c: Expr, entries: seq<Entry>): (r: seq<Entry>)
    ensures |r| == |entries|
    ensures forall i | 0 <= i < |r| :: r[i] == Entry(entries[i].state, Behind(c, entries[i].cond))
  {
    if entries == [] then [] else
      var e := entries[|entries| - 1];
      AllBehind(c, entries[..|entries| - 1]) + [Entry(e.state, Behind(c, e.cond))]
  }

  function BranchFragment(c: Expr, a: Fragment, b: Fragment): Fragment
    requires a.rank.Keys == a.nodes && b.rank.Keys == b.nodes
  {
    Fragment(
      Interface(AllBehind(c, a.face.entries) + AllBehind(Not(c), b.face.entries), a.face.exits + b.face.exits),
      a.nodes + b.nodes,
      map n | n in a.nodes + b.nodes :: if n in a.nodes then a.rank[n] else b.rank[n])
  }

  lemma BranchOpens(c: Expr, xs: seq<Entry>, ys: seq<Entry>, i: int, w: World)
    ensures Opens(AllBehind(c, xs) + AllBehind(Not(c), ys), i, w)
       <==> if i < |xs| then Holds(c, w) && Opens(xs, i, w) else !Holds(c, w) && Opens(ys, i - |xs|, w)
  {
    var all := AllBehind(c, xs) + AllBehind(Not(c), ys);
    if 0 <= i < |xs| {
      BehindHolds(c, xs[i].cond, w);
      assert all[i] == AllBehind(c, xs)[i];
    } else if |xs| <= i < |all| {
      BehindHolds(Not(c), ys[i - |xs|].cond, w);
      assert all[i] == AllBehind(Not(c), ys)[i - |xs|];
    }
  }

  lemma BranchOneEntry(c: Expr, xs: seq<Entry>, ys: seq<Entry>, w: World)
    requires OneEntry(xs, w) && OneEntry(ys, w)
    ensures OneEntry(AllBehind(c, xs) + AllBehind(Not(c), ys), w)
  {
    var all := AllBehind(c, xs) + AllBehind(Not(c), ys);
    var i :| Opens(xs, i, w);
    var j :| Opens(ys, j, w);
    var k := if Holds(c, w) then i else |xs| + j;
    BranchOpens(c, xs, ys, k, w);
    forall l | Opens(all, l, w)
      ensures l == k
    {
      BranchOpens(c, xs, ys, l, w);
    }
  }

  /** What the branch does, for `ifelse` and, with an else part that sets nothing, for `if`. */
  ghost predicate IsBranch(c: Cmd, e: Expr, p: Cmd, q: Cmd) {
    c == IfElse(e, p, q) || (c == If(e, p) && q.Skip?)
  }

  lemma BranchImplements(g: Graph, c: Cmd, e: Expr, p: Cmd, q: Cmd, a: Fragment, b: Fragment)
    requires IsBranch(c, e, p, q)
    requires Implements(g, p, a) && Implements(g, q, b) && a.nodes !! b.nodes
    ensures Implements(g, c, BranchFragment(e, a, b))
  {
    var f := BranchFragment(e, a, b);
    BranchLocated(g, c, e, p, q, a, b);
    BranchMadeFrom(p, q, e, a, b);
    assert forall n | n in f.nodes :: IsAtomic(g.Acts(n));
    assert forall n: int, w: World | n in f.nodes && n !in f.face.exits :: OneWay(g, n, w);
    assert forall w :: OneEntry(a.face.entries, w) && OneEntry(b.face.entries, w);
    hide Located, Closed, OneWay, Run, IsAtomic, OneEntry, RunsLike, Opens, IsBranch, BranchFragment, Exec;
    forall w: World
      ensures OneEntry(f.face.entries, w)
    {
      BranchOneEntry(e, a.face.entries, b.face.entries, w);
    }
    forall i: int, w: World | Opens(f.face.entries, i, w)
      ensures RunsLike(g, c, f, i, w)
    {
      BranchRunsLike(g, c, e, p, q, a, b, f, i, w);
    }
  }

  /** The entries and exits of f are those of a and b. */
  ghost predicate MadeFrom(f: Fragment, e: Expr, a: Fragment, b: Fragment) {
    && f.face.entries == AllBehind(e, a.face.entries) + AllBehind(Not(e), b.face.entries)
    && (forall x | x in a.nodes :: x in a.face.exits <==> x in f.face.exits)
    && (forall x | x in b.nodes :: x in b.face.exits <==> x in f.face.exits)
  }

  lemma BranchRunsLike(g: Graph, c: Cmd, e: Expr, p: Cmd, q: Cmd, a: Fragment, b: Fragment, f: Fragment, i: int, w: World)
    requires IsBranch(c, e, p, q) && MadeFrom(f, e, a, b)
    requires Implements(g, p, a) && Implements(g, q, b)
    requires Opens(f.face.entries, i, w)
    ensures RunsLike(g, c, f, i, w)
  {
    hide Implements, Run, RunsLike, IsBranch, Exec, Size;
    var xs, ys := a.face.entries, b.face.entries;
    BranchOpens(e, xs, ys, i, w);
    IsBranchMeans(c, e, p, q, w);
    if i < |xs| {
      BranchRuns(g, c, p, a, f, i, i, w);
    } else {
      BranchRuns(g, c, q, b, f, i, i - |xs|, w);
    }
  }

  lemma IsBranchMeans(c: Cmd, e: Expr, p: Cmd, q: Cmd, w: World)
    requires IsBranch(c, e, p, q)
    ensures Exec(c, w) == if Holds(e, w) then Exec(p, w) else Exec(q, w)
    ensures Size(p) <= Size(c) && Size(q) <= Size(c)
  {
    hide Holds, Eval;
    if c == IfElse(e, p, q) {
      assert Size(c) == Size(p) + Size(q);
    } else {
      assert Size(c) == Size(p) + 1 && Exec(q, w) == w;
    }
  }

  lemma BranchMadeFrom(p: Cmd, q: Cmd, e: Expr, a: Fragment, b: Fragment)
    requires Located(p, a) && Located(q, b) && a.nodes !! b.nodes
    ensures MadeFrom(BranchFragment(e, a, b), e, a, b)
  {
    hide Holds, Size;
  }

  lemma BranchLocated(g: Graph, c: Cmd, e: Expr, p: Cmd, q: Cmd, a: Fragment, b: Fragment)
    requires IsBranch(c, e, p, q)
    requires Implements(g, p, a) && Implements(g, q, b) && a.nodes !! b.nodes
    ensures var f := BranchFragment(e, a, b); Located(c, f) && Closed(g, f)
  {
    var f := BranchFragment(e, a, b);
    assert Located(p, a) && Located(q, b) && Closed(g, a) && Closed(g, b);
    hide Implements;
    assert |a.nodes + b.nodes| == |a.nodes| + |b.nodes|;
    forall x | x in f.face.entries
      ensures x.state in f.nodes
    {
      var k :| 0 <= k < |f.face.entries| && f.face.entries[k] == x;
      if k < |a.face.entries| {
        assert a.face.entries[k] in a.face.entries;
      } else {
        assert b.face.entries[k - |a.face.entries|] in b.face.entries;
      }
    }
  }

  /** Whatever fragment entry i of f comes from, the run from there is the run of that part. */
  lemma BranchRuns(g: Graph, c: Cmd, p: Cmd, part: Fragment, f: Fragment, i: int, k: int, w: World)
    requires Implements(g, p, part) && Opens(part.face.entries, k, w)
    requires 0 <= i < |f.face.entries| && f.face.entries[i].state == part.face.entries[k].state
    requires forall x | x in part.nodes :: x in part.face.exits <==> x in f.face.exits
    requires Exec(c, w) == Exec(p, w) && Size(p) <= Size(c)
    ensures RunsLike(g, c, f, i, w)
  {
    assert RunsLike(g, p, part, k, w) && part.face.entries[k] in part.face.entries;
    ImplementsStaysIn(g, p, part);
    PartRuns(g, part.nodes, part.face.exits, f.face.exits, part.face.entries[k].state, w, Size(p) - 1, Size(c) - 1);
    var x := Run(g, part.face.exits, part.face.entries[k].state, w, Size(p) - 1).value.0;
    assert x in part.nodes;
  }

  lemma PartRuns(g: Graph, nodes: set<int>, exits: seq<int>, more: seq<int>, n: int, w: World, f: nat, f': nat)
    requires n in nodes && StaysIn(g, nodes, exits)
    requires forall x | x in nodes :: x in exits <==> x in more
    requires Run(g, exits, n, w, f).Some? && f <= f'
    ensures Run(g, more, n, w, f') == Run(g, exits, n, w, f)
  {
    RunMoreExits(g, nodes, exits, more, n, w, f);
    RunFuel(g, more, n, w, f, f');
  }

  /** Exits elsewhere do not matter. */
  lemma {:induction false} RunMoreExits(g: Graph, nodes: set<int>, exits: seq<int>, more: seq<int>, n: int, w: World, fuel: nat)
    requires n in nodes && StaysIn(g, nodes, exits)
    requires forall x | x in nodes :: x in exits <==> x in more
    ensures Run(g, more, n, w, fuel) == Run(g, exits, n, w, fuel)
    decreases fuel
  {
    var w' := ExecAll(g.Acts(n), w);
    if n !in exits && fuel > 0 {
      RunMoreExits(g, nodes, exits, more, Next(g, n, w'), w', fuel - 1);
    }
  }
}
