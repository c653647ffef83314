/** Elimination of action-free callback states. */
module Bottlenecks {
  // What one pass does to the transitions, and why no step can be told apart afterwards.

  import opened Options
  import opened Terms
  import opened Programs
  import opened Graphs

  /** The transitions that bypass a state between e and each of outs. */
  function Bridges(e: Edge, outs: seq<Edge>): seq<Edge> {
    if outs == [] then [] else
      var f := outs[|outs| - 1];
      Bridges(e, outs[..|outs| - 1]) + [Edge(e.src, f.dst, Conjoin(e.cond, f.cond))]
  }

  function Products(ins: seq<Edge>, outs: seq<Edge>): seq<Edge> {
    if ins == [] then [] else Products(ins[..|ins| - 1], outs) + Bridges(ins[|ins| - 1], outs)
  }

  /** The transitions that neither leave nor enter a state of gone. */
  function Without(es: seq<Edge>, gone: set<int>): seq<Edge> {
    if es == [] then [] else
      var e := es[|es| - 1];
      var rest := Without(es[..|es| - 1], gone);
      if e.src in gone || e.dst in gone then rest else rest + [e]
  }

  ghost predicate Enters(ins: seq<Edge>, p: int, w: World) {
    exists e :: e in ins && e.src == p && Holds(e.cond, w)
  }

  lemma {:induction false} BridgesFire(e: Edge, outs: seq<Edge>, p: int, w: World, skip: set<int>)
    ensures First(Out(Bridges(e, outs), p), w, skip)
         == if e.src == p && Holds(e.cond, w) then First(outs, w, skip) else None
  {
    if outs != [] {
      var f, rest := outs[|outs| - 1], outs[..|outs| - 1];
      var n := Edge(e.src, f.dst, Conjoin(e.cond, f.cond));
      BridgesFire(e, rest, p, w, skip);
      ConjoinHolds(e.cond, f.cond, w);
      OutAppend(Bridges(e, rest), [n], p);
      FirstSnoc(Out(Bridges(e, rest), p), n, w, skip);
    }
  }

  lemma {:induction false} ProductsFire(ins: seq<Edge>, outs: seq<Edge>, p: int, w: World, skip: set<int>)
    ensures First(Out(Products(ins, outs), p), w, skip)
         == if Enters(ins, p, w) then First(outs, w, skip) else None
  {
    if ins != [] {
      var e, rest := ins[|ins| - 1], ins[..|ins| - 1];
      assert ins == rest + [e];
      ProductsFire(rest, outs, p, w, skip);
      BridgesFire(e, outs, p, w, skip);
      OutAppend(Products(rest, outs), Bridges(e, outs), p);
      FirstAppend(Out(Products(rest, outs), p), Out(Bridges(e, outs), p), w, skip);
      if Enters(rest, p, w) {
        var d :| d in rest && d.src == p && Holds(d.cond, w);
        assert d in ins;
      }
      if e.src == p && Holds(e.cond, w) {
        assert e in ins;
      }
    }
  }

  lemma {:induction false} BridgeOrigin(e: Edge, outs: seq<Edge>, n: Edge) returns (f: Edge)
    requires n in Bridges(e, outs)
    ensures f in outs && n == Edge(e.src, f.dst, Conjoin(e.cond, f.cond))
  {
    f := outs[|outs| - 1];
    if n != Edge(e.src, f.dst, Conjoin(e.cond, f.cond)) {
      f := BridgeOrigin(e, outs[..|outs| - 1], n);
    }
  }

  /** Every bypass comes from a transition that enters and one that leaves. */
  lemma {:induction false} ProductOrigin(ins: seq<Edge>, outs: seq<Edge>, n: Edge) returns (e: Edge, f: Edge)
    requires n in Products(ins, outs)
    ensures e in ins && f in outs && n == Edge(e.src, f.dst, Conjoin(e.cond, f.cond))
  {
    e := ins[|ins| - 1];
    if n in Bridges(e, outs) {
      f := BridgeOrigin(e, outs, n);
    } else {
      e, f := ProductOrigin(ins[..|ins| - 1], outs, n);
    }
  }

  lemma {:induction false} BridgesHit(e: Edge, outs: seq<Edge>, p: int, w: World, x: int)
    ensures Hit(Out(Bridges(e, outs), p), w, x) <==> e.src == p && Holds(e.cond, w) && Hit(outs, w, x)
  {
    if outs != [] {
      var f, rest := outs[|outs| - 1], outs[..|outs| - 1];
      var n := Edge(e.src, f.dst, Conjoin(e.cond, f.cond));
      assert outs == rest + [f] && f in [f] && n in [n];
      BridgesHit(e, rest, p, w, x);
      ConjoinHolds(e.cond, f.cond, w);
      OutAppend(Bridges(e, rest), [n], p);
      HitAppend(Out(Bridges(e, rest), p), Out([n], p), w, x);
      HitAppend(rest, [f], w, x);
    }
  }

  /** A bypass leads to x exactly when the state was entered and would have been left towards x. */
  lemma {:induction false} ProductsHit(ins: seq<Edge>, outs: seq<Edge>, p: int, w: World, x: int)
    ensures Hit(Out(Products(ins, outs), p), w, x) <==> Enters(ins, p, w) && Hit(outs, w, x)
  {
    if ins != [] {
      var e, rest := ins[|ins| - 1], ins[..|ins| - 1];
      assert ins == rest + [e] && e in ins;
      ProductsHit(rest, outs, p, w, x);
      BridgesHit(e, outs, p, w, x);
      OutAppend(Products(rest, outs), Bridges(e, outs), p);
      HitAppend(Out(Products(rest, outs), p), Out(Bridges(e, outs), p), w, x);
      if Enters(rest, p, w) {
        var d :| d in rest && d.src == p && Holds(d.cond, w);
        assert d in ins;
      }
    }
  }

  // ----- what makes the elimination sound

  /** Whenever a state can be left into bottlenecks, it can be left into one place only. */
  ghost predicate Guarded(es: seq<Edge>, bottlenecks: set<int>, gone: set<int>) {
    forall p: int, w: World, x: int, y: int {:trigger Hit(Out(es, p), w, x), Hit(Out(es, p), w, y)} ::
      Hit(Out(es, p), w, x) && Hit(Out(es, p), w, y) && x !in gone && y !in gone && x in bottlenecks ==> x == y
  }

  /** Where the chain of states in gone that starts at t is left within n steps, if it is. */
  function ChaseFor(es: seq<Edge>, gone: set<int>, t: int, w: World, n: nat): Option<int>
    decreases n
  {
    if t !in gone then Some(t)
    else
      var r := First(Out(es, t), w, {});
      if r.None? || n == 0 then None else ChaseFor(es, gone, r.value, w, n - 1)
  }

  ghost predicate IsLeft(es: seq<Edge>, gone: set<int>, t: int, w: World) {
    exists n: nat :: ChaseFor(es, gone, t, w, n).Some?
  }

  /** Where the chain is left; None if it gets stuck or runs in a circle. */
  ghost function Chase(es: seq<Edge>, gone: set<int>, t: int, w: World): Option<int> {
    if IsLeft(es, gone, t, w) then
      var n: nat :| ChaseFor(es, gone, t, w, n).Some?;
      ChaseFor(es, gone, t, w, n)
    else None
  }

  ghost function End(es: seq<Edge>, gone: set<int>, p: int, w: World): Option<int> {
    var r := First(Out(es, p), w, {});
    if r.None? then None else Chase(es, gone, r.value, w)
  }

  lemma {:induction false} ChaseForMore(es: seq<Edge>, gone: set<int>, t: int, w: World, n: nat, m: nat)
    requires ChaseFor(es, gone, t, w, n).Some? && n <= m
    ensures ChaseFor(es, gone, t, w, m) == ChaseFor(es, gone, t, w, n)
    decreases n
  {
    if t in gone {
      ChaseForMore(es, gone, First(Out(es, t), w, {}).value, w, n - 1, m - 1);
    }
  }

  lemma ChaseIs(es: seq<Edge>, gone: set<int>, t: int, w: World, n: nat)
    requires ChaseFor(es, gone, t, w, n).Some?
    ensures Chase(es, gone, t, w) == ChaseFor(es, gone, t, w, n)
  {
    assert IsLeft(es, gone, t, w);
    var m: nat :| ChaseFor(es, gone, t, w, m).Some? && ChaseFor(es, gone, t, w, m) == Chase(es, gone, t, w);
    if n <= m {
      ChaseForMore(es, gone, t, w, n, m);
    } else {
      ChaseForMore(es, gone, t, w, m, n);
    }
  }

  lemma ChaseTakes(es: seq<Edge>, gone: set<int>, t: int, w: World) returns (n: nat)
    requires Chase(es, gone, t, w).Some?
    ensures ChaseFor(es, gone, t, w, n) == Chase(es, gone, t, w)
  {
    n :| ChaseFor(es, gone, t, w, n).Some?;
    ChaseIs(es, gone, t, w, n);
  }

  /** A chain goes on with the transition taken at its start. */
  lemma ChaseUnfolds(es: seq<Edge>, gone: set<int>, t: int, w: World)
    ensures Chase(es, gone, t, w) == if t in gone then End(es, gone, t, w) else Some(t)
  {
    if t !in gone {
      ChaseIs(es, gone, t, w, 0);
    } else {
      var r := First(Out(es, t), w, {});
      if Chase(es, gone, t, w).Some? {
        var n := ChaseTakes(es, gone, t, w);
        ChaseIs(es, gone, r.value, w, n - 1);
      }
      if r.Some? && Chase(es, gone, r.value, w).Some? {
        var n := ChaseTakes(es, gone, r.value, w);
        ChaseIs(es, gone, t, w, n + 1);
      }
    }
  }

  lemma {:induction false} ChaseForOutside(es: seq<Edge>, gone: set<int>, t: int, w: World, n: nat)
    requires ChaseFor(es, gone, t, w, n).Some?
    ensures ChaseFor(es, gone, t, w, n).value !in gone
    decreases n
  {
    if t in gone {
      ChaseForOutside(es, gone, First(Out(es, t), w, {}).value, w, n - 1);
    }
  }

  /** What holds in the middle of a pass that started with es0 and has bypassed gone so far. */
  ghost predicate PassInvariant(es0: seq<Edge>, es: seq<Edge>, bottlenecks: set<int>, gone: set<int>) {
    && gone <= bottlenecks
    && Guarded(es, bottlenecks, gone)
    && forall p: int, w: World :: EndsAlike(es0, es, gone, p, w)
  }

  ghost predicate EndsAlike(es0: seq<Edge>, es: seq<Edge>, gone: set<int>, p: int, w: World) {
    First(Out(es, p), w, gone) == End(es0, gone, p, w)
  }

  // ----- one bypass

  lemma EntersIsHit(es: seq<Edge>, b: int, p: int, w: World)
    ensures Enters(In(es, b), p, w) <==> Hit(Out(es, p), w, b)
  {
    OutMembers(es, p);
    InMembers(es, b);
    if Enters(In(es, b), p, w) {
      var e :| e in In(es, b) && e.src == p && Holds(e.cond, w);
      assert e in Out(es, p);
    }
    if Hit(Out(es, p), w, b) {
      var e :| e in Out(es, p) && e.dst == b && Holds(e.cond, w);
      assert e in In(es, b);
    }
  }

  function Bypass(es: seq<Edge>, b: int): seq<Edge> {
    InsertAll(es, Products(In(es, b), Out(es, b)))
  }

  lemma BypassHit(es: seq<Edge>, b: int, p: int, w: World, x: int)
    ensures Hit(Out(Bypass(es, b), p), w, x)
       <==> Hit(Out(es, p), w, x) || (Hit(Out(es, p), w, b) && Hit(Out(es, b), w, x))
  {
    var news := Products(In(es, b), Out(es, b));
    HitUnion(es, news, p, w, x);
    ProductsHit(In(es, b), Out(es, b), p, w, x);
    EntersIsHit(es, b, p, w);
  }

  lemma BypassFirst(es: seq<Edge>, b: int, p: int, w: World, skip: set<int>)
    ensures First(Out(Bypass(es, b), p), w, skip)
         == OrElse(First(Out(es, p), w, skip), if Hit(Out(es, p), w, b) then First(Out(es, b), w, skip) else None)
  {
    var news := Products(In(es, b), Out(es, b));
    InsertAllFirst(es, news, p, w, skip);
    ProductsFire(In(es, b), Out(es, b), p, w, skip);
    EntersIsHit(es, b, p, w);
  }

  lemma BypassGuarded(es: seq<Edge>, b: int, bottlenecks: set<int>, gone: set<int>)
    requires Guarded(es, bottlenecks, gone) && b in bottlenecks && b !in gone
    ensures Guarded(Bypass(es, b), bottlenecks, gone + {b})
  {
    forall p: int, w: World, x: int, y: int
      | Hit(Out(Bypass(es, b), p), w, x) && Hit(Out(Bypass(es, b), p), w, y)
        && x !in gone + {b} && y !in gone + {b} && x in bottlenecks
      ensures x == y
    {
      BypassHit(es, b, p, w, x);
      BypassHit(es, b, p, w, y);
    }
  }

  /** One more state to pass through leads a chain that is left there further on. */
  lemma {:induction false} ChaseForExtends(es: seq<Edge>, gone: set<int>, b: int, t: int, w: World, n: nat)
    requires ChaseFor(es, gone, t, w, n).Some?
    ensures Chase(es, gone + {b}, t, w) == Chase(es, gone + {b}, ChaseFor(es, gone, t, w, n).value, w)
    decreases n
  {
    if t in gone {
      ChaseUnfolds(es, gone + {b}, t, w);
      ChaseForExtends(es, gone, b, First(Out(es, t), w, {}).value, w, n - 1);
    }
  }

  lemma {:induction false} ChaseForShrinks(es: seq<Edge>, big: set<int>, gone: set<int>, t: int, w: World, n: nat)
    requires gone <= big && ChaseFor(es, big, t, w, n).Some?
    ensures ChaseFor(es, gone, t, w, n).Some?
    decreases n
  {
    if t in gone {
      ChaseForShrinks(es, big, gone, First(Out(es, t), w, {}).value, w, n - 1);
    }
  }

  lemma ChaseExtends(es: seq<Edge>, gone: set<int>, b: int, t: int, w: World)
    requires b !in gone
    ensures Chase(es, gone + {b}, t, w)
         == if Chase(es, gone, t, w) == Some(b) then Chase(es, gone + {b}, b, w) else Chase(es, gone, t, w)
  {
    if Chase(es, gone, t, w).Some? {
      var n := ChaseTakes(es, gone, t, w);
      ChaseForExtends(es, gone, b, t, w, n);
      ChaseForOutside(es, gone, t, w, n);
      ChaseUnfolds(es, gone + {b}, ChaseFor(es, gone, t, w, n).value, w);
    } else if Chase(es, gone + {b}, t, w).Some? {
      var n := ChaseTakes(es, gone + {b}, t, w);
      ChaseForShrinks(es, gone + {b}, gone, t, w, n);
      assert false;
    }
  }

  lemma {:induction false} ChaseForThrough(es: seq<Edge>, gone: set<int>, b: int, t: int, w: World, k: nat, n: nat) returns (m: nat)
    requires ChaseFor(es, gone, t, w, k) == Some(b) && ChaseFor(es, gone + {b}, t, w, n).Some?
    ensures m <= n && ChaseFor(es, gone + {b}, b, w, m).Some?
    decreases k
  {
    if t in gone {
      m := ChaseForThrough(es, gone, b, First(Out(es, t), w, {}).value, w, k - 1, n - 1);
    } else {
      m := n;
    }
  }

  /** A circle is never left. */
  lemma {:induction false} CircleIsNotLeft(es: seq<Edge>, gone: set<int>, b: int, w: World, n: nat)
    requires End(es, gone, b, w) == Some(b)
    ensures ChaseFor(es, gone + {b}, b, w, n).None?
    decreases n
  {
    if ChaseFor(es, gone + {b}, b, w, n).Some? {
      var r := First(Out(es, b), w, {}).value;
      var k := ChaseTakes(es, gone, r, w);
      var m := ChaseForThrough(es, gone, b, r, w, k, n - 1);
      CircleIsNotLeft(es, gone, b, w, m);
    }
  }

  lemma {:induction false} FirstSkipMore(es: seq<Edge>, w: World, skip: set<int>, b: int)
    requires !Hit(es, w, b)
    ensures First(es, w, skip + {b}) == First(es, w, skip)
  {
    if es != [] {
      var e, rest := es[|es| - 1], es[..|es| - 1];
      assert es == rest + [e] && e in [e];
      HitAppend(rest, [e], w, b);
      FirstSkipMore(rest, w, skip, b);
    }
  }

  /** Bypassing one more state leads every chain one state further. */
  lemma PassStep(es0: seq<Edge>, es: seq<Edge>, bottlenecks: set<int>, gone: set<int>, b: int)
    requires PassInvariant(es0, es, bottlenecks, gone) && b in bottlenecks && b !in gone
    ensures PassInvariant(es0, Bypass(es, b), bottlenecks, gone + {b})
  {
    BypassGuarded(es, b, bottlenecks, gone);
    forall p: int, w: World
      ensures EndsAlike(es0, Bypass(es, b), gone + {b}, p, w)
    {
      assert EndsAlike(es0, es, gone, p, w);
      BypassFirst(es, b, p, w, gone + {b});
      var r := First(Out(es0, p), w, {});
      if r.Some? {
        ChaseExtends(es0, gone, b, r.value, w);
      }
      if Hit(Out(es, p), w, b) {
        OnlyInto(es, bottlenecks, gone, b, p, w);
        PassThrough(es0, es, bottlenecks, gone, b, w);
      } else {
        FirstSkipMore(Out(es, p), w, gone, b);
        FirstIsHit(Out(es, p), w, gone);
      }
    }
  }

  /** A state that can be left into b is left into b, as far as states not yet bypassed go. */
  lemma OnlyInto(es: seq<Edge>, bottlenecks: set<int>, gone: set<int>, b: int, p: int, w: World)
    requires Guarded(es, bottlenecks, gone) && b in bottlenecks && b !in gone && Hit(Out(es, p), w, b)
    ensures First(Out(es, p), w, gone) == Some(b) && First(Out(es, p), w, gone + {b}).None?
  {
    FirstIsHit(Out(es, p), w, gone);
    FirstIsHit(Out(es, p), w, gone + {b});
  }

  lemma PassThrough(es0: seq<Edge>, es: seq<Edge>, bottlenecks: set<int>, gone: set<int>, b: int, w: World)
    requires PassInvariant(es0, es, bottlenecks, gone) && b in bottlenecks && b !in gone
    ensures First(Out(es, b), w, gone + {b}) == Chase(es0, gone + {b}, b, w)
  {
    assert EndsAlike(es0, es, gone, b, w);
    ChaseUnfolds(es0, gone + {b}, b, w);
    if Hit(Out(es, b), w, b) {
      OnlyInto(es, bottlenecks, gone, b, b, w);
      if Chase(es0, gone + {b}, b, w).Some? {
        var n := ChaseTakes(es0, gone + {b}, b, w);
        CircleIsNotLeft(es0, gone, b, w, n);
      }
    } else {
      FirstSkipMore(Out(es, b), w, gone, b);
      FirstIsHit(Out(es, b), w, gone);
      var r := First(Out(es0, b), w, {});
      if r.Some? {
        ChaseExtends(es0, gone, b, r.value, w);
      }
    }
  }

  // ----- the removal at the end of a pass

  lemma {:induction false} WithoutMembers(es: seq<Edge>, gone: set<int>)
    ensures forall e :: e in Without(es, gone) <==> e in es && e.src !in gone && e.dst !in gone
  {
    if es != [] {
      WithoutMembers(es[..|es| - 1], gone);
      assert es == es[..|es| - 1] + [es[|es| - 1]];
    }
  }

  lemma {:induction false} WithoutFirst(es: seq<Edge>, gone: set<int>, p: int, w: World)
    requires p !in gone
    ensures First(Out(Without(es, gone), p), w, {}) == First(Out(es, p), w, gone)
  {
    if es != [] {
      var e, rest := es[|es| - 1], es[..|es| - 1];
      WithoutFirst(rest, gone, p, w);
      FirstSnoc(Out(Without(rest, gone), p), e, w, {});
      FirstSnoc(Out(rest, p), e, w, gone);
    }
  }

  lemma {:induction false} WithoutSame(es: seq<Edge>, gone: set<int>, p: int)
    requires forall e | e in es && (e.src == p || e.dst == p) :: e.src !in gone && e.dst !in gone
    ensures Out(Without(es, gone), p) == Out(es, p) && In(Without(es, gone), p) == In(es, p)
  {
    if es != [] {
      var rest, e := es[..|es| - 1], es[|es| - 1];
      assert es == rest + [e];
      WithoutSame(rest, gone, p);
    }
  }

  lemma WithoutKeepsGuards(es: seq<Edge>, bottlenecks: set<int>, gone: set<int>)
    requires Guarded(es, bottlenecks, gone)
    ensures Guarded(Without(es, gone), bottlenecks - gone, {})
  {
    WithoutMembers(es, gone);
    forall p: int, w: World, x: int
      | Hit(Out(Without(es, gone), p), w, x)
      ensures Hit(Out(es, p), w, x) && x !in gone
    {
      OutMembers(es, p);
      OutMembers(Without(es, gone), p);
      var e :| e in Out(Without(es, gone), p) && e.dst == x && Holds(e.cond, w);
      assert e in Out(es, p);
    }
  }

  // ----- meaning of a whole pass

  /** g after a pass that bypassed the states gone and then removed them. */
  ghost predicate PassResult(g: Graph, g': Graph, gone: set<int>) {
    && (forall b | b in gone :: g.InCluster(b) && g.Acts(b) == [])
    && (forall p | p !in gone :: g'.Acts(p) == g.Acts(p) && (g'.InCluster(p) <==> g.InCluster(p)))
    && (forall p: int, w: World | p !in gone :: NextAlike(g.edges, g'.edges, gone, p, w))
  }

  ghost predicate NextAlike(es: seq<Edge>, es': seq<Edge>, gone: set<int>, p: int, w: World) {
    First(Out(es', p), w, {}) == End(es, gone, p, w)
  }

  /** A state with no way out keeps the machine inside its cluster for ever. */
  lemma {:induction false} StuckForever(g: Graph, b: int, w: World, f: nat)
    requires g.InCluster(b) && g.Acts(b) == [] && First(Out(g.edges, b), w, {}).None?
    ensures Macro(g, b, w, f).None?
    decreases f
  {
    if f > 0 {
      StuckForever(g, b, w, f - 1);
    }
  }

  /** A terminating step that has entered a chain of removed states leaves it where Chase says. */
  lemma {:induction false} ChainIsLeft(g: Graph, gone: set<int>, t: int, w: World, f: nat) returns (f': nat)
    requires forall b | b in gone :: g.InCluster(b) && g.Acts(b) == []
    requires t in gone && Macro(g, t, w, f).Some?
    ensures Chase(g.edges, gone, t, w).Some?
    ensures var q := Chase(g.edges, gone, t, w).value;
            && q !in gone
            && if g.InCluster(q) then f' < f && Macro(g, q, w, f') == Macro(g, t, w, f)
               else Macro(g, t, w, f) == Some((q, w))
    decreases f
  {
    var r := First(Out(g.edges, t), w, {});
    if r.None? {
      StuckForever(g, t, w, f);
      assert false;
    } else {
      ChaseUnfolds(g.edges, gone, t, w);
      ChaseUnfolds(g.edges, gone, r.value, w);
      if r.value in gone {
        f' := ChainIsLeft(g, gone, r.value, w, f - 1);
      } else {
        f' := if f == 0 then 0 else f - 1;
      }
    }
  }

  /** A pass leaves every terminating step of every remaining state unchanged. */
  lemma {:induction false} PassPreservesSteps(g: Graph, g': Graph, gone: set<int>, p: int, w: World, f: nat)
    requires PassResult(g, g', gone)
    requires p !in gone && Macro(g, p, w, f).Some?
    ensures Macro(g', p, w, f) == Macro(g, p, w, f)
    decreases f
  {
    var w' := ExecAll(g.Acts(p), w);
    assert NextAlike(g.edges, g'.edges, gone, p, w');
    var r := First(Out(g.edges, p), w', {});
    if r.Some? && r.value in gone {
      var f' := ChainIsLeft(g, gone, r.value, w', f - 1);
      var q := Chase(g.edges, gone, r.value, w').value;
      if g.InCluster(q) {
        PassPreservesSteps(g, g', gone, q, w', f');
        MacroFuel(g', q, w', f', f - 1);
      }
    } else {
      var q := if r.Some? then r.value else p;
      ChaseUnfolds(g.edges, gone, q, w');
      if g.InCluster(q) {
        PassPreservesSteps(g, g', gone, q, w', f - 1);
      }
    }
  }

  // ----- steps that do not end

  /** Whoever enters gone from outside gets out again. */
  ghost predicate Escapes(es: seq<Edge>, gone: set<int>) {
    forall p: int, w: World | p !in gone :: EscapesFrom(es, gone, p, w)
  }

  ghost predicate EscapesFrom(es: seq<Edge>, gone: set<int>, p: int, w: World) {
    First(Out(es, p), w, {}).Some? ==> End(es, gone, p, w).Some?
  }

  /** Through a chain that is left the machine comes to where it is left. */
  lemma {:induction false} ThroughChain(g: Graph, gone: set<int>, t: int, w: World, n: nat, f: nat) returns (f': nat)
    requires forall b | b in gone :: g.InCluster(b) && g.Acts(b) == []
    requires t in gone && ChaseFor(g.edges, gone, t, w, n).Some?
    requires var q := ChaseFor(g.edges, gone, t, w, n).value; g.InCluster(q) ==> Macro(g, q, w, f).Some?
    ensures var q := ChaseFor(g.edges, gone, t, w, n).value;
      Macro(g, t, w, f') == if g.InCluster(q) then Macro(g, q, w, f) else Some((q, w))
    decreases n
  {
    var r := First(Out(g.edges, t), w, {}).value;
    if r in gone {
      f' := ThroughChain(g, gone, r, w, n - 1, f);
      f' := f' + 1;
    } else {
      f' := f + 1;
    }
  }

  /** If whoever enters the removed states gets out again, a pass adds no step that ends. */
  lemma {:induction false} PassAddsNoSteps(g: Graph, g': Graph, gone: set<int>, p: int, w: World, f: nat) returns (f': nat)
    requires PassResult(g, g', gone) && Escapes(g.edges, gone)
    requires p !in gone && Macro(g', p, w, f).Some?
    ensures Macro(g, p, w, f') == Macro(g', p, w, f)
    decreases f
  {
    var w' := ExecAll(g.Acts(p), w);
    assert NextAlike(g.edges, g'.edges, gone, p, w') && EscapesFrom(g.edges, gone, p, w');
    var r := First(Out(g.edges, p), w', {});
    var q := if r.Some? then Chase(g.edges, gone, r.value, w').value else p;
    if r.Some? {
      var n := ChaseTakes(g.edges, gone, r.value, w');
      ChaseForOutside(g.edges, gone, r.value, w', n);
    }
    f' := 0;
    if g.InCluster(q) {
      f' := PassAddsNoSteps(g, g', gone, q, w', f - 1);
    }
    if r.Some? && r.value in gone {
      var n := ChaseTakes(g.edges, gone, r.value, w');
      f' := ThroughChain(g, gone, r.value, w', n, f');
    } else if r.Some? {
      ChaseUnfolds(g.edges, gone, r.value, w');
    }
    f' := f' + 1;
  }

  /** Main result: then a pass leaves every step of every remaining state unchanged, those that never
      end included. */
  lemma PassKeepsSteps(g: Graph, g': Graph, gone: set<int>, p: int, w: World)
    requires PassResult(g, g', gone) && Escapes(g.edges, gone) && p !in gone
    ensures Step(g', p, w) == Step(g, p, w)
  {
    if EndsAt(g, p, w) {
      var f: nat :| Macro(g, p, w, f).Some?;
      PassPreservesSteps(g, g', gone, p, w, f);
      StepIs(g, p, w, f);
      StepIs(g', p, w, f);
    } else if EndsAt(g', p, w) {
      var f: nat :| Macro(g', p, w, f).Some?;
      var f' := PassAddsNoSteps(g, g', gone, p, w, f);
      assert false;
    }
  }

  /** Otherwise a step of a state outside the clusters that does not get out again never ended before
      the pass, and ends where it starts after it. */
  lemma StuckStepEnds(g: Graph, g': Graph, gone: set<int>, p: int, w: World)
    requires PassResult(g, g', gone) && p !in gone && !g.InCluster(p)
    requires !EscapesFrom(g.edges, gone, p, ExecAll(g.Acts(p), w))
    ensures Step(g, p, w).None? && Step(g', p, w) == Some((p, ExecAll(g.Acts(p), w)))
  {
    var w' := ExecAll(g.Acts(p), w);
    var t := First(Out(g.edges, p), w', {}).value;
    assert NextAlike(g.edges, g'.edges, gone, p, w');
    StepIs(g', p, w, 0);
    ChaseUnfolds(g.edges, gone, t, w');
    if EndsAt(g, p, w) {
      var f: nat :| Macro(g, p, w, f).Some?;
      var f' := ChainIsLeft(g, gone, t, w', f - 1);
      assert false;
    }
  }

  ghost predicate SameSteps(g: Graph, g': Graph, gone: set<int>) {
    forall p: int, w: World | p !in gone :: Step(g', p, w) == Step(g, p, w)
  }

  /** The condition is exact: it holds of the transitions precisely if no pass that removes gone can be
      told apart, whatever callbacks the remaining states have and whatever clusters they are in. */
  lemma EscapesIsExact(es: seq<Edge>, es': seq<Edge>, gone: set<int>)
    requires forall p: int, w: World | p !in gone :: NextAlike(es, es', gone, p, w)
    ensures Escapes(es, gone) <==>
      forall g: Graph, g': Graph | g.edges == es && g'.edges == es' && PassResult(g, g', gone) :: SameSteps(g, g', gone)
  {
    if Escapes(es, gone) {
      forall g: Graph, g': Graph | g.edges == es && g'.edges == es' && PassResult(g, g', gone)
        ensures SameSteps(g, g', gone)
      {
        forall p: int, w: World | p !in gone
          ensures Step(g', p, w) == Step(g, p, w)
        {
          PassKeepsSteps(g, g', gone, p, w);
        }
      }
    } else {
      var p, w :| p !in gone && !EscapesFrom(es, gone, p, w);
      var clusters := map["" := gone];
      var g, g' := Graph({}, es, map[], clusters), Graph({}, es', map[], clusters);
      assert forall b | b in gone :: "" in g.clusters && b in g.clusters[""];
      assert ExecAll(g.Acts(p), w) == w;
      StuckStepEnds(g, g', gone, p, w);
      assert !SameSteps(g, g', gone);
    }
  }

  /** No circle consists of these states only. */
  ghost predicate Ranked(es: seq<Edge>, states: set<int>, rank: map<int, nat>) {
    && states <= rank.Keys
    && forall e | e in es && e.src in states && e.dst in states :: rank[e.dst] < rank[e.src]
  }

  /** Every one of these states can always be left. */
  ghost predicate Open(es: seq<Edge>, states: set<int>) {
    forall t: int, w: World | t in states :: First(Out(es, t), w, {}).Some?
  }

  /** Every chain of these states is left, wherever it starts. */
  ghost predicate Left(es: seq<Edge>, states: set<int>) {
    forall t: int, w: World :: IsLeft(es, states, t, w)
  }

  lemma {:induction false} RankedIsLeft(es: seq<Edge>, states: set<int>, rank: map<int, nat>, t: int, w: World)
    requires Ranked(es, states, rank) && Open(es, states)
    ensures IsLeft(es, states, t, w)
    decreases if t in states then rank[t] + 1 else 0
  {
    if t in states {
      FirstIsHit(Out(es, t), w, {});
      OutMembers(es, t);
      var r := First(Out(es, t), w, {}).value;
      RankedIsLeft(es, states, rank, r, w);
      var n: nat :| ChaseFor(es, states, r, w, n).Some?;
      assert ChaseFor(es, states, t, w, n + 1).Some?;
    } else {
      assert ChaseFor(es, states, t, w, 0).Some?;
    }
  }

  /** Idle states that can always be left, and not in a circle, are left. */
  lemma OpenIsLeft(es: seq<Edge>, states: set<int>, rank: map<int, nat>)
    requires Ranked(es, states, rank) && Open(es, states)
    ensures Left(es, states)
  {
    forall t: int, w: World
      ensures IsLeft(es, states, t, w)
    {
      RankedIsLeft(es, states, rank, t, w);
    }
  }

  lemma LeftEscapes(es: seq<Edge>, states: set<int>, gone: set<int>)
    requires Left(es, states) && gone <= states
    ensures Escapes(es, gone)
  {
    forall p: int, w: World | p !in gone && First(Out(es, p), w, {}).Some?
      ensures End(es, gone, p, w).Some?
    {
      var t := First(Out(es, p), w, {}).value;
      assert IsLeft(es, states, t, w);
      var n: nat :| ChaseFor(es, states, t, w, n).Some?;
      ChaseForShrinks(es, states, gone, t, w, n);
      ChaseIs(es, gone, t, w, n);
    }
  }

  /** What is left of a chain once the machine has left some of its states. */
  lemma {:induction false} ChaseForRest(es: seq<Edge>, states: set<int>, gone: set<int>, t: int, w: World, k: nat, n: nat)
      returns (m: nat)
    requires gone <= states && ChaseFor(es, gone, t, w, k).Some? && ChaseFor(es, states, t, w, n).Some?
    ensures m <= n && ChaseFor(es, states, ChaseFor(es, gone, t, w, k).value, w, m).Some?
    decreases k
  {
    if t in gone {
      m := ChaseForRest(es, states, gone, First(Out(es, t), w, {}).value, w, k - 1, n - 1);
    } else {
      m := n;
    }
  }

  lemma {:induction false} LeftAfterwards(es: seq<Edge>, es': seq<Edge>, states: set<int>, gone: set<int>, t: int, w: World, n: nat)
    requires gone <= states && t !in gone && ChaseFor(es, states, t, w, n).Some?
    requires forall p: int, v: World | p !in gone :: NextAlike(es, es', gone, p, v)
    ensures IsLeft(es', states - gone, t, w)
    decreases n
  {
    if t in states {
      var r := First(Out(es, t), w, {}).value;
      assert NextAlike(es, es', gone, t, w);
      ChaseForShrinks(es, states, gone, r, w, n - 1);
      ChaseIs(es, gone, r, w, n - 1);
      ChaseForOutside(es, gone, r, w, n - 1);
      var q := Chase(es, gone, r, w).value;
      var m := ChaseForRest(es, states, gone, r, w, n - 1, n - 1);
      LeftAfterwards(es, es', states, gone, q, w, m);
      var j: nat :| ChaseFor(es', states - gone, q, w, j).Some?;
      assert ChaseFor(es', states - gone, t, w, j + 1).Some?;
    } else {
      assert ChaseFor(es', states - gone, t, w, 0).Some?;
    }
  }
}
