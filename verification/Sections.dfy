/** Placing cars on straight road sections, and checking where they were placed. */
module Sections {

  /** The shape of the road: width of a lane, number of technical and of actual lanes. */
  datatype Frame = Frame(laneWidth: real, numTech: real, numActual: real)

  /** Where a section starts, and the cosine and sine of its angle. */
  datatype Section = Section(x: real, y: real, ca: real, sa: real)

  datatype Dot = Dot(section: int, x: real, y: real)

  const TOLERANCE := 0.001

  predicate FrameOk(f: Frame) {
    f.laneWidth > 0.0 && f.numTech >= 1.0 && f.numActual > 0.0
  }

  predicate IsAngle(s: Section) {
    s.ca * s.ca + s.sa * s.sa == 1.0
  }

  function YMaxTech(f: Frame): real
    requires FrameOk(f)
  {
    f.laneWidth * (f.numActual * (1.0 - 1.0 / (2.0 * f.numTech)) - 0.5)
  }

  function LatCenter(f: Frame): real {
    f.laneWidth * (f.numActual - 1.0) / 2.0
  }

  /** The lateral position of a normalized lane; the step is fixed, whatever the lane width. */
  function LatPosForLane(f: Frame, lane: real): real
    requires FrameOk(f)
  {
    YMaxTech(f) - lane * 2.0 * f.numActual / f.numTech
  }

  function ToGlobal(f: Frame, longPos: real, latPos: real, s: Section): (real, real) {
    var rx := longPos * s.ca - latPos * s.sa;
    var ry := longPos * s.sa + latPos * s.ca;
    (s.x + rx + LatCenter(f) * s.sa, s.y + ry + LatCenter(f) * (1.0 - s.ca))
  }

  /** The lateral position the check recovers from a point. */
  function LocalLat(f: Frame, x: real, y: real, s: Section): real {
    var px := x - s.x - LatCenter(f) * s.sa;
    var py := y - s.y - LatCenter(f) * (1.0 - s.ca);
    -px * s.sa + py * s.ca
  }

  function LowEdge(f: Frame): real {
    LatCenter(f) - f.numActual * f.laneWidth / 2.0
  }

  function HighEdge(f: Frame): real {
    LatCenter(f) + f.numActual * f.laneWidth / 2.0
  }

  predicate OnRoad(f: Frame, lat: real) {
    LowEdge(f) - TOLERANCE <= lat <= HighEdge(f) + TOLERANCE
  }

  /** The band is as wide as the lanes together and starts half a lane beside the middle of the first. */
  lemma BandIs(f: Frame)
    ensures LowEdge(f) == -(f.laneWidth / 2.0)
    ensures HighEdge(f) - LowEdge(f) == f.numActual * f.laneWidth
  {
    assert f.laneWidth * (f.numActual - 1.0) == f.numActual * f.laneWidth - f.laneWidth;
  }

  lemma Rotates(a: real, b: real, c: real, d: real)
    requires c * c + d * d == 1.0
    ensures -(a * c - b * d) * d + (a * d + b * c) * c == b
  {
    var ac, bd, ad, bc := a * c, b * d, a * d, b * c;
    calc {
      -(ac - bd) * d + (ad + bc) * c;
      bd * d - ac * d + ad * c + bc * c;
      { assert ac * d == a * c * d && ad * c == a * c * d; }
      bd * d + bc * c;
      { assert bd * d == b * (d * d) && bc * c == b * (c * c); }
      b * (d * d) + b * (c * c);
      b * (c * c + d * d);
      b;
    }
  }

  /** The check recovers exactly the lateral position that was placed, at every angle. */
  lemma LateralRoundTrip(f: Frame, longPos: real, latPos: real, s: Section)
    requires IsAngle(s)
    ensures var p := ToGlobal(f, longPos, latPos, s); LocalLat(f, p.0, p.1, s) == latPos
  {
    var p := ToGlobal(f, longPos, latPos, s);
    var px := p.0 - s.x - LatCenter(f) * s.sa;
    var py := p.1 - s.y - LatCenter(f) * (1.0 - s.ca);
    assert px == longPos * s.ca - latPos * s.sa;
    assert py == longPos * s.sa + latPos * s.ca;
    Rotates(longPos, latPos, s.ca, s.sa);
  }

  lemma RotatesAlong(a: real, b: real, c: real, d: real)
    requires c * c + d * d == 1.0
    ensures (a * c - b * d) * c + (a * d + b * c) * d == a
  {
    var ac, bd, ad, bc := a * c, b * d, a * d, b * c;
    calc {
      (ac - bd) * c + (ad + bc) * d;
      ac * c - bd * c + ad * d + bc * d;
      { assert bd * c == b * c * d && bc * d == b * c * d; }
      ac * c + ad * d;
      { assert ac * c == a * (c * c) && ad * d == a * (d * d); }
      a * (c * c) + a * (d * d);
      a * (c * c + d * d);
      a;
    }
  }

  /** How far along its section a point lies, turned back the same way. */
  function LocalLong(f: Frame, x: real, y: real, s: Section): real {
    var px := x - s.x - LatCenter(f) * s.sa;
    var py := y - s.y - LatCenter(f) * (1.0 - s.ca);
    px * s.ca + py * s.sa
  }

  /** A point keeps its place along the section as well, so no two places share a point. */
  lemma LongRoundTrip(f: Frame, longPos: real, latPos: real, s: Section)
    requires IsAngle(s)
    ensures var p := ToGlobal(f, longPos, latPos, s); LocalLong(f, p.0, p.1, s) == longPos
  {
    var p := ToGlobal(f, longPos, latPos, s);
    var px := p.0 - s.x - LatCenter(f) * s.sa;
    var py := p.1 - s.y - LatCenter(f) * (1.0 - s.ca);
    assert px == longPos * s.ca - latPos * s.sa;
    assert py == longPos * s.sa + latPos * s.ca;
    RotatesAlong(longPos, latPos, s.ca, s.sa);
  }

  /** At angle zero a place is the source of the section, moved by the two positions. */
  lemma StraightAhead(f: Frame, longPos: real, latPos: real, s: Section)
    requires s.ca == 1.0 && s.sa == 0.0
    ensures ToGlobal(f, longPos, latPos, s) == (s.x + longPos, s.y + latPos)
  {
    var lc := LatCenter(f);
    hide LatCenter;
    assert longPos * s.ca == longPos && latPos * s.ca == latPos;
    assert longPos * s.sa == 0.0 && latPos * s.sa == 0.0 && lc * s.sa == 0.0;
    assert lc * (1.0 - s.ca) == 0.0;
  }

  /** The lateral range that cars are clamped to. */
  function ClampLow(laneWidth: real, f: Frame): real
    requires FrameOk(f)
  {
    -laneWidth / 2.0 + laneWidth * f.numActual / (2.0 * f.numTech)
  }

  function ClampHigh(laneWidth: real, f: Frame): real
    requires FrameOk(f)
  {
    -laneWidth / 2.0 + (2.0 * f.numTech - 1.0) * laneWidth * f.numActual / (2.0 * f.numTech)
  }

  function LastLane(f: Frame): real {
    2.0 * f.numTech - 2.0
  }

  lemma Quotient(x: real, d: real, q: real)
    requires d > 0.0 && q * d == x
    ensures x / d == q
  {}

  lemma Positive(u: real, t: real, a: real)
    requires t >= 1.0 && a > 0.0 && u * t == a
    ensures 0.0 < u <= a
  {
    assert u <= 0.0 ==> u * t <= 0.0;
    assert u * (t - 1.0) >= 0.0;
  }

  /** Everything in terms of u, the share of the actual lanes that one technical lane has. */
  lemma InShares(f: Frame)
    requires FrameOk(f)
    ensures var u := f.numActual / f.numTech;
      && u > 0.0 && u * f.numTech == f.numActual && u <= f.numActual
      && YMaxTech(f) == f.laneWidth * (f.numActual - u / 2.0 - 0.5)
      && ClampHigh(f.laneWidth, f) == YMaxTech(f)
      && ClampLow(f.laneWidth, f) == f.laneWidth * (u / 2.0 - 0.5)
      && (forall lane: real :: LatPosForLane(f, lane) == YMaxTech(f) - 2.0 * (lane * u))
  {
    var w, t, a := f.laneWidth, f.numTech, f.numActual;
    var u := a / t;
    assert u * t == a;
    Positive(u, t, a);
    HalfShare(u, t, a);
    assert YMaxTech(f) == w * (a - u / 2.0 - 0.5);
    LowShare(w, u, t, a);
    HighShare(w, u, t, a);
    forall lane: real
      ensures LatPosForLane(f, lane) == YMaxTech(f) - 2.0 * (lane * u)
    {
      LaneShare(lane, u, t, a);
    }
  }

  lemma HalfShare(u: real, t: real, a: real)
    requires t >= 1.0 && u * t == a
    ensures a * (1.0 - 1.0 / (2.0 * t)) == a - u / 2.0
  {
    var r := 1.0 / (2.0 * t);
    assert t * r == 0.5;
    assert a * r == u * (t * r);
    assert a * (1.0 - r) == a - a * r;
  }

  lemma LowShare(w: real, u: real, t: real, a: real)
    requires t >= 1.0 && u * t == a
    ensures -w / 2.0 + w * a / (2.0 * t) == w * (u / 2.0 - 0.5)
  {
    assert w * (u / 2.0) * (2.0 * t) == w * (u * t);
    Quotient(w * a, 2.0 * t, w * (u / 2.0));
    assert w * (u / 2.0 - 0.5) == w * (u / 2.0) - w * 0.5;
  }

  lemma HighShare(w: real, u: real, t: real, a: real)
    requires t >= 1.0 && u * t == a
    ensures -w / 2.0 + (2.0 * t - 1.0) * w * a / (2.0 * t) == w * (a - u / 2.0 - 0.5)
  {
    var q := w * (a - u / 2.0);
    calc {
      q * (2.0 * t);
      w * ((a - u / 2.0) * (2.0 * t));
      { assert (a - u / 2.0) * (2.0 * t) == 2.0 * (t * a) - u * t; }
      w * (2.0 * (t * a) - a);
      { assert 2.0 * (t * a) - a == (2.0 * t - 1.0) * a; }
      w * ((2.0 * t - 1.0) * a);
      (2.0 * t - 1.0) * w * a;
    }
    Quotient((2.0 * t - 1.0) * w * a, 2.0 * t, q);
    assert w * (a - u / 2.0 - 0.5) == q - w * 0.5;
  }

  lemma LaneShare(lane: real, u: real, t: real, a: real)
    requires t >= 1.0 && u * t == a
    ensures lane * 2.0 * a / t == 2.0 * (lane * u)
  {
    assert 2.0 * (lane * u) * t == lane * 2.0 * (u * t);
    Quotient(lane * 2.0 * a, t, 2.0 * (lane * u));
  }

  /** With lanes of width 4 the normalized lanes divide the clamp range into 2 * numTech - 2 equal
      steps, from its upper to its lower end. */
  lemma LanesFillClampRange(f: Frame, lane: real)
    requires FrameOk(f) && f.laneWidth == 4.0
    ensures LatPosForLane(f, 0.0) == ClampHigh(4.0, f)
    ensures LatPosForLane(f, LastLane(f)) == ClampLow(4.0, f)
    ensures LatPosForLane(f, lane) - LatPosForLane(f, lane + 1.0) == 2.0 * (f.numActual / f.numTech)
  {
    var u := f.numActual / f.numTech;
    InShares(f);
    assert LastLane(f) * u == 2.0 * f.numActual - 2.0 * u;
    assert (lane + 1.0) * u == lane * u + u;
    assert 0.0 * u == 0.0;
  }

  lemma NotNegative(a: real, b: real)
    requires a >= 0.0 && b >= 0.0
    ensures a * b >= 0.0
  {}

  /** How far the last lane stays away from the lower edge of the road band. */
  function Margin(f: Frame): real
    requires FrameOk(f)
  {
    f.numActual / f.numTech * Spare(f) / 2.0
  }

  function Spare(f: Frame): real {
    f.laneWidth * (2.0 * f.numTech - 1.0) - 8.0 * (f.numTech - 1.0)
  }

  lemma LaneBounds(f: Frame, lane: real)
    requires FrameOk(f) && 0.0 <= lane <= LastLane(f)
    ensures LowEdge(f) + Margin(f) == LatPosForLane(f, LastLane(f)) <= LatPosForLane(f, lane) <= HighEdge(f)
  {
    var w, t, a, u := f.laneWidth, f.numTech, f.numActual, f.numActual / f.numTech;
    InShares(f);
    assert 0.0 <= lane * u <= LastLane(f) * u by {
      assert (LastLane(f) - lane) * u >= 0.0;
      assert (LastLane(f) - lane) * u == LastLane(f) * u - lane * u;
    }
    BandIs(f);
    assert HighEdge(f) == w * a - w / 2.0;
    assert YMaxTech(f) == w * a - w * u / 2.0 - w / 2.0;
    assert w * u > 0.0;
    assert Margin(f) == w * a - w * u / 2.0 - 2.0 * (LastLane(f) * u) by {
      assert u * (w * (2.0 * t - 1.0)) == w * (2.0 * (u * t)) - w * u;
      assert u * (8.0 * (t - 1.0)) == 4.0 * (LastLane(f) * u);
      assert u * Spare(f) == u * (w * (2.0 * t - 1.0)) - u * (8.0 * (t - 1.0));
    }
  }

  /** The normalized lanes all lie in the road band exactly for lane widths from a bound on that
      depends on the number of technical lanes, and is below 4. */
  lemma LanesOnRoad(f: Frame)
    requires FrameOk(f)
    ensures (forall lane | 0.0 <= lane <= LastLane(f) :: LowEdge(f) <= LatPosForLane(f, lane) <= HighEdge(f))
       <==> f.laneWidth * (2.0 * f.numTech - 1.0) >= 8.0 * (f.numTech - 1.0)
    ensures f.laneWidth >= 4.0 ==> f.laneWidth * (2.0 * f.numTech - 1.0) >= 8.0 * (f.numTech - 1.0)
  {
    var u := f.numActual / f.numTech;
    InShares(f);
    assert Margin(f) >= 0.0 <==> Spare(f) >= 0.0 by {
      assert Spare(f) >= 0.0 ==> u * Spare(f) >= 0.0;
      assert Spare(f) < 0.0 ==> u * (-Spare(f)) > 0.0;
    }
    forall lane | 0.0 <= lane <= LastLane(f)
      ensures LowEdge(f) + Margin(f) == LatPosForLane(f, LastLane(f)) <= LatPosForLane(f, lane) <= HighEdge(f)
    {
      LaneBounds(f, lane);
    }
    assert 0.0 <= LastLane(f) && LowEdge(f) + Margin(f) == LatPosForLane(f, LastLane(f)) by {
      LaneBounds(f, LastLane(f));
    }
    if f.laneWidth >= 4.0 {
      NotNegative(f.laneWidth - 4.0, 2.0 * f.numTech - 1.0);
      assert (f.laneWidth - 4.0) * (2.0 * f.numTech - 1.0)
          == f.laneWidth * (2.0 * f.numTech - 1.0) - 8.0 * f.numTech + 4.0;
    }
  }

  /** The fixed step fits lanes of width 4 only: for any other width the last lane misses the end of
      the clamp range, unless there is just one technical lane. */
  lemma LaneWidthMatters(f: Frame)
    requires FrameOk(f)
    ensures LatPosForLane(f, LastLane(f)) == ClampLow(f.laneWidth, f) <==> f.laneWidth == 4.0 || f.numTech == 1.0
  {
    var w, u := f.laneWidth, f.numActual / f.numTech;
    InShares(f);
    var rest := f.numActual - u;
    assert LastLane(f) * u == 2.0 * rest;
    assert YMaxTech(f) - ClampLow(w, f) == w * rest by {
      assert w * (f.numActual - u / 2.0 - 0.5) - w * (u / 2.0 - 0.5) == w * (f.numActual - u);
    }
    assert LatPosForLane(f, LastLane(f)) - ClampLow(w, f) == w * rest - 4.0 * rest;
    assert w * rest - 4.0 * rest == (w - 4.0) * rest;
    assert rest == u * (f.numTech - 1.0);
    if f.numTech > 1.0 {
      assert rest > 0.0;
      if w > 4.0 {
        assert (w - 4.0) * rest > 0.0;
      } else if w < 4.0 {
        assert (4.0 - w) * rest > 0.0;
        assert (w - 4.0) * rest == -((4.0 - w) * rest);
      }
    }
  }

  // ----- the check

  predicate Known(sections: map<int, Section>, d: Dot) {
    d.section >= 0 && d.section in sections
  }

  predicate OffRoad(f: Frame, sections: map<int, Section>, d: Dot) {
    Known(sections, d) && !OnRoad(f, LocalLat(f, d.x, d.y, sections[d.section]))
  }

  function CountOff(f: Frame, sections: map<int, Section>, dots: seq<Dot>): nat {
    if dots == [] then 0
    else CountOff(f, sections, dots[..|dots| - 1]) + if OffRoad(f, sections, dots[|dots| - 1]) then 1 else 0
  }

  /** Counts the dots that lie outside their road band; dots on no known section do not matter. */
  method CheckOnRoad(f: Frame, sections: map<int, Section>, dots: seq<Dot>) returns (bad: nat)
    ensures bad == CountOff(f, sections, dots)
    ensures bad == 0 <==> forall d | d in dots :: !OffRoad(f, sections, d)
  {
    var halfW := f.numActual * f.laneWidth / 2.0;
    var lc := LatCenter(f);
    bad := 0;
    for i := 0 to |dots|
      invariant bad == CountOff(f, sections, dots[..i])
      invariant bad == 0 <==> forall d | d in dots[..i] :: !OffRoad(f, sections, d)
    {
      var d := dots[i];
      assert dots[..i + 1][..i] == dots[..i];
      assert dots[..i + 1] == dots[..i] + [d];
      if d.section < 0 || d.section !in sections {
        continue;
      }
      var sec := sections[d.section];
      var px := d.x - sec.x - lc * sec.sa;
      var py := d.y - sec.y - lc * (1.0 - sec.ca);
      var locLat := -px * sec.sa + py * sec.ca;
      if !(lc - halfW - TOLERANCE <= locLat <= lc + halfW + TOLERANCE) {
        bad := bad + 1;
      }
    }
    assert dots[..|dots|] == dots;
  }

  function PlacedDot(f: Frame, sections: map<int, Section>, section: int, longPos: real, lane: real): Dot
    requires FrameOk(f) && section in sections
  {
    var p := ToGlobal(f, longPos, LatPosForLane(f, lane), sections[section]);
    Dot(section, p.0, p.1)
  }

  /** The dots placed on the normalized lanes of a section all pass the check exactly if the last lane
      leaves the road band by no more than the tolerance. */
  lemma PlacedDotsPass(f: Frame, sections: map<int, Section>, section: int)
    requires FrameOk(f) && section >= 0 && section in sections && IsAngle(sections[section])
    ensures (forall longPos, lane | 0.0 <= lane <= LastLane(f) ::
              !OffRoad(f, sections, PlacedDot(f, sections, section, longPos, lane)))
       <==> Margin(f) >= -TOLERANCE
  {
    hide ToGlobal, LocalLat, LatPosForLane, LowEdge, HighEdge, Margin;
    forall longPos: real, lane: real | 0.0 <= lane <= LastLane(f)
      ensures OffRoad(f, sections, PlacedDot(f, sections, section, longPos, lane))
         <==> !OnRoad(f, LatPosForLane(f, lane))
    {
      LateralRoundTrip(f, longPos, LatPosForLane(f, lane), sections[section]);
    }
    forall lane | 0.0 <= lane <= LastLane(f)
      ensures LowEdge(f) + Margin(f) == LatPosForLane(f, LastLane(f)) <= LatPosForLane(f, lane) <= HighEdge(f)
    {
      LaneBounds(f, lane);
    }
    assert 0.0 <= LastLane(f) <= LastLane(f);
    assert OnRoad(f, LatPosForLane(f, LastLane(f))) <==> Margin(f) >= -TOLERANCE;
    assert OffRoad(f, sections, PlacedDot(f, sections, section, 0.0, LastLane(f)))
      <==> !OnRoad(f, LatPosForLane(f, LastLane(f)));
  }

  // ----- bisection

  function Halved(n: nat): real {
    if n == 0 then 1.0 else Halved(n - 1) / 2.0
  }

  lemma TwentyHalvings()
    ensures Halved(20) == 1.0 / 1048576.0
  {
    assert Halved(5) == 1.0 / 32.0;
    assert Halved(10) == 1.0 / 1024.0;
    assert Halved(15) == 1.0 / 32768.0;
  }

  /** The parameter at which a length is reached, to within a millionth: below the interval found the
      length is too short, above it is not, and the answer is its middle. */
  method FindT(l: real, arcLength: real -> real) returns (t: real, a: real, b: real)
    ensures 0.0 <= a <= t <= b <= 1.0 && b - a <= 0.000001 && t == (a + b) / 2.0
    ensures a == 0.0 || arcLength(a) < l
    ensures b == 1.0 || arcLength(b) >= l
  {
    a, b := 0.0, 1.0;
    ghost var n := 0;
    while b - a > 0.000001
      invariant n <= 20 && b - a == Halved(n)
      invariant 0.0 <= a <= b <= 1.0
      invariant a == 0.0 || arcLength(a) < l
      invariant b == 1.0 || arcLength(b) >= l
      decreases 20 - n
    {
      TwentyHalvings();
      var mid := (a + b) / 2.0;
      if arcLength(mid) < l {
        a := mid;
      } else {
        b := mid;
      }
      n := n + 1;
    }
    t := (a + b) / 2.0;
  }
}
