/** The `Tree` component: the per-element morph (`MorphingItem`), the two
    random layouts (`randomInCone`, `randomInSphere`), the one-time ornament
    list and the star. Every `Math.random()` draw is an explicit input in
    [0, 1), in the order the source draws it. */
module Tree {
  import opened Geometry

  /** The rate constant of the approach, per second. */
  const Rate: real := 3.0

  /** `Math.PI` as a double. */
  const Pi: real := 3.141592653589793

  // ---------------------------------------------------------------------
  // Per-element progress

  /** One frame of `MorphingItem`: `p += (target - p) * delta * 3`. The
      distance to the target is multiplied by `1 - 3 * delta`. */
  function Approach(p: real, target: real, delta: real): (p': real)
    ensures p' - target == (p - target) * (1.0 - Rate * delta)
  {
    p + (target - p) * delta * Rate
  }

  /** A frame short enough that one step cannot pass the target. The source
      does not clamp `delta`. */
  predicate StableDelta(delta: real)
  {
    0.0 <= Rate * delta <= 1.0
  }

  /** A frame that moves towards the target without reaching it. */
  predicate ContractingDelta(delta: real)
  {
    0.0 < Rate * delta < 1.0
  }

  /** The target is a fixed point of a frame, whatever its length. */
  lemma ApproachFixedPoint(target: real, delta: real)
    ensures Approach(target, target, delta) == target
  {
  }

  /** With `3 * delta` in [0, 1] a frame ends between the old progress and
      the target: no overshoot. */
  lemma NoOvershoot(p: real, target: real, delta: real)
    requires StableDelta(delta)
    ensures Between(p, target, Approach(p, target, delta))
  {
    var k := Rate * delta;
    assert Approach(p, target, delta) == p + (target - p) * k;
    LerpCoordinate(p, target, k);
  }

  /** A frame of length 0.5 s, from fully scattered towards the tree, lands
      at -0.5: without the bound on `delta` the step overshoots. */
  lemma LongFrameOvershoots()
    ensures Approach(1.0, 0.0, 0.5) == -0.5
    ensures !StableDelta(0.5)
  {
  }

  /** With `3 * delta` in (0, 1) and the progress off target, a frame moves
      strictly closer to the target and stays on the same side of it. */
  lemma Contraction(p: real, target: real, delta: real)
    requires ContractingDelta(delta)
    ensures p > target ==> target < Approach(p, target, delta) < p
    ensures p < target ==> p < Approach(p, target, delta) < target
  {
    SameSideCloser(p - target, 1.0 - Rate * delta, Approach(p, target, delta) - target);
  }

  /** A distance `e` scaled by a factor in (0, 1) keeps its sign and
      shrinks. */
  lemma SameSideCloser(e: real, s: real, q: real)
    requires 0.0 < s < 1.0 && q == e * s
    ensures 0.0 < e ==> 0.0 < q < e
    ensures e < 0.0 ==> e < q < 0.0
  {
    if 0.0 < e {
      PositiveShrinks(e, s);
    } else if e < 0.0 {
      assert -q == (-e) * s;
      PositiveShrinks(-e, s);
    }
  }

  lemma PositiveShrinks(e: real, s: real)
    requires 0.0 < e && 0.0 < s < 1.0
    ensures 0.0 < e * s < e
  {
  }

  /** One frame as the render loop delivers it: the shared control value
      and the elapsed time. */
  datatype Tick = Tick(target: real, delta: real)

  /** The progress after the frames `ticks`, starting from `p`. */
  function Run(p: real, ticks: seq<Tick>): real
    decreases |ticks|
  {
    if ticks == [] then p else Run(Approach(p, ticks[0].target, ticks[0].delta), ticks[1..])
  }

  predicate AllStable(ticks: seq<Tick>)
  {
    forall i :: 0 <= i < |ticks| ==> StableDelta(ticks[i].delta)
  }

  predicate AllTargetsInUnit(ticks: seq<Tick>)
  {
    forall i :: 0 <= i < |ticks| ==> 0.0 <= ticks[i].target <= 1.0
  }

  predicate AllTargeting(ticks: seq<Tick>, target: real)
  {
    forall i :: 0 <= i < |ticks| ==> ticks[i].target == target
  }

  /** Frame by frame: the last frame applies to the progress after the
      others. */
  lemma {:induction false} RunSnoc(p: real, ticks: seq<Tick>, t: Tick)
    ensures Run(p, ticks + [t]) == Approach(Run(p, ticks), t.target, t.delta)
    decreases |ticks|
  {
    if ticks == [] {
      assert [] + [t] == [t];
    } else {
      assert (ticks + [t])[1..] == ticks[1..] + [t];
      RunSnoc(Approach(p, ticks[0].target, ticks[0].delta), ticks[1..], t);
    }
  }

  /** With short frames and a control value in [0, 1], a progress that
      starts in [0, 1] stays there. */
  lemma {:induction false} RunStaysInUnit(p: real, ticks: seq<Tick>)
    requires 0.0 <= p <= 1.0
    requires AllStable(ticks) && AllTargetsInUnit(ticks)
    ensures 0.0 <= Run(p, ticks) <= 1.0
    decreases |ticks|
  {
    if ticks != [] {
      NoOvershoot(p, ticks[0].target, ticks[0].delta);
      assert AllStable(ticks[1..]) && AllTargetsInUnit(ticks[1..]) by {
        forall i | 0 <= i < |ticks| - 1
          ensures ticks[1..][i] == ticks[i + 1]
        {
        }
      }
      RunStaysInUnit(Approach(p, ticks[0].target, ticks[0].delta), ticks[1..]);
    }
  }

  /** With short frames and a fixed control value, the progress never
      crosses the target: it stays between its start and the target. */
  lemma {:induction false} RunNeverCrosses(p: real, target: real, ticks: seq<Tick>)
    requires AllStable(ticks) && AllTargeting(ticks, target)
    ensures Between(p, target, Run(p, ticks))
    decreases |ticks|
  {
    if ticks != [] {
      var p1 := Approach(p, target, ticks[0].delta);
      NoOvershoot(p, target, ticks[0].delta);
      assert AllStable(ticks[1..]) && AllTargeting(ticks[1..], target) by {
        forall i | 0 <= i < |ticks| - 1
          ensures ticks[1..][i] == ticks[i + 1]
        {
        }
      }
      RunNeverCrosses(p1, target, ticks[1..]);
    }
  }

  function Pow(b: real, n: nat): real
  {
    if n == 0 then 1.0 else b * Pow(b, n - 1)
  }

  /** `n` frames of the same length towards the same target. */
  function Steady(target: real, delta: real, n: nat): (ticks: seq<Tick>)
    ensures |ticks| == n
    ensures forall i :: 0 <= i < n ==> ticks[i] == Tick(target, delta)
  {
    if n == 0 then [] else [Tick(target, delta)] + Steady(target, delta, n - 1)
  }

  /** After `n` equal frames the distance to the target has been scaled by
      `(1 - 3 * delta)^n`. */
  lemma {:induction false} SteadyGeometric(p: real, target: real, delta: real, n: nat)
    ensures Run(p, Steady(target, delta, n)) - target == Pow(1.0 - Rate * delta, n) * (p - target)
    decreases n
  {
    if n > 0 {
      var s := 1.0 - Rate * delta;
      var p1 := Approach(p, target, delta);
      assert Steady(target, delta, n)[1..] == Steady(target, delta, n - 1);
      SteadyGeometric(p1, target, delta, n - 1);
      assert Pow(s, n - 1) * (p1 - target) == Pow(s, n - 1) * ((p - target) * s);
      assert Pow(s, n - 1) * ((p - target) * s) == (s * Pow(s, n - 1)) * (p - target);
    }
  }

  predicate AllContracting(ticks: seq<Tick>)
  {
    forall i :: 0 <= i < |ticks| ==> ContractingDelta(ticks[i].delta)
  }

  /** Starting fully scattered (1) with the tree as target (0) and frames
      with `3 * delta` in (0, 1), the progress stays in (0, 1]. */
  lemma RunFromScatteredPositive(ticks: seq<Tick>)
    requires AllContracting(ticks) && AllTargeting(ticks, 0.0)
    ensures 0.0 < Run(1.0, ticks) <= 1.0
  {
    RunPositive(1.0, ticks);
  }

  lemma {:induction false} RunPositive(p: real, ticks: seq<Tick>)
    requires 0.0 < p <= 1.0
    requires AllContracting(ticks) && AllTargeting(ticks, 0.0)
    ensures 0.0 < Run(p, ticks) <= p
    decreases |ticks|
  {
    if ticks != [] {
      var p1 := Approach(p, 0.0, ticks[0].delta);
      Contraction(p, 0.0, ticks[0].delta);
      assert AllContracting(ticks[1..]) && AllTargeting(ticks[1..], 0.0) by {
        forall i | 0 <= i < |ticks| - 1
          ensures ticks[1..][i] == ticks[i + 1]
        {
        }
      }
      RunPositive(p1, ticks[1..]);
    }
  }

  /** ... and every frame strictly lowers it: the progress decreases
      strictly and never goes negative. */
  lemma ScatteredToTreeDecreases(ticks: seq<Tick>, k: nat)
    requires AllContracting(ticks) && AllTargeting(ticks, 0.0)
    requires k < |ticks|
    ensures 0.0 < Run(1.0, ticks[..k + 1]) < Run(1.0, ticks[..k])
  {
    var before := ticks[..k];
    assert ticks[..k + 1] == before + [ticks[k]];
    assert AllContracting(before) && AllTargeting(before, 0.0);
    RunFromScatteredPositive(before);
    RunSnoc(1.0, before, ticks[k]);
    Contraction(Run(1.0, before), 0.0, ticks[k].delta);
  }

  /** One `MorphingItem`: its fixed pair of positions, its private progress
      (`targetProgress.current`) and its current position. */
  class MorphingItem {
    const treePos: Vec3
    const scatterPos: Vec3
    var progress: real
    var currentPos: Vec3

    /** The position is always the interpolation at the current progress. */
    ghost predicate Valid()
      reads this
    {
      currentPos == Lerp(treePos, scatterPos, progress)
    }

    /** Starts scattered: progress 1, at `scatterPos`. */
    constructor (treePos: Vec3, scatterPos: Vec3)
      ensures this.treePos == treePos && this.scatterPos == scatterPos
      ensures progress == 1.0 && currentPos == scatterPos
      ensures Valid()
    {
      this.treePos := treePos;
      this.scatterPos := scatterPos;
      progress := 1.0;
      currentPos := scatterPos;
    }

    /** The `useFrame` callback; `mounted` is whether the group's ref is set. */
    method Frame(mounted: bool, morphProgress: real, delta: real)
      requires Valid()
      modifies this
      ensures Valid()
      ensures mounted ==> progress == Approach(old(progress), morphProgress, delta)
      ensures mounted ==> currentPos == Lerp(treePos, scatterPos, progress)
      ensures !mounted ==> progress == old(progress) && currentPos == old(currentPos)
    {
      if mounted {
        progress := progress + (morphProgress - progress) * delta * Rate;
        currentPos := Lerp(treePos, scatterPos, progress);
      }
    }
  }

  // ---------------------------------------------------------------------
  // Layouts

  predicate InUnit(u: real)
  {
    0.0 <= u < 1.0
  }

  /** The three draws of `randomInCone`: height, angle and radius. */
  datatype ConeDraws = ConeDraws(height: real, angle: real, radius: real)

  predicate ConeDrawsValid(d: ConeDraws)
  {
    InUnit(d.height) && InUnit(d.angle) && InUnit(d.radius)
  }

  /** `maxRadius * (1 - y / height)`: the cone's radius at height `y`. It is
      the full base radius at the base and shrinks to a positive radius
      no larger than the base anywhere below the apex. */
  function RadiusAtHeight(height: real, maxRadius: real, y: real): (r: real)
    requires 0.0 < height
    ensures y == 0.0 ==> r == maxRadius
    ensures y == height ==> r == 0.0
    ensures 0.0 < maxRadius && 0.0 <= y < height ==> 0.0 < r <= maxRadius
  {
    if 0.0 < maxRadius && 0.0 <= y < height then
      ConeRadiusBounds(height, maxRadius, y);
      maxRadius * (1.0 - y / height)
    else
      maxRadius * (1.0 - y / height)
  }

  lemma ConeRadiusBounds(height: real, maxRadius: real, y: real)
    requires 0.0 < height && 0.0 < maxRadius && 0.0 <= y < height
    ensures 0.0 < maxRadius * (1.0 - y / height) <= maxRadius
  {
    var f := y / height;
    assert f * height == y;
    assert (1.0 - f) * height == height - y;
    FactorSign(f, height);
    FactorSign(1.0 - f, height);
    ScaleDown(maxRadius, 1.0 - f);
    MulPositive(maxRadius, 1.0 - f);
  }

  /** `p` lies in the solid cone of the given height and base radius
      standing on the origin. */
  predicate InCone(p: Vec3, height: real, maxRadius: real)
    requires 0.0 < height
  {
    0.0 <= p.y < height && Sq(p.x) + Sq(p.z) <= Sq(RadiusAtHeight(height, maxRadius, p.y))
  }

  /** `randomInCone(height, maxRadius)`. */
  function RandomInCone(height: real, maxRadius: real, d: ConeDraws, m: MathFns): (p: Vec3)
    requires 0.0 < height && 0.0 < maxRadius
    requires ConeDrawsValid(d) && SqrtSound(m) && TrigSound(m)
    ensures InCone(p, height, maxRadius)
    ensures 0.0 < RadiusAtHeight(height, maxRadius, p.y) <= maxRadius
  {
    var y := d.height * height;
    var rAtHeight := RadiusAtHeight(height, maxRadius, y);
    var angle := d.angle * Pi * 2.0;
    var r := m.sqrt(d.radius) * rAtHeight;
    ConeSample(height, maxRadius, d.height, y, rAtHeight, m.sqrt(d.radius), r, m.cos(angle), m.sin(angle));
    Vec3(r * m.cos(angle), y, r * m.sin(angle))
  }

  /** The bounds of one cone sample, from the bounds of its draws. */
  lemma ConeSample(height: real, maxRadius: real, u: real, y: real, rAtHeight: real,
                   s: real, r: real, c: real, sn: real)
    requires 0.0 < height && 0.0 < maxRadius && InUnit(u)
    requires y == u * height && rAtHeight == RadiusAtHeight(height, maxRadius, y)
    requires 0.0 <= s < 1.0 && r == s * rAtHeight
    requires Sq(sn) + Sq(c) == 1.0
    ensures 0.0 <= y < height
    ensures 0.0 < rAtHeight <= maxRadius
    ensures Sq(r * c) + Sq(r * sn) <= Sq(rAtHeight)
    ensures InCone(Vec3(r * c, y, r * sn), height, maxRadius)
  {
    ScaleBelow(u, height);
    assert 0.0 <= y < height;
    assert 0.0 < rAtHeight <= maxRadius;
    ScaledSquare(s, rAtHeight);
    PolarSquare(r, c, sn);
  }

  /** Multiplying by a positive factor keeps the sign. */
  lemma FactorSign(a: real, b: real)
    requires 0.0 < b
    ensures 0.0 <= a * b ==> 0.0 <= a
    ensures 0.0 < a * b ==> 0.0 < a
  {
  }

  lemma MulPositive(a: real, b: real)
    requires 0.0 < a && 0.0 < b
    ensures 0.0 < a * b
  {
  }

  /** The three draws of `randomInSphere`: azimuth, polar and radius. */
  datatype SphereDraws = SphereDraws(u: real, v: real, w: real)

  predicate SphereDrawsValid(d: SphereDraws)
  {
    InUnit(d.u) && InUnit(d.v) && InUnit(d.w)
  }

  /** `Math.cbrt(Math.random()) * radius`: the distance of the sample from
      the centre. */
  function SphereRadius(radius: real, w: real, m: MathFns): (r: real)
    requires 0.0 <= radius && InUnit(w) && CbrtSound(m)
    ensures 0.0 <= r <= radius
    ensures 0.0 < radius ==> r < radius
  {
    ScaledSquare(m.cbrt(w), radius);
    m.cbrt(w) * radius
  }

  lemma SphericalNorm(r: real, sp: real, cp: real, ct: real, st: real)
    requires Sq(sp) + Sq(cp) == 1.0
    requires Sq(st) + Sq(ct) == 1.0
    ensures NormSq(Vec3(r * sp * ct, r * sp * st, r * cp)) == Sq(r)
  {
    SphericalSquare(r, sp, cp, ct, st);
  }

  /** The squared radial distance stays within the squared radius. */
  lemma SphereRadiusSquare(radius: real, w: real, m: MathFns)
    requires 0.0 <= radius && InUnit(w) && CbrtSound(m)
    ensures Sq(SphereRadius(radius, w, m)) <= Sq(radius)
  {
    assert SphereRadius(radius, w, m) == m.cbrt(w) * radius;
    ScaledSquare(m.cbrt(w), radius);
  }

  /** `p` lies in the solid ball of the given radius about the origin. */
  predicate InSphere(p: Vec3, radius: real)
  {
    NormSq(p) <= Sq(radius)
  }

  /** `randomInSphere(radius)`: the sample lies at distance
      `SphereRadius` from the centre, so inside the ball. */
  function RandomInSphere(radius: real, d: SphereDraws, m: MathFns): (p: Vec3)
    requires 0.0 <= radius && SphereDrawsValid(d) && CbrtSound(m) && TrigSound(m)
    ensures NormSq(p) == Sq(SphereRadius(radius, d.w, m))
    ensures InSphere(p, radius)
  {
    var theta := 2.0 * Pi * d.u;
    var phi := m.acos(2.0 * d.v - 1.0);
    var r := SphereRadius(radius, d.w, m);
    SphericalNorm(r, m.sin(phi), m.cos(phi), m.cos(theta), m.sin(theta));
    SphereRadiusSquare(radius, d.w, m);
    Vec3(r * m.sin(phi) * m.cos(theta), r * m.sin(phi) * m.sin(theta), r * m.cos(phi))
  }

  // ---------------------------------------------------------------------
  // Ornaments and star

  datatype OrnamentKind = Box | Sphere | Gem

  /** `types`: three boxes, a sphere and a gem. */
  const Kinds: seq<OrnamentKind> := [Box, Box, Box, Sphere, Gem]

  /** `colors`: emerald, green, dark red, firebrick, crimson, forest green,
      cardinal. */
  const Palette: seq<string> := ["#0A5F38", "#1B7943", "#8B0000", "#B22222", "#DC143C", "#228B22", "#C41E3A"]

  const OrnamentCount: nat := 1125
  const TreeHeight: real := 6.0
  const TreeRadius: real := 2.5
  const ScatterRadius: real := 12.0
  const StarScatterRadius: real := 10.0

  /** The eight draws one ornament consumes, in the order of the loop body:
      type, colour, the cone's three, the sphere's three. */
  datatype OrnamentDraws = OrnamentDraws(kind: real, color: real, tree: ConeDraws, scatter: SphereDraws)

  predicate OrnamentDrawsValid(d: OrnamentDraws)
  {
    InUnit(d.kind) && InUnit(d.color) && ConeDrawsValid(d.tree) && SphereDrawsValid(d.scatter)
  }

  /** One entry of `items`. */
  datatype Ornament = Ornament(treePos: Vec3, scatterPos: Vec3, kind: OrnamentKind, color: string)

  /** `Math.floor(Math.random() * n)`: always a valid index into an array
      of length `n`, and each index covers an interval of width 1/n. */
  function PickIndex(u: real, n: nat): (i: nat)
    requires InUnit(u) && 0 < n
    ensures i < n
    ensures (i as real) <= u * (n as real) < (i as real) + 1.0
  {
    ScaleBelow(u, n as real);
    (u * (n as real)).Floor
  }

  lemma ScaleBelow(u: real, n: real)
    requires 0.0 <= u < 1.0 && 0.0 < n
    ensures 0.0 <= u * n < n
  {
    assert n - u * n == n * (1.0 - u);
  }

  /** `types[Math.floor(Math.random() * types.length)]`: a box for draws
      below 0.6, a sphere in [0.6, 0.8), a gem from 0.8 on. */
  function PickKind(u: real): (k: OrnamentKind)
    requires InUnit(u)
    ensures k == Box <==> u < 0.6
    ensures k == Sphere <==> 0.6 <= u < 0.8
    ensures k == Gem <==> 0.8 <= u
  {
    Kinds[PickIndex(u, |Kinds|)]
  }

  /** `colors[Math.floor(Math.random() * colors.length)]`. */
  function PickColor(u: real): (c: string)
    requires InUnit(u)
    ensures c in Palette
  {
    Palette[PickIndex(u, |Palette|)]
  }

  /** The body of the generation loop. */
  function MakeOrnament(d: OrnamentDraws, m: MathFns): (o: Ornament)
    requires OrnamentDrawsValid(d) && Sound(m)
    ensures o.color in Palette
    ensures o.kind == Box <==> d.kind < 0.6
    ensures InCone(o.treePos, TreeHeight, TreeRadius)
    ensures InSphere(o.scatterPos, ScatterRadius)
  {
    Ornament(RandomInCone(TreeHeight, TreeRadius, d.tree, m),
             RandomInSphere(ScatterRadius, d.scatter, m),
             PickKind(d.kind),
             PickColor(d.color))
  }

  /** The `ornaments` memo: exactly 1125 ornaments, the i-th made from the
      i-th group of draws, each inside the tree cone and the scatter ball. */
  method BuildOrnaments(draws: seq<OrnamentDraws>, m: MathFns) returns (items: seq<Ornament>)
    requires |draws| == OrnamentCount
    requires forall i :: 0 <= i < |draws| ==> OrnamentDrawsValid(draws[i])
    requires Sound(m)
    ensures |items| == OrnamentCount
    ensures forall i :: 0 <= i < |items| ==> items[i] == MakeOrnament(draws[i], m)
    ensures forall i :: 0 <= i < |items| ==>
      items[i].color in Palette
      && InCone(items[i].treePos, TreeHeight, TreeRadius)
      && InSphere(items[i].scatterPos, ScatterRadius)
  {
    items := [];
    var count := OrnamentCount;
    var i := 0;
    while i < count
      invariant 0 <= i <= count
      invariant |items| == i
      invariant forall j :: 0 <= j < i ==> items[j] == MakeOrnament(draws[j], m)
    {
      var d := draws[i];
      var treePos := RandomInCone(TreeHeight, TreeRadius, d.tree, m);
      var scatterPos := RandomInSphere(ScatterRadius, d.scatter, m);
      items := items + [Ornament(treePos, scatterPos, PickKind(d.kind), PickColor(d.color))];
      i := i + 1;
    }
  }

  /** `starData`: its tree point and its scatter point. */
  datatype Star = Star(treePos: Vec3, scatterPos: Vec3)

  /** The star sits on the tree's axis, above the cone's apex, and scatters
      inside a ball of radius 10. */
  function MakeStar(d: SphereDraws, m: MathFns): (s: Star)
    requires SphereDrawsValid(d) && CbrtSound(m) && TrigSound(m)
    ensures s.treePos == Vec3(0.0, 6.2, 0.0)
    ensures s.treePos.x == 0.0 && s.treePos.z == 0.0 && s.treePos.y > TreeHeight
    ensures InSphere(s.scatterPos, StarScatterRadius)
  {
    Star(Vec3(0.0, 6.2, 0.0), RandomInSphere(StarScatterRadius, d, m))
  }
}
