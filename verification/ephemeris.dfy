/** The query objects (skyfield/ephemerislib.py, `Body`, `Geometry` and
    `Solution`): absolute, geometric and light-time corrected positions. */
module Ephemeris {
  import opened Vectors
  import opened Outcomes
  import opened Segments
  import opened Chains
  import opened Tallies
  import opened CommonAncestor
  import opened LightTime

  /** The barycenter's code: the root every `observe` chain must start at. */
  const Barycenter: int := 0

  /** A body: the segments of its ephemeris and its code. */
  datatype Body = Body(segments: seq<Segment>, code: int)

  /** The `body` argument of `geometry_of` and `observe`: another `Body`,
      or a name the ephemeris has already decoded to `code`. */
  datatype Other = OfBody(body: Body) | Decoded(code: int)

  /** Which position class a result is built with. */
  datatype Frame = Barycentric | ICRS | Astrometric

  datatype Position = Position(frame: Frame, position: Vec, velocity: Vec, time: int)

  datatype Geometry = Geometry(center: int, target: int, centerChain: seq<Segment>, targetChain: seq<Segment>)

  datatype Solution = Solution(center: int, target: int, centerChain: seq<Segment>, targetChain: seq<Segment>)

  /** A light-time corrected position with the observer's own state. */
  datatype Observation = Observation(apparent: Position, lightTime: int, observerPosition: Vec, observerVelocity: Vec)


  /** `Body.at`: tally the root-first chain of the body, with nothing to
      subtract, as a barycentric position. */
  function BodyAt(b: Body, t: int): (r: Position)
    requires Acyclic(Registry(b.segments))
    ensures r.frame == Barycentric && r.time == t
    ensures var s := Sum(Chain(Registry(b.segments), b.code), t);
      r.position == s.position && r.velocity == s.velocity
  {
    var s := Tally([], Chain(Registry(b.segments), b.code), t);
    Position(Barycentric, s.position, s.velocity, t)
  }

  /** A code with no segment (the root itself, or an unknown code) sits at
      the origin. */
  lemma BodyAtRoot(b: Body, t: int)
    requires Acyclic(Registry(b.segments))
    requires b.code !in Registry(b.segments)
    ensures BodyAt(b, t).position == Zero && BodyAt(b, t).velocity == Zero
  {
  }

  /** A body's barycentric state is its center's barycentric state plus the
      offset of the body's own segment. */
  lemma BodyAtComposes(b: Body, t: int)
    requires Acyclic(Registry(b.segments))
    requires b.code in Registry(b.segments)
    ensures var seg := Registry(b.segments)[b.code];
      var parent := BodyAt(Body(b.segments, seg.center), t);
      && BodyAt(b, t).position == Add(parent.position, seg.compute(t).position)
      && BodyAt(b, t).velocity == Add(parent.velocity, seg.compute(t).velocity)
  {
    var reg := Registry(b.segments);
    ChainSumStep(reg, b.code, t);
    TallyPlusOnly(Chain(reg, b.code), t);
    TallyPlusOnly(Chain(reg, reg[b.code].center), t);
  }


  /** The `Body` the other argument stands for; a decoded name becomes a
      body of the caller's own ephemeris. */
  function Partner(b: Body, other: Other): Body
  {
    match other
    case OfBody(o) => o
    case Decoded(code) => Body(b.segments, code)
  }

  /** The segments `_connect` resolves both chains in. */
  function Every(b: Body, other: Other): seq<Segment>
  {
    b.segments + Partner(b, other).segments
  }

  /** `Body.geometry_of`: connect the two bodies through their common
      ancestor. It fails when either body has no segment or the chains
      start at different centers. */
  function GeometryOf(b: Body, other: Other): (r: Result<Geometry>)
    requires Acyclic(Registry(Every(b, other)))
    ensures var reg, o := Registry(Every(b, other)), Partner(b, other);
      && (r.Failure? && r.error == EmptyChain <==> b.code !in reg || o.code !in reg)
      && (r.Failure? && r.error == NoCommonCenter <==>
            b.code in reg && o.code in reg && Chain(reg, b.code)[0].center != Chain(reg, o.code)[0].center)
      && (r.Success? <==>
            b.code in reg && o.code in reg && Chain(reg, b.code)[0].center == Chain(reg, o.code)[0].center)
      && (r.Success? ==> r.value.center == b.code && r.value.target == o.code)
  {
    var o := Partner(b, other);
    var chains :- Connect(Registry(Every(b, other)), b.code, o.code);
    Success(Geometry(b.code, o.code, chains.0, chains.1))
  }

  /** A decoded name resolves in the caller's segments alone: doubling the
      list does not change the registry. */
  lemma DecodedUsesOwnSegments(b: Body, code: int)
    ensures Registry(Every(b, Decoded(code))) == Registry(b.segments)
  {
    RegistryAppend(b.segments, b.segments);
  }


  /** `Geometry.at`: tally the pruned chains; barycentric exactly when the
      center is the barycenter, otherwise ICRS. */
  function GeometryAt(g: Geometry, t: int): (r: Position)
    ensures r.frame == Barycentric <==> g.center == Barycenter
    ensures r.frame != Astrometric
    ensures r.time == t
  {
    var s := Tally(g.centerChain, g.targetChain, t);
    Position(if g.center == Barycenter then Barycentric else ICRS, s.position, s.velocity, t)
  }

  /** The geometric position is the target's barycentric state less the
      center's, both resolved in the merged segments: stripping the common
      prefix changes nothing. */
  lemma GeometryIsDifference(b: Body, other: Other, t: int)
    requires Acyclic(Registry(Every(b, other)))
    requires GeometryOf(b, other).Success?
    ensures var g := GeometryAt(GeometryOf(b, other).value, t);
      var center := BodyAt(Body(Every(b, other), b.code), t);
      var target := BodyAt(Body(Every(b, other), Partner(b, other).code), t);
      && g.position == Sub(target.position, center.position)
      && g.velocity == Sub(target.velocity, center.velocity)
  {
    var reg := Registry(Every(b, other));
    ConnectPreservesTally(reg, b.code, Partner(b, other).code, t);
  }


  /** The segments `observe` resolves in: the caller's own, extended by the
      other body's when it is a `Body`. */
  function ObserveSegments(b: Body, other: Other): (segs: seq<Segment>)
    ensures |b.segments| <= |segs| && segs[..|b.segments|] == b.segments
    ensures other.Decoded? ==> |segs| == |b.segments|
  {
    match other
    case OfBody(o) => b.segments + o.segments
    case Decoded(_) => b.segments
  }

  /** The code `observe` looks up for the other argument. */
  function TargetCode(other: Other): int
  {
    match other
    case OfBody(o) => o.code
    case Decoded(code) => code
  }

  /** `Body.observe`: both full chains, which must both start at the
      barycenter. Indexing an empty chain fails first. */
  function Observe(b: Body, other: Other): (r: Result<Solution>)
    requires Acyclic(Registry(ObserveSegments(b, other)))
    ensures var reg, target := Registry(ObserveSegments(b, other)), TargetCode(other);
      && (r.Failure? && r.error == EmptyChain <==> b.code !in reg || target !in reg)
      && (r.Success? <==>
            && b.code in reg && target in reg
            && Chain(reg, b.code)[0].center == Barycenter
            && Chain(reg, target)[0].center == Barycenter)
      && (r.Failure? ==> r.error in {EmptyChain, NotBarycentric})
      && (r.Success? ==>
            && r.value.center == b.code && r.value.target == target
            && IsChainTo(reg, b.code, r.value.centerChain) && r.value.centerChain[0].center == Barycenter
            && IsChainTo(reg, target, r.value.targetChain) && r.value.targetChain[0].center == Barycenter)
  {
    var reg := Registry(ObserveSegments(b, other));
    var target := TargetCode(other);
    var centerChain := Chain(reg, b.code);
    var targetChain := Chain(reg, target);
    ChainIsChain(reg, b.code);
    ChainIsChain(reg, target);
    if |centerChain| == 0 || |targetChain| == 0 then Failure(EmptyChain)
    else if !(centerChain[0].center == targetChain[0].center == Barycenter) then Failure(NotBarycentric)
    else Success(Solution(b.code, target, centerChain, targetChain))
  }


  /** `observe` and `geometry_of` resolve the same pair of codes in the
      same registry: with a `Body` both merge the two segment lists, and
      with a decoded name both use the caller's segments alone. */
  lemma ObserveResolvesLikeGeometry(b: Body, other: Other)
    ensures TargetCode(other) == Partner(b, other).code
    ensures Registry(ObserveSegments(b, other)) == Registry(Every(b, other))
  {
    if other.Decoded? {
      DecodedUsesOwnSegments(b, other.code);
    }
  }

  /** The light-time problem `Solution.at` solves at time `t`: the target
      chain re-tallied at any time, against the center tallied at `t`. */
  function LightProblem(s: Solution, t: int, light: LightModel): (p: Problem)
    ensures p.light == light && p.t == t
    ensures p.observer == Sum(s.centerChain, t).position
  {
    Problem(light, time => Tally([], s.targetChain, time), t, Tally([], s.centerChain, t).position)
  }

  /** `Solution.at`: light-time corrected target less center. The center
      chain is tallied once, at the nominal time; the target state of the
      round the light-time loop accepts, less the center's state, is tagged
      barycentric exactly when the center is the barycenter and astrometric
      otherwise; a loop that never accepts fails. */
  function SolutionAt(s: Solution, t: int, light: LightModel): (r: Result<Observation>)
    ensures var p := LightProblem(s, t, light);
      && (r.Success? <==> Solve(p).Success?)
      && (r.Failure? ==> r.error == LightTimeDivergence)
      && (r.Success? ==>
            && r.value.observerPosition == p.observer
            && r.value.observerVelocity == Sum(s.centerChain, t).velocity
            && r.value.apparent.time == t
            && (r.value.apparent.frame == Barycentric <==> s.center == Barycenter)
            && r.value.apparent.frame != ICRS
            && r.value.lightTime == Solve(p).value.lightTime
            && r.value.apparent.position == Sub(Solve(p).value.target.position, p.observer)
            && r.value.apparent.velocity == Sub(Solve(p).value.target.velocity, r.value.observerVelocity))
  {
    var cstate := Tally([], s.centerChain, t);
    var p := LightProblem(s, t, light);
    var c :- Solve(p);
    var frame := if s.center == Barycenter then Barycentric else Astrometric;
    var apparent := Position(frame, Sub(c.target.position, cstate.position), Sub(c.target.velocity, cstate.velocity), t);
    Success(Observation(apparent, c.lightTime, cstate.position, cstate.velocity))
  }

  /** The observer is the center chain's sum at the nominal time, and each
      round's target state is the target chain's sum at the nominal time
      less that round's estimate. */
  lemma LightProblemSums(s: Solution, t: int, light: LightModel, k: nat)
    ensures var p := LightProblem(s, t, light);
      && p.observer == Sum(s.centerChain, t).position
      && TargetAt(p, k) == Sum(s.targetChain, t - Estimate(p, k))
  {
    TallyPlusOnly(s.centerChain, t);
    TallyPlusOnly(s.targetChain, t - Estimate(LightProblem(s, t, light), k));
  }

  /** `Solution.at` fails exactly when none of the ten rounds accepts. */
  lemma SolutionAtFails(s: Solution, t: int, light: LightModel)
    ensures var p := LightProblem(s, t, light);
      SolutionAt(s, t, light).Failure? <==> forall k :: 0 <= k < MaxRounds ==> !ConvergesAt(p, k)
  {
    var p := LightProblem(s, t, light);
    assert SolutionAt(s, t, light).Failure? <==> Solve(p).Failure?;
  }

  /** In terms of the rounds: with `k` the first accepting round, the
      light time is estimate k + 1, and the result is the target state of
      round k less the observer's state. */
  lemma SolutionAtRounds(s: Solution, t: int, light: LightModel)
    requires SolutionAt(s, t, light).Success?
    ensures var p, o := LightProblem(s, t, light), SolutionAt(s, t, light).value;
      var k := Solve(p).value.round;
      && k < MaxRounds && ConvergesAt(p, k)
      && (forall j :: 0 <= j < k ==> !ConvergesAt(p, j))
      && o.observerVelocity == Sum(s.centerChain, t).velocity
      && o.lightTime == Estimate(p, k + 1)
      && o.apparent.position == Sub(TargetAt(p, k).position, p.observer)
      && o.apparent.velocity == Sub(TargetAt(p, k).velocity, o.observerVelocity)
  {
  }

  /** A target whose segments do not move is accepted by round 1 at the
      latest, at the light time of its one distance from the observer,
      provided a zero delta counts as converged. */
  lemma StationaryTargetConverges(s: Solution, t: int, light: LightModel)
    requires Stationary(s.targetChain) && light.converged(0)
    ensures SolutionAt(s, t, light).Success?
    ensures SolutionAt(s, t, light).value.lightTime ==
      light.lightTimeOf(Sub(Sum(s.targetChain, t).position, Sum(s.centerChain, t).position))
  {
    var p := LightProblem(s, t, light);
    forall t1, t2
      ensures p.targetAt(t1) == p.targetAt(t2)
    {
      TallyPlusOnly(s.targetChain, t1);
      TallyPlusOnly(s.targetChain, t2);
      SumStationary(s.targetChain, t1, t2);
    }
    StationaryConverges(p);
    TallyPlusOnly(s.targetChain, t);
    TallyPlusOnly(s.centerChain, t);
  }
}
