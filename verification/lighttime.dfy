/** The bounded fixed-point iteration for light travel time
    (skyfield/ephemerislib.py, the loop of `Solution.at`). */
module LightTime {
  import opened Vectors
  import opened Outcomes

  /** `for i in range(10)`. */
  const MaxRounds: nat := 10

  /** The numerics the model keeps abstract: `lightTimeOf(v)` stands for
      `length_of(v) / C_AUDAY`, and `converged(delta)` for the test
      `-1e-12 < delta < 1e-12`. */
  datatype LightModel = LightModel(lightTimeOf: Vec -> int, converged: int -> bool)

  /** One light-time problem: `targetAt(time)` re-tallies the target chain
      at `time`, `t` is the nominal time, and `observer` is the observer's
      position, tallied once at the nominal time. */
  datatype Problem = Problem(light: LightModel, targetAt: int -> State, t: int, observer: Vec)

  /** The loop's state at `break`: the target's state, the accepted light
      time, and the round `i` in which the loop stopped. */
  datatype Converged = Converged(target: State, lightTime: int, round: nat)

  /** Reference definition of the estimates: estimate 0 is `lighttime0 = 0`,
      and estimate k + 1 is the light time to the target evaluated at the
      nominal time less estimate k. */
  function Estimate(p: Problem, k: nat): int
  {
    if k == 0 then 0
    else p.light.lightTimeOf(Sub(p.targetAt(p.t - Estimate(p, k - 1)).position, p.observer))
  }

  /** The target's state evaluated at the nominal time less estimate k. */
  function TargetAt(p: Problem, k: nat): State
  {
    p.targetAt(p.t - Estimate(p, k))
  }

  /** Round k accepts: estimates k and k + 1 differ within tolerance. */
  predicate ConvergesAt(p: Problem, k: nat)
  {
    p.light.converged(Estimate(p, k + 1) - Estimate(p, k))
  }

  /** The first round from `i` on that accepts, or `MaxRounds` if none does. */
  function FirstAccepting(p: Problem, i: nat): (k: nat)
    requires i <= MaxRounds
    ensures i <= k <= MaxRounds
    ensures k < MaxRounds ==> ConvergesAt(p, k)
    ensures forall j :: i <= j < k ==> !ConvergesAt(p, j)
    decreases MaxRounds - i
  {
    if i == MaxRounds then MaxRounds
    else if ConvergesAt(p, i) then i
    else FirstAccepting(p, i + 1)
  }

  /** A round that accepts after none before it from `i` on is the first
      accepting round. */
  lemma {:induction false} FirstAcceptingIs(p: Problem, i: nat, k: nat)
    requires i <= k <= MaxRounds
    requires k < MaxRounds ==> ConvergesAt(p, k)
    requires forall j :: i <= j < k ==> !ConvergesAt(p, j)
    ensures FirstAccepting(p, i) == k
    decreases MaxRounds - i
  {
    if i < k {
      FirstAcceptingIs(p, i + 1, k);
    }
  }

  /** What the loop computes: it succeeds exactly when some round below the
      bound accepts, and then returns the first accepting round with that
      round's target state and the light time it accepted; otherwise it
      fails with `LightTimeDivergence`. */
  function Solve(p: Problem): (r: Result<Converged>)
    ensures r.Success? <==> exists k :: 0 <= k < MaxRounds && ConvergesAt(p, k)
    ensures r.Success? ==>
      && r.value.round < MaxRounds
      && ConvergesAt(p, r.value.round)
      && (forall j :: 0 <= j < r.value.round ==> !ConvergesAt(p, j))
      && r.value.lightTime == Estimate(p, r.value.round + 1)
      && r.value.target == TargetAt(p, r.value.round)
    ensures r.Failure? ==> r.error == LightTimeDivergence
  {
    var k := FirstAccepting(p, 0);
    if k < MaxRounds then Success(Converged(TargetAt(p, k), Estimate(p, k + 1), k))
    else Failure(LightTimeDivergence)
  }

  /** The loop of `Solution.at`: at most ten rounds, each computing the
      light time to the current target state and accepting it when it is
      within tolerance of the previous one; otherwise the target is
      re-evaluated at the nominal time less the new light time. Ten rounds
      without acceptance fail. */
  method RunLightTime(p: Problem) returns (r: Result<Converged>)
    ensures r == Solve(p)
  {
    var lighttime0 := 0;
    var tstate := p.targetAt(p.t);
    for i := 0 to MaxRounds
      invariant lighttime0 == Estimate(p, i)
      invariant tstate == TargetAt(p, i)
      invariant forall j :: 0 <= j < i ==> !ConvergesAt(p, j)
    {
      var lighttime := p.light.lightTimeOf(Sub(tstate.position, p.observer));
      assert lighttime == Estimate(p, i + 1);
      if p.light.converged(lighttime - lighttime0) {
        FirstAcceptingIs(p, 0, i);
        return Success(Converged(tstate, lighttime, i));
      }
      tstate := p.targetAt(p.t - lighttime);
      lighttime0 := lighttime;
    }
    FirstAcceptingIs(p, 0, MaxRounds);
    return Failure(LightTimeDivergence);
  }

  /** The target returns the same state at every time. */
  ghost predicate Fixed(p: Problem)
  {
    forall t1, t2 :: p.targetAt(t1) == p.targetAt(t2)
  }

  /** A target that does not move converges by round 1 at the latest, to
      the light time of its one distance, provided a zero delta counts as
      converged. */
  lemma StationaryConverges(p: Problem)
    requires Fixed(p) && p.light.converged(0)
    ensures Solve(p).Success?
    ensures Solve(p).value.round <= 1
    ensures Solve(p).value.lightTime == p.light.lightTimeOf(Sub(p.targetAt(p.t).position, p.observer))
  {
    var d := p.light.lightTimeOf(Sub(p.targetAt(p.t).position, p.observer));
    assert Estimate(p, 1) == d;
    assert p.targetAt(p.t - d) == p.targetAt(p.t);
    assert Estimate(p, 2) == d;
    assert ConvergesAt(p, 1);
  }

  /** A tolerance test that never accepts exhausts the ten rounds. */
  lemma NeverConvergedFails(p: Problem)
    requires forall delta :: !p.light.converged(delta)
    ensures Solve(p) == Failure(LightTimeDivergence)
  {
  }
}
