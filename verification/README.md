# Chained ephemeris positions (skyfield `ephemerislib`)

This project models how skyfield's `ephemerislib` computes positions by
chaining ephemeris segments. An ephemeris is a list of segments. Each
segment gives the position and velocity of a `target` body relative to a
`center` body at a time `t`. The model covers these pieces:

- **Registry.** The segments are filed in a dictionary keyed by target.
  A later segment replaces an earlier one with the same target.
- **`_center`.** From a code, the walk follows target to center until it
  reaches a code with no entry. Callers reverse the walk into a root-first
  chain.
- **`_tally`.** Adds the states of a "plus" chain and subtracts those of a
  "minus" chain. `Tallies.RunTally` runs its two loops and is proved to
  return `Tallies.Tally`, the difference of the two sums. The query
  functions use `Tally` for the value `_tally` returns.
- **`_connect`.** Resolves two bodies in their merged segment lists. It
  rejects chains whose roots differ, then strips the prefix the two chains
  share.
- **The query objects.**
  - `Body.at` gives the barycentric state of one body.
  - `Body.geometry_of` and `Geometry.at` give one body's geometric state
    relative to another.
  - `Body.observe` and `Solution.at` give the light-time corrected state.
    `Solution.at` runs a loop of at most ten rounds. `LightTime.RunLightTime`
    runs that loop and is proved to compute `LightTime.Solve`, the outcome
    described through the sequence of light-time estimates. `SolutionAt`
    uses that outcome.

Modelling choices:

- Positions and velocities are integer triples (`Vectors.Vec`), so sums are
  exact. Times are integers.
- A segment's `compute` is a total function `int -> State`.
- The numerics of the light-time loop are parameters (`LightTime.LightModel`):
  - `lightTimeOf(v)` stands for `length_of(v) / C_AUDAY`;
  - `converged(delta)` stands for the `1e-12` tolerance test.
- Python's `IndexError` on `[0]` of an empty chain is the error
  `EmptyChain`. The source raises three `ValueError`s, told apart only by
  their messages, and the model gives each its own error:
  - `NotBarycentric` for `observe` (skyfield/ephemerislib.py:49);
  - `NoCommonCenter` for `_connect` (skyfield/ephemerislib.py:71);
  - `LightTimeDivergence` for the exhausted loop of `Solution.at`
    (skyfield/ephemerislib.py:135).
- The source never checks for cycles: its walk loops forever when it
  reaches a cycle. Acyclicity is therefore a precondition
  (`Chains.Acyclic`): a rank on codes that decreases from every target to
  its registered center. The precondition is global, so it is stronger
  than needed. A registry such as `[S(0,3), S(3,399), S(5,6), S(6,5)]`
  has a cycle between 5 and 6 that the walk from 399 never reaches, yet
  the model does not cover that registry.
- A name passed to `geometry_of` or `observe` is modelled as the code that
  `ephemeris.decode` would return (`Ephemeris.Other.Decoded`). The body
  built from it uses the caller's own segments.

Modules follow the source's structure:

- `Vectors` and `Outcomes` hold the basic types.
- `Segments` covers `Segment` and the registry.
- `Chains` covers `_center` and the reversal.
- `Tallies` covers `_tally`.
- `CommonAncestor` covers `_connect`.
- `LightTime` covers the loop of `Solution.at`.
- `Ephemeris` covers `Body`, `Geometry` and `Solution`.
- `Scenarios` holds worked examples on a two-segment Earth chain.

## Model

| member | source | states |
|---|---|---|
| Segments.Registry | skyfield/ephemerislib.py:25 | the dictionary built from the segments files every entry under its own target code |
| Segments.RegistryLastWins | skyfield/ephemerislib.py:25 | a code is a key exactly when some segment targets it, and its entry is the last segment in the list with that target |
| Segments.RegistryAppend | skyfield/ephemerislib.py:66-67 | the dictionary of the concatenated lists `body1.segments + body2.segments` is the union of the two dictionaries, with the second list's entries overriding the first's |
| Segments.LastIndex | skyfield/ephemerislib.py:45 | finds the last segment with a given target, or reports that no segment has it |
| Chains.Walk | skyfield/ephemerislib.py:76-81 | the generator yields nothing exactly when `code` has no entry. Otherwise its first segment is the entry for `code` and its last segment's center has no entry |
| Chains.WalkIsWalk | skyfield/ephemerislib.py:76-81 | in an acyclic registry the walk from `code` is empty exactly when `code` has no entry. Otherwise it starts with the entry for `code`, each next segment is the entry for the previous segment's center, and it stops exactly at a center with no entry |
| Chains.WalkUnique | skyfield/ephemerislib.py:76-81 | any sequence with those linkage and termination properties is the walk: the generator's output is determined by the registry |
| Chains.Reverse | skyfield/ephemerislib.py:26 | the `[::-1]` reversal keeps the length and puts element `i` at position `n-1-i` |
| Chains.Chain | skyfield/ephemerislib.py:26 | the reversed walk is empty exactly when `code` has no entry. Otherwise it ends with the entry for `code` and starts at a segment whose center has no entry |
| Chains.ChainIsChain | skyfield/ephemerislib.py:26 | the reversed walk is root-first: it ends with the entry for `code`, each segment's center is the previous segment's target, and the first segment's center has no entry |
| Chains.ChainStep | skyfield/ephemerislib.py:76-81 | the chain to a registered code is the chain to its center followed by the code's own segment |
| Tallies.Tally | skyfield/ephemerislib.py:153-163 | tallying a chain against itself gives the zero state: each subtraction is undone by the matching addition |
| Tallies.RunTally | skyfield/ephemerislib.py:153-163 | the two loops of `_tally`, subtracting each `minus` segment's state and then adding each `plus` segment's, return the sum over `plus` less the sum over `minus`, for position and velocity separately |
| Tallies.SumAppend | skyfield/ephemerislib.py:158-163 | the summed state of a concatenation is the sum of the summed states of its parts |
| Tallies.TallyEmpty | skyfield/ephemerislib.py:154 | two empty chains tally to the zero state |
| Tallies.TallyAppend | skyfield/ephemerislib.py:153-163 | the tally is additive over concatenating the minus chains and the plus chains |
| Tallies.TallyCancelsPrefix | skyfield/ephemerislib.py:153-163 | a prefix present in both the minus and the plus chain does not change the tally |
| Tallies.TallyDropsSharedPrefix | skyfield/ephemerislib.py:72-73 | two chains that agree on their first `i` segments tally as their suffixes from `i` do |
| Tallies.SumReverse | skyfield/ephemerislib.py:26-27 | summing the reversed chain gives the same state as summing the walk |
| Tallies.SumStationary | skyfield/ephemerislib.py:153-163 | a chain whose segments do not move sums to the same state at every time |
| Tallies.TallyPlusOnly | skyfield/ephemerislib.py:27 | with nothing to subtract, the tally is the plain sum of the chain |
| Tallies.ChainSumStep | skyfield/ephemerislib.py:26-27 | the summed chain of a code is the summed chain of its center plus the code's own segment |
| Tallies.SumChainIsSumWalk | skyfield/ephemerislib.py:26-27 | summing the root-first chain is summing the target-first walk |
| CommonAncestor.MatchCount | skyfield/ephemerislib.py:72 | the count of index-wise equal targets over `zip` is at most the length of either chain |
| CommonAncestor.CommonPrefix | skyfield/ephemerislib.py:72 | reference definition: the targets agree below the common prefix length and differ at it |
| CommonAncestor.MatchCountIsCommonPrefix | skyfield/ephemerislib.py:72 | for two chains resolved in the same registry, the `zip` count equals the length of the common prefix |
| CommonAncestor.MatchesAreDownwardClosed | skyfield/ephemerislib.py:72 | in two linked chains from one registry, equal targets at one index imply equal targets at every earlier index |
| CommonAncestor.ChainsAreLinked | skyfield/ephemerislib.py:68-69 | every segment of a resolved chain is the registry's entry for its target, and consecutive segments are linked |
| CommonAncestor.Prune | skyfield/ephemerislib.py:70-73 | indexing an empty chain fails, roots that differ fail, and otherwise both chains lose the same number of leading segments |
| CommonAncestor.Connect | skyfield/ephemerislib.py:64-73 | `_connect` fails with an empty chain exactly when either code has no entry. It fails with no common center exactly when both have entries and the roots' centers differ. It succeeds exactly when both have entries and the roots' centers agree |
| CommonAncestor.ConnectStripsCommonPrefix | skyfield/ephemerislib.py:72-73 | on success both returned suffixes drop exactly the common prefix: the dropped parts are equal and the suffixes differ at their first target |
| CommonAncestor.ConnectPreservesTally | skyfield/ephemerislib.py:64-73 | tallying the pruned suffixes gives the same state as tallying the full chains, at every time |
| LightTime.FirstAccepting | skyfield/ephemerislib.py:125-128 | the first round that passes the tolerance test, with no earlier round passing it, or ten if none does |
| LightTime.FirstAcceptingIs | skyfield/ephemerislib.py:125-129 | a round that passes the test after no earlier round did is the round the loop breaks at |
| LightTime.Solve | skyfield/ephemerislib.py:120-136 | the loop's outcome succeeds exactly when some round below ten accepts. It is then the first such round, the light time computed in it, and the target state evaluated with the previous round's light time. Otherwise it is the `LightTimeDivergence` failure |
| LightTime.RunLightTime | skyfield/ephemerislib.py:121-136 | the loop itself, carrying the previous light time and the current target state from round to round and breaking on acceptance, computes exactly the outcome `Solve` describes |
| LightTime.StationaryConverges | skyfield/ephemerislib.py:124-128 | a target that does not move is accepted by round 1, at the light time of its one distance, when a zero delta counts as converged |
| LightTime.NeverConvergedFails | skyfield/ephemerislib.py:134-136 | a tolerance test that never accepts exhausts the ten rounds and fails |
| Ephemeris.BodyAt | skyfield/ephemerislib.py:22-28 | `Body.at` is the plain sum of the segment states along the body's root-first chain, tagged barycentric at the requested time |
| Ephemeris.BodyAtRoot | skyfield/ephemerislib.py:22-28 | a code with no segment sits at the origin with zero velocity |
| Ephemeris.BodyAtComposes | skyfield/ephemerislib.py:22-28 | a body's barycentric state is its center's barycentric state plus its own segment's offset |
| Ephemeris.GeometryOf | skyfield/ephemerislib.py:30-35 | `geometry_of` fails with an empty chain or no common center exactly as `_connect` does on the merged segments. It succeeds exactly when both codes have entries and their roots' centers agree, and then keeps the two codes as center and target |
| Ephemeris.DecodedUsesOwnSegments | skyfield/ephemerislib.py:31-33 | a decoded name is resolved in the caller's own segments: doubling them leaves the registry unchanged |
| Ephemeris.GeometryAt | skyfield/ephemerislib.py:97-101 | `Geometry.at` is tagged barycentric exactly when the center is code 0, otherwise ICRS, never astrometric, at the requested time |
| Ephemeris.GeometryIsDifference | skyfield/ephemerislib.py:30-35 | the geometric position is the target's barycentric state less the center's, both resolved in the merged segments |
| Ephemeris.ObserveSegments | skyfield/ephemerislib.py:38-44 | `observe` resolves in the caller's segments, extended at the end by the other body's segments, and in the caller's segments alone for a decoded name |
| Ephemeris.ObserveResolvesLikeGeometry | skyfield/ephemerislib.py:31-33 | `observe` looks up the same code as `geometry_of` for the other argument, and builds the same registry |
| Ephemeris.Observe | skyfield/ephemerislib.py:37-51 | `observe` fails on an empty chain exactly when either code has no entry. It succeeds exactly when both chains start at the barycenter, and otherwise fails for not being barycentric. On success it stores the two full, unpruned root-first chains |
| Ephemeris.LightProblem | skyfield/ephemerislib.py:120-131 | the loop's observer position is the center chain's sum at the nominal time, with the caller's numerics and nominal time |
| Ephemeris.SolutionAt | skyfield/ephemerislib.py:118-144 | `Solution.at` succeeds exactly when the light-time loop does. The center is tallied once at the nominal time, and its position and velocity are the observer's. The result is the accepted target state less the center's state, with the loop's light time, tagged barycentric exactly when the center is code 0 and astrometric otherwise |
| Ephemeris.SolutionAtFails | skyfield/ephemerislib.py:125-136 | `Solution.at` fails exactly when none of the ten rounds passes the tolerance test |
| Ephemeris.SolutionAtRounds | skyfield/ephemerislib.py:120-144 | on success, with `k` the first round that passes the test, the light time is estimate `k+1`, the observer's velocity is the center chain's summed velocity at the nominal time, and the result is round `k`'s target state less the observer's state |
| Ephemeris.LightProblemSums | skyfield/ephemerislib.py:120-131 | the observer is the center chain's sum at the nominal time, and each round's target is the target chain's sum at the nominal time less that round's estimate |
| Ephemeris.StationaryTargetConverges | skyfield/ephemerislib.py:118-138 | a target chain that does not move is observed at the light time of its one distance from the center |
| Scenarios.EarthRegistry | skyfield/ephemerislib.py:25 | two segments, 0 to 3 and 3 to 399, are filed under 3 and 399 and form an acyclic registry |
| Scenarios.EarthAtFive | skyfield/ephemerislib.py:22-28 | with segment 0 to 3 at `((t,0,0),(1,0,0))` and segment 3 to 399 at `((0,1,0),(0,0,0))`, body 399 at time 5 is at `(5,1,0)` moving at `(1,0,0)` |
| Scenarios.EarthChainSum | skyfield/ephemerislib.py:153-163 | the two-segment Earth chain sums to `((5,1,0),(1,0,0))` at time 5 |
| Scenarios.EarthChains | skyfield/ephemerislib.py:76-81 | in the Earth registry the chain to 3 is the Earth-Moon segment alone, and the chain to 399 is that segment followed by Earth's |
| Scenarios.EarthFromEarthMoon | skyfield/ephemerislib.py:64-73 | from code 3 to code 399 the shared segment is stripped, leaving only Earth's segment |
| Scenarios.EarthGeometryAt | skyfield/ephemerislib.py:97-101 | that geometry puts the Earth at its fixed offset `(0,1,0)` and tags it ICRS, because its center is not code 0 |
| Scenarios.LaterSegmentWins | skyfield/ephemerislib.py:25 | a third segment targeting 399 replaces the earlier one in the dictionary |

## Left out

- Floating point: `length_of`, `C_AUDAY` and the `1e-12` test with numpy
  `min`/`max` are the abstract `lightTimeOf` and `converged` functions.
  Nothing is proved about real convergence.
- Time scales: `JulianDate`, `takes_julian_date` and `.tdb` are left out.
  A time is an integer, and the target is re-tallied at `t - lighttime`
  on the same scale.
- `ephemeris.decode` is not part of this model. A name is given as its
  decoded code.
- The position classes and the `Distance`/`Velocity` unit wrappers become
  an enum tag with two vectors and a time.
- The `Observer` record is reduced to its position and velocity. Its
  `geocentric` flag is not modelled.
- The `_altaz_rotation` probe is not modelled. There `self.center` is an
  integer code, so the probe never succeeds.
- `Body.topos` and `Topos` are not part of this model.
- The `__str__` formatters are left out: they are text output only.
- Cycle detection: the source has none, and its walk loops forever when
  it reaches a cycle. Acyclicity is a precondition rather than an error,
  and it is required of the whole registry, not only of the codes the
  walk visits.
- In-place aliasing: `segments += body.segments` in `observe` extends the
  list in place. When that list is the ephemeris' own, every later call
  sees the longer list. The model treats the merge as a pure
  concatenation. Whether the mutation is visible depends on the
  ephemeris' container type, which is not part of this model.
- Ephemeris.GeometryOf: the success case states the two codes only. The
  stored chains are stated by `CommonAncestor.ConnectStripsCommonPrefix`,
  and their tally by `GeometryIsDifference`.
- Scalar times only: the source also accepts arrays of times, where the
  tolerance test takes the minimum and maximum over all deltas. The
  model's abstract `converged` covers a single delta.
