/** Worked examples: the Earth-from-barycenter chain of two segments. */
module Scenarios {
  import opened Vectors
  import opened Outcomes
  import opened Segments
  import opened Chains
  import opened Tallies
  import opened CommonAncestor
  import opened Ephemeris

  /** The Earth-Moon barycenter (3) moving along x around the barycenter. */
  const EarthMoon: Segment := Segment(0, 3, t => State(Vec(t, 0, 0), Vec(1, 0, 0)))

  /** The Earth (399) at a fixed offset from the Earth-Moon barycenter. */
  const Earth: Segment := Segment(3, 399, t => State(Vec(0, 1, 0), Vec(0, 0, 0)))

  /** Registering the two segments files each under its target, and the
      walk from either code reaches the barycenter. */
  lemma EarthRegistry()
    ensures Registry([EarthMoon, Earth]) == map[3 := EarthMoon, 399 := Earth]
    ensures Acyclic(Registry([EarthMoon, Earth]))
  {
    assert [EarthMoon][..0] == [];
    assert Registry([EarthMoon]) == map[3 := EarthMoon];
    assert [EarthMoon, Earth][..1] == [EarthMoon];
    assert Ranked(map[3 := EarthMoon, 399 := Earth], map[3 := 0, 399 := 1]);
  }

  /** The chain to 3 is the Earth-Moon segment alone, and the chain to
      399 adds the Earth's segment after it. */
  lemma EarthChains()
    ensures Acyclic(Registry([EarthMoon, Earth]))
    ensures Chain(Registry([EarthMoon, Earth]), 3) == [EarthMoon]
    ensures Chain(Registry([EarthMoon, Earth]), 399) == [EarthMoon, Earth]
  {
    EarthRegistry();
    var reg := Registry([EarthMoon, Earth]);
    assert Walk(reg, 0) == [];
    assert Walk(reg, 3) == [EarthMoon];
    assert Walk(reg, 399) == [Earth, EarthMoon];
  }

  /** At time 5 the Earth is at (5, 1, 0) moving at (1, 0, 0): the sum of
      its chain from the barycenter. */
  lemma EarthAtFive()
    ensures Acyclic(Registry([EarthMoon, Earth]))
    ensures BodyAt(Body([EarthMoon, Earth], 399), 5) == Position(Barycentric, Vec(5, 1, 0), Vec(1, 0, 0), 5)
  {
    EarthChains();
    EarthChainSum();
  }

  /** The two segment states at time 5 add up to (5, 1, 0) and (1, 0, 0). */
  lemma EarthChainSum()
    ensures Sum([EarthMoon, Earth], 5) == State(Vec(5, 1, 0), Vec(1, 0, 0))
  {
    assert [EarthMoon, Earth][1..] == [Earth];
    assert [Earth][1..] == [];
    assert Sum([Earth], 5) == State(Vec(0, 1, 0), Vec(0, 0, 0));
    assert EarthMoon.compute(5) == State(Vec(5, 0, 0), Vec(1, 0, 0));
  }

  /** Seen from the Earth-Moon barycenter the shared segment cancels: the
      geometry keeps only the Earth's own segment. */
  lemma EarthFromEarthMoon()
    ensures Acyclic(Registry(Every(Body([EarthMoon, Earth], 3), Decoded(399))))
    ensures GeometryOf(Body([EarthMoon, Earth], 3), Decoded(399)) == Success(Geometry(3, 399, [], [Earth]))
  {
    DecodedUsesOwnSegments(Body([EarthMoon, Earth], 3), 399);
    EarthChains();
    assert MatchCount([EarthMoon], [EarthMoon, Earth]) == 1;
  }

  /** That geometry is the Earth's fixed offset, tagged ICRS because its
      center is not the barycenter. */
  lemma EarthGeometryAt(t: int)
    ensures GeometryAt(Geometry(3, 399, [], [Earth]), t) == Position(ICRS, Vec(0, 1, 0), Vec(0, 0, 0), t)
  {
    assert Sum([Earth], t) == State(Vec(0, 1, 0), Vec(0, 0, 0)) by {
      assert [Earth][1..] == [];
    }
  }

  /** A later segment for the same target replaces the earlier one. */
  lemma LaterSegmentWins(s: Segment)
    requires s.target == 399
    ensures Registry([EarthMoon, Earth, s]) == map[3 := EarthMoon, 399 := s]
  {
    assert [EarthMoon][..0] == [];
    assert Registry([EarthMoon]) == map[3 := EarthMoon];
    assert [EarthMoon, Earth][..1] == [EarthMoon];
    assert Registry([EarthMoon, Earth]) == map[3 := EarthMoon, 399 := Earth];
    assert [EarthMoon, Earth, s][..2] == [EarthMoon, Earth];
  }
}
