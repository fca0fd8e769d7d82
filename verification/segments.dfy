/** Segments and the registry built from a list of them
    (skyfield/ephemerislib.py, `Segment` and the `dict(...)` constructions). */
module Segments {
  import opened Vectors

  /** One edge of the ephemeris: `compute(t)` is the position and velocity
      of `target` relative to `center` at time `t`. */
  datatype Segment = Segment(center: int, target: int, compute: int -> State)

  type SegmentDict = map<int, Segment>

  /** Every entry is filed under its own target code. */
  predicate WellKeyed(reg: SegmentDict)
  {
    forall k :: k in reg ==> reg[k].target == k
  }

  /** `i` is the position of the last segment in `segs` whose target is `k`. */
  predicate IsLastWith(segs: seq<Segment>, i: int, k: int)
  {
    && 0 <= i < |segs|
    && segs[i].target == k
    && forall j :: i < j < |segs| ==> segs[j].target != k
  }

  /** The index of the last segment with target `k`, or -1 when none has. */
  function LastIndex(segs: seq<Segment>, k: int): (i: int)
    ensures -1 <= i < |segs|
    ensures i >= 0 ==> IsLastWith(segs, i, k)
    ensures i < 0 ==> forall j :: 0 <= j < |segs| ==> segs[j].target != k
  {
    if |segs| == 0 then -1
    else if segs[|segs| - 1].target == k then |segs| - 1
    else LastIndex(segs[..|segs| - 1], k)
  }

  /** `dict((segment.target, segment) for segment in segs)`: inserting the
      segments left to right, so a later segment replaces an earlier one
      with the same target. */
  function Registry(segs: seq<Segment>): (reg: SegmentDict)
    ensures WellKeyed(reg)
  {
    if |segs| == 0 then map[]
    else Registry(segs[..|segs| - 1])[segs[|segs| - 1].target := segs[|segs| - 1]]
  }

  /** Last wins: a code is a key exactly when some segment targets it, and
      its entry is the last such segment. */
  lemma {:induction false} RegistryLastWins(segs: seq<Segment>)
    ensures forall k :: k in Registry(segs) <==> LastIndex(segs, k) >= 0
    ensures forall k :: k in Registry(segs) ==> Registry(segs)[k] == segs[LastIndex(segs, k)]
  {
    if |segs| > 0 {
      RegistryLastWins(segs[..|segs| - 1]);
    }
  }

  /** Concatenating two segment lists builds the union of their registries,
      the second list winning on a shared target: this is what
      `self.segments + body.segments` means for the merged dictionary. */
  lemma {:induction false} RegistryAppend(a: seq<Segment>, b: seq<Segment>)
    ensures Registry(a + b) == Registry(a) + Registry(b)
  {
    if |b| == 0 {
      assert a + b == a;
    } else {
      var b' := b[..|b| - 1];
      assert (a + b)[..|a + b| - 1] == a + b';
      assert (a + b)[|a + b| - 1] == b[|b| - 1];
      RegistryAppend(a, b');
    }
  }

}
