/** Summing segment offsets (skyfield/ephemerislib.py, `_tally`). */
module Tallies {
  import opened Vectors
  import opened Segments
  import opened Chains

  /** Reference definition: the sum of every segment's state at time `t`. */
  function Sum(chain: seq<Segment>, t: int): State
  {
    if |chain| == 0 then Rest else Plus(chain[0].compute(t), Sum(chain[1..], t))
  }

  /** What `_tally(minus, plus, t)` returns: the sum over `plus` less the
      sum over `minus`. */
  function Tally(minus: seq<Segment>, plus: seq<Segment>, t: int): (r: State)
    ensures minus == plus ==> r == Rest
  {
    Minus(Sum(plus, t), Sum(minus, t))
  }

  /** `_tally`'s two loops: starting from zero, subtract each segment of
      `minus` in turn, then add each segment of `plus`, position and
      velocity separately. */
  method RunTally(minus: seq<Segment>, plus: seq<Segment>, t: int) returns (position: Vec, velocity: Vec)
    ensures State(position, velocity) == Tally(minus, plus, t)
  {
    position, velocity := Zero, Zero;
    for i := 0 to |minus|
      invariant State(position, velocity) == Minus(Rest, Sum(minus[..i], t))
    {
      var s := minus[i].compute(t);
      SumSnoc(minus, i, t);
      position := Sub(position, s.position);
      velocity := Sub(velocity, s.velocity);
    }
    assert minus[..|minus|] == minus;
    for i := 0 to |plus|
      invariant State(position, velocity) == Plus(Minus(Rest, Sum(minus, t)), Sum(plus[..i], t))
    {
      var s := plus[i].compute(t);
      SumSnoc(plus, i, t);
      position := Add(position, s.position);
      velocity := Add(velocity, s.velocity);
    }
    assert plus[..|plus|] == plus;
  }

  /** Extending a prefix by one segment adds that segment's state. */
  lemma SumSnoc(s: seq<Segment>, i: nat, t: int)
    requires i < |s|
    ensures Sum(s[..i + 1], t) == Plus(Sum(s[..i], t), s[i].compute(t))
  {
    assert s[..i + 1] == s[..i] + [s[i]];
    SumAppend(s[..i], [s[i]], t);
  }

  /** The sum is additive over concatenation. */
  lemma {:induction false} SumAppend(a: seq<Segment>, b: seq<Segment>, t: int)
    ensures Sum(a + b, t) == Plus(Sum(a, t), Sum(b, t))
  {
    if |a| == 0 {
      assert a + b == b;
    } else {
      assert (a + b)[1..] == a[1..] + b;
      SumAppend(a[1..], b, t);
    }
  }

  /** Two empty chains tally to zero. */
  lemma TallyEmpty(t: int)
    ensures Tally([], [], t) == Rest
  {
  }

  /** Tally is additive over concatenating the minus chains and the plus
      chains. */
  lemma {:induction false} TallyAppend(m1: seq<Segment>, m2: seq<Segment>, p1: seq<Segment>, p2: seq<Segment>, t: int)
    ensures Tally(m1 + m2, p1 + p2, t) == Plus(Tally(m1, p1, t), Tally(m2, p2, t))
  {
    SumAppend(m1, m2, t);
    SumAppend(p1, p2, t);
    Regroup(Sum(p1, t), Sum(p2, t), Sum(m1, t), Sum(m2, t));
  }

  /** A segment present on both sides cancels: a shared prefix of the two
      chains does not change the tally. */
  lemma {:induction false} TallyCancelsPrefix(prefix: seq<Segment>, minus: seq<Segment>, plus: seq<Segment>, t: int)
    ensures Tally(prefix + minus, prefix + plus, t) == Tally(minus, plus, t)
  {
    SumAppend(prefix, minus, t);
    SumAppend(prefix, plus, t);
    Cancel(Sum(prefix, t), Sum(plus, t), Sum(minus, t));
  }

  /** Two chains that agree on their first `i` segments tally as their
      suffixes from `i` do. */
  lemma {:induction false} TallyDropsSharedPrefix(c1: seq<Segment>, c2: seq<Segment>, i: nat, t: int)
    requires i <= |c1| && i <= |c2| && c1[..i] == c2[..i]
    ensures Tally(c1[i..], c2[i..], t) == Tally(c1, c2, t)
  {
    var prefix := c1[..i];
    assert c1 == prefix + c1[i..];
    assert c2 == prefix + c2[i..];
    TallyCancelsPrefix(prefix, c1[i..], c2[i..], t);
  }

  /** Summing the target-first walk or the root-first chain built by
      reversing it gives the same state. */
  lemma {:induction false} SumReverse(s: seq<Segment>, t: int)
    ensures Sum(Reverse(s), t) == Sum(s, t)
  {
    if |s| > 0 {
      assert Reverse(s) == Reverse(s[1..]) + [s[0]];
      SumAppend(Reverse(s[1..]), [s[0]], t);
      SumReverse(s[1..], t);
    }
  }

  /** Every segment of the chain returns the same state at every time. */
  ghost predicate Stationary(chain: seq<Segment>)
  {
    forall i, t1, t2 :: 0 <= i < |chain| ==> chain[i].compute(t1) == chain[i].compute(t2)
  }

  /** A chain of stationary segments sums to the same state at every time. */
  lemma {:induction false} SumStationary(chain: seq<Segment>, t1: int, t2: int)
    requires Stationary(chain)
    ensures Sum(chain, t1) == Sum(chain, t2)
  {
    if |chain| > 0 {
      assert chain[0].compute(t1) == chain[0].compute(t2);
      assert Stationary(chain[1..]) by {
        forall i, u1, u2 | 0 <= i < |chain| - 1
          ensures chain[1..][i].compute(u1) == chain[1..][i].compute(u2)
        {
          assert chain[1..][i] == chain[i + 1];
        }
      }
      SumStationary(chain[1..], t1, t2);
    }
  }

  /** Tallying a plus chain alone is its sum. */
  lemma TallyPlusOnly(chain: seq<Segment>, t: int)
    ensures Tally([], chain, t) == Sum(chain, t)
  {
  }

  /** The chain to a registered body sums to the chain to its center plus
      the body's own segment. */
  lemma ChainSumStep(reg: SegmentDict, code: int, t: int)
    requires Acyclic(reg) && code in reg
    ensures Sum(Chain(reg, code), t) == Plus(Sum(Chain(reg, reg[code].center), t), reg[code].compute(t))
  {
    ChainStep(reg, code);
    SumAppend(Chain(reg, reg[code].center), [reg[code]], t);
  }

  /** The root-first chain and the walk it reverses sum alike. */
  lemma SumChainIsSumWalk(reg: SegmentDict, code: int, t: int)
    requires Acyclic(reg)
    ensures Sum(Chain(reg, code), t) == Sum(Walk(reg, code), t)
  {
    SumReverse(Walk(reg, code), t);
  }
}
