/** Following segments from a body back to the root
    (skyfield/ephemerislib.py, `_center` and the `[::-1]` reversals). */
module Chains {
  import opened Segments

  /** `rank` decreases along every step from a target to a center that is
      itself registered: a witness that following centers terminates. */
  ghost predicate Ranked(reg: SegmentDict, rank: map<int, nat>)
  {
    forall k :: k in reg ==>
      && k in rank
      && (reg[k].center in reg ==> reg[k].center in rank && rank[reg[k].center] < rank[k])
  }

  /** The registry has no cycle of target-to-center steps. The source does
      not check this: its walk loops forever when it reaches a cycle. The
      condition covers the whole registry, so it is stronger than needed:
      a cycle that no walk reaches is excluded too. */
  ghost predicate Acyclic(reg: SegmentDict)
  {
    exists rank :: Ranked(reg, rank)
  }

  ghost function RankOf(reg: SegmentDict): (rank: map<int, nat>)
    requires Acyclic(reg)
    ensures Ranked(reg, rank)
  {
    var rank :| Ranked(reg, rank); rank
  }

  ghost function Depth(reg: SegmentDict, code: int): nat
    requires Acyclic(reg)
  {
    if code in reg then RankOf(reg)[code] + 1 else 0
  }

  /** The walk of `_center`: segments from `code` towards the root,
      target first, stopping at the first code with no entry. */
  function Walk(reg: SegmentDict, code: int): (w: seq<Segment>)
    requires Acyclic(reg)
    ensures |w| == 0 <==> code !in reg
    ensures |w| > 0 ==> w[0] == reg[code] && w[|w| - 1].center !in reg
    decreases Depth(reg, code)
  {
    if code in reg then [reg[code]] + Walk(reg, reg[code].center) else []
  }

  /** `w` is a target-first walk from `code` in `reg`: it starts at the
      entry for `code`, each step goes to the entry for the previous
      center, and it ends exactly at a center with no entry. */
  ghost predicate IsWalkFrom(reg: SegmentDict, code: int, w: seq<Segment>)
  {
    && (|w| == 0 <==> code !in reg)
    && (|w| > 0 ==> w[0].target == code)
    && (forall i :: 0 <= i < |w| ==> w[i].target in reg && reg[w[i].target] == w[i])
    && (forall i :: 0 < i < |w| ==> w[i].target == w[i - 1].center)
    && (|w| > 0 ==> w[|w| - 1].center !in reg)
  }

  /** Linkage and termination of `_center` in a registry whose entries
      are filed under their targets. */
  lemma {:induction false} WalkIsWalk(reg: SegmentDict, code: int)
    requires WellKeyed(reg) && Acyclic(reg)
    ensures IsWalkFrom(reg, code, Walk(reg, code))
    decreases Depth(reg, code)
  {
    if code in reg {
      var c := reg[code].center;
      WalkIsWalk(reg, c);
      var w := Walk(reg, code);
      var rest := Walk(reg, c);
      assert w == [reg[code]] + rest;
      forall i | 0 < i < |w|
        ensures w[i].target == w[i - 1].center
      {
        if i > 1 {
          assert w[i] == rest[i - 1] && w[i - 1] == rest[i - 2];
        }
      }
    }
  }

  /** The properties of `IsWalkFrom` pin the walk down: nothing else
      satisfies them. */
  lemma {:induction false} WalkUnique(reg: SegmentDict, code: int, w: seq<Segment>)
    requires WellKeyed(reg) && Acyclic(reg)
    requires IsWalkFrom(reg, code, w)
    ensures w == Walk(reg, code)
    decreases Depth(reg, code)
  {
    if code in reg {
      var c := reg[code].center;
      var rest := w[1..];
      assert w[0] == reg[code];
      if |rest| > 0 {
        assert rest[0].target == c;
      } else {
        assert c !in reg;
      }
      forall i | 0 < i < |rest|
        ensures rest[i].target == rest[i - 1].center
      {
        assert rest[i] == w[i + 1];
      }
      assert IsWalkFrom(reg, c, rest);
      WalkUnique(reg, c, rest);
      assert w == [w[0]] + rest;
    }
  }

  /** Python's `[::-1]`. */
  function Reverse<T>(s: seq<T>): (r: seq<T>)
    ensures |r| == |s|
    ensures forall i :: 0 <= i < |s| ==> r[i] == s[|s| - 1 - i]
  {
    if |s| == 0 then [] else Reverse(s[1..]) + [s[0]]
  }

  /** `list(_center(code, segment_dict))[::-1]`: the root-first chain. */
  function Chain(reg: SegmentDict, code: int): (c: seq<Segment>)
    requires Acyclic(reg)
    ensures |c| == 0 <==> code !in reg
    ensures |c| > 0 ==> c[|c| - 1] == reg[code] && c[0].center !in reg
  {
    Reverse(Walk(reg, code))
  }

  /** `c` is a root-first chain ending at `code`: it starts at a center
      with no entry, each segment's center is the previous segment's
      target, every segment is the registry's entry for its target, and
      the last target is `code`. */
  ghost predicate IsChainTo(reg: SegmentDict, code: int, c: seq<Segment>)
  {
    && (|c| == 0 <==> code !in reg)
    && (|c| > 0 ==> c[|c| - 1].target == code && c[0].center !in reg)
    && (forall i :: 0 <= i < |c| ==> c[i].target in reg && reg[c[i].target] == c[i])
    && (forall i :: 0 < i < |c| ==> c[i].center == c[i - 1].target)
  }

  /** The reversed walk is a root-first chain to `code`. */
  lemma ChainIsChain(reg: SegmentDict, code: int)
    requires WellKeyed(reg) && Acyclic(reg)
    ensures IsChainTo(reg, code, Chain(reg, code))
  {
    WalkIsWalk(reg, code);
    var w := Walk(reg, code);
    var c := Chain(reg, code);
    forall i | 0 < i < |c|
      ensures c[i].center == c[i - 1].target
    {
      assert c[i] == w[|w| - 1 - i] && c[i - 1] == w[|w| - 1 - (i - 1)];
    }
  }

  /** The chain to a registered body is the chain to its center followed
      by the body's own segment. */
  lemma ChainStep(reg: SegmentDict, code: int)
    requires Acyclic(reg) && code in reg
    ensures Chain(reg, code) == Chain(reg, reg[code].center) + [reg[code]]
  {
    var w := Walk(reg, code);
    assert w[1..] == Walk(reg, reg[code].center);
  }
}
