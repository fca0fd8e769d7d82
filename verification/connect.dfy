/** Relating two bodies through their nearest common ancestor
    (skyfield/ephemerislib.py, `_connect`). */
module CommonAncestor {
  import opened Vectors
  import opened Outcomes
  import opened Segments
  import opened Chains
  import opened Tallies

  /** Every segment of `c` is the registry's entry for its target, and each
      segment's center is the previous segment's target. Root-first chains
      and all their suffixes are linked. */
  ghost predicate Linked(reg: SegmentDict, c: seq<Segment>)
  {
    && (forall i :: 0 <= i < |c| ==> c[i].target in reg && reg[c[i].target] == c[i])
    && (forall i :: 0 < i < |c| ==> c[i].center == c[i - 1].target)
  }

  /** `sum(1 for s1, s2 in zip(a, b) if s1.target == s2.target)`. */
  function MatchCount(a: seq<Segment>, b: seq<Segment>): (n: nat)
    ensures n <= |a| && n <= |b|
  {
    if |a| == 0 || |b| == 0 then 0
    else (if a[0].target == b[0].target then 1 else 0) + MatchCount(a[1..], b[1..])
  }

  /** The length of the longest common prefix of `a` and `b`, comparing
      targets. */
  function CommonPrefix(a: seq<Segment>, b: seq<Segment>): (n: nat)
    ensures n <= |a| && n <= |b|
    ensures forall j :: 0 <= j < n ==> a[j].target == b[j].target
    ensures n < |a| && n < |b| ==> a[n].target != b[n].target
  {
    if |a| == 0 || |b| == 0 || a[0].target != b[0].target then 0
    else 1 + CommonPrefix(a[1..], b[1..])
  }

  /** In two linked chains, equal targets at one position force equal
      targets at every earlier position. */
  lemma {:induction false} MatchesAreDownwardClosed(reg: SegmentDict, a: seq<Segment>, b: seq<Segment>, k: nat, j: nat)
    requires Linked(reg, a) && Linked(reg, b)
    requires j <= k < |a| && k < |b|
    requires a[k].target == b[k].target
    ensures a[j].target == b[j].target
    decreases k
  {
    if j < k {
      assert a[k] == b[k];
      assert a[k - 1].target == b[k - 1].target;
      MatchesAreDownwardClosed(reg, a, b, k - 1, j);
    }
  }

  lemma {:induction false} NoMatchesCountZero(a: seq<Segment>, b: seq<Segment>)
    requires forall j :: 0 <= j < |a| && j < |b| ==> a[j].target != b[j].target
    ensures MatchCount(a, b) == 0
  {
    if |a| > 0 && |b| > 0 {
      assert forall j :: 0 <= j < |a| - 1 && j < |b| - 1 ==> a[1..][j] == a[j + 1] && b[1..][j] == b[j + 1];
      NoMatchesCountZero(a[1..], b[1..]);
    }
  }

  lemma SuffixLinked(reg: SegmentDict, c: seq<Segment>)
    requires Linked(reg, c) && |c| > 0
    ensures Linked(reg, c[1..])
  {
    assert forall i :: 0 <= i < |c| - 1 ==> c[1..][i] == c[i + 1];
  }

  /** For chains resolved from one registry, counting index-wise equal
      targets over the zip yields exactly the common-prefix length. */
  lemma {:induction false} MatchCountIsCommonPrefix(reg: SegmentDict, a: seq<Segment>, b: seq<Segment>)
    requires Linked(reg, a) && Linked(reg, b)
    ensures MatchCount(a, b) == CommonPrefix(a, b)
  {
    if |a| > 0 && |b| > 0 {
      if a[0].target == b[0].target {
        SuffixLinked(reg, a);
        SuffixLinked(reg, b);
        MatchCountIsCommonPrefix(reg, a[1..], b[1..]);
      } else {
        forall j | 0 <= j < |a| - 1 && j < |b| - 1
          ensures a[1..][j].target != b[1..][j].target
        {
          if a[j + 1].target == b[j + 1].target {
            MatchesAreDownwardClosed(reg, a, b, j + 1, 0);
          }
        }
        NoMatchesCountZero(a[1..], b[1..]);
      }
    }
  }

  lemma ChainsAreLinked(reg: SegmentDict, code: int)
    requires WellKeyed(reg) && Acyclic(reg)
    ensures Linked(reg, Chain(reg, code))
  {
    ChainIsChain(reg, code);
  }

  /** The two chains after the first-center check and the zip count. */
  function Prune(s1: seq<Segment>, s2: seq<Segment>): (r: Result<(seq<Segment>, seq<Segment>)>)
    ensures r.Failure? && r.error == EmptyChain <==> |s1| == 0 || |s2| == 0
    ensures r.Success? <==> |s1| > 0 && |s2| > 0 && s1[0].center == s2[0].center
    ensures r.Success? ==> exists i :: 0 <= i <= |s1| && i <= |s2| && r.value == (s1[i..], s2[i..])
  {
    if |s1| == 0 || |s2| == 0 then Failure(EmptyChain)
    else if s1[0].center != s2[0].center then Failure(NoCommonCenter)
    else
      var i := MatchCount(s1, s2);
      Success((s1[i..], s2[i..]))
  }

  /** `_connect` on a registry: resolve both root-first chains, reject
      different roots, and strip the shared prefix. */
  function Connect(reg: SegmentDict, code1: int, code2: int): (r: Result<(seq<Segment>, seq<Segment>)>)
    requires WellKeyed(reg) && Acyclic(reg)
    ensures r.Failure? && r.error == EmptyChain <==> code1 !in reg || code2 !in reg
    ensures r.Failure? && r.error == NoCommonCenter <==>
      code1 in reg && code2 in reg && Chain(reg, code1)[0].center != Chain(reg, code2)[0].center
    ensures r.Success? <==>
      code1 in reg && code2 in reg && Chain(reg, code1)[0].center == Chain(reg, code2)[0].center
  {
    ChainIsChain(reg, code1);
    ChainIsChain(reg, code2);
    Prune(Chain(reg, code1), Chain(reg, code2))
  }

  /** On success both suffixes drop exactly the common prefix, which is
      the same segments in both chains, and the suffixes part ways at
      their first segment. */
  lemma ConnectStripsCommonPrefix(reg: SegmentDict, code1: int, code2: int)
    requires WellKeyed(reg) && Acyclic(reg)
    requires Connect(reg, code1, code2).Success?
    ensures var c1, c2 := Chain(reg, code1), Chain(reg, code2);
      var i := CommonPrefix(c1, c2);
      && Connect(reg, code1, code2).value == (c1[i..], c2[i..])
      && c1[..i] == c2[..i]
      && (i < |c1| && i < |c2| ==> c1[i].target != c2[i].target)
  {
    var c1, c2 := Chain(reg, code1), Chain(reg, code2);
    ChainsAreLinked(reg, code1);
    ChainsAreLinked(reg, code2);
    MatchCountIsCommonPrefix(reg, c1, c2);
    SharedTargetsShareSegments(reg, c1, c2, CommonPrefix(c1, c2));
  }

  /** In two linked chains, equal targets up to `i` mean equal segments:
      each is the registry's one entry for that target. */
  lemma SharedTargetsShareSegments(reg: SegmentDict, a: seq<Segment>, b: seq<Segment>, i: nat)
    requires Linked(reg, a) && Linked(reg, b)
    requires i <= |a| && i <= |b|
    requires forall j :: 0 <= j < i ==> a[j].target == b[j].target
    ensures a[..i] == b[..i]
  {
    assert forall j :: 0 <= j < i ==> a[j] == reg[a[j].target] == b[j];
  }

  /** Pruning is an optimisation only: at every time the suffixes tally to
      the same state as the full chains. */
  lemma {:induction false} ConnectPreservesTally(reg: SegmentDict, code1: int, code2: int, t: int)
    requires WellKeyed(reg) && Acyclic(reg)
    requires Connect(reg, code1, code2).Success?
    ensures var r := Connect(reg, code1, code2).value;
      Tally(r.0, r.1, t) == Tally(Chain(reg, code1), Chain(reg, code2), t)
  {
    var c1, c2 := Chain(reg, code1), Chain(reg, code2);
    ConnectStripsCommonPrefix(reg, code1, code2);
    TallyDropsSharedPrefix(c1, c2, CommonPrefix(c1, c2), t);
  }
}
