/** The residual-graph bookkeeping both Edmonds–Karp variants share: the bottleneck of an augmenting
    path and the update of one path vertex's residual capacities. */
module Residual {
  import opened Seqs

  /** `std::numeric_limits<int>::max()`, the identity of the `minCap` aggregator. */
  const IntMax: int := 0x7fff_ffff

  /** The `minCap` aggregator over the bottleneck values of the path vertices, folded in any order:
      the smallest of them and IntMax. */
  method MinOver(values: map<int, int>) returns (m: int)
    ensures m <= IntMax
    ensures forall k :: k in values ==> m <= values[k]
    ensures m == IntMax || exists k :: k in values && m == values[k]
  {
    m := IntMax;
    var todo := values.Keys;
    ghost var done: set<int> := {};
    ghost var argMin := 0;
    while todo != {}
      invariant done + todo == values.Keys
      invariant m <= IntMax
      invariant forall k :: k in done ==> m <= values[k]
      invariant m == IntMax || (argMin in values && m == values[argMin])
      decreases todo
    {
      Member(todo);
      var k :| k in todo;
      if values[k] < m {
        m := values[k];
        argMin := k;
      }
      todo := todo - {k};
      done := done + {k};
    }
  }

  /** Capacity towards `w`, or 0 where `operator[]` would create the entry. */
  function CapOf(resCaps: map<int, int>, w: int): int {
    if w in resCaps then resCaps[w] else 0
  }

  /** `resCaps[pre] += minCap`. */
  function Raise(resCaps: map<int, int>, pre: int, minCap: int): (r: map<int, int>)
    ensures r.Keys == resCaps.Keys + {pre}
    ensures r[pre] == CapOf(resCaps, pre) + minCap
    ensures forall k :: k in resCaps && k != pre ==> r[k] == resCaps[k]
  {
    resCaps[pre := CapOf(resCaps, pre) + minCap]
  }

  /** What the update asserts: the successor entry exists and does not go below 0. */
  predicate CanAugment(resCaps: map<int, int>, pre: int, suc: int, minCap: int) {
    suc in resCaps && Raise(resCaps, pre, minCap)[suc] - minCap >= 0
  }

  /** The update of one path vertex, whose path neighbours are `pre` and `suc`: the backward residual
      capacity grows by minCap, the forward one shrinks by it and its entry is erased when it reaches 0;
      no other entry changes. */
  function Augment(resCaps: map<int, int>, pre: int, suc: int, minCap: int): (r: map<int, int>)
    requires CanAugment(resCaps, pre, suc, minCap)
    ensures pre != suc ==> pre in r && r[pre] == CapOf(resCaps, pre) + minCap
    ensures pre != suc ==> (suc in r <==> resCaps[suc] != minCap)
    ensures pre != suc && suc in r ==> r[suc] == resCaps[suc] - minCap
    ensures forall k :: k != pre && k != suc ==> (k in r <==> k in resCaps) && (k in r ==> r[k] == resCaps[k])
  {
    var raised := Raise(resCaps, pre, minCap);
    var left := raised[suc] - minCap;
    if left == 0 then raised - {suc} else raised[suc := left]
  }

  /** With distinct path neighbours and a bottleneck no larger than the forward capacity, the assertion
      of the update holds, and the two capacities keep their sum. */
  lemma AugmentConserves(resCaps: map<int, int>, pre: int, suc: int, minCap: int)
    requires pre != suc && suc in resCaps && minCap <= resCaps[suc]
    ensures CanAugment(resCaps, pre, suc, minCap)
    ensures var r := Augment(resCaps, pre, suc, minCap);
      CapOf(r, pre) + CapOf(r, suc) == CapOf(resCaps, pre) + CapOf(resCaps, suc)
  {
    var r := Augment(resCaps, pre, suc, minCap);
    assert Raise(resCaps, pre, minCap)[suc] == resCaps[suc];
    assert CapOf(r, suc) == resCaps[suc] - minCap;
  }

  // ---------------------------------------------------------------------------------------------
  // Augmenting paths

  /** The residual capacities of every vertex, by id. */
  type Caps = map<int, map<int, int>>

  /** The edge from `p[i]` to `p[i + 1]` is residual. */
  ghost predicate StepOn(c: Caps, p: seq<int>, i: int) {
    0 <= i < |p| - 1 && p[i] in c && p[i + 1] in c[p[i]]
  }

  /** An augmenting path: from the source to the sink over residual edges, without repeated vertices. */
  ghost predicate AugmentingPath(c: Caps, srcV: int, dstV: int, p: seq<int>) {
    && |p| >= 2 && p[0] == srcV && p[|p| - 1] == dstV
    && (forall i :: 0 <= i < |p| ==> p[i] in c)
    && (forall i :: 0 <= i < |p| - 1 ==> StepOn(c, p, i))
    && NoDup(p)
  }

  /** The path neighbour before `p[i]`, -1 at the source. */
  function PreOn(p: seq<int>, i: int): int
    requires 0 <= i < |p|
  {
    if i == 0 then -1 else p[i - 1]
  }

  /** Capacity of the residual edge from `u` to `w`, 0 where there is none. */
  ghost function EdgeCap(c: Caps, u: int, w: int): int {
    if u in c then CapOf(c[u], w) else 0
  }

  /** Capacity of the `i`-th edge of `p`. */
  ghost function EdgeCapAt(c: Caps, p: seq<int>, i: int): int
    requires 0 <= i < |p| - 1
  {
    EdgeCap(c, p[i], p[i + 1])
  }

  /** The bottleneck of a path: its smallest edge capacity, and IntMax for a path without edges. */
  ghost function PathMin(c: Caps, p: seq<int>): int
    decreases |p|
  {
    if |p| < 2 then IntMax else Min(EdgeCapAt(c, p, 0), PathMin(c, p[1..]))
  }

  lemma {:induction false} PathMinBounds(c: Caps, p: seq<int>)
    ensures PathMin(c, p) <= IntMax
    ensures forall i :: 0 <= i < |p| - 1 ==> PathMin(c, p) <= EdgeCapAt(c, p, i)
    ensures PathMin(c, p) == IntMax || exists i :: 0 <= i < |p| - 1 && PathMin(c, p) == EdgeCapAt(c, p, i)
    decreases |p|
  {
    if |p| >= 2 {
      var t := p[1..];
      PathMinBounds(c, t);
      forall i | 0 < i < |p| - 1 ensures PathMin(c, t) <= EdgeCapAt(c, p, i) {
        assert p[i] == t[i - 1] && p[i + 1] == t[i];
        assert EdgeCapAt(c, p, i) == EdgeCapAt(c, t, i - 1);
      }
      if PathMin(c, p) != IntMax && PathMin(c, p) != EdgeCapAt(c, p, 0) {
        var i :| 0 <= i < |t| - 1 && PathMin(c, t) == EdgeCapAt(c, t, i);
        assert t[i] == p[i + 1] && t[i + 1] == p[i + 2];
        assert EdgeCapAt(c, t, i) == EdgeCapAt(c, p, i + 1);
      }
    }
  }

  /** A value that is at most IntMax and every edge capacity of a path, and is IntMax or one of
      them, is the bottleneck of the path. */
  lemma PathMinIs(c: Caps, p: seq<int>, m: int)
    requires m <= IntMax
    requires forall i :: 0 <= i < |p| - 1 ==> m <= EdgeCapAt(c, p, i)
    requires m == IntMax || exists i :: 0 <= i < |p| - 1 && m == EdgeCapAt(c, p, i)
    ensures m == PathMin(c, p)
  {
    PathMinBounds(c, p);
  }

  /** The update of the `i`-th vertex of `p` passes its assertions. */
  ghost predicate CanAugmentAt(c: Caps, p: seq<int>, i: int, flow: int) {
    0 <= i < |p| - 1 && p[i] in c && CanAugment(c[p[i]], PreOn(p, i), p[i + 1], flow)
  }

  /** The `i`-th vertex of `p` has pushed `flow` towards `p[i + 1]`. */
  ghost predicate PushedAt(c: Caps, c': Caps, p: seq<int>, i: int, flow: int) {
    && CanAugmentAt(c, p, i, flow) && p[i] in c'
    && c'[p[i]] == Augment(c[p[i]], PreOn(p, i), p[i + 1], flow)
  }

  /** `c'` is `c` with `flow` pushed along `p`: each path vertex but the sink raises the capacity
      towards its path predecessor (-1 at the source) and lowers the one towards its successor; the
      sink and every vertex off the path keep their capacities. */
  ghost predicate Augmented(c: Caps, c': Caps, p: seq<int>, flow: int)
    requires |p| >= 1
  {
    && c'.Keys == c.Keys
    && (forall i :: 0 <= i < |p| - 1 ==> PushedAt(c, c', p, i, flow))
    && (forall v :: v in c && v !in p[..|p| - 1] ==> c'[v] == c[v])
  }

  /** Along an augmenting path that avoids the -1 mark, a flow no larger than any edge capacity
      passes the update's assertions at every path vertex. */
  lemma CanUpdate(c: Caps, p: seq<int>, flow: int)
    requires -1 !in c && |p| >= 2 && AugmentingPath(c, p[0], p[|p| - 1], p)
    requires forall i :: 0 <= i < |p| - 1 ==> flow <= EdgeCapAt(c, p, i)
    ensures forall i :: 0 <= i < |p| - 1 ==> CanAugmentAt(c, p, i, flow)
  {
    forall i | 0 <= i < |p| - 1 ensures CanAugmentAt(c, p, i, flow) {
      assert StepOn(c, p, i);
      assert PreOn(p, i) != p[i + 1] by {
        if i > 0 { assert p[i - 1] != p[i + 1]; }
      }
      assert flow <= EdgeCapAt(c, p, i);
      AugmentConserves(c[p[i]], PreOn(p, i), p[i + 1], flow);
    }
  }

  // ---------------------------------------------------------------------------------------------
  // The flow loop

  /** What one call of `BFS` does to the residual capacities: nothing, with result 0, or the push of
      its result along some augmenting path, of which it is the bottleneck. */
  ghost predicate AugmentationStep(c: Caps, c': Caps, srcV: int, dstV: int, flow: int) {
    && c'.Keys == c.Keys
    && ((flow == 0 && c' == c)
        || exists p :: AugmentingPath(c, srcV, dstV, p) && flow == PathMin(c, p) && Augmented(c, c', p, flow))
  }

  /** Each residual graph of the run is the outcome of one augmentation step from the one before. */
  ghost predicate Steps(caps: seq<Caps>, flows: seq<int>, srcV: int, dstV: int)
    requires |caps| == |flows| + 1
  {
    forall i :: 0 <= i < |flows| ==> AugmentationStep(caps[i], caps[i + 1], srcV, dstV, flows[i])
  }

  /** `caps` leads from `c` to `c'` by the augmentation steps that returned `flows`. */
  ghost predicate Run(caps: seq<Caps>, flows: seq<int>, c: Caps, c': Caps, srcV: int, dstV: int) {
    && |flows| >= 1 && |caps| == |flows| + 1 && caps[0] == c && caps[|flows|] == c'
    && Steps(caps, flows, srcV, dstV)
  }

  lemma RunAppend(caps: seq<Caps>, flows: seq<int>, c: Caps, c': Caps, srcV: int, dstV: int, c2: Caps, flow: int)
    requires Run(caps, flows, c, c', srcV, dstV)
    requires AugmentationStep(c', c2, srcV, dstV, flow)
    ensures Run(caps + [c2], flows + [flow], c, c2, srcV, dstV)
  {
    var cs, fs := caps + [c2], flows + [flow];
    forall i | 0 <= i < |fs| ensures AugmentationStep(cs[i], cs[i + 1], srcV, dstV, fs[i]) {
      if i < |flows| {
        assert cs[i] == caps[i] && cs[i + 1] == caps[i + 1] && fs[i] == flows[i];
      }
    }
  }

  lemma LastAppend(flows: seq<int>, flow: int)
    requires forall i :: 0 <= i < |flows| ==> flows[i] > 0
    ensures (flows + [flow])[|flows|] == flow
    ensures forall i :: 0 <= i < |flows| ==> (flows + [flow])[i] > 0
  {
  }

  /** `totFlow`: the results of the augmentations added up. */
  function Sum(s: seq<int>): int {
    if s == [] then 0 else Sum(s[..|s| - 1]) + s[|s| - 1]
  }

  lemma SumAppend(s: seq<int>, x: int)
    ensures Sum(s + [x]) == Sum(s) + x
  {
    assert (s + [x])[..|s|] == s;
  }
}
