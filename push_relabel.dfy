/** The push–relabel max-flow example: the preflow initialisation and one vertex's step of the main
    loop (absorb the inflows, push to lower neighbours, relabel when excess is left). Messages between
    vertices are per-destination inboxes; the framework's rounds become loops over the vertex list. */
module PushRelabel {
  import opened Seqs
  import opened Residual
  import opened Inboxes

  /** `FlowMsgT`: a flow value and a height. */
  datatype FlowMsg = FlowMsg(v: int, h: int)

  /** `FlowT`: the capacity of the edge to a neighbour and what is known of it: the flow on it
      (positive means outgoing) and the neighbour's height. */
  datatype Flow = Flow(c: int, fm: FlowMsg)

  /** `VertexPR`: the loaded capacities, the height, the excess flow and the preflow per neighbour. */
  datatype Vertex = Vertex(caps: seq<(int, int)>, height: int, excess: int, preflows: map<int, Flow>)

  /** A flow message: (sender, (value, sender's height)). */
  type Inflow = (int, FlowMsg)

  /** A height message: (sender, sender's height). */
  type HeightMsg = (int, int)

  // ---------------------------------------------------------------------------------------------
  // Sums over maps

  /** The sum of the values of a map, taken one key at a time. */
  ghost function MapSum(m: map<int, int>): int
    decreases |m|
  {
    if m == map[] then 0
    else
      var k := Pick(m.Keys);
      m[k] + MapSum(m - {k})
  }

  /** Any key can be taken first. */
  lemma {:induction false} MapSumRemove(m: map<int, int>, k: int)
    requires k in m
    ensures MapSum(m) == m[k] + MapSum(m - {k})
    decreases |m|
  {
    var j := Pick(m.Keys);
    if j != k {
      var mj, mk := m - {j}, m - {k};
      MapSumRemove(mj, k);
      MapSumRemove(mk, j);
      assert mj - {k} == mk - {j};
    }
  }

  lemma MapSumUpdate(m: map<int, int>, k: int, x: int)
    ensures MapSum(m[k := x]) == MapSum(m) - (if k in m then m[k] else 0) + x
  {
    var m' := m[k := x];
    MapSumRemove(m', k);
    assert m' - {k} == m - {k};
    if k in m {
      MapSumRemove(m, k);
    } else {
      assert m - {k} == m;
    }
  }

  /** The flows on the edges of a vertex, by neighbour. */
  ghost function FlowValues(pf: map<int, Flow>): map<int, int> {
    map w | w in pf :: pf[w].fm.v
  }

  /** The net flow out of a vertex. */
  ghost function NetOut(pf: map<int, Flow>): int {
    MapSum(FlowValues(pf))
  }

  lemma NetOutUpdate(pf: map<int, Flow>, w: int, f: Flow)
    ensures NetOut(pf[w := f]) == NetOut(pf) - (if w in pf then pf[w].fm.v else 0) + f.fm.v
  {
    var m := FlowValues(pf);
    assert FlowValues(pf[w := f]) == m[w := f.fm.v];
    MapSumUpdate(m, w, f.fm.v);
  }

  /** A map whose values are all 0 sums to 0. */
  lemma {:induction false} MapSumZero(m: map<int, int>)
    requires forall k :: k in m ==> m[k] == 0
    ensures MapSum(m) == 0
    decreases |m|
  {
    if m != map[] {
      MapSumZero(m - {Pick(m.Keys)});
    }
  }

  /** A map with a negative sum has a negative value. */
  lemma {:induction false} MapSumNegative(m: map<int, int>)
    requires MapSum(m) < 0
    ensures exists k :: k in m && m[k] < 0
    decreases |m|
  {
    var k := Pick(m.Keys);
    if m[k] >= 0 {
      MapSumNegative(m - {k});
      var j :| j in m - {k} && (m - {k})[j] < 0;
    }
  }

  // ---------------------------------------------------------------------------------------------
  // Initialisation

  /** `j` is the first position of `caps` naming the neighbour `w`. */
  ghost predicate FirstAt(caps: seq<(int, int)>, w: int, j: int) {
    0 <= j < |caps| && caps[j].0 == w && forall k :: 0 <= k < j ==> caps[k].0 != w
  }

  /** The neighbours `caps` names. */
  function CapIds(caps: seq<(int, int)>): set<int> {
    set j | 0 <= j < |caps| :: caps[j].0
  }

  /** The initial flow messages of the source `src` to `w`: one per entry of `caps` naming `w`, in
      order, carrying the capacity and the height vNum. */
  function Saturating(caps: seq<(int, int)>, w: int, src: int, vNum: int): seq<Inflow>
    decreases |caps|
  {
    if caps == [] then []
    else
      var last := caps[|caps| - 1];
      Saturating(caps[..|caps| - 1], w, src, vNum) + (if last.0 == w then [(src, FlowMsg(last.1, vNum))] else [])
  }

  /** The preflow of a neighbour first named at `caps[j]`: full for the source, empty otherwise, with
      height 0. */
  function InitFlow(c: int, isSource: bool): Flow {
    Flow(c, FlowMsg(if isSource then c else 0, 0))
  }

  /** The initialised vertex: excess 0, height vNum at the source and 0 elsewhere, and one preflow per
      named neighbour, from the first entry naming it (`emplace` keeps the first). */
  ghost predicate Initialised(caps: seq<(int, int)>, isSource: bool, vNum: int, x: Vertex) {
    && x.caps == caps && x.excess == 0 && x.height == (if isSource then vNum else 0)
    && x.preflows.Keys == CapIds(caps)
    && forall w :: w in x.preflows ==> exists j :: FirstAt(caps, w, j) && x.preflows[w] == InitFlow(caps[j].1, isSource)
  }

  /** The initial round's lambda on one vertex. The source saturates every out-edge and sends the
      flow to the neighbour with its height. */
  method InitVertex(v: int, caps: seq<(int, int)>, isSource: bool, vNum: int, box: Inbox<Inflow>)
    returns (x: Vertex, box': Inbox<Inflow>)
    ensures Initialised(caps, isSource, vNum, x)
    ensures forall a :: InboxOf(box', a) == InboxOf(box, a) + (if isSource then Saturating(caps, a, v, vNum) else [])
  {
    var pf: map<int, Flow> := map[];
    ghost var first: map<int, int> := map[];
    box' := box;
    var i := 0;
    while i < |caps|
      invariant 0 <= i <= |caps|
      invariant EmplacedSoFar(caps, isSource, i, pf, first)
      invariant SaturatedSoFar(caps, isSource, i, v, vNum, box, box')
    {
      var w, c := caps[i].0, caps[i].1;
      EmplaceStep(caps, isSource, i, pf, first);
      SaturateStep(caps, isSource, i, v, vNum, box, box');
      if w !in pf {
        pf := pf[w := InitFlow(c, isSource)];
        first := first[w := i];
      }
      if isSource {
        box' := Send(box', w, (v, FlowMsg(c, vNum)));
      }
      i := i + 1;
    }
    assert caps[..|caps|] == caps;
    x := Vertex(caps, if isSource then vNum else 0, 0, pf);
    EmplacedAll(caps, isSource, pf, first);
  }

  /** The preflows after the first `i` entries of `caps`; `first` gives the entry each one came from. */
  ghost predicate EmplacedSoFar(caps: seq<(int, int)>, isSource: bool, i: int, pf: map<int, Flow>, first: map<int, int>)
    requires 0 <= i <= |caps|
  {
    && first.Keys == pf.Keys
    && (forall w :: w in pf ==> first[w] < i && FirstAt(caps, w, first[w]) && pf[w] == InitFlow(caps[first[w]].1, isSource))
    && (forall j :: 0 <= j < i ==> caps[j].0 in pf)
  }

  lemma EmplaceStep(caps: seq<(int, int)>, isSource: bool, i: int, pf: map<int, Flow>, first: map<int, int>)
    requires 0 <= i < |caps| && EmplacedSoFar(caps, isSource, i, pf, first)
    ensures var w := caps[i].0;
      if w in pf then EmplacedSoFar(caps, isSource, i + 1, pf, first)
      else EmplacedSoFar(caps, isSource, i + 1, pf[w := InitFlow(caps[i].1, isSource)], first[w := i])
  {
    var w := caps[i].0;
    if w !in pf {
      assert FirstAt(caps, w, i) by {
        forall k | 0 <= k < i ensures caps[k].0 != w {
          assert caps[k].0 in pf;
        }
      }
    }
  }

  lemma EmplacedAll(caps: seq<(int, int)>, isSource: bool, pf: map<int, Flow>, first: map<int, int>)
    requires EmplacedSoFar(caps, isSource, |caps|, pf, first)
    ensures pf.Keys == CapIds(caps)
    ensures forall w :: w in pf ==> exists j :: FirstAt(caps, w, j) && pf[w] == InitFlow(caps[j].1, isSource)
  {
    forall w | w in pf ensures exists j :: FirstAt(caps, w, j) && pf[w] == InitFlow(caps[j].1, isSource) {
      assert FirstAt(caps, w, first[w]);
    }
    forall w | w in pf ensures w in CapIds(caps) {
      assert FirstAt(caps, w, first[w]);
    }
  }

  /** The flow messages after the first `i` entries of `caps`. */
  ghost predicate SaturatedSoFar(caps: seq<(int, int)>, isSource: bool, i: int, v: int, vNum: int,
                                 box: Inbox<Inflow>, box': Inbox<Inflow>)
    requires 0 <= i <= |caps|
  {
    forall a :: InboxOf(box', a) == InboxOf(box, a) + (if isSource then Saturating(caps[..i], a, v, vNum) else [])
  }

  lemma SaturateStep(caps: seq<(int, int)>, isSource: bool, i: int, v: int, vNum: int, box: Inbox<Inflow>, box': Inbox<Inflow>)
    requires 0 <= i < |caps| && SaturatedSoFar(caps, isSource, i, v, vNum, box, box')
    ensures isSource ==> SaturatedSoFar(caps, isSource, i + 1, v, vNum, box, Send(box', caps[i].0, (v, FlowMsg(caps[i].1, vNum))))
    ensures !isSource ==> SaturatedSoFar(caps, isSource, i + 1, v, vNum, box, box')
  {
    assert caps[..i + 1][..i] == caps[..i];
  }

  /** The initial round over the loaded vertices; `updated` counts the source. */
  method InitPreflow(loaded: map<int, seq<(int, int)>>, srcV: int, vNum: int)
    returns (g: map<int, Vertex>, box: Inbox<Inflow>, updated: int)
    ensures g.Keys == loaded.Keys
    ensures forall v :: v in g ==> Initialised(loaded[v], v == srcV, vNum, g[v])
    ensures forall a :: InboxOf(box, a) == if srcV in loaded then Saturating(loaded[srcV], a, srcV, vNum) else []
    ensures updated == if srcV in loaded then 1 else 0
  {
    g, box, updated := map[], map[], 0;
    var todo := loaded.Keys;
    ghost var done: set<int> := {};
    while todo != {}
      invariant done + todo == loaded.Keys && done !! todo
      invariant g.Keys == done
      invariant forall v :: v in g ==> Initialised(loaded[v], v == srcV, vNum, g[v])
      invariant forall a :: InboxOf(box, a) == if srcV in done then Saturating(loaded[srcV], a, srcV, vNum) else []
      invariant updated == if srcV in done then 1 else 0
      decreases todo
    {
      Member(todo);
      var v :| v in todo;
      var x;
      x, box := InitVertex(v, loaded[v], v == srcV, vNum, box);
      g := g[v := x];
      if v == srcV {
        updated := updated + 1;
      }
      todo := todo - {v};
      done := done + {v};
    }
  }

  /** A vertex that is neither the source nor the sink starts balanced: its excess is the net flow
      into it, both 0. */
  lemma InitBalanced(caps: seq<(int, int)>, vNum: int, x: Vertex)
    requires Initialised(caps, false, vNum, x)
    ensures x.excess + NetOut(x.preflows) == 0
  {
    var m := FlowValues(x.preflows);
    forall w | w in m ensures m[w] == 0 {
      var j :| FirstAt(caps, w, j) && x.preflows[w] == InitFlow(caps[j].1, false);
    }
    MapSumZero(m);
  }

  // ---------------------------------------------------------------------------------------------
  // Absorbing the messages of the round

  /** The sum of the flow values received. */
  function InflowSum(fs: seq<Inflow>): int {
    if fs == [] then 0 else InflowSum(fs[..|fs| - 1]) + fs[|fs| - 1].1.v
  }

  /** The flow received from `w`. */
  function InflowFrom(fs: seq<Inflow>, w: int): int {
    if fs == [] then 0
    else InflowFrom(fs[..|fs| - 1], w) + (if fs[|fs| - 1].0 == w then fs[|fs| - 1].1.v else 0)
  }

  /** The height of `w` in its last flow message, `h0` without one. */
  function LastFlowHeight(fs: seq<Inflow>, w: int, h0: int): int {
    if fs == [] then h0
    else if fs[|fs| - 1].0 == w then fs[|fs| - 1].1.h
    else LastFlowHeight(fs[..|fs| - 1], w, h0)
  }

  /** The height of `w` in its last height message, `h0` without one. */
  function LastHeight(hs: seq<HeightMsg>, w: int, h0: int): int {
    if hs == [] then h0
    else if hs[|hs| - 1].0 == w then hs[|hs| - 1].1
    else LastHeight(hs[..|hs| - 1], w, h0)
  }

  function Senders(fs: seq<Inflow>): set<int> {
    set k | 0 <= k < |fs| :: fs[k].0
  }

  /** The preflow towards `w`, or the empty edge of capacity 0 the source creates for a new sender. */
  function Base(pf: map<int, Flow>, w: int): Flow {
    if w in pf then pf[w] else Flow(0, FlowMsg(0, 0))
  }

  /** `excess += f.second.v` over the inflows. */
  method AddInflows(excess: int, inflows: seq<Inflow>) returns (excess': int)
    ensures excess' == excess + InflowSum(inflows)
  {
    excess' := excess;
    for i := 0 to |inflows|
      invariant excess' == excess + InflowSum(inflows[..i])
    {
      assert inflows[..i + 1][..i] == inflows[..i];
      excess' := excess' + inflows[i].1.v;
    }
    assert inflows[..|inflows|] == inflows;
  }

  /** One inflow: the flow on the edge from its sender drops by its value (negative flow is incoming)
      and the sender's height is recorded; a sender without an entry gets one of capacity 0. */
  function RecordInflow(pf: map<int, Flow>, f: Inflow): (r: map<int, Flow>)
    ensures r.Keys == pf.Keys + {f.0}
    ensures r[f.0] == Flow(Base(pf, f.0).c, FlowMsg(Base(pf, f.0).fm.v - f.1.v, f.1.h))
    ensures forall w :: w in pf && w != f.0 ==> r[w] == pf[w]
  {
    if f.0 in pf then pf[f.0 := pf[f.0].(fm := FlowMsg(pf[f.0].fm.v - f.1.v, f.1.h))]
    else pf[f.0 := Flow(0, FlowMsg(-f.1.v, f.1.h))]
  }

  /** `pf'` is `pf` after the inflows `fs`: every sender has an entry, whose flow dropped by all it
      sent and which holds the height of its last message. */
  ghost predicate Recorded(pf: map<int, Flow>, fs: seq<Inflow>, pf': map<int, Flow>) {
    && pf'.Keys == pf.Keys + Senders(fs)
    && forall w :: w in pf' ==>
         pf'[w] == Flow(Base(pf, w).c, FlowMsg(Base(pf, w).fm.v - InflowFrom(fs, w), LastFlowHeight(fs, w, Base(pf, w).fm.h)))
  }

  lemma RecordStep(pf: map<int, Flow>, fs: seq<Inflow>, pf': map<int, Flow>, f: Inflow)
    requires Recorded(pf, fs, pf')
    ensures Recorded(pf, fs + [f], RecordInflow(pf', f))
  {
    var fs', r := fs + [f], RecordInflow(pf', f);
    assert fs'[..|fs|] == fs;
    assert Senders(fs') == Senders(fs) + {f.0} by {
      forall w | w in Senders(fs) ensures w in Senders(fs') {
        var k :| 0 <= k < |fs| && fs[k].0 == w;
        assert fs'[k] == fs[k];
      }
      assert fs'[|fs|] == f;
    }
    forall w | w in r
      ensures r[w] == Flow(Base(pf, w).c, FlowMsg(Base(pf, w).fm.v - InflowFrom(fs', w), LastFlowHeight(fs', w, Base(pf, w).fm.h)))
    {
      if w == f.0 && w !in pf' {
        assert w !in Senders(fs) && w !in pf;
        InflowFromAbsent(fs, w);
      }
    }
  }

  lemma {:induction false} InflowFromAbsent(fs: seq<Inflow>, w: int)
    requires w !in Senders(fs)
    ensures InflowFrom(fs, w) == 0
  {
    if fs != [] {
      var init := fs[..|fs| - 1];
      assert w !in Senders(init) by {
        forall k | 0 <= k < |init| ensures init[k].0 != w {
          assert init[k] == fs[k];
        }
      }
      InflowFromAbsent(init, w);
      assert fs[|fs| - 1].0 in Senders(fs);
    }
  }

  /** The net flow out drops by what was received. */
  lemma RecordNetOut(pf: map<int, Flow>, f: Inflow)
    ensures NetOut(RecordInflow(pf, f)) == NetOut(pf) - f.1.v
  {
    var r := RecordInflow(pf, f);
    assert r == pf[f.0 := r[f.0]];
    NetOutUpdate(pf, f.0, r[f.0]);
  }

  /** The first inflow loop, in arrival order. */
  method RecordInflows(pf: map<int, Flow>, inflows: seq<Inflow>) returns (pf': map<int, Flow>)
    ensures Recorded(pf, inflows, pf')
    ensures NetOut(pf') == NetOut(pf) - InflowSum(inflows)
  {
    pf' := pf;
    assert Senders([]) == {};
    for i := 0 to |inflows|
      invariant Recorded(pf, inflows[..i], pf')
      invariant NetOut(pf') == NetOut(pf) - InflowSum(inflows[..i])
    {
      assert inflows[..i + 1] == inflows[..i] + [inflows[i]];
      RecordStep(pf, inflows[..i], pf', inflows[i]);
      RecordNetOut(pf', inflows[i]);
      pf' := RecordInflow(pf', inflows[i]);
    }
    assert inflows[..|inflows|] == inflows;
  }

  /** `pf'` is `pf` with the height of each sender of `hs` set by its last message. */
  ghost predicate HeightsApplied(pf: map<int, Flow>, hs: seq<HeightMsg>, pf': map<int, Flow>) {
    && pf'.Keys == pf.Keys
    && forall w :: w in pf ==> pf'[w] == Flow(pf[w].c, FlowMsg(pf[w].fm.v, LastHeight(hs, w, pf[w].fm.h)))
  }

  /** The height loop; each sender must already have an entry, since the source dereferences it. */
  method ApplyHeights(pf: map<int, Flow>, heights: seq<HeightMsg>) returns (pf': map<int, Flow>)
    requires forall k :: 0 <= k < |heights| ==> heights[k].0 in pf
    ensures HeightsApplied(pf, heights, pf')
    ensures NetOut(pf') == NetOut(pf)
  {
    pf' := pf;
    for i := 0 to |heights|
      invariant HeightsApplied(pf, heights[..i], pf')
    {
      var w := heights[i].0;
      assert heights[..i + 1][..i] == heights[..i];
      pf' := pf'[w := pf'[w].(fm := pf'[w].fm.(h := heights[i].1))];
    }
    assert heights[..|heights|] == heights;
    var m, m' := FlowValues(pf), FlowValues(pf');
    assert forall w :: w in m' ==> m'[w] == pf'[w].fm.v == pf[w].fm.v == m[w];
    assert m' == m;
  }

  /** What a vertex knows of its edges after both message loops. */
  ghost predicate Absorbed(pf: map<int, Flow>, fs: seq<Inflow>, hs: seq<HeightMsg>, pf': map<int, Flow>) {
    && pf'.Keys == pf.Keys + Senders(fs)
    && forall w :: w in pf' ==>
         pf'[w] == Flow(Base(pf, w).c, FlowMsg(Base(pf, w).fm.v - InflowFrom(fs, w),
                                               LastHeight(hs, w, LastFlowHeight(fs, w, Base(pf, w).fm.h))))
  }

  lemma AbsorbedBoth(pf: map<int, Flow>, fs: seq<Inflow>, hs: seq<HeightMsg>, pf1: map<int, Flow>, pf2: map<int, Flow>)
    requires Recorded(pf, fs, pf1) && HeightsApplied(pf1, hs, pf2)
    ensures Absorbed(pf, fs, hs, pf2)
  {
  }

  // ---------------------------------------------------------------------------------------------
  // Pushing to lower neighbours

  /** The invariant of the algorithm at a vertex: no negative excess, no edge over capacity. */
  ghost predicate Feasible(excess: int, pf: map<int, Flow>) {
    excess >= 0 && forall w :: w in pf ==> pf[w].fm.v <= pf[w].c
  }

  /** `toPush[w]` was pushed to `w`, a strictly lower neighbour, and added to the edge's flow,
      which stays within its capacity. */
  ghost predicate PushedTo(height: int, pf: map<int, Flow>, pf': map<int, Flow>, toPush: map<int, int>, w: int)
    requires w in toPush
  {
    && w in pf && w in pf'
    && height > pf[w].fm.h
    && toPush[w] != 0
    && toPush[w] <= pf[w].c - pf[w].fm.v
    && pf'[w] == Flow(pf[w].c, FlowMsg(pf[w].fm.v + toPush[w], pf[w].fm.h))
  }

  /** Every strictly lower neighbour among `ws` has a saturated edge. */
  ghost predicate SaturatedBelow(height: int, pf: map<int, Flow>, pf': map<int, Flow>, ws: set<int>)
    requires pf'.Keys == pf.Keys
  {
    forall w :: w in ws && w in pf && height > pf[w].fm.h ==> pf'[w].fm.v == pf'[w].c
  }

  /** The push loop after visiting `done`, having started from `excess` and `pf`. */
  ghost predicate PushSoFar(height: int, excess: int, pf: map<int, Flow>, done: set<int>,
                            pf': map<int, Flow>, excess': int, toPush: map<int, int>)
  {
    && pf'.Keys == pf.Keys
    && toPush.Keys <= done
    && (forall w :: w in toPush ==> PushedTo(height, pf, pf', toPush, w))
    && (forall w :: w in pf && w !in toPush ==> pf'[w] == pf[w])
    && excess == excess' + MapSum(toPush)
    && NetOut(pf') == NetOut(pf) + MapSum(toPush)
    && (Feasible(excess, pf) ==>
          && excess' >= 0
          && (forall w :: w in toPush ==> toPush[w] > 0)
          // each amount is `min(excess, c - v)`: the edge's residual capacity, or what excess was left
          && (forall w :: w in toPush ==> toPush[w] == pf[w].c - pf[w].fm.v || excess' == 0)
          && (excess' > 0 ==> SaturatedBelow(height, pf, pf', done)))
  }

  /** The loop's result: what was pushed, where, and that excess is left only when every lower
      neighbour's edge is full. */
  ghost predicate PushedOut(height: int, excess: int, pf: map<int, Flow>,
                            pf': map<int, Flow>, excess': int, toPush: map<int, int>)
  {
    && PushSoFar(height, excess, pf, pf.Keys, pf', excess', toPush)
  }

  lemma PushStep(height: int, excess: int, pf: map<int, Flow>, done: set<int>,
                 pf': map<int, Flow>, excess': int, toPush: map<int, int>, w: int, flowVal: int)
    requires PushSoFar(height, excess, pf, done, pf', excess', toPush)
    requires w in pf && w !in done && excess' != 0
    requires height > pf[w].fm.h
    requires flowVal == Min(excess', pf[w].c - pf[w].fm.v) && flowVal != 0
    ensures PushSoFar(height, excess, pf, done + {w},
                      pf'[w := pf'[w].(fm := pf'[w].fm.(v := pf'[w].fm.v + flowVal))],
                      excess' - flowVal, toPush[w := flowVal])
  {
    var pf2 := pf'[w := pf'[w].(fm := pf'[w].fm.(v := pf'[w].fm.v + flowVal))];
    var toPush2 := toPush[w := flowVal];
    assert pf'[w] == pf[w];
    NetOutUpdate(pf', w, pf2[w]);
    MapSumUpdate(toPush, w, flowVal);
    assert forall u :: u in toPush ==> PushedTo(height, pf, pf2, toPush2, u) by {
      forall u | u in toPush ensures PushedTo(height, pf, pf2, toPush2, u) {
        assert PushedTo(height, pf, pf', toPush, u);
      }
    }
    assert PushedTo(height, pf, pf2, toPush2, w);
    if Feasible(excess, pf) && excess' - flowVal > 0 {
      assert excess' > 0;
      assert flowVal == pf[w].c - pf[w].fm.v;
    }
  }

  lemma SkipStep(height: int, excess: int, pf: map<int, Flow>, done: set<int>,
                 pf': map<int, Flow>, excess': int, toPush: map<int, int>, w: int)
    requires PushSoFar(height, excess, pf, done, pf', excess', toPush)
    requires w in pf && w !in done && excess' != 0
    requires height > pf[w].fm.h ==> Min(excess', pf[w].c - pf[w].fm.v) == 0
    ensures PushSoFar(height, excess, pf, done + {w}, pf', excess', toPush)
  {
    assert pf'[w] == pf[w];
  }

  /** The push loop: walk the preflows in map order, stop once the excess is gone, and push
      `min(excess, c - v)` to every strictly lower neighbour when that is not 0. */
  method PushOut(height: int, excess: int, pf: map<int, Flow>)
    returns (pf': map<int, Flow>, excess': int, toPush: map<int, int>)
    ensures PushedOut(height, excess, pf, pf', excess', toPush)
  {
    pf', excess', toPush := pf, excess, map[];
    var todo := pf.Keys;
    ghost var done: set<int> := {};
    while todo != {}
      invariant done + todo == pf.Keys && done !! todo
      invariant PushSoFar(height, excess, pf, done, pf', excess', toPush)
      decreases todo
    {
      if excess' == 0 {
        break;
      }
      Member(todo);
      var w :| w in todo;
      var f := pf'[w];
      assert f == pf[w];
      var pushed := false;
      if height > f.fm.h {
        var flowVal := Min(excess', f.c - f.fm.v);
        if flowVal != 0 {
          PushStep(height, excess, pf, done, pf', excess', toPush, w, flowVal);
          pf' := pf'[w := f.(fm := f.fm.(v := f.fm.v + flowVal))];
          excess' := excess' - flowVal;
          toPush := toPush[w := flowVal];
          pushed := true;
        }
      }
      if !pushed {
        SkipStep(height, excess, pf, done, pf', excess', toPush, w);
      }
      todo, done := todo - {w}, done + {w};
    }
  }

  // ---------------------------------------------------------------------------------------------
  // Relabelling and the messages sent

  /** The heights of the neighbours whose edge still has residual capacity. */
  function ResidualHeights(pf: map<int, Flow>): map<int, int> {
    map w | w in pf && pf[w].c > pf[w].fm.v :: pf[w].fm.h
  }

  /** `inbox'` is `inbox` with one flow message `(v, (toPush[a], height))` appended for each `a`
      in `done`. */
  ghost predicate FlowsSent(inbox: Inbox<Inflow>, inbox': Inbox<Inflow>, done: set<int>,
                            v: int, toPush: map<int, int>, height: int)
  {
    forall a :: InboxOf(inbox', a) == InboxOf(inbox, a) + (if a in done && a in toPush then [(v, FlowMsg(toPush[a], height))] else [])
  }

  /** The send loop over `toPush`. */
  method SendFlows(inbox: Inbox<Inflow>, v: int, toPush: map<int, int>, height: int) returns (inbox': Inbox<Inflow>)
    ensures FlowsSent(inbox, inbox', toPush.Keys, v, toPush, height)
  {
    inbox' := inbox;
    var todo := toPush.Keys;
    ghost var done: set<int> := {};
    while todo != {}
      invariant done + todo == toPush.Keys && done !! todo
      invariant FlowsSent(inbox, inbox', done, v, toPush, height)
      decreases todo
    {
      Member(todo);
      var a :| a in todo;
      inbox' := Send(inbox', a, (v, FlowMsg(toPush[a], height)));
      todo, done := todo - {a}, done + {a};
    }
  }

  /** The second half of a step: from the height, the excess received and the edges as known after
      the messages, push, relabel exactly when excess is left (to one above the lowest neighbour
      with residual capacity), send the flows, and after a relabel tell only the neighbours pushed
      to of the new height. */
  ghost predicate Discharged(v: int, height: int, received: int, absorbed: map<int, Flow>,
                             height': int, excess': int, pf': map<int, Flow>, toPush: map<int, int>,
                             flowBox: Inbox<Inflow>, flowBox': Inbox<Inflow>,
                             heightBox: Inbox<HeightMsg>, heightBox': Inbox<HeightMsg>)
  {
    && PushedOut(height, received, absorbed, pf', excess', toPush)
    && (excess' > 0 ==>
          var minH := height' - 1;
          && minH <= IntMax
          && (forall w :: w in ResidualHeights(pf') ==> minH <= ResidualHeights(pf')[w])
          && (minH == IntMax || exists w :: w in ResidualHeights(pf') && minH == ResidualHeights(pf')[w]))
    && (excess' <= 0 ==> height' == height)
    && FlowsSent(flowBox, flowBox', toPush.Keys, v, toPush, height')
    && (forall a :: InboxOf(heightBox', a) ==
          InboxOf(heightBox, a) + (if excess' > 0 && a in pf' && a in toPush then [(v, height')] else []))
  }

  /** Push, relabel and send. */
  method Discharge(v: int, height: int, received: int, absorbed: map<int, Flow>,
                   flowBox: Inbox<Inflow>, heightBox: Inbox<HeightMsg>)
    returns (height': int, excess': int, pf': map<int, Flow>, toPush: map<int, int>,
             flowBox': Inbox<Inflow>, heightBox': Inbox<HeightMsg>)
    ensures Discharged(v, height, received, absorbed, height', excess', pf', toPush, flowBox, flowBox', heightBox, heightBox')
  {
    pf', excess', toPush := PushOut(height, received, absorbed);
    height' := height;
    if excess' > 0 {
      var minH := MinOver(ResidualHeights(pf'));
      height' := minH + 1;
    }
    flowBox' := SendFlows(flowBox, v, toPush, height');
    heightBox' := heightBox;
    if excess' > 0 {
      heightBox' := PushAll(heightBox, pf'.Keys * toPush.Keys, (v, height'));
    }
  }

  /** What the step of a vertex that is neither source nor sink does, from `x` and its messages
      to `x'` and the messages it sends; `absorbed` is its edges after the two message loops. */
  ghost predicate StepOutcome(v: int, x: Vertex, inflows: seq<Inflow>, heights: seq<HeightMsg>, x': Vertex,
                              flowBox: Inbox<Inflow>, flowBox': Inbox<Inflow>,
                              heightBox: Inbox<HeightMsg>, heightBox': Inbox<HeightMsg>,
                              updated: bool, toPush: map<int, int>, absorbed: map<int, Flow>)
  {
    var received := x.excess + InflowSum(inflows);
    && x'.caps == x.caps
    && Absorbed(x.preflows, inflows, heights, absorbed)
    && NetOut(absorbed) == NetOut(x.preflows) - InflowSum(inflows)
    && updated == (received > 0)
    && Discharged(v, x.height, received, absorbed, x'.height, x'.excess, x'.preflows, toPush,
                  flowBox, flowBox', heightBox, heightBox')
  }

  /** One vertex's turn in a round of the main loop. The source and the sink only add up what they
      receive; every other vertex records its inflows and heights, pushes, relabels if excess is
      left, and sends flows and heights. The height messages received must come from known
      neighbours, as the source dereferences their entry. */
  method Step(v: int, x: Vertex, inflows: seq<Inflow>, heights: seq<HeightMsg>, srcV: int, dstV: int,
              flowBox: Inbox<Inflow>, heightBox: Inbox<HeightMsg>)
    returns (x': Vertex, flowBox': Inbox<Inflow>, heightBox': Inbox<HeightMsg>, updated: bool,
             toPush: map<int, int>, ghost absorbed: map<int, Flow>)
    requires v != srcV && v != dstV ==>
               forall k :: 0 <= k < |heights| ==> heights[k].0 in x.preflows || heights[k].0 in Senders(inflows)
    ensures v == srcV || v == dstV ==>
              && x' == x.(excess := x.excess + InflowSum(inflows))
              && flowBox' == flowBox && heightBox' == heightBox && !updated && toPush == map[]
    ensures v != srcV && v != dstV ==>
              StepOutcome(v, x, inflows, heights, x', flowBox, flowBox', heightBox, heightBox', updated, toPush, absorbed)
  {
    var excess := AddInflows(x.excess, inflows);
    if v == dstV || v == srcV {
      x', flowBox', heightBox', updated, toPush, absorbed := x.(excess := excess), flowBox, heightBox, false, map[], x.preflows;
      return;
    }
    var recorded := RecordInflows(x.preflows, inflows);
    var known := ApplyHeights(recorded, heights);
    AbsorbedBoth(x.preflows, inflows, heights, recorded, known);
    absorbed := known;
    updated := excess > 0;
    var height', excess', pf';
    height', excess', pf', toPush, flowBox', heightBox' := Discharge(v, x.height, excess, known, flowBox, heightBox);
    x' := Vertex(x.caps, height', excess', pf');
  }

  // ---------------------------------------------------------------------------------------------
  // What a step preserves

  /** No edge has negative capacity. */
  ghost predicate CapsNonNegative(pf: map<int, Flow>) {
    forall w :: w in pf ==> pf[w].c >= 0
  }

  /** Flow is conserved at the vertex: its excess is exactly the net flow into it. */
  ghost predicate Balanced(x: Vertex) {
    x.excess + NetOut(x.preflows) == 0
  }

  /** With non-negative capacities, initialisation leaves every vertex feasible. */
  lemma InitFeasible(caps: seq<(int, int)>, isSource: bool, vNum: int, x: Vertex)
    requires forall j :: 0 <= j < |caps| ==> caps[j].1 >= 0
    requires Initialised(caps, isSource, vNum, x)
    ensures Feasible(x.excess, x.preflows) && CapsNonNegative(x.preflows)
  {
    forall w | w in x.preflows ensures x.preflows[w].fm.v <= x.preflows[w].c && x.preflows[w].c >= 0 {
      var j :| FirstAt(caps, w, j) && x.preflows[w] == InitFlow(caps[j].1, isSource);
    }
  }

  predicate NonNegativeInflows(fs: seq<Inflow>) {
    forall k :: 0 <= k < |fs| ==> fs[k].1.v >= 0
  }

  lemma {:induction false} InflowsNonNegative(fs: seq<Inflow>, w: int)
    requires NonNegativeInflows(fs)
    ensures InflowSum(fs) >= 0 && InflowFrom(fs, w) >= 0
  {
    if fs != [] {
      var init := fs[..|fs| - 1];
      assert NonNegativeInflows(init) by {
        forall k | 0 <= k < |init| ensures init[k].1.v >= 0 {
          assert init[k] == fs[k];
        }
      }
      InflowsNonNegative(init, w);
    }
  }

  /** Receiving non-negative flows keeps a vertex feasible: flows on its edges only drop, and a new
      sender's edge has capacity 0 and non-positive flow. */
  lemma AbsorbedFeasible(x: Vertex, fs: seq<Inflow>, hs: seq<HeightMsg>, absorbed: map<int, Flow>)
    requires Feasible(x.excess, x.preflows) && CapsNonNegative(x.preflows) && NonNegativeInflows(fs)
    requires Absorbed(x.preflows, fs, hs, absorbed)
    ensures Feasible(x.excess + InflowSum(fs), absorbed) && CapsNonNegative(absorbed)
  {
    InflowsNonNegative(fs, 0);
    forall w | w in absorbed ensures absorbed[w].fm.v <= absorbed[w].c && absorbed[w].c >= 0 {
      InflowsNonNegative(fs, w);
    }
  }

  /** A step of a vertex that is neither source nor sink keeps it feasible and balanced, and if it
      relabels, some edge has residual capacity, and the new height is at most one above that
      neighbour's: it never becomes one more than the "no edge" sentinel `INT_MAX`. */
  lemma StepKeeps(v: int, x: Vertex, inflows: seq<Inflow>, heights: seq<HeightMsg>, x': Vertex,
                  flowBox: Inbox<Inflow>, flowBox': Inbox<Inflow>,
                  heightBox: Inbox<HeightMsg>, heightBox': Inbox<HeightMsg>,
                  updated: bool, toPush: map<int, int>, absorbed: map<int, Flow>)
    requires Feasible(x.excess, x.preflows) && CapsNonNegative(x.preflows) && Balanced(x)
    requires NonNegativeInflows(inflows)
    requires StepOutcome(v, x, inflows, heights, x', flowBox, flowBox', heightBox, heightBox', updated, toPush, absorbed)
    ensures Feasible(x'.excess, x'.preflows) && CapsNonNegative(x'.preflows) && Balanced(x')
    ensures x'.excess > 0 ==>
              exists w :: w in x'.preflows && x'.preflows[w].c > x'.preflows[w].fm.v && x'.height <= x'.preflows[w].fm.h + 1
  {
    AbsorbedFeasible(x, inflows, heights, absorbed);
    var pf' := x'.preflows;
    forall w | w in pf' ensures pf'[w].fm.v <= pf'[w].c && pf'[w].c >= 0 {
      if w in toPush {
        assert PushedTo(x.height, absorbed, pf', toPush, w);
      }
    }
    if x'.excess > 0 {
      MapSumNegative(FlowValues(pf'));
      var w :| w in FlowValues(pf') && FlowValues(pf')[w] < 0;
      assert w in ResidualHeights(pf');
    }
  }
}
