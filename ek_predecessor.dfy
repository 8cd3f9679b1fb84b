/** One augmentation of the Edmonds–Karp variant that records a predecessor per vertex: a breadth-first
    search over residual edges, a walk back from the sink along the predecessors, the bottleneck of that
    path, and the residual update. The framework's rounds become loops over the vertex list. */
module EkPredecessor {
  import opened Seqs
  import opened KeyMinCombiner
  import opened Residual
  import opened Inboxes

  /** A vertex: residual capacity per neighbour, BFS distance (-1 while not reached) and predecessor. */
  datatype Vertex = Vertex(resCaps: map<int, int>, dist: int, pre: int)

  /** The vertex list, by id. */
  type Graph = map<int, Vertex>

  // ---------------------------------------------------------------------------------------------
  // The search

  function InitVertex(x: Vertex, isSource: bool): Vertex {
    if isSource then x.(dist := 0, pre := -1) else x.(dist := -1)
  }

  /** The initial round: the source is at distance 0 without predecessor and offers (1, src) to each
      residual neighbour; every other vertex is unreached. */
  method InitBfs(g: Graph, srcV: int) returns (g': Graph, inbox: Inbox<(int, int)>, visited: int)
    ensures g'.Keys == g.Keys
    ensures forall v :: v in g ==> g'[v] == InitVertex(g[v], v == srcV)
    ensures forall a :: InboxOf(inbox, a) == if srcV in g && a in g[srcV].resCaps then [(1, srcV)] else []
    ensures visited == if srcV in g then 1 else 0
  {
    g' := g;
    inbox := map[];
    visited := 0;
    var todo := g.Keys;
    ghost var done: set<int> := {};
    while todo != {}
      invariant done + todo == g.Keys && done !! todo
      invariant g'.Keys == g.Keys
      invariant forall v :: v in done ==> g'[v] == InitVertex(g[v], v == srcV)
      invariant forall v :: v in todo ==> g'[v] == g[v]
      invariant forall a :: InboxOf(inbox, a) == if srcV in done && a in g[srcV].resCaps then [(1, srcV)] else []
      invariant visited == if srcV in done then 1 else 0
      decreases todo
    {
      Member(todo);
      var v :| v in todo;
      if v == srcV {
        g' := g'[v := g[v].(dist := 0, pre := -1)];
        visited := visited + 1;
        inbox := PushAll(inbox, g[v].resCaps.Keys, (1, v));
      } else {
        g' := g'[v := g[v].(dist := -1)];
      }
      todo := todo - {v};
      done := done + {v};
    }
  }

  /** The settle-once rule: an unreached vertex with messages takes (dist, pre) from their min-dist
      combination; every other vertex keeps its state. */
  function Settle(x: Vertex, msgs: seq<(int, int)>): Vertex {
    if x.dist != -1 || msgs == [] then x else x.(dist := Combined(msgs).0, pre := Combined(msgs).1)
  }

  /** The round's lambda on one vertex. A settled vertex other than the sink offers (dist + 1, id) to
      each residual neighbour; the sink only raises the stop flag. */
  method VisitVertex(v: int, x: Vertex, msgs: seq<(int, int)>, dstV: int, next: Inbox<(int, int)>)
    returns (x': Vertex, next': Inbox<(int, int)>, settled: bool)
    ensures x' == Settle(x, msgs)
    ensures settled == (x.dist == -1 && msgs != [])
    ensures settled && v != dstV ==> Pushed(next, next', x.resCaps.Keys, (x'.dist + 1, v))
    ensures !(settled && v != dstV) ==> next' == next
  {
    x', next', settled := x, next, false;
    if x.dist != -1 || msgs == [] {
      return;
    }
    var msg := Combined(msgs);
    x' := x.(dist := msg.0, pre := msg.1);
    settled := true;
    if v != dstV {
      next' := PushAll(next, x.resCaps.Keys, (x'.dist + 1, v));
    }
  }

  ghost function NewlySettled(g: Graph, inbox: Inbox<(int, int)>): set<int> {
    set v | v in g && g[v].dist == -1 && InboxOf(inbox, v) != []
  }

  /** Every message in `next` was offered by a vertex of `s` other than the sink to one of its residual
      neighbours, carrying its distance plus one. */
  ghost predicate SentSound(g: Graph, s: set<int>, dstV: int, next: Inbox<(int, int)>) {
    forall a, m :: m in InboxOf(next, a) ==>
      exists v :: v in s && v != dstV && v in g && a in g[v].resCaps && m == (g[v].dist + 1, v)
  }

  /** Every vertex of `s` other than the sink offered its distance plus one to each residual neighbour. */
  ghost predicate SentComplete(g: Graph, s: set<int>, dstV: int, next: Inbox<(int, int)>) {
    forall v, a :: v in s && v != dstV && v in g && a in g[v].resCaps ==> (g[v].dist + 1, v) in InboxOf(next, a)
  }

  lemma SentStep(g: Graph, s: set<int>, dstV: int, next: Inbox<(int, int)>, next': Inbox<(int, int)>, v: int)
    requires v in g && v !in s && v != dstV
    requires SentSound(g, s, dstV, next) && SentComplete(g, s, dstV, next)
    requires Pushed(next, next', g[v].resCaps.Keys, (g[v].dist + 1, v))
    ensures SentSound(g, s + {v}, dstV, next') && SentComplete(g, s + {v}, dstV, next')
  {
    forall a, m | m in InboxOf(next', a)
      ensures exists w :: w in s + {v} && w != dstV && w in g && a in g[w].resCaps && m == (g[w].dist + 1, w)
    {
      if a in g[v].resCaps && m == (g[v].dist + 1, v) {
      } else if a in g[v].resCaps {
        assert InboxOf(next', a) == InboxOf(next, a) + [(g[v].dist + 1, v)];
        assert m in InboxOf(next, a);
      } else {
        assert m in InboxOf(next, a);
      }
    }
  }

  /** A set of the vertices whose state changed this round keeps the senders' entries. */
  lemma SentFrame(g: Graph, g': Graph, s: set<int>, dstV: int, next: Inbox<(int, int)>)
    requires forall w :: w in s ==> w in g && w in g' && g'[w] == g[w]
    requires SentSound(g, s, dstV, next) && SentComplete(g, s, dstV, next)
    ensures SentSound(g', s, dstV, next) && SentComplete(g', s, dstV, next)
  {
    forall a, m | m in InboxOf(next, a)
      ensures exists w :: w in s && w != dstV && w in g' && a in g'[w].resCaps && m == (g'[w].dist + 1, w)
    {
      var w :| w in s && w != dstV && w in g && a in g[w].resCaps && m == (g[w].dist + 1, w);
      assert g'[w] == g[w];
    }
  }

  lemma SentGrow(g: Graph, s: set<int>, dstV: int, next: Inbox<(int, int)>)
    requires SentSound(g, s, dstV, next) && SentComplete(g, s, dstV, next)
    ensures SentSound(g, s + {dstV}, dstV, next) && SentComplete(g, s + {dstV}, dstV, next)
  {
    forall a, m | m in InboxOf(next, a)
      ensures exists w :: w in s + {dstV} && w != dstV && w in g && a in g[w].resCaps && m == (g[w].dist + 1, w)
    {
      var w :| w in s && w != dstV && w in g && a in g[w].resCaps && m == (g[w].dist + 1, w);
    }
  }

  /** The vertex states of a round after the vertices in `done` were visited. */
  ghost predicate StatesSoFar(g: Graph, inbox: Inbox<(int, int)>, done: set<int>, g': Graph) {
    && g'.Keys == g.Keys
    && (forall v :: v in g ==> g'[v] == if v in done then Settle(g[v], InboxOf(inbox, v)) else g[v])
  }

  lemma StatesStep(g: Graph, inbox: Inbox<(int, int)>, done: set<int>, g': Graph, v: int, x': Vertex)
    requires StatesSoFar(g, inbox, done, g')
    requires v in g && x' == Settle(g[v], InboxOf(inbox, v))
    ensures StatesSoFar(g, inbox, done + {v}, g'[v := x'])
  {
    var g'' := g'[v := x'];
    forall w | w in g
      ensures g''[w] == if w in done + {v} then Settle(g[w], InboxOf(inbox, w)) else g[w]
    {
      if w != v {
        assert g''[w] == g'[w];
      }
    }
  }

  /** The counters of a round: `sent` holds the visited vertices that settled so far. */
  ghost predicate CountSoFar(g: Graph, dstV: int, inbox: Inbox<(int, int)>, done: set<int>, sent: set<int>,
                             visited: int, dstVisited: bool) {
    && sent == NewlySettled(g, inbox) * done
    && visited == Card(sent)
    && dstVisited == (dstV in sent)
  }

  lemma CountStep(g: Graph, dstV: int, inbox: Inbox<(int, int)>, done: set<int>, sent: set<int>,
                  visited: int, dstVisited: bool, v: int, settled: bool)
    requires CountSoFar(g, dstV, inbox, done, sent, visited, dstVisited)
    requires v in g && v !in done
    requires settled == (g[v].dist == -1 && InboxOf(inbox, v) != [])
    ensures CountSoFar(g, dstV, inbox, done + {v}, if settled then sent + {v} else sent,
                       visited + (if settled then 1 else 0), dstVisited || (settled && v == dstV))
  {
    var ns := NewlySettled(g, inbox);
    assert settled <==> v in ns;
    if settled {
      assert ns * (done + {v}) == sent + {v};
      CardAdd(sent, v);
    } else {
      assert ns * (done + {v}) == sent;
    }
  }

  /** The messages of a round after the vertices in `done` were visited. */
  ghost predicate SentSoFar(g: Graph, dstV: int, inbox: Inbox<(int, int)>, done: set<int>,
                            g': Graph, next: Inbox<(int, int)>) {
    SentSound(g', NewlySettled(g, inbox) * done, dstV, next) && SentComplete(g', NewlySettled(g, inbox) * done, dstV, next)
  }

  lemma SentSoFarStep(g: Graph, dstV: int, inbox: Inbox<(int, int)>, done: set<int>,
                      g': Graph, next: Inbox<(int, int)>, v: int, x': Vertex, next': Inbox<(int, int)>, settled: bool)
    requires SentSoFar(g, dstV, inbox, done, g', next)
    requires done <= g.Keys && g'.Keys == g.Keys
    requires v in g && v !in done
    requires x' == Settle(g[v], InboxOf(inbox, v))
    requires settled == (g[v].dist == -1 && InboxOf(inbox, v) != [])
    requires settled && v != dstV ==> Pushed(next, next', g[v].resCaps.Keys, (x'.dist + 1, v))
    requires !(settled && v != dstV) ==> next' == next
    ensures SentSoFar(g, dstV, inbox, done + {v}, g'[v := x'], next')
  {
    var ns := NewlySettled(g, inbox);
    var sent := ns * done;
    var g'' := g'[v := x'];
    SentFrame(g', g'', sent, dstV, next);
    assert settled <==> v in ns;
    if settled {
      assert ns * (done + {v}) == sent + {v};
      if v != dstV {
        SentStep(g'', sent, dstV, next, next', v);
      } else {
        SentGrow(g'', sent, dstV, next);
      }
    } else {
      assert ns * (done + {v}) == sent;
    }
  }

  /** Visits one more vertex of the round. */
  method VisitStep(g: Graph, dstV: int, inbox: Inbox<(int, int)>, ghost done: set<int>, ghost sent: set<int>,
                   g': Graph, next: Inbox<(int, int)>, visited: int, dstVisited: bool, v: int)
    returns (g'': Graph, next'': Inbox<(int, int)>, visited': int, dstVisited': bool, ghost sent': set<int>)
    requires v in g && v !in done && done <= g.Keys
    requires RoundSoFar(g, dstV, inbox, done, sent, g', next, visited, dstVisited)
    ensures RoundSoFar(g, dstV, inbox, done + {v}, sent', g'', next'', visited', dstVisited')
  {
    var x', next', settled := VisitVertex(v, g[v], InboxOf(inbox, v), dstV, next);
    StatesStep(g, inbox, done, g', v, x');
    CountStep(g, dstV, inbox, done, sent, visited, dstVisited, v, settled);
    sent' := if settled then sent + {v} else sent;
    SentSoFarStep(g, dstV, inbox, done, g', next, v, x', next', settled);
    visited' := visited + (if settled then 1 else 0);
    dstVisited' := dstVisited || (settled && v == dstV);
    g'', next'' := g'[v := x'], next';
  }

  /** One round of the search: every vertex is visited once, in any order. */
  method SettleRound(g: Graph, dstV: int, inbox: Inbox<(int, int)>)
    returns (g': Graph, next: Inbox<(int, int)>, visited: int, dstVisited: bool)
    ensures g'.Keys == g.Keys
    ensures forall v :: v in g ==> g'[v] == Settle(g[v], InboxOf(inbox, v))
    ensures visited == |NewlySettled(g, inbox)|
    ensures dstVisited == (dstV in NewlySettled(g, inbox))
    ensures SentSound(g', NewlySettled(g, inbox), dstV, next) && SentComplete(g', NewlySettled(g, inbox), dstV, next)
  {
    g', next, visited, dstVisited := g, map[], 0, false;
    var todo := g.Keys;
    ghost var done: set<int> := {};
    ghost var sent: set<int> := {};
    RoundStart(g, dstV, inbox);
    while todo != {}
      invariant done + todo == g.Keys && done !! todo
      invariant RoundSoFar(g, dstV, inbox, done, sent, g', next, visited, dstVisited)
      decreases todo
    {
      Member(todo);
      var v :| v in todo;
      g', next, visited, dstVisited, sent := VisitStep(g, dstV, inbox, done, sent, g', next, visited, dstVisited, v);
      todo := todo - {v};
      done := done + {v};
    }
    RoundDone(g, dstV, inbox, done, sent, g', next, visited, dstVisited);
  }

  /** The whole state of a round after the vertices in `done` were visited. */
  ghost predicate RoundSoFar(g: Graph, dstV: int, inbox: Inbox<(int, int)>, done: set<int>, sent: set<int>,
                             g': Graph, next: Inbox<(int, int)>, visited: int, dstVisited: bool) {
    && StatesSoFar(g, inbox, done, g')
    && CountSoFar(g, dstV, inbox, done, sent, visited, dstVisited)
    && SentSoFar(g, dstV, inbox, done, g', next)
  }

  lemma RoundStart(g: Graph, dstV: int, inbox: Inbox<(int, int)>)
    ensures RoundSoFar(g, dstV, inbox, {}, {}, g, map[], 0, false)
  {
    assert NewlySettled(g, inbox) * {} == {};
  }

  lemma RoundDone(g: Graph, dstV: int, inbox: Inbox<(int, int)>, done: set<int>, sent: set<int>,
                  g': Graph, next: Inbox<(int, int)>, visited: int, dstVisited: bool)
    requires done == g.Keys
    requires RoundSoFar(g, dstV, inbox, done, sent, g', next, visited, dstVisited)
    ensures g'.Keys == g.Keys
    ensures forall v :: v in g ==> g'[v] == Settle(g[v], InboxOf(inbox, v))
    ensures visited == |NewlySettled(g, inbox)|
    ensures dstVisited == (dstV in NewlySettled(g, inbox))
    ensures SentSound(g', NewlySettled(g, inbox), dstV, next) && SentComplete(g', NewlySettled(g, inbox), dstV, next)
  {
    assert NewlySettled(g, inbox) * done == NewlySettled(g, inbox);
    CardIsSize(sent);
  }

  // ---------------------------------------------------------------------------------------------
  // The shape the search keeps

  /** `p` reaches `v` over a residual edge from one step nearer the source, at distance `d - 1`. */
  ghost predicate EdgeFrom(g: Graph, p: int, v: int, d: int) {
    p in g && g[p].dist == d - 1 && v in g[p].resCaps
  }

  ghost predicate TreeAt(g: Graph, srcV: int, v: int)
    requires v in g
  {
    && g[v].dist >= -1
    && (g[v].dist == 0 ==> v == srcV && g[v].pre == -1)
    && (g[v].dist > 0 ==> EdgeFrom(g, g[v].pre, v, g[v].dist))
  }

  /** The reached vertices form a tree of residual edges rooted at the source, each vertex one step
      further than its predecessor; -1, the "no predecessor" mark, is no vertex id. */
  ghost predicate Tree(g: Graph, srcV: int) {
    -1 !in g && forall v :: v in g ==> TreeAt(g, srcV, v)
  }

  /** Every pending message was offered along a residual edge by a vertex one step nearer the source. */
  ghost predicate InboxOk(g: Graph, inbox: Inbox<(int, int)>) {
    forall a, m :: m in InboxOf(inbox, a) ==> m.0 >= 1 && EdgeFrom(g, m.1, a, m.0)
  }

  ghost function Unsettled(g: Graph): set<int> {
    set v | v in g && g[v].dist == -1
  }

  /** The initial round leaves the source as the root of an otherwise unreached graph. */
  lemma InitShape(g: Graph, srcV: int, g': Graph, inbox: Inbox<(int, int)>)
    requires -1 !in g
    requires g'.Keys == g.Keys
    requires forall v :: v in g ==> g'[v] == InitVertex(g[v], v == srcV)
    requires forall a :: InboxOf(inbox, a) == if srcV in g && a in g[srcV].resCaps then [(1, srcV)] else []
    ensures Tree(g', srcV) && InboxOk(g', inbox)
    ensures forall v :: v in g ==> g'[v].resCaps == g[v].resCaps
  {
    forall a, m | m in InboxOf(inbox, a) ensures m.0 >= 1 && EdgeFrom(g', m.1, a, m.0) {
      assert m == (1, srcV);
    }
  }

  /** One vertex after a round keeps its place in the tree. */
  lemma SettleShape(g: Graph, srcV: int, inbox: Inbox<(int, int)>, g': Graph, v: int)
    requires Tree(g, srcV) && InboxOk(g, inbox)
    requires g'.Keys == g.Keys && forall w :: w in g ==> g'[w] == Settle(g[w], InboxOf(inbox, w))
    requires v in g
    ensures TreeAt(g', srcV, v)
    ensures v in NewlySettled(g, inbox) ==> g'[v].dist >= 1
  {
    assert TreeAt(g, srcV, v);
    var msgs := InboxOf(inbox, v);
    if v in NewlySettled(g, inbox) {
      CombinedIn(msgs);
      var m := Combined(msgs);
      assert m.0 >= 1 && EdgeFrom(g, m.1, v, m.0);
      assert g'[m.1] == g[m.1];
    } else if g[v].dist > 0 {
      assert g'[g[v].pre] == g[g[v].pre];
    }
  }

  /** A round keeps the tree and hands on well-formed messages. */
  lemma RoundShape(g: Graph, srcV: int, dstV: int, inbox: Inbox<(int, int)>, g': Graph, next: Inbox<(int, int)>)
    requires Tree(g, srcV) && InboxOk(g, inbox)
    requires g'.Keys == g.Keys && forall v :: v in g ==> g'[v] == Settle(g[v], InboxOf(inbox, v))
    requires SentSound(g', NewlySettled(g, inbox), dstV, next)
    ensures Tree(g', srcV) && InboxOk(g', next)
    ensures dstV in NewlySettled(g, inbox) ==> dstV in g' && g'[dstV].dist >= 1
  {
    var ns := NewlySettled(g, inbox);
    forall v | v in g ensures TreeAt(g', srcV, v) && (v in ns ==> g'[v].dist >= 1) {
      SettleShape(g, srcV, inbox, g', v);
    }
    forall a, m | m in InboxOf(next, a) ensures m.0 >= 1 && EdgeFrom(g', m.1, a, m.0) {
      var w :| w in ns && w != dstV && w in g' && a in g'[w].resCaps && m == (g'[w].dist + 1, w);
    }
  }

  /** A round settles only unreached vertices, which stay settled, and changes no residual capacity;
      a round that settles nothing changes nothing. */
  lemma RoundProgress(g: Graph, srcV: int, inbox: Inbox<(int, int)>, g': Graph)
    requires Tree(g, srcV) && InboxOk(g, inbox)
    requires g'.Keys == g.Keys && forall v :: v in g ==> g'[v] == Settle(g[v], InboxOf(inbox, v))
    ensures forall v :: v in g ==> g'[v].resCaps == g[v].resCaps
    ensures NewlySettled(g, inbox) <= Unsettled(g)
    ensures Unsettled(g') == Unsettled(g) - NewlySettled(g, inbox)
    ensures NewlySettled(g, inbox) == {} ==> g' == g
  {
    var ns := NewlySettled(g, inbox);
    forall v | v in g ensures (v in Unsettled(g') <==> v in Unsettled(g) && v !in ns) {
      if v in ns {
        CombinedIn(InboxOf(inbox, v));
      }
    }
    if ns == {} {
      assert forall v :: v in g ==> g'[v] == g[v];
    }
  }

  // ---------------------------------------------------------------------------------------------
  // The search loop

  /** The search rounds, repeated until the sink settles. When a round settles nothing the search
      gives up (`BFS` returns 0 there): no unreached vertex has a pending message. */
  method Search(g: Graph, srcV: int, dstV: int, inbox: Inbox<(int, int)>)
    returns (g': Graph, found: bool, pending: Inbox<(int, int)>)
    requires Tree(g, srcV) && InboxOk(g, inbox)
    ensures g'.Keys == g.Keys && forall v :: v in g ==> g'[v].resCaps == g[v].resCaps
    ensures Tree(g', srcV)
    ensures found ==> dstV in g' && g'[dstV].dist >= 1
    ensures !found ==> InboxOk(g', pending) && NewlySettled(g', pending) == {}
  {
    g', found, pending := g, false, inbox;
    while !found
      invariant g'.Keys == g.Keys && forall v :: v in g ==> g'[v].resCaps == g[v].resCaps
      invariant Tree(g', srcV) && InboxOk(g', pending)
      invariant found ==> dstV in g' && g'[dstV].dist >= 1
      decreases Unsettled(g')
    {
      var g2, next, visited, dstVisited := SettleRound(g', dstV, pending);
      RoundShape(g', srcV, dstV, pending, g2, next);
      RoundProgress(g', srcV, pending, g2);
      if visited == 0 {
        return;
      }
      ghost var w := Pick(NewlySettled(g', pending));
      assert w in Unsettled(g') && w !in Unsettled(g2);
      g', found, pending := g2, dstVisited, next;
    }
  }

  // ---------------------------------------------------------------------------------------------
  // Backtracking

  /** `p[i - 1]` is the recorded predecessor of `p[i]`, over a residual edge. */
  ghost predicate Linked(g: Graph, p: seq<int>, i: int) {
    0 < i < |p| && p[i - 1] in g && p[i] in g && g[p[i]].pre == p[i - 1] && p[i] in g[p[i - 1]].resCaps
  }

  /** The predecessor path from the source to `v`. */
  ghost function Path(g: Graph, srcV: int, v: int): (p: seq<int>)
    requires Tree(g, srcV) && v in g && g[v].dist >= 0
    ensures |p| == g[v].dist + 1 && p[0] == srcV && p[|p| - 1] == v
    ensures forall i :: 0 <= i < |p| ==> p[i] in g && g[p[i]].dist == i
    ensures g[p[0]].pre == -1
    ensures forall i :: 0 < i < |p| ==> Linked(g, p, i)
    decreases g[v].dist
  {
    assert TreeAt(g, srcV, v);
    if g[v].dist == 0 then [v]
    else
      var q := Path(g, srcV, g[v].pre);
      LinkedAppend(g, q, v);
      q + [v]
  }

  lemma LinkedAppend(g: Graph, q: seq<int>, v: int)
    requires q != [] && q[|q| - 1] in g && v in g
    requires g[v].pre == q[|q| - 1] && v in g[q[|q| - 1]].resCaps
    requires forall i :: 0 < i < |q| ==> Linked(g, q, i)
    ensures forall i :: 0 < i < |q| + 1 ==> Linked(g, q + [v], i)
  {
    var p := q + [v];
    forall i | 0 < i < |p| ensures Linked(g, p, i) {
      if i < |q| {
        assert Linked(g, q, i) && p[i] == q[i] && p[i - 1] == q[i - 1];
      }
    }
  }

  /** `locEdges` records `p[i + 1]` as the successor of `p[i]`. */
  ghost predicate RecordsAt(locEdges: map<int, int>, p: seq<int>, i: int) {
    0 <= i < |p| - 1 && p[i] in locEdges && locEdges[p[i]] == p[i + 1]
  }

  /** The backtracking rounds: the sink sends its id to its predecessor, and each vertex reached this
      way records the successor it was sent (`locEdges`), checks the residual edge to it and passes its
      own id on, until the source, whose predecessor is -1, ends the walk. */
  method Backtrack(g: Graph, srcV: int, dstV: int) returns (locEdges: map<int, int>)
    requires Tree(g, srcV) && dstV in g && g[dstV].dist >= 1
    ensures forall v :: v in locEdges ==> v in g && locEdges[v] in g[v].resCaps
    ensures var p := Path(g, srcV, dstV);
      && locEdges.Keys == (set i | 0 <= i < |p| - 1 :: p[i])
      && forall i :: 0 <= i < |p| - 1 ==> RecordsAt(locEdges, p, i)
  {
    ghost var p := Path(g, srcV, dstV);
    PathNoDup(g, srcV, dstV);
    var v, suc := g[dstV].pre, dstV;
    ghost var k := |p| - 2;
    assert Linked(g, p, k + 1);
    locEdges := map[];
    while true
      invariant 0 <= k < |p| - 1 && v == p[k] && suc == p[k + 1]
      invariant Recorded(locEdges, p, k)
      decreases k
    {
      PathStep(g, srcV, dstV, k);
      assert suc in g[v].resCaps;
      RecordStep(locEdges, p, k);
      if v !in locEdges {
        locEdges := locEdges[v := suc];
      }
      if g[v].pre == -1 {
        assert k == 0;
        RecordedEdges(g, srcV, dstV, locEdges);
        return;
      }
      v, suc := g[v].pre, v;
      k := k - 1;
    }
  }

  /** `locEdges` records the successor of each of `p[k + 1 .. |p| - 2]`, and holds nothing else. */
  ghost predicate Recorded(locEdges: map<int, int>, p: seq<int>, k: int)
    requires -1 <= k
  {
    && locEdges.Keys == (set i | k < i < |p| - 1 :: p[i])
    && forall i :: k < i < |p| - 1 ==> RecordsAt(locEdges, p, i)
  }

  /** One step back along the predecessor path. */
  lemma PathStep(g: Graph, srcV: int, dstV: int, k: int)
    requires Tree(g, srcV) && dstV in g && g[dstV].dist >= 0
    requires 0 <= k < |Path(g, srcV, dstV)| - 1
    ensures var p := Path(g, srcV, dstV);
      && p[k] in g && p[k + 1] in g[p[k]].resCaps
      && (g[p[k]].pre == -1 <==> k == 0)
      && (k > 0 ==> g[p[k]].pre == p[k - 1])
  {
    var p := Path(g, srcV, dstV);
    assert Linked(g, p, k + 1);
    if k > 0 {
      assert Linked(g, p, k);
    }
  }

  /** Each recorded successor is a residual neighbour. */
  lemma RecordedEdges(g: Graph, srcV: int, dstV: int, locEdges: map<int, int>)
    requires Tree(g, srcV) && dstV in g && g[dstV].dist >= 0
    requires Recorded(locEdges, Path(g, srcV, dstV), -1)
    ensures forall v :: v in locEdges ==> v in g && locEdges[v] in g[v].resCaps
  {
    var p := Path(g, srcV, dstV);
    forall v | v in locEdges ensures v in g && locEdges[v] in g[v].resCaps {
      var i :| -1 < i < |p| - 1 && v == p[i];
      assert RecordsAt(locEdges, p, i) && Linked(g, p, i + 1);
    }
  }

  lemma RecordStep(locEdges: map<int, int>, p: seq<int>, k: int)
    requires NoDup(p) && 0 <= k < |p| - 1 && Recorded(locEdges, p, k)
    ensures p[k] !in locEdges && Recorded(locEdges[p[k] := p[k + 1]], p, k - 1)
  {
    var r := locEdges[p[k] := p[k + 1]];
    assert r.Keys == (set i | k - 1 < i < |p| - 1 :: p[i]);
    forall i | k - 1 < i < |p| - 1 ensures RecordsAt(r, p, i) {
      if i > k {
        assert RecordsAt(locEdges, p, i) && p[i] != p[k];
      }
    }
  }

  lemma PathNoDup(g: Graph, srcV: int, v: int)
    requires Tree(g, srcV) && v in g && g[v].dist >= 0
    ensures NoDup(Path(g, srcV, v))
  {
    var p := Path(g, srcV, v);
    forall i, j | 0 <= i < j < |p| ensures p[i] != p[j] {
      assert g[p[i]].dist == i && g[p[j]].dist == j;
    }
  }

  // ---------------------------------------------------------------------------------------------
  // Bottleneck and update

  /** The `minCap` round: the smallest residual capacity towards the recorded successor, over the
      vertices in `locEdges`, with IntMax as identity. Each lookup is the source's asserted one. */
  method Bottleneck(g: Graph, locEdges: map<int, int>) returns (minCap: int)
    requires forall v :: v in locEdges ==> v in g && locEdges[v] in g[v].resCaps
    ensures minCap <= IntMax
    ensures forall v :: v in locEdges ==> minCap <= g[v].resCaps[locEdges[v]]
    ensures minCap == IntMax || exists v :: v in locEdges && minCap == g[v].resCaps[locEdges[v]]
  {
    var caps := map v | v in locEdges :: g[v].resCaps[locEdges[v]];
    minCap := MinOver(caps);
    assert forall v :: v in locEdges ==> v in caps && caps[v] == g[v].resCaps[locEdges[v]];
    if minCap != IntMax {
      var v :| v in caps && minCap == caps[v];
    }
  }

  /** One vertex in the update round. */
  function Updated(x: Vertex, v: int, locEdges: map<int, int>, minCap: int): Vertex
    requires v in locEdges ==> CanAugment(x.resCaps, x.pre, locEdges[v], minCap)
  {
    if v in locEdges then x.(resCaps := Augment(x.resCaps, x.pre, locEdges[v], minCap)) else x
  }

  /** The update round: every vertex recorded in `locEdges` augments its residual capacities towards
      its predecessor and its recorded successor; every other vertex is left as it is. */
  method UpdateEdges(g: Graph, locEdges: map<int, int>, minCap: int) returns (g': Graph)
    requires forall v :: v in locEdges && v in g ==> CanAugment(g[v].resCaps, g[v].pre, locEdges[v], minCap)
    ensures g'.Keys == g.Keys
    ensures forall v :: v in g ==> g'[v] == Updated(g[v], v, locEdges, minCap)
  {
    g' := g;
    var todo := g.Keys;
    ghost var done: set<int> := {};
    while todo != {}
      invariant done + todo == g.Keys && done !! todo
      invariant g'.Keys == g.Keys
      invariant forall v :: v in done ==> g'[v] == Updated(g[v], v, locEdges, minCap)
      invariant forall v :: v in todo ==> g'[v] == g[v]
      decreases todo
    {
      Member(todo);
      var v :| v in todo;
      if v in locEdges {
        var x := g[v];
        g' := g'[v := x.(resCaps := Augment(x.resCaps, x.pre, locEdges[v], minCap))];
      }
      todo := todo - {v};
      done := done + {v};
    }
  }

  /** The residual capacities of the graph, by vertex id. */
  ghost function CapsOf(g: Graph): Caps {
    map v | v in g :: g[v].resCaps
  }

  /** `p[i]` records its path neighbour before it as predecessor. */
  ghost predicate PreAt(g: Graph, p: seq<int>, i: int) {
    0 <= i < |p| && p[i] in g && g[p[i]].pre == PreOn(p, i)
  }

  /** The predecessor path to a reached sink is an augmenting path of the graph the search started
      from, and each vertex on it records its path predecessor. */
  lemma PathIsAugmenting(g: Graph, g2: Graph, srcV: int, dstV: int)
    requires Tree(g2, srcV) && dstV in g2 && g2[dstV].dist >= 1
    requires CapsOf(g2) == CapsOf(g)
    ensures var p := Path(g2, srcV, dstV);
      && AugmentingPath(CapsOf(g), srcV, dstV, p)
      && forall i :: 0 <= i < |p| ==> PreAt(g2, p, i)
  {
    var p := Path(g2, srcV, dstV);
    var c := CapsOf(g);
    PathNoDup(g2, srcV, dstV);
    forall i | 0 <= i < |p| - 1 ensures StepOn(c, p, i) {
      assert Linked(g2, p, i + 1);
      assert c[p[i]] == g2[p[i]].resCaps;
    }
    forall i | 0 <= i < |p| ensures PreAt(g2, p, i) {
      if i > 0 {
        assert Linked(g2, p, i);
      }
    }
  }

  /** The `minCap` over the recorded edges of a path is the bottleneck of that path. */
  lemma BottleneckIsPathMin(g2: Graph, p: seq<int>, locEdges: map<int, int>, minCap: int)
    requires forall i :: 0 <= i < |p| ==> p[i] in g2
    requires locEdges.Keys == (set i | 0 <= i < |p| - 1 :: p[i])
    requires forall i :: 0 <= i < |p| - 1 ==> RecordsAt(locEdges, p, i)
    requires forall v :: v in locEdges ==> v in g2 && locEdges[v] in g2[v].resCaps
    requires minCap <= IntMax
    requires forall v :: v in locEdges ==> minCap <= g2[v].resCaps[locEdges[v]]
    requires minCap == IntMax || exists v :: v in locEdges && minCap == g2[v].resCaps[locEdges[v]]
    ensures minCap == PathMin(CapsOf(g2), p)
    ensures forall i :: 0 <= i < |p| - 1 ==> minCap <= EdgeCapAt(CapsOf(g2), p, i)
  {
    var c := CapsOf(g2);
    forall i | 0 <= i < |p| - 1 ensures minCap <= EdgeCapAt(c, p, i) {
      assert RecordsAt(locEdges, p, i);
      var v := p[i];
      assert c[v] == g2[v].resCaps;
    }
    if minCap != IntMax {
      var v :| v in locEdges && minCap == g2[v].resCaps[locEdges[v]];
      var i :| 0 <= i < |p| - 1 && v == p[i];
      assert RecordsAt(locEdges, p, i);
      assert c[v] == g2[v].resCaps;
      assert minCap == EdgeCapAt(c, p, i);
    }
    PathMinIs(c, p, minCap);
  }

  /** The update's assertions hold at the vertices the backtracking recorded. */
  lemma CanUpdateEdges(g2: Graph, p: seq<int>, locEdges: map<int, int>, minCap: int)
    requires |p| >= 2
    requires forall i :: 0 <= i < |p| ==> PreAt(g2, p, i)
    requires locEdges.Keys == (set i | 0 <= i < |p| - 1 :: p[i])
    requires forall i :: 0 <= i < |p| - 1 ==> RecordsAt(locEdges, p, i)
    requires forall i :: 0 <= i < |p| - 1 ==> CanAugmentAt(CapsOf(g2), p, i, minCap)
    ensures forall v :: v in locEdges && v in g2 ==> CanAugment(g2[v].resCaps, g2[v].pre, locEdges[v], minCap)
  {
    var c := CapsOf(g2);
    forall v | v in locEdges && v in g2 ensures CanAugment(g2[v].resCaps, g2[v].pre, locEdges[v], minCap) {
      var i :| 0 <= i < |p| - 1 && v == p[i];
      assert RecordsAt(locEdges, p, i) && PreAt(g2, p, i) && CanAugmentAt(c, p, i, minCap);
      assert c[v] == g2[v].resCaps;
    }
  }

  lemma UpdateIsAugmented(g2: Graph, g3: Graph, p: seq<int>, locEdges: map<int, int>, minCap: int)
    requires |p| >= 2
    requires forall i :: 0 <= i < |p| ==> PreAt(g2, p, i)
    requires locEdges.Keys == (set i | 0 <= i < |p| - 1 :: p[i])
    requires forall i :: 0 <= i < |p| - 1 ==> RecordsAt(locEdges, p, i)
    requires forall i :: 0 <= i < |p| - 1 ==> CanAugmentAt(CapsOf(g2), p, i, minCap)
    requires forall v :: v in locEdges && v in g2 ==> CanAugment(g2[v].resCaps, g2[v].pre, locEdges[v], minCap)
    requires g3.Keys == g2.Keys && forall v :: v in g2 ==> g3[v] == Updated(g2[v], v, locEdges, minCap)
    ensures Augmented(CapsOf(g2), CapsOf(g3), p, minCap)
  {
    var c2, c3 := CapsOf(g2), CapsOf(g3);
    forall i | 0 <= i < |p| - 1 ensures PushedAt(c2, c3, p, i, minCap) {
      assert RecordsAt(locEdges, p, i) && PreAt(g2, p, i) && CanAugmentAt(c2, p, i, minCap);
      var v := p[i];
      assert g3[v] == Updated(g2[v], v, locEdges, minCap);
      assert c2[v] == g2[v].resCaps && c3[v] == g3[v].resCaps;
    }
    assert forall i :: 0 <= i < |p| - 1 ==> p[..|p| - 1][i] == p[i];
    forall v | v in c2 && v !in p[..|p| - 1] ensures c3[v] == c2[v] {
      assert v !in locEdges;
    }
  }

  // ---------------------------------------------------------------------------------------------
  // One augmentation and the flow loop

  /** Without a path, result 0 and every residual capacity as it was; with one, an augmenting path,
      its bottleneck as result, and that flow pushed along it. */
  ghost predicate BfsOutcome(g: Graph, g': Graph, srcV: int, dstV: int, flow: int, p: seq<int>) {
    && g'.Keys == g.Keys
    && (p == [] ==> flow == 0 && CapsOf(g') == CapsOf(g))
    && (p != [] ==> AugmentingPath(CapsOf(g), srcV, dstV, p) && flow == PathMin(CapsOf(g), p)
                    && Augmented(CapsOf(g), CapsOf(g'), p, flow))
  }

  /** `BFS`: one augmentation. When the search gives up it returns 0 and every residual capacity is
      as it was; otherwise it returns the bottleneck of an augmenting path and has pushed it along
      that path. */
  method Bfs(g: Graph, srcV: int, dstV: int) returns (g': Graph, flow: int, ghost p: seq<int>)
    requires -1 !in g
    ensures BfsOutcome(g, g', srcV, dstV, flow, p)
  {
    var g1, inbox, initVisited := InitBfs(g, srcV);
    InitShape(g, srcV, g1, inbox);
    var g2, found, pending := Search(g1, srcV, dstV, inbox);
    SameCaps(g, g2);
    if !found {
      return g2, 0, [];
    }
    g', flow, p := PushAlongPath(g2, srcV, dstV);
  }

  lemma SameCaps(g: Graph, g2: Graph)
    requires g2.Keys == g.Keys && forall v :: v in g ==> g2[v].resCaps == g[v].resCaps
    ensures CapsOf(g2) == CapsOf(g)
  {
    var c, c2 := CapsOf(g), CapsOf(g2);
    assert forall v :: v in c ==> c2[v] == c[v];
  }

  /** The part of `BFS` after the sink was reached: backtracking, `minCap` and the update. */
  method PushAlongPath(g2: Graph, srcV: int, dstV: int) returns (g': Graph, flow: int, ghost p: seq<int>)
    requires Tree(g2, srcV) && dstV in g2 && g2[dstV].dist >= 1
    ensures p != [] && BfsOutcome(g2, g', srcV, dstV, flow, p)
  {
    var locEdges := Backtrack(g2, srcV, dstV);
    p := Path(g2, srcV, dstV);
    PathIsAugmenting(g2, g2, srcV, dstV);
    var minCap := Bottleneck(g2, locEdges);
    BottleneckIsPathMin(g2, p, locEdges, minCap);
    CanUpdate(CapsOf(g2), p, minCap);
    CanUpdateEdges(g2, p, locEdges, minCap);
    g' := UpdateEdges(g2, locEdges, minCap);
    UpdateIsAugmented(g2, g', p, locEdges, minCap);
    flow := minCap;
  }

  /** The result of `Bfs` is one augmentation step. */
  lemma BfsIsStep(g: Graph, g': Graph, srcV: int, dstV: int, flow: int, p: seq<int>)
    requires BfsOutcome(g, g', srcV, dstV, flow, p)
    ensures AugmentationStep(CapsOf(g), CapsOf(g'), srcV, dstV, flow)
  {
  }

  /** The state of the do-while loop: the residual graph was reached from `g0` by the augmentations
      that returned `flows`, all but the last of them positive, and `totFlow` is their sum. */
  ghost predicate Progress(g0: Graph, g: Graph, caps: seq<Caps>, flows: seq<int>, totFlow: int, srcV: int, dstV: int) {
    && g.Keys == g0.Keys
    && Run(caps, flows, CapsOf(g0), CapsOf(g), srcV, dstV)
    && totFlow == Sum(flows)
    && forall i :: 0 <= i < |flows| - 1 ==> flows[i] > 0
  }

  /** One more pass of the do-while loop, after a positive result: augment once and add the result to
      `totFlow`. */
  method AugmentMore(g0: Graph, g: Graph, srcV: int, dstV: int, totFlow: int, ghost flows: seq<int>, ghost caps: seq<Caps>)
    returns (g': Graph, flow: int, totFlow': int, ghost flows': seq<int>, ghost caps': seq<Caps>)
    requires -1 !in g0
    requires Progress(g0, g, caps, flows, totFlow, srcV, dstV) && flows[|flows| - 1] > 0
    ensures Progress(g0, g', caps', flows', totFlow', srcV, dstV)
    ensures |flows'| == |flows| + 1 && flows'[|flows|] == flow
  {
    ghost var p: seq<int>;
    g', flow, p := Bfs(g, srcV, dstV);
    BfsIsStep(g, g', srcV, dstV, flow, p);
    RunAppend(caps, flows, CapsOf(g0), CapsOf(g), srcV, dstV, CapsOf(g'), flow);
    SumAppend(flows, flow);
    LastAppend(flows, flow);
    totFlow' := totFlow + flow;
    flows', caps' := flows + [flow], caps + [CapsOf(g')];
  }

  /** `EdmondsKarpPredecessor`'s do-while loop: augment and add the result to `totFlow` until an
      augmentation returns no positive flow; `maxRounds` bounds the number of augmentations. */
  method EdmondsKarp(g: Graph, srcV: int, dstV: int, maxRounds: nat)
    returns (g': Graph, totFlow: int, ghost flows: seq<int>, ghost caps: seq<Caps>)
    requires -1 !in g
    ensures g'.Keys == g.Keys
    ensures Run(caps, flows, CapsOf(g), CapsOf(g'), srcV, dstV)
    ensures totFlow == Sum(flows)
    ensures forall i :: 0 <= i < |flows| - 1 ==> flows[i] > 0
    ensures flows[|flows| - 1] <= 0 || |flows| >= maxRounds
  {
    var flow: int;
    ghost var p: seq<int>;
    g', flow, p := Bfs(g, srcV, dstV);
    BfsIsStep(g, g', srcV, dstV, flow, p);
    totFlow := flow;
    flows, caps := [flow], [CapsOf(g), CapsOf(g')];
    assert Sum(flows) == flow by { assert [flow] == [] + [flow]; SumAppend([], flow); }
    var rounds := 1;
    while flow > 0 && rounds < maxRounds
      invariant Progress(g, g', caps, flows, totFlow, srcV, dstV)
      invariant rounds == |flows| && flow == flows[|flows| - 1]
      decreases maxRounds - rounds
    {
      g', flow, totFlow, flows, caps := AugmentMore(g, g', srcV, dstV, totFlow, flows, caps);
      rounds := rounds + 1;
    }
  }
}
