/** One augmentation of the Edmonds–Karp variant whose search messages carry the whole path prefix
    from the source: a breadth-first search over residual edges in which the sink, on settling, tells
    each vertex of its prefix its path predecessor and successor; then the bottleneck over the notified
    vertices and the residual update. The framework's rounds become loops over the vertex list. */
module EkPrefix {
  import opened Seqs
  import opened KeyMinCombiner
  import opened Residual
  import opened Inboxes

  /** `VertexEK`: residual capacity per neighbour and BFS distance (-1 while not reached). */
  datatype Vertex = Vertex(resCaps: map<int, int>, dist: int)

  /** The vertex list, by id. */
  type Graph = map<int, Vertex>

  /** A search message: (distance, path prefix from the source). */
  type Offer = (int, seq<int>)

  /** A notification: (path predecessor, path successor). */
  type Note = (int, int)

  // ---------------------------------------------------------------------------------------------
  // The search

  function InitVertex(x: Vertex, isSource: bool): Vertex {
    x.(dist := if isSource then 0 else -1)
  }

  /** The initial round: the source is at distance 0 and offers (1, [src]) to each residual
      neighbour; every other vertex is unreached. */
  method InitBfs(g: Graph, srcV: int) returns (g': Graph, inbox: Inbox<Offer>, visited: int)
    ensures g'.Keys == g.Keys
    ensures forall v :: v in g ==> g'[v] == InitVertex(g[v], v == srcV)
    ensures forall a :: InboxOf(inbox, a) == if srcV in g && a in g[srcV].resCaps then [(1, [srcV])] else []
    ensures visited == if srcV in g then 1 else 0
  {
    g' := g;
    inbox := map[];
    visited := 0;
    var todo := g.Keys;
    ghost var done: set<int> := {};
    while todo != {}
      invariant done + todo == g.Keys && done !! todo
      invariant g'.Keys == g.Keys
      invariant forall v :: v in done ==> g'[v] == InitVertex(g[v], v == srcV)
      invariant forall v :: v in todo ==> g'[v] == g[v]
      invariant forall a :: InboxOf(inbox, a) == if srcV in done && a in g[srcV].resCaps then [(1, [srcV])] else []
      invariant visited == if srcV in done then 1 else 0
      decreases todo
    {
      Member(todo);
      var v :| v in todo;
      if v == srcV {
        g' := g'[v := g[v].(dist := 0)];
        visited := visited + 1;
        inbox := PushAll(inbox, g[v].resCaps.Keys, (1, [v]));
      } else {
        g' := g'[v := g[v].(dist := -1)];
      }
      todo := todo - {v};
      done := done + {v};
    }
  }

  /** The settle-once rule: an unreached vertex with messages takes the distance of their min-dist
      combination; every other vertex keeps its state. */
  function Settle(x: Vertex, msgs: seq<Offer>): Vertex {
    if x.dist != -1 || msgs == [] then x else x.(dist := Combined(msgs).0)
  }

  /** The message a settled vertex `v` passes on: one step further, with `v` appended to the prefix. */
  function Forward(m: Offer, v: int): (r: Offer)
    ensures r.0 == m.0 + 1 && r.1 == m.1 + [v]
  {
    (m.0 + 1, m.1 + [v])
  }

  /** The notifications to the first `k` vertices of the path `q`, sent in path order: `q[i]` is told
      its path predecessor (-1 at the source) and its path successor. */
  function Notes(notes: Inbox<Note>, q: seq<int>, k: nat): Inbox<Note>
    requires k < |q|
  {
    if k == 0 then notes else Send(Notes(notes, q, k - 1), q[k - 1], (PreOn(q, k - 1), q[k]))
  }

  /** The sink's notification of the prefix `p` it settled with, in the source's three cases: the
      first vertex, the ones in between, and the last; or the single vertex of a one-vertex prefix. */
  method Notify(notes: Inbox<Note>, p: seq<int>, dstV: int) returns (notes': Inbox<Note>)
    requires p != []
    ensures notes' == Notes(notes, p + [dstV], |p|)
  {
    ghost var q := p + [dstV];
    var np := |p|;
    if np > 1 {
      assert q[0] == p[0] && q[1] == p[1];
      NotifyStep(notes, q, 0, notes, -1, p[1]);
      notes' := Send(notes, p[0], (-1, p[1]));
      var i := 1;
      while i < np - 1
        invariant 1 <= i <= np - 1
        invariant notes' == Notes(notes, q, i)
      {
        assert q[i - 1] == p[i - 1] && q[i] == p[i] && q[i + 1] == p[i + 1];
        NotifyStep(notes, q, i, notes', p[i - 1], p[i + 1]);
        notes' := Send(notes', p[i], (p[i - 1], p[i + 1]));
        i := i + 1;
      }
      assert q[np - 2] == p[np - 2] && q[np - 1] == p[np - 1] && q[np] == dstV;
      NotifyStep(notes, q, np - 1, notes', p[np - 2], dstV);
      notes' := Send(notes', p[np - 1], (p[np - 2], dstV));
    } else {
      assert q[0] == p[0] && q[1] == dstV;
      NotifyStep(notes, q, 0, notes, -1, dstV);
      notes' := Send(notes, p[0], (-1, dstV));
    }
  }

  lemma NotifyStep(notes: Inbox<Note>, q: seq<int>, i: nat, notes': Inbox<Note>, pre: int, suc: int)
    requires i < |q| - 1 && notes' == Notes(notes, q, i)
    requires pre == PreOn(q, i) && suc == q[i + 1]
    ensures Send(notes', q[i], (pre, suc)) == Notes(notes, q, i + 1)
  {
  }

  /** `q[i]` holds exactly one notification, naming its path neighbours. */
  ghost predicate NotifiedAt(notes: Inbox<Note>, q: seq<int>, i: int) {
    0 <= i < |q| - 1 && InboxOf(notes, q[i]) == [(PreOn(q, i), q[i + 1])]
  }

  /** Along a path without repeated vertices, each of the first `k` vertices gets exactly one
      notification, naming its path neighbours, and no other id gets any. */
  lemma {:induction false} NotesAt(q: seq<int>, k: nat)
    requires NoDup(q) && k < |q|
    ensures forall i :: 0 <= i < k ==> NotifiedAt(Notes(map[], q, k), q, i)
    ensures forall a :: a !in q[..k] ==> InboxOf(Notes(map[], q, k), a) == []
  {
    if k > 0 {
      NotesAt(q, k - 1);
      var n0, n := Notes(map[], q, k - 1), Notes(map[], q, k);
      assert q[..k] == q[..k - 1] + [q[k - 1]];
      var s := q[..k - 1];
      assert q[k - 1] !in s by {
        forall j | 0 <= j < |s| ensures s[j] != q[k - 1] {
          assert s[j] == q[j];
        }
      }
      forall i | 0 <= i < k ensures NotifiedAt(n, q, i) {
        if i < k - 1 {
          assert NotifiedAt(n0, q, i) && q[i] != q[k - 1];
        }
      }
    }
  }

  /** The round's lambda on one vertex. A settled vertex other than the sink passes its message on to
      each residual neighbour; the sink notifies the vertices of its prefix. */
  method VisitVertex(v: int, x: Vertex, msgs: seq<Offer>, dstV: int, next: Inbox<Offer>, notes: Inbox<Note>)
    returns (x': Vertex, next': Inbox<Offer>, notes': Inbox<Note>, settled: bool)
    requires forall m :: m in msgs ==> m.1 != []
    ensures x' == Settle(x, msgs)
    ensures settled == (x.dist == -1 && msgs != [])
    ensures settled && v != dstV ==> Pushed(next, next', x.resCaps.Keys, Forward(Combined(msgs), v)) && notes' == notes
    ensures settled && v == dstV ==> next' == next && notes' == Notes(notes, Combined(msgs).1 + [v], |Combined(msgs).1|)
    ensures !settled ==> next' == next && notes' == notes
  {
    x', next', notes', settled := x, next, notes, false;
    if x.dist != -1 || msgs == [] {
      return;
    }
    var msg := Combined(msgs);
    CombinedIn(msgs);
    x' := x.(dist := msg.0);
    settled := true;
    if v == dstV {
      notes' := Notify(notes, msg.1, v);
    } else {
      next' := PushAll(next, x.resCaps.Keys, Forward(msg, v));
    }
  }

  ghost function NewlySettled(g: Graph, inbox: Inbox<Offer>): set<int> {
    set v | v in g && g[v].dist == -1 && InboxOf(inbox, v) != []
  }

  ghost function Unsettled(g: Graph): set<int> {
    set v | v in g && g[v].dist == -1
  }

  // ---------------------------------------------------------------------------------------------
  // The shape the search keeps

  /** The edge from `p[i]` to `p[i + 1]` is residual. */
  ghost predicate HopAt(g: Graph, p: seq<int>, i: int) {
    0 <= i < |p| - 1 && p[i] in g && p[i + 1] in g[p[i]].resCaps
  }

  /** `p` runs from the source over residual edges through settled vertices, `p[i]` at distance `i`. */
  ghost predicate Prefix(g: Graph, srcV: int, p: seq<int>) {
    && p != [] && p[0] == srcV
    && (forall i :: 0 <= i < |p| ==> p[i] in g && g[p[i]].dist == i)
    && (forall i :: 0 <= i < |p| - 1 ==> HopAt(g, p, i))
  }

  /** A message offered to `a`: its distance is the length of its prefix, and the prefix ends with a
      residual edge to `a`. */
  ghost predicate OfferOk(g: Graph, srcV: int, a: int, m: Offer) {
    m.0 == |m.1| && Prefix(g, srcV, m.1) && a in g[m.1[|m.1| - 1]].resCaps
  }

  ghost predicate InboxOk(g: Graph, srcV: int, inbox: Inbox<Offer>) {
    forall a, m :: m in InboxOf(inbox, a) ==> OfferOk(g, srcV, a, m)
  }

  /** `g'` differs from `g` only at vertices that were unreached in `g`, and only in their distance. */
  ghost predicate Grows(g: Graph, g': Graph) {
    && g'.Keys == g.Keys
    && forall v :: v in g ==> g'[v].resCaps == g[v].resCaps && (g[v].dist != -1 ==> g'[v] == g[v])
  }

  lemma GrowsTrans(g: Graph, g': Graph, g'': Graph)
    requires Grows(g, g') && Grows(g', g'')
    ensures Grows(g, g'')
  {
  }

  lemma PrefixGrows(g: Graph, g': Graph, srcV: int, p: seq<int>)
    requires Grows(g, g') && Prefix(g, srcV, p)
    ensures Prefix(g', srcV, p)
  {
    forall i | 0 <= i < |p| ensures p[i] in g' && g'[p[i]].dist == i {
      var v := p[i];
      assert v in g && g[v].dist == i;
    }
    forall i | 0 <= i < |p| - 1 ensures HopAt(g', p, i) {
      assert HopAt(g, p, i);
      var v := p[i];
      assert g'[v].resCaps == g[v].resCaps;
    }
  }

  lemma OfferGrows(g: Graph, g': Graph, srcV: int, a: int, m: Offer)
    requires Grows(g, g') && OfferOk(g, srcV, a, m)
    ensures OfferOk(g', srcV, a, m)
  {
    PrefixGrows(g, g', srcV, m.1);
    var v := m.1[|m.1| - 1];
    assert g'[v].resCaps == g[v].resCaps;
  }

  lemma InboxGrows(g: Graph, g': Graph, srcV: int, inbox: Inbox<Offer>)
    requires Grows(g, g') && InboxOk(g, srcV, inbox)
    ensures InboxOk(g', srcV, inbox)
  {
    forall a, m | m in InboxOf(inbox, a) ensures OfferOk(g', srcV, a, m) {
      OfferGrows(g, g', srcV, a, m);
    }
  }

  /** The vertex `v`, unreached, settling with the message `m` offered to it extends the prefix of `m`
      by itself. */
  lemma SettleExtends(g: Graph, srcV: int, v: int, m: Offer)
    requires v in g && g[v].dist == -1 && OfferOk(g, srcV, v, m)
    ensures var g' := g[v := g[v].(dist := m.0)];
      Grows(g, g') && Prefix(g', srcV, m.1 + [v])
  {
    var g' := g[v := g[v].(dist := m.0)];
    var p, q := m.1, m.1 + [v];
    assert Grows(g, g');
    PrefixGrows(g, g', srcV, p);
    forall i | 0 <= i < |q| ensures q[i] in g' && g'[q[i]].dist == i {
      if i < |p| {
        assert q[i] == p[i];
      }
    }
    forall i | 0 <= i < |q| - 1 ensures HopAt(g', q, i) {
      if i < |p| - 1 {
        assert HopAt(g', p, i) && q[i] == p[i] && q[i + 1] == p[i + 1];
      } else {
        var u := p[i];
        assert q[i] == u && q[i + 1] == v && g'[u].resCaps == g[u].resCaps;
      }
    }
  }

  // ---------------------------------------------------------------------------------------------
  // One round

  /** The vertex states of a round after the vertices in `done` were visited. */
  ghost predicate StatesSoFar(g: Graph, inbox: Inbox<Offer>, done: set<int>, g': Graph) {
    && g'.Keys == g.Keys
    && (forall v :: v in g ==> g'[v] == if v in done then Settle(g[v], InboxOf(inbox, v)) else g[v])
  }

  /** The counters of a round: `sent` holds the visited vertices that settled so far. */
  ghost predicate CountSoFar(g: Graph, dstV: int, inbox: Inbox<Offer>, done: set<int>, sent: set<int>,
                             visited: int, dstVisited: bool) {
    && sent == NewlySettled(g, inbox) * done
    && visited == Card(sent)
    && dstVisited == (dstV in sent)
  }

  /** What the sink's notifications are: none before it settled, and afterwards one per vertex of the
      prefix it settled with, which ends with the sink a path through settled vertices. */
  ghost predicate NotesSoFar(g': Graph, srcV: int, dstV: int, dstVisited: bool, notes: Inbox<Note>, path: seq<int>) {
    && (!dstVisited ==> notes == map[])
    && (dstVisited ==> |path| >= 2 && path[|path| - 1] == dstV && Prefix(g', srcV, path)
                       && notes == Notes(map[], path, |path| - 1))
  }

  /** Every offer in `next` was passed on by a vertex of `s` other than the sink to one of its residual
      neighbours: the vertex's combined message, one step further and with the vertex appended. */
  ghost predicate SentSound(g: Graph, inbox: Inbox<Offer>, s: set<int>, dstV: int, next: Inbox<Offer>) {
    forall a, m :: m in InboxOf(next, a) ==>
      exists v :: v in s && v != dstV && v in g && InboxOf(inbox, v) != [] && a in g[v].resCaps
                  && m == Forward(Combined(InboxOf(inbox, v)), v)
  }

  /** Every vertex of `s` other than the sink passed its combined message on to each residual neighbour. */
  ghost predicate SentComplete(g: Graph, inbox: Inbox<Offer>, s: set<int>, dstV: int, next: Inbox<Offer>) {
    forall v, a :: v in s && v != dstV && v in g && InboxOf(inbox, v) != [] && a in g[v].resCaps ==>
      Forward(Combined(InboxOf(inbox, v)), v) in InboxOf(next, a)
  }

  /** The offers of a round after the vertices in `done` were visited. */
  ghost predicate SentSoFar(g: Graph, dstV: int, inbox: Inbox<Offer>, done: set<int>, next: Inbox<Offer>) {
    && SentSound(g, inbox, NewlySettled(g, inbox) * done, dstV, next)
    && SentComplete(g, inbox, NewlySettled(g, inbox) * done, dstV, next)
  }

  lemma SentStep(g: Graph, inbox: Inbox<Offer>, s: set<int>, dstV: int, next: Inbox<Offer>, next': Inbox<Offer>, v: int)
    requires v in g && v !in s && v != dstV && InboxOf(inbox, v) != []
    requires SentSound(g, inbox, s, dstV, next) && SentComplete(g, inbox, s, dstV, next)
    requires Pushed(next, next', g[v].resCaps.Keys, Forward(Combined(InboxOf(inbox, v)), v))
    ensures SentSound(g, inbox, s + {v}, dstV, next') && SentComplete(g, inbox, s + {v}, dstV, next')
  {
    var f := Forward(Combined(InboxOf(inbox, v)), v);
    forall a, m | m in InboxOf(next', a)
      ensures exists w :: w in s + {v} && w != dstV && w in g && InboxOf(inbox, w) != [] && a in g[w].resCaps
                          && m == Forward(Combined(InboxOf(inbox, w)), w)
    {
      if a in g[v].resCaps && m == f {
      } else if a in g[v].resCaps {
        assert InboxOf(next', a) == InboxOf(next, a) + [f];
        assert m in InboxOf(next, a);
      } else {
        assert m in InboxOf(next, a);
      }
    }
  }

  lemma SentSoFarStep(g: Graph, dstV: int, inbox: Inbox<Offer>, done: set<int>, next: Inbox<Offer>,
                      v: int, next': Inbox<Offer>, settled: bool)
    requires SentSoFar(g, dstV, inbox, done, next)
    requires v in g && v !in done
    requires settled == (g[v].dist == -1 && InboxOf(inbox, v) != [])
    requires settled && v != dstV ==> Pushed(next, next', g[v].resCaps.Keys, Forward(Combined(InboxOf(inbox, v)), v))
    requires !(settled && v != dstV) ==> next' == next
    ensures SentSoFar(g, dstV, inbox, done + {v}, next')
  {
    var ns := NewlySettled(g, inbox);
    var sent := ns * done;
    assert settled <==> v in ns;
    if settled {
      assert ns * (done + {v}) == sent + {v};
      if v != dstV {
        SentStep(g, inbox, sent, dstV, next, next', v);
      }
    } else {
      assert ns * (done + {v}) == sent;
    }
  }

  /** The whole state of a round after the vertices in `done` were visited. */
  ghost predicate RoundSoFar(g: Graph, srcV: int, dstV: int, inbox: Inbox<Offer>, done: set<int>, sent: set<int>,
                             g': Graph, next: Inbox<Offer>, notes: Inbox<Note>, visited: int, dstVisited: bool,
                             path: seq<int>) {
    && StatesSoFar(g, inbox, done, g')
    && CountSoFar(g, dstV, inbox, done, sent, visited, dstVisited)
    && Grows(g, g')
    && InboxOk(g', srcV, next)
    && NotesSoFar(g', srcV, dstV, dstVisited, notes, path)
    && SentSoFar(g, dstV, inbox, done, next)
  }

  lemma StatesStep(g: Graph, inbox: Inbox<Offer>, done: set<int>, g': Graph, v: int, x': Vertex)
    requires StatesSoFar(g, inbox, done, g')
    requires v in g && x' == Settle(g[v], InboxOf(inbox, v))
    ensures StatesSoFar(g, inbox, done + {v}, g'[v := x'])
  {
    var g'' := g'[v := x'];
    forall w | w in g
      ensures g''[w] == if w in done + {v} then Settle(g[w], InboxOf(inbox, w)) else g[w]
    {
      if w != v {
        assert g''[w] == g'[w];
      }
    }
  }

  lemma CountStep(g: Graph, dstV: int, inbox: Inbox<Offer>, done: set<int>, sent: set<int>,
                  visited: int, dstVisited: bool, v: int, settled: bool)
    requires CountSoFar(g, dstV, inbox, done, sent, visited, dstVisited)
    requires v in g && v !in done
    requires settled == (g[v].dist == -1 && InboxOf(inbox, v) != [])
    ensures CountSoFar(g, dstV, inbox, done + {v}, if settled then sent + {v} else sent,
                       visited + (if settled then 1 else 0), dstVisited || (settled && v == dstV))
  {
    var ns := NewlySettled(g, inbox);
    assert settled <==> v in ns;
    if settled {
      assert ns * (done + {v}) == sent + {v};
      CardAdd(sent, v);
    } else {
      assert ns * (done + {v}) == sent;
    }
  }

  /** The messages and notifications stay well-formed when one more vertex is visited. */
  lemma ShapeStep(g: Graph, srcV: int, dstV: int, inbox: Inbox<Offer>, done: set<int>, sent: set<int>,
                  g': Graph, next: Inbox<Offer>, notes: Inbox<Note>, visited: int, dstVisited: bool, path: seq<int>,
                  v: int, x': Vertex, next': Inbox<Offer>, notes': Inbox<Note>, settled: bool)
    requires RoundSoFar(g, srcV, dstV, inbox, done, sent, g', next, notes, visited, dstVisited, path)
    requires InboxOk(g, srcV, inbox)
    requires v in g && v !in done
    requires x' == Settle(g[v], InboxOf(inbox, v))
    requires settled == (g[v].dist == -1 && InboxOf(inbox, v) != [])
    requires settled && v != dstV ==> Pushed(next, next', g[v].resCaps.Keys, Forward(Combined(InboxOf(inbox, v)), v)) && notes' == notes
    requires settled && v == dstV ==>
      next' == next && notes' == Notes(notes, Combined(InboxOf(inbox, v)).1 + [v], |Combined(InboxOf(inbox, v)).1|)
    requires !settled ==> next' == next && notes' == notes
    ensures var path' := if settled && v == dstV then Combined(InboxOf(inbox, v)).1 + [v] else path;
      && Grows(g, g'[v := x'])
      && InboxOk(g'[v := x'], srcV, next')
      && NotesSoFar(g'[v := x'], srcV, dstV, dstVisited || (settled && v == dstV), notes', path')
  {
    var g'' := g'[v := x'];
    assert g'[v] == g[v];
    if !settled {
      assert g'' == g';
      return;
    }
    var m := Combined(InboxOf(inbox, v));
    CombinedIn(InboxOf(inbox, v));
    assert OfferOk(g, srcV, v, m);
    SettledStep(g, g', srcV, v, m, next, dstVisited, path);
    assert g'' == g'[v := g'[v].(dist := m.0)];
    if v == dstV {
      assert !dstVisited by {
        assert v !in sent;
      }
    } else {
      ForwardStep(g'', srcV, v, m, next, next');
    }
  }

  /** An unreached vertex settling with a well-formed message keeps the round's shape and extends
      the message's prefix by itself. */
  lemma SettledStep(g: Graph, g': Graph, srcV: int, v: int, m: Offer, next: Inbox<Offer>, dstVisited: bool, path: seq<int>)
    requires Grows(g, g') && InboxOk(g', srcV, next) && (dstVisited ==> Prefix(g', srcV, path))
    requires v in g && g[v].dist == -1 && g'[v] == g[v] && OfferOk(g, srcV, v, m)
    ensures var g'' := g'[v := g'[v].(dist := m.0)];
      && Grows(g, g'') && InboxOk(g'', srcV, next) && (dstVisited ==> Prefix(g'', srcV, path))
      && Prefix(g'', srcV, m.1 + [v])
  {
    var g'' := g'[v := g'[v].(dist := m.0)];
    OfferGrows(g, g', srcV, v, m);
    SettleExtends(g', srcV, v, m);
    GrowsTrans(g, g', g'');
    InboxGrows(g', g'', srcV, next);
    if dstVisited {
      PrefixGrows(g', g'', srcV, path);
    }
  }

  /** The message a settled vertex passes on to its residual neighbours is well-formed. */
  lemma ForwardStep(g: Graph, srcV: int, v: int, m: Offer, next: Inbox<Offer>, next': Inbox<Offer>)
    requires v in g && m.0 == |m.1| && InboxOk(g, srcV, next) && Prefix(g, srcV, m.1 + [v])
    requires Pushed(next, next', g[v].resCaps.Keys, Forward(m, v))
    ensures InboxOk(g, srcV, next')
  {
    var q := m.1 + [v];
    forall a, m' | m' in InboxOf(next', a) ensures OfferOk(g, srcV, a, m') {
      if a in g[v].resCaps && m' == Forward(m, v) {
        assert q[|q| - 1] == v;
      } else {
        assert m' in InboxOf(next, a);
      }
    }
  }

  /** Visits one more vertex of the round. */
  method VisitStep(g: Graph, srcV: int, dstV: int, inbox: Inbox<Offer>, ghost done: set<int>, ghost sent: set<int>,
                   g': Graph, next: Inbox<Offer>, notes: Inbox<Note>, visited: int, dstVisited: bool,
                   ghost path: seq<int>, v: int)
    returns (g'': Graph, next'': Inbox<Offer>, notes'': Inbox<Note>, visited': int, dstVisited': bool,
             ghost sent': set<int>, ghost path': seq<int>)
    requires InboxOk(g, srcV, inbox)
    requires v in g && v !in done && done <= g.Keys
    requires RoundSoFar(g, srcV, dstV, inbox, done, sent, g', next, notes, visited, dstVisited, path)
    ensures RoundSoFar(g, srcV, dstV, inbox, done + {v}, sent', g'', next'', notes'', visited', dstVisited', path')
  {
    var msgs := InboxOf(inbox, v);
    assert forall m :: m in msgs ==> m.1 != [] by {
      forall m | m in msgs ensures m.1 != [] {
        assert OfferOk(g, srcV, v, m);
      }
    }
    assert g'[v] == g[v];
    var x', next', notes', settled := VisitVertex(v, g'[v], msgs, dstV, next, notes);
    StatesStep(g, inbox, done, g', v, x');
    CountStep(g, dstV, inbox, done, sent, visited, dstVisited, v, settled);
    ShapeStep(g, srcV, dstV, inbox, done, sent, g', next, notes, visited, dstVisited, path, v, x', next', notes', settled);
    SentSoFarStep(g, dstV, inbox, done, next, v, next', settled);
    sent' := if settled then sent + {v} else sent;
    path' := if settled && v == dstV then Combined(msgs).1 + [v] else path;
    visited' := visited + (if settled then 1 else 0);
    dstVisited' := dstVisited || (settled && v == dstV);
    g'', next'', notes'' := g'[v := x'], next', notes';
  }

  /** The state of a round, once every vertex has been visited. */
  ghost predicate RoundOutcome(g: Graph, srcV: int, dstV: int, inbox: Inbox<Offer>, g': Graph, next: Inbox<Offer>,
                               notes: Inbox<Note>, visited: int, dstVisited: bool, path: seq<int>) {
    && g'.Keys == g.Keys
    && (forall v :: v in g ==> g'[v] == Settle(g[v], InboxOf(inbox, v)))
    && visited == |NewlySettled(g, inbox)|
    && dstVisited == (dstV in NewlySettled(g, inbox))
    && Grows(g, g')
    && InboxOk(g', srcV, next)
    && NotesSoFar(g', srcV, dstV, dstVisited, notes, path)
    && SentSound(g, inbox, NewlySettled(g, inbox), dstV, next)
    && SentComplete(g, inbox, NewlySettled(g, inbox), dstV, next)
  }

  /** One round of the search: every vertex is visited once, in any order. */
  method SettleRound(g: Graph, srcV: int, dstV: int, inbox: Inbox<Offer>)
    returns (g': Graph, next: Inbox<Offer>, notes: Inbox<Note>, visited: int, dstVisited: bool, ghost path: seq<int>)
    requires InboxOk(g, srcV, inbox)
    ensures RoundOutcome(g, srcV, dstV, inbox, g', next, notes, visited, dstVisited, path)
  {
    g', next, notes, visited, dstVisited, path := g, map[], map[], 0, false, [];
    var todo := g.Keys;
    ghost var done: set<int> := {};
    ghost var sent: set<int> := {};
    assert NewlySettled(g, inbox) * {} == {};
    while todo != {}
      invariant done + todo == g.Keys && done !! todo
      invariant RoundSoFar(g, srcV, dstV, inbox, done, sent, g', next, notes, visited, dstVisited, path)
      decreases todo
    {
      Member(todo);
      var v :| v in todo;
      g', next, notes, visited, dstVisited, sent, path :=
        VisitStep(g, srcV, dstV, inbox, done, sent, g', next, notes, visited, dstVisited, path, v);
      todo := todo - {v};
      done := done + {v};
    }
    assert NewlySettled(g, inbox) * done == NewlySettled(g, inbox);
    CardIsSize(sent);
  }

  /** A round settles only unreached vertices, and each of them gets a distance of at least 1. */
  lemma RoundProgress(g: Graph, srcV: int, inbox: Inbox<Offer>, g': Graph)
    requires InboxOk(g, srcV, inbox)
    requires g'.Keys == g.Keys && forall v :: v in g ==> g'[v] == Settle(g[v], InboxOf(inbox, v))
    ensures NewlySettled(g, inbox) <= Unsettled(g)
    ensures Unsettled(g') == Unsettled(g) - NewlySettled(g, inbox)
  {
    var ns := NewlySettled(g, inbox);
    forall v | v in g ensures (v in Unsettled(g') <==> v in Unsettled(g) && v !in ns) {
      if v in ns {
        var msgs := InboxOf(inbox, v);
        CombinedIn(msgs);
        assert OfferOk(g, srcV, v, Combined(msgs));
      }
    }
  }

  // ---------------------------------------------------------------------------------------------
  // The search loop

  /** The search rounds, repeated until the sink settles; when a round settles nothing the search
      gives up (`BFS_pref` returns 0 there). Once the sink has settled, its notifications name the
      path prefix it settled with, extended by the sink; when it gives up, no unreached vertex has a
      pending offer. */
  method Search(g: Graph, srcV: int, dstV: int, inbox: Inbox<Offer>)
    returns (g': Graph, found: bool, notes: Inbox<Note>, ghost path: seq<int>, pending: Inbox<Offer>)
    requires InboxOk(g, srcV, inbox)
    ensures Grows(g, g')
    ensures found ==> NotesSoFar(g', srcV, dstV, true, notes, path)
    ensures !found ==> InboxOk(g', srcV, pending) && NewlySettled(g', pending) == {}
  {
    g', found, notes, path, pending := g, false, map[], [], inbox;
    while !found
      invariant Grows(g, g') && InboxOk(g', srcV, pending)
      invariant found ==> NotesSoFar(g', srcV, dstV, true, notes, path)
      decreases Unsettled(g')
    {
      var g2, next, notes2, visited, dstVisited, path2 := SettleRound(g', srcV, dstV, pending);
      RoundProgress(g', srcV, pending, g2);
      if visited == 0 {
        return;
      }
      ghost var w := Pick(NewlySettled(g', pending));
      assert w in Unsettled(g') && w !in Unsettled(g2);
      GrowsTrans(g, g', g2);
      g', found, notes, path, pending := g2, dstVisited, notes2, path2, next;
    }
  }

  /** The initial round hands on well-formed messages and changes no residual capacity. */
  lemma InitShape(g: Graph, srcV: int, g': Graph, inbox: Inbox<Offer>)
    requires g'.Keys == g.Keys
    requires forall v :: v in g ==> g'[v] == InitVertex(g[v], v == srcV)
    requires forall a :: InboxOf(inbox, a) == if srcV in g && a in g[srcV].resCaps then [(1, [srcV])] else []
    ensures InboxOk(g', srcV, inbox)
    ensures forall v :: v in g ==> g'[v].resCaps == g[v].resCaps
  {
    forall a, m | m in InboxOf(inbox, a) ensures OfferOk(g', srcV, a, m) {
      assert m == (1, [srcV]);
      assert Prefix(g', srcV, [srcV]);
    }
  }

  // ---------------------------------------------------------------------------------------------
  // The path, the bottleneck and the update

  /** The residual capacities of the graph, by vertex id. */
  ghost function CapsOf(g: Graph): Caps {
    map v | v in g :: g[v].resCaps
  }

  lemma SameCaps(g: Graph, g2: Graph)
    requires g2.Keys == g.Keys && forall v :: v in g ==> g2[v].resCaps == g[v].resCaps
    ensures CapsOf(g2) == CapsOf(g)
  {
    var c, c2 := CapsOf(g), CapsOf(g2);
    assert forall v :: v in c ==> c2[v] == c[v];
  }

  /** A prefix of settled vertices ending at the sink is an augmenting path: its vertices have distinct
      distances, so none repeats. */
  lemma PrefixIsAugmenting(g: Graph, srcV: int, dstV: int, q: seq<int>)
    requires Prefix(g, srcV, q) && |q| >= 2 && q[|q| - 1] == dstV
    ensures AugmentingPath(CapsOf(g), srcV, dstV, q)
  {
    var c := CapsOf(g);
    forall i | 0 <= i < |q| - 1 ensures StepOn(c, q, i) {
      assert HopAt(g, q, i);
      var v := q[i];
      assert c[v] == g[v].resCaps;
    }
    forall i, j | 0 <= i < j < |q| ensures q[i] != q[j] {
      assert g[q[i]].dist == i && g[q[j]].dist == j;
    }
  }

  /** The notifications the `minCap` round reads: at most one per vertex, naming a residual successor,
      exactly at the path vertices before the sink. */
  lemma NotesReadable(g: Graph, srcV: int, q: seq<int>, notes: Inbox<Note>)
    requires Prefix(g, srcV, q) && |q| >= 2 && NoDup(q) && notes == Notes(map[], q, |q| - 1)
    ensures forall v :: v in g ==> |InboxOf(notes, v)| <= 1
    ensures forall v :: v in g && InboxOf(notes, v) != [] ==> InboxOf(notes, v)[0].1 in g[v].resCaps
    ensures (set v | v in g && InboxOf(notes, v) != []) == (set i | 0 <= i < |q| - 1 :: q[i])
    ensures forall i :: 0 <= i < |q| - 1 ==> NotifiedAt(notes, q, i)
  {
    NotesAt(q, |q| - 1);
    var t := q[..|q| - 1];
    forall v | v in g ensures NoteAt(g, notes, t, v) {
      NoteOn(g, srcV, q, notes, v);
    }
    NotedSet(g, srcV, q, notes);
  }

  /** At `v`: at most one notification, naming a residual successor, and one exactly when `v` is in `t`. */
  ghost predicate NoteAt(g: Graph, notes: Inbox<Note>, t: seq<int>, v: int)
    requires v in g
  {
    && |InboxOf(notes, v)| <= 1
    && (InboxOf(notes, v) != [] ==> InboxOf(notes, v)[0].1 in g[v].resCaps)
    && (InboxOf(notes, v) != [] <==> v in t)
  }

  lemma NoteOn(g: Graph, srcV: int, q: seq<int>, notes: Inbox<Note>, v: int)
    requires Prefix(g, srcV, q) && |q| >= 2 && v in g
    requires forall i :: 0 <= i < |q| - 1 ==> NotifiedAt(notes, q, i)
    requires forall a :: a !in q[..|q| - 1] ==> InboxOf(notes, a) == []
    ensures NoteAt(g, notes, q[..|q| - 1], v)
  {
    var t := q[..|q| - 1];
    if v in t {
      var i :| 0 <= i < |t| && t[i] == v;
      assert q[i] == v && NotifiedAt(notes, q, i) && HopAt(g, q, i);
    }
  }

  lemma NotedSet(g: Graph, srcV: int, q: seq<int>, notes: Inbox<Note>)
    requires Prefix(g, srcV, q) && |q| >= 2
    requires forall v :: v in g ==> NoteAt(g, notes, q[..|q| - 1], v)
    ensures (set v | v in g && InboxOf(notes, v) != []) == (set i | 0 <= i < |q| - 1 :: q[i])
  {
    var t := q[..|q| - 1];
    forall v | v in t ensures v in g {
      var i :| 0 <= i < |t| && t[i] == v;
      assert q[i] == v;
    }
    assert forall i :: 0 <= i < |q| - 1 ==> t[i] == q[i];
    forall v | v in g ensures (InboxOf(notes, v) != [] <==> v in t) {
      assert NoteAt(g, notes, t, v);
    }
  }

  /** The `minCap` round: at each notified vertex, the residual capacity towards its successor (whose
      entry the source asserts to exist) enters the minimum, and its (pre, suc) pair is recorded in
      `locEdges`. */
  method MinCapPass(g: Graph, notes: Inbox<Note>) returns (minCap: int, locEdges: map<int, Note>)
    requires forall v :: v in g ==> |InboxOf(notes, v)| <= 1
    requires forall v :: v in g && InboxOf(notes, v) != [] ==> InboxOf(notes, v)[0].1 in g[v].resCaps
    ensures locEdges.Keys == set v | v in g && InboxOf(notes, v) != []
    ensures forall v :: v in locEdges ==> locEdges[v] == InboxOf(notes, v)[0]
    ensures minCap <= IntMax
    ensures forall v :: v in locEdges ==> minCap <= g[v].resCaps[locEdges[v].1]
    ensures minCap == IntMax || exists v :: v in locEdges && minCap == g[v].resCaps[locEdges[v].1]
  {
    minCap, locEdges := IntMax, map[];
    var todo := g.Keys;
    ghost var done: set<int> := {};
    ghost var argMin := 0;
    while todo != {}
      invariant done + todo == g.Keys && done !! todo
      invariant locEdges.Keys == set v | v in done && InboxOf(notes, v) != []
      invariant forall v :: v in locEdges ==> locEdges[v] == InboxOf(notes, v)[0]
      invariant minCap <= IntMax
      invariant forall v :: v in locEdges ==> minCap <= g[v].resCaps[locEdges[v].1]
      invariant minCap == IntMax || (argMin in locEdges && minCap == g[argMin].resCaps[locEdges[argMin].1])
      decreases todo
    {
      Member(todo);
      var v :| v in todo;
      var msg := InboxOf(notes, v);
      if |msg| != 0 {
        var suc := msg[0].1;
        var cap := g[v].resCaps[suc];
        if cap < minCap {
          minCap := cap;
          argMin := v;
        }
        locEdges := locEdges[v := msg[0]];
      }
      todo := todo - {v};
      done := done + {v};
    }
  }

  /** One vertex in the update round. */
  function Updated(x: Vertex, v: int, locEdges: map<int, Note>, minCap: int): Vertex
    requires v in locEdges ==> CanAugment(x.resCaps, locEdges[v].0, locEdges[v].1, minCap)
  {
    if v in locEdges then x.(resCaps := Augment(x.resCaps, locEdges[v].0, locEdges[v].1, minCap)) else x
  }

  /** The update round: every vertex recorded in `locEdges` augments its residual capacities towards
      its notified predecessor and successor; every other vertex is left as it is. */
  method UpdateEdges(g: Graph, locEdges: map<int, Note>, minCap: int) returns (g': Graph)
    requires forall v :: v in locEdges && v in g ==> CanAugment(g[v].resCaps, locEdges[v].0, locEdges[v].1, minCap)
    ensures g'.Keys == g.Keys
    ensures forall v :: v in g ==> g'[v] == Updated(g[v], v, locEdges, minCap)
  {
    g' := g;
    var todo := g.Keys;
    ghost var done: set<int> := {};
    while todo != {}
      invariant done + todo == g.Keys && done !! todo
      invariant g'.Keys == g.Keys
      invariant forall v :: v in done ==> g'[v] == Updated(g[v], v, locEdges, minCap)
      invariant forall v :: v in todo ==> g'[v] == g[v]
      decreases todo
    {
      Member(todo);
      var v :| v in todo;
      if v in locEdges {
        var x := g[v];
        var (pre, suc) := locEdges[v];
        g' := g'[v := x.(resCaps := Augment(x.resCaps, pre, suc, minCap))];
      }
      todo := todo - {v};
      done := done + {v};
    }
  }

  /** `locEdges` records the path neighbours of `q[i]`. */
  ghost predicate RecordsAt(locEdges: map<int, Note>, q: seq<int>, i: int) {
    0 <= i < |q| - 1 && q[i] in locEdges && locEdges[q[i]] == (PreOn(q, i), q[i + 1])
  }

  /** What the `minCap` round recorded, read along the path. */
  lemma RecordedAlong(g: Graph, q: seq<int>, notes: Inbox<Note>, locEdges: map<int, Note>)
    requires forall i :: 0 <= i < |q| - 1 ==> NotifiedAt(notes, q, i) && q[i] in g
    requires locEdges.Keys == set v | v in g && InboxOf(notes, v) != []
    requires forall v :: v in locEdges ==> locEdges[v] == InboxOf(notes, v)[0]
    ensures forall i :: 0 <= i < |q| - 1 ==> RecordsAt(locEdges, q, i)
  {
    forall i | 0 <= i < |q| - 1 ensures RecordsAt(locEdges, q, i) {
      assert NotifiedAt(notes, q, i);
    }
  }

  /** The `minCap` over the notified vertices is the bottleneck of the path. */
  lemma BottleneckIsPathMin(g: Graph, q: seq<int>, locEdges: map<int, Note>, minCap: int)
    requires locEdges.Keys == (set i | 0 <= i < |q| - 1 :: q[i])
    requires forall i :: 0 <= i < |q| - 1 ==> RecordsAt(locEdges, q, i) && q[i] in g
    requires forall v :: v in locEdges ==> v in g && locEdges[v].1 in g[v].resCaps
    requires minCap <= IntMax
    requires forall v :: v in locEdges ==> minCap <= g[v].resCaps[locEdges[v].1]
    requires minCap == IntMax || exists v :: v in locEdges && minCap == g[v].resCaps[locEdges[v].1]
    ensures minCap == PathMin(CapsOf(g), q)
    ensures forall i :: 0 <= i < |q| - 1 ==> minCap <= EdgeCapAt(CapsOf(g), q, i)
  {
    var c := CapsOf(g);
    forall i | 0 <= i < |q| - 1 ensures minCap <= EdgeCapAt(c, q, i) {
      assert RecordsAt(locEdges, q, i);
      var v := q[i];
      assert c[v] == g[v].resCaps;
    }
    if minCap != IntMax {
      var v :| v in locEdges && minCap == g[v].resCaps[locEdges[v].1];
      var i :| 0 <= i < |q| - 1 && v == q[i];
      assert RecordsAt(locEdges, q, i);
      assert c[v] == g[v].resCaps;
      assert minCap == EdgeCapAt(c, q, i);
    }
    PathMinIs(c, q, minCap);
  }

  /** The update's assertions hold at the notified vertices. */
  lemma CanUpdateEdges(g: Graph, q: seq<int>, locEdges: map<int, Note>, minCap: int)
    requires locEdges.Keys == (set i | 0 <= i < |q| - 1 :: q[i])
    requires forall i :: 0 <= i < |q| - 1 ==> RecordsAt(locEdges, q, i)
    requires forall i :: 0 <= i < |q| - 1 ==> CanAugmentAt(CapsOf(g), q, i, minCap)
    ensures forall v :: v in locEdges && v in g ==> CanAugment(g[v].resCaps, locEdges[v].0, locEdges[v].1, minCap)
  {
    var c := CapsOf(g);
    forall v | v in locEdges && v in g ensures CanAugment(g[v].resCaps, locEdges[v].0, locEdges[v].1, minCap) {
      var i :| 0 <= i < |q| - 1 && v == q[i];
      assert RecordsAt(locEdges, q, i) && CanAugmentAt(c, q, i, minCap);
      assert c[v] == g[v].resCaps;
    }
  }

  lemma UpdateIsAugmented(g: Graph, g': Graph, q: seq<int>, locEdges: map<int, Note>, minCap: int)
    requires |q| >= 2
    requires locEdges.Keys == (set i | 0 <= i < |q| - 1 :: q[i])
    requires forall i :: 0 <= i < |q| - 1 ==> RecordsAt(locEdges, q, i)
    requires forall i :: 0 <= i < |q| - 1 ==> CanAugmentAt(CapsOf(g), q, i, minCap)
    requires forall v :: v in locEdges && v in g ==> CanAugment(g[v].resCaps, locEdges[v].0, locEdges[v].1, minCap)
    requires g'.Keys == g.Keys && forall v :: v in g ==> g'[v] == Updated(g[v], v, locEdges, minCap)
    ensures Augmented(CapsOf(g), CapsOf(g'), q, minCap)
  {
    var c, c' := CapsOf(g), CapsOf(g');
    forall i | 0 <= i < |q| - 1 ensures PushedAt(c, c', q, i, minCap) {
      assert RecordsAt(locEdges, q, i) && CanAugmentAt(c, q, i, minCap);
      var v := q[i];
      assert g'[v] == Updated(g[v], v, locEdges, minCap);
      assert c[v] == g[v].resCaps && c'[v] == g'[v].resCaps;
    }
    assert forall i :: 0 <= i < |q| - 1 ==> q[..|q| - 1][i] == q[i];
    forall v | v in c && v !in q[..|q| - 1] ensures c'[v] == c[v] {
      assert v !in locEdges;
    }
  }

  // ---------------------------------------------------------------------------------------------
  // One augmentation and the flow loop

  /** Without a path, result 0 and every residual capacity as it was; with one, an augmenting path,
      its bottleneck as result, and that flow pushed along it. */
  ghost predicate BfsOutcome(g: Graph, g': Graph, srcV: int, dstV: int, flow: int, p: seq<int>) {
    && g'.Keys == g.Keys
    && (p == [] ==> flow == 0 && CapsOf(g') == CapsOf(g))
    && (p != [] ==> AugmentingPath(CapsOf(g), srcV, dstV, p) && flow == PathMin(CapsOf(g), p)
                    && Augmented(CapsOf(g), CapsOf(g'), p, flow))
  }

  /** `BFS_pref`: one augmentation. When the search gives up it returns 0 and every residual capacity
      is as it was; otherwise it returns the bottleneck of the path the sink was reached by and has
      pushed it along that path. */
  method Bfs(g: Graph, srcV: int, dstV: int) returns (g': Graph, flow: int, ghost p: seq<int>)
    requires -1 !in g
    ensures BfsOutcome(g, g', srcV, dstV, flow, p)
  {
    var g1, inbox, initVisited := InitBfs(g, srcV);
    InitShape(g, srcV, g1, inbox);
    var g2, found, notes, path, pending := Search(g1, srcV, dstV, inbox);
    SameCaps(g, g2);
    if !found {
      return g2, 0, [];
    }
    g', flow := PushAlongPath(g2, srcV, dstV, notes, path);
    p := path;
  }

  /** The part of `BFS_pref` after the sink was reached: the `minCap` round and the update. */
  method PushAlongPath(g2: Graph, srcV: int, dstV: int, notes: Inbox<Note>, ghost q: seq<int>)
    returns (g': Graph, flow: int)
    requires -1 !in g2
    requires NotesSoFar(g2, srcV, dstV, true, notes, q)
    ensures q != [] && BfsOutcome(g2, g', srcV, dstV, flow, q)
  {
    PrefixIsAugmenting(g2, srcV, dstV, q);
    NotesReadable(g2, srcV, q, notes);
    var minCap, locEdges := MinCapPass(g2, notes);
    RecordedAlong(g2, q, notes, locEdges);
    BottleneckIsPathMin(g2, q, locEdges, minCap);
    CanUpdate(CapsOf(g2), q, minCap);
    CanUpdateEdges(g2, q, locEdges, minCap);
    g' := UpdateEdges(g2, locEdges, minCap);
    UpdateIsAugmented(g2, g', q, locEdges, minCap);
    flow := minCap;
  }

  /** The result of `Bfs` is one augmentation step. */
  lemma BfsIsStep(g: Graph, g': Graph, srcV: int, dstV: int, flow: int, p: seq<int>)
    requires BfsOutcome(g, g', srcV, dstV, flow, p)
    ensures AugmentationStep(CapsOf(g), CapsOf(g'), srcV, dstV, flow)
  {
  }

  /** The state of the do-while loop: the residual graph was reached from `g0` by the augmentations
      that returned `flows`, all but the last of them positive, and `totFlow` is their sum. */
  ghost predicate Progress(g0: Graph, g: Graph, caps: seq<Caps>, flows: seq<int>, totFlow: int, srcV: int, dstV: int) {
    && g.Keys == g0.Keys
    && Run(caps, flows, CapsOf(g0), CapsOf(g), srcV, dstV)
    && totFlow == Sum(flows)
    && forall i :: 0 <= i < |flows| - 1 ==> flows[i] > 0
  }

  /** One more pass of the do-while loop, after a positive result: augment once and add the result to
      `totFlow`. */
  method AugmentMore(g0: Graph, g: Graph, srcV: int, dstV: int, totFlow: int, ghost flows: seq<int>, ghost caps: seq<Caps>)
    returns (g': Graph, flow: int, totFlow': int, ghost flows': seq<int>, ghost caps': seq<Caps>)
    requires -1 !in g0
    requires Progress(g0, g, caps, flows, totFlow, srcV, dstV) && flows[|flows| - 1] > 0
    ensures Progress(g0, g', caps', flows', totFlow', srcV, dstV)
    ensures |flows'| == |flows| + 1 && flows'[|flows|] == flow
  {
    ghost var p: seq<int>;
    g', flow, p := Bfs(g, srcV, dstV);
    BfsIsStep(g, g', srcV, dstV, flow, p);
    RunAppend(caps, flows, CapsOf(g0), CapsOf(g), srcV, dstV, CapsOf(g'), flow);
    SumAppend(flows, flow);
    LastAppend(flows, flow);
    totFlow' := totFlow + flow;
    flows', caps' := flows + [flow], caps + [CapsOf(g')];
  }

  /** `EdmondsKarpPrefix`'s do-while loop: augment and add the result to `totFlow` until an
      augmentation returns no positive flow; `maxRounds` bounds the number of augmentations. */
  method EdmondsKarp(g: Graph, srcV: int, dstV: int, maxRounds: nat)
    returns (g': Graph, totFlow: int, ghost flows: seq<int>, ghost caps: seq<Caps>)
    requires -1 !in g
    ensures g'.Keys == g.Keys
    ensures Run(caps, flows, CapsOf(g), CapsOf(g'), srcV, dstV)
    ensures totFlow == Sum(flows)
    ensures forall i :: 0 <= i < |flows| - 1 ==> flows[i] > 0
    ensures flows[|flows| - 1] <= 0 || |flows| >= maxRounds
  {
    var flow: int;
    ghost var p: seq<int>;
    g', flow, p := Bfs(g, srcV, dstV);
    BfsIsStep(g, g', srcV, dstV, flow, p);
    totFlow := flow;
    flows, caps := [flow], [CapsOf(g), CapsOf(g')];
    assert Sum(flows) == flow by { assert [flow] == [] + [flow]; SumAppend([], flow); }
    var rounds := 1;
    while flow > 0 && rounds < maxRounds
      invariant Progress(g, g', caps, flows, totFlow, srcV, dstV)
      invariant rounds == |flows| && flow == flows[|flows| - 1]
      decreases maxRounds - rounds
    {
      g', flow, totFlow, flows, caps := AugmentMore(g, g', srcV, dstV, totFlow, flows, caps);
      rounds := rounds + 1;
    }
  }
}
