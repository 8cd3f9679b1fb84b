/** The templated DIMACS loader of the max-flow examples: an arc `a u v c` makes both endpoints exist but
    only the tail records the arc; the per-vertex pass drops the placeholder messages. */
module MfBase {
  import opened Wrappers
  import opened DimacsLine
  import opened LineLoader
  import opened Seqs

  datatype GraphStat = GraphStat(vNum: int, eNum: int, srcV: int, dstV: int)

  /** An arc line pushes the placeholder to the head and the arc to the tail, both 0-based. */
  lemma ArcLine(st: Loaded, u: int, v: int, c: int)
    ensures ParseChunk(Placeholder, st, ArcText(u, v, c))
      == Ok(st.(pushes := st.pushes + [Push(v - 1, (u - 1, -1)), Push(u - 1, (v - 1, c))]))
  {
    ParseArcText(u, v, c);
  }

  lemma ProblemLine(st: Loaded, problemType: string, n: int, m: int)
    requires IsWord(problemType)
    ensures ParseChunk(Placeholder, st, ProblemText(problemType, n, m)) == Ok(st.(vertexNum := st.vertexNum + n, edgeNum := st.edgeNum + m))
  {
    ParseProblemText(problemType, n, m);
  }

  /** `n id s` adds id - 1 to the source aggregator and `n id t` to the sink's; any other designator is
      reported and changes nothing else. */
  lemma NodeLine(st: Loaded, id: int, designator: string)
    requires IsWord(designator)
    ensures ParseChunk(Placeholder, st, NodeText(id, designator)) == Ok(
      if designator[0] == 's' then st.(srcV := st.srcV + (id - 1))
      else if designator[0] == 't' then st.(dstV := st.dstV + (id - 1))
      else st.(reports := st.reports + [InvalidLine('n')]))
  {
    ParseNodeText(id, designator);
  }

  /** Comment lines and empty chunks change nothing. */
  lemma SkippedLines(st: Loaded, rest: string)
    ensures ParseChunk(Placeholder, st, "c" + rest) == Ok(st)
    ensures ParseChunk(Placeholder, st, "") == Ok(st)
  {
    ParseComment(rest);
  }

  /** The received pairs that are real arcs, in received order. */
  function RealArcs(msgs: seq<(int, int)>): seq<(int, int)> {
    if msgs == [] then []
    else RealArcs(msgs[..|msgs| - 1]) + (if msgs[|msgs| - 1].1 != -1 then [msgs[|msgs| - 1]] else [])
  }

  /** The caps pass of one vertex: every received pair except the placeholders, in received order. */
  method VertexCaps(msgs: seq<(int, int)>) returns (caps: seq<(int, int)>)
    ensures caps == RealArcs(msgs)
  {
    caps := [];
    for i := 0 to |msgs|
      invariant caps == RealArcs(msgs[..i])
    {
      assert msgs[..i + 1][..i] == msgs[..i];
      if msgs[i].1 != -1 {
        caps := caps + [msgs[i]];
      }
    }
    assert msgs[..|msgs|] == msgs;
  }

  lemma {:induction false} RealArcsMembers(msgs: seq<(int, int)>)
    ensures forall x :: x in RealArcs(msgs) <==> x in msgs && x.1 != -1
  {
    if msgs != [] {
      var init := msgs[..|msgs| - 1];
      RealArcsMembers(init);
      assert msgs == init + [msgs[|msgs| - 1]];
    }
  }

  /** Two real arcs keep their relative order: cut the sequence before the later one. */
  lemma RealArcsOrder(msgs: seq<(int, int)>)
    ensures forall i, j :: 0 <= i < j < |msgs| && msgs[i].1 != -1 && msgs[j].1 != -1 ==>
      Before(RealArcs(msgs), msgs[i], msgs[j])
  {
    forall i, j | 0 <= i < j < |msgs| && msgs[i].1 != -1 && msgs[j].1 != -1
      ensures Before(RealArcs(msgs), msgs[i], msgs[j])
    {
      var a, b := msgs[..j], msgs[j..];
      assert a + b == msgs;
      RealArcsAppend(a, b);
      RealArcsFirst(b);
      RealArcsMembers(a);
      assert a[i] == msgs[i];
      var i' :| 0 <= i' < |RealArcs(a)| && RealArcs(a)[i'] == msgs[i];
      assert RealArcs(msgs)[i'] == msgs[i] && RealArcs(msgs)[|RealArcs(a)|] == msgs[j];
    }
  }

  lemma RealArcsFirst(b: seq<(int, int)>)
    requires b != [] && b[0].1 != -1
    ensures RealArcs(b) != [] && RealArcs(b)[0] == b[0]
  {
    RealArcsAppend([b[0]], b[1..]);
    assert [b[0]] + b[1..] == b;
    assert RealArcs([b[0]]) == [b[0]] by {
      assert [b[0]][..0] == [];
    }
  }

  /** The caps of a vertex are exactly its received pairs whose second component is not -1, and they keep
      the order in which they were received. */
  lemma RealArcsExact(msgs: seq<(int, int)>)
    ensures forall x :: x in RealArcs(msgs) <==> x in msgs && x.1 != -1
    ensures forall i, j :: 0 <= i < j < |msgs| && msgs[i].1 != -1 && msgs[j].1 != -1 ==>
      Before(RealArcs(msgs), msgs[i], msgs[j])
  {
    RealArcsMembers(msgs);
    RealArcsOrder(msgs);
  }

  /** Loading followed by the per-vertex caps pass. */
  method LoadDimacsGraph(chunks: seq<string>) returns (r: Result<(GraphStat, map<int, seq<(int, int)>>), ParseError>)
    ensures LoadChunks(Placeholder, Start, chunks).Err? ==> r == Err(LoadChunks(Placeholder, Start, chunks).error)
    ensures LoadChunks(Placeholder, Start, chunks).Ok? ==>
      var st := LoadChunks(Placeholder, Start, chunks).value;
      && r.Ok?
      && r.value.0 == GraphStat(st.vertexNum, st.edgeNum, st.srcV, st.dstV)
      && r.value.1.Keys == Vertices(st.pushes)
      && forall x :: x in r.value.1 ==> r.value.1[x] == RealArcs(Inbox(st.pushes, x))
  {
    var loaded := LoadChunks(Placeholder, Start, chunks);
    if loaded.Err? {
      return Err(loaded.error);
    }
    var st := loaded.value;
    var todo := Vertices(st.pushes);
    var vertexCaps: map<int, seq<(int, int)>> := map[];
    while todo != {}
      invariant todo <= Vertices(st.pushes)
      invariant vertexCaps.Keys == Vertices(st.pushes) - todo
      invariant forall x :: x in vertexCaps ==> vertexCaps[x] == RealArcs(Inbox(st.pushes, x))
      decreases |todo|
    {
      var x :| x in todo;
      var caps := VertexCaps(Inbox(st.pushes, x));
      vertexCaps := vertexCaps[x := caps];
      todo := todo - {x};
    }
    r := Ok((GraphStat(st.vertexNum, st.edgeNum, st.srcV, st.dstV), vertexCaps));
  }

  /** The placeholder makes the head of every arc a vertex, although only the tail lists the arc
      (the pushes of `a u v c` for 0-based u, v are the ones `ArcLine` shows). */
  lemma ArcMakesBothVertices(pushes: seq<Push>, u: int, v: int, c: int)
    ensures var pushes' := pushes + [Push(v, (u, -1)), Push(u, (v, c))];
      && {u, v} <= Vertices(pushes')
      && Inbox(pushes', u) == Inbox(pushes, u) + (if u == v then [(u, -1)] else []) + [(v, c)]
      && (u != v ==> Inbox(pushes', v) == Inbox(pushes, v) + [(u, -1)])
      && RealArcs(Inbox(pushes', v)) == RealArcs(Inbox(pushes, v)) + (if u == v && c != -1 then [(v, c)] else [])
  {
    var more := [Push(v, (u, -1)), Push(u, (v, c))];
    var pushes' := pushes + more;
    assert pushes'[|pushes|].dst == v && pushes'[|pushes| + 1].dst == u;
    InboxAppend(pushes, more, u);
    InboxAppend(pushes, more, v);
    assert more[..1] == [Push(v, (u, -1))];
    assert [Push(v, (u, -1))][..0] == [];
    RealArcsAppend(Inbox(pushes, v), Inbox(more, v));
    if u != v {
      assert Inbox(more, v) == [(u, -1)];
      assert RealArcs([(u, -1)]) == [];
    } else {
      assert Inbox(more, v) == [(u, -1), (v, c)];
      assert [(u, -1), (v, c)][..1] == [(u, -1)];
      assert [(u, -1)][..0] == [];
    }
  }

  lemma {:induction false} RealArcsAppend(a: seq<(int, int)>, b: seq<(int, int)>)
    ensures RealArcs(a + b) == RealArcs(a) + RealArcs(b)
    decreases |b|
  {
    if b != [] {
      var init := b[..|b| - 1];
      RealArcsAppend(a, init);
      assert (a + b)[..|a + b| - 1] == a + init;
      assert (a + b)[|a + b| - 1] == b[|b| - 1];
    } else {
      assert a + b == a;
    }
  }
}
