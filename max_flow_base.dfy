/** The older, non-templated DIMACS loader: an arc `a u v c` is recorded at both
    endpoints with capacity c, and each vertex starts with a residual map built from its arcs. */
module MaxFlowBase {
  import opened Wrappers
  import opened DimacsLine
  import opened LineLoader

  /** A vertex of the flow graph: the arcs it received and its residual capacity per neighbour. */
  datatype Vertex = Vertex(caps: seq<(int, int)>, resCaps: map<int, int>)

  /** An arc line gives both endpoints the same capacity towards each other. */
  lemma ArcLine(st: Loaded, u: int, v: int, c: int)
    ensures ParseChunk(Symmetric, st, ArcText(u, v, c))
      == Ok(st.(pushes := st.pushes + [Push(v - 1, (u - 1, c)), Push(u - 1, (v - 1, c))]))
  {
    ParseArcText(u, v, c);
  }

  lemma ArcRecordedAtBothEnds(pushes: seq<Push>, u: int, v: int, c: int)
    requires u != v
    ensures var pushes' := pushes + [Push(v, (u, c)), Push(u, (v, c))];
      && Inbox(pushes', u) == Inbox(pushes, u) + [(v, c)]
      && Inbox(pushes', v) == Inbox(pushes, v) + [(u, c)]
  {
    var more := [Push(v, (u, c)), Push(u, (v, c))];
    InboxAppend(pushes, more, u);
    InboxAppend(pushes, more, v);
    assert more[..1] == [Push(v, (u, c))];
    assert [Push(v, (u, c))][..0] == [];
  }

  /** Whether `k` is the neighbour of some arc in `caps`. */
  predicate HasNeighbour(caps: seq<(int, int)>, k: int) {
    exists i :: 0 <= i < |caps| && caps[i].0 == k
  }

  /** `resCaps[k]` is the capacity of the first arc towards k, since a map insert keeps an existing key. */
  predicate FirstCapacity(caps: seq<(int, int)>, k: int, cap: int) {
    exists i :: 0 <= i < |caps| && caps[i] == (k, cap) && forall j :: 0 <= j < i ==> caps[j].0 != k
  }

  /** Inserting every arc of `caps` into an empty map, in order. */
  method BuildResCaps(caps: seq<(int, int)>) returns (resCaps: map<int, int>)
    ensures forall k :: k in resCaps <==> HasNeighbour(caps, k)
    ensures forall k :: k in resCaps ==> FirstCapacity(caps, k, resCaps[k])
  {
    resCaps := map[];
    for i := 0 to |caps|
      invariant forall k :: k in resCaps <==> HasNeighbour(caps[..i], k)
      invariant forall k :: k in resCaps ==> FirstCapacity(caps[..i], k, resCaps[k])
    {
      var (k, cap) := caps[i];
      ghost var before := resCaps;
      if k !in resCaps {
        resCaps := resCaps[k := cap];
      }
      forall k' | k' in resCaps ensures FirstCapacity(caps[..i + 1], k', resCaps[k'])
      {
        if k' in before {
          var i' :| 0 <= i' < i && caps[..i][i'] == (k', before[k']) && forall j :: 0 <= j < i' ==> caps[..i][j].0 != k';
          assert caps[..i + 1][i'] == caps[..i][i'];
        } else {
          assert k' == k && resCaps[k'] == cap;
          assert !HasNeighbour(caps[..i], k);
          forall j | 0 <= j < i ensures caps[j].0 != k {
            assert caps[..i][j] == caps[j];
          }
          assert caps[..i + 1][i] == (k, cap);
        }
      }
      forall k' ensures k' in resCaps <==> HasNeighbour(caps[..i + 1], k') {
        if HasNeighbour(caps[..i + 1], k') {
          var j :| 0 <= j < i + 1 && caps[..i + 1][j].0 == k';
          if j < i {
            assert caps[..i][j] == caps[..i + 1][j];
          }
        }
        if k' in before {
          var j :| 0 <= j < i && caps[..i][j].0 == k';
          assert caps[..i + 1][j] == caps[..i][j];
        }
        if k' == k {
          assert caps[..i + 1][i].0 == k;
        }
      }
    }
    assert caps[..|caps|] == caps;
  }

  /** Loading followed by the per-vertex pass; the result is the (source, sink) the aggregators hold and
      one vertex per key that received a message. */
  method LoadDimacsGraph(chunks: seq<string>) returns (r: Result<(int, int, map<int, Vertex>), ParseError>)
    ensures LoadChunks(Symmetric, Start, chunks).Err? ==> r == Err(LoadChunks(Symmetric, Start, chunks).error)
    ensures LoadChunks(Symmetric, Start, chunks).Ok? ==>
      var st := LoadChunks(Symmetric, Start, chunks).value;
      && r.Ok?
      && r.value.0 == st.srcV && r.value.1 == st.dstV
      && r.value.2.Keys == Vertices(st.pushes)
      && forall x :: x in r.value.2 ==> ResidualStart(Inbox(st.pushes, x), r.value.2[x])
  {
    var loaded := LoadChunks(Symmetric, Start, chunks);
    if loaded.Err? {
      return Err(loaded.error);
    }
    var st := loaded.value;
    var todo := Vertices(st.pushes);
    var vertices: map<int, Vertex> := map[];
    while todo != {}
      invariant todo <= Vertices(st.pushes)
      invariant vertices.Keys == Vertices(st.pushes) - todo
      invariant forall x :: x in vertices ==> ResidualStart(Inbox(st.pushes, x), vertices[x])
      decreases |todo|
    {
      var x :| x in todo;
      var caps := Inbox(st.pushes, x);
      var resCaps := BuildResCaps(caps);
      vertices := vertices[x := Vertex(caps, resCaps)];
      todo := todo - {x};
    }
    r := Ok((st.srcV, st.dstV, vertices));
  }

  /** A vertex as loaded from the messages `msgs`: all of them as caps, and the first capacity towards
      each neighbour as residual capacity. */
  ghost predicate ResidualStart(msgs: seq<(int, int)>, vtx: Vertex) {
    && vtx.caps == msgs
    && (forall k :: k in vtx.resCaps <==> HasNeighbour(msgs, k))
    && (forall k :: k in vtx.resCaps ==> FirstCapacity(msgs, k, vtx.resCaps[k]))
  }
}
