/** What the line loaders' parse callback does besides parsing: it updates four integer aggregators
    (sums of their updates) and pushes (neighbour, capacity) messages to vertices on the input channel. */
module LineLoader {
  import opened Wrappers
  import opened DimacsLine

  /** `push(msg, dst)` on the input channel. */
  datatype Push = Push(dst: int, msg: (int, int))

  /** What the callback writes to the error stream. */
  datatype Report = InvalidLine(flag: char) | UnknownFlag(flag: char)

  datatype Loaded = Loaded(vertexNum: int, edgeNum: int, srcV: int, dstV: int, pushes: seq<Push>, reports: seq<Report>)

  const Start := Loaded(0, 0, 0, 0, [], [])

  /** The effect of one dispatched line; an arc line pushes `arcPushes`, which each loader chooses. */
  function Apply(st: Loaded, line: Line, arcPushes: seq<Push>): Loaded {
    match line
    case Skip => st
    case Problem(n, m) => st.(vertexNum := st.vertexNum + n, edgeNum := st.edgeNum + m)
    case Arc(_, _, _) => st.(pushes := st.pushes + arcPushes)
    case Node(v, d) =>
      if d == 's' then st.(srcV := st.srcV + v)
      else if d == 't' then st.(dstV := st.dstV + v)
      else st.(reports := st.reports + [InvalidLine('n')])
    case Unknown(flag) => st.(reports := st.reports + [UnknownFlag(flag)])
  }

  /** How a loader pushes an arc line `a u v c`: the templated loader sends the head a placeholder
      (u, -1) and the tail (v, c); the other one sends (u, c) to the head and (v, c) to the tail. */
  datatype ArcPolicy = Placeholder | Symmetric

  function ArcPushes(policy: ArcPolicy, line: Line): seq<Push> {
    if !line.Arc? then []
    else if policy == Placeholder then [Push(line.v, (line.u, -1)), Push(line.u, (line.v, line.c))]
    else [Push(line.v, (line.u, line.c)), Push(line.u, (line.v, line.c))]
  }

  /** The parse callback on one chunk; a thrown exception or undefined read ends loading. */
  function ParseChunk(policy: ArcPolicy, st: Loaded, chunk: string): Result<Loaded, ParseError> {
    match Parse(chunk)
    case Err(e) => Err(e)
    case Ok(line) => Ok(Apply(st, line, ArcPushes(policy, line)))
  }

  /** Loading feeds every chunk to the callback in order. */
  function LoadChunks(policy: ArcPolicy, st: Loaded, chunks: seq<string>): Result<Loaded, ParseError>
    decreases |chunks|
  {
    if chunks == [] then Ok(st)
    else match ParseChunk(policy, st, chunks[0])
      case Err(e) => Err(e)
      case Ok(st') => LoadChunks(policy, st', chunks[1..])
  }

  /** The messages vertex `x` receives, in push order. */
  function Inbox(pushes: seq<Push>, x: int): (r: seq<(int, int)>)
    ensures |r| <= |pushes|
  {
    if pushes == [] then []
    else Inbox(pushes[..|pushes| - 1], x) + (if pushes[|pushes| - 1].dst == x then [pushes[|pushes| - 1].msg] else [])
  }

  /** The vertices that exist after loading: the receive path creates one per destination key. */
  function Vertices(pushes: seq<Push>): set<int> {
    set i | 0 <= i < |pushes| :: pushes[i].dst
  }

  /** Appending pushes extends each vertex's inbox by its share of them. */
  lemma {:induction false} InboxAppend(pushes: seq<Push>, more: seq<Push>, x: int)
    ensures Inbox(pushes + more, x) == Inbox(pushes, x) + Inbox(more, x)
    decreases |more|
  {
    if more != [] {
      var init := more[..|more| - 1];
      InboxAppend(pushes, init, x);
      assert (pushes + more)[..|pushes + more| - 1] == pushes + init;
      assert (pushes + more)[|pushes + more| - 1] == more[|more| - 1];
    } else {
      assert pushes + more == pushes;
    }
  }
}
