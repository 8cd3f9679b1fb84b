/** The stream parser of the Boost-based examples: it reads a DIMACS max-flow file character by character
    into adjacency lists and remembers the source vertex. The problem line is accepted once per process,
    through a lock that outlives the call. */
module ReadDimacs {
  import opened Wrappers
  import opened DimacsLine

  // ---------------------------------------------------------------------------------------------
  // Formatted extraction from the rest of the stream

  /** `in >> i` for an int: leading white space, an optional sign, at least one digit; the rest of the
      stream is returned with the number taken off. It accepts exactly what `std::stoi` accepts. */
  function ReadInt(s: string): (r: Option<(int, string)>)
    ensures r.Some? ==> |r.value.1| < |s|
  {
    ReadSigned(SkipSpace(s))
  }

  /** The longest prefix of `s` without white space. */
  function NonSpace(s: string): (w: string)
    ensures |w| <= |s|
    ensures forall i :: 0 <= i < |w| ==> !IsSpace(w[i])
    ensures |w| < |s| ==> IsSpace(s[|w|])
  {
    if s == [] || IsSpace(s[0]) then [] else [s[0]] + NonSpace(s[1..])
  }

  /** `in >> t` for a string: leading white space, then the longest run without white space. */
  function ReadWord(s: string): (r: Option<(string, string)>)
    ensures r.Some? ==> r.value.0 != [] && |r.value.1| < |s|
  {
    var t := SkipSpace(s);
    if t == [] then None else var w := NonSpace(t); Some((w, t[|w|..]))
  }

  /** `in >> ch` for a char: leading white space, then one character. */
  function ReadChar(s: string): (r: Option<(char, string)>)
    ensures r.Some? ==> !IsSpace(r.value.0) && |r.value.1| < |s|
  {
    var t := SkipSpace(s);
    if t == [] then None else Some((t[0], t[1..]))
  }

  /** `in.ignore(max, '\n')`: everything up to and including the next newline, or to the end. */
  function AfterNewline(s: string): (r: string)
    ensures |r| <= |s| && r == s[|s| - |r|..]
  {
    if s == [] then [] else if s[0] == '\n' then s[1..] else AfterNewline(s[1..])
  }

  // ---------------------------------------------------------------------------------------------
  // The reading loop

  /** What the parser writes to standard output. */
  datatype Message = NodeCount(n: int, m: int) | UnknownFlag(flag: char)

  /** Why the process stops: a failed `assert`, a failed resize, or an extraction that failed and left
      the variables it should have set undefined. */
  datatype Abort = SecondProblemLine | NotMax | EndpointOutOfRange | NegativeSize | ExtractionFailed

  datatype Outcome = Reading | Finished | Aborted(why: Abort)

  /** The function-static lock, the two out-parameters, the unread rest of the stream, what was written,
      and whether the loop is still running. */
  datatype Reader = Reader(lock: bool, graph: seq<seq<int>>, source: int, rest: string, out: seq<Message>, outcome: Outcome)

  /** `Graph.resize(n)`: the first n lists are kept, new lists are empty. */
  function Resize(graph: seq<seq<int>>, n: nat): (r: seq<seq<int>>)
    ensures |r| == n
    ensures forall i :: 0 <= i < n && i < |graph| ==> r[i] == graph[i]
    ensures forall i :: |graph| <= i < n ==> r[i] == []
  {
    if n <= |graph| then graph[..n] else graph + seq(n - |graph|, _ => [])
  }

  /** One iteration: the flag character and the line or field it starts. */
  function Step(st: Reader): (r: Reader)
    requires st.outcome.Reading? && st.rest != []
    ensures |r.rest| < |st.rest|
  {
    var flag := st.rest[0];
    var rest := st.rest[1..];
    if flag == '\n' then st.(rest := rest)
    else if flag == 'c' then st.(rest := AfterNewline(rest))
    else if flag == 'p' then ProblemStep(st, rest)
    else if flag == 'a' then ArcStep(st, rest)
    else if flag == 'n' then NodeStep(st, rest)
    else st.(rest := rest, out := st.out + [UnknownFlag(flag)])
  }

  function ReadTwo(s: string): (r: Option<(int, int, string)>)
    ensures r.Some? ==> |r.value.2| < |s|
  {
    match ReadInt(s)
    case None => None
    case Some((x, rest)) =>
      match ReadInt(rest)
      case None => None
      case Some((y, rest')) => Some((x, y, rest'))
  }

  function ReadThree(s: string): (r: Option<(int, int, int, string)>)
    ensures r.Some? ==> |r.value.3| < |s|
  {
    match ReadInt(s)
    case None => None
    case Some((x, rest)) =>
      match ReadTwo(rest)
      case None => None
      case Some((y, z, rest')) => Some((x, y, z, rest'))
  }

  /** After a `p`: the lock check, the problem type, n and m, the message and the resize. When the
      process stops, the rest of the stream no longer matters and is left after the flag. */
  function ProblemStep(st: Reader, rest: string): (r: Reader)
    ensures |r.rest| <= |rest|
  {
    if st.lock then st.(rest := rest, outcome := Aborted(SecondProblemLine))
    else
      var locked := st.(lock := true, rest := rest);
      match ReadWord(rest)
      case None => locked.(outcome := Aborted(NotMax))
      case Some((t, rest1)) =>
        if t != "max" then locked.(outcome := Aborted(NotMax))
        else match ReadTwo(rest1)
          case None => locked.(outcome := Aborted(ExtractionFailed))
          case Some((n, m, rest2)) =>
            var told := locked.(rest := rest2, out := st.out + [NodeCount(n, m)]);
            if n < 0 then told.(outcome := Aborted(NegativeSize))
            else told.(graph := Resize(st.graph, n))
  }

  /** After an `a`: u, v and the capacity, which is dropped; the int-to-size_t comparison of the
      assertion also rejects negative ids. */
  function ArcStep(st: Reader, rest: string): (r: Reader)
    ensures |r.rest| <= |rest|
  {
    match ReadThree(rest)
    case None => st.(rest := rest, outcome := Aborted(ExtractionFailed))
    case Some((u, v, _, rest1)) =>
      if 0 <= u - 1 < |st.graph| && 0 <= v - 1 < |st.graph| then AddArc(st, u - 1, v - 1, rest1)
      else st.(rest := rest, outcome := Aborted(EndpointOutOfRange))
  }

  /** `Graph[u].push_back(v)`. */
  function AddArc(st: Reader, u: nat, v: int, rest: string): (r: Reader)
    requires u < |st.graph|
    ensures |r.graph| == |st.graph| && r.graph[u] == st.graph[u] + [v]
    ensures forall i :: 0 <= i < |st.graph| && i != u ==> r.graph[i] == st.graph[i]
    ensures r == st.(rest := rest, graph := r.graph)
  {
    st.(rest := rest, graph := st.graph[u := st.graph[u] + [v]])
  }

  /** After an `n`: the id and the designator character. */
  function NodeStep(st: Reader, rest: string): (r: Reader)
    ensures |r.rest| <= |rest|
  {
    match ReadInt(rest)
    case None => st.(rest := rest, outcome := Aborted(ExtractionFailed))
    case Some((s, rest1)) =>
      match ReadChar(rest1)
      case None => st.(rest := rest, outcome := Aborted(ExtractionFailed))
      case Some((d, rest2)) => st.(rest := rest2, source := if d == 's' then s - 1 else st.source)
  }

  /** The loop: it runs until `in.get` finds the stream exhausted or the process stops. */
  function Run(st: Reader): (r: Reader)
    ensures !r.outcome.Reading?
    decreases |st.rest|, if st.outcome.Reading? then 1 else 0
  {
    if !st.outcome.Reading? then st
    else if st.rest == [] then st.(outcome := Finished)
    else Run(Step(st))
  }

  /** The static `lock` lives as long as the process, so it is the state of a reader object. */
  class DimacsReader {
    var lock: bool

    constructor()
      ensures !lock
    {
      lock := false;
    }

    /** `ReadDIMACS(Graph, source, in)`: the new graph, source and lock are what the reading loop leaves. */
    method ReadDimacs(graph: seq<seq<int>>, source: int, input: string)
      returns (graph': seq<seq<int>>, source': int, out: seq<Message>, outcome: Outcome)
      modifies this
      ensures var r := Run(Reader(old(lock), graph, source, input, [], Reading));
        lock == r.lock && graph' == r.graph && source' == r.source && out == r.out && outcome == r.outcome
    {
      var st := Reader(lock, graph, source, input, [], Reading);
      while st.outcome.Reading? && st.rest != []
        invariant Run(st) == Run(Reader(old(lock), graph, source, input, [], Reading))
        decreases |st.rest|
      {
        st := Step(st);
      }
      if st.outcome.Reading? {
        st := st.(outcome := Finished);
      }
      lock, graph', source', out, outcome := st.lock, st.graph, st.source, st.out, st.outcome;
    }
  }

  // ---------------------------------------------------------------------------------------------
  // What one line does

  lemma SkipOneSpace(x: string)
    requires x != [] && !IsSpace(x[0])
    ensures SkipSpace(" " + x) == x
  {
    assert (" " + x)[1..] == x;
  }

  /** Extraction reads back a written number, and the space before it. */
  lemma ReadIntShowInt(n: int, tail: string)
    requires tail == [] || !IsDigit(tail[0])
    ensures ReadInt(" " + ShowInt(n) + tail) == Some((n, tail))
  {
    var x := ShowInt(n) + tail;
    assert " " + ShowInt(n) + tail == " " + x;
    assert x[0] == ShowInt(n)[0];
    SkipOneSpace(x);
    ReadSignedShowInt(n, tail);
  }

  lemma {:induction false} NonSpaceOf(w: string, rest: string)
    requires forall i :: 0 <= i < |w| ==> !IsSpace(w[i])
    requires rest == [] || IsSpace(rest[0])
    ensures NonSpace(w + rest) == w
    decreases |w|
  {
    if w != [] {
      assert (w + rest)[1..] == w[1..] + rest;
      NonSpaceOf(w[1..], rest);
    } else {
      assert w + rest == rest;
    }
  }

  lemma ReadWordAfterSpace(w: string, tail: string)
    requires w != [] && forall i :: 0 <= i < |w| ==> !IsSpace(w[i])
    requires tail != [] && IsSpace(tail[0])
    ensures ReadWord(" " + w + tail) == Some((w, tail))
  {
    var x := w + tail;
    assert " " + w + tail == " " + x;
    assert x[0] == w[0];
    SkipOneSpace(x);
    NonSpaceOf(w, tail);
    assert x[|w|..] == tail;
  }

  lemma ReadTwoShow(x: int, y: int, tail: string)
    requires tail == [] || !IsDigit(tail[0])
    ensures ReadTwo(" " + ShowInt(x) + " " + ShowInt(y) + tail) == Some((x, y, tail))
  {
    var afterX := " " + ShowInt(y) + tail;
    assert " " + ShowInt(x) + " " + ShowInt(y) + tail == " " + ShowInt(x) + afterX;
    ReadIntShowInt(x, afterX);
    ReadIntShowInt(y, tail);
  }

  lemma ReadThreeShow(x: int, y: int, z: int, tail: string)
    requires tail == [] || !IsDigit(tail[0])
    ensures ReadThree(" " + ShowInt(x) + " " + ShowInt(y) + " " + ShowInt(z) + tail) == Some((x, y, z, tail))
  {
    var afterX := " " + ShowInt(y) + " " + ShowInt(z) + tail;
    assert " " + ShowInt(x) + " " + ShowInt(y) + " " + ShowInt(z) + tail == " " + ShowInt(x) + afterX;
    ReadIntShowInt(x, afterX);
    ReadTwoShow(y, z, tail);
  }

  /** The flag is the first character; the handler sees the stream after it. */
  lemma StepOn(st: Reader, flag: char, rest: string)
    requires st.outcome.Reading?
    ensures flag == 'p' ==> Step(st.(rest := [flag] + rest)) == ProblemStep(st.(rest := [flag] + rest), rest)
    ensures flag == 'a' ==> Step(st.(rest := [flag] + rest)) == ArcStep(st.(rest := [flag] + rest), rest)
    ensures flag == 'n' ==> Step(st.(rest := [flag] + rest)) == NodeStep(st.(rest := [flag] + rest), rest)
  {
    assert ([flag] + rest)[0] == flag && ([flag] + rest)[1..] == rest;
  }

  lemma ProblemStepMax(st: Reader, rest: string, numbers: string, n: int, m: int, tail: string)
    requires !st.lock && ReadWord(rest) == Some(("max", numbers)) && ReadTwo(numbers) == Some((n, m, tail))
    ensures var r := ProblemStep(st, rest);
      && r.lock && r.rest == tail && r.out == st.out + [NodeCount(n, m)] && r.source == st.source
      && (n < 0 ==> r.outcome == Aborted(NegativeSize))
      && (n >= 0 ==> r.outcome == st.outcome && r.graph == Resize(st.graph, n))
  {
  }

  /** `p max n m` sizes the graph to n lists, keeping the lists already there, and locks further problem
      lines; a negative n stops the process. */
  lemma ProblemLine(st: Reader, n: int, m: int, tail: string)
    requires st.outcome.Reading? && !st.lock
    requires tail == [] || !IsDigit(tail[0])
    ensures var r := Step(st.(rest := ProblemText("max", n, m) + tail));
      && r.lock && r.rest == tail && r.out == st.out + [NodeCount(n, m)] && r.source == st.source
      && (n < 0 ==> r.outcome == Aborted(NegativeSize))
      && (n >= 0 ==> r.outcome.Reading? && |r.graph| == n && r.graph == Resize(st.graph, n))
  {
    var numbers := " " + ShowInt(n) + " " + ShowInt(m) + tail;
    var rest := " " + "max" + numbers;
    ProblemTextSplit(ShowInt(n), ShowInt(m), tail);
    StepOn(st, 'p', rest);
    ReadTwoShow(n, m, tail);
    assert numbers[0] == ' ';
    ReadWordAfterSpace("max", numbers);
    ProblemStepMax(st.(rest := ['p'] + rest), rest, numbers, n, m, tail);
  }

  /** The flag of a written line comes first; the handler reads the rest. */
  lemma ProblemTextSplit(x: string, y: string, tail: string)
    ensures "p" + " " + "max" + " " + x + " " + y + tail == ['p'] + (" " + "max" + (" " + x + " " + y + tail))
  {
  }

  lemma ArcTextSplit(x: string, y: string, z: string, tail: string)
    ensures "a" + " " + x + " " + y + " " + z + tail == ['a'] + (" " + x + " " + y + " " + z + tail)
  {
  }

  lemma NodeTextSplit(x: string, d: string, tail: string)
    ensures "n" + " " + x + " " + d + tail == ['n'] + (" " + x + (" " + d + tail))
  {
  }

  /** Any problem line after the first stops the process, in this call or a later one. */
  lemma SecondProblemLineFails(st: Reader, text: string)
    requires st.outcome.Reading? && st.lock
    ensures Step(st.(rest := "p" + text)).outcome == Aborted(SecondProblemLine)
  {
    StepOn(st, 'p', text);
  }

  lemma ArcStepRead(st: Reader, rest: string, u: int, v: int, c: int, tail: string)
    requires ReadThree(rest) == Some((u, v, c, tail))
    ensures var r := ArcStep(st, rest);
      && r.lock == st.lock && r.source == st.source && r.out == st.out
      && (1 <= u <= |st.graph| && 1 <= v <= |st.graph| ==>
            r == AddArc(st, u - 1, v - 1, tail))
      && (!(1 <= u <= |st.graph| && 1 <= v <= |st.graph|) ==> r.outcome == Aborted(EndpointOutOfRange))
  {
    if 1 <= u <= |st.graph| && 1 <= v <= |st.graph| {
      assert ArcStep(st, rest) == AddArc(st, u - 1, v - 1, tail);
    } else {
      assert ArcStep(st, rest) == st.(rest := rest, outcome := Aborted(EndpointOutOfRange));
    }
  }

  /** `a u v c` appends v - 1 to the list of u - 1 and changes no other list; an id outside 1..n stops
      the process. */
  lemma ArcLine(st: Reader, u: int, v: int, c: int, tail: string)
    requires st.outcome.Reading?
    requires tail == [] || !IsDigit(tail[0])
    ensures var r := Step(st.(rest := ArcText(u, v, c) + tail));
      && r.lock == st.lock && r.source == st.source && r.out == st.out
      && (1 <= u <= |st.graph| && 1 <= v <= |st.graph| ==>
            r.outcome.Reading? && r.rest == tail && |r.graph| == |st.graph| && r.graph[u - 1] == st.graph[u - 1] + [v - 1]
            && forall i :: 0 <= i < |st.graph| && i != u - 1 ==> r.graph[i] == st.graph[i])
      && (!(1 <= u <= |st.graph| && 1 <= v <= |st.graph|) ==> r.outcome == Aborted(EndpointOutOfRange))
  {
    var numbers := " " + ShowInt(u) + " " + ShowInt(v) + " " + ShowInt(c) + tail;
    ArcTextSplit(ShowInt(u), ShowInt(v), ShowInt(c), tail);
    StepOn(st, 'a', numbers);
    ReadThreeShow(u, v, c, tail);
    ArcStepRead(st.(rest := ['a'] + numbers), numbers, u, v, c, tail);
  }

  lemma ReadCharAfterSpace(d: char, tail: string)
    requires !IsSpace(d)
    ensures ReadChar(" " + [d] + tail) == Some((d, tail))
  {
    assert " " + [d] + tail == " " + ([d] + tail);
    SkipOneSpace([d] + tail);
    assert ([d] + tail)[1..] == tail;
  }

  /** `n s s` makes s - 1 the source; any other designator leaves the source as it was. */
  lemma NodeLine(st: Reader, id: int, designator: char, tail: string)
    requires st.outcome.Reading? && !IsSpace(designator)
    ensures var r := Step(st.(rest := NodeText(id, [designator]) + tail));
      && r == st.(rest := tail, source := if designator == 's' then id - 1 else st.source)
  {
    var after := " " + [designator] + tail;
    var numbers := " " + ShowInt(id) + after;
    NodeTextSplit(ShowInt(id), [designator], tail);
    StepOn(st, 'n', numbers);
    ReadIntShowInt(id, after);
    ReadCharAfterSpace(designator, tail);
  }

  lemma {:induction false} AfterNewlineSkipsLine(text: string, tail: string)
    requires forall i :: 0 <= i < |text| ==> text[i] != '\n'
    ensures AfterNewline(text + "\n" + tail) == tail
    decreases |text|
  {
    if text == [] {
      assert text + "\n" + tail == "\n" + tail;
    } else {
      assert (text + "\n" + tail)[1..] == text[1..] + "\n" + tail;
      AfterNewlineSkipsLine(text[1..], tail);
    }
  }

  /** A comment is consumed through its newline and changes nothing else. */
  lemma CommentLine(st: Reader, text: string, tail: string)
    requires st.outcome.Reading?
    requires forall i :: 0 <= i < |text| ==> text[i] != '\n'
    ensures Step(st.(rest := "c" + text + "\n" + tail)) == st.(rest := tail)
  {
    assert ("c" + text + "\n" + tail)[1..] == text + "\n" + tail;
    AfterNewlineSkipsLine(text, tail);
  }

  /** An unrecognised character is reported and reading goes on with the next one. */
  lemma UnknownCharacter(st: Reader, flag: char, tail: string)
    requires st.outcome.Reading? && flag !in "\ncpan"
    ensures Step(st.(rest := [flag] + tail)) == st.(rest := tail, out := st.out + [UnknownFlag(flag)])
  {
    assert ([flag] + tail)[1..] == tail;
  }

  // ---------------------------------------------------------------------------------------------
  // The graph read is well formed

  /** Every target in an adjacency list is one of the graph's vertices. */
  predicate TargetsInRange(graph: seq<seq<int>>) {
    forall i, j :: 0 <= i < |graph| && 0 <= j < |graph[i]| ==> 0 <= graph[i][j] < |graph|
  }

  /** Before the problem line the graph is still empty; whatever is read, the targets stay in range. */
  ghost predicate WellFormed(st: Reader) {
    TargetsInRange(st.graph) && (!st.lock ==> st.graph == [])
  }

  /** A problem line sets the lock; the graph it leaves is the old one or a resized empty one. */
  lemma ProblemStepGraph(st: Reader, rest: string)
    ensures var r := ProblemStep(st, rest);
      r.lock && (r.graph == st.graph || (!st.lock && exists n: nat :: r.graph == Resize(st.graph, n)))
  {
    if !st.lock && ReadWord(rest).Some? && ReadWord(rest).value.0 == "max" {
      var rest1 := ReadWord(rest).value.1;
      if ReadTwo(rest1).Some? && ReadTwo(rest1).value.0 >= 0 {
        var n: nat := ReadTwo(rest1).value.0;
        assert ProblemStep(st, rest).graph == Resize(st.graph, n);
      }
    }
  }

  lemma ResizeEmpty(n: nat)
    ensures TargetsInRange(Resize([], n))
  {
    var r := Resize([], n);
    assert forall i :: 0 <= i < |r| ==> r[i] == [];
  }

  lemma ProblemStepWellFormed(st: Reader, rest: string)
    requires WellFormed(st)
    ensures WellFormed(ProblemStep(st, rest))
  {
    ProblemStepGraph(st, rest);
    var r := ProblemStep(st, rest);
    if r.graph != st.graph {
      var n: nat :| r.graph == Resize(st.graph, n);
      ResizeEmpty(n);
    }
  }

  lemma ArcStepWellFormed(st: Reader, rest: string)
    requires WellFormed(st)
    ensures WellFormed(ArcStep(st, rest))
  {
    var r := ArcStep(st, rest);
    if ReadThree(rest).Some? {
      var (u, v, c, tail) := ReadThree(rest).value;
      ArcStepRead(st, rest, u, v, c, tail);
      forall i, j | 0 <= i < |r.graph| && 0 <= j < |r.graph[i]| ensures 0 <= r.graph[i][j] < |r.graph| {
        if 1 <= u <= |st.graph| && 1 <= v <= |st.graph| && (i != u - 1 || j < |st.graph[u - 1]|) {
          assert r.graph[i][j] == st.graph[i][j];
        }
      }
    }
  }

  lemma StepWellFormed(st: Reader)
    requires st.outcome.Reading? && st.rest != [] && WellFormed(st)
    ensures WellFormed(Step(st))
  {
    var flag := st.rest[0];
    if flag == 'p' {
      ProblemStepWellFormed(st, st.rest[1..]);
    } else if flag == 'a' {
      ArcStepWellFormed(st, st.rest[1..]);
    }
  }

  /** Reading into an empty graph, or after an earlier call, yields adjacency lists whose targets are
      all vertices of the graph. */
  lemma {:induction false} RunWellFormed(st: Reader)
    requires WellFormed(st)
    ensures TargetsInRange(Run(st).graph)
    decreases |st.rest|, if st.outcome.Reading? then 1 else 0
  {
    if st.outcome.Reading? && st.rest != [] {
      StepWellFormed(st);
      RunWellFormed(Step(st));
    }
  }
}
