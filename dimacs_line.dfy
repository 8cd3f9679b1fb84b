/** One line of a DIMACS max-flow file as the two line-oriented loaders read it: the chunk is split into
    tokens at blanks and tabs, the first character of the first token is the flag, and numbers are read
    the way `std::stoi` reads them. */
module DimacsLine {
  import opened Wrappers

  predicate IsSep(ch: char) { ch == ' ' || ch == '\t' }

  /** The characters `std::stoi` skips before a number. */
  predicate IsSpace(ch: char) { ch == ' ' || ch == '\t' || ch == '\n' || ch == '\r' || ch == '\U{B}' || ch == '\U{C}' }

  predicate IsDigit(ch: char) { '0' <= ch <= '9' }

  /** The longest prefix of `s` without a separator. */
  function Word(s: string): (w: string)
    ensures |w| <= |s|
    ensures forall i :: 0 <= i < |w| ==> !IsSep(w[i])
    ensures |w| < |s| ==> IsSep(s[|w|])
  {
    if s == [] || IsSep(s[0]) then [] else [s[0]] + Word(s[1..])
  }

  /** The tokens of a chunk: maximal runs without a blank or a tab, empty runs dropped. */
  function Tokens(s: string): (toks: seq<string>)
    ensures forall i :: 0 <= i < |toks| ==> toks[i] != []
    decreases |s|
  {
    if s == [] then []
    else if IsSep(s[0]) then Tokens(s[1..])
    else var w := Word(s); [w] + Tokens(s[|w|..])
  }

  function SkipSpace(s: string): (t: string)
    ensures |t| <= |s|
    ensures t != [] ==> !IsSpace(t[0])
  {
    if s != [] && IsSpace(s[0]) then SkipSpace(s[1..]) else s
  }

  function Digits(s: string): (d: string)
    ensures |d| <= |s|
    ensures forall i :: 0 <= i < |d| ==> IsDigit(d[i])
  {
    if s != [] && IsDigit(s[0]) then [s[0]] + Digits(s[1..]) else []
  }

  function DigitValue(ch: char): nat
    requires IsDigit(ch)
  {
    ch as int - '0' as int
  }

  function Value(d: string): nat
    requires forall i :: 0 <= i < |d| ==> IsDigit(d[i])
  {
    if d == [] then 0 else 10 * Value(d[..|d| - 1]) + DigitValue(d[|d| - 1])
  }

  /** An optional sign, then at least one decimal digit; the rest of the text is returned with the
      number taken off. */
  function ReadSigned(t: string): (r: Option<(int, string)>)
    ensures r.Some? ==> |r.value.1| < |t|
  {
    if t != [] && (t[0] == '-' || t[0] == '+') then
      match ReadDigits(t[1..])
      case None => None
      case Some((k, rest)) => Some((if t[0] == '-' then -(k as int) else k, rest))
    else ReadDigits(t)
  }

  function ReadDigits(t: string): (r: Option<(nat, string)>)
    ensures r.Some? ==> |r.value.1| < |t|
  {
    var d := Digits(t);
    if d == [] then None else Some((Value(d), t[|d|..]))
  }

  /** `std::stoi`: blanks, an optional sign, then at least one decimal digit; what follows is ignored.
      No digit is `std::invalid_argument`. */
  function Stoi(tok: string): Option<int> {
    match ReadSigned(SkipSpace(tok))
    case None => None
    case Some((x, _)) => Some(x)
  }

  /** A line after dispatch; vertex ids are already 0-based. */
  datatype Line =
    | Skip
    | Problem(n: int, m: int)
    | Arc(u: int, v: int, c: int)
    | Node(v: int, designator: char)
    | Unknown(flag: char)

  datatype ParseError =
    | NoToken        // a chunk of blanks only: the tokenizer yields nothing to read a flag from
    | MissingToken   // the line ends before a field the dispatch reads
    | NotANumber     // `std::stoi` throws

  function Num(toks: seq<string>, i: nat): Result<int, ParseError> {
    if i >= |toks| then Err(MissingToken)
    else match Stoi(toks[i])
      case None => Err(NotANumber)
      case Some(x) => Ok(x)
  }

  /** The dispatch shared by both line loaders; an empty chunk is skipped before it is tokenized. */
  function Parse(chunk: string): Result<Line, ParseError> {
    if |chunk| == 0 then Ok(Skip) else Dispatch(Tokens(chunk))
  }

  function Dispatch(toks: seq<string>): Result<Line, ParseError>
    requires forall i :: 0 <= i < |toks| ==> toks[i] != []
  {
      if toks == [] then Err(NoToken)
      else
        var flag := toks[0][0];
        if flag == 'c' || flag == '\n' then Ok(Skip)
        else if flag == 'p' then
          // the token after the flag (the problem type) is skipped unread
          match Num(toks, 2)
          case Err(e) => Err(e)
          case Ok(n) =>
            match Num(toks, 3)
            case Err(e) => Err(e)
            case Ok(m) => Ok(Problem(n, m))
        else if flag == 'a' then
          match Num(toks, 1)
          case Err(e) => Err(e)
          case Ok(u) =>
            match Num(toks, 2)
            case Err(e) => Err(e)
            case Ok(v) =>
              match Num(toks, 3)
              case Err(e) => Err(e)
              case Ok(c) => Ok(Arc(u - 1, v - 1, c))
        else if flag == 'n' then
          match Num(toks, 1)
          case Err(e) => Err(e)
          case Ok(v) =>
            if 2 >= |toks| then Err(MissingToken) else Ok(Node(v - 1, toks[2][0]))
        else Ok(Unknown(flag))
  }

  // ---------------------------------------------------------------------------------------------
  // The textual form of a line, and the round trip through Parse

  function ShowDigit(d: nat): (ch: char)
    requires d < 10
    ensures IsDigit(ch) && DigitValue(ch) == d
  {
    ('0' as int + d) as char
  }

  function ShowNat(n: nat): (s: string)
    ensures s != [] && forall i :: 0 <= i < |s| ==> IsDigit(s[i])
  {
    if n < 10 then [ShowDigit(n)] else ShowNat(n / 10) + [ShowDigit(n % 10)]
  }

  /** A decimal integer as it is written in a DIMACS file. */
  function ShowInt(n: int): (s: string)
    ensures s != [] && forall i :: 0 <= i < |s| ==> !IsSep(s[i])
  {
    if n < 0 then "-" + ShowNat(-n) else ShowNat(n)
  }

  lemma {:induction false} ValueShowNat(n: nat)
    ensures Value(ShowNat(n)) == n
  {
    if n >= 10 {
      ValueShowNat(n / 10);
      var s := ShowNat(n);
      assert s[..|s| - 1] == ShowNat(n / 10);
    }
  }

  lemma {:induction false} DigitsAll(s: string, rest: string)
    requires forall i :: 0 <= i < |s| ==> IsDigit(s[i])
    requires rest == [] || !IsDigit(rest[0])
    ensures Digits(s + rest) == s
    decreases |s|
  {
    if s != [] {
      assert (s + rest)[1..] == s[1..] + rest;
      DigitsAll(s[1..], rest);
    }
  }

  lemma ReadDigitsShowNat(n: nat, tail: string)
    requires tail == [] || !IsDigit(tail[0])
    ensures ReadDigits(ShowNat(n) + tail) == Some((n, tail))
  {
    var d := ShowNat(n);
    DigitsAll(d, tail);
    ValueShowNat(n);
    assert (d + tail)[|d|..] == tail;
  }

  /** A written number is read back, and the reading stops right after it. */
  lemma ReadSignedShowInt(n: int, tail: string)
    requires tail == [] || !IsDigit(tail[0])
    ensures ReadSigned(ShowInt(n) + tail) == Some((n, tail))
  {
    var x := ShowInt(n) + tail;
    if n < 0 {
      assert x == "-" + (ShowNat(-n) + tail);
      assert x[1..] == ShowNat(-n) + tail;
      ReadDigitsShowNat(-n, tail);
    } else {
      assert x[0] == ShowNat(n)[0];
      ReadDigitsShowNat(n, tail);
    }
  }

  lemma SkipSpaceStops(s: string)
    requires s != [] && !IsSpace(s[0])
    ensures SkipSpace(s) == s
  {
  }

  /** `std::stoi` reads back exactly the number that was written. */
  lemma StoiShowInt(n: int)
    ensures Stoi(ShowInt(n)) == Some(n)
  {
    var s := ShowInt(n);
    ReadSignedShowInt(n, []);
    assert s + [] == s;
    assert s[0] == '-' || IsDigit(s[0]);
    SkipSpaceStops(s);
  }

  lemma {:induction false} WordOf(w: string, rest: string)
    requires forall i :: 0 <= i < |w| ==> !IsSep(w[i])
    requires rest == [] || IsSep(rest[0])
    ensures Word(w + rest) == w
    decreases |w|
  {
    if w != [] {
      assert (w + rest)[1..] == w[1..] + rest;
      WordOf(w[1..], rest);
    }
  }

  /** A word followed by a blank is the first token. */
  lemma TokensCons(w: string, rest: string)
    requires w != [] && forall i :: 0 <= i < |w| ==> !IsSep(w[i])
    ensures Tokens(w + " " + rest) == [w] + Tokens(rest)
  {
    var s := w + " " + rest;
    WordOf(w, " " + rest);
    assert s == w + (" " + rest);
    assert s[|w|..] == " " + rest;
    assert (" " + rest)[1..] == rest;
  }

  lemma TokensLast(w: string)
    requires w != [] && forall i :: 0 <= i < |w| ==> !IsSep(w[i])
    ensures Tokens(w) == [w]
  {
    WordOf(w, []);
    assert w + [] == w;
    assert w[|w|..] == [];
  }

  function ArcText(u: int, v: int, c: int): string {
    "a" + " " + ShowInt(u) + " " + ShowInt(v) + " " + ShowInt(c)
  }

  function ProblemText(problemType: string, n: int, m: int): string {
    "p" + " " + problemType + " " + ShowInt(n) + " " + ShowInt(m)
  }

  function NodeText(id: int, designator: string): string {
    "n" + " " + ShowInt(id) + " " + designator
  }

  lemma NumAt(toks: seq<string>, i: nat, x: int)
    requires i < |toks| && toks[i] == ShowInt(x)
    ensures Num(toks, i) == Ok(x)
  {
    StoiShowInt(x);
  }

  predicate IsWord(w: string) { w != [] && forall i :: 0 <= i < |w| ==> !IsSep(w[i]) }

  /** Four words separated by single blanks are four tokens. */
  lemma TokensOfFour(w1: string, w2: string, w3: string, w4: string)
    requires IsWord(w1) && IsWord(w2) && IsWord(w3) && IsWord(w4)
    ensures Tokens(w1 + " " + w2 + " " + w3 + " " + w4) == [w1, w2, w3, w4]
  {
    var t2 := w2 + " " + w3 + " " + w4;
    TokensOfThree(w2, w3, w4);
    TokensCons(w1, t2);
    assert w1 + " " + w2 + " " + w3 + " " + w4 == w1 + " " + t2;
  }

  /** Three words separated by single blanks are three tokens. */
  lemma TokensOfThree(w1: string, w2: string, w3: string)
    requires IsWord(w1) && IsWord(w2) && IsWord(w3)
    ensures Tokens(w1 + " " + w2 + " " + w3) == [w1, w2, w3]
  {
    var t2 := w2 + " " + w3;
    TokensLast(w3);
    TokensCons(w2, w3);
    TokensCons(w1, t2);
    assert w1 + " " + w2 + " " + w3 == w1 + " " + t2;
  }

  lemma ArcTokens(u: int, v: int, c: int)
    ensures Tokens(ArcText(u, v, c)) == ["a", ShowInt(u), ShowInt(v), ShowInt(c)]
  {
    TokensOfFour("a", ShowInt(u), ShowInt(v), ShowInt(c));
  }

  /** `a u v c` is an arc from `u - 1` to `v - 1` with capacity `c`. */
  lemma ParseArcText(u: int, v: int, c: int)
    ensures Parse(ArcText(u, v, c)) == Ok(Arc(u - 1, v - 1, c))
  {
    var t := ArcText(u, v, c);
    ArcTokens(u, v, c);
    var toks := Tokens(t);
    NumAt(toks, 1, u);
    NumAt(toks, 2, v);
    NumAt(toks, 3, c);
    assert |t| > 0;
    assert Parse(t) == Dispatch(toks);
    DispatchArc(toks, u, v, c);
  }

  lemma DispatchArc(toks: seq<string>, u: int, v: int, c: int)
    requires |toks| >= 4 && (forall i :: 0 <= i < |toks| ==> toks[i] != []) && toks[0][0] == 'a'
    requires Num(toks, 1) == Ok(u) && Num(toks, 2) == Ok(v) && Num(toks, 3) == Ok(c)
    ensures Dispatch(toks) == Ok(Arc(u - 1, v - 1, c))
  {
  }

  lemma DispatchProblem(toks: seq<string>, n: int, m: int)
    requires |toks| >= 4 && (forall i :: 0 <= i < |toks| ==> toks[i] != []) && toks[0][0] == 'p'
    requires Num(toks, 2) == Ok(n) && Num(toks, 3) == Ok(m)
    ensures Dispatch(toks) == Ok(Problem(n, m))
  {
  }

  /** `p t n m` skips the problem type `t`, whatever it is, and reads `n` and `m`. */
  lemma ParseProblemText(problemType: string, n: int, m: int)
    requires IsWord(problemType)
    ensures Parse(ProblemText(problemType, n, m)) == Ok(Problem(n, m))
  {
    var t := ProblemText(problemType, n, m);
    TokensOfFour("p", problemType, ShowInt(n), ShowInt(m));
    var toks := Tokens(t);
    NumAt(toks, 2, n);
    NumAt(toks, 3, m);
    assert |t| > 0;
    assert Parse(t) == Dispatch(toks);
    DispatchProblem(toks, n, m);
  }

  /** `n id d` names vertex `id - 1` with the first character of `d`. */
  lemma ParseNodeText(id: int, designator: string)
    requires IsWord(designator)
    ensures Parse(NodeText(id, designator)) == Ok(Node(id - 1, designator[0]))
  {
    var t := NodeText(id, designator);
    TokensOfThree("n", ShowInt(id), designator);
    var toks := Tokens(t);
    NumAt(toks, 1, id);
    assert |t| > 0;
    assert Parse(t) == Dispatch(toks);
    DispatchNode(toks, id);
  }

  lemma DispatchNode(toks: seq<string>, id: int)
    requires |toks| >= 3 && (forall i :: 0 <= i < |toks| ==> toks[i] != []) && toks[0][0] == 'n'
    requires Num(toks, 1) == Ok(id)
    ensures Dispatch(toks) == Ok(Node(id - 1, toks[2][0]))
  {
  }

  /** A comment line, whatever follows the `c`, is skipped. */
  lemma ParseComment(rest: string)
    ensures Parse("c" + rest) == Ok(Skip)
  {
    var s := "c" + rest;
    assert !IsSep(s[0]);
    assert Tokens(s)[0] == Word(s);
    assert Word(s)[0] == 'c';
  }
}
