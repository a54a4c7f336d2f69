/** The text format of a graph: one edge per line, each line exactly two
    whitespace-separated unsigned integers.  `string_to_edge` and the
    `lines().map(string_to_edge).collect()` of `parse_graph_file`, with every
    panic turned into an error value. */
module EdgeParser {
  import opened Edges

  datatype Option<T> = None | Some(value: T)

  /** The panics of `string_to_edge`, one per message. */
  datatype ParseError =
    | MissingFirstVertex
    | BadFirstVertex
    | MissingSecondVertex
    | BadSecondVertex
    | TooManyParts

  datatype Result<T> = Ok(value: T) | Err(error: ParseError)

  // ---------------------------------------------------------------------
  // Splitting on whitespace (`str::split_whitespace`)
  // ---------------------------------------------------------------------

  /** The Unicode White_Space property, which `char::is_whitespace` and so
      `split_whitespace` use. */
  predicate IsWhitespace(c: char)
  {
    var k := c as int;
    || (0x09 <= k <= 0x0D) || k == 0x20 || k == 0x85 || k == 0xA0 || k == 0x1680
    || (0x2000 <= k <= 0x200A) || k == 0x2028 || k == 0x2029 || k == 0x202F
    || k == 0x205F || k == 0x3000
  }

  predicate NoWhitespace(s: string)
  {
    forall i :: 0 <= i < |s| ==> !IsWhitespace(s[i])
  }

  /** The length of the longest prefix of `s` without whitespace. */
  function WordLength(s: string): (k: nat)
    ensures k <= |s| && NoWhitespace(s[..k])
    ensures k < |s| ==> IsWhitespace(s[k])
  {
    if s == [] || IsWhitespace(s[0]) then 0
    else
      var k := 1 + WordLength(s[1..]);
      assert forall i :: 1 <= i < k ==> s[..k][i] == s[1..][..k - 1][i - 1];
      k
  }

  /** The maximal runs of non-whitespace characters of `s`, in order. */
  function SplitWhitespace(s: string): (words: seq<string>)
    ensures forall i :: 0 <= i < |words| ==> words[i] != [] && NoWhitespace(words[i])
    decreases |s|
  {
    if s == [] then []
    else if IsWhitespace(s[0]) then SplitWhitespace(s[1..])
    else
      var k := WordLength(s);
      [s[..k]] + SplitWhitespace(s[k..])
  }

  /** A word followed by nothing or by whitespace is split off whole. */
  lemma {:induction false} SplitWord(word: string, rest: string)
    requires word != [] && NoWhitespace(word)
    requires rest == [] || IsWhitespace(rest[0])
    ensures SplitWhitespace(word + rest) == [word] + SplitWhitespace(rest)
  {
    WordLengthOf(word, rest);
    assert (word + rest)[..|word|] == word;
    assert (word + rest)[|word|..] == rest;
  }

  lemma {:induction false} WordLengthOf(word: string, rest: string)
    requires NoWhitespace(word)
    requires rest == [] || IsWhitespace(rest[0])
    ensures WordLength(word + rest) == |word|
    decreases |word|
  {
    if word != [] {
      assert (word + rest)[1..] == word[1..] + rest;
      WordLengthOf(word[1..], rest);
    } else {
      assert word + rest == rest;
    }
  }

  // ---------------------------------------------------------------------
  // Unsigned integers (`str::parse::<usize>`)
  // ---------------------------------------------------------------------

  predicate IsDigit(c: char)
  {
    '0' <= c <= '9'
  }

  predicate AllDigits(s: string)
  {
    forall i :: 0 <= i < |s| ==> IsDigit(s[i])
  }

  /** The value of a string of decimal digits. */
  function DigitsValue(digits: string): nat
    requires AllDigits(digits)
  {
    if digits == [] then 0
    else 10 * DigitsValue(digits[..|digits| - 1]) + (digits[|digits| - 1] as int - '0' as int)
  }

  /** `usize::from_str`: an optional `+` followed by at least one ASCII
      digit, with a value that fits in 64 bits.  A lone sign, a `-`, any
      other character and an overflowing value are rejected. */
  function ParseUsize(token: string): (r: Option<nat>)
    ensures r.Some? ==> r.value <= UsizeMax
  {
    if token == [] || token == "+" || token == "-" then None
    else
      var digits := if token[0] == '+' then token[1..] else token;
      if AllDigits(digits) && DigitsValue(digits) <= UsizeMax then Some(DigitsValue(digits)) else None
  }

  function DigitChar(d: nat): (c: char)
    requires d < 10
    ensures IsDigit(c) && c as int - '0' as int == d
  {
    ('0' as int + d) as char
  }

  /** The decimal representation of `v`, as `format!("{}", v)` writes it. */
  function FormatUsize(v: nat): (s: string)
    ensures s != [] && AllDigits(s) && DigitsValue(s) == v
  {
    if v < 10 then [DigitChar(v)]
    else
      var prefix := FormatUsize(v / 10);
      var s := prefix + [DigitChar(v % 10)];
      assert s[..|s| - 1] == prefix;
      s
  }

  lemma UsizeRoundTrip(v: nat)
    requires v <= UsizeMax
    ensures ParseUsize(FormatUsize(v)) == Some(v)
  {
    var s := FormatUsize(v);
    assert IsDigit(s[0]);
  }

  // ---------------------------------------------------------------------
  // One line (`string_to_edge`)
  // ---------------------------------------------------------------------

  /** Reads the first two words of `line` as the endpoints, failing at the
      first missing or malformed word, and then on any third word. */
  function StringToEdge(line: string): (r: Result<Edge>)
    ensures r.Ok? <==>
              var words := SplitWhitespace(line);
              |words| == 2 && ParseUsize(words[0]).Some? && ParseUsize(words[1]).Some?
    ensures r.Ok? ==>
              var words := SplitWhitespace(line);
              r.value == Edge(ParseUsize(words[0]).value, ParseUsize(words[1]).value)
    ensures r.Ok? ==> r.value.v1 <= UsizeMax && r.value.v2 <= UsizeMax
    // the first check that fails decides the error
    ensures var words := SplitWhitespace(line);
            |words| == 0 ==> r == Err(MissingFirstVertex)
    ensures var words := SplitWhitespace(line);
            |words| >= 1 && ParseUsize(words[0]).None? ==> r == Err(BadFirstVertex)
    ensures var words := SplitWhitespace(line);
            |words| == 1 && ParseUsize(words[0]).Some? ==> r == Err(MissingSecondVertex)
    ensures var words := SplitWhitespace(line);
            |words| >= 2 && ParseUsize(words[0]).Some? && ParseUsize(words[1]).None? ==> r == Err(BadSecondVertex)
    ensures var words := SplitWhitespace(line);
            |words| > 2 && ParseUsize(words[0]).Some? && ParseUsize(words[1]).Some? ==> r == Err(TooManyParts)
  {
    var words := SplitWhitespace(line);
    if |words| == 0 then Err(MissingFirstVertex)
    else match ParseUsize(words[0])
      case None => Err(BadFirstVertex)
      case Some(v1) =>
        if |words| == 1 then Err(MissingSecondVertex)
        else match ParseUsize(words[1])
          case None => Err(BadSecondVertex)
          case Some(v2) =>
            if |words| > 2 then Err(TooManyParts) else Ok(Edge(v1, v2))
  }

  /** The line `"v1 v2"`. */
  function FormatEdge(e: Edge): string
  {
    FormatUsize(e.v1) + " " + FormatUsize(e.v2)
  }

  /** Writing an edge as `"v1 v2"` and reading it back gives the edge. */
  lemma EdgeRoundTrip(e: Edge)
    requires e.v1 <= UsizeMax && e.v2 <= UsizeMax
    ensures StringToEdge(FormatEdge(e)) == Ok(e)
  {
    var a, b := FormatUsize(e.v1), FormatUsize(e.v2);
    assert NoWhitespace(a) && NoWhitespace(b);
    WordsOfFormatEdge(a, b);
    UsizeRoundTrip(e.v1);
    UsizeRoundTrip(e.v2);
  }

  lemma WordsOfFormatEdge(a: string, b: string)
    requires a != [] && NoWhitespace(a) && b != [] && NoWhitespace(b)
    ensures SplitWhitespace(a + " " + b) == [a, b]
  {
    SplitWord(b, []);
    assert b + [] == b;
    SplitSpace(b);
    SplitWord(a, " " + b);
    assert a + " " + b == a + (" " + b);
  }

  /** A line made of two one-digit numbers. */
  lemma NumbersLine(line: string, x: nat, y: nat)
    requires x < 10 && y < 10 && line == [DigitChar(x), ' ', DigitChar(y)]
    ensures StringToEdge(line) == Ok(Edge(x, y))
  {
    var a, b := [DigitChar(x)], [DigitChar(y)];
    assert NoWhitespace(a) && NoWhitespace(b);
    WordsOfFormatEdge(a, b);
    assert a + " " + b == line;
    assert a == FormatUsize(x) && b == FormatUsize(y);
    UsizeRoundTrip(x);
    UsizeRoundTrip(y);
  }

  /** A line with a third word after two numbers is rejected, not cut
      short. */
  lemma ThreeWordsRejected(a: string, b: string, c: string)
    requires a != [] && NoWhitespace(a) && b != [] && NoWhitespace(b) && c != [] && NoWhitespace(c)
    requires ParseUsize(a).Some? && ParseUsize(b).Some?
    ensures StringToEdge(a + " " + (b + " " + c)) == Err(TooManyParts)
  {
    SplitThree(a, b, c);
  }

  lemma SplitThree(a: string, b: string, c: string)
    requires a != [] && NoWhitespace(a) && b != [] && NoWhitespace(b) && c != [] && NoWhitespace(c)
    ensures SplitWhitespace(a + " " + (b + " " + c)) == [a, b, c]
  {
    var tail := b + " " + c;
    WordsOfFormatEdge(b, c);
    SplitSpace(tail);
    SplitWord(a, " " + tail);
    assert a + " " + tail == a + (" " + tail);
  }

  /** Leading white space is skipped. */
  lemma SplitSpace(t: string)
    ensures SplitWhitespace(" " + t) == SplitWhitespace(t)
  {
    assert (" " + t)[1..] == t;
  }

  // ---------------------------------------------------------------------
  // A whole file (`lines().map(string_to_edge).collect()`)
  // ---------------------------------------------------------------------

  /** The length of the longest prefix of `text` without a line feed. */
  function LineLength(text: string): (k: nat)
    ensures k <= |text| && '\n' !in text[..k]
    ensures k < |text| ==> text[k] == '\n'
  {
    if text == [] || text[0] == '\n' then 0
    else
      var k := 1 + LineLength(text[1..]);
      assert text[..k] == [text[0]] + text[1..][..k - 1];
      k
  }

  function StripCarriageReturn(line: string): string
  {
    if line != [] && line[|line| - 1] == '\r' then line[..|line| - 1] else line
  }

  /** `str::lines`: the text split at each line feed, with one carriage
      return dropped before each line feed; a final line feed does not start
      another line. */
  function Lines(text: string): (lines: seq<string>)
    ensures forall i :: 0 <= i < |lines| ==> '\n' !in lines[i]
    decreases |text|
  {
    if text == [] then []
    else
      var k := LineLength(text);
      if k == |text| then [text]
      else [StripCarriageReturn(text[..k])] + Lines(text[k + 1..])
  }

  /** Parses every line; the first line that fails decides the error. */
  function ParseLines(lines: seq<string>): (r: Result<seq<Edge>>)
    ensures r.Ok? <==> forall i :: 0 <= i < |lines| ==> StringToEdge(lines[i]).Ok?
    ensures r.Ok? ==> |r.value| == |lines|
    ensures r.Ok? ==> forall i :: 0 <= i < |lines| ==> r.value[i] == StringToEdge(lines[i]).value
  {
    if lines == [] then Ok([])
    else match StringToEdge(lines[0])
      case Err(e) => Err(e)
      case Ok(edge) =>
        match ParseLines(lines[1..])
        case Err(e) => Err(e)
        case Ok(rest) => Ok([edge] + rest)
  }

  lemma ParseLinesCons(line: string, rest: seq<string>)
    requires StringToEdge(line).Ok? && ParseLines(rest).Ok?
    ensures ParseLines([line] + rest) == Ok([StringToEdge(line).value] + ParseLines(rest).value)
  {
    assert ([line] + rest)[0] == line && ([line] + rest)[1..] == rest;
  }

  /** The edge list of a graph file's text. */
  function ParseGraphText(text: string): (r: Result<seq<Edge>>)
    ensures r.Ok? <==> forall line :: line in Lines(text) ==> StringToEdge(line).Ok?
    ensures r.Ok? ==> |r.value| == |Lines(text)|
  {
    var lines := Lines(text);
    assert (forall line :: line in lines ==> StringToEdge(line).Ok?) <==>
           (forall i :: 0 <= i < |lines| ==> StringToEdge(lines[i]).Ok?);
    ParseLines(lines)
  }

  /** A graph file: each edge on a line of its own, each line terminated. */
  function FormatGraph(edges: seq<Edge>): string
  {
    if edges == [] then [] else FormatEdge(edges[0]) + "\n" + FormatGraph(edges[1..])
  }

  lemma {:induction false} LineLengthOf(line: string, rest: string)
    requires '\n' !in line
    ensures LineLength(line + "\n" + rest) == |line|
    decreases |line|
  {
    if line != [] {
      assert (line + "\n" + rest)[1..] == line[1..] + "\n" + rest;
      LineLengthOf(line[1..], rest);
    }
  }

  /** A line without a line feed or a final carriage return, followed by a
      line feed, is read back as one line. */
  lemma LinesCons(line: string, rest: string)
    requires '\n' !in line && StripCarriageReturn(line) == line
    ensures Lines(line + "\n" + rest) == [line] + Lines(rest)
  {
    LineLengthOf(line, rest);
    var text := line + "\n" + rest;
    assert text[..|line|] == line;
    assert text[|line| + 1..] == rest;
  }

  /** A line ended by a carriage return and a line feed is read back without
      that carriage return. */
  lemma LinesCrLf(line: string, rest: string)
    requires '\n' !in line
    ensures Lines(line + "\r\n" + rest) == [line] + Lines(rest)
  {
    var cr := line + "\r";
    assert '\n' !in cr by {
      forall i | 0 <= i < |cr|
        ensures cr[i] != '\n'
      {
        if i < |line| {
          assert cr[i] == line[i];
        }
      }
    }
    LineLengthOf(cr, rest);
    var text := cr + "\n" + rest;
    assert text == line + "\r\n" + rest;
    assert text[..|cr|] == cr;
    assert text[|cr| + 1..] == rest;
    assert cr[..|cr| - 1] == line;
  }

  /** The line of an edge has no line feed and no final carriage return. */
  lemma EdgeLineShape(e: Edge)
    ensures '\n' !in FormatEdge(e) && StripCarriageReturn(FormatEdge(e)) == FormatEdge(e)
  {
    var a, b := FormatUsize(e.v1), FormatUsize(e.v2);
    assert AllDigits(a) && AllDigits(b);
    assert FormatEdge(e) == a + " " + b;
    assert FormatEdge(e)[|FormatEdge(e)| - 1] == b[|b| - 1];
  }

  /** Writing a graph and reading it back gives the same edge list. */
  lemma {:induction false} GraphRoundTrip(edges: seq<Edge>)
    requires forall j :: 0 <= j < |edges| ==> edges[j].v1 <= UsizeMax && edges[j].v2 <= UsizeMax
    ensures ParseGraphText(FormatGraph(edges)) == Ok(edges)
  {
    if edges != [] {
      var line, rest := FormatEdge(edges[0]), FormatGraph(edges[1..]);
      EdgeLineShape(edges[0]);
      LinesCons(line, rest);
      EdgeRoundTrip(edges[0]);
      GraphRoundTrip(edges[1..]);
      ParseLinesCons(line, Lines(rest));
      assert [edges[0]] + edges[1..] == edges;
    }
  }

  /** Two lines without line feeds, joined by one, are read as those two
      lines. */
  lemma TwoLines(first: string, second: string)
    requires '\n' !in first && StripCarriageReturn(first) == first && '\n' !in second
    ensures Lines(first + "\n" + second) == if second == [] then [first] else [first, second]
  {
    LinesCons(first, second);
    if second != [] {
      assert LineLength(second) == |second|;
    }
  }

  /** Two lines that parse give their two edges, in order. */
  lemma ParseTwoLines(first: string, second: string)
    requires StringToEdge(first).Ok? && StringToEdge(second).Ok?
    ensures ParseLines([first, second]) == Ok([StringToEdge(first).value, StringToEdge(second).value])
  {
    var e1, e2 := StringToEdge(first).value, StringToEdge(second).value;
    var none: seq<Edge> := [];
    assert ParseLines([second]) == Ok([e2]) by {
      assert [second][1..] == [];
      assert [e2] + none == [e2];
    }
    assert [first, second][1..] == [second];
    assert [e1] + [e2] == [e1, e2];
  }

  /** The two lines "0 1" and "1 2" give two edges over three vertices. */
  lemma TwoLineGraph(first: string, second: string)
    requires first == "0 1" && second == "1 2"
    ensures ParseGraphText(first + "\n" + second) == Ok([Edge(0, 1), Edge(1, 2)])
    ensures |VertexSet([Edge(0, 1), Edge(1, 2)])| == 3
  {
    assert DigitChar(0) == '0' && DigitChar(1) == '1' && DigitChar(2) == '2';
    assert second != [];
    TwoLines(first, second);
    NumbersLine(first, 0, 1);
    NumbersLine(second, 1, 2);
    ParseTwoLines(first, second);
    PathOfTwoEdges();
  }
}
