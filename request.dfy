/** The request side of the server: the `Request` value, its case-insensitive
    header view, and the parser that turns one read of request text into a
    `Request` (or fails, in which case no response is sent). */
module HttpRequest {
  import opened Results
  import opened Text
  import opened OrderedDict
  import opened Message

  datatype Request = Request(
    verb: string,  // the request method
    path: string,
    version: string,
    headers: Dict<string, string>,
    body: string)
  {
    /** `ci_headers`: the headers with lower-cased names. */
    function CiHeaders(): (ci: Dict<string, string>)
      ensures DistinctKeys(ci)
    {
      LowerNames(headers)
    }
  }

  /** The dictionary comprehension `{k.lower(): v for k, v in h.items()}`:
      entries are visited in order, so a later name that lower-cases to the
      same key overwrites the earlier value. */
  function LowerNames(h: Dict<string, string>): (ci: Dict<string, string>)
    ensures DistinctKeys(ci)
  {
    if h == [] then []
    else
      var n := |h| - 1;
      Put(LowerNames(h[..n]), Lower(h[n].0), h[n].1)
  }

  /** Reference meaning of a case-insensitive lookup: the value of the last
      header whose lower-cased name is `key`. */
  function LastWithLowerName(h: Dict<string, string>, key: string): (r: Option<string>)
    ensures r.Some? <==> exists i :: 0 <= i < |h| && Lower(h[i].0) == key
  {
    if h == [] then None
    else
      var n := |h| - 1;
      if Lower(h[n].0) == key then Some(h[n].1)
      else
        var r := LastWithLowerName(h[..n], key);
        assert forall i :: 0 <= i < n ==> h[..n][i] == h[i];
        r
  }

  /** Looking a name up in `ci_headers` finds the value of the last header
      whose name lower-cases to it; `headers` itself is a separate value and is
      left as it was. */
  lemma {:induction false} CiHeadersGet(h: Dict<string, string>, key: string)
    ensures Get(LowerNames(h), key) == LastWithLowerName(h, key)
  {
    if h != [] {
      var n := |h| - 1;
      CiHeadersGet(h[..n], key);
      if Lower(h[n].0) == key {
        PutGetSame(LowerNames(h[..n]), key, h[n].1);
      } else {
        PutGetOther(LowerNames(h[..n]), Lower(h[n].0), h[n].1, key);
      }
    }
  }

  /** The names in `ci_headers` are exactly the lower-cased original names. */
  lemma {:induction false} CiHeadersNames(h: Dict<string, string>, key: string)
    ensures key in Keys(LowerNames(h)) <==> exists i :: 0 <= i < |h| && Lower(h[i].0) == key
  {
    CiHeadersGet(h, key);
  }

  datatype ParseError = TooFewLines | BadStartLine | BadHeaderLine

  /** `key, value = header.split(": ")`, which fails unless the line splits
      into exactly two pieces. */
  function SplitHeader(line: string): (r: Option<(string, string)>)
    ensures r.Some? ==> line == HeaderLine(r.value)
  {
    var kv := Split(line, HeaderSeparator);
    SplitJoin(line, HeaderSeparator);
    if |kv| == 2 then
      assert kv[1..] == [kv[1]];
      Some((kv[0], kv[1]))
    else None
  }

  /** Neither part of a split header line holds the separator. */
  lemma {:induction false} SplitHeaderFree(line: string)
    requires SplitHeader(line).Some?
    ensures !Contains(SplitHeader(line).value.0, HeaderSeparator) && !Contains(SplitHeader(line).value.1, HeaderSeparator)
  {
    SplitPiecesFree(line, HeaderSeparator);
  }

  /** A header line whose value itself contains ": " is rejected. */
  lemma {:induction false} SplitHeaderExtraSeparator(name: string, value: string)
    requires !Contains(name, HeaderSeparator) && Contains(value, HeaderSeparator)
    ensures SplitHeader(HeaderLine((name, value))).None?
  {
    SeparatorsHaveNoBorder();
    SplitFirst(name, value, HeaderSeparator);
    SplitContains(value, HeaderSeparator);
  }

  /** Parsing a framed header line gives back its name and value. */
  lemma {:induction false} SplitHeaderLine(h: (string, string))
    requires !Contains(h.0, HeaderSeparator) && !Contains(h.1, HeaderSeparator)
    ensures SplitHeader(HeaderLine(h)) == Some(h)
  {
    SeparatorsHaveNoBorder();
    assert Join([h.0, h.1], HeaderSeparator) == HeaderLine(h) by {
      assert [h.0, h.1][1..] == [h.1];
    }
    JoinSplit([h.0, h.1], HeaderSeparator);
  }

  /** The header loop of `parse_request`: each line is split into a name and
      a value and stored with `headers_dict[key] = value`, in order. */
  function ParseHeaders(lines: seq<string>): (r: Result<Dict<string, string>, ParseError>)
    ensures r.Ok? ==> DistinctKeys(r.value)
    ensures r.Err? ==> r.error == BadHeaderLine
  {
    if lines == [] then Ok([])
    else
      var n := |lines| - 1;
      match ParseHeaders(lines[..n])
      case Err(e) => Err(e)
      case Ok(d) =>
        match SplitHeader(lines[n])
        case None => Err(BadHeaderLine)
        case Some(kv) => Ok(Put(d, kv.0, kv.1))
  }

  predicate LineSplits(line: string) {
    SplitHeader(line).Some?
  }

  /** `p` holds of every element, stated element by element from the end,
      the way a left fold meets them. */
  predicate AllFromEnd<T>(xs: seq<T>, p: T -> bool) {
    xs == [] || (AllFromEnd(xs[..|xs| - 1], p) && p(xs[|xs| - 1]))
  }

  lemma {:induction false} AllFromEndEach<T>(xs: seq<T>, p: T -> bool)
    ensures AllFromEnd(xs, p) <==> forall i :: 0 <= i < |xs| ==> p(xs[i])
  {
    if xs != [] {
      var n := |xs| - 1;
      var init := xs[..n];
      AllFromEndEach(init, p);
      assert forall i :: 0 <= i < n ==> init[i] == xs[i];
    }
  }

  lemma {:induction false} ParseHeadersAll(lines: seq<string>)
    ensures ParseHeaders(lines).Ok? <==> AllFromEnd(lines, LineSplits)
  {
    if lines != [] {
      ParseHeadersAll(lines[..|lines| - 1]);
    }
  }

  /** The header loop succeeds exactly when every line splits on ": " into
      two pieces. */
  lemma {:induction false} ParseHeadersSucceeds(lines: seq<string>)
    ensures ParseHeaders(lines).Ok? <==> forall i :: 0 <= i < |lines| ==> SplitHeader(lines[i]).Some?
  {
    ParseHeadersAll(lines);
    AllFromEndEach(lines, LineSplits);
  }

  /** A failing prefix of the header lines makes the whole loop fail. */
  lemma {:induction false} ParseHeadersPrefixFails(lines: seq<string>, m: nat)
    requires m <= |lines| && ParseHeaders(lines[..m]).Err?
    ensures ParseHeaders(lines).Err?
    decreases |lines| - m
  {
    if m < |lines| {
      assert lines[..m + 1][..m] == lines[..m];
      ParseHeadersPrefixFails(lines, m + 1);
    } else {
      assert lines[..m] == lines;
    }
  }

  /** Reference meaning of the parsed headers: the value of the last line
      that names `key`. */
  function LastHeader(lines: seq<string>, key: string): Option<string> {
    if lines == [] then None
    else
      var n := |lines| - 1;
      var kv := SplitHeader(lines[n]);
      if kv.Some? && kv.value.0 == key then Some(kv.value.1)
      else LastHeader(lines[..n], key)
  }

  /** A later line with the same name overwrites an earlier one. */
  lemma {:induction false} ParseHeadersGet(lines: seq<string>, key: string)
    requires ParseHeaders(lines).Ok?
    ensures Get(ParseHeaders(lines).value, key) == LastHeader(lines, key)
  {
    if lines != [] {
      var n := |lines| - 1;
      ParseHeadersGet(lines[..n], key);
      var d := ParseHeaders(lines[..n]).value;
      var kv := SplitHeader(lines[n]).value;
      if kv.0 == key {
        PutGetSame(d, key, kv.1);
      } else {
        PutGetOther(d, kv.0, kv.1, key);
      }
    }
  }

  /** Dropping the last header keeps the headers distinct and framable. */
  lemma {:induction false} HeadersPrefix(hs: Dict<string, string>)
    requires DistinctKeys(hs) && Framable(hs) && hs != []
    ensures var init := hs[..|hs| - 1];
      DistinctKeys(init) && Framable(init) && hs[|hs| - 1].0 !in Keys(init) &&
      hs == init + [hs[|hs| - 1]] &&
      HeaderLines(hs)[..|hs| - 1] == HeaderLines(init)
  {
    var n := |hs| - 1;
    var init := hs[..n];
    assert forall i :: 0 <= i < n ==> init[i] == hs[i];
    assert hs == init + [hs[n]];
  }

  /** Header lines as a client frames them parse back into the same ordered
      dictionary. */
  lemma {:induction false} ParseHeaderLines(hs: Dict<string, string>)
    requires DistinctKeys(hs) && Framable(hs)
    ensures ParseHeaders(HeaderLines(hs)) == Ok(hs)
  {
    if hs != [] {
      var n := |hs| - 1;
      var init := hs[..n];
      var lines := HeaderLines(hs);
      HeadersPrefix(hs);
      ParseHeaderLines(init);
      assert ParseHeaders(lines[..n]) == Ok(init);
      SplitHeaderLine(hs[n]);
      assert SplitHeader(lines[n]) == Some(hs[n]);
      assert Put(init, hs[n].0, hs[n].1) == hs;
    }
  }

  /** `parse_request`: split the text on CRLF; the first piece is the start
      line, the last piece the body, the next-to-last piece is dropped without
      a look, and everything in between is a header line. */
  function Parse(data: string): Result<Request, ParseError> {
    var parts := Split(data, CRLF);
    if |parts| < 3 then Err(TooFewLines)
    else
      var tokens := Split(parts[0], " ");
      if |tokens| != 3 then Err(BadStartLine)
      else
        match ParseHeaders(parts[1..|parts| - 2])
        case Err(e) => Err(e)
        case Ok(headers) => Ok(Request(tokens[0], tokens[1], tokens[2], headers, parts[|parts| - 1]))
  }

  /** The header loop after one more line. */
  lemma {:induction false} ParseHeadersNext(lines: seq<string>, i: nat, d: Dict<string, string>)
    requires i < |lines| && ParseHeaders(lines[..i]) == Ok(d)
    ensures var kv := Split(lines[i], HeaderSeparator);
      ParseHeaders(lines[..i + 1]) == if |kv| == 2 then Ok(Put(d, kv[0], kv[1])) else Err(BadHeaderLine)
  {
    assert lines[..i + 1][..i] == lines[..i];
    assert lines[..i + 1][i] == lines[i];
  }

  /** The imperative `parse_request`, with the header loop that fills the
      dictionary in place. */
  method ParseRequest(data: string) returns (r: Result<Request, ParseError>)
    ensures r == Parse(data)
  {
    var parts := Split(data, CRLF);
    if |parts| < 3 {
      return Err(TooFewLines);
    }
    var startLine, lines, body := parts[0], parts[1..|parts| - 2], parts[|parts| - 1];
    var tokens := Split(startLine, " ");
    if |tokens| != 3 {
      return Err(BadStartLine);
    }
    var headers: Dict<string, string> := [];
    var i := 0;
    while i < |lines|
      invariant 0 <= i <= |lines|
      invariant ParseHeaders(lines[..i]) == Ok(headers)
    {
      var kv := Split(lines[i], HeaderSeparator);
      ParseHeadersNext(lines, i, headers);
      if |kv| != 2 {
        ParseHeadersPrefixFails(lines, i + 1);
        return Err(BadHeaderLine);
      }
      headers := Put(headers, kv[0], kv[1]);
      i := i + 1;
    }
    assert lines[..i] == lines;
    return Ok(Request(tokens[0], tokens[1], tokens[2], headers, body));
  }

  /** Parsing fails exactly when the text has fewer than three CRLF-separated
      pieces, when the start line does not split on single spaces into three
      tokens, or when some header line does not split on ": " into two. */
  lemma {:induction false} ParseSucceeds(data: string)
    ensures var parts := Split(data, CRLF);
      Parse(data).Ok? <==>
        |parts| >= 3 && |Split(parts[0], " ")| == 3 &&
        forall i :: 1 <= i < |parts| - 2 ==> |Split(parts[i], HeaderSeparator)| == 2
  {
    var parts := Split(data, CRLF);
    if |parts| >= 3 && |Split(parts[0], " ")| == 3 {
      var lines := parts[1..|parts| - 2];
      assert Parse(data).Ok? <==> ParseHeaders(lines).Ok?;
      ParseHeadersSucceeds(lines);
      forall i | 1 <= i < |parts| - 2
        ensures SplitHeader(lines[i - 1]).Some? <==> |Split(parts[i], HeaderSeparator)| == 2
      {
        assert lines[i - 1] == parts[i];
      }
      if !ParseHeaders(lines).Ok? {
        var j :| 0 <= j < |lines| && !SplitHeader(lines[j]).Some?;
        assert !(|Split(parts[j + 1], HeaderSeparator)| == 2);
      }
    }
  }

  /** On success the fields are the three start-line tokens, the last piece
      as body, and headers in which each name has the value of its last line. */
  lemma {:induction false} ParseFields(data: string, key: string)
    requires Parse(data).Ok?
    ensures var parts := Split(data, CRLF);
      var tokens := Split(parts[0], " ");
      var req := Parse(data).value;
      req.verb == tokens[0] && req.path == tokens[1] && req.version == tokens[2] &&
      req.body == parts[|parts| - 1] &&
      Get(req.headers, key) == LastHeader(parts[1..|parts| - 2], key)
  {
    var parts := Split(data, CRLF);
    ParseHeadersGet(parts[1..|parts| - 2], key);
  }

  /** An empty read never parses. */
  lemma ParseEmpty()
    ensures Parse("").Err?
  {
    assert FindFirst("", CRLF).None?;
  }

  /** The request text a client sends. */
  function FormatRequest(verb: string, path: string, version: string, headers: Dict<string, string>, body: string): string {
    Frame(verb + " " + path + " " + version, headers, body)
  }

  /** A well-formed request: start-line tokens without spaces, no line break
      in the start line, header lines or body, names and values without ": ",
      and no name twice. */
  predicate WellFormed(verb: string, path: string, version: string, headers: Dict<string, string>, body: string) {
    !Contains(verb, " ") && !Contains(path, " ") && !Contains(version, " ") &&
    !Contains(verb + " " + path + " " + version, CRLF) &&
    Framable(headers) && DistinctKeys(headers) && !Contains(body, CRLF)
  }

  /** The start line splits back into its three tokens. */
  lemma {:induction false} StartLineTokens(verb: string, path: string, version: string)
    requires !Contains(verb, " ") && !Contains(path, " ") && !Contains(version, " ")
    ensures Split(verb + " " + path + " " + version, " ") == [verb, path, version]
  {
    SeparatorsHaveNoBorder();
    assert Join([verb, path, version], " ") == verb + " " + path + " " + version by {
      assert [verb, path, version][1..] == [path, version];
      assert [path, version][1..] == [version];
      assert Join([path, version], " ") == path + " " + version;
    }
    JoinSplit([verb, path, version], " ");
  }

  /** Parsing a well-formed request gives back exactly what was sent. */
  lemma {:induction false} ParseFormat(verb: string, path: string, version: string, headers: Dict<string, string>, body: string)
    requires WellFormed(verb, path, version, headers, body)
    ensures Parse(FormatRequest(verb, path, version, headers, body)) == Ok(Request(verb, path, version, headers, body))
  {
    var start := verb + " " + path + " " + version;
    FrameSplit(start, headers, body);
    SplitFree(body, CRLF);
    var parts := Split(FormatRequest(verb, path, version, headers, body), CRLF);
    assert parts == [start] + HeaderLines(headers) + ["", body];
    StartLineTokens(verb, path, version);
    assert parts[1..|parts| - 2] == HeaderLines(headers);
    ParseHeaderLines(headers);
  }

  /** A body with a line break in it is not a body to the parser: its first
      line is taken for the next-to-last piece, the blank line before it for
      a header line, and the request is rejected. */
  lemma {:induction false} ParseBodyLineBreak(verb: string, path: string, version: string, headers: Dict<string, string>, first: string, rest: string)
    requires WellFormed(verb, path, version, headers, first) && !Contains(rest, CRLF)
    ensures Parse(FormatRequest(verb, path, version, headers, first + CRLF + rest)) == Err(BadHeaderLine)
  {
    var start := verb + " " + path + " " + version;
    FrameSplit(start, headers, first + CRLF + rest);
    SeparatorsHaveNoBorder();
    SplitFirst(first, rest, CRLF);
    SplitFree(rest, CRLF);
    var parts := Split(FormatRequest(verb, path, version, headers, first + CRLF + rest), CRLF);
    assert parts == [start] + HeaderLines(headers) + ["", first, rest];
    StartLineTokens(verb, path, version);
    var lines := parts[1..|parts| - 2];
    assert lines == HeaderLines(headers) + [""];
    SplitFree("", HeaderSeparator);
    assert SplitHeader(lines[|lines| - 1]).None?;
    ParseHeadersSucceeds(lines);
  }
}
