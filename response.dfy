/** The response side of the server: the status table, the wire form of a
    response, and `ResponseBuilder`, the mutable builder whose setters change
    one field each and whose `build` serialises it. */
module HttpResponse {
  import opened Results
  import opened Text
  import opened OrderedDict
  import opened Message
  import HttpRequest

  const Version: string := "HTTP/1.1"

  /** The part of the standard reason-phrase table (`http.HTTPStatus`) that
      the server's routes use; any other code has no phrase. */
  function ReasonPhrase(code: int): (phrase: Option<string>)
    ensures phrase.Some? ==> code > 0 && '\r' !in phrase.value
  {
    if code == 200 then Some("OK")
    else if code == 201 then Some("Created")
    else if code == 404 then Some("Not Found")
    else None
  }

  datatype BuildError = MissingStatus | UnknownStatus(code: int)

  function StatusLine(version: string, code: nat, phrase: string): string {
    version + " " + NatToDecimal(code) + " " + phrase
  }

  /** What `build` produces from the builder's fields: a failure when the
      status code is unset or zero, or has no reason phrase; otherwise the
      status line, the headers in order, a blank line and the body. No header
      is added. */
  function Serialize(version: string, status: Option<int>, headers: Dict<string, string>, body: string): Result<string, BuildError> {
    if status.None? || status.value == 0 then Err(MissingStatus)
    else
      match ReasonPhrase(status.value)
      case None => Err(UnknownStatus(status.value))
      case Some(phrase) => Ok(Frame(StatusLine(version, status.value, phrase), headers, body))
  }

  /** `build` fails exactly when the status is unset or zero (missing) or has
      no entry in the status table (unknown). */
  lemma {:induction false} SerializeFails(version: string, status: Option<int>, headers: Dict<string, string>, body: string)
    ensures Serialize(version, status, headers, body) == Err(MissingStatus) <==> status.None? || status.value == 0
    ensures Serialize(version, status, headers, body).Err? <==> status.None? || ReasonPhrase(status.value).None?
  {
  }

  /** Re-parsing a serialised response: the first CRLF-separated piece is the
      status line; the next pieces are exactly the headers that were set, and
      parse back (with the request parser's header loop) to the same ordered
      dictionary; then comes the blank line, and the rest rejoins to the body. */
  lemma {:induction false} SerializeReparse(version: string, status: Option<int>, headers: Dict<string, string>, body: string)
    requires Serialize(version, status, headers, body).Ok?
    requires '\r' !in version
    requires Framable(headers) && DistinctKeys(headers)
    ensures var parts := Split(Serialize(version, status, headers, body).value, CRLF);
      var n := |headers|;
      |parts| >= n + 3 &&
      parts[0] == StatusLine(version, status.value, ReasonPhrase(status.value).value) &&
      HttpRequest.ParseHeaders(parts[1..n + 1]) == Ok(headers) &&
      parts[n + 1] == "" &&
      Join(parts[n + 2..], CRLF) == body
  {
    var code := status.value;
    var phrase := ReasonPhrase(code).value;
    var start := StatusLine(version, code, phrase);
    StatusLineFree(version, code, phrase);
    FrameSplit(start, headers, body);
    var parts := Split(Frame(start, headers, body), CRLF);
    var n := |headers|;
    assert parts == [start] + HeaderLines(headers) + [""] + Split(body, CRLF);
    assert parts[1..n + 1] == HeaderLines(headers);
    assert parts[n + 2..] == Split(body, CRLF);
    HttpRequest.ParseHeaderLines(headers);
    SplitJoin(body, CRLF);
  }

  /** Decimal digits and the spaces of a status line hold no carriage return. */
  lemma {:induction false} StatusLineFree(version: string, code: nat, phrase: string)
    requires '\r' !in version && '\r' !in phrase
    ensures !Contains(StatusLine(version, code, phrase), CRLF)
  {
    var d := NatToDecimal(code);
    assert '\r' !in d by {
      forall i | 0 <= i < |d| ensures d[i] != '\r' {
        assert IsDigit(d[i]);
      }
    }
    assert CRLF[0] == '\r';
    MissingChar(StatusLine(version, code, phrase), CRLF, '\r');
  }

  class ResponseBuilder {
    var version: string
    var statusCode: Option<int>
    var headers: Dict<string, string>
    var body: string

    /** The headers form a dictionary: no name twice. */
    ghost predicate Valid()
      reads this
    {
      DistinctKeys(headers)
    }

    constructor ()
      ensures Valid()
      ensures version == Version && statusCode == None && headers == [] && body == ""
    {
      version := Version;
      statusCode := None;
      headers := [];
      body := "";
    }

    method SetStatusCode(code: int) returns (self: ResponseBuilder)
      requires Valid()
      modifies this
      ensures Valid() && self == this
      ensures statusCode == Some(code)
      ensures version == old(version) && headers == old(headers) && body == old(body)
    {
      statusCode := Some(code);
      self := this;
    }

    /** Binds the name to the value; an existing name keeps its position. */
    method SetHeader(header: (string, string)) returns (self: ResponseBuilder)
      requires Valid()
      modifies this
      ensures Valid() && self == this
      ensures headers == Put(old(headers), header.0, header.1)
      ensures version == old(version) && statusCode == old(statusCode) && body == old(body)
    {
      var (k, v) := header;
      headers := Put(headers, k, v);
      self := this;
    }

    method SetBody(b: string) returns (self: ResponseBuilder)
      requires Valid()
      modifies this
      ensures Valid() && self == this
      ensures body == b
      ensures version == old(version) && statusCode == old(statusCode) && headers == old(headers)
    {
      body := b;
      self := this;
    }

    /** `build`: reads the builder and changes nothing. */
    method Build() returns (r: Result<string, BuildError>)
      ensures r == Serialize(version, statusCode, headers, body)
    {
      if statusCode.None? || statusCode.value == 0 {
        return Err(MissingStatus);
      }
      var phrase := ReasonPhrase(statusCode.value);
      if phrase.None? {
        return Err(UnknownStatus(statusCode.value));
      }
      var statusLine := version + " " + NatToDecimal(statusCode.value) + " " + phrase.value + CRLF;
      var strHeaders := "";
      var i := 0;
      while i < |headers|
        invariant 0 <= i <= |headers|
        invariant strHeaders == Terminated(HeaderLines(headers)[..i])
      {
        var (key, value) := headers[i];
        TerminatedPrefixStep(HeaderLines(headers), i);
        assert strHeaders + (key + ": " + value + CRLF) == strHeaders + HeaderLine(headers[i]) + CRLF;
        strHeaders := strHeaders + (key + ": " + value + CRLF);
        i := i + 1;
      }
      assert HeaderLines(headers)[..i] == HeaderLines(headers);
      strHeaders := strHeaders + CRLF;
      ghost var start := StatusLine(version, statusCode.value, phrase.value);
      ghost var block := Terminated(HeaderLines(headers));
      assert statusLine == start + CRLF;
      assert statusLine + strHeaders + body == start + CRLF + block + CRLF + body;
      r := Ok(statusLine + strHeaders + body);
    }
  }

  /** Building twice gives the same bytes. */
  method BuildTwice(b: ResponseBuilder) returns (first: Result<string, BuildError>, second: Result<string, BuildError>)
    ensures first == second
    ensures first == Serialize(b.version, b.statusCode, b.headers, b.body)
  {
    first := b.Build();
    second := b.Build();
  }
}
