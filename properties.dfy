/** What the server promises on the wire, stated over `Serve`: the exact bytes
    of each route, the file-store behaviour of the file routes, and the
    no-reply cases. */
module ServerProperties {
  import opened Results
  import opened Text
  import opened OrderedDict
  import opened Message
  import opened HttpRequest
  import opened HttpResponse
  import opened Server

  const OkEmpty: string := "HTTP/1.1 200 OK\r\n\r\n"
  const CreatedEmpty: string := "HTTP/1.1 201 Created\r\n\r\n"
  const NotFoundEmpty: string := "HTTP/1.1 404 Not Found\r\n\r\n"

  /** The wire form of a 200 response carrying `content`. */
  function ContentWire(contentType: string, content: string): string {
    "HTTP/1.1 200 OK" + CRLF + "Content-Type: " + contentType + CRLF + "Content-Length: " + NatToDecimal(|content|) + CRLF + CRLF + content
  }

  lemma Decimals()
    ensures NatToDecimal(200) == "200" && NatToDecimal(201) == "201" && NatToDecimal(404) == "404"
  {
    assert NatToDecimal(20) == "20";
    assert NatToDecimal(40) == "40";
  }

  /** A frame with no headers and no body is the start line and two line ends. */
  lemma {:induction false} EmptyFrame(start: string)
    ensures Frame(start, [], "") == start + CRLF + CRLF
  {
    assert HeaderLines([]) == [];
    assert Terminated([]) == "";
  }

  /** A frame with two headers, written out. */
  lemma {:induction false} TwoHeaderFrame(start: string, h1: (string, string), h2: (string, string), body: string)
    ensures Frame(start, [h1, h2], body)
      == start + CRLF + HeaderLine(h1) + CRLF + HeaderLine(h2) + CRLF + CRLF + body
  {
    var hs := [h1, h2];
    assert HeaderLines(hs) == [HeaderLine(h1), HeaderLine(h2)];
    var ls := [HeaderLine(h1), HeaderLine(h2)];
    assert ls[1..] == [HeaderLine(h2)];
    assert [HeaderLine(h2)][1..] == [];
    assert Terminated([HeaderLine(h2)]) == HeaderLine(h2) + CRLF + "";
    assert Terminated(ls) == HeaderLine(h1) + CRLF + (HeaderLine(h2) + CRLF + "");
  }

  lemma StatusLines()
    ensures StatusLine(Version, 200, "OK") == "HTTP/1.1 200 OK"
    ensures StatusLine(Version, 201, "Created") == "HTTP/1.1 201 Created"
    ensures StatusLine(Version, 404, "Not Found") == "HTTP/1.1 404 Not Found"
  {
    Decimals();
  }

  /** The three status-only responses, byte for byte. */
  lemma StatusOnlyWire()
    ensures Serialize(Version, Some(200), [], "") == Ok(OkEmpty)
    ensures Serialize(Version, Some(201), [], "") == Ok(CreatedEmpty)
    ensures Serialize(Version, Some(404), [], "") == Ok(NotFoundEmpty)
  {
    StatusLines();
    EmptyFrame("HTTP/1.1 200 OK");
    EmptyFrame("HTTP/1.1 201 Created");
    EmptyFrame("HTTP/1.1 404 Not Found");
    assert "HTTP/1.1 200 OK" + CRLF + CRLF == OkEmpty;
    assert "HTTP/1.1 201 Created" + CRLF + CRLF == CreatedEmpty;
    assert "HTTP/1.1 404 Not Found" + CRLF + CRLF == NotFoundEmpty;
  }

  lemma {:induction false} ContentHeaderLines(contentType: string, length: string)
    ensures HeaderLine(("Content-Type", contentType)) == "Content-Type: " + contentType
    ensures HeaderLine(("Content-Length", length)) == "Content-Length: " + length
  {
    assert "Content-Type" + HeaderSeparator == "Content-Type: ";
    assert "Content-Length" + HeaderSeparator == "Content-Length: ";
  }

  lemma {:induction false} ContentFrame(contentType: string, length: string, content: string)
    ensures Frame("HTTP/1.1 200 OK", [("Content-Type", contentType), ("Content-Length", length)], content)
      == "HTTP/1.1 200 OK" + CRLF + "Content-Type: " + contentType + CRLF + "Content-Length: " + length + CRLF + CRLF + content
  {
    TwoHeaderFrame("HTTP/1.1 200 OK", ("Content-Type", contentType), ("Content-Length", length), content);
    ContentHeaderLines(contentType, length);
  }

  lemma {:induction false} OkSerialized(hs: Dict<string, string>, body: string)
    ensures Serialize(Version, Some(200), hs, body) == Ok(Frame("HTTP/1.1 200 OK", hs, body))
  {
    StatusLines();
  }

  /** A content response, byte for byte: no header beyond the two that were set. */
  lemma {:induction false} ContentResponseWire(contentType: string, content: string)
    ensures Serialize(Version, Some(200), [("Content-Type", contentType), ("Content-Length", NatToDecimal(|content|))], content)
      == Ok(ContentWire(contentType, content))
  {
    var length := NatToDecimal(|content|);
    OkSerialized([("Content-Type", contentType), ("Content-Length", length)], content);
    ContentFrame(contentType, length, content);
  }

  lemma LowerUserAgent()
    ensures Lower("User-Agent") == "user-agent"
  {
  }

  /** An empty read gets no reply and touches nothing. */
  lemma {:induction false} ServeEmptyRead(files: map<string, string>, dirs: set<string>)
    ensures Serve("", files, dirs) == (None, files)
  {
  }

  /** A request that does not parse gets no reply and touches nothing. */
  lemma {:induction false} ServeMalformed(data: string, files: map<string, string>, dirs: set<string>)
    requires Parse(data).Err?
    ensures Serve(data, files, dirs) == (None, files)
  {
  }

  /** `GET /` answers exactly `HTTP/1.1 200 OK\r\n\r\n`. */
  lemma {:induction false} ServeHome(data: string, files: map<string, string>, dirs: set<string>)
    requires Parse(data).Ok? && Parse(data).value.verb == "GET" && Parse(data).value.path == "/"
    ensures Serve(data, files, dirs) == (Some(OkEmpty), files)
  {
    ParseEmpty();
    StatusOnlyWire();
  }

  /** `GET /echo/<s>` answers 200 with `s` as a text/plain body; its
      Content-Length is the decimal form of the length of `s`, which reads
      back as that length (`Text.DecimalRoundTrip`). */
  lemma {:induction false} ServeEcho(data: string, s: string, files: map<string, string>, dirs: set<string>)
    requires Parse(data).Ok? && Parse(data).value.verb == "GET" && Parse(data).value.path == EchoPrefix + s
    ensures Serve(data, files, dirs) == (Some(ContentWire("text/plain", s)), files)
  {
    ParseEmpty();
    SelectRouteCaptures(s);
    assert Respond(Parse(data).value, files, dirs) == (TextReply(s), files);
    ContentResponseWire("text/plain", s);
  }

  /** `GET /user-agent` answers 200 with the value of the last header whose
      name is `User-Agent` in any letter case, or an empty body when there is
      none. */
  lemma {:induction false} ServeUserAgent(data: string, files: map<string, string>, dirs: set<string>)
    requires Parse(data).Ok? && Parse(data).value.verb == "GET" && Parse(data).value.path == "/user-agent"
    ensures var agent := LastWithLowerName(Parse(data).value.headers, "user-agent").GetOr("");
      Serve(data, files, dirs) == (Some(ContentWire("text/plain", agent)), files)
  {
    ParseEmpty();
    var req := Parse(data).value;
    LowerUserAgent();
    CiHeadersGet(req.headers, "user-agent");
    var agent := LastWithLowerName(req.headers, "user-agent").GetOr("");
    ContentResponseWire("text/plain", agent);
  }

  /** `GET /files/` and `POST /files/` with no name answer 404 and leave the
      store alone. */
  lemma {:induction false} ServeEmptyFileName(data: string, files: map<string, string>, dirs: set<string>)
    requires Parse(data).Ok? && Parse(data).value.path == FilesPrefix
    requires Parse(data).value.verb == "GET" || Parse(data).value.verb == "POST"
    ensures Serve(data, files, dirs) == (Some(NotFoundEmpty), files)
  {
    ParseEmpty();
    SelectRouteCaptures("");
    assert FilesPrefix + "" == FilesPrefix;
    StatusOnlyWire();
  }

  /** `GET /files/<name>` answers 200 with the stored bytes as an
      octet-stream, or 404 when there is no such file. */
  lemma {:induction false} ServeGetFile(data: string, name: string, files: map<string, string>, dirs: set<string>)
    requires Parse(data).Ok? && Parse(data).value.verb == "GET" && Parse(data).value.path == FilesPrefix + name
    requires name != ""
    ensures name in files ==> Serve(data, files, dirs) == (Some(ContentWire("application/octet-stream", files[name])), files)
    ensures name !in files ==> Serve(data, files, dirs) == (Some(NotFoundEmpty), files)
  {
    ParseEmpty();
    SelectRouteCaptures(name);
    StatusOnlyWire();
    if name in files {
      ContentResponseWire("application/octet-stream", files[name]);
    }
  }

  /** `POST /files/<name>` stores the body under the name and answers 201,
      or answers 404 and stores nothing when the directory the name lies in
      is missing. */
  lemma {:induction false} ServePostFile(data: string, name: string, files: map<string, string>, dirs: set<string>)
    requires Parse(data).Ok? && Parse(data).value.verb == "POST" && Parse(data).value.path == FilesPrefix + name
    requires name != ""
    ensures Parent(name) in dirs ==> Serve(data, files, dirs) == (Some(CreatedEmpty), files[name := Parse(data).value.body])
    ensures Parent(name) !in dirs ==> Serve(data, files, dirs) == (Some(NotFoundEmpty), files)
  {
    ParseEmpty();
    SelectRouteCaptures(name);
    StatusOnlyWire();
  }

  /** After a successful upload of `B` to `name`, downloading `name` answers
      200 with body exactly `B`. */
  lemma {:induction false} PostThenGet(post: string, get: string, name: string, files: map<string, string>, dirs: set<string>)
    requires name != "" && Parent(name) in dirs
    requires Parse(post).Ok? && Parse(post).value.verb == "POST" && Parse(post).value.path == FilesPrefix + name
    requires Parse(get).Ok? && Parse(get).value.verb == "GET" && Parse(get).value.path == FilesPrefix + name
    ensures var (_, after) := Serve(post, files, dirs);
      Serve(get, after, dirs).0 == Some(ContentWire("application/octet-stream", Parse(post).value.body))
  {
    ServePostFile(post, name, files, dirs);
    var after := files[name := Parse(post).value.body];
    ServeGetFile(get, name, after, dirs);
  }

  /** Every method and path no route claims answers exactly
      `HTTP/1.1 404 Not Found\r\n\r\n`. */
  lemma {:induction false} ServeFallback(data: string, files: map<string, string>, dirs: set<string>)
    requires Parse(data).Ok? && SelectRoute(Parse(data).value.verb, Parse(data).value.path) == Fallback
    ensures Serve(data, files, dirs) == (Some(NotFoundEmpty), files)
  {
    ParseEmpty();
    StatusOnlyWire();
  }

  /** Every route answers 200, 201 or 404. */
  lemma {:induction false} RespondStatus(req: Request, files: map<string, string>, dirs: set<string>)
    ensures var status := Respond(req, files, dirs).0.status;
      status == 200 || status == 201 || status == 404
  {
  }

  /** Every request that parses gets a reply: the status codes the routes use
      are all in the table, so `build` never fails. */
  lemma {:induction false} ServeReplies(data: string, files: map<string, string>, dirs: set<string>)
    requires Parse(data).Ok?
    ensures Serve(data, files, dirs).0.Some?
  {
    ParseEmpty();
    var reply := Respond(Parse(data).value, files, dirs).0;
    RespondStatus(Parse(data).value, files, dirs);
    assert ReasonPhrase(reply.status).Some?;
  }

  /** Only an upload changes the files, and only the one it names. */
  lemma {:induction false} RespondStore(req: Request, files: map<string, string>, dirs: set<string>)
    ensures var after := Respond(req, files, dirs).1;
      after == files ||
      (req.verb == "POST" && StartsWith(req.path, FilesPrefix) && |req.path| > |FilesPrefix| &&
       Parent(req.path[|FilesPrefix|..]) in dirs &&
       after == files[req.path[|FilesPrefix|..] := req.body])
  {
    match SelectRoute(req.verb, req.path)
    case PostFile(name) =>
      assert req.path[|FilesPrefix|..] == name;
    case _ =>
      assert Respond(req, files, dirs).1 == files;
  }

  /** Only a successful upload changes the store, and it changes exactly the
      one file it names. */
  lemma {:induction false} ServeStoreChanges(data: string, files: map<string, string>, dirs: set<string>)
    ensures var after := Serve(data, files, dirs).1;
      after == files ||
      (Parse(data).Ok? && Parse(data).value.verb == "POST" &&
       StartsWith(Parse(data).value.path, FilesPrefix) && |Parse(data).value.path| > |FilesPrefix| &&
       Parent(Parse(data).value.path[|FilesPrefix|..]) in dirs &&
       after == files[Parse(data).value.path[|FilesPrefix|..] := Parse(data).value.body])
  {
    if data != "" && Parse(data).Ok? {
      RespondStore(Parse(data).value, files, dirs);
    }
  }
}
