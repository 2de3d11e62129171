/** Request handling: the file store the file routes use, route selection on
    (method, path), the response each route gives, and the handler that takes
    one read of request text to at most one response. */
module Server {
  import opened Results
  import opened Text
  import opened OrderedDict
  import opened HttpRequest
  import opened HttpResponse

  function Lookup(files: map<string, string>, name: string): Option<string> {
    if name in files then Some(files[name]) else None
  }

  /** The directory a file name lies in, relative to the served directory:
      everything before the name's last `/`, or "" (the served directory
      itself) when the name has no `/`. */
  function Parent(name: string): (p: string)
    ensures ('/' !in name && p == "") ||
      (|p| < |name| && name[..|p|] == p && name[|p|] == '/' && '/' !in name[|p| + 1..])
  {
    if name == [] then ""
    else if name[|name| - 1] == '/' then name[..|name| - 1]
    else
      var p := Parent(name[..|name| - 1]);
      assert name[..|name| - 1][..|p|] == name[..|p|];
      assert '/' in name[..|name| - 1] ==> name[|p| + 1..] == name[..|name| - 1][|p| + 1..] + [name[|name| - 1]];
      p
  }

  /** The parent of `dir + "/" + file` is `dir` when `file` holds no `/`, and
      a name with no `/` lies in the served directory itself. */
  lemma {:induction false} ParentOfPath(dir: string, file: string)
    requires '/' !in file
    ensures Parent(dir + "/" + file) == dir
    ensures Parent(file) == ""
  {
    var name := dir + "/" + file;
    var p := Parent(name);
    assert name[|dir|] == '/';
    assert name[|dir| + 1..] == file;
    assert |p| == |dir|;
    assert p == name[..|dir|] == dir;
  }

  /** The served directory: the files in it by their relative names, and the
      directories that exist, by relative path, with "" for the served
      directory itself. Every file lies in an existing directory, and no
      directory exists when the served directory does not. */
  class FileStore {
    var files: map<string, string>
    var dirs: set<string>

    ghost predicate Valid()
      reads this
    {
      (forall name | name in files :: Parent(name) in dirs) &&
      ("" !in dirs ==> dirs == {})
    }

    constructor (initial: map<string, string>, directories: set<string>)
      requires forall name | name in initial :: Parent(name) in directories
      requires "" !in directories ==> directories == {}
      ensures Valid() && files == initial && dirs == directories
    {
      files := initial;
      dirs := directories;
    }

    /** Reading a file: its contents, or `None` where the source gets
        `FileNotFoundError`. */
    method Read(name: string) returns (content: Option<string>)
      ensures content.Some? <==> name in files
      ensures content.Some? ==> content.value == files[name]
    {
      content := Lookup(files, name);
    }

    /** Writing a file (create or overwrite): fails, leaving the store as it
        was, when the directory the name lies in does not exist. */
    method Write(name: string, data: string) returns (ok: bool)
      requires Valid()
      modifies this
      ensures Valid() && dirs == old(dirs)
      ensures ok <==> Parent(name) in dirs
      ensures files == if ok then old(files)[name := data] else old(files)
    {
      ok := Parent(name) in dirs;
      if ok {
        files := files[name := data];
      }
    }
  }

  const EchoPrefix: string := "/echo/"
  const FilesPrefix: string := "/files/"

  datatype Route = Home | Echo(text: string) | UserAgent | GetFile(name: string) | PostFile(name: string) | Fallback

  /** The `match` on (method, path) in `handle_request`: the cases are tried
      in order and the first that matches wins; a prefix case captures the
      rest of the path. */
  function SelectRoute(verb: string, path: string): (r: Route)
    ensures r.Echo? ==> verb == "GET" && path == EchoPrefix + r.text
    ensures r.GetFile? ==> verb == "GET" && path == FilesPrefix + r.name
    ensures r.PostFile? ==> verb == "POST" && path == FilesPrefix + r.name
    ensures r == Home <==> verb == "GET" && path == "/"
    ensures r == UserAgent <==> verb == "GET" && path == "/user-agent"
    ensures r == Fallback <==>
      !(verb == "GET" && (path == "/" || StartsWith(path, EchoPrefix) || path == "/user-agent" || StartsWith(path, FilesPrefix))) &&
      !(verb == "POST" && StartsWith(path, FilesPrefix))
  {
    assert !StartsWith("/user-agent", EchoPrefix) by {
      assert "/user-agent"[1] != EchoPrefix[1];
    }
    if verb == "GET" && path == "/" then Home
    else if verb == "GET" && StartsWith(path, EchoPrefix) then Echo(path[|EchoPrefix|..])
    else if verb == "GET" && path == "/user-agent" then UserAgent
    else if verb == "GET" && StartsWith(path, FilesPrefix) then GetFile(path[|FilesPrefix|..])
    else if verb == "POST" && StartsWith(path, FilesPrefix) then PostFile(path[|FilesPrefix|..])
    else Fallback
  }

  /** Selecting a route for a path built from a prefix recovers what followed
      the prefix. */
  lemma {:induction false} SelectRouteCaptures(s: string)
    ensures SelectRoute("GET", EchoPrefix + s) == Echo(s)
    ensures SelectRoute("GET", FilesPrefix + s) == GetFile(s)
    ensures SelectRoute("POST", FilesPrefix + s) == PostFile(s)
  {
    assert (EchoPrefix + s)[..|EchoPrefix|] == EchoPrefix;
    assert (FilesPrefix + s)[..|FilesPrefix|] == FilesPrefix;
    assert (EchoPrefix + s)[|EchoPrefix|..] == s;
    assert (FilesPrefix + s)[|FilesPrefix|..] == s;
    assert !StartsWith(FilesPrefix + s, EchoPrefix) by {
      assert (FilesPrefix + s)[1] != EchoPrefix[1];
    }
  }

  /** What a route answers: its status, headers in order, and body. */
  datatype Reply = Reply(status: int, headers: Dict<string, string>, body: string)

  function TextReply(s: string): Reply {
    Reply(200, [("Content-Type", "text/plain"), ("Content-Length", NatToDecimal(|s|))], s)
  }

  function NotFound(): Reply {
    Reply(404, [], "")
  }

  /** The response of each route, and the files afterwards. */
  function Respond(req: Request, files: map<string, string>, dirs: set<string>): (Reply, map<string, string>) {
    match SelectRoute(req.verb, req.path)
    case Home => (Reply(200, [], ""), files)
    case Echo(s) => (TextReply(s), files)
    case UserAgent => (TextReply(Get(req.CiHeaders(), Lower("User-Agent")).GetOr("")), files)
    case GetFile(name) =>
      if name == "" then (NotFound(), files)
      else (
        match Lookup(files, name)
        case None => (NotFound(), files)
        case Some(content) =>
          (Reply(200, [("Content-Type", "application/octet-stream"), ("Content-Length", NatToDecimal(|content|))], content), files))
    case PostFile(name) =>
      if name == "" then (NotFound(), files)
      else if Parent(name) in dirs then (Reply(201, [], ""), files[name := req.body])
      else (NotFound(), files)
    case Fallback => (NotFound(), files)
  }

  /** `handle_request` on one read: no reply for an empty read or a request
      that does not parse (the connection is closed without a response);
      otherwise the serialised reply of the selected route. */
  function Serve(data: string, files: map<string, string>, dirs: set<string>): (Option<string>, map<string, string>) {
    if data == "" then (None, files)
    else
      match Parse(data)
      case Err(_) => (None, files)
      case Ok(req) =>
        var (reply, files') := Respond(req, files, dirs);
        match Serialize(Version, Some(reply.status), reply.headers, reply.body)
        case Ok(wire) => (Some(wire), files')
        case Err(_) => (None, files')
  }

  /** A builder for a status-only response. */
  method StatusResponse(code: int) returns (response: ResponseBuilder)
    ensures fresh(response) && response.Valid()
    ensures response.version == Version && response.statusCode == Some(code)
    ensures response.headers == [] && response.body == ""
  {
    response := new ResponseBuilder();
    response := response.SetStatusCode(code);
  }

  /** A builder for a 200 response carrying `content` with its type and length. */
  method ContentResponse(contentType: string, content: string) returns (response: ResponseBuilder)
    ensures fresh(response) && response.Valid()
    ensures response.version == Version && response.statusCode == Some(200)
    ensures response.headers == [("Content-Type", contentType), ("Content-Length", NatToDecimal(|content|))]
    ensures response.body == content
  {
    response := new ResponseBuilder();
    response := response.SetStatusCode(200);
    response := response.SetHeader(("Content-Type", contentType));
    response := response.SetHeader(("Content-Length", NatToDecimal(|content|)));
    response := response.SetBody(content);
  }

  /** The `match` of `handle_request`: builds the selected route's response,
      reading or writing the store where the route does. */
  method Dispatch(request: Request, store: FileStore) returns (response: ResponseBuilder)
    requires store.Valid()
    modifies store
    ensures store.Valid() && store.dirs == old(store.dirs)
    ensures fresh(response) && response.Valid() && response.version == Version
    ensures var (r, files) := Respond(request, old(store.files), old(store.dirs));
      response.statusCode == Some(r.status) && response.headers == r.headers && response.body == r.body &&
      store.files == files
  {
    match SelectRoute(request.verb, request.path) {
    case Home =>
      response := StatusResponse(200);
    case Echo(echo) =>
      response := ContentResponse("text/plain", echo);
    case UserAgent =>
      var userAgent := Get(request.CiHeaders(), Lower("User-Agent")).GetOr("");
      response := ContentResponse("text/plain", userAgent);
    case GetFile(fileName) =>
      if fileName == "" {
        response := StatusResponse(404);
      } else {
        var content := store.Read(fileName);
        if content.None? {
          response := StatusResponse(404);
        } else {
          response := ContentResponse("application/octet-stream", content.value);
        }
      }
    case PostFile(fileName) =>
      if fileName == "" {
        response := StatusResponse(404);
      } else {
        var ok := store.Write(fileName, request.body);
        if ok {
          response := StatusResponse(201);
        } else {
          response := StatusResponse(404);
        }
      }
    case Fallback =>
      response := StatusResponse(404);
    }
  }

  /** The handler over a mutable file store: parse, route, build. */
  method HandleRequest(data: string, store: FileStore) returns (reply: Option<string>)
    requires store.Valid()
    modifies store
    ensures store.Valid() && store.dirs == old(store.dirs)
    ensures (reply, store.files) == Serve(data, old(store.files), old(store.dirs))
  {
    if data == "" {
      return None;
    }
    var parsed := ParseRequest(data);
    if parsed.Err? {
      return None;
    }
    var response := Dispatch(parsed.value, store);
    var built := response.Build();
    reply := if built.Ok? then Some(built.value) else None;
  }
}
