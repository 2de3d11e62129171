# A verified model of a minimal HTTP/1.1 server

The server reads a single request per connection and answers it. It parses the
request text by hand, routes on (method, path), and serialises the reply with a
small fluent builder. This project models that core in Dafny and proves what it
does on the wire.

The model has eight modules:

- `Results` (`results.dfy`): `Option` and `Result`.
- `Text` (`text.dfy`): Python's `str.split`, modelled as `Split` with its inverse `Join`, plus ASCII `lower()` and `str(n)` for naturals.
  - Python's `str.split` finds the leftmost occurrence and continues after it.
  - The proofs show that `Join(Split(s)) == s` and that no piece contains the separator.
  - They also show that splitting undoes joining pieces that are free of the separator. This needs a separator that cannot overlap itself, which holds for `"\r\n"`, `": "` and `" "`.
- `OrderedDict` (`ordered_dict.dfy`): an insertion-ordered Python `dict`, as a sequence of pairs with distinct keys.
  - Assigning to an existing key keeps its position.
  - Assigning a new key appends it.
- `Message` (`message.dfy`): the framing that requests and responses share. A start line comes first, then `Name: Value` lines each ending in CRLF, then a blank line, then the body. The module proves how a frame splits back into its lines.
- `HttpRequest` (`request.dfy`):
  - the `Request` record and its case-insensitive header view `ci_headers`;
  - the parser, both as a function `Parse` and as the imperative `ParseRequest` with the source's header loop.
- `HttpResponse` (`response.dfy`):
  - the reason-phrase table;
  - `Serialize`, which states what `build` produces;
  - the `ResponseBuilder` class, whose setters modify the builder and return it, and whose `Build` runs the header loop.
- `Server` (`server.dfy`):
  - the file store, as a class over a map of file names to contents plus the set of directories that exist;
  - route selection;
  - the reply of each route, as `Respond`, and the whole handler on one read, as `Serve`;
  - the imperative `HandleRequest` and `Dispatch`, which update the store in place and are proved equal to `Serve`.
- `ServerProperties` (`properties.dfy`): the exact bytes of each route's reply and the store's behaviour, stated over `Serve`.

Some inputs are parameters:

- The bytes of the single `recv` are a parameter of `Serve`/`HandleRequest`.
- The served directory is a `FileStore` object. It holds the files by relative name and the set of directories that exist, by relative path. Reading a name that is not in its map is `FileNotFoundError`. Writing fails exactly when the directory the name lies in (the part before its last `/`, or the served directory itself) does not exist, as `open(..., "wb")` does.

Two things make no reply, in the source as in the model:

- an empty read;
- a request that does not parse. In the source the exception propagates: the connection is closed in `finally` and no response is sent.

## Parsing behaviour of the source

- **Body.** The body is the last CRLF-separated piece only. RFC 9112 (section 6) takes everything after the blank line as the body. Here a body that holds a line break makes the whole request fail: its blank line ends up in the header loop (`HttpRequest.ParseBodyLineBreak`).
- **Next-to-last piece.** The next-to-last piece is dropped without being checked, whatever it holds. `HttpRequest.ParseFields` states which pieces become which fields.
- **Header lines.** A header line must split on every `": "` into exactly two pieces. A value containing `": "` therefore makes the request fail (`HttpRequest.SplitHeaderExtraSeparator`).
- **Start line.** The start line must split on single spaces into exactly three tokens. The method is then any string, and the path need not start with `/`. Unknown methods reach the 404 fallback.

## Model

| member | source | states |
|---|---|---|
| `Text.Split` | app/main.py:168 | `str.split(sep)` always yields at least one piece |
| `Text.FindFirst` | app/main.py:168 | a position found leaves room for the whole separator after it |
| `Text.FindFirstSpec` | app/main.py:168 | the position found is an occurrence with none before it, and nothing is found exactly when the separator does not occur |
| `Text.FindFirstAt` | app/main.py:168 | an occurrence with none before it is the one found |
| `Text.SplitJoin` | app/main.py:168 | joining the pieces of a split with the separator gives back the text |
| `Text.SplitPiecesFree` | app/main.py:168 | no piece of a split contains the separator |
| `Text.SplitFirst` | app/main.py:168 | for a separator that cannot overlap itself, `a + sep + b` splits into `a` followed by the pieces of `b`, when `a` is free of it |
| `Text.SplitJoinFree` | app/main.py:168 | splitting a join gives back every piece but the last unchanged, when those pieces are free of the separator |
| `Text.JoinSplit` | app/main.py:172 | splitting a join of separator-free pieces gives back exactly the pieces |
| `Text.SeparatorsHaveNoBorder` | app/main.py:168-176 | CRLF, `": "` and `" "` cannot overlap a shifted copy of themselves |
| `Text.Lower` | app/main.py:22 | same length, no upper-case letter left, each upper-case letter's code raised by 32, every other character unchanged |
| `Text.NatToDecimal` | app/main.py:104 | `str(n)`: decimal digits only, no leading zero |
| `Text.DecimalRoundTrip` | app/main.py:104 | reading the decimal form of `n` back gives `n`, so a Content-Length states the body length |
| `OrderedDict.Get` | app/main.py:109 | `dict.get`: a value exactly when the key is present, and it is the value stored with that key |
| `OrderedDict.Put` | app/main.py:57 | `d[k] = v` keeps keys distinct; a present key keeps its position with the new value, and a new key is appended |
| `OrderedDict.PutGetSame` | app/main.py:57 | after `d[k] = v`, looking up `k` gives `v` |
| `OrderedDict.PutGetOther` | app/main.py:57 | after `d[k] = v`, every other key looks up as before |
| `Message.HeaderLines` | app/main.py:72-74 | one `Name: Value` line per header, in insertion order |
| `Message.TerminatedSnoc` | app/main.py:72-74 | appending one more header line to the CRLF-terminated block extends it at the end |
| `Message.FrameSplit` | app/main.py:168 | a frame splits on CRLF into its start line, its header lines in order, a blank line and the pieces of the body |
| `HttpRequest.Request.CiHeaders` | app/main.py:19-22 | `ci_headers` is a dictionary: no key twice |
| `HttpRequest.LowerNames` | app/main.py:22 | the comprehension over the headers in order gives a dictionary |
| `HttpRequest.LastWithLowerName` | app/main.py:22 | the reference lookup finds a value exactly when some header name lower-cases to the key |
| `HttpRequest.CiHeadersGet` | app/main.py:19-22 | a lookup in `ci_headers` gives the value of the last header whose name lower-cases to the key |
| `HttpRequest.CiHeadersNames` | app/main.py:19-22 | the keys of `ci_headers` are exactly the lower-cased header names |
| `HttpRequest.SplitHeader` | app/main.py:176 | `key, value = line.split(": ")` succeeds only if the line is `key + ": " + value` |
| `HttpRequest.SplitHeaderFree` | app/main.py:176 | neither the name nor the value of a split header line holds the separator |
| `HttpRequest.SplitHeaderExtraSeparator` | app/main.py:176 | with a separator-free name, a value containing `": "` makes the header line fail |
| `HttpRequest.SplitHeaderLine` | app/main.py:176 | a header line built from a separator-free name and value splits back into them |
| `HttpRequest.ParseHeaders` | app/main.py:174-177 | the header loop gives a dictionary, or fails with a bad header line |
| `HttpRequest.ParseHeadersSucceeds` | app/main.py:174-177 | the loop succeeds exactly when every line splits into exactly two pieces |
| `HttpRequest.ParseHeadersAll` | app/main.py:174-177 | the loop succeeds exactly when each line, taken from the first to the last, splits into two pieces |
| `HttpRequest.ParseHeadersPrefixFails` | app/main.py:174-177 | once a prefix of the lines fails, every longer prefix fails too |
| `HttpRequest.ParseHeadersGet` | app/main.py:174-177 | repeated names keep the last value, looked up by name |
| `HttpRequest.ParseHeaderLines` | app/main.py:174-177 | the loop over header lines built from distinct, framable headers gives back exactly those headers |
| `HttpRequest.ParseRequest` | app/main.py:160-179 | the imperative parser with its header loop computes `Parse` |
| `HttpRequest.ParseSucceeds` | app/main.py:168-176 | parsing succeeds exactly when there are at least three pieces, the start line has exactly three tokens and every header piece splits into exactly two |
| `HttpRequest.ParseFields` | app/main.py:168-179 | method, path and version are the start-line tokens, the body is the last piece, the next-to-last piece is ignored, and header lookups follow the lines in between |
| `HttpRequest.ParseEmpty` | app/main.py:168-170 | an empty text does not parse |
| `HttpRequest.StartLineTokens` | app/main.py:172 | a start line of three space-free tokens splits back into them |
| `HttpRequest.ParseFormat` | app/main.py:160-179 | a well-formed request parses back into exactly the method, path, version, headers and body it was written from |
| `HttpRequest.ParseBodyLineBreak` | app/main.py:168-177 | a well-formed request whose body holds a CRLF is rejected as a bad header line |
| `HttpResponse.ReasonPhrase` | app/main.py:68 | only 200, 201 and 404 have a phrase here; each such code is positive and its phrase has no carriage return |
| `HttpResponse.SerializeFails` | app/main.py:65-68 | `build` fails as missing exactly when the code is unset or 0, and fails at all exactly when there is also no phrase for it |
| `HttpResponse.SerializeReparse` | app/main.py:64-77 | the bytes split into the status line, exactly the headers that were set (the request's header loop reads them back), a blank line and the body, with no header added |
| `HttpResponse.StatusLineFree` | app/main.py:70 | the status line holds no CRLF |
| `HttpResponse.ResponseBuilder.constructor` | app/main.py:45-49 | version `HTTP/1.1`, no status code, no headers, empty body |
| `HttpResponse.ResponseBuilder.SetStatusCode` | app/main.py:51-53 | sets the code, changes nothing else and returns the same builder |
| `HttpResponse.ResponseBuilder.SetHeader` | app/main.py:55-58 | binds the name in the ordered headers, so a repeated name overwrites in place; nothing else changes and the same builder is returned |
| `HttpResponse.ResponseBuilder.SetBody` | app/main.py:60-62 | sets the body, changes nothing else and returns the same builder |
| `HttpResponse.ResponseBuilder.Build` | app/main.py:64-77 | the header loop produces exactly `Serialize` of the builder's fields, and the builder is not changed |
| `HttpResponse.BuildTwice` | app/main.py:64-77 | building twice gives the same result |
| `Server.FileStore.constructor` | app/main.py:9 | the store holds the given files and directories; every file lies in an existing directory, and a missing served directory holds no directories |
| `Server.FileStore.Read` | app/main.py:123-126 | reading gives the contents exactly when the file exists, and changes nothing |
| `Server.Parent` | app/main.py:142-144 | the directory a file name lies in: everything before its last `/`, or the served directory when it has none |
| `Server.ParentOfPath` | app/main.py:142-144 | `dir/file` lies in `dir`, and a name without `/` lies in the served directory |
| `Server.FileStore.Write` | app/main.py:141-148 | writing creates or overwrites the one file when the directory it lies in exists; otherwise it fails (`FileNotFoundError`) and changes nothing |
| `Server.SelectRoute` | app/main.py:94-151 | first match wins: `GET /` and `GET /user-agent` exactly; the prefix routes capture the rest of the path; the fallback is taken exactly when no pattern matches |
| `Server.SelectRouteCaptures` | app/main.py:98-138 | a path built from a prefix selects its route with exactly the suffix captured |
| `Server.StatusResponse` | app/main.py:96 | a new builder with the given code, no headers and no body |
| `Server.ContentResponse` | app/main.py:100-106 | a new builder with code 200, Content-Type and then Content-Length set, and the content as body |
| `Server.Dispatch` | app/main.py:94-151 | the match builds exactly the reply of `Respond` and leaves the store as `Respond` says |
| `Server.HandleRequest` | app/main.py:86-157 | the handler over the store sends exactly what `Serve` says and leaves the store in the state `Serve` gives |
| `ServerProperties.StatusOnlyWire` | app/main.py:64-77 | status-only replies are exactly `HTTP/1.1 200 OK\r\n\r\n`, `HTTP/1.1 201 Created\r\n\r\n` and `HTTP/1.1 404 Not Found\r\n\r\n` |
| `ServerProperties.ContentResponseWire` | app/main.py:100-106 | a content reply is exactly the status line, Content-Type, Content-Length, a blank line and the content |
| `ServerProperties.LowerUserAgent` | app/main.py:109 | the looked-up key is `user-agent` |
| `ServerProperties.ServeEmptyRead` | app/main.py:88-90 | an empty read gets no reply and changes no file |
| `ServerProperties.ServeMalformed` | app/main.py:92 | a request that does not parse gets no reply and changes no file |
| `ServerProperties.ServeHome` | app/main.py:95-96 | `GET /` gets exactly `HTTP/1.1 200 OK\r\n\r\n` |
| `ServerProperties.ServeEcho` | app/main.py:98-106 | `GET /echo/<s>` gets 200 with `s` as a text/plain body and its length as Content-Length |
| `ServerProperties.ServeUserAgent` | app/main.py:108-116 | `GET /user-agent` echoes the value of the last entry of the parsed header dictionary whose name lower-cases to `user-agent` (a repeated name keeps its first position and its last value), or an empty body when there is none |
| `ServerProperties.ServeEmptyFileName` | app/main.py:118-139 | `GET` or `POST` on `/files/` with no name gets 404 and changes no file |
| `ServerProperties.ServeGetFile` | app/main.py:118-135 | `GET /files/<name>` gets the contents as an octet-stream, or 404 when the file is missing |
| `ServerProperties.ServePostFile` | app/main.py:137-148 | `POST /files/<name>` stores the body and gets 201 when the directory the name lies in exists; otherwise it gets 404 and changes no file |
| `ServerProperties.PostThenGet` | app/main.py:118-148 | after a successful upload of `B`, downloading the same name gets `B` byte for byte |
| `ServerProperties.ServeFallback` | app/main.py:150-151 | any other method and path gets exactly `HTTP/1.1 404 Not Found\r\n\r\n` |
| `ServerProperties.RespondStatus` | app/main.py:94-151 | every route answers 200, 201 or 404 |
| `ServerProperties.ServeReplies` | app/main.py:153-155 | every request that parses gets a reply: `build` never fails on the codes the routes use |
| `ServerProperties.RespondStore` | app/main.py:94-151 | only `POST /files/<name>` with a name whose directory exists changes the files, and only the named one, to the request body |
| `ServerProperties.ServeStoreChanges` | app/main.py:86-157 | only a successful `POST /files/<name>` changes the store, and it changes only that file |

## Left out

- Sockets, the accept loop, threads, `recv(1024)` and `close` are not modelled. The handler takes the text of one read as a parameter, so truncation at 1024 bytes is not modelled either.
- Bytes and UTF-8 decoding and encoding are not modelled. Text is a sequence of characters, read as ASCII, so a Content-Length is the character count, as `len(str)` gives it.
- Logging with `print` and `datetime.now()`, and `Request.__repr__`/`__str__`, are not modelled. They are output only.
- The command line (`argparse`) and the global `file_dir` are not modelled. The served directory is the `FileStore` object.
- Of the filesystem, only two things are modelled: a missing file on read, and, on write, a missing directory for the name to lie in.
  - `os.path.join` and path normalisation are not modelled. The file name is the map key as it is, so `..`, repeated `/` and a name starting with `/` (which `os.path.join` treats as absolute) are not resolved.
  - Directories used as file names and other OS errors are not modelled. In the source they propagate and end the handler without a reply.
- `Text.Lower`: only ASCII letters are lower-cased. Python's Unicode case mapping is not modelled.
- `HttpResponse.ReasonPhrase`: only the codes the routes use are in the table (200, 201, 404). Other codes fail as `UnknownStatus`, where `http.HTTPStatus` would know more phrases.
- `HttpResponse.Serialize`: an unset status code (`AttributeError` in the source) and a zero one (`ValueError`) are both `MissingStatus`. The source raises a different exception for each.
- `HttpRequest.Parse`: parse failures carry no message. The source raises `ValueError` either way, and either way no reply is sent.
- `HttpRequest.Request`: the field for the request method is named `verb`, because `method` is a keyword in Dafny.
- `Server.Dispatch`: the source builds each response with an inline chain of setters. The model makes the same calls in the same order through `StatusResponse` and `ContentResponse`.
