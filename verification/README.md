# f16 request path: a model in Dafny

f16 is a small embeddable HTTP/1.0 server. This project models everything between
the bytes a client sends and the bytes it gets back, together with the life cycle of
the connections that carry them, and proves what the pieces promise to each other:

| file | part of the server |
|---|---|
| `Text.dfy` | searching, decimal numbers, last-wins maps |
| `RequestMachine.dfy` | the request parser as a state machine over values; chunking |
| `RequestGrammar.dfy` | syntax trees, their rendering, and the tree-building machine that rendering inverts |
| `RequestLanguage.dfy` | the accepted language, printer and normal form |
| `RequestFraming.dfy` | where a request ends, version overflow, reuse after `reset` |
| `RequestParser.dfy` | the parser and request objects |
| `PathPattern.dfy`, `Url.dfy`, `Query.dfy` | pattern matching, percent decoding, query strings |
| `Reply.dfy` | replies and their bytes |
| `ReplyReader.dfy` | a client's reader for those bytes, which knows nothing of how they are made |
| `Content.dfy`, `Router.dfy` | static and dynamic content, the router |
| `Connection.dfy` | all connections and their manager as a transition system |
| `ConnectionObjects.dfy` | connections and manager as objects taking the steps of that system |
| `EndToEnd.dfy` | from a route and its arguments to the handler, through all of the above |

How it is put together:

* Code that updates objects is a class whose methods are proved against a function on
  values (`Parser` against `Step` and `Run`, `PathRouter` against `Route`,
  `ConnectionObject` against `OnRead` and its siblings). The theorems are about the
  functions. On the heap, `ConnectionManager.Valid` says that the connections share
  nothing and that each is in the set exactly while open, with one operation
  outstanding; it holds of a new manager, and accepting a connection, delivering any
  completion and shutting down each keep it.
* The parser's control is one table, `Transition`. Run over requests it is the parser;
  run over syntax trees it keeps every byte. `Partial(state, tree)` is the text read so
  far in a control state; one lemma says a step forwards appends the byte read, its
  mirror image says each such text has exactly one step backwards. Soundness,
  completeness and unambiguity all follow from that pair.
* A byte is the `char` with the same code. The theorems hold for all `char` values, so
  in particular for codes 0 to 255.
* File system, MIME table and handlers are one constant, `World`. Sockets, TLS and the
  network are the choice of completions in `Connection.Enabled`.
* What clients are told is stated by what `ReplyReader.ReadReply` finds in the bytes: a
  status code, a type, a body. `Router.RouteAnswers` says so for every request,
  `StaticAnswers` for files and directories, `EndToEnd.EncodedCallServed` for handlers.
* `std::sort` is not stable. `SortEntries` promises a length-sorted permutation and
  nothing else, and chooses among equals nondeterministically.
* Version numbers are unbounded integers in the machine; `VersionBound` says exactly
  which inputs, rejected and unfinished ones included, stay within a 32-bit `int` at
  every intermediate, and `VersionOverflows` gives one that does not.

Where code and documentation differ the model follows the code:

* The comment on `match_pattern` calls a final '/' in the input optional. It is not
  when the pattern ends in a parameter and the input leaves it empty: "/:a" refuses "/"
  and accepts "//". `EmptyFinalParameter` states the exact rule.
* The comment on `reset` speaks of the parser only. A request object that is not
  cleared keeps its old content: `ResetKeepsRequest` says what a second parse stores
  and that it is the request sent exactly when the object was blank, `ResetLanguage`
  that old headers, and only they, let it accept inputs a new parser refuses.
* There are stock pages for 504 and 505, but the switch that selects pages has no case
  for them: `StockPageIs` says that these two replies, and only they, name another code
  in their page than in their status line.
* A handler added for HEAD is never reached, because HEAD requests go to the entries for
  GET: `AddedFor` in `RouteAnswers`.
* '?', '&' and '=' are looked for after decoding, so escaping them does not protect
  them, and the ".." check covers the query as well. `EscapedMarkInput`,
  `AmpersandInValue`, `EqualsInKey` and `RefusedQuery` give calls that go wrong;
  `ExactlyGoodCallsArrive` says exactly which calls reach their handler as they were
  made, and `GoodArguments` what that means for values and pairs.

## Model

| member | source | states |
|---|---|---|
| RequestParser.Parser.Consume | src/lib/request_parser.cpp:21-277 | one byte takes exactly the step of the state table; a deciding byte changes neither state nor request |
| RequestParser.Parser.ConsumeLine | src/lib/request_parser.cpp:25-179 | the thirteen request-line states agree with the state table |
| RequestParser.Parser.ConsumeHeader | src/lib/request_parser.cpp:180-273 | the seven header states agree with the state table; the header list is non-empty wherever `back()` is used |
| RequestParser.Parser.Parse | src/lib/request_parser.hpp:33-43 | result, iterator, state and request after any input equal the machine's run |
| RequestParser.Parser.Reset | src/lib/request_parser.cpp:16-19 | only the control state is reset |
| RequestMachine.Step | src/lib/request_parser.cpp:202-273 | whenever a step reaches for `headers.back()` there is a header, and that remains so afterwards |
| RequestMachine.RunAppend | src/lib/request_parser.hpp:33-43 | parsing a + b is parsing a and, only if undecided, parsing b: same result, state, request and bytes consumed |
| RequestMachine.ChunkingLaw | src/lib/base_connection.hpp:51-68 | feeding any division of the input into reads equals feeding it at once |
| RequestMachine.ShortestDecision | src/lib/request_parser.hpp:36-42 | the consumed prefix is the shortest that decides, and decides alike |
| RequestGrammar.StepExtends | src/lib/request_parser.cpp:21-277 | from any partial tree, a step that continues keeps the tree well shaped and its text grows by exactly the byte read |
| RequestGrammar.UndoInverts | src/lib/request_parser.cpp:21-277 | every well-shaped partial tree has a predecessor from which one byte leads to it |
| RequestGrammar.TreeRun | src/lib/request_parser.cpp:21-277 | the tree built from an input renders to that input, at every point of the run |
| RequestGrammar.RunOnPartial | src/lib/request_parser.cpp:21-277 | the text of a partial tree drives the machine to that state and tree |
| RequestLanguage.RunFollows | src/lib/request_parser.cpp:21-277 | the request the parser holds is at all times the one denoted by the tree of its input |
| RequestLanguage.Language | src/lib/request_parser.cpp:21-277 | a fresh parser answers good on the last byte of w exactly when w renders a valid tree |
| RequestLanguage.AcceptedTree | src/lib/request_parser.cpp:21-277 | soundness: accepted input has a tree, and the request returned is what the tree denotes |
| RequestLanguage.RenderAccepted | src/lib/request_parser.cpp:21-277 | completeness: every rendering is accepted and yields the request the tree denotes |
| RequestLanguage.Unambiguous | src/lib/request_parser.cpp:21-277 | no two valid trees have the same rendering |
| RequestLanguage.UndecidedInputs | src/lib/request_parser.hpp:28-31 | the parser asks for more data exactly on the renderings of partial trees |
| RequestLanguage.NoDeadEnd | src/lib/request_parser.hpp:28-31 | an undecided parser is at most 15 bytes away from a good answer, in every state |
| RequestLanguage.EarliestRejection | src/lib/request_parser.hpp:28-31 | the answer is bad exactly when no prefix was a request and no continuation can make one: bad input is reported on the first hopeless byte |
| RequestLanguage.HeadersAlwaysValid | src/lib/request_parser.cpp:195-273 | at every point of a run each stored header has a non-empty token as name and a value free of control characters |
| RequestLanguage.LanguageByNumbers | src/lib/request_parser.cpp:279-306 | the accepted language with tokens, targets, values, blanks and digits given by their byte numbers |
| RequestLanguage.RefusedBytes | src/lib/request_parser.cpp:25-273 | in every control state, exactly which byte numbers are answered with bad |
| RequestLanguage.FoldedHeader | src/lib/request_parser.cpp:202-221 | a header on two lines has the two texts as its value, with nothing in between |
| RequestLanguage.PrintParse | src/lib/request_parser.cpp:21-277 | printing a valid request and parsing it gives the same request |
| RequestLanguage.NormalForm | src/lib/request_parser.cpp:21-277 | whatever is accepted is a valid request whose printed form parses to the same request |
| RequestFraming.GoodAtFirstBlankLine | src/lib/request_parser.cpp:180-185 | good is answered on the last byte of the first CRLFCRLF, after nothing but paired line ends |
| RequestFraming.PrefixFree | src/lib/request_parser.hpp:33-43 | no accepted request is a proper prefix of another |
| RequestFraming.VersionBound | src/lib/request_parser.cpp:118-169 | for every input, accepted, rejected or unfinished: no intermediate of the version arithmetic overflows a 32-bit int iff both digit runs read before the deciding byte stand for at most 2147483599 |
| RequestFraming.AcceptedVersionBound | src/lib/request_parser.cpp:118-169 | for an accepted request these are its two version numbers |
| RequestFraming.VersionOverflows | src/lib/request_parser.cpp:135-139 | an unfinished input that overflows |
| RequestFraming.DigitsFitBound | src/lib/request_parser.cpp:121-137 | the same for one digit run of any length |
| RequestFraming.ResetKeepsRequest | src/lib/request_parser.cpp:16-19 | after `reset` what a new parser accepts is accepted again but stored on top of the old content; the request comes out as sent iff the object was blank |
| RequestFraming.ResetLanguage | src/lib/request_parser.cpp:186-190 | a reset parser accepts the same inputs as a new one iff the request object holds no headers |
| RequestFraming.FoldedOntoOldHeader | src/lib/request_parser.cpp:186-190 | whenever it does hold headers, an input that only the reset parser accepts: a line that starts with a blank after the request line, bad for a new parser, whose text is appended to the last old header |
| Text.LeadingZero | src/lib/request_parser.cpp:135-139 | leading zeros of a version number carry no value |
| Text.DecimalRoundTrip | src/lib/reply.cpp:259 | the decimal text of a size reads back as that size |
| Text.DecimalCanonical | src/lib/reply.cpp:259 | that text has no leading zero |
| Text.Positional | src/lib/request_parser.cpp:135-139 | each digit of a version number counts for its power of ten |
| Text.MapOfLastWins | src/lib/request.hpp:62 | after a sequence of assignments a key holds the value assigned last |
| Text.MapOfKeys | src/lib/request.hpp:62 | exactly the assigned keys are present |
| PathPattern.MatchPattern | src/lib/string.hpp:56-82 | true iff the input is an instance of the pattern by slash-free values; the map is the last-wins map of names and values, or on failure of the captures made so far |
| PathPattern.MatchSound | src/lib/string.hpp:62-81 | every match has slash-free values that rebuild the input, and captures them in order |
| PathPattern.MatchComplete | src/lib/string.hpp:62-81 | every instance is matched and captures exactly its values |
| PathPattern.UniqueValues | src/lib/string.hpp:66-73 | the values of a match are determined by the input |
| PathPattern.TrailingSlashIsExtra | src/lib/string.hpp:81 | an input is never both an instantiation and an instantiation with an extra '/' |
| PathPattern.EmptyFinalParameter | src/lib/string.hpp:62-81 | the bare instantiation is accepted iff it leaves no parameter at the end of the pattern empty; with an extra '/' every instantiation is |
| PathPattern.CutMatch | src/lib/string.hpp:62-81 | a match cut short anywhere but before a '/' is no match, or captures another last value |
| PathPattern.SplitJoined | src/lib/string.hpp:27-34 | splitting undoes joining a delimiter-free head with any tail |
| Url.UrlDecode | src/lib/url.cpp:13-58 | success, output and partial output on failure equal the recursive decoder's |
| Url.DecodesTo | src/lib/url.cpp:13-58 | decoding succeeds with s iff the input is a byte-by-byte encoding of s |
| Url.UniqueUnits | src/lib/url.cpp:17-56 | an encoded string splits into encoded bytes in one way |
| Url.DecodedLength | src/lib/url.cpp:28-56 | each escape shortens the text by two |
| Url.DecodeAppend | src/lib/url.cpp:17-56 | decoding is a homomorphism on decodable prefixes |
| Url.DecodesWhatIsSaid | src/lib/url.cpp:17-56 | decoding succeeds with s iff the input says s byte by byte: as '%' and two of the thirty-two digit characters, as itself, or a space as '+' |
| Url.BadEscape | src/lib/url.cpp:19-46 | a '%' without two hexadecimal digit characters after it fails, with what precedes it decoded |
| Url.EncodeDecode | src/lib/url.cpp:13-58 | decoding inverts every percent-encoder that escapes at least '%' and '+', with upper- or lower-case digits chosen digit by digit and spaces as '+' or escaped |
| Query.HandleQueryParameters | src/lib/dynamic_content.cpp:47-60 | the loops compute the last-wins map of the split pieces |
| Query.ReadPieces | src/lib/dynamic_content.cpp:48-54 | the getline loop reads the pieces of the query |
| Query.PiecesAreSplit | src/lib/dynamic_content.cpp:52-54 | the pieces are the stretches between '&', less one empty one at the end |
| Query.QueryRoundTrip | src/lib/dynamic_content.cpp:47-60 | joining key/value pairs and reading them back gives their last-wins map |
| Query.ReadBackExactly | src/lib/dynamic_content.cpp:47-60 | pairs with distinct keys are read back iff no key has '&' or '=' and no value '&' in it |
| Query.AmpersandInValue | src/lib/dynamic_content.cpp:52-54 | a value with '&' is cut there, and the rest becomes another key |
| Query.EqualsInKey | src/lib/dynamic_content.cpp:56-59 | a key with '=' is cut there, and the rest becomes part of the value |
| Reply.ReplyObject.ToBuffers | src/lib/reply.cpp:105-119 | the buffers, four per header and three more, concatenate to the reply's bytes |
| ReplyReader.ReplyRoundTrip | src/lib/reply.cpp:51-119 | a reader that checks every separator finds code, phrase, header list and arbitrary body in the bytes |
| ReplyReader.StatusLineIs | src/lib/reply.cpp:14-49 | every status line is the version, the number of the status and the phrase that goes with that number; no status means 500 |
| ReplyReader.UniquelyDecodable | src/lib/reply.cpp:91-119 | two replies have equal bytes iff they agree in code, headers and body |
| ReplyReader.StockReads | src/lib/reply.cpp:253-263 | a stock reply reads as its own code, text/html, and its page with the true length |
| ReplyReader.StockPageIs | src/lib/reply.cpp:210-249 | which page each stock reply has, and that it names the reply's own code iff that is not 504 or 505 |
| Reply.StockShown | src/lib/reply.cpp:253-263 | a stock reply has its code, one type and one length |
| Content.NodeTold | src/lib/static_content.cpp:32-53 | what a blank reply becomes for each kind of file system node: all bytes and the type of a file, 404 or 403, index, listing, or redirection to the target with '/' |
| Content.MovedShown | src/lib/static_content.cpp:44-46 | a redirection is a 301 with its page and one Location, the target with '/' |
| Content.ResponseTold | src/lib/dynamic_content.cpp:34-42 | the client reads the handler's status, type and text, and the true length |
| Content.ServeFile | src/lib/static_content.cpp:95-125 | block by block the whole file is appended to the body, or the matching error reply is made |
| Content.ServeStaticIfMatch | src/lib/static_content.cpp:22-59 | serves iff the location is a prefix of the path; the reply is that of the file system node, without body for HEAD; untouched if not served |
| Content.ServeDynamicIfMatch | src/lib/dynamic_content.cpp:22-45 | serves iff the path before '?' is an instance of the location; the reply is the handler's on captured resources and query map; untouched if not served |
| Content.ServeFramed | src/lib/static_content.cpp:55-56 | every served reply has one true Content-Length, except static content for HEAD: the GET reply with an empty body |
| Router.PathRouter.Add | src/lib/path_router.hpp:25-32 | after any sequence of additions each method's table is a length-sorted permutation of what was added for it |
| Router.SortEntries | src/lib/path_router.hpp:29-31 | some permutation in order of decreasing location length |
| Router.PathRouter.Handle | src/lib/path_router.cpp:14-63 | the reply is that of `Route`: decode, validate, HEAD as GET, first entry that serves |
| Router.RouteAnswers | src/lib/path_router.cpp:14-63 | for every request: 400 if its target cannot be decoded, is not absolute or has ".." anywhere; else the reply of a longest matching entry added for its method (GET for HEAD); else 404 |
| Router.DotDotRefused | src/lib/path_router.cpp:29-35 | a target with ".." between any two texts is answered with 400 |
| Router.DotDotDivides | src/lib/path_router.cpp:31 | the check finds ".." iff the text is divided by it |
| Router.EntriesForAre | src/lib/path_router.hpp:25-32 | the row a request looks in holds exactly the entries added for its method, those for GET if it is HEAD |
| Router.StaticAnswers | src/lib/static_content.cpp:22-59 | a static entry asks the file system for the rest of the path and tells the client what is there; for HEAD the same without the body |
| Router.RoutedByLongest | src/lib/path_router.cpp:37-62 | the first entry of the sorted row that serves a validated request is a longest one that could, and its reply is the reply; 404 if none matches |
| Router.OrderIrrelevant | src/lib/path_router.hpp:29-31 | unless two longest entries that match the path differ, neither insertion order nor the unstable sort can be observed |
| Router.ChoicesAreLongest | src/lib/path_router.hpp:29-31 | an entry is a longest one matching the path iff some table the additions may lead to lets it serve the request |
| Router.DeterminedWithoutTies | src/lib/path_router.hpp:29-31 | all tables the additions may lead to let the same entry serve iff only one matching entry is longest |
| Router.StaticLongestPrefix | src/lib/static_content.cpp:24-27 | with distinct static locations the unique longest prefix of the path serves, for every table the additions may lead to |
| Router.RouteFramed | src/lib/path_router.cpp:14-63 | a HEAD request served by a static entry gets the GET reply, which states its length, with the body removed; every other router reply, errors included, has exactly one Content-Length with the length of its body |
| Router.RouteDecodable | src/lib/static_content.cpp:44-46 | with CR-free types and target every router reply, echoed Location included, is read back from its bytes |
| Connection.ReachableInv | src/lib/base_connection.hpp:43-96 | in every reachable state: managed iff open; exactly one outstanding operation while managed, at most one after; a reply was started at most once and exactly when the bytes fed decided |
| Connection.RefinesOneShot | src/lib/base_connection.hpp:43-75 | for every interleaving and division into reads, the reply a connection starts is the one-shot answer to the shortest deciding prefix of its own stream, and it is started once that prefix was read |
| Connection.NeverFedAfterDecision | src/lib/base_connection.hpp:55-68 | a connection that may receive bytes has answered nothing and its parser has not decided |
| Connection.WritesDecodable | src/lib/base_connection.hpp:77-80 | in every run, each reply started can be read back from its bytes; a static entry's answer to HEAD is its GET reply without the body, any other states its own length |
| Connection.BadInputTold | src/lib/base_connection.hpp:60-64 | in every run, a connection fed hopeless input writes one reply, which reads as 400 |
| Connection.CompletionDecreases | src/lib/ssl_connection.cpp:26-41 | every completion lowers the connection's measure, summed over its outstanding operations, of phases and unread bytes |
| Connection.FewCompletions | src/lib/ssl_connection.cpp:26-41 | in every run, completions had plus completions still possible stay within the connection's budget |
| Connection.CompletionBound | src/lib/ssl_connection.cpp:26-41 | at most stream length + 2 completions with a handshake, + 1 without |
| Connection.FinishedOrAlive | src/lib/connection_manager.cpp:23-27 | a connection with nothing outstanding is closed and out of the manager's set; otherwise something can complete it |
| ConnectionObjects.ConnectionObject.ReadCompleted | src/lib/base_connection.hpp:43-75 | the handler uses up the completed read, takes the step of the transition system, and hands over the bytes of the reply if it started one |
| ConnectionObjects.ConnectionObject.ReceiveBytes | src/lib/base_connection.hpp:49-69 | a successful read is parsed and answered, or one more read is started |
| ConnectionObjects.ConnectionObject.WriteCompleted | src/lib/base_connection.hpp:77-96 | uses up the write, and stops through the manager unless aborted |
| ConnectionObjects.ConnectionObject.HandshakeCompleted | src/lib/ssl_connection.cpp:26-41 | uses up the handshake and starts reading, or stops through the manager on any error |
| ConnectionObjects.ConnectionObject.DoWrite | src/lib/base_connection.hpp:77-80 | one more write is outstanding, of exactly the reply's bytes, and no other operation changes |
| ConnectionObjects.ConnectionManager.StartOne | src/lib/connection_manager.cpp:17-21 | the connection joins the set and starts its first operation |
| ConnectionObjects.ConnectionManager.StopOne | src/lib/connection_manager.cpp:23-27 | the connection leaves the set and is closed |
| ConnectionObjects.ConnectionManager.StopAll | src/lib/connection_manager.cpp:30-35 | every managed connection is closed and the set is empty |
| ConnectionObjects.ConnectionManager.StaysValid | src/lib/base_connection.hpp:43-96 | a handler that leaves its own connection settled and touches no other keeps the manager's invariant |
| ConnectionObjects.ConnectionManager.Accept | src/lib/http_server.cpp:44-64 | a new connection joins the set with one operation outstanding; the invariant is kept |
| ConnectionObjects.ConnectionManager.DeliverHandshake | src/lib/ssl_connection.cpp:29-40 | delivering a handshake's completion takes the step and keeps the invariant |
| ConnectionObjects.ConnectionManager.DeliverRead | src/lib/base_connection.hpp:46-74 | delivering a read's completion takes the step and keeps the invariant |
| ConnectionObjects.ConnectionManager.DeliverWrite | src/lib/base_connection.hpp:80-95 | delivering a write's completion takes the step and keeps the invariant |
| ConnectionObjects.ConnectionManager.Shutdown | src/lib/connection_manager.cpp:12-15 | the destructor empties the set and keeps the invariant |
| EndToEnd.ExactlyGoodCallsArrive | src/lib/dynamic_content.cpp:22-60 | for any instance of any pattern and pairs with distinct keys: the target passes the router's checks, matches and yields exactly those values and pairs iff the resource starts with '/' and has no '?', no key has '&' or '=', no value '&', and ".." is nowhere in the target |
| EndToEnd.GoodArguments | src/lib/dynamic_content.cpp:22-60 | for a pattern that starts with '/' and has no '?', this is a condition on values and pairs alone |
| EndToEnd.EscapedMark | src/lib/dynamic_content.cpp:24-29 | a value with a '?', however escaped, is cut there, and the rest becomes a query parameter |
| EndToEnd.EscapedMarkInput | src/lib/dynamic_content.cpp:24-29 | "/:a" called with "x?y" gives the handler a = "x" and a query parameter y |
| EndToEnd.RefusedQuery | src/lib/path_router.cpp:29-35 | a target with ".." in a query value is answered with 400 |
| EndToEnd.CallRouted | src/lib/dynamic_content.cpp:22-45 | a target that decodes to an instantiated pattern and joined query runs that pattern's handler on exactly those values and pairs, and its status, type and text are what the client reads |
| EndToEnd.CallAnswered | src/lib/dynamic_content.cpp:22-60 | the same from the printed request delivered in any chunks |
| EndToEnd.CallWritten | src/lib/base_connection.hpp:43-75 | the same for any connection in a consistent state |
| EndToEnd.CallServed | src/lib/base_connection.hpp:43-75 | the same in every run of the server: such a connection writes one reply with the handler's status, type and text and nothing else, from the moment the request was read |
| EndToEnd.RequestWritten | src/lib/base_connection.hpp:43-75 | a connection whose stream starts with any printed request writes the routed reply to it, once, from the moment it was read |
| EndToEnd.FileServed | src/lib/static_content.cpp:95-125 | in every run, a client that asks for a file in a served directory reads 200, its type, and exactly its bytes |
| EndToEnd.EncodedTarget | src/lib/url.cpp:13-58 | percent-encoding all but harmless bytes, in any style, gives a target that fits a request line and decodes to the text |
| EndToEnd.EncodedCallServed | src/lib/base_connection.hpp:43-75 | a route's pattern instantiated, the query appended, percent-encoded in any style, printed and sent: in every run that route's handler gets exactly those values and pairs, and the client reads its status, type and text |

## Left out

- Sockets, acceptor, resolver, TLS and timers: they appear as the choice of completions (success with 1 to 8192 bytes, failure, aborted after close).
- Threads: every completion handler is one atomic step, as with the single-threaded `io_context` of src/server/main.cpp.
- The `shutdown` before closing after a successful write: the socket is only open or closed here.
- Handlers that throw, and an unset handler: handlers are a total function, and so is the file system.
- `fs::path` joining, directory listings and the MIME table: a location in the file system is looked up by document root and remaining path in `World`.
- Bytes above 127 passed to `std::isxdigit`: they are no hexadecimal digits.
- Request bodies: bytes after the blank line of the same read are discarded, as in the server.
- `get_header`, `resource`, `query`, `status_from_string` and the stream manipulators of `response_stream`: look-ups with one branch.
- src/server/main.cpp: command line, configuration, logging and signals.
- RequestParser.Parser.Consume: does not model overflow of the version fields, which are unbounded integers; `RequestFraming.VersionBound` states exactly, for every input, when that makes no difference. Its twenty cases are divided between two methods.
- ConnectionObjects: one event at a time is proved on the heap, to take the transition system's step and to keep the invariant; whole runs are reasoned about in the transition system.
- `stop_all` runs in the manager's destructor; in the transition system it is a step that may come at any time.
