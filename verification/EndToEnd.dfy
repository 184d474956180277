/** From a route and its arguments to the handler, through every component: a path
    built from the pattern, percent-encoded, printed in a request and delivered in
    pieces reaches the handler as the same arguments. */
module EndToEnd {
  import Text
  import opened RequestMachine
  import RequestGrammar
  import opened RequestLanguage
  import opened PathPattern
  import Query
  import opened Url
  import Reply
  import ReplyReader
  import opened Content
  import opened Router
  import opened Connection

  /** The path and query before encoding. */
  function TargetText(resource: string, pairs: seq<(string, string)>): string {
    if pairs == [] then resource else resource + "?" + Query.Join(pairs)
  }

  /** What the handler is given for a call. */
  function CallInput(req: Request, location: string, values: seq<string>, pairs: seq<(string, string)>): HandlerRequest
    requires |values| == |Names(location)|
  {
    HandlerRequest(req, Text.MapOf(Zip(Names(location), values)), Text.MapOf(pairs))
  }

  /** The target gets past the router's checks, matches the route it was made from, and
      gives the handler exactly the values and pairs it was made of. */
  ghost predicate Arrives(location: string, values: seq<string>, resource: string, pairs: seq<(string, string)>,
                          req: Request)
    requires |values| == |Names(location)|
  {
    var text := TargetText(resource, pairs);
    && AcceptablePath(text) && Matches(location, Split(text, '?').0)
    && HandlerInput(location, text, req) == CallInput(req, location, values, pairs)
  }

  /** An instance of a route and query pairs that survive being joined into a target. */
  predicate GoodCall(location: string, values: seq<string>, resource: string, pairs: seq<(string, string)>) {
    && Instance(location, values, resource) && "/" <= resource && '?' !in resource
    && Query.Sendable(pairs) && !HasDotDot(TargetText(resource, pairs))
  }

  lemma TargetSplits(resource: string, pairs: seq<(string, string)>)
    requires '?' !in resource
    ensures Split(TargetText(resource, pairs), '?') == (resource, Query.Join(pairs))
  {
    SplitJoined(resource, '?', Query.Join(pairs));
  }

  lemma GoodCallArrives(location: string, values: seq<string>, resource: string, pairs: seq<(string, string)>,
                        req: Request)
    requires GoodCall(location, values, resource, pairs)
    ensures Arrives(location, values, resource, pairs, req)
  {
    TargetSplits(resource, pairs);
    Query.QueryRoundTrip(pairs);
    MatchComplete(location, values, resource);
  }

  /** Capturing less of the last value gives another map. */
  lemma LastCaptureKept(names: seq<string>, values: seq<string>, others: seq<string>)
    requires |names| == |values| == |others| && LastDiffers(Zip(names, values), Zip(names, others))
    ensures Text.MapOf(Zip(names, values)) != Text.MapOf(Zip(names, others))
  {
    Text.MapOfLastWins(Zip(names, values), |names| - 1);
    Text.MapOfLastWins(Zip(names, others), |names| - 1);
  }

  /** A '?' in the resource loses its match or part of its last value. */
  lemma MarkLosesValue(location: string, values: seq<string>, resource: string, head: string)
    requires Instance(location, values, resource) && head < resource && resource[|head|] == '?'
    requires Matches(location, head)
    ensures Text.MapOf(Walk(location, head).captures) != Text.MapOf(Zip(Names(location), values))
  {
    WalkDecides(location, head);
    MatchComplete(location, values, resource);
    CutMatch(location, resource, head);
    var others := MatchSound(location, head);
    LastCaptureKept(Names(location), values, others);
  }

  lemma FirstMarkSplits(resource: string, pairs: seq<(string, string)>) returns (head: string)
    requires '?' in resource
    ensures head < resource && resource[|head|] == '?'
    ensures Split(TargetText(resource, pairs), '?').0 == head
  {
    var text, k := TargetText(resource, pairs), Text.Find(resource, '?');
    head := resource[..k];
    assert text[..k] == head && text[k] == resource[k];
    Text.FindIs(text, '?', k);
  }

  lemma ArrivingCallIsGood(location: string, values: seq<string>, resource: string, pairs: seq<(string, string)>,
                           req: Request)
    requires Instance(location, values, resource) && Query.DistinctKeys(pairs)
    requires Arrives(location, values, resource, pairs, req)
    ensures GoodCall(location, values, resource, pairs)
  {
    var text := TargetText(resource, pairs);
    if '?' in resource {
      var head := FirstMarkSplits(resource, pairs);
      MarkLosesValue(location, values, resource, head);
      assert false;
    }
    TargetSplits(resource, pairs);
    Query.ReadBackIsSendable(pairs);
    assert text[0] == '/';
  }

  /** A call with distinct query keys arrives exactly when its resource starts with '/'
      and has no '?', no key has '&' or '=' and no value '&' in it, and ".." occurs
      nowhere in the target. Escaping makes no difference. */
  lemma ExactlyGoodCallsArrive(location: string, values: seq<string>, resource: string,
                               pairs: seq<(string, string)>, req: Request)
    requires Instance(location, values, resource) && Query.DistinctKeys(pairs)
    ensures Arrives(location, values, resource, pairs, req) <==> GoodCall(location, values, resource, pairs)
  {
    if GoodCall(location, values, resource, pairs) {
      GoodCallArrives(location, values, resource, pairs, req);
    } else if Arrives(location, values, resource, pairs, req) {
      ArrivingCallIsGood(location, values, resource, pairs, req);
    }
  }

  /** Instantiation keeps all characters of the values and brings in none that pattern
      and values lack. */
  lemma {:induction false} InstHas(p: string, values: seq<string>, c: char)
    requires |values| == |Names(p)| && c !in p
    ensures c !in Inst(p, values) <==> FreeOf(values, c)
    decreases |p|
  {
    if p == "" {
    } else if p[0] == ':' {
      InstHas(p[Stretch(p)..], values[1..], c);
      FreeOfCons(values, c);
    } else {
      InstHas(p[1..], values, c);
    }
  }

  lemma FreeOfCons(values: seq<string>, c: char)
    requires values != []
    ensures FreeOf(values, c) <==> c !in values[0] && FreeOf(values[1..], c)
  {
    if c !in values[0] && FreeOf(values[1..], c) {
      forall i | 0 <= i < |values| ensures c !in values[i] {
        assert i > 0 ==> values[i] == values[1..][i - 1];
      }
    } else if FreeOf(values, c) {
      FreeOfTail(values, c);
    }
  }

  /** For routes as they are usually written, the condition on values and pairs alone. */
  lemma GoodArguments(location: string, values: seq<string>, resource: string, pairs: seq<(string, string)>)
    requires "/" <= location && '?' !in location && Instance(location, values, resource)
    ensures GoodCall(location, values, resource, pairs)
            <==> FreeOf(values, '?') && Query.Sendable(pairs) && !HasDotDot(TargetText(resource, pairs))
  {
    InstHas(location, values, '?');
  }

  // Arguments that escaping does not protect

  /** Bytes an encoder may leave as they are. */
  predicate Harmless(safe: set<char>) {
    forall c | c in safe :: !IsCtl(c) && c != ' ' && c != '%' && c != '+'
  }

  lemma OneParameter(value: string)
    requires '/' !in value && value != ""
    ensures Names("/:a") == ["a"] && Instance("/:a", [value], "/" + value)
  {
    Text.FindIs(":a", '/', 2);
    assert "/:a"[1..] == ":a" && ":a"[1..2] == "a" && ":a"[2..] == "";
    assert Names(":a") == ["a"] + Names("");
    assert Inst(":a", [value]) == value + "";
  }

  lemma OneCapture(value: string)
    requires '/' !in value && value != ""
    ensures Text.MapOf(Walk("/:a", "/" + value).captures) == map["a" := value]
  {
    OneParameter(value);
    MatchComplete("/:a", [value], "/" + value);
    assert Zip(["a"], [value]) == [("a", value)];
    Query.MapOfOne(("a", value));
  }

  lemma MarkedInput(value: string, key: string, req: Request)
    requires '/' !in value && '?' !in value && value != "" && '&' !in key && '=' !in key && key != ""
    ensures HandlerInput("/:a", "/" + value + "?" + key, req) == HandlerRequest(req, map["a" := value], map[key := ""])
  {
    SplitJoined("/" + value, '?', key);
    OneCapture(value);
    Query.KeyAlone(key);
  }

  lemma EscapedText(text: string, safe: set<char>, styles: seq<Style>)
    requires Harmless(safe) && '?' !in safe && AreBytes(text) && |styles| == |text|
    ensures '?' !in Encode(text, safe, styles) && Decode(Encode(text, safe, styles)) == Decoded(true, text)
  {
    EncodeDecode(text, safe, styles);
    EncodedChars(text, safe, styles);
  }

  /** An escaped '?' still ends the path: called with `value` + "?" + `key`, the route
      "/:a" gets `value` alone, and the request a query parameter `key`. */
  lemma EscapedMark(value: string, key: string, req: Request, safe: set<char>, styles: seq<Style>)
    requires '/' !in value && '?' !in value && value != "" && '/' !in key && '&' !in key && '=' !in key && key != ""
    requires Harmless(safe) && '?' !in safe && AreBytes("/" + value + "?" + key)
    requires |styles| == |"/" + value + "?" + key|
    ensures var text := "/" + value + "?" + key;
            && Instance("/:a", [value + "?" + key], text)
            && '?' !in Encode(text, safe, styles) && Decode(Encode(text, safe, styles)) == Decoded(true, text)
            && HandlerInput("/:a", text, req) == HandlerRequest(req, map["a" := value], map[key := ""])
  {
    var text := "/" + value + "?" + key;
    assert "/" + (value + "?" + key) == text;
    OneParameter(value + "?" + key);
    EscapedText(text, safe, styles);
    MarkedInput(value, key, req);
  }

  /** The call of "/:a" with "x?y". */
  lemma EscapedMarkInput(req: Request)
    ensures Instance("/:a", ["x?y"], "/x?y")
    ensures HandlerInput("/:a", "/x?y", req) == HandlerRequest(req, map["a" := "x"], map["y" := ""])
  {
    assert "/" + "x" + "?" + "y" == "/x?y" && "x" + "?" + "y" == "x?y";
    var upper := Style(false, false, false);
    EscapedMark("x", "y", req, {}, [upper, upper, upper, upper]);
  }

  /** ".." is refused in the query too. */
  lemma RefusedQuery(server: Server, req: Request, rep: Reply.ReplyData, resource: string, key: string,
                     before: string, after: string)
    requires Decode(req.uri) == Decoded(true, TargetText(resource, [(key, before + ".." + after)]))
    ensures ReplyReader.Tells(Route(server.world, server.table, req, rep), 400)
  {
    var head := resource + "?" + (key + "=") + before;
    assert TargetText(resource, [(key, before + ".." + after)]) == head + ".." + after;
    DotDotRefused(server.world, server.table, req, rep, head, after);
  }

  /** No other entry for the method that serves the path is at least as long. */
  ghost predicate Preferred(entries: seq<Entry>, e: Entry, path: string) {
    e in entries && forall f | f in entries && Serves(f, path) && |f.location| >= |e.location| :: f == e
  }

  lemma PreferredIsLongest(entries: seq<Entry>, e: Entry, path: string)
    requires Preferred(entries, e, path) && Serves(e, path)
    ensures LongestServing(multiset(entries), path, e) && NoTopTies(multiset(entries), path)
  {
    forall f | f in multiset(entries) ensures f in entries {}
  }

  /** The response of a route's handler to a call. */
  function Handled(server: Server, handler: nat, req: Request, location: string, values: seq<string>,
                   pairs: seq<(string, string)>): Response
    requires |values| == |Names(location)|
  {
    server.world.handle(handler, CallInput(req, location, values, pairs))
  }

  /** Routing a request whose target decodes to the call runs the handler on it, and the
      client is told its response. */
  lemma CallRouted(server: Server, added: seq<Entry>, e: Entry, req: Request, values: seq<string>, resource: string,
                   pairs: seq<(string, string)>, rep: Reply.ReplyData)
    requires TableFor(added, server.table) && e.resource.Dynamic?
    requires GoodCall(e.location, values, resource, pairs)
    requires Decode(req.uri) == Decoded(true, TargetText(resource, pairs))
    requires Preferred(EntriesFor(added, TableVerb(req.verb)), e, TargetText(resource, pairs))
    ensures TellsResponse(Route(server.world, server.table, req, rep),
                          Handled(server, e.resource.handler, req, e.location, values, pairs))
  {
    var path, entries := TargetText(resource, pairs), EntriesFor(added, TableVerb(req.verb));
    GoodCallArrives(e.location, values, resource, pairs, req);
    PreferredIsLongest(entries, e, path);
    UntiedServes(server.world, added, server.table, e, req, rep);
    ResponseTold(Handled(server, e.resource.handler, req, e.location, values, pairs));
  }

  /** The whole way, for every division of the request into reads. */
  lemma CallAnswered(server: Server, added: seq<Entry>, e: Entry, req: Request, values: seq<string>, resource: string,
                     pairs: seq<(string, string)>, chunks: seq<string>)
    requires TableFor(added, server.table) && e.resource.Dynamic?
    requires GoodCall(e.location, values, resource, pairs)
    requires ValidRequest(req) && Decode(req.uri) == Decoded(true, TargetText(resource, pairs))
    requires Preferred(EntriesFor(added, TableVerb(req.verb)), e, TargetText(resource, pairs))
    requires Text.Flatten(chunks) == Print(req)
    ensures var o := RunChunks(FRESH, chunks);
            && o.result == Good && o.consumed == |Print(req)|
            && TellsResponse(Answer(server, o), Handled(server, e.resource.handler, req, e.location, values, pairs))
  {
    ChunkingLaw(FRESH, chunks);
    PrintParse(FRESH, req);
    CallRouted(server, added, e, req, values, resource, pairs, Reply.BLANK_REPLY);
  }

  /** A stream that starts with an accepted request decides on its last byte. */
  lemma FedRequest(stream: string, fed: string, w: string)
    requires fed <= stream && w <= stream && Accepts(FRESH, w)
    ensures if |fed| >= |w| then Run(FRESH, fed) == Run(FRESH, w) else !Run(FRESH, fed).Decided()
  {
    if |fed| >= |w| {
      assert fed == w + fed[|w|..];
      RunAppend(FRESH, w, fed[|w|..]);
    } else {
      assert fed == w[..|fed|];
      ShortestDecision(FRESH, w, |fed|);
    }
  }

  /** A connection in a consistent state whose stream starts with a printed request
      answers that request, and only it, once its last byte was read. */
  lemma RequestWritten(server: Server, req: Request, stream: string, c: Conn)
    requires ValidRequest(req) && ConnInv(server, stream, c) && Print(req) <= stream
    ensures c.writes == if |c.fed| >= |Print(req)|
                        then [Route(server.world, server.table, req, Reply.BLANK_REPLY)] else []
  {
    PrintParse(FRESH, req);
    FedRequest(stream, c.fed, Print(req));
  }

  /** Nothing was written, or, once the whole request was read, exactly one reply that
      tells the client the response. */
  predicate WritesResponse(c: Conn, length: nat, r: Response) {
    if |c.fed| >= length then |c.writes| == 1 && TellsResponse(c.writes[0], r) else c.writes == []
  }

  lemma CallWritten(server: Server, added: seq<Entry>, e: Entry, req: Request, values: seq<string>, resource: string,
                    pairs: seq<(string, string)>, stream: string, c: Conn)
    requires TableFor(added, server.table) && e.resource.Dynamic?
    requires GoodCall(e.location, values, resource, pairs)
    requires ValidRequest(req) && Decode(req.uri) == Decoded(true, TargetText(resource, pairs))
    requires Preferred(EntriesFor(added, TableVerb(req.verb)), e, TargetText(resource, pairs))
    requires ConnInv(server, stream, c) && Print(req) <= stream
    ensures WritesResponse(c, |Print(req)|, Handled(server, e.resource.handler, req, e.location, values, pairs))
  {
    RequestWritten(server, req, stream, c);
    CallRouted(server, added, e, req, values, resource, pairs, Reply.BLANK_REPLY);
  }

  /** In every run of the server, a connection whose stream starts with the call
      writes the handler's response and nothing else, and has started writing it once
      the last byte of the call has been read. */
  lemma CallServed(server: Server, added: seq<Entry>, e: Entry, req: Request, values: seq<string>, resource: string,
                   pairs: seq<(string, string)>, streams: nat -> string, evs: seq<Event>, sys: System, id: nat)
    requires TableFor(added, server.table) && e.resource.Dynamic?
    requires GoodCall(e.location, values, resource, pairs)
    requires ValidRequest(req) && Decode(req.uri) == Decoded(true, TargetText(resource, pairs))
    requires Preferred(EntriesFor(added, TableVerb(req.verb)), e, TargetText(resource, pairs))
    requires Reaches(server, streams, evs, sys) && id in sys.conns && Print(req) <= streams(id)
    ensures WritesResponse(sys.conns[id], |Print(req)|,
                           Handled(server, e.resource.handler, req, e.location, values, pairs))
  {
    ReachableInv(server, streams, evs, sys);
    CallWritten(server, added, e, req, values, resource, pairs, streams(id), sys.conns[id]);
  }

  /** In every run, a client that asks for a file in a served directory is written
      exactly that file's bytes, with its type and length. */
  lemma FileServed(server: Server, e: Entry, docRoot: string, rest: string, bytes: string, mime: string, req: Request,
                   streams: nat -> string, evs: seq<Event>, sys: System, id: nat)
    requires ValidRequest(req) && req.verb != "HEAD" && '\r' !in mime
    requires Chosen(server.table, req, e) && e.resource == Static(docRoot) && Decode(req.uri).text == e.location + rest
    requires server.world.lookup(docRoot, rest) == Other(File(bytes, mime))
    requires Reaches(server, streams, evs, sys) && id in sys.conns && Print(req) <= streams(id)
    requires |sys.conns[id].fed| >= |Print(req)|
    ensures |sys.conns[id].writes| == 1
    ensures ReplyReader.Reads(Reply.Serialize(sys.conns[id].writes[0]), 200, mime, bytes)
  {
    ReachableInv(server, streams, evs, sys);
    RequestWritten(server, req, streams(id), sys.conns[id]);
    FileRead(server, e, docRoot, rest, bytes, mime, req);
  }

  lemma FileRead(server: Server, e: Entry, docRoot: string, rest: string, bytes: string, mime: string, req: Request)
    requires req.verb != "HEAD" && '\r' !in mime
    requires Chosen(server.table, req, e) && e.resource == Static(docRoot) && Decode(req.uri).text == e.location + rest
    requires server.world.lookup(docRoot, rest) == Other(File(bytes, mime))
    ensures var rep := Route(server.world, server.table, req, Reply.BLANK_REPLY);
            ReplyReader.Reads(Reply.Serialize(rep), 200, mime, bytes)
  {
    var rep := Route(server.world, server.table, req, Reply.BLANK_REPLY);
    StaticAnswers(server.world, server.table, req, e, docRoot, rest);
    ChosenServes(server.world, server.table, req, Reply.BLANK_REPLY, e);
    assert (e.location + rest)[|e.location|..] == rest;
    TargetPlain(File(bytes, mime), Reply.BLANK_REPLY);
    ReplyReader.ShownIsRead(rep, 200, mime, bytes);
  }

  /** Percent-encoding everything but a set of harmless bytes yields a target that
      may stand in a request line and decodes to the text. */
  lemma EncodedTarget(text: string, safe: set<char>, styles: seq<Style>)
    requires AreBytes(text) && |styles| == |text| && Harmless(safe)
    ensures RequestGrammar.IsUri(Encode(text, safe, styles))
    ensures Decode(Encode(text, safe, styles)) == Decoded(true, text)
  {
    EncodeDecode(text, safe, styles);
    EncodedChars(text, safe, styles);
    var uri := Encode(text, safe, styles);
    forall i | 0 <= i < |uri| ensures !IsCtl(uri[i]) && uri[i] != ' ' {
      assert uri[i] in uri;
    }
  }

  /** The request with the encoded text as its target. */
  function Addressed(req: Request, text: string, safe: set<char>, styles: seq<Style>): (call: Request)
    requires ValidRequest(req) && AreBytes(text) && |styles| == |text| && Harmless(safe)
    ensures ValidRequest(call) && Decode(call.uri) == Decoded(true, text)
  {
    EncodedTarget(text, safe, styles);
    req.(uri := Encode(text, safe, styles))
  }

  /** Instantiate a route, append a query, percent-encode, print and send: in every
      run of the server the handler of that route is run on exactly those values and
      pairs, and what the client reads is its status, its type and its text. */
  lemma EncodedCallServed(server: Server, added: seq<Entry>, e: Entry, req: Request, values: seq<string>,
                          resource: string, pairs: seq<(string, string)>, safe: set<char>, styles: seq<Style>,
                          streams: nat -> string, evs: seq<Event>, sys: System, id: nat)
    requires TableFor(added, server.table) && e.resource.Dynamic?
    requires GoodCall(e.location, values, resource, pairs)
    requires ValidRequest(req) && AreBytes(TargetText(resource, pairs)) && Harmless(safe)
    requires |styles| == |TargetText(resource, pairs)|
    requires Preferred(EntriesFor(added, TableVerb(req.verb)), e, TargetText(resource, pairs))
    requires Reaches(server, streams, evs, sys) && id in sys.conns
    requires Print(Addressed(req, TargetText(resource, pairs), safe, styles)) <= streams(id)
    ensures var call := Addressed(req, TargetText(resource, pairs), safe, styles);
            WritesResponse(sys.conns[id], |Print(call)|,
                           Handled(server, e.resource.handler, call, e.location, values, pairs))
  {
    var call := Addressed(req, TargetText(resource, pairs), safe, styles);
    CallServed(server, added, e, call, values, resource, pairs, streams, evs, sys, id);
  }
}
