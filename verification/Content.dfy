/** What the routes of the server serve: files (src/lib/static_content.cpp) and
    the output of handlers (src/lib/dynamic_content.cpp). File system and handlers
    are a fixed environment, `World`. */
module Content {
  import Text
  import opened RequestMachine
  import RequestParser
  import PathPattern
  import Query
  import opened Reply
  import opened ReplyReader

  /** What a handler is given. */
  datatype HandlerRequest = HandlerRequest(original: Request, resources: map<string, string>,
                                           query: map<string, string>)

  /** What a handler leaves in its response stream. */
  datatype Response = Response(status: Status, content: string, contentType: string)

  /** A path that may be opened as a file. */
  datatype Target = Absent | NotAFile | Unreadable | File(bytes: string, mime: string)

  datatype Listing = Listed(page: string) | ListingFailed

  /** A path in the file system; `index` is its "index.html". */
  datatype Node = Directory(index: Target, listing: Listing) | Other(target: Target)

  datatype World = World(handle: (nat, HandlerRequest) -> Response, lookup: (string, string) -> Node)

  datatype Resource = Static(docRoot: string) | Dynamic(action: string, handler: nat) {
    /** The method the resource is registered for. */
    function Verb(): string {
      match this
      case Static(_) => "GET"
      case Dynamic(action, _) => action
    }
  }

  datatype Entry = Entry(location: string, resource: Resource)

  // Static content

  function ServeTarget(target: Target, rep: ReplyData): ReplyData {
    match target
    case Absent => Stock(NotFound)
    case NotAFile => Stock(Forbidden)
    case Unreadable => Stock(NotFound)
    case File(bytes, mime) => ReplyData(Ok, ContentHeaders(rep.content + bytes, mime), rep.content + bytes)
  }

  function ServeListing(listing: Listing): ReplyData {
    match listing
    case Listed(page) => ReplyData(Ok, ContentHeaders(page, "text/html"), page)
    case ListingFailed => Stock(NotFound)
  }

  function Moved(uri: string): ReplyData {
    var rep := Stock(MovedPermanently);
    rep.(headers := rep.headers + [Header("Location", uri + "/")])
  }

  function ServeNode(node: Node, uri: string, rep: ReplyData): ReplyData {
    match node
    case Directory(index, listing) =>
      if index != Absent then ServeTarget(index, rep)
      else if uri != "" && uri[|uri| - 1] == '/' then ServeListing(listing)
      else Moved(uri)
    case Other(target) => ServeTarget(target, rep)
  }

  function ServeStatic(world: World, docRoot: string, location: string, path: string, req: Request,
                       rep: ReplyData): ReplyData
    requires location <= path
  {
    var served := ServeNode(world.lookup(docRoot, path[|location|..]), req.uri, rep);
    if req.verb == "HEAD" then served.(content := "") else served
  }

  // Dynamic content

  /** The request the handler runs on. */
  function HandlerInput(location: string, path: string, req: Request): HandlerRequest {
    var (resource, query) := PathPattern.Split(path, '?');
    HandlerRequest(req, Text.MapOf(PathPattern.Walk(location, resource).captures), Query.QueryMap(query))
  }

  function ReplyOf(r: Response): ReplyData {
    ReplyData(r.status, ContentHeaders(r.content, r.contentType), r.content)
  }

  // Either

  /** Static locations match as raw prefixes, dynamic ones as patterns for the path
      before '?'. */
  ghost predicate Serves(e: Entry, path: string) {
    match e.resource
    case Static(_) => e.location <= path
    case Dynamic(_, _) => PathPattern.Matches(e.location, PathPattern.Split(path, '?').0)
  }

  ghost function Serve(world: World, e: Entry, path: string, req: Request, rep: ReplyData): ReplyData
    requires Serves(e, path)
  {
    match e.resource
    case Static(docRoot) => ServeStatic(world, docRoot, e.location, path, req, rep)
    case Dynamic(_, handler) => ReplyOf(world.handle(handler, HandlerInput(e.location, path, req)))
  }

  // What every served reply is like

  /** A redirection is the stock reply with the location added. */
  lemma MovedShown(uri: string)
    ensures Shows(Moved(uri), 301, "text/html", StockBody(MovedPermanently))
    ensures ValuesOf(Moved(uri).headers, "Location") == [uri + "/"]
  {
    var headers, h := Stock(MovedPermanently).headers, Header("Location", uri + "/");
    ContentValues(StockBody(MovedPermanently), "text/html");
    HeaderNames();
    ValuesOfSnoc(headers, h, "Content-Length");
    ValuesOfSnoc(headers, h, "Content-Type");
    ValuesOfSnoc(headers, h, "Location");
  }

  lemma NodeFramed(node: Node, uri: string, rep: ReplyData)
    ensures Framed(ServeNode(node, uri, rep))
  {
    match node
    case Directory(index, listing) =>
      if index != Absent {
        TargetFramed(index, rep);
      } else if uri != "" && uri[|uri| - 1] == '/' {
        if listing.Listed? {
          ContentShown(Ok, listing.page, "text/html");
        } else {
          StockShown(NotFound);
        }
      } else {
        MovedShown(uri);
      }
    case Other(target) => TargetFramed(target, rep);
  }

  lemma TargetFramed(target: Target, rep: ReplyData)
    ensures Framed(ServeTarget(target, rep))
  {
    match target
    case Absent => StockShown(NotFound);
    case NotAFile => StockShown(Forbidden);
    case Unreadable => StockShown(NotFound);
    case File(bytes, mime) => ContentShown(Ok, rep.content + bytes, mime);
  }

  /** Content-Length tells the truth about every served reply, except that static
      content empties the body, and only the body, for HEAD. */
  lemma ServeFramed(world: World, e: Entry, path: string, req: Request, rep: ReplyData)
    requires Serves(e, path)
    ensures !(e.resource.Static? && req.verb == "HEAD") ==> Framed(Serve(world, e, path, req, rep))
    ensures e.resource.Static? && req.verb == "HEAD" ==>
              Serve(world, e, path, req, rep) == Serve(world, e, path, req.(verb := "GET"), rep).(content := "")
  {
    match e.resource
    case Static(docRoot) =>
      NodeFramed(world.lookup(docRoot, path[|e.location|..]), req.uri, rep);
      assert "GET"[0] == 'G' && "HEAD"[0] == 'H';
    case Dynamic(_, handler) =>
      var r := world.handle(handler, HandlerInput(e.location, path, req));
      ContentShown(r.status, r.content, r.contentType);
  }

  // What clients are told

  /** A file is answered with all its bytes and its type, anything else with the code
      that fits. */
  predicate TellsTarget(rep: ReplyData, target: Target) {
    match target
    case File(bytes, mime) => Shows(rep, 200, mime, bytes)
    case NotAFile => Shows(rep, 403, "text/html", StockBody(Forbidden))
    case Absent => Shows(rep, 404, "text/html", StockBody(NotFound))
    case Unreadable => Shows(rep, 404, "text/html", StockBody(NotFound))
  }

  /** A directory is answered with its index or, without one, with the listing if the
      target ends in '/', and with a redirection to that target if it does not. */
  predicate TellsNode(rep: ReplyData, node: Node, uri: string) {
    match node
    case Other(target) => TellsTarget(rep, target)
    case Directory(index, listing) =>
      if index != Absent then TellsTarget(rep, index)
      else if uri == "" || uri[|uri| - 1] != '/' then
        Shows(rep, 301, "text/html", StockBody(MovedPermanently)) && ValuesOf(rep.headers, "Location") == [uri + "/"]
      else
        match listing
        case Listed(page) => Shows(rep, 200, "text/html", page)
        case ListingFailed => Shows(rep, 404, "text/html", StockBody(NotFound))
  }

  lemma TargetTold(target: Target)
    ensures TellsTarget(ServeTarget(target, BLANK_REPLY), target)
  {
    match target
    case File(bytes, mime) =>
      assert "" + bytes == bytes;
      ContentShown(Ok, bytes, mime);
    case NotAFile => StockShown(Forbidden);
    case Absent => StockShown(NotFound);
    case Unreadable => StockShown(NotFound);
  }

  lemma NodeTold(node: Node, uri: string)
    ensures TellsNode(ServeNode(node, uri, BLANK_REPLY), node, uri)
  {
    match node
    case Other(target) => TargetTold(target);
    case Directory(index, listing) =>
      TargetTold(index);
      MovedShown(uri);
      StockShown(NotFound);
      if listing.Listed? {
        ContentShown(Ok, listing.page, "text/html");
      }
  }

  /** What a client is told of the response a handler left. */
  predicate TellsResponse(rep: ReplyData, r: Response) {
    && Shows(rep, Code(r.status), r.contentType, r.content)
    && ('\r' !in r.contentType ==> Reads(Serialize(rep), Code(r.status), r.contentType, r.content))
  }

  lemma ResponseTold(r: Response)
    ensures TellsResponse(ReplyOf(r), r)
  {
    ContentShown(r.status, r.content, r.contentType);
    if '\r' !in r.contentType {
      ContentHeadersPlain(r.content, r.contentType);
      ShownIsRead(ReplyOf(r), Code(r.status), r.contentType, r.content);
    }
  }

  /** Handlers and MIME table keep CR out of header values. */
  ghost predicate WellBehaved(world: World) {
    && (forall h, r :: '\r' !in world.handle(h, r).contentType)
    && (forall root, path :: PlainNode(world.lookup(root, path)))
  }

  predicate PlainTarget(target: Target) {
    target.File? ==> '\r' !in target.mime
  }

  predicate PlainNode(node: Node) {
    match node
    case Directory(index, _) => PlainTarget(index)
    case Other(target) => PlainTarget(target)
  }

  lemma TargetPlain(target: Target, rep: ReplyData)
    requires PlainTarget(target)
    ensures PlainHeaders(ServeTarget(target, rep).headers)
  {
    match target
    case Absent => StockPlain(NotFound);
    case NotAFile => StockPlain(Forbidden);
    case Unreadable => StockPlain(NotFound);
    case File(bytes, mime) => ContentHeadersPlain(rep.content + bytes, mime);
  }

  lemma NodePlain(node: Node, uri: string, rep: ReplyData)
    requires PlainNode(node) && '\r' !in uri
    ensures PlainHeaders(ServeNode(node, uri, rep).headers)
  {
    match node
    case Directory(index, listing) =>
      if index != Absent {
        TargetPlain(index, rep);
      } else if uri != "" && uri[|uri| - 1] == '/' {
        if listing.Listed? {
          ContentHeadersPlain(listing.page, "text/html");
        } else {
          StockPlain(NotFound);
        }
      } else {
        StockPlain(MovedPermanently);
        assert PlainHeader(Header("Location", uri + "/"));
      }
    case Other(target) => TargetPlain(target, rep);
  }

  lemma ServePlain(world: World, e: Entry, path: string, req: Request, rep: ReplyData)
    requires WellBehaved(world) && Serves(e, path) && '\r' !in req.uri
    ensures PlainHeaders(Serve(world, e, path, req, rep).headers)
  {
    match e.resource
    case Static(docRoot) =>
      assert PlainNode(world.lookup(docRoot, path[|e.location|..]));
      NodePlain(world.lookup(docRoot, path[|e.location|..]), req.uri, rep);
    case Dynamic(_, handler) =>
      var r := world.handle(handler, HandlerInput(e.location, path, req));
      ContentHeadersPlain(r.content, r.contentType);
  }

  // The serving methods

  const BLOCK := 512

  /** Copies the file in blocks onto whatever content is already there. */
  method ServeFile(target: Target, rep: ReplyObject)
    modifies rep
    ensures rep.Data() == ServeTarget(target, old(rep.Data()))
  {
    match target
    case Absent => rep.Assign(Stock(NotFound));
    case NotAFile => rep.Assign(Stock(Forbidden));
    case Unreadable => rep.Assign(Stock(NotFound));
    case File(bytes, mime) =>
      rep.status := Ok;
      var pos := 0;
      assert rep.content + bytes[..0] == rep.content;
      while pos < |bytes|
        invariant pos <= |bytes|
        invariant rep.status == Ok && rep.content == old(rep.content) + bytes[..pos]
      {
        var count := if |bytes| - pos < BLOCK then |bytes| - pos else BLOCK;
        assert bytes[..pos + count] == bytes[..pos] + bytes[pos..pos + count];
        rep.content := rep.content + bytes[pos..pos + count];
        pos := pos + count;
      }
      assert bytes[..pos] == bytes;
      rep.headers := ContentHeaders(rep.content, mime);
  }

  method ServeStaticIfMatch(world: World, docRoot: string, location: string, path: string,
                            req: RequestParser.HttpRequest, rep: ReplyObject) returns (served: bool)
    modifies rep
    ensures served <==> Serves(Entry(location, Static(docRoot)), path)
    ensures served ==> rep.Data() == Serve(world, Entry(location, Static(docRoot)), path, req.Data(), old(rep.Data()))
    ensures !served ==> rep.Data() == old(rep.Data())
  {
    if !(location <= path) {
      return false;
    }
    var node := world.lookup(docRoot, path[|location|..]);
    match node {
      case Directory(index, listing) =>
        if index != Absent {
          ServeFile(index, rep);
        } else if req.uri != "" && req.uri[|req.uri| - 1] == '/' {
          rep.Assign(ServeListing(listing));
        } else {
          rep.Assign(Stock(MovedPermanently));
          rep.headers := rep.headers + [Header("Location", req.uri + "/")];
        }
      case Other(target) => ServeFile(target, rep);
    }
    if req.verb == "HEAD" {
      rep.content := "";
    }
    return true;
  }

  method ServeDynamicIfMatch(world: World, action: string, handler: nat, location: string, path: string,
                             req: RequestParser.HttpRequest, rep: ReplyObject) returns (served: bool)
    modifies rep
    ensures served <==> Serves(Entry(location, Dynamic(action, handler)), path)
    ensures served ==>
              rep.Data() == Serve(world, Entry(location, Dynamic(action, handler)), path, req.Data(), old(rep.Data()))
    ensures !served ==> rep.Data() == old(rep.Data())
  {
    var (resource, query) := PathPattern.Split(path, '?');
    var matched, resources := PathPattern.MatchPattern(location, resource);
    if !matched {
      return false;
    }
    var values := Query.HandleQueryParameters(query);
    var response := world.handle(handler, HandlerRequest(req.Data(), resources, values));
    rep.content := response.content;
    rep.status := response.status;
    rep.headers := ContentHeaders(rep.content, response.contentType);
    return true;
  }

  method ServeIfMatch(world: World, e: Entry, path: string, req: RequestParser.HttpRequest, rep: ReplyObject)
    returns (served: bool)
    modifies rep
    ensures served <==> Serves(e, path)
    ensures served ==> rep.Data() == Serve(world, e, path, req.Data(), old(rep.Data()))
    ensures !served ==> rep.Data() == old(rep.Data())
  {
    match e.resource
    case Static(docRoot) => served := ServeStaticIfMatch(world, docRoot, e.location, path, req, rep);
    case Dynamic(action, handler) => served := ServeDynamicIfMatch(world, action, handler, e.location, path, req, rep);
  }
}
