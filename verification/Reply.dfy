/** Replies and their bytes on the wire (src/lib/reply.cpp). */
module Reply {
  import opened Text
  import opened RequestMachine

  /** The enumerators, and the value of a default-initialised status field, which
      takes the `default` branch of every switch. */
  datatype Status =
    | Ok | Created | Accepted | NoContent
    | MultipleChoices | MovedPermanently | MovedTemporarily | NotModified
    | BadRequest | Unauthorized | Forbidden | NotFound
    | InternalServerError | NotImplemented | BadGateway | ServiceUnavailable
    | GatewayTimeout | HttpVersionNotSupported
    | Unset

  datatype ReplyData = ReplyData(status: Status, headers: seq<Header>, content: string)

  const BLANK_REPLY := ReplyData(Unset, [], "")

  /** The form all status strings have. */
  function StatusText(digits: string, phrase: string): string {
    "HTTP/1.0 " + digits + " " + phrase + "\r\n"
  }

  function StatusLine(status: Status): string {
    match status
    case Ok => StatusText("200", "OK")
    case Created => StatusText("201", "Created")
    case Accepted => StatusText("202", "Accepted")
    case NoContent => StatusText("204", "No Content")
    case MultipleChoices => StatusText("300", "Multiple Choices")
    case MovedPermanently => StatusText("301", "Moved Permanently")
    case MovedTemporarily => StatusText("302", "Moved Temporarily")
    case NotModified => StatusText("304", "Not Modified")
    case BadRequest => StatusText("400", "Bad Request")
    case Unauthorized => StatusText("401", "Unauthorized")
    case Forbidden => StatusText("403", "Forbidden")
    case NotFound => StatusText("404", "Not Found")
    case InternalServerError => StatusText("500", "Internal Server Error")
    case NotImplemented => StatusText("501", "Not Implemented")
    case BadGateway => StatusText("502", "Bad Gateway")
    case ServiceUnavailable => StatusText("503", "Service Unavailable")
    case GatewayTimeout => StatusText("504", "Gateway Timeout")
    case HttpVersionNotSupported => StatusText("505", "HTTP Version Not Supported")
    case Unset => StatusText("500", "Internal Server Error")
  }

  function HeaderLine(h: Header): string {
    h.name + ": " + h.value + "\r\n"
  }

  /** One line per header, the blank line, the content. */
  function Block(headers: seq<Header>, content: string): string {
    if headers == [] then "\r\n" + content
    else HeaderLine(headers[0]) + Block(headers[1..], content)
  }

  function Serialize(r: ReplyData): string {
    StatusLine(r.status) + Block(r.headers, r.content)
  }

  /** The numbers of the enumeration; the default branch sends 500. */
  function Code(status: Status): (code: nat)
    ensures 200 <= code <= 505
  {
    match status
    case Ok => 200
    case Created => 201
    case Accepted => 202
    case NoContent => 204
    case MultipleChoices => 300
    case MovedPermanently => 301
    case MovedTemporarily => 302
    case NotModified => 304
    case BadRequest => 400
    case Unauthorized => 401
    case Forbidden => 403
    case NotFound => 404
    case InternalServerError => 500
    case NotImplemented => 501
    case BadGateway => 502
    case ServiceUnavailable => 503
    case GatewayTimeout => 504
    case HttpVersionNotSupported => 505
    case Unset => 500
  }

  // Stock replies

  function Page(title: string, digits: string, phrase: string): string {
    "<html><head><title>" + title + "</title></head><body><h1>" + digits + " " + phrase + "</h1></body></html>"
  }

  function StockBody(status: Status): string {
    match status
    case Ok => ""
    case Created => Page("Created", "201", "Created")
    case Accepted => Page("Accepted", "202", "Accepted")
    case NoContent => Page("No Content", "204", "Content")
    case MultipleChoices => Page("Multiple Choices", "300", "Multiple Choices")
    case MovedPermanently => Page("Moved Permanently", "301", "Moved Permanently")
    case MovedTemporarily => Page("Moved Temporarily", "302", "Moved Temporarily")
    case NotModified => Page("Not Modified", "304", "Not Modified")
    case BadRequest => Page("Bad Request", "400", "Bad Request")
    case Unauthorized => Page("Unauthorized", "401", "Unauthorized")
    case Forbidden => Page("Forbidden", "403", "Forbidden")
    case NotFound => Page("Not Found", "404", "Not Found")
    case NotImplemented => Page("Not Implemented", "501", "Not Implemented")
    case BadGateway => Page("Bad Gateway", "502", "Bad Gateway")
    case ServiceUnavailable => Page("Service Unavailable", "503", "Service Unavailable")
    case _ => Page("Internal Server Error", "500", "Internal Server Error")
  }

  function ContentHeaders(content: string, mime: string): seq<Header> {
    [Header("Content-Length", Decimal(|content|)), Header("Content-Type", mime)]
  }

  function Stock(status: Status): ReplyData {
    var content := StockBody(status);
    ReplyData(status, ContentHeaders(content, "text/html"), content)
  }

  // Looking headers up

  /** The values of all headers of that name, in order. */
  function ValuesOf(headers: seq<Header>, name: string): seq<string> {
    if headers == [] then []
    else (if headers[0].name == name then [headers[0].value] else []) + ValuesOf(headers[1..], name)
  }

  /** Exactly one Content-Length header, and it is the length of the body. */
  predicate Framed(r: ReplyData) {
    ValuesOf(r.headers, "Content-Length") == [Decimal(|r.content|)]
  }

  /** The reply has this status code, this body with its length stated once, and this
      one type. */
  predicate Shows(r: ReplyData, code: nat, mime: string, body: string) {
    Code(r.status) == code && r.content == body && Framed(r) && ValuesOf(r.headers, "Content-Type") == [mime]
  }

  lemma TwoHeaders(a: string, x: string, b: string, y: string, name: string)
    requires a != b
    ensures var values := ValuesOf([Header(a, x), Header(b, y)], name);
            values == if name == a then [x] else if name == b then [y] else []
  {
    var first, second := Header(a, x), Header(b, y);
    assert [first, second][1..] == [second] && [second][1..] == [];
    assert ValuesOf([second], name) == if name == b then [y] else [];
  }

  lemma HeaderNames()
    ensures "Content-Length" != "Content-Type" && "Location" != "Content-Length" && "Location" != "Content-Type"
  {
    assert |"Content-Length"| == 14 && |"Content-Type"| == 12 && |"Location"| == 8;
  }

  lemma ContentValues(content: string, mime: string)
    ensures ValuesOf(ContentHeaders(content, mime), "Content-Length") == [Decimal(|content|)]
    ensures ValuesOf(ContentHeaders(content, mime), "Content-Type") == [mime]
    ensures ValuesOf(ContentHeaders(content, mime), "Location") == []
  {
    HeaderNames();
    TwoHeaders("Content-Length", Decimal(|content|), "Content-Type", mime, "Content-Length");
    TwoHeaders("Content-Length", Decimal(|content|), "Content-Type", mime, "Content-Type");
    TwoHeaders("Content-Length", Decimal(|content|), "Content-Type", mime, "Location");
  }

  lemma {:induction false} ValuesOfSnoc(headers: seq<Header>, h: Header, name: string)
    ensures ValuesOf(headers + [h], name) == ValuesOf(headers, name) + if h.name == name then [h.value] else []
  {
    if headers == [] {
      assert [h][1..] == [];
    } else {
      assert (headers + [h])[1..] == headers[1..] + [h];
      ValuesOfSnoc(headers[1..], h, name);
    }
  }

  lemma ContentShown(status: Status, content: string, mime: string)
    ensures Shows(ReplyData(status, ContentHeaders(content, mime), content), Code(status), mime, content)
  {
    ContentValues(content, mime);
  }

  /** A stock reply has its own code, and its page as HTML. */
  lemma StockShown(status: Status)
    ensures Shows(Stock(status), Code(status), "text/html", StockBody(status))
  {
    ContentShown(status, StockBody(status), "text/html");
  }

  // The object

  /** `reply`: filled in by the router, kept alive until it has been written. */
  class ReplyObject {
    var status: Status
    var headers: seq<Header>
    var content: string

    constructor ()
      ensures Data() == BLANK_REPLY
    {
      status, headers, content := Unset, [], "";
    }

    function Data(): ReplyData
      reads this
    {
      ReplyData(status, headers, content)
    }

    /** `rep = value` */
    method Assign(value: ReplyData)
      modifies this
      ensures Data() == value
    {
      status, headers, content := value.status, value.headers, value.content;
    }

    /** Status line, four buffers per header, blank line, content. */
    method ToBuffers() returns (buffers: seq<string>)
      ensures |buffers| == 4 * |headers| + 3
      ensures Flatten(buffers) == Serialize(Data())
    {
      buffers := [StatusLine(status)];
      FlattenOne([], buffers[0]);
      assert [] + buffers == buffers && "" + buffers[0] == buffers[0];
      ghost var whole := buffers[0] + Block(headers, content);
      for i := 0 to |headers|
        invariant |buffers| == 4 * i + 1
        invariant Flatten(buffers) + Block(headers[i..], content) == whole
      {
        FlattenFour(buffers, headers[i].name, ": ", headers[i].value, "\r\n");
        NextHeader(Flatten(buffers), headers, i, content);
        buffers := buffers + [headers[i].name] + [": "] + [headers[i].value] + ["\r\n"];
      }
      FlattenTwo(buffers, "\r\n", content);
      assert Flatten(buffers) + "\r\n" + content == Flatten(buffers) + ("\r\n" + content);
      buffers := buffers + ["\r\n"] + [content];
    }
  }

  lemma NextHeader(before: string, headers: seq<Header>, i: nat, content: string)
    requires i < |headers|
    ensures before + Block(headers[i..], content) == before + HeaderLine(headers[i]) + Block(headers[i + 1..], content)
  {
    assert headers[i..][1..] == headers[i + 1..];
    var line, rest := HeaderLine(headers[i]), Block(headers[i + 1..], content);
    assert before + (line + rest) == before + line + rest;
  }

  lemma FlattenOne(parts: seq<string>, a: string)
    ensures Flatten(parts + [a]) == Flatten(parts) + a
  {
    assert (parts + [a])[..|parts|] == parts;
  }

  lemma FlattenTwo(parts: seq<string>, a: string, b: string)
    ensures Flatten(parts + [a] + [b]) == Flatten(parts) + a + b
  {
    FlattenOne(parts, a);
    FlattenOne(parts + [a], b);
  }

  lemma FlattenFour(parts: seq<string>, a: string, b: string, c: string, d: string)
    ensures Flatten(parts + [a] + [b] + [c] + [d]) == Flatten(parts) + (a + b + c + d)
  {
    FlattenTwo(parts, a, b);
    FlattenTwo(parts + [a] + [b], c, d);
  }
}
