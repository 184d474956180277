/** A client's view of the bytes of a reply: a reader for status line, headers and
    body (section 6 of RFC 1945) that checks every separator, and the proof that it
    gets back what was sent. The reader knows nothing of how replies are made. */
module ReplyReader {
  import opened Text
  import opened RequestMachine
  import opened Reply

  // The reader

  datatype Fields = NoFields | Fields(headers: seq<Header>, body: string)

  /** Lines "name: value" up to an empty one, and whatever follows it. */
  function ReadFields(w: string): Fields
    decreases |w|
  {
    if |w| >= 2 && w[0] == '\r' && w[1] == '\n' then Fields([], w[2..])
    else
      var n := Find(w, ':');
      if n + 2 > |w| || w[n + 1] != ' ' || '\r' in w[..n] then NoFields
      else
        var value := w[n + 2..];
        var k := Find(value, '\r');
        if k + 2 > |value| || value[k + 1] != '\n' then NoFields
        else
          match ReadFields(value[k + 2..])
          case NoFields => NoFields
          case Fields(headers, body) => Fields([Header(w[..n], value[..k])] + headers, body)
  }

  datatype Message = Malformed | Message(code: int, reason: string, headers: seq<Header>, body: string)

  /** "HTTP/1.0", three digits and a phrase, separated by single spaces and ended by
      CRLF, then the headers. */
  function ReadReply(w: string): Message {
    if |w| < 13 || w[..9] != "HTTP/1.0 " || !AllDigits(w[9..12]) || w[12] != ' ' then Malformed
    else
      var code, line := 100 * DigitValue(w[9]) + 10 * DigitValue(w[10]) + DigitValue(w[11]), w[13..];
      var k := Find(line, '\r');
      if k + 2 > |line| || line[k + 1] != '\n' then Malformed
      else
        match ReadFields(line[k + 2..])
        case NoFields => Malformed
        case Fields(headers, body) => Message(code, line[..k], headers, body)
  }

  /** What the bytes say about a reply with a body: its code, its type, and its whole
      body with the length stated. */
  predicate Reads(bytes: string, code: nat, mime: string, body: string) {
    match ReadReply(bytes)
    case Malformed => false
    case Message(c, _, headers, b) =>
      c == code && b == body && ValuesOf(headers, "Content-Length") == [Decimal(|body|)]
      && ValuesOf(headers, "Content-Type") == [mime]
  }

  // What the reader makes of a reply

  function SuccessReason(code: int): (reason: string)
    ensures '\r' !in reason
  {
    if code == 200 then "OK" else if code == 201 then "Created" else if code == 202 then "Accepted"
    else if code == 204 then "No Content" else ""
  }

  function RedirectionReason(code: int): (reason: string)
    ensures '\r' !in reason
  {
    if code == 300 then "Multiple Choices" else if code == 301 then "Moved Permanently"
    else if code == 302 then "Moved Temporarily" else if code == 304 then "Not Modified" else ""
  }

  function ClientErrorReason(code: int): (reason: string)
    ensures '\r' !in reason
  {
    if code == 400 then "Bad Request" else if code == 401 then "Unauthorized"
    else if code == 403 then "Forbidden" else if code == 404 then "Not Found" else ""
  }

  function ServerErrorReason(code: int): (reason: string)
    ensures '\r' !in reason
  {
    if code == 500 then "Internal Server Error" else if code == 501 then "Not Implemented"
    else if code == 502 then "Bad Gateway" else if code == 503 then "Service Unavailable"
    else if code == 504 then "Gateway Timeout" else if code == 505 then "HTTP Version Not Supported" else ""
  }

  /** The phrase that goes with a code. */
  function Reason(code: int): (reason: string)
    ensures '\r' !in reason
  {
    if code < 300 then SuccessReason(code)
    else if code < 400 then RedirectionReason(code)
    else if code < 500 then ClientErrorReason(code)
    else ServerErrorReason(code)
  }

  /** Names free of ':' and CR, values free of CR. */
  predicate PlainHeader(h: Header) {
    ':' !in h.name && '\r' !in h.name && '\r' !in h.value
  }

  predicate PlainHeaders(headers: seq<Header>) {
    forall i | 0 <= i < |headers| :: PlainHeader(headers[i])
  }

  lemma FoundAfter(head: string, c: char, tail: string)
    requires c !in head
    ensures var w := head + [c] + tail;
            Find(w, c) == |head| && w[..|head|] == head && w[|head| + 1..] == tail
  {
    var w := head + [c] + tail;
    assert w[..|head|] == head;
    FindIs(w, c, |head|);
  }

  lemma HeaderLineParts(h: Header, rest: string)
    requires PlainHeader(h)
    ensures var w, n, k := HeaderLine(h) + rest, |h.name|, |h.value|;
            && |w| == n + 2 + k + 2 + |rest| && w[0] != '\r'
            && Find(w, ':') == n && w[..n] == h.name && w[n + 1] == ' '
            && Find(w[n + 2..], '\r') == k && w[n + 2..][..k] == h.value
            && w[n + 2..][k + 1] == '\n' && w[n + 2..][k + 2..] == rest
  {
    var w, value := HeaderLine(h) + rest, h.value + "\r" + ("\n" + rest);
    assert w == h.name + ":" + (" " + value);
    FoundAfter(h.name, ':', " " + value);
    FoundAfter(h.value, '\r', "\n" + rest);
    assert w[|h.name| + 1] == (" " + value)[0];
    assert w[|h.name| + 2..] == w[|h.name| + 1..][1..] == value;
    assert value[|h.value| + 1] == ("\n" + rest)[0];
    assert value[|h.value| + 2..] == value[|h.value| + 1..][1..] == rest;
    assert h.name != "" ==> w[0] == h.name[0];
  }

  lemma FirstField(h: Header, rest: string, headers: seq<Header>, body: string)
    requires PlainHeader(h) && ReadFields(rest) == Fields(headers, body)
    ensures ReadFields(HeaderLine(h) + rest) == Fields([h] + headers, body)
  {
    HeaderLineParts(h, rest);
  }

  lemma NoFieldLeft(body: string)
    ensures ReadFields("\r\n" + body) == Fields([], body)
  {
    assert ("\r\n" + body)[2..] == body;
  }

  lemma NextField(headers: seq<Header>, body: string)
    requires headers != [] && PlainHeader(headers[0])
    requires ReadFields(Block(headers[1..], body)) == Fields(headers[1..], body)
    ensures ReadFields(HeaderLine(headers[0]) + Block(headers[1..], body)) == Fields(headers, body)
  {
    FirstField(headers[0], Block(headers[1..], body), headers[1..], body);
    assert headers == [headers[0]] + headers[1..];
  }

  lemma {:induction false} FieldsRoundTrip(headers: seq<Header>, body: string)
    requires PlainHeaders(headers)
    ensures ReadFields(Block(headers, body)) == Fields(headers, body)
  {
    if headers == [] {
      NoFieldLeft(body);
    } else {
      FieldsRoundTrip(headers[1..], body);
      NextField(headers, body);
    }
  }

  function Digit(n: int): char
    requires 0 <= n < 10
  {
    ('0' as int + n) as char
  }

  function Digits(code: int): string
    requires 0 <= code < 1000
  {
    [Digit(code / 100), Digit(code / 10 % 10), Digit(code % 10)]
  }

  predicate IsStatusLine(status: Status) {
    StatusLine(status) == StatusText(Digits(Code(status)), Reason(Code(status)))
  }

  lemma SuccessLines()
    ensures IsStatusLine(Ok) && IsStatusLine(Created) && IsStatusLine(Accepted) && IsStatusLine(NoContent)
  {
    assert Digits(200) == "200" && Digits(201) == "201" && Digits(202) == "202" && Digits(204) == "204";
  }

  lemma RedirectionLines()
    ensures IsStatusLine(MultipleChoices) && IsStatusLine(MovedPermanently)
  {
    assert Digits(300) == "300" && Digits(301) == "301";
  }

  lemma TemporaryLines()
    ensures IsStatusLine(MovedTemporarily) && IsStatusLine(NotModified)
  {
    assert Digits(302) == "302" && Digits(304) == "304";
  }

  lemma ClientErrorLines()
    ensures IsStatusLine(BadRequest) && IsStatusLine(Unauthorized)
    ensures IsStatusLine(Forbidden) && IsStatusLine(NotFound)
  {
    assert Digits(400) == "400" && Digits(401) == "401" && Digits(403) == "403" && Digits(404) == "404";
  }

  lemma ServerErrorLines()
    ensures IsStatusLine(InternalServerError) && IsStatusLine(NotImplemented) && IsStatusLine(BadGateway)
    ensures IsStatusLine(ServiceUnavailable) && IsStatusLine(GatewayTimeout)
    ensures IsStatusLine(HttpVersionNotSupported) && IsStatusLine(Unset)
  {
    assert Digits(500) == "500" && Digits(501) == "501" && Digits(502) == "502";
    assert Digits(503) == "503" && Digits(504) == "504" && Digits(505) == "505";
  }

  /** The status line of every status is "HTTP/1.0", its code, and the phrase that goes
      with that code. */
  lemma StatusLineIs(status: Status)
    ensures IsStatusLine(status)
  {
    SuccessLines();
    RedirectionLines();
    TemporaryLines();
    ClientErrorLines();
    ServerErrorLines();
  }

  lemma LineParts(version: string, digits: string, reason: string, rest: string)
    requires |version| == 9 && |digits| == 3 && '\r' !in reason
    ensures var w := version + digits + " " + reason + "\r\n" + rest;
            var line := w[13..];
            && |w| == 15 + |reason| + |rest| && w[..9] == version && w[9..12] == digits && w[12] == ' '
            && Find(line, '\r') == |reason| && line[..|reason|] == reason
            && line[|reason| + 1] == '\n' && line[|reason| + 2..] == rest
  {
    var w, line := version + digits + " " + reason + "\r\n" + rest, reason + "\r\n" + rest;
    assert w[13..] == line;
    assert line[..|reason|] == reason;
    FindIs(line, '\r', |reason|);
  }

  lemma DigitsRead(code: int)
    requires 0 <= code < 1000
    ensures var d := Digits(code);
            AllDigits(d) && 100 * DigitValue(d[0]) + 10 * DigitValue(d[1]) + DigitValue(d[2]) == code
  {
  }

  lemma FirstLineRead(code: int, reason: string, rest: string, headers: seq<Header>, body: string)
    requires 0 <= code < 1000 && '\r' !in reason && ReadFields(rest) == Fields(headers, body)
    ensures ReadReply(StatusText(Digits(code), reason) + rest) == Message(code, reason, headers, body)
  {
    LineParts("HTTP/1.0 ", Digits(code), reason, rest);
    DigitsRead(code);
    var w := StatusText(Digits(code), reason) + rest;
    assert w[9] == w[9..12][0] && w[10] == w[9..12][1] && w[11] == w[9..12][2];
  }

  lemma TextRoundTrip(code: int, reason: string, headers: seq<Header>, content: string)
    requires 0 <= code < 1000 && '\r' !in reason && PlainHeaders(headers)
    ensures ReadReply(StatusText(Digits(code), reason) + Block(headers, content))
            == Message(code, reason, headers, content)
  {
    FieldsRoundTrip(headers, content);
    FirstLineRead(code, reason, Block(headers, content), headers, content);
  }

  /** Code, phrase, headers and arbitrary content can be read back from the bytes. */
  lemma ReplyRoundTrip(r: ReplyData)
    requires PlainHeaders(r.headers)
    ensures ReadReply(Serialize(r)) == Message(Code(r.status), Reason(Code(r.status)), r.headers, r.content)
  {
    StatusLineIs(r.status);
    TextRoundTrip(Code(r.status), Reason(Code(r.status)), r.headers, r.content);
  }

  /** Two replies share their bytes exactly when they agree in code, headers and
      content: they differ at most in an unset status against 500. */
  lemma UniquelyDecodable(r: ReplyData, q: ReplyData)
    requires PlainHeaders(r.headers) && PlainHeaders(q.headers)
    ensures Serialize(r) == Serialize(q)
            <==> Code(r.status) == Code(q.status) && r.headers == q.headers && r.content == q.content
  {
    ReplyRoundTrip(r);
    ReplyRoundTrip(q);
    StatusLineIs(r.status);
    StatusLineIs(q.status);
  }

  /** What a reply shows is what is read from its bytes. */
  lemma ShownIsRead(r: ReplyData, code: nat, mime: string, body: string)
    requires Shows(r, code, mime, body) && PlainHeaders(r.headers)
    ensures Reads(Serialize(r), code, mime, body)
  {
    ReplyRoundTrip(r);
  }

  lemma DecimalHasNo(n: nat, c: char)
    requires !IsDigit(c)
    ensures c !in Decimal(n)
  {
  }

  lemma ContentHeadersPlain(content: string, mime: string)
    requires '\r' !in mime
    ensures PlainHeaders(ContentHeaders(content, mime))
  {
    DecimalHasNo(|content|, '\r');
  }

  lemma StockPlain(status: Status)
    ensures PlainHeaders(Stock(status).headers)
  {
    ContentHeadersPlain(StockBody(status), "text/html");
  }

  /** A stock reply reads as its code and its page. */
  lemma StockReads(status: Status)
    ensures Reads(Serialize(Stock(status)), Code(status), "text/html", StockBody(status))
  {
    StockShown(status);
    StockPlain(status);
    ShownIsRead(Stock(status), Code(status), "text/html", StockBody(status));
  }

  // Stock pages

  /** The code a stock page names: 500 where the source falls back to that page. */
  function PageCode(status: Status): nat {
    if status == GatewayTimeout || status == HttpVersionNotSupported then 500 else Code(status)
  }

  predicate IsPage(status: Status) {
    var code := PageCode(status);
    StockBody(status) == Page(Reason(code), Digits(code), if status == NoContent then "Content" else Reason(code))
  }

  lemma SuccessPages()
    ensures IsPage(Created) && IsPage(Accepted) && IsPage(NoContent)
  {
    assert Digits(201) == "201" && Digits(202) == "202" && Digits(204) == "204";
  }

  lemma RedirectionPages()
    ensures IsPage(MultipleChoices) && IsPage(MovedPermanently) && IsPage(MovedTemporarily) && IsPage(NotModified)
  {
    assert Digits(300) == "300" && Digits(301) == "301" && Digits(302) == "302" && Digits(304) == "304";
  }

  lemma ClientErrorPages()
    ensures IsPage(BadRequest) && IsPage(Unauthorized) && IsPage(Forbidden) && IsPage(NotFound)
  {
    assert Digits(400) == "400" && Digits(401) == "401" && Digits(403) == "403" && Digits(404) == "404";
  }

  lemma ServerErrorPages()
    ensures IsPage(InternalServerError) && IsPage(NotImplemented) && IsPage(BadGateway)
  {
    assert Digits(500) == "500" && Digits(501) == "501" && Digits(502) == "502";
  }

  lemma UnavailablePages()
    ensures IsPage(ServiceUnavailable) && IsPage(GatewayTimeout) && IsPage(HttpVersionNotSupported) && IsPage(Unset)
  {
    assert Digits(500) == "500" && Digits(503) == "503";
  }

  /** Every stock reply but 200 has a page with the code and phrase of its status line,
      only that the pages for 504 and 505 are never used and name 500. */
  lemma StockPageIs(status: Status)
    ensures if status == Ok then StockBody(status) == "" else IsPage(status)
    ensures PageCode(status) == Code(status) <==> status != GatewayTimeout && status != HttpVersionNotSupported
  {
    SuccessPages();
    RedirectionPages();
    ClientErrorPages();
    ServerErrorPages();
    UnavailablePages();
  }

  /** The client reads the code, and the page that goes with it. */
  ghost predicate Tells(answer: ReplyData, code: nat) {
    exists status :: status != Ok && PageCode(status) == code
                     && Reads(Serialize(answer), code, "text/html", StockBody(status))
  }

  lemma StockTells(answer: ReplyData, status: Status, code: nat)
    requires answer == Stock(status) && status != Ok && PageCode(status) == Code(status) == code
    ensures Tells(answer, code)
  {
    StockReads(status);
  }
}
