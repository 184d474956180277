/** The life of connections (src/lib/base_connection.hpp, src/lib/ssl_connection.cpp,
    src/lib/connection_manager.cpp) as a transition system: any number of
    connections share one manager, and each step is one completion handler run to
    its end. Sockets, TLS and the network choose the completions. */
module Connection {
  import opened RequestMachine
  import RequestLanguage
  import opened Reply
  import opened ReplyReader
  import Content
  import Router

  /** Asynchronous operations. */
  datatype Op = Handshaking | Reading | Writing

  datatype Completion = Success | Aborted | Failure

  /** One connection. `ops` are the operations started and not yet completed; `fed`
      and `writes` record what was passed to the parser and what was started to be
      written. */
  datatype Conn = Conn(open: bool, ops: multiset<Op>, machine: Machine, reply: ReplyData,
                       fed: string, writes: seq<ReplyData>)

  datatype Server = Server(world: Content.World, table: map<string, seq<Content.Entry>>)

  const FRESH := Machine(MethodStart, Request("", "", 0, 0, []))

  const BUFFER := 8192

  function NewConn(): Conn {
    Conn(true, multiset{}, FRESH, BLANK_REPLY, "", [])
  }

  // Completion handlers

  /** The connection after a handler, and whether the handler stopped it. */
  datatype After = After(conn: Conn, stop: bool)

  function Close(c: Conn): Conn {
    c.(open := false)
  }

  function Begin(c: Conn, op: Op): Conn {
    c.(ops := c.ops + multiset{op})
  }

  /** The completion of an operation uses it up before its handler runs. */
  function Complete(c: Conn, op: Op): Conn {
    c.(ops := c.ops - multiset{op})
  }

  /** Plain connections start reading, TLS connections shake hands first. */
  function OnStart(c: Conn, tls: bool): Conn {
    Begin(c, if tls then Handshaking else Reading)
  }

  function OnHandshake(c: Conn, ec: Completion): After {
    var d := Complete(c, Handshaking);
    if ec == Success then After(Begin(d, Reading), false) else After(d, true)
  }

  function StartWrite(c: Conn, rep: ReplyData): Conn {
    Begin(c.(reply := rep, writes := c.writes + [rep]), Writing)
  }

  /** The handler of a successful read. */
  ghost function Received(server: Server, c: Conn, bytes: string): (d: Conn)
    requires c.machine.Safe()
    ensures d.machine.Safe()
  {
    var o := Run(c.machine, bytes);
    var d := c.(machine := o.machine, fed := c.fed + bytes);
    match o.result
    case Good => StartWrite(d, Router.Route(server.world, server.table, o.machine.req, c.reply))
    case Bad => StartWrite(d, Stock(BadRequest))
    case Indeterminate => Begin(d, Reading)
  }

  ghost function OnRead(server: Server, c: Conn, ec: Completion, bytes: string): (a: After)
    requires c.machine.Safe()
    ensures a.conn.machine.Safe()
  {
    var d := Complete(c, Reading);
    match ec
    case Success => After(Received(server, d, bytes), false)
    case Failure => After(d, true)
    case Aborted => After(d, false)
  }

  function OnWritten(c: Conn, ec: Completion): After {
    After(Complete(c, Writing), ec != Aborted)
  }

  // The system

  datatype Event =
    | Started(id: nat, tls: bool)
    | HandshakeDone(id: nat, ec: Completion)
    | ReadDone(id: nat, ec: Completion, bytes: string)
    | WriteDone(id: nat, ec: Completion)
    | AllStopped

  datatype System = System(conns: map<nat, Conn>, managed: set<nat>)

  const INITIAL := System(map[], {})

  predicate SafeSystem(sys: System) {
    forall id | id in sys.conns :: sys.conns[id].machine.Safe()
  }

  /** `connection_manager::stop` */
  function Stop(sys: System, id: nat): System
    requires id in sys.conns
  {
    System(sys.conns[id := Close(sys.conns[id])], sys.managed - {id})
  }

  /** The connection once its handler has run to its end. */
  function Ended(a: After): Conn {
    if a.stop then Close(a.conn) else a.conn
  }

  function Finish(sys: System, id: nat, a: After): (next: System)
    ensures SafeSystem(sys) && a.conn.machine.Safe() ==> SafeSystem(next)
  {
    var after := sys.(conns := sys.conns[id := a.conn]);
    if a.stop then Stop(after, id) else after
  }

  function StopAll(sys: System): (next: System)
    ensures SafeSystem(sys) ==> SafeSystem(next)
  {
    System(map id | id in sys.conns :: if id in sys.managed then Close(sys.conns[id]) else sys.conns[id], {})
  }

  /** What may happen next. Operations are aborted only after the socket was closed;
      an operation that finished before that may still report success or failure.
      A successful read delivers between 1 byte and a buffer full, in stream order. */
  predicate Enabled(streams: nat -> string, sys: System, ev: Event) {
    match ev
    case Started(id, _) => id !in sys.conns
    case HandshakeDone(id, ec) => id in sys.conns && Handshaking in sys.conns[id].ops && Possible(sys.conns[id], ec)
    case ReadDone(id, ec, bytes) =>
      && id in sys.conns && Reading in sys.conns[id].ops && Possible(sys.conns[id], ec)
      && (ec == Success ==> 1 <= |bytes| <= BUFFER && sys.conns[id].fed + bytes <= streams(id))
    case WriteDone(id, ec) => id in sys.conns && Writing in sys.conns[id].ops && Possible(sys.conns[id], ec)
    case AllStopped => true
  }

  predicate Possible(c: Conn, ec: Completion) {
    ec == Aborted ==> !c.open
  }

  ghost function Next(server: Server, sys: System, ev: Event): (next: System)
    requires SafeSystem(sys) && (ev.AllStopped? || ev.Started? || ev.id in sys.conns)
    ensures SafeSystem(next)
  {
    match ev
    case Started(id, tls) => System(sys.conns[id := OnStart(NewConn(), tls)], sys.managed + {id})
    case HandshakeDone(id, ec) => Finish(sys, id, OnHandshake(sys.conns[id], ec))
    case ReadDone(id, ec, bytes) => Finish(sys, id, OnRead(server, sys.conns[id], ec, bytes))
    case WriteDone(id, ec) => Finish(sys, id, OnWritten(sys.conns[id], ec))
    case AllStopped => StopAll(sys)
  }

  /** `sys` is reached by the events `evs`, in that order. */
  ghost predicate Reaches(server: Server, streams: nat -> string, evs: seq<Event>, sys: System) {
    if evs == [] then sys == INITIAL
    else
      exists before ::
        && Reaches(server, streams, evs[..|evs| - 1], before)
        && SafeSystem(before) && Enabled(streams, before, evs[|evs| - 1])
        && sys == Next(server, before, evs[|evs| - 1])
  }

  // The invariant

  /** What the one-shot server answers once `o` has decided. */
  ghost function Answer(server: Server, o: Outcome): ReplyData {
    if o.result == Good then Router.Route(server.world, server.table, o.machine.req, BLANK_REPLY)
    else Stock(BadRequest)
  }

  /** The parser has seen exactly `fed`; a reply was started exactly when that
      decided, only once, and it is the answer to it; at most one operation is
      outstanding, and it is one that fits. */
  ghost predicate ConnInv(server: Server, stream: string, c: Conn) {
    && c.fed <= stream
    && c.machine == Run(FRESH, c.fed).machine
    && |c.ops| <= 1
    && (if Run(FRESH, c.fed).Decided()
        then c.writes == [Answer(server, Run(FRESH, c.fed))] && Handshaking !in c.ops && Reading !in c.ops
        else c.writes == [] && c.reply == BLANK_REPLY && Writing !in c.ops)
    && (Handshaking in c.ops ==> c.fed == "")
  }

  /** A connection between handlers: managed exactly when its socket is open, and then
      with an operation outstanding. */
  ghost predicate Settled(server: Server, stream: string, c: Conn, managed: bool) {
    ConnInv(server, stream, c) && (managed <==> c.open) && (c.open ==> |c.ops| == 1)
  }

  ghost predicate SysInv(server: Server, streams: nat -> string, sys: System) {
    && sys.managed <= sys.conns.Keys
    && forall id | id in sys.conns :: Settled(server, streams(id), sys.conns[id], id in sys.managed)
  }

  lemma OnlyOne(ops: multiset<Op>, op: Op)
    requires |ops| <= 1 && op in ops
    ensures ops == multiset{op} && ops - multiset{op} == multiset{}
  {
    var rest := ops - multiset{op};
    assert ops == multiset{op} + rest;
  }

  lemma ReceivedOutcome(fed: string, bytes: string)
    requires !Run(FRESH, fed).Decided()
    ensures var o := Run(Run(FRESH, fed).machine, bytes);
            var p := Run(FRESH, fed + bytes);
            p.result == o.result && p.machine == o.machine
  {
    RunAppend(FRESH, fed, bytes);
  }

  lemma ReceivedKeepsInv(server: Server, stream: string, c: Conn, bytes: string)
    requires ConnInv(server, stream, c) && c.ops == multiset{} && !Run(FRESH, c.fed).Decided()
    requires c.fed + bytes <= stream
    ensures c.machine.Safe()
    ensures ConnInv(server, stream, Received(server, c, bytes)) && |Received(server, c, bytes).ops| == 1
  {
    ReceivedOutcome(c.fed, bytes);
    var d := Received(server, c, bytes);
    assert d.fed == c.fed + bytes;
    assert d.ops == multiset{if Run(FRESH, d.fed).Decided() then Writing else Reading};
  }

  lemma ReadKeepsInv(server: Server, stream: string, c: Conn, ec: Completion, bytes: string)
    requires ConnInv(server, stream, c) && Reading in c.ops
    requires ec == Success ==> c.fed + bytes <= stream
    ensures c.machine.Safe()
    ensures var a := OnRead(server, c, ec, bytes);
            ConnInv(server, stream, a.conn) && |a.conn.ops| == (if ec == Success then 1 else 0)
  {
    OnlyOne(c.ops, Reading);
    if ec == Success {
      ReceivedKeepsInv(server, stream, Complete(c, Reading), bytes);
    }
  }

  lemma HandshakeKeepsInv(server: Server, stream: string, c: Conn, ec: Completion)
    requires ConnInv(server, stream, c) && Handshaking in c.ops
    ensures var a := OnHandshake(c, ec);
            ConnInv(server, stream, a.conn) && |a.conn.ops| == (if ec == Success then 1 else 0)
  {
    OnlyOne(c.ops, Handshaking);
  }

  lemma WrittenKeepsInv(server: Server, stream: string, c: Conn, ec: Completion)
    requires ConnInv(server, stream, c) && Writing in c.ops
    ensures ConnInv(server, stream, OnWritten(c, ec).conn) && OnWritten(c, ec).conn.ops == multiset{}
  {
    OnlyOne(c.ops, Writing);
  }

  lemma CloseKeepsInv(server: Server, stream: string, c: Conn)
    requires ConnInv(server, stream, c)
    ensures ConnInv(server, stream, Close(c))
  {
  }

  lemma NewSettled(server: Server, stream: string, tls: bool)
    ensures Settled(server, stream, OnStart(NewConn(), tls), true)
  {
  }

  lemma StoppedSettled(server: Server, stream: string, c: Conn, managed: bool)
    requires Settled(server, stream, c, managed)
    ensures Settled(server, stream, Close(c), false)
  {
    CloseKeepsInv(server, stream, c);
  }

  lemma HandshakeSettles(server: Server, stream: string, c: Conn, managed: bool, ec: Completion)
    requires Settled(server, stream, c, managed) && Handshaking in c.ops && Possible(c, ec)
    ensures var a := OnHandshake(c, ec);
            Settled(server, stream, Ended(a), managed && !a.stop)
  {
    HandshakeKeepsInv(server, stream, c, ec);
    CloseKeepsInv(server, stream, OnHandshake(c, ec).conn);
  }

  lemma ReadSettles(server: Server, stream: string, c: Conn, managed: bool, ec: Completion, bytes: string)
    requires Settled(server, stream, c, managed) && Reading in c.ops && Possible(c, ec)
    requires ec == Success ==> c.fed + bytes <= stream
    ensures c.machine.Safe()
    ensures var a := OnRead(server, c, ec, bytes);
            Settled(server, stream, Ended(a), managed && !a.stop)
  {
    ReadKeepsInv(server, stream, c, ec, bytes);
    CloseKeepsInv(server, stream, OnRead(server, c, ec, bytes).conn);
  }

  /** The bytes fed so far are all of the stream that matters. */
  lemma ReadSettlesItself(server: Server, c: Conn, managed: bool, ec: Completion, bytes: string)
    requires Settled(server, c.fed, c, managed) && Reading in c.ops && Possible(c, ec)
    ensures c.machine.Safe()
    ensures var a := OnRead(server, c, ec, bytes);
            Settled(server, Ended(a).fed, Ended(a), managed && !a.stop)
  {
    var stream := if ec == Success then c.fed + bytes else c.fed;
    ReadSettles(server, stream, c, managed, ec, bytes);
  }

  lemma WriteSettles(server: Server, stream: string, c: Conn, managed: bool, ec: Completion)
    requires Settled(server, stream, c, managed) && Writing in c.ops && Possible(c, ec)
    ensures var a := OnWritten(c, ec);
            Settled(server, stream, Ended(a), managed && !a.stop)
  {
    WrittenKeepsInv(server, stream, c, ec);
    CloseKeepsInv(server, stream, OnWritten(c, ec).conn);
  }

  lemma StartedKeepsInv(server: Server, streams: nat -> string, sys: System, id: nat, tls: bool)
    requires SysInv(server, streams, sys) && id !in sys.conns
    ensures SysInv(server, streams, System(sys.conns[id := OnStart(NewConn(), tls)], sys.managed + {id}))
  {
    NewSettled(server, streams(id), tls);
  }

  lemma StopAllKeepsInv(server: Server, streams: nat -> string, sys: System)
    requires SysInv(server, streams, sys)
    ensures SysInv(server, streams, StopAll(sys))
  {
    forall id | id in sys.conns ensures Settled(server, streams(id), Close(sys.conns[id]), false) {
      StoppedSettled(server, streams(id), sys.conns[id], id in sys.managed);
    }
  }

  lemma FinishKeepsInv(server: Server, streams: nat -> string, sys: System, id: nat, a: After)
    requires SysInv(server, streams, sys) && id in sys.conns
    requires Settled(server, streams(id), Ended(a), id in sys.managed && !a.stop)
    ensures SysInv(server, streams, Finish(sys, id, a))
  {
    var next := Finish(sys, id, a);
    forall other | other in next.conns
      ensures Settled(server, streams(other), next.conns[other], other in next.managed)
    {
      if other != id {
        assert next.conns[other] == sys.conns[other];
      }
    }
  }

  lemma NextKeepsInv(server: Server, streams: nat -> string, sys: System, ev: Event)
    requires SysInv(server, streams, sys) && SafeSystem(sys) && Enabled(streams, sys, ev)
    ensures SysInv(server, streams, Next(server, sys, ev))
  {
    match ev
    case Started(id, tls) => StartedKeepsInv(server, streams, sys, id, tls);
    case HandshakeDone(id, ec) =>
      HandshakeSettles(server, streams(id), sys.conns[id], id in sys.managed, ec);
      FinishKeepsInv(server, streams, sys, id, OnHandshake(sys.conns[id], ec));
    case ReadDone(id, ec, bytes) =>
      ReadSettles(server, streams(id), sys.conns[id], id in sys.managed, ec, bytes);
      FinishKeepsInv(server, streams, sys, id, OnRead(server, sys.conns[id], ec, bytes));
    case WriteDone(id, ec) =>
      WriteSettles(server, streams(id), sys.conns[id], id in sys.managed, ec);
      FinishKeepsInv(server, streams, sys, id, OnWritten(sys.conns[id], ec));
    case AllStopped => StopAllKeepsInv(server, streams, sys);
  }

  /** In every reachable state: a started connection is managed exactly when its
      socket is open, a managed connection has exactly one outstanding operation and
      an unmanaged one at most one, and every connection's parser and reply agree
      with the bytes it was fed. */
  lemma {:induction false} ReachableInv(server: Server, streams: nat -> string, evs: seq<Event>, sys: System)
    requires Reaches(server, streams, evs, sys)
    ensures SysInv(server, streams, sys) && SafeSystem(sys)
    decreases |evs|
  {
    if evs != [] {
      var before :| Reaches(server, streams, evs[..|evs| - 1], before)
                    && SafeSystem(before) && Enabled(streams, before, evs[|evs| - 1])
                    && sys == Next(server, before, evs[|evs| - 1]);
      ReachableInv(server, streams, evs[..|evs| - 1], before);
      NextKeepsInv(server, streams, before, evs[|evs| - 1]);
    }
  }

  // Refinement of a one-shot server

  /** The length of the shortest prefix of the stream that decides. */
  ghost predicate DecidesAt(stream: string, n: nat) {
    n <= |stream| && Run(FRESH, stream[..n]).Decided() && forall k: nat | k < n :: !Run(FRESH, stream[..k]).Decided()
  }

  lemma FedDecides(stream: string, fed: string)
    requires fed <= stream && Run(FRESH, fed).Decided()
    ensures var n := Run(FRESH, fed).consumed;
            DecidesAt(stream, n) && Run(FRESH, stream[..n]) == Run(FRESH, fed)
  {
    var n := Run(FRESH, fed).consumed;
    assert stream == fed + stream[|fed|..];
    RunAppend(FRESH, fed, stream[|fed|..]);
    ShortestDecision(FRESH, stream, n);
    forall k: nat | k < n ensures !Run(FRESH, stream[..k]).Decided() {
      ShortestDecision(FRESH, stream, k);
    }
  }

  /** Whatever the interleaving and the division into reads: a connection that has
      been fed a deciding prefix of its own stream has started one reply, which is
      the one-shot server's answer to the shortest such prefix; any other
      connection has started none. */
  lemma RefinesOneShot(server: Server, streams: nat -> string, evs: seq<Event>, sys: System, id: nat)
    requires Reaches(server, streams, evs, sys) && id in sys.conns
    ensures var c := sys.conns[id];
            if Run(FRESH, c.fed).Decided()
            then exists n: nat :: DecidesAt(streams(id), n)
                             && c.writes == [Answer(server, Run(FRESH, streams(id)[..n]))]
            else c.writes == []
  {
    ReachableInv(server, streams, evs, sys);
    var c := sys.conns[id];
    if Run(FRESH, c.fed).Decided() {
      FedDecides(streams(id), c.fed);
    }
  }

  /** A connection that may still receive bytes has not answered, and its parser
      has not decided. */
  lemma NeverFedAfterDecision(server: Server, streams: nat -> string, evs: seq<Event>, sys: System, ev: Event)
    requires Reaches(server, streams, evs, sys) && Enabled(streams, sys, ev) && ev.ReadDone?
    ensures sys.conns[ev.id].writes == [] && !Run(FRESH, sys.conns[ev.id].fed).Decided()
  {
    ReachableInv(server, streams, evs, sys);
  }

  /** Every reply that is started can be read back from its bytes. If it answers a
      HEAD request that a static entry served, it is the reply to GET without its
      body; any other states its own length. */
  lemma WritesDecodable(server: Server, streams: nat -> string, evs: seq<Event>, sys: System, id: nat, rep: ReplyData)
    requires Reaches(server, streams, evs, sys) && id in sys.conns && Content.WellBehaved(server.world)
    requires rep in sys.conns[id].writes
    ensures ReadReply(Serialize(rep)) == Message(Code(rep.status), Reason(Code(rep.status)), rep.headers, rep.content)
    ensures var o := Run(FRESH, sys.conns[id].fed);
            if o.result == Good && Router.StaticHead(server.table, o.machine.req)
            then rep == Router.Route(server.world, server.table, o.machine.req, BLANK_REPLY)
                 && Router.HeadOfGet(server.world, server.table, o.machine.req, BLANK_REPLY)
            else Framed(rep)
  {
    ReachableInv(server, streams, evs, sys);
    var c := sys.conns[id];
    var o := Run(FRESH, c.fed);
    assert rep == Answer(server, o);
    if o.result == Good {
      AcceptedUri(c.fed);
      Router.RouteDecodable(server.world, server.table, o.machine.req, BLANK_REPLY);
      Router.RouteFramed(server.world, server.table, o.machine.req, BLANK_REPLY);
    } else {
      StockPlain(BadRequest);
      StockShown(BadRequest);
    }
    ReplyRoundTrip(rep);
  }

  /** In every run, a connection that was sent bytes no request starts with tells its
      client 400, and nothing else. */
  lemma BadInputTold(server: Server, streams: nat -> string, evs: seq<Event>, sys: System, id: nat)
    requires Reaches(server, streams, evs, sys) && id in sys.conns
    requires Run(FRESH, sys.conns[id].fed).result == Bad
    ensures |sys.conns[id].writes| == 1 && Tells(sys.conns[id].writes[0], 400)
  {
    ReachableInv(server, streams, evs, sys);
    StockTells(sys.conns[id].writes[0], BadRequest, 400);
  }

  /** An accepted request's target is free of CR, so it may be echoed in a header. */
  lemma AcceptedUri(w: string)
    requires Run(FRESH, w).result == Good
    ensures '\r' !in Run(FRESH, w).machine.req.uri
  {
    var n := Run(FRESH, w).consumed;
    ShortestDecision(FRESH, w, n);
    var t := RequestLanguage.AcceptedTree(FRESH, w[..n]);
    forall i | 0 <= i < |t.uri| ensures t.uri[i] != '\r' {
      assert !IsCtl(t.uri[i]);
    }
  }

  // Termination

  /** Completions an operation can lead to, itself included, with `unread` bytes to come. */
  function Cost(op: Op, unread: int): int {
    match op
    case Handshaking => unread + 2
    case Reading => unread + 1
    case Writing => 1
  }

  /** Completions still possible, summed over the outstanding operations. */
  function Pending(c: Conn, stream: string): int {
    var unread := |stream| - |c.fed|;
    c.ops[Handshaking] * Cost(Handshaking, unread)
    + c.ops[Reading] * Cost(Reading, unread)
    + c.ops[Writing] * Cost(Writing, unread)
  }

  lemma PendingOfOne(c: Conn, stream: string, op: Op)
    ensures c.ops == multiset{} ==> Pending(c, stream) == 0
    ensures c.ops == multiset{op} ==> Pending(c, stream) == Cost(op, |stream| - |c.fed|)
  {
  }

  predicate Completes(ev: Event, id: nat) {
    !ev.Started? && !ev.AllStopped? && ev.id == id
  }

  function Completions(evs: seq<Event>, id: nat): nat {
    if evs == [] then 0
    else Completions(evs[..|evs| - 1], id) + if Completes(evs[|evs| - 1], id) then 1 else 0
  }

  lemma ReadDecreases(server: Server, stream: string, c: Conn, ec: Completion, bytes: string)
    requires c.ops == multiset{Reading} && c.machine.Safe() && c.fed <= stream
    requires ec == Success ==> 1 <= |bytes| && c.fed + bytes <= stream
    ensures 0 <= Pending(OnRead(server, c, ec, bytes).conn, stream) < Pending(c, stream)
  {
    var d := OnRead(server, c, ec, bytes).conn;
    PendingOfOne(c, stream, Reading);
    PendingOfOne(d, stream, if Writing in d.ops then Writing else Reading);
    assert c.ops - multiset{Reading} == multiset{};
    assert ec != Success ==> d.ops == multiset{};
  }

  lemma HandshakeDecreases(stream: string, c: Conn, ec: Completion)
    requires c.ops == multiset{Handshaking} && c.fed <= stream
    ensures 0 <= Pending(OnHandshake(c, ec).conn, stream) < Pending(c, stream)
  {
    var d := OnHandshake(c, ec).conn;
    assert d.ops == if ec == Success then multiset{Reading} else multiset{};
    PendingOfOne(c, stream, Handshaking);
    PendingOfOne(d, stream, Reading);
  }

  lemma WrittenDecreases(stream: string, c: Conn, ec: Completion)
    requires c.ops == multiset{Writing}
    ensures 0 <= Pending(OnWritten(c, ec).conn, stream) < Pending(c, stream)
  {
    assert OnWritten(c, ec).conn.ops == multiset{};
    PendingOfOne(c, stream, Writing);
    PendingOfOne(OnWritten(c, ec).conn, stream, Writing);
  }

  lemma ClosePending(c: Conn, stream: string)
    ensures Pending(Close(c), stream) == Pending(c, stream)
  {
  }

  /** Each completion of a connection uses up at least one of those possible. */
  lemma CompletionDecreases(server: Server, streams: nat -> string, sys: System, ev: Event)
    requires SafeSystem(sys) && Enabled(streams, sys, ev) && !ev.Started? && !ev.AllStopped?
    requires sys.conns[ev.id].fed <= streams(ev.id) && |sys.conns[ev.id].ops| <= 1
    ensures var next := Next(server, sys, ev);
            0 <= Pending(next.conns[ev.id], streams(ev.id)) < Pending(sys.conns[ev.id], streams(ev.id))
  {
    var c, stream := sys.conns[ev.id], streams(ev.id);
    match ev
    case ReadDone(id, ec, bytes) =>
      OnlyOne(c.ops, Reading);
      ReadDecreases(server, stream, c, ec, bytes);
      ClosePending(OnRead(server, c, ec, bytes).conn, stream);
    case HandshakeDone(id, ec) =>
      OnlyOne(c.ops, Handshaking);
      HandshakeDecreases(stream, c, ec);
      ClosePending(OnHandshake(c, ec).conn, stream);
    case WriteDone(id, ec) =>
      OnlyOne(c.ops, Writing);
      WrittenDecreases(stream, c, ec);
      ClosePending(OnWritten(c, ec).conn, stream);
  }

  lemma OthersUntouched(server: Server, streams: nat -> string, sys: System, ev: Event, id: nat)
    requires SafeSystem(sys) && Enabled(streams, sys, ev) && id in sys.conns && !Completes(ev, id)
    ensures var next := Next(server, sys, ev);
            id in next.conns && (next.conns[id] == sys.conns[id] || next.conns[id] == Close(sys.conns[id]))
  {
  }

  lemma NewcomerPending(server: Server, streams: nat -> string, sys: System, ev: Event, id: nat)
    requires SafeSystem(sys) && Enabled(streams, sys, ev) && id !in sys.conns
    ensures !Completes(ev, id)
    ensures id in Next(server, sys, ev).conns ==>
              Pending(Next(server, sys, ev).conns[id], streams(id))
              == |streams(id)| + if ev == Started(id, true) then 2 else 1
  {
    var c := OnStart(NewConn(), ev == Started(id, true));
    PendingOfOne(c, streams(id), if ev == Started(id, true) then Handshaking else Reading);
  }

  /** One completion for a handshake, one per byte if every read delivers just one,
      and one for the write or the failed read. */
  function Budget(evs: seq<Event>, stream: string, id: nat): nat {
    |stream| + if Started(id, true) in evs then 2 else 1
  }

  predicate WithinBudget(streams: nat -> string, evs: seq<Event>, sys: System, id: nat) {
    if id in sys.conns then Completions(evs, id) + Pending(sys.conns[id], streams(id)) <= Budget(evs, streams(id), id)
    else Completions(evs, id) == 0
  }

  lemma BudgetKept(server: Server, streams: nat -> string, evs: seq<Event>, sys: System, ev: Event, id: nat)
    requires WithinBudget(streams, evs, sys, id)
    requires SafeSystem(sys) && Enabled(streams, sys, ev)
    requires id in sys.conns ==> sys.conns[id].fed <= streams(id) && |sys.conns[id].ops| <= 1
    ensures WithinBudget(streams, evs + [ev], Next(server, sys, ev), id)
  {
    assert (evs + [ev])[..|evs|] == evs;
    if id !in sys.conns {
      NewcomerPending(server, streams, sys, ev, id);
    } else if Completes(ev, id) {
      CompletionDecreases(server, streams, sys, ev);
    } else {
      OthersUntouched(server, streams, sys, ev, id);
    }
  }

  lemma LastStep(server: Server, streams: nat -> string, evs: seq<Event>, sys: System, id: nat) returns (before: System)
    requires Reaches(server, streams, evs, sys) && evs != []
    ensures Reaches(server, streams, evs[..|evs| - 1], before)
    ensures WithinBudget(streams, evs[..|evs| - 1], before, id) ==> WithinBudget(streams, evs, sys, id)
  {
    var n := |evs| - 1;
    before :| Reaches(server, streams, evs[..n], before)
              && SafeSystem(before) && Enabled(streams, before, evs[n])
              && sys == Next(server, before, evs[n]);
    ReachableInv(server, streams, evs[..n], before);
    if WithinBudget(streams, evs[..n], before, id) {
      BudgetKept(server, streams, evs[..n], before, evs[n], id);
      assert evs == evs[..n] + [evs[n]];
    }
  }

  /** In every run, the completions a connection has had and those still possible
      never exceed its budget. */
  lemma {:induction false} FewCompletions(server: Server, streams: nat -> string, evs: seq<Event>, sys: System, id: nat)
    requires Reaches(server, streams, evs, sys)
    ensures WithinBudget(streams, evs, sys, id)
    decreases |evs|
  {
    if evs != [] {
      var before := LastStep(server, streams, evs, sys, id);
      FewCompletions(server, streams, evs[..|evs| - 1], before, id);
    }
  }

  lemma PendingNonNegative(c: Conn, stream: string)
    requires c.fed <= stream && |c.ops| <= 1
    ensures Pending(c, stream) >= 0
  {
    if op :| op in c.ops {
      OnlyOne(c.ops, op);
      PendingOfOne(c, stream, op);
    } else {
      assert c.ops == multiset{};
      PendingOfOne(c, stream, Reading);
    }
  }

  lemma ReachablePending(server: Server, streams: nat -> string, evs: seq<Event>, sys: System, id: nat)
    requires Reaches(server, streams, evs, sys) && id in sys.conns
    ensures Pending(sys.conns[id], streams(id)) >= 0
  {
    ReachableInv(server, streams, evs, sys);
    PendingNonNegative(sys.conns[id], streams(id));
  }

  lemma CompletionBound(server: Server, streams: nat -> string, evs: seq<Event>, sys: System, id: nat)
    requires Reaches(server, streams, evs, sys) && id in sys.conns
    ensures Completions(evs, id) <= |streams(id)| + if Started(id, true) in evs then 2 else 1
  {
    FewCompletions(server, streams, evs, sys, id);
    ReachablePending(server, streams, evs, sys, id);
  }

  /** A connection with nothing outstanding has left the manager, and an outstanding
      operation can always complete. */
  lemma FinishedOrAlive(server: Server, streams: nat -> string, evs: seq<Event>, sys: System, id: nat)
    requires Reaches(server, streams, evs, sys) && id in sys.conns
    ensures sys.conns[id].ops == multiset{} ==> id !in sys.managed && !sys.conns[id].open
    ensures sys.conns[id].ops != multiset{} ==> exists ev :: Completes(ev, id) && Enabled(streams, sys, ev)
  {
    ReachableInv(server, streams, evs, sys);
    var ops := sys.conns[id].ops;
    if ops != multiset{} {
      var op :| op in ops;
      var ev := match op
        case Handshaking => HandshakeDone(id, Failure)
        case Reading => ReadDone(id, Failure, "")
        case Writing => WriteDone(id, Failure);
      assert Completes(ev, id) && Enabled(streams, sys, ev);
    }
  }
}
