/** Connections and their manager as objects. Each completion handler performs the
    step that Connection.dfy gives it, on its own connection and the manager only. */
module ConnectionObjects {
  import Text
  import RequestMachine
  import RequestParser
  import opened Reply
  import Router
  import opened Connection

  /** `base_connection`; `tls` tells `ssl_connection` from `plain_connection`. */
  class ConnectionObject {
    const tls: bool
    const parser: RequestParser.Parser
    const request: RequestParser.HttpRequest
    const reply: ReplyObject
    var open: bool
    /** Operations started and not yet completed. */
    ghost var ops: multiset<Op>
    ghost var fed: string
    ghost var writes: seq<ReplyData>

    constructor (tls: bool)
      ensures Data() == NewConn() && this.tls == tls
      ensures fresh(parser) && fresh(request) && fresh(reply)
    {
      this.tls := tls;
      parser := new RequestParser.Parser();
      request := new RequestParser.HttpRequest();
      reply := new ReplyObject();
      open, ops, fed, writes := true, multiset{}, "", [];
    }

    ghost function Data(): Conn
      reads this, parser, request, reply
    {
      Conn(open, ops, parser.Machine(request), reply.Data(), fed, writes)
    }

    /** Between handlers: in step with the bytes fed, and managed exactly while open. */
    ghost predicate IsSettled(server: Server, managed: bool)
      reads this, parser, request, reply
    {
      Settled(server, fed, Data(), managed)
    }

    twostate predicate Untouched()
      reads this, parser, request, reply
    {
      unchanged(this) && unchanged(parser) && unchanged(request) && unchanged(reply)
    }

    predicate Apart(other: ConnectionObject) {
      parser != other.parser && request != other.request && reply != other.reply
    }

    method Stop()
      modifies this`open
      ensures Data() == Close(old(Data()))
    {
      open := false;
    }

    method Start()
      modifies this`ops
      ensures Data() == OnStart(old(Data()), tls)
    {
      if tls {
        DoHandshake();
      } else {
        DoRead();
      }
    }

    method DoHandshake()
      modifies this`ops
      ensures Data() == Begin(old(Data()), Handshaking)
    {
      ops := ops + multiset{Handshaking};
    }

    method DoRead()
      modifies this`ops
      ensures Data() == Begin(old(Data()), Reading)
    {
      ops := ops + multiset{Reading};
    }

    /** Hands the reply's buffers to the socket. */
    method DoWrite() returns (buffers: seq<string>)
      modifies this`ops, this`writes
      ensures Data() == StartWrite(old(Data()), reply.Data())
      ensures Text.Flatten(buffers) == Serialize(reply.Data())
    {
      buffers := reply.ToBuffers();
      ops := ops + multiset{Writing};
      writes := writes + [reply.Data()];
    }

    method HandshakeCompleted(ec: Completion, manager: ConnectionManager)
      requires Handshaking in ops
      modifies this, manager`connections
      ensures Performed(old(Data()), OnHandshake(old(Data()), ec), old(manager.connections), manager)
    {
      ops := ops - multiset{Handshaking};
      if ec == Success {
        DoRead();
      } else {
        manager.StopOne(this);
      }
    }

    /** A successful read: parse, then answer or read on. */
    method ReceiveBytes(bytes: string, router: Router.PathRouter) returns (buffers: seq<string>)
      requires parser.Machine(request).Safe()
      modifies this`ops, this`fed, this`writes, parser, request, reply
      ensures var d := Received(Server(router.world, router.resources), old(Data()), bytes);
              && Data() == d
              && (if d.writes == old(writes) then buffers == [] else Text.Flatten(buffers) == Serialize(d.reply))
    {
      buffers := [];
      var result, _ := parser.Parse(request, bytes);
      fed := fed + bytes;
      if result == RequestMachine.Good {
        router.Handle(request, reply);
        buffers := DoWrite();
      } else if result == RequestMachine.Bad {
        reply.Assign(Stock(BadRequest));
        buffers := DoWrite();
      } else {
        DoRead();
      }
    }

    method ReadCompleted(ec: Completion, bytes: string, manager: ConnectionManager, router: Router.PathRouter)
      returns (buffers: seq<string>)
      requires Reading in ops && parser.Machine(request).Safe()
      modifies this, parser, request, reply, manager`connections
      ensures var a := OnRead(Server(router.world, router.resources), old(Data()), ec, bytes);
              && Performed(old(Data()), a, old(manager.connections), manager)
              && (if a.conn.writes == old(writes) then buffers == []
                  else Text.Flatten(buffers) == Serialize(a.conn.reply))
    {
      ops := ops - multiset{Reading};
      buffers := [];
      ghost var c := Data();
      assert c == Complete(old(Data()), Reading);
      if ec == Success {
        buffers := ReceiveBytes(bytes, router);
        assert Data() == Received(Server(router.world, router.resources), c, bytes);
      } else if ec != Aborted {
        manager.StopOne(this);
      }
    }

    method WriteCompleted(ec: Completion, manager: ConnectionManager)
      requires Writing in ops
      modifies this, manager`connections
      ensures Performed(old(Data()), OnWritten(old(Data()), ec), old(manager.connections), manager)
    {
      ops := ops - multiset{Writing};
      if ec != Aborted {
        manager.StopOne(this);
      }
    }

    /** This connection took the step `a`, and the manager lost it if it stopped. */
    ghost predicate Performed(before: Conn, a: After, managed: set<ConnectionObject>, manager: ConnectionManager)
      reads this, parser, request, reply, manager
    {
      && Data() == Ended(a)
      && manager.connections == (if a.stop then managed - {this} else managed)
    }
  }

  class ConnectionManager {
    var connections: set<ConnectionObject>
    /** All connections ever started. */
    ghost var started: set<ConnectionObject>

    ghost predicate Separate()
      reads this
    {
      && connections <= started
      && forall c, d | c in started && d in started && c != d :: c.Apart(d)
    }

    /** The connections started share no objects, and each is settled: in the set
        exactly while open, and then with one operation outstanding. */
    ghost predicate Valid(server: Server)
      reads this, started, set c | c in started :: c.parser
      reads set c | c in started :: c.request, set c | c in started :: c.reply
    {
      Separate() && forall c | c in started :: c.IsSettled(server, c in connections)
    }

    constructor ()
      ensures connections == started == {} && forall server :: Valid(server)
    {
      connections, started := {}, {};
    }

    /** A handler of `c` that leaves it settled keeps the manager valid. */
    twostate lemma StaysValid(server: Server, new c: ConnectionObject)
      requires old(Valid(server)) && started == old(started) && c in started
      requires connections == old(connections) || connections == old(connections) - {c}
      requires forall d | d in started && d != c :: d.Untouched()
      requires c.IsSettled(server, c in connections)
      ensures Valid(server)
    {
      forall d | d in started ensures d.IsSettled(server, d in connections) {
        if d != c {
          assert d.Untouched();
        }
      }
    }

    /** So does adding a new connection whose first operation was started. */
    twostate lemma GrowsValid(server: Server, new c: ConnectionObject)
      requires old(Valid(server)) && c !in old(started)
      requires started == old(started) + {c} && connections == old(connections) + {c}
      requires forall d | d in old(started) :: d.Untouched() && c.Apart(d) && d.Apart(c)
      requires c.IsSettled(server, true)
      ensures Valid(server)
    {
      forall d | d in started ensures d.IsSettled(server, d in connections) {
        if d != c {
          assert d.Untouched();
        }
      }
    }

    method StartOne(c: ConnectionObject)
      modifies this, c`ops
      ensures connections == old(connections) + {c} && started == old(started) + {c}
      ensures c.Data() == OnStart(old(c.Data()), c.tls)
    {
      connections, started := connections + {c}, started + {c};
      c.Start();
    }

    method StopOne(c: ConnectionObject)
      modifies this`connections, c`open
      ensures connections == old(connections) - {c}
      ensures c.Data() == Close(old(c.Data()))
    {
      connections := connections - {c};
      c.Stop();
    }

    method StopAll()
      modifies this`connections, connections`open
      ensures connections == {}
      ensures forall c | c in old(connections) :: c.Data() == Close(old(c.Data()))
    {
      var rest := connections;
      while rest != {}
        invariant rest <= connections == old(connections)
        invariant forall c | c in connections :: c.open == (c in rest && old(c.open))
        modifies connections`open
        decreases |rest|
      {
        var c :| c in rest;
        c.Stop();
        rest := rest - {c};
      }
      connections := {};
    }

    // What the event loop may do next: with `Valid` before, it holds again after

    /** A new connection is accepted. */
    method Accept(tls: bool, ghost server: Server) returns (c: ConnectionObject)
      requires Valid(server)
      modifies this
      ensures Valid(server) && started == old(started) + {c} && connections == old(connections) + {c}
    {
      c := new ConnectionObject(tls);
      StartOne(c);
      NewSettled(server, "", tls);
      GrowsValid(server, c);
    }

    /** The completion of an outstanding operation is delivered to its handler. */
    method DeliverHandshake(c: ConnectionObject, ec: Completion, ghost server: Server)
      requires Valid(server) && c in started && Handshaking in c.ops && Possible(c.Data(), ec)
      modifies this`connections, c
      ensures Valid(server) && c.Performed(old(c.Data()), OnHandshake(old(c.Data()), ec), old(connections), this)
    {
      HandshakeSettles(server, c.fed, c.Data(), c in connections, ec);
      c.HandshakeCompleted(ec, this);
      StaysValid(server, c);
    }

    method RunReadHandler(c: ConnectionObject, ec: Completion, bytes: string, router: Router.PathRouter)
      returns (buffers: seq<string>)
      requires Separate() && c in started && Reading in c.ops && c.Data().machine.Safe()
      modifies this`connections, c, c.parser, c.request, c.reply
      ensures var a := OnRead(Server(router.world, router.resources), old(c.Data()), ec, bytes);
              c.Performed(old(c.Data()), a, old(connections), this)
      ensures forall d | d in started && d != c :: d.Untouched()
    {
      buffers := c.ReadCompleted(ec, bytes, this, router);
      forall d | d in started && d != c ensures d.Untouched() {
        assert d.Apart(c);
        assert unchanged(d) && unchanged(d.parser) && unchanged(d.request) && unchanged(d.reply);
      }
    }

    method DeliverRead(c: ConnectionObject, ec: Completion, bytes: string, router: Router.PathRouter)
      returns (buffers: seq<string>)
      requires Valid(Server(router.world, router.resources))
      requires c in started && Reading in c.ops && Possible(c.Data(), ec)
      modifies this`connections, c, c.parser, c.request, c.reply
      ensures var server := Server(router.world, router.resources);
              && Valid(server)
              && c.Performed(old(c.Data()), OnRead(server, old(c.Data()), ec, bytes), old(connections), this)
    {
      ghost var server := Server(router.world, router.resources);
      ReadSettlesItself(server, c.Data(), c in connections, ec, bytes);
      buffers := RunReadHandler(c, ec, bytes, router);
      StaysValid(server, c);
    }

    method DeliverWrite(c: ConnectionObject, ec: Completion, ghost server: Server)
      requires Valid(server) && c in started && Writing in c.ops && Possible(c.Data(), ec)
      modifies this`connections, c
      ensures Valid(server) && c.Performed(old(c.Data()), OnWritten(old(c.Data()), ec), old(connections), this)
    {
      WriteSettles(server, c.fed, c.Data(), c in connections, ec);
      c.WriteCompleted(ec, this);
      StaysValid(server, c);
    }

    /** The destructor. */
    method Shutdown(ghost server: Server)
      requires Valid(server)
      modifies this`connections, connections`open
      ensures Valid(server) && connections == {}
    {
      StopAll();
      forall c | c in started ensures c.IsSettled(server, false) {
        if c in old(connections) {
          StoppedSettled(server, c.fed, old(c.Data()), true);
        }
      }
    }
  }
}
