/** The server object: its registry of connected clients, the run flag
    that stops it, the log it keeps, and one round of the per-client
    handler. Sockets are connection numbers, what recv returns is a
    sequence of chunks, and the request that pickle would rebuild from the
    payload comes in beside the chunks. */
module BulletinServer {
  import opened Wrappers
  import opened Strings
  import opened Framing
  import opened Messages
  import opened Store

  /** A client's (ip, port) pair. */
  datatype Address = Address(ip: string, port: int)

  /** A socket, by identity. */
  type Conn = nat

  /** A value assigned to the run property. */
  datatype Assigned = Bool(b: bool) | NotBool

  /** One line of server.log: who asked, for what, and the status. */
  datatype LogEntry = LogEntry(client: Address, command: string, status: string)

  /** One response dictionary sent on a connection. */
  datatype Sent = Sent(conn: Conn, response: Response)

  /** How one round of the client handler ended. */
  datatype Step =
    | NotRunning          // the run flag was already off
    | ClientLeft          // the client closed; its connection is closed and forgotten
    | Crashed(lockHeld: bool)   // an uncaught exception ended the thread
    | Blocked             // recv waits for more bytes that never come
    | Halted              // the store was unhealthy; the server stops
    | Replied(response: Response)

  class Server {
    const address: Address
    var conns: map<Address, Conn>
    var run: bool
    var listening: bool
    var closed: seq<Conn>
    var log: seq<LogEntry>
    var sent: seq<Sent>

    /** __init__ followed by a successful make_socket: the listening
        socket is bound and open. */
    constructor (ip: string, port: int)
      ensures address == Address(ip, port)
      ensures conns == map[] && run && listening
      ensures closed == [] && log == [] && sent == []
    {
      address := Address(ip, port);
      conns := map[];
      run := true;
      listening := true;
      closed := [];
      log := [];
      sent := [];
    }

    /** The run setter: anything but a bool is ignored. */
    method SetRun(value: Assigned)
      modifies this`run
      ensures run == if value.Bool? then value.b else old(run)
    {
      if value.Bool? {
        run := value.b;
      }
    }

    /** listen_out: an accepted connection is registered under the client's
        address; a timeout changes nothing. */
    method ListenOut(accepted: Option<(Conn, Address)>) returns (r: Option<(Conn, Address)>)
      modifies this`conns
      ensures r == accepted
      ensures accepted.Some? ==> conns == old(conns)[accepted.value.1 := accepted.value.0]
      ensures accepted.None? ==> conns == old(conns)
    {
      if accepted.Some? {
        var (conn, client) := accepted.value;
        conns := conns[client := conn];
      }
      r := accepted;
    }

    /** client_disconnect: closes the client's connection and forgets it;
        an unknown client raises KeyError, which leaves everything as it
        was (found is false). */
    method ClientDisconnect(client: Address) returns (found: bool)
      modifies this`conns, this`closed
      ensures found <==> client in old(conns)
      ensures found ==> conns == old(conns) - {client} && closed == old(closed) + [old(conns)[client]]
      ensures !found ==> conns == old(conns) && closed == old(closed)
    {
      found := client in conns;
      if found {
        closed := closed + [conns[client]];
        conns := conns - {client};
      }
    }

    /** shut_down: every registered connection is closed and forgotten,
        the listening socket is closed, and the process exits with 1. */
    method ShutDown() returns (exitCode: int)
      modifies this`conns, this`closed, this`listening
      ensures conns == map[] && !listening && exitCode == 1
      ensures |closed| == |old(closed)| + |old(conns)|
      ensures closed[..|old(closed)|] == old(closed)
      ensures forall a :: a in old(conns) ==> old(conns)[a] in closed[|old(closed)|..]
      ensures forall c :: c in closed[|old(closed)|..] ==> exists a :: a in old(conns) && old(conns)[a] == c
    {
      ghost var before := conns;
      ghost var start := |closed|;
      while conns != map[]
        invariant conns.Keys <= before.Keys
        invariant forall a :: a in conns ==> conns[a] == before[a]
        invariant |closed| == start + |before| - |conns|
        invariant closed[..start] == old(closed)
        invariant forall a :: a in before && a !in conns ==> before[a] in closed[start..]
        invariant forall c :: c in closed[start..] ==> exists a :: a in before && before[a] == c
        decreases |conns|
      {
        var a :| a in conns;
        ghost var prev := closed;
        assert |conns - {a}| == |conns| - 1;
        var found := ClientDisconnect(a);
        assert closed[..start] == prev[..start];
        assert forall b :: b in before && b !in conns && b != a ==> before[b] in prev[start..];
        assert closed[start..] == prev[start..] + [before[a]];
      }
      listening := false;
      exitCode := 1;
    }

    /** log: appends one entry; the clock reading is left out. */
    method Log(client: Address, command: string, status: string)
      modifies this`log
      ensures log == old(log) + [LogEntry(client, command, status)]
    {
      log := log + [LogEntry(client, command, status)];
    }

    /** send_data: the response dictionary goes out on the connection. */
    method SendData(conn: Conn, response: Response)
      modifies this`sent
      ensures sent == old(sent) + [Sent(conn, response)]
    {
      sent := sent + [Sent(conn, response)];
    }

    /** One round of handle_client for a client on `conn`. The chunks are
        what recv returns, `request` is the dictionary pickle rebuilds from
        the payload, and the store is read and written under the lock. */
    method HandleOnce(conn: Conn, client: Address, chunks: seq<seq<byte>>, request: Request,
                      store: BoardStore, listing: Listing, now: Timestamp) returns (step: Step)
      requires store.root.Some? ==> Lists(listing, store.root.value)
      modifies this`conns, this`closed, this`run, this`log, this`sent, store
      ensures !old(run) ==> step == NotRunning && unchanged(this, store)
      ensures old(run) ==> var got := Reassemble([], None, DataEvents(chunks));
        && (got.Starved? ==> step == Blocked && unchanged(this, store))
        && (got.BadHeader? ==> step == Crashed(false) && unchanged(this, store))
        && (got.Disconnected? || (got.Payload? && request == map[]) ==>
              unchanged(store) && log == old(log) && sent == old(sent) && run == old(run)
              && (client in old(conns) ==>
                    step == ClientLeft && conns == old(conns) - {client}
                    && closed == old(closed) + [old(conns)[client]])
              && (client !in old(conns) ==> step == Crashed(false) && unchanged(this)))
        && (got.Payload? && request != map[] && "Command" !in request ==>
              step == Crashed(false) && unchanged(this, store))
      ensures old(run) && Reassemble([], None, DataEvents(chunks)).Payload? && request != map[]
              && "Command" in request && !CheckForBoards(old(store.root), listing.boards) ==>
        && step == Halted && !run
        && log == old(log) + [LogEntry(client, request["Command"], "ERROR")]
        && sent == old(sent) && conns == old(conns) && closed == old(closed) && unchanged(store)
      ensures old(run) && Reassemble([], None, DataEvents(chunks)).Payload? && request != map[]
              && "Command" in request && CheckForBoards(old(store.root), listing.boards) ==>
        var outcome := Dispatch(request, old(store.root).value, listing, now);
        && conns == old(conns) && closed == old(closed) && run == old(run)
        && (outcome.Raised? ==> step == Crashed(true) && log == old(log) && sent == old(sent) && unchanged(store))
        && (outcome.Returned? ==>
              && step == Replied(outcome.value.response)
              && store.root == Some(outcome.value.boards)
              && sent == old(sent) + [Sent(conn, outcome.value.response)]
              && log == old(log) + [LogEntry(client, request["Command"], outcome.value.response.status)])
    {
      if !run {
        return NotRunning;
      }
      var got := GetData(chunks);
      if got.Starved? {
        return Blocked;
      }
      if got.BadHeader? {
        return Crashed(false);
      }
      if got.Disconnected? || request == map[] {
        var found := ClientDisconnect(client);
        if found {
          return ClientLeft;
        } else {
          return Crashed(false);
        }
      }
      if "Command" !in request {
        return Crashed(false);
      }
      var command := request["Command"];
      if !CheckForBoards(store.root, listing.boards) {
        SetRun(Bool(false));
        Log(client, command, "ERROR");
        return Halted;
      }
      step := Answer(conn, client, request, store, listing, now);
    }

    /** The healthy-store part of a round: the command switch, then the
        reply and the log line; loading that raises ends the thread with
        the lock held, before anything is sent or logged. */
    method Answer(conn: Conn, client: Address, request: Request,
                  store: BoardStore, listing: Listing, now: Timestamp) returns (step: Step)
      requires "Command" in request
      requires store.root.Some? && Lists(listing, store.root.value)
      modifies this`sent, this`log, store
      ensures var outcome := Dispatch(request, old(store.root).value, listing, now);
        && (outcome.Raised? ==> step == Crashed(true) && log == old(log) && sent == old(sent) && unchanged(store))
        && (outcome.Returned? ==>
              && step == Replied(outcome.value.response)
              && store.root == Some(outcome.value.boards)
              && sent == old(sent) + [Sent(conn, outcome.value.response)]
              && log == old(log) + [LogEntry(client, request["Command"], outcome.value.response.status)])
    {
      var command := request["Command"];
      var response: Response;
      if command == "GET_BOARDS" {
        response := Response("OK", BoardList(ListBoards(listing.boards)));
      } else if command == "GET_MESSAGES" {
        var loaded := store.GetMessages(request, listing);
        if loaded.Raised? {
          return Crashed(true);
        }
        response := loaded.value;
      } else if command == "POST_MESSAGE" {
        response := store.PostMessage(request, now);
      } else {
        response := Response("ERROR", Text(InvalidCommand));
      }
      SendData(conn, response);
      Log(client, command, response.status);
      step := Replied(response);
    }
  }
}
