/**
  * The event handler of src/main.cpp with the event loop of src/core/Reactor.cpp. The connection table
  * stands for ConnectionManager, which is not part of this model: `conns` is its map, and removing a
  * connection closes its descriptor, which also takes it out of epoll.
  */
module Server {
  import opened Http
  import opened HttpReader
  import opened Addresses
  import opened TimeWindows
  import opened RateTheorems
  import opened ClientConnection
  import opened ConnectionTheorems
  import opened ConnectionTable
  import opened RequestLedger
  import opened PageTheorems
  import opened Reactor
  import opened RateAdmission

  // ---- The loops of the two client handlers, on the text they append to or erase from ----

  method ReceiveLoop(initial: string, script: seq<Recv>) returns (buffer: string, end: ReadEnd)
    ensures ReadResult(buffer, end) == ReadAll(initial, script)
  {
    buffer := initial;
    var i := 0;
    while i < |script|
      invariant i <= |script| && ReadAll(buffer, script[i..]) == ReadAll(initial, script)
    {
      match script[i] {
        case RecvFailed(again) =>
          return buffer, if again then Drained else Gone;
        case Bytes(data) =>
          if data == [] {
            return buffer, Gone;
          }
          buffer := buffer + data;
          if |buffer| > MAX_REQUEST_SIZE {
            return buffer, TooLarge;
          }
      }
      assert script[i..][1..] == script[i + 1..];
      i := i + 1;
    }
    end := Drained;
  }

  /** The outcome of the send loop that has sent `sent` and still has `buffer` to send. */
  function Continue(sent: string, buffer: string, script: seq<Send>): WriteResult {
    var w := WriteAll(buffer, script);
    WriteResult(sent + w.sent, w.rest, w.end)
  }

  lemma ContinueTaken(sent: string, buffer: string, script: seq<Send>)
    requires buffer != [] && script != [] && script[0].Taken? && script[0].n > 0
    ensures var k := TakenFrom(script[0].n, buffer);
            Continue(sent, buffer, script) == Continue(sent + buffer[..k], buffer[k..], script[1..])
  {
    var k := TakenFrom(script[0].n, buffer);
    var later := WriteAll(buffer[k..], script[1..]);
    assert sent + (buffer[..k] + later.sent) == (sent + buffer[..k]) + later.sent;
  }

  lemma ContinueStops(sent: string, buffer: string, script: seq<Send>)
    requires buffer == [] || script == [] || script[0].SendFailed? || script[0].n == 0
    ensures Continue(sent, buffer, script) == WriteResult(sent, buffer, WriteAll(buffer, script).end)
  {
    assert sent + [] == sent;
  }

  method SendLoop(initial: string, script: seq<Send>) returns (buffer: string, end: WriteEnd, ghost sent: string)
    ensures buffer == WriteAll(initial, script).rest && end == WriteAll(initial, script).end
    ensures sent == WriteAll(initial, script).sent
  {
    buffer, sent := initial, [];
    var i := 0;
    assert script[0..] == script && Continue([], initial, script) == WriteAll(initial, script) by {
      assert [] + WriteAll(initial, script).sent == WriteAll(initial, script).sent;
    }
    while buffer != []
      invariant i <= |script|
      invariant Continue(sent, buffer, script[i..]) == WriteAll(initial, script)
      decreases |buffer|
    {
      if i == |script| {
        ContinueStops(sent, buffer, script[i..]);
        return buffer, WouldBlock, sent;
      }
      match script[i] {
        case SendFailed(again) =>
          ContinueStops(sent, buffer, script[i..]);
          return buffer, if again then WouldBlock else Failed, sent;
        case Taken(n) =>
          if n == 0 {
            ContinueStops(sent, buffer, script[i..]);
            return buffer, Failed, sent;
          }
          ContinueTaken(sent, buffer, script[i..]);
          assert script[i..][1..] == script[i + 1..];
          var k := TakenFrom(n, buffer);
          sent := sent + buffer[..k];
          buffer := buffer[k..];
      }
      i := i + 1;
    }
    ContinueStops(sent, buffer, script[i..]);
    end := Emptied;
  }

  /** What the outside supplies while one event is handled. */
  datatype Supply = Supply(queue: seq<Accept>, recvs: seq<Recv>, sends: seq<Send>, metricsText: string,
                           recordAt: int, askedAt: int)

  class Server {
    const serverFd: int
    const reactor: Reactor
    const gate: RateGate
    var conns: map<int, Connection>
    var totalRequests: nat
    // Identities and life stories of all connections, the answers given to clients turned away, and the
    // identities events were handled for.
    ghost var ids: map<int, nat>
    ghost var logs: seq<Log>
    ghost var turnedAway: seq<string>
    ghost var served: seq<nat>
    // The descriptors the handler was called with, -1 for the heartbeat; those it had to be called with after
    // each wait; and the number of waits.
    ghost var handled: seq<int>
    ghost var reported: seq<int>
    ghost var waits: nat

    ghost function Snapshot(): Table
      reads this`conns, this`ids, this`logs, reactor
    {
      Table(conns, reactor.watched, ids, logs)
    }

    /** The table is kept, and the logs agree with the request total and with what the rate check saw. */
    ghost predicate Valid()
      reads this, reactor, gate, gate.tracker
    {
      gate.Valid() && Consistent(Snapshot(), serverFd, totalRequests, gate.requests)
    }

    constructor (serverFd: int)
      ensures Valid() && fresh(reactor) && fresh(gate) && fresh(gate.tracker)
      ensures this.serverFd == serverFd && conns == map[] && logs == [] && served == []
      ensures handled == reported == []
    {
      this.serverFd := serverFd;
      reactor := new Reactor();
      gate := new RateGate();
      conns, totalRequests := map[], 0;
      ids, logs, turnedAway, served := map[], [], [], [];
      handled, reported, waits := [], [], 0;
      new;
      reactor.AddFd(serverFd, In);
      ConsistentAtFirst(serverFd);
      assert Snapshot() == Table(map[], map[serverFd := In], map[], []);
    }


    // ---- What every client event ends with ----

    /** removeFd and ConnectionManager::remove, or the new record and, after a dispatch, modifyFd. */
    method Write(fd: int, closed: bool, conn: Connection, mask: Mask, ghost s: Slot)
      requires Present(Snapshot(), fd)
      requires s.log.closed.Some? <==> closed
      requires !closed ==> s == Slot(conn, mask, s.log)
      modifies this`conns, this`ids, this`logs, reactor
      ensures Snapshot() == Put(old(Snapshot()), fd, s)
    {
      logs := logs[ids[fd] := s.log];
      if closed {
        ids := ids - {fd};
        reactor.RemoveFd(fd);
        conns := conns - {fd};
      } else {
        conns := conns[fd := conn];
        reactor.ModifyFd(fd, mask);
      }
    }

    // ---- EPOLLIN on a client ----

    method HandleRead(fd: int, script: seq<Recv>, metricsText: string, recordAt: int, askedAt: int)
      requires Valid() && (fd in conns ==> reactor.watched[fd] == In)
      requires 0 < recordAt && gate.clock <= recordAt <= askedAt
      modifies this`conns, this`ids, this`logs, this`served, this`turnedAway, this`totalRequests
      modifies reactor, gate, gate.tracker
      ensures Valid() && LogsGrow(old(logs), logs)
      ensures fd !in old(conns) ==>
                && Snapshot() == old(Snapshot()) && served == old(served) && turnedAway == old(turnedAway)
                && totalRequests == old(totalRequests) && gate.requests == old(gate.requests)
      ensures fd in old(conns) ==>
                && Snapshot() == Put(old(Snapshot()), fd, AfterRead(SlotAt(old(Snapshot()), fd), script,
                                       old(ContextFor(fd, metricsText, Request(recordAt, askedAt)))))
                && served == old(served) + [old(ids)[fd]]
      ensures fd in old(conns) ==>
                var completes := Completes(old(conns)[fd], script);
                && turnedAway == old(turnedAway)
                                 + Refusal(completes, old(ContextFor(fd, metricsText, Request(recordAt, askedAt))))
                && CountedIf(completes, old(totalRequests), old(gate.requests),
                             old(conns)[fd].clientIp, Request(recordAt, askedAt))
      ensures (fd in old(conns) && Completes(old(conns)[fd], script)
               && !Refuses(old(gate.requests), old(conns)[fd].clientIp, Request(recordAt, askedAt))) ==>
                AnsweredWith(old(ids)[fd], old(totalRequests) + 1, |old(conns)|, metricsText)
    {
      if fd !in conns {
        GrowsReflexive(logs);
        return;
      }
      OpenIsPresent(Snapshot(), serverFd, fd);
      ReadKeeps(Snapshot(), serverFd, fd, script, ContextFor(fd, metricsText, Request(recordAt, askedAt)),
                totalRequests, gate.requests, Request(recordAt, askedAt));
      ReadClient(fd, script, metricsText, recordAt, askedAt);
    }

    /** The page was built with the request total after this request, the open connections, and this text. */
    ghost predicate AnsweredWith(k: nat, total: nat, active: nat, metricsText: string)
      reads this
    {
      && k < |logs| && logs[k].answer.Some?
      && var a := logs[k].answer.value;
         a.totalRequests == total && a.active == active && a.metricsText == metricsText
    }

    method ReadClient(fd: int, script: seq<Recv>, metricsText: string, recordAt: int, askedAt: int)
      requires Present(Snapshot(), fd) && reactor.watched[fd] == In && logs[ids[fd]].closed.None?
      requires gate.Valid() && 0 < recordAt && gate.clock <= recordAt <= askedAt
      modifies this`conns, this`ids, this`logs, this`served, this`turnedAway, this`totalRequests
      modifies reactor, gate, gate.tracker
      ensures gate.Valid() && served == old(served) + [old(ids)[fd]]
      ensures Snapshot() == Put(old(Snapshot()), fd, AfterRead(SlotAt(old(Snapshot()), fd), script,
                                  old(ContextFor(fd, metricsText, Request(recordAt, askedAt)))))
      ensures var completes := Completes(old(conns)[fd], script);
        && turnedAway == old(turnedAway)
                         + Refusal(completes, old(ContextFor(fd, metricsText, Request(recordAt, askedAt))))
        && CountedIf(completes, old(totalRequests), old(gate.requests),
                     old(conns)[fd].clientIp, Request(recordAt, askedAt))
      ensures (Completes(old(conns)[fd], script)
               && !Refuses(old(gate.requests), old(conns)[fd].clientIp, Request(recordAt, askedAt))) ==>
                AnsweredWith(old(ids)[fd], old(totalRequests) + 1, |old(conns)|, metricsText)
    {
      ghost var s, context := SlotAt(Snapshot(), fd), ContextFor(fd, metricsText, Request(recordAt, askedAt));
      var closed, conn, mask := ReadFrom(conns[fd], s, script, metricsText, recordAt, askedAt, context);
      served := served + [ids[fd]];
      Write(fd, closed, conn, mask, AfterRead(s, script, context));
    }

    /** Receive, look for a request, count and check it, answer it. */
    method ReadFrom(conn: Connection, ghost s: Slot, script: seq<Recv>, metricsText: string,
                    recordAt: int, askedAt: int, ghost context: Context)
      returns (closed: bool, next: Connection, mask: Mask)
      requires gate.Valid() && 0 < recordAt && gate.clock <= recordAt <= askedAt
      requires s.conn == conn && s.mask == In && s.log.closed.None?
      requires context == ContextOf(conn.clientIp, metricsText, Request(recordAt, askedAt))
      modifies this`totalRequests, this`turnedAway, gate, gate.tracker
      ensures gate.Valid()
      ensures turnedAway == old(turnedAway) + Refusal(Completes(conn, script), context)
      ensures var after := AfterRead(s, script, context);
              (after.log.closed.Some? <==> closed) && (!closed ==> next == after.conn && mask == after.mask)
      ensures CountedIf(Completes(conn, script), old(totalRequests), old(gate.requests),
                        conn.clientIp, Request(recordAt, askedAt))
    {
      var buffer, end := ReceiveLoop(conn.readBuffer, script);
      var headerEnd := FindHeaderEnd(buffer);
      var refused := false;
      if end == Drained && headerEnd.Some? {
        refused := CountRequest(conn.clientIp, recordAt, askedAt);
      }
      closed, next, mask := end != Drained || refused, conn, In;
      if !closed {
        next, mask := Respond(conn, buffer, headerEnd, metricsText);
      }
    }

    /** A complete request is counted and goes through the rate check. */
    method CountRequest(ip: Ip, recordAt: int, askedAt: int) returns (refused: bool)
      requires gate.Valid() && 0 < recordAt && gate.clock <= recordAt <= askedAt
      modifies this`totalRequests, this`turnedAway, gate, gate.tracker
      ensures gate.Valid()
      ensures CountedIf(true, old(totalRequests), old(gate.requests), ip, Request(recordAt, askedAt))
      ensures turnedAway == old(turnedAway) + if refused then [TOO_MANY] else []
      ensures refused <==> Refuses(old(gate.requests), ip, Request(recordAt, askedAt))
    {
      totalRequests := totalRequests + 1;
      refused := gate.Exceeds(ip, recordAt, askedAt);
      if refused {
        turnedAway := turnedAway + [TOO_MANY];
      }
    }

    /** The total and the rate check's history after an event that completes a request, or does not. */
    ghost predicate CountedIf(completes: bool, total: nat, requests: map<Ip, seq<Request>>, ip: Ip, r: Request)
      reads this, gate
    {
      && totalRequests == TotalAfter(total, completes)
      && gate.requests == RequestsAfter(requests, completes, ip, r)
    }

    /** What goes into the answer to a request that completes now, and whether the rate check refuses it. */
    ghost function ContextFor(fd: int, metricsText: string, r: Request): Context
      requires fd in conns
      reads this, gate
    {
      ContextOf(conns[fd].clientIp, metricsText, r)
    }

    ghost function ContextOf(ip: Ip, metricsText: string, r: Request): Context
      reads this, gate
    {
      Context(r.at, totalRequests + 1, |conns|, metricsText, Refuses(gate.requests, ip, r))
    }

    /** Keep what came, or build the answer and wait for EPOLLOUT. */
    method Respond(conn: Connection, buffer: string, headerEnd: Option<nat>, metricsText: string)
      returns (next: Connection, mask: Mask)
      requires headerEnd == FindHeaderEnd(buffer)
      ensures headerEnd.None? ==> next == conn.(readBuffer := buffer) && mask == In
      ensures headerEnd.Some? ==> mask == Out
      ensures headerEnd.Some? ==>
                var response := ResponseTo(RequestIn(buffer).value, totalRequests, |conns|, metricsText);
                next == conn.(readBuffer := [], writeBuffer := response)
    {
      next, mask := conn.(readBuffer := buffer), In;
      if headerEnd.Some? {
        var page := PageFor(PathOf(buffer[..headerEnd.value + 4]), totalRequests, |conns|, metricsText);
        next := next.(writeBuffer := OkResponse(page.contentType, page.body));
        next := next.(readBuffer := []);
        mask := Out;
      }
    }

    // ---- EPOLLOUT on a client ----

    method HandleWrite(fd: int, script: seq<Send>)
      requires Valid() && (fd in conns ==> reactor.watched[fd] == Out)
      modifies this`conns, this`ids, this`logs, this`served, reactor
      ensures Valid()
      ensures fd !in old(conns) ==> Snapshot() == old(Snapshot()) && served == old(served)
      ensures fd in old(conns) ==>
                && Snapshot() == Put(old(Snapshot()), fd, AfterWrite(SlotAt(old(Snapshot()), fd), script))
                && served == old(served) + [old(ids)[fd]]
      ensures LogsGrow(old(logs), logs)
    {
      if fd !in conns {
        GrowsReflexive(logs);
        return;
      }
      OpenIsPresent(Snapshot(), serverFd, fd);
      WriteKeeps(Snapshot(), serverFd, fd, script, totalRequests, gate.requests);
      WriteClient(fd, script);
    }

    method WriteClient(fd: int, script: seq<Send>)
      requires Present(Snapshot(), fd) && reactor.watched[fd] == Out && logs[ids[fd]].closed.None?
      modifies this`conns, this`ids, this`logs, this`served, reactor
      ensures Snapshot() == Put(old(Snapshot()), fd, AfterWrite(SlotAt(old(Snapshot()), fd), script))
      ensures served == old(served) + [old(ids)[fd]]
    {
      ghost var s := SlotAt(Snapshot(), fd);
      var conn := conns[fd];
      ghost var sent;
      var buffer, end;
      buffer, end, sent := SendLoop(conn.writeBuffer, script);
      WriteConserves(conn.writeBuffer, script);
      served := served + [ids[fd]];
      Write(fd, end == Failed || buffer == [], conn.(writeBuffer := buffer), Out, AfterWrite(s, script));
    }

    // ---- EPOLLIN on the listening socket ----

    method AcceptOne(a: Accept)
      requires Valid() && a.fd !in conns && a.fd != serverFd
      modifies this`conns, this`ids, this`logs, this`turnedAway, reactor
      ensures Valid() && Snapshot() == AfterAccept(old(Snapshot()), a)
      ensures turnedAway == old(turnedAway) + AnswerTo(old(Snapshot()), a)
    {
      AcceptingKeeps(Snapshot(), serverFd, a, totalRequests, gate.requests);
      Admit(a);
    }

    /** The limit, the blacklist, then the new connection. */
    method Admit(a: Accept)
      requires a.fd !in reactor.watched
      modifies this`conns, this`ids, this`logs, this`turnedAway, reactor
      ensures Snapshot() == AfterAccept(old(Snapshot()), a)
      ensures turnedAway == old(turnedAway) + AnswerTo(old(Snapshot()), a)
    {
      if |conns| >= MAX_CONNECTIONS {
        turnedAway := turnedAway + [UNAVAILABLE];
      } else if a.blocked {
        turnedAway := turnedAway + [FORBIDDEN];
      } else {
        reactor.AddFd(a.fd, In);
        conns := conns[a.fd := Connection(a.ip, [], [])];
        ids := ids[a.fd := |logs|];
        logs := logs + [NewSlot(a.fd, a.ip).log];
      }
    }

    /** Accept until the queue is empty. */
    method HandleAccept(queue: seq<Accept>)
      requires Valid() && FreshDescriptors(conns.Keys, serverFd, queue)
      modifies this`conns, this`ids, this`logs, this`turnedAway, reactor
      ensures Valid() && Snapshot() == AfterAccepts(old(Snapshot()), queue)
      ensures turnedAway == old(turnedAway) + AnswersTo(old(Snapshot()), queue)
      ensures LogsGrow(old(logs), logs)
    {
      AcceptsKeep(Snapshot(), serverFd, queue);
      ghost var goal, answers := AfterAccepts(Snapshot(), queue), turnedAway + AnswersTo(Snapshot(), queue);
      var i := 0;
      while i < |queue|
        invariant i <= |queue| && Valid()
        invariant Accepting(Snapshot(), serverFd, turnedAway, queue[i..], goal, answers)
      {
        assert queue[i..][1..] == queue[i + 1..];
        AcceptingNext(Snapshot(), serverFd, turnedAway, queue[i..], goal, answers);
        AcceptOne(queue[i]);
        i := i + 1;
      }
    }

    // ---- The heartbeat ----

    /** sweepIdle: which connections are idle is the table's business; closing them unwatches them. */
    method HandleHeartbeat(idle: seq<int>)
      requires Valid()
      modifies this`conns, this`ids, this`logs, this`handled, reactor
      ensures Valid() && LogsGrow(old(logs), logs)
      ensures handled == old(handled) + [-1]
      ensures Snapshot() == AfterSweep(old(Snapshot()), idle)
      ensures Swept(old(conns).Keys, conns.Keys, idle)
    {
      GrowsReflexive(logs);
      SweepAll(Snapshot(), idle);
      handled := handled + [-1];
    }

    method SweepAll(ghost start: Table, idle: seq<int>)
      requires Valid() && start == Snapshot() && LogsGrow(start.logs, logs)
      modifies this`conns, this`ids, this`logs, reactor
      ensures Valid() && SweptSoFar(start, idle)
    {
      var i := 0;
      assert idle[..0] == [];
      while i < |idle|
        invariant i <= |idle| && Valid() && SweptSoFar(start, idle[..i])
      {
        assert idle[..i + 1] == idle[..i] + [idle[i]];
        SweepNext(start, idle[..i], idle[i]);
        i := i + 1;
      }
      assert idle[..i] == idle;
    }

    ghost predicate SweptSoFar(start: Table, swept: seq<int>)
      reads this, reactor
    {
      && Snapshot() == AfterSweep(start, swept) && LogsGrow(start.logs, logs)
      && Swept(start.conns.Keys, conns.Keys, swept)
    }

    method SweepNext(ghost start: Table, ghost swept: seq<int>, fd: int)
      requires Valid() && SweptSoFar(start, swept)
      modifies this`conns, this`ids, this`logs, reactor
      ensures Valid() && SweptSoFar(start, swept + [fd])
    {
      SweepOne(fd);
      GrowsTransitive(start.logs, old(logs), logs);
      SweptNext(start.conns.Keys, old(conns).Keys, swept, fd);
      AfterSweepSnoc(start, swept, fd);
    }

    method SweepOne(fd: int)
      requires Valid()
      modifies this`conns, this`ids, this`logs, reactor
      ensures Valid() && LogsGrow(old(logs), logs)
      ensures Snapshot() == AfterSweepOf(old(Snapshot()), fd)
      ensures conns.Keys == old(conns).Keys - {fd}
    {
      if fd !in conns {
        GrowsReflexive(logs);
        return;
      }
      OpenIsPresent(Snapshot(), serverFd, fd);
      SweepKeeps(Snapshot(), serverFd, fd, totalRequests, gate.requests);
      Write(fd, true, conns[fd], In, Close(SlotAt(Snapshot(), fd), Idle));
    }

    // ---- One event ----

    /** What an event makes of the table. */
    ghost function Handled(e: Event, world: Supply): Table
      requires e.fd != serverFd ==> Bound(Snapshot(), e.fd)
      reads this, reactor, gate
    {
      var t := Snapshot();
      if e.fd == serverFd then AfterAccepts(t, world.queue)
      else if e.readable then
        var context := ContextFor(e.fd, world.metricsText, Request(world.recordAt, world.askedAt));
        Put(t, e.fd, AfterRead(SlotAt(t, e.fd), world.recvs, context))
      else if e.writable then Put(t, e.fd, AfterWrite(SlotAt(t, e.fd), world.sends))
      else t
    }

    /** The answers an event sends at once to clients it turns away. */
    ghost function SentAtOnce(e: Event, world: Supply): seq<string>
      requires e.fd != serverFd ==> Bound(Snapshot(), e.fd)
      reads this, reactor, gate
    {
      if e.fd == serverFd then AnswersTo(Snapshot(), world.queue)
      else if e.readable then
        Refusal(Completes(conns[e.fd], world.recvs),
                ContextFor(e.fd, world.metricsText, Request(world.recordAt, world.askedAt)))
      else []
    }

    /** The handler's dispatch on the descriptor and the reported bits. */
    method HandleEvent(e: Event, world: Supply)
      requires Valid() && FreshDescriptors(conns.Keys, serverFd, world.queue)
      requires 0 < world.recordAt && gate.clock <= world.recordAt <= world.askedAt
      requires e.fd != serverFd ==> e.fd in conns && Bound(Snapshot(), e.fd)
      requires e.fd != serverFd && e.readable ==> reactor.watched[e.fd] == In
      requires e.fd != serverFd && e.writable ==> reactor.watched[e.fd] == Out
      modifies this`conns, this`ids, this`logs, this`served, this`turnedAway, this`totalRequests, this`handled
      modifies reactor, gate, gate.tracker
      ensures Valid() && LogsGrow(old(logs), logs)
      ensures served == if ForClient(e, serverFd) then old(served) + [old(ids)[e.fd]] else old(served)
      ensures handled == old(handled) + [e.fd]
      ensures turnedAway == old(turnedAway) + old(SentAtOnce(e, world))
      ensures Snapshot() == old(Handled(e, world)) && UntouchedExcept(old(Snapshot()), Snapshot(), e.fd)
    {
      Dispatch(e, world);
      handled := handled + [e.fd];
    }

    method Dispatch(e: Event, world: Supply)
      requires Valid() && FreshDescriptors(conns.Keys, serverFd, world.queue)
      requires 0 < world.recordAt && gate.clock <= world.recordAt <= world.askedAt
      requires e.fd != serverFd ==> e.fd in conns && Bound(Snapshot(), e.fd)
      requires e.fd != serverFd && e.readable ==> reactor.watched[e.fd] == In
      requires e.fd != serverFd && e.writable ==> reactor.watched[e.fd] == Out
      modifies this`conns, this`ids, this`logs, this`served, this`turnedAway, this`totalRequests
      modifies reactor, gate, gate.tracker
      ensures Valid() && LogsGrow(old(logs), logs)
      ensures served == if ForClient(e, serverFd) then old(served) + [old(ids)[e.fd]] else old(served)
      ensures turnedAway == old(turnedAway) + old(SentAtOnce(e, world))
      ensures Snapshot() == old(Handled(e, world)) && UntouchedExcept(old(Snapshot()), Snapshot(), e.fd)
    {
      HandledLeavesOthers(e, world);
      if e.fd == serverFd {
        HandleAccept(world.queue);
      } else if e.readable {
        HandleRead(e.fd, world.recvs, world.metricsText, world.recordAt, world.askedAt);
      } else if e.writable {
        HandleWrite(e.fd, world.sends);
      } else {
        GrowsReflexive(logs);
      }
    }

    lemma HandledLeavesOthers(e: Event, world: Supply)
      requires Valid() && FreshDescriptors(conns.Keys, serverFd, world.queue)
      requires e.fd != serverFd ==> Bound(Snapshot(), e.fd)
      ensures UntouchedExcept(Snapshot(), Handled(e, world), e.fd)
    {
      var t := Snapshot();
      if e.fd == serverFd {
        AcceptsKeep(t, serverFd, world.queue);
      } else if e.readable {
        var context := ContextFor(e.fd, world.metricsText, Request(world.recordAt, world.askedAt));
        PutLeavesOthers(t, serverFd, e.fd, AfterRead(SlotAt(t, e.fd), world.recvs, context));
      } else if e.writable {
        PutLeavesOthers(t, serverFd, e.fd, AfterWrite(SlotAt(t, e.fd), world.sends));
      } else {
        InsideTable(t, serverFd);
      }
    }

    // ---- The event loop ----

    /** One batch: every client event is handled for the connection it was reported for. */
    method RunBatch(events: seq<Event>)
      requires Valid() && Reported(reactor.watched, serverFd, events)
      modifies this`conns, this`ids, this`logs, this`served, this`turnedAway, this`totalRequests, this`handled
      modifies reactor, gate, gate.tracker
      ensures Valid() && LogsGrow(old(logs), logs)
      ensures ClientsKnown(old(ids), serverFd, events)
      ensures served == old(served) + Identities(old(ids), serverFd, events, |events|)
      ensures handled == old(handled) + Descriptors(events, |events|)
    {
      AllThereAtFirst(Snapshot(), serverFd, events);
      GrowsReflexive(logs);
      NothingDone(Snapshot(), serverFd, events, Calls(served, handled));
      HandleAll(Snapshot(), Calls(served, handled), events);
    }

    method HandleAll(ghost start: Table, ghost c0: Calls, events: seq<Event>)
      requires Valid() && Onward(start, Snapshot(), serverFd, events, 0)
      requires forall j, k :: 0 <= j < k < |events| ==> events[j].fd != events[k].fd
      requires Done(start, serverFd, events, 0, c0, Calls(served, handled))
      modifies this`conns, this`ids, this`logs, this`served, this`turnedAway, this`totalRequests, this`handled
      modifies reactor, gate, gate.tracker
      ensures Valid() && Onward(start, Snapshot(), serverFd, events, |events|)
      ensures Done(start, serverFd, events, |events|, c0, Calls(served, handled))
    {
      var i := 0;
      while i < |events|
        invariant i <= |events| && Valid() && Onward(start, Snapshot(), serverFd, events, i)
        invariant Done(start, serverFd, events, i, c0, Calls(served, handled))
      {
        HandleNext(start, c0, events, i);
        i := i + 1;
      }
    }

    method HandleInAnyWorld(e: Event)
      requires Valid()
      requires e.fd != serverFd ==> e.fd in conns && e.fd in ids
      requires e.fd != serverFd && e.readable ==> reactor.watched[e.fd] == In
      requires e.fd != serverFd && e.writable ==> reactor.watched[e.fd] == Out
      modifies this`conns, this`ids, this`logs, this`served, this`turnedAway, this`totalRequests, this`handled
      modifies reactor, gate, gate.tracker
      ensures Valid() && LogsGrow(old(logs), logs)
      ensures served == if ForClient(e, serverFd) then old(served) + [old(ids)[e.fd]] else old(served)
      ensures handled == old(handled) + [e.fd]
      ensures UntouchedExcept(old(Snapshot()), Snapshot(), e.fd)
    {
      if e.fd != serverFd {
        OpenIsPresent(Snapshot(), serverFd, e.fd);
      }
      var world := Environment(conns.Keys, gate.clock);
      HandleEvent(e, world);
    }

    method HandleNext(ghost start: Table, ghost c0: Calls, events: seq<Event>, i: nat)
      requires i < |events| && Valid() && Onward(start, Snapshot(), serverFd, events, i)
      requires forall j, k :: 0 <= j < k < |events| ==> events[j].fd != events[k].fd
      requires Done(start, serverFd, events, i, c0, Calls(served, handled))
      modifies this`conns, this`ids, this`logs, this`served, this`turnedAway, this`totalRequests, this`handled
      modifies reactor, gate, gate.tracker
      ensures Valid() && Onward(start, Snapshot(), serverFd, events, i + 1)
      ensures Done(start, serverFd, events, i + 1, c0, Calls(served, handled))
    {
      ghost var before, c := Snapshot(), Calls(served, handled);
      HandleInAnyWorld(events[i]);
      DoneNext(start, before, serverFd, events, i, c0, c, Calls(served, handled));
      OnwardNext(start, before, Snapshot(), serverFd, events, i);
    }

    /**
      * Reactor::run for any number of rounds: a heartbeat when nothing happened, otherwise the batch. The
      * handler is called for all that was reported and nothing else, in order.
      */
    method Run(rounds: nat)
      requires Valid() && handled == reported
      modifies this, reactor, gate, gate.tracker
      ensures Valid() && LogsGrow(old(logs), logs)
      ensures handled == reported && waits == old(waits) + rounds
    {
      GrowsReflexive(logs);
      for round := 0 to rounds
        invariant Valid() && LogsGrow(old(logs), logs)
        invariant handled == reported && waits == old(waits) + round
      {
        ghost var before := logs;
        Round();
        GrowsTransitive(old(logs), before, logs);
      }
    }

    method Round()
      requires Valid() && handled == reported
      modifies this, reactor, gate, gate.tracker
      ensures Valid() && LogsGrow(old(logs), logs)
      ensures handled == reported && waits == old(waits) + 1
    {
      var events := Wait();
      if events == [] {
        var idle := *;
        HandleHeartbeat(idle);
      } else {
        RunBatch(events);
      }
    }

    /** epoll_wait: any answer it may give. */
    method Wait() returns (events: seq<Event>)
      modifies this`reported, this`waits
      ensures Reported(reactor.watched, serverFd, events)
      ensures waits == old(waits) + 1
      ensures reported == old(reported) + if events == [] then [-1] else Descriptors(events, |events|)
    {
      events := *;
      if !Reported(reactor.watched, serverFd, events) {
        events := [];
      }
      waits := waits + 1;
      reported := reported + if events == [] then [-1] else Descriptors(events, |events|);
    }

    /** What the kernel, the clients and the clock may do while an event is handled. */
    method Environment(open: set<int>, clock: int) returns (world: Supply)
      requires 0 <= clock
      ensures FreshDescriptors(open, serverFd, world.queue)
      ensures 0 < world.recordAt && clock <= world.recordAt <= world.askedAt
    {
      world := *;
      if !FreshDescriptors(open, serverFd, world.queue) {
        world := world.(queue := []);
      }
      if !(0 < world.recordAt && clock <= world.recordAt <= world.askedAt) {
        world := world.(recordAt := clock + 1, askedAt := clock + 1);
      }
    }

    /**
      * However the server has run: of an address, at most 101 requests recorded in one second were answered,
      * and in any period exactly as many were answered, or counted at all, as the rate check admitted or saw.
      */
    lemma AnswersBounded(ip: Ip, t: int)
      requires Valid()
      ensures InLogs(Query(ip, t, t + SECOND - 1, true), logs) <= 101
      ensures forall q :: InLogs(q, logs) == InRequests(q, gate.requests)
    {
      assert Tracked(gate.tracker.history, gate.requests, gate.clock, ip);
      RequestLedger.AnswersBounded(logs, totalRequests, gate.requests, ip, t);
    }

    /** However the server has run: a completed client received one well-formed message with its page. */
    lemma CompletedAreDelivered(k: nat)
      requires Valid() && k < |logs| && logs[k].closed == Some(Completed)
      ensures RequestIn(logs[k].received).Some? && logs[k].answer.Some?
      ensures var a := logs[k].answer.value;
              var page := PageFor(PathOf(RequestIn(logs[k].received).value), a.totalRequests, a.active, a.metricsText);
              ReadResponse(logs[k].sent) == Message("HTTP/1.1 200 OK", page.body, [])
    {
      assert LogKept(Snapshot(), k);
      CompletedMeansDelivered(logs[k]);
    }

    /** ... and if its stream began with a request line, that is the answer to the target of the line. */
    lemma CompletedByTarget(k: nat, verb: string, target: string, after: string)
      requires Valid() && k < |logs| && logs[k].closed == Some(Completed)
      requires IsWord(verb) && IsWord(target) && logs[k].received == verb + (" " + (target + (" " + after)))
      ensures logs[k].answer.Some?
      ensures var a := logs[k].answer.value;
              AnswersTarget(logs[k].sent, target, a.totalRequests, a.active, a.metricsText)
    {
      assert LogKept(Snapshot(), k);
      AnswerByTarget(logs[k], verb, target, after);
    }

    /** There are never more than 1000 connections, and epoll watches them and the listener, nothing else. */
    lemma ConnectionsAreLimited()
      requires Valid()
      ensures |conns| <= 1000 && reactor.watched.Keys == conns.Keys + {serverFd}
    {
    }
  }
}
