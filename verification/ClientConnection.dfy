/**
  * One client connection in src/main.cpp: what the read and the write handler do to it, as functions
  * of its state and of what the kernel delivers.
  */
module ClientConnection {
  import opened Http
  import opened Addresses

  const MAX_REQUEST_SIZE: nat := 8192

  datatype Connection = Connection(clientIp: Ip, readBuffer: string, writeBuffer: string)

  /** What epoll watches the descriptor for. */
  datatype Mask = In | Out

  /** One `recv`: octets (none at end of stream), or -1 with or without EAGAIN. */
  datatype Recv = Bytes(data: string) | RecvFailed(again: bool)

  /** One `send`: octets taken, or -1 with or without EAGAIN. */
  datatype Send = Taken(n: nat) | SendFailed(again: bool)

  datatype ReadEnd = Drained | Gone | TooLarge

  datatype ReadResult = ReadResult(buffer: string, end: ReadEnd)

  /** The receive loop. A script that runs out means EAGAIN. */
  function ReadAll(buffer: string, script: seq<Recv>): ReadResult
    decreases |script|
  {
    if script == [] then ReadResult(buffer, Drained)
    else
      match script[0]
      case RecvFailed(again) => ReadResult(buffer, if again then Drained else Gone)
      case Bytes(data) =>
        if data == [] then ReadResult(buffer, Gone)
        else if |buffer + data| > MAX_REQUEST_SIZE then ReadResult(buffer + data, TooLarge)
        else ReadAll(buffer + data, script[1..])
  }

  datatype WriteEnd = Emptied | WouldBlock | Failed

  datatype WriteResult = WriteResult(sent: string, rest: string, end: WriteEnd)

  /** The number of octets a `send` of `buffer` takes: never more than there are. */
  function TakenFrom(n: nat, buffer: string): nat {
    if n <= |buffer| then n else |buffer|
  }

  /** The send loop. */
  function WriteAll(buffer: string, script: seq<Send>): WriteResult
    decreases |script|
  {
    if buffer == [] then WriteResult([], [], Emptied)
    else if script == [] then WriteResult([], buffer, WouldBlock)
    else
      match script[0]
      case SendFailed(again) => WriteResult([], buffer, if again then WouldBlock else Failed)
      case Taken(n) =>
        if n == 0 then WriteResult([], buffer, Failed)
        else
          var k := TakenFrom(n, buffer);
          var later := WriteAll(buffer[k..], script[1..]);
          WriteResult(buffer[..k] + later.sent, later.rest, later.end)
  }

  // ---- The life of a connection ----

  datatype Reason = PeerGone | Oversized | Refused | BrokenSend | Completed | Idle

  /** The answer built for a request, with the values that went into it. */
  datatype Answer = Answer(totalRequests: nat, active: nat, metricsText: string, response: string)

  /**
    * What happened on a connection so far: all octets received, when its request was counted, the answer
    * built, the octets of it that were sent.
    */
  datatype Log = Log(
    fd: int,
    ip: Ip,
    received: string,
    countedAt: Option<int>,
    answer: Option<Answer>,
    sent: string,
    closed: Option<Reason>)

  datatype Slot = Slot(conn: Connection, mask: Mask, log: Log)

  function NewSlot(fd: int, ip: Ip): Slot {
    Slot(Connection(ip, [], []), In, Log(fd, ip, [], None, None, [], None))
  }

  function ResponseTo(request: string, totalRequests: nat, active: nat, metricsText: string): string {
    var page := PageFor(PathOf(request), totalRequests, active, metricsText);
    OkResponse(page.contentType, page.body)
  }

  /** What the handler looks up once a request is complete; `now` is when the tracker records it. */
  datatype Context = Context(now: int, totalRequests: nat, active: nat, metricsText: string, refused: bool)

  function Close(s: Slot, reason: Reason): Slot {
    s.(log := s.log.(closed := Some(reason)))
  }

  /** EPOLLIN on a connection. */
  function AfterRead(s: Slot, script: seq<Recv>, context: Context): Slot {
    var r := ReadAll(s.conn.readBuffer, script);
    var s1 := s.(conn := s.conn.(readBuffer := r.buffer), log := s.log.(received := r.buffer));
    match r.end
    case Gone => Close(s1, PeerGone)
    case TooLarge => Close(s1, Oversized)
    case Drained =>
      match RequestIn(r.buffer)
      case None => s1
      case Some(request) =>
        var s2 := s1.(log := s1.log.(countedAt := Some(context.now)));
        if context.refused then Close(s2, Refused) else Dispatch(s2, request, context)
  }

  /** A read event completes a request: everything was received and contains an empty line. */
  predicate Completes(conn: Connection, script: seq<Recv>) {
    var r := ReadAll(conn.readBuffer, script);
    r.end == Drained && RequestIn(r.buffer).Some?
  }

  function Dispatch(s: Slot, request: string, context: Context): Slot {
    var response := ResponseTo(request, context.totalRequests, context.active, context.metricsText);
    Slot(s.conn.(writeBuffer := response, readBuffer := []), Out,
         s.log.(answer := Some(Answer(context.totalRequests, context.active, context.metricsText, response))))
  }

  /** EPOLLOUT on a connection. */
  function AfterWrite(s: Slot, script: seq<Send>): Slot {
    var w := WriteAll(s.conn.writeBuffer, script);
    var s1 := s.(conn := s.conn.(writeBuffer := w.rest), log := s.log.(sent := s.log.sent + w.sent));
    match w.end
    case Failed => Close(s1, BrokenSend)
    case WouldBlock => s1
    case Emptied => Close(s1, Completed)
  }

  // ---- Invariants ----

  /** The answer is the one for the first complete request of the received stream. */
  ghost predicate AnswersRequest(log: Log) {
    && log.answer.Some?
    && RequestIn(log.received).Some?
    && var a := log.answer.value;
       a.response == ResponseTo(RequestIn(log.received).value, a.totalRequests, a.active, a.metricsText)
  }

  /** The two phases of an open connection, as they are between events. */
  ghost predicate Phase(s: Slot) {
    && s.log.closed.None? && |s.log.received| <= MAX_REQUEST_SIZE && s.log.ip == s.conn.clientIp
    && (s.log.countedAt.Some? <==> s.mask == Out)
    && (s.mask == In ==>
          && s.conn.writeBuffer == [] && s.conn.readBuffer == s.log.received
          && RequestIn(s.log.received).None? && s.log.answer.None? && s.log.sent == [])
    && (s.mask == Out ==>
          && s.conn.readBuffer == [] && s.conn.writeBuffer != []
          && AnswersRequest(s.log) && s.log.sent + s.conn.writeBuffer == s.log.answer.value.response)
  }

  /** What the way a connection ended says about it. */
  ghost predicate Closing(log: Log) {
    && log.closed.Some?
    && (log.answer.Some? ==> AnswersRequest(log) && log.sent <= log.answer.value.response)
    && (log.answer.None? ==> log.sent == [])
    && (log.countedAt.Some? <==> log.answer.Some? || log.closed.value == Refused)
    && match log.closed.value
       case PeerGone => log.answer.None? && |log.received| <= MAX_REQUEST_SIZE
       case Oversized => log.answer.None? && |log.received| > MAX_REQUEST_SIZE
       case Refused => log.answer.None? && RequestIn(log.received).Some?
       case BrokenSend => log.answer.Some? && log.sent != log.answer.value.response
       case Completed => log.answer.Some? && log.sent == log.answer.value.response
       case Idle => log.answer.Some? ==> log.sent != log.answer.value.response
  }

  ghost predicate SlotKept(s: Slot) {
    if s.log.closed.None? then Phase(s) else Closing(s.log)
  }

  /** Logs only grow, an answer is never replaced, and nothing happens after the end. */
  ghost predicate Extends(later: Log, earlier: Log) {
    && later.fd == earlier.fd && later.ip == earlier.ip
    && earlier.received <= later.received && earlier.sent <= later.sent
    && (earlier.answer.Some? ==> later.answer == earlier.answer && later.received == earlier.received)
    && (earlier.countedAt.Some? ==> later.countedAt == earlier.countedAt)
    && (earlier.closed.Some? ==> later == earlier)
  }
}
