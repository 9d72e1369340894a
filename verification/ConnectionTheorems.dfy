/** Every event keeps the phases; chunking does not matter; every octet of an answer is sent once, in order. */
module ConnectionTheorems {
  import opened Http
  import opened HttpReader
  import opened Addresses
  import opened ClientConnection

  lemma {:induction false} ReadAllGrows(buffer: string, script: seq<Recv>)
    requires |buffer| <= MAX_REQUEST_SIZE
    ensures var r := ReadAll(buffer, script);
      && buffer <= r.buffer
      && (r.end == TooLarge <==> |r.buffer| > MAX_REQUEST_SIZE)
    decreases |script|
  {
    if script != [] && script[0].Bytes? && script[0].data != [] {
      var grown := buffer + script[0].data;
      if |grown| <= MAX_REQUEST_SIZE {
        ReadAllGrows(grown, script[1..]);
        PrefixTransitive(buffer, grown, ReadAll(grown, script[1..]).buffer);
      }
    }
  }

  lemma PrefixTransitive(a: string, b: string, c: string)
    requires a <= b <= c
    ensures a <= c
  {
  }

  lemma ReadKeepsPhase(s: Slot, script: seq<Recv>, context: Context)
    requires Phase(s) && s.mask == In
    ensures SlotKept(AfterRead(s, script, context)) && Extends(AfterRead(s, script, context).log, s.log)
  {
    ReadAllGrows(s.conn.readBuffer, script);
    var r := ReadAll(s.conn.readBuffer, script);
    if r.end == Drained && RequestIn(r.buffer).Some? && !context.refused {
      var request := RequestIn(r.buffer).value;
      ResponseNotEmpty(request, context);
      var s' := AfterRead(s, script, context);
      assert s'.log.sent + s'.conn.writeBuffer == s'.conn.writeBuffer;
    }
  }

  lemma ResponseNotEmpty(request: string, context: Context)
    ensures ResponseTo(request, context.totalRequests, context.active, context.metricsText) != []
  {
    var page := PageFor(PathOf(request), context.totalRequests, context.active, context.metricsText);
    OkLine();
  }

  /** Conservation: the octets sent followed by the ones still buffered are the octets there were. */
  lemma {:induction false} WriteConserves(buffer: string, script: seq<Send>)
    ensures var w := WriteAll(buffer, script);
      && w.sent + w.rest == buffer
      && (w.end == Emptied <==> w.rest == [])
    decreases |script|
  {
    if buffer != [] && script != [] && script[0].Taken? && script[0].n > 0 {
      var k := TakenFrom(script[0].n, buffer);
      WriteConserves(buffer[k..], script[1..]);
      var later := WriteAll(buffer[k..], script[1..]);
      JoinAgain(buffer, k, later.sent, later.rest);
    }
  }

  // ---- How the send loop ends ----

  function AsSends(sizes: seq<nat>): seq<Send> {
    if sizes == [] then [] else [Taken(sizes[0])] + AsSends(sizes[1..])
  }

  function Total(sizes: seq<nat>): nat {
    if sizes == [] then 0 else sizes[0] + Total(sizes[1..])
  }

  lemma TakenThenMore(buffer: string, k: nat, n: nat)
    requires k + n <= |buffer|
    ensures buffer[..k] + buffer[k..][..n] == buffer[..k + n] && buffer[k..][n..] == buffer[k + n..]
  {
  }

  /** After these sends, fewer octets than there are, the next one fails or takes nothing. */
  lemma {:induction false} SentThen(buffer: string, sizes: seq<nat>, last: Send, unused: seq<Send>)
    requires forall i :: 0 <= i < |sizes| ==> sizes[i] > 0
    requires (last.SendFailed? || last == Taken(0)) && Total(sizes) < |buffer|
    ensures var k := Total(sizes);
            WriteAll(buffer, AsSends(sizes) + ([last] + unused))
            == WriteResult(buffer[..k], buffer[k..], if last == SendFailed(true) then WouldBlock else Failed)
    decreases |sizes|
  {
    var script := AsSends(sizes) + ([last] + unused);
    if sizes == [] {
      assert script[0] == last && buffer[..0] == [] && buffer[0..] == buffer;
    } else {
      var n := sizes[0];
      assert script[0] == Taken(n) && script[1..] == AsSends(sizes[1..]) + ([last] + unused);
      SentThen(buffer[n..], sizes[1..], last, unused);
      TakenThenMore(buffer, n, Total(sizes[1..]));
    }
  }

  /** These sends are enough for all octets. */
  lemma {:induction false} SentAll(buffer: string, sizes: seq<nat>, unused: seq<Send>)
    requires forall i :: 0 <= i < |sizes| ==> sizes[i] > 0
    requires Total(sizes) >= |buffer|
    ensures WriteAll(buffer, AsSends(sizes) + unused) == WriteResult(buffer, [], Emptied)
    decreases |sizes|
  {
    if buffer != [] {
      var script, n := AsSends(sizes) + unused, sizes[0];
      assert script[0] == Taken(n) && script[1..] == AsSends(sizes[1..]) + unused;
      var k := TakenFrom(n, buffer);
      SentAll(buffer[k..], sizes[1..], unused);
      assert buffer[..k] + buffer[k..] == buffer;
    }
  }

  /**
    * What a write event does: when everything is sent it closes the connection as completed; before that,
    * EAGAIN leaves exactly the rest for the next event, and an error closes it as broken.
    */
  lemma WriteOutcome(s: Slot, sizes: seq<nat>, last: Send, unused: seq<Send>)
    requires Phase(s) && s.mask == Out && (last.SendFailed? || last == Taken(0))
    requires forall i :: 0 <= i < |sizes| ==> sizes[i] > 0
    ensures var s', k := AfterWrite(s, AsSends(sizes) + ([last] + unused)), Total(sizes);
      if k >= |s.conn.writeBuffer| then s'.log.closed == Some(Completed) && s'.log.sent == s.log.answer.value.response
      else
        && s'.log.sent == s.log.sent + s.conn.writeBuffer[..k]
        && if last == SendFailed(true) then
             s'.log.closed.None? && s'.mask == Out && s'.conn.writeBuffer == s.conn.writeBuffer[k..]
           else s'.log.closed == Some(BrokenSend)
  {
    if Total(sizes) >= |s.conn.writeBuffer| {
      SentAll(s.conn.writeBuffer, sizes, [last] + unused);
    } else {
      SentThen(s.conn.writeBuffer, sizes, last, unused);
      PartWritten(s, AsSends(sizes) + ([last] + unused), Total(sizes), last == SendFailed(true));
    }
  }

  lemma PartWritten(s: Slot, script: seq<Send>, k: nat, again: bool)
    requires s.log.closed.None? && s.mask == Out && k < |s.conn.writeBuffer|
    requires WriteAll(s.conn.writeBuffer, script)
          == WriteResult(s.conn.writeBuffer[..k], s.conn.writeBuffer[k..], if again then WouldBlock else Failed)
    ensures var s' := AfterWrite(s, script);
      && s'.log.sent == s.log.sent + s.conn.writeBuffer[..k]
      && if again then s'.log.closed.None? && s'.mask == Out && s'.conn.writeBuffer == s.conn.writeBuffer[k..]
         else s'.log.closed == Some(BrokenSend)
  {
  }

  lemma JoinAgain(buffer: string, k: nat, a: string, b: string)
    requires k <= |buffer| && a + b == buffer[k..]
    ensures (buffer[..k] + a) + b == buffer
  {
    assert (buffer[..k] + a) + b == buffer[..k] + (a + b);
  }

  lemma WriteKeepsPhase(s: Slot, script: seq<Send>)
    requires Phase(s) && s.mask == Out
    ensures SlotKept(AfterWrite(s, script)) && Extends(AfterWrite(s, script).log, s.log)
  {
    var w := WriteAll(s.conn.writeBuffer, script);
    WriteConserves(s.conn.writeBuffer, script);
    assert s.log.sent + (w.sent + w.rest) == (s.log.sent + w.sent) + w.rest;
  }

  lemma SweepKeepsPhase(s: Slot)
    requires Phase(s)
    ensures SlotKept(Close(s, Idle)) && Extends(Close(s, Idle).log, s.log)
  {
  }

  /** A client whose connection completed has received one well-formed message carrying exactly the page. */
  lemma CompletedMeansDelivered(log: Log)
    requires Closing(log) && log.closed == Some(Completed)
    ensures RequestIn(log.received).Some? && log.answer.Some?
    ensures var a := log.answer.value;
            var page := PageFor(PathOf(RequestIn(log.received).value), a.totalRequests, a.active, a.metricsText);
            ReadResponse(log.sent) == Message("HTTP/1.1 200 OK", page.body, [])
  {
    var a := log.answer.value;
    PagesAreFramed(PathOf(RequestIn(log.received).value), a.totalRequests, a.active, a.metricsText);
  }

  // ---- Whole connections ----

  datatype ConnEvent = Readable(recvs: seq<Recv>, context: Context) | Writable(sends: seq<Send>) | Sweep

  /** One event; epoll reports only what the mask asks for, and nothing after the descriptor is closed. */
  function Happen(s: Slot, e: ConnEvent): Slot {
    if s.log.closed.Some? then s
    else
      match e
      case Readable(recvs, context) => if s.mask == In then AfterRead(s, recvs, context) else s
      case Writable(sends) => if s.mask == Out then AfterWrite(s, sends) else s
      case Sweep => Close(s, Idle)
  }

  function Life(fd: int, ip: Ip, events: seq<ConnEvent>): Slot {
    if events == [] then NewSlot(fd, ip) else Happen(Life(fd, ip, events[..|events| - 1]), events[|events| - 1])
  }

  lemma {:induction false} LifeKeepsPhase(fd: int, ip: Ip, events: seq<ConnEvent>)
    ensures SlotKept(Life(fd, ip, events))
  {
    if events == [] {
      assert Life(fd, ip, []).log.received == "";
    } else {
      LifeKeepsPhase(fd, ip, events[..|events| - 1]);
      var s, e := Life(fd, ip, events[..|events| - 1]), events[|events| - 1];
      HappenKeeps(s, e);
    }
  }

  lemma HappenKeeps(s: Slot, e: ConnEvent)
    requires SlotKept(s)
    ensures SlotKept(Happen(s, e)) && Extends(Happen(s, e).log, s.log)
  {
    if s.log.closed.None? {
      match e
      case Readable(recvs, context) => if s.mask == In { ReadKeepsPhase(s, recvs, context); }
      case Writable(sends) => if s.mask == Out { WriteKeepsPhase(s, sends); }
      case Sweep => SweepKeepsPhase(s);
    }
  }

  // ---- Chunk independence ----

  /** The first empty line of a prefix is the first one of the whole stream. */
  lemma RequestOfPrefix(received: string, stream: string)
    requires received <= stream && RequestIn(received).Some?
    ensures RequestIn(stream) == RequestIn(received)
  {
    var i := FindHeaderEnd(received).value;
    var j := FindHeaderEnd(stream);
    assert EndsHeaderAt(stream, i);
    assert j.Some? && j.value <= i;
    assert EndsHeaderAt(received, j.value);
    assert stream[..i + 4] == received[..i + 4];
  }

  /**
    * Two connections whose clients send the same stream dispatch the same request, however each stream
    * was cut into chunks and events.
    */
  lemma SameStreamSameRequest(a: Slot, b: Slot, stream: string)
    requires SlotKept(a) && SlotKept(b) && a.log.answer.Some? && b.log.answer.Some?
    requires a.log.received <= stream && b.log.received <= stream
    ensures RequestIn(a.log.received) == RequestIn(b.log.received) == RequestIn(stream)
  {
    RequestOfPrefix(a.log.received, stream);
    RequestOfPrefix(b.log.received, stream);
  }

  function Joined(chunks: seq<string>): string {
    if chunks == [] then [] else chunks[0] + Joined(chunks[1..])
  }

  function AsRecvs(chunks: seq<string>): seq<Recv> {
    if chunks == [] then [] else [Bytes(chunks[0])] + AsRecvs(chunks[1..])
  }

  lemma OneMoreChunk(buffer: string, chunks: seq<string>)
    requires chunks != [] && chunks[0] != []
    ensures ReadAll(buffer, AsRecvs(chunks)) ==
              if |buffer + chunks[0]| > MAX_REQUEST_SIZE then ReadResult(buffer + chunks[0], TooLarge)
              else ReadAll(buffer + chunks[0], AsRecvs(chunks[1..]))
    ensures buffer + Joined(chunks) == (buffer + chunks[0]) + Joined(chunks[1..])
  {
    assert AsRecvs(chunks)[0] == Bytes(chunks[0]) && AsRecvs(chunks)[1..] == AsRecvs(chunks[1..]);
    JoinedNext(buffer, chunks);
  }

  lemma JoinedNext(buffer: string, chunks: seq<string>)
    requires chunks != []
    ensures buffer + Joined(chunks) == (buffer + chunks[0]) + Joined(chunks[1..])
  {
  }

  /** One event: the buffer afterwards depends on the octets, not on how `recv` portions them. */
  lemma {:induction false} PortionsDoNotMatter(buffer: string, chunks: seq<string>)
    requires forall i :: 0 <= i < |chunks| ==> chunks[i] != []
    requires |buffer| <= MAX_REQUEST_SIZE
    ensures |buffer + Joined(chunks)| <= MAX_REQUEST_SIZE ==>
              ReadAll(buffer, AsRecvs(chunks)) == ReadResult(buffer + Joined(chunks), Drained)
    ensures |buffer + Joined(chunks)| > MAX_REQUEST_SIZE ==> ReadAll(buffer, AsRecvs(chunks)).end == TooLarge
    decreases |chunks|
  {
    if chunks == [] {
      assert buffer + [] == buffer;
    } else {
      OneMoreChunk(buffer, chunks);
      if |buffer + chunks[0]| <= MAX_REQUEST_SIZE {
        PortionsDoNotMatter(buffer + chunks[0], chunks[1..]);
      }
    }
  }

  /** What a `recv` can report after the octets: nothing more for now, end of stream, or an error. */
  predicate EndsReceiving(last: Recv) {
    last.RecvFailed? || last == Bytes("")
  }

  /** Octets, then EAGAIN: they are kept. Octets, then the end of the stream or an error: the peer is gone. */
  lemma {:induction false} ReceivedThen(buffer: string, chunks: seq<string>, last: Recv, unread: seq<Recv>)
    requires forall i :: 0 <= i < |chunks| ==> chunks[i] != []
    requires EndsReceiving(last) && |buffer + Joined(chunks)| <= 8192
    ensures ReadAll(buffer, AsRecvs(chunks) + ([last] + unread))
         == ReadResult(buffer + Joined(chunks), if last == RecvFailed(true) then Drained else Gone)
    decreases |chunks|
  {
    if chunks == [] {
      assert (AsRecvs(chunks) + ([last] + unread))[0] == last && buffer + [] == buffer;
    } else {
      NextChunk(buffer, chunks, [last] + unread);
      JoinedNext(buffer, chunks);
      ReceivedThen(buffer + chunks[0], chunks[1..], last, unread);
    }
  }

  lemma NextChunk(buffer: string, chunks: seq<string>, unread: seq<Recv>)
    requires chunks != [] && chunks[0] != []
    ensures ReadAll(buffer, AsRecvs(chunks) + unread) ==
              if |buffer + chunks[0]| > MAX_REQUEST_SIZE then ReadResult(buffer + chunks[0], TooLarge)
              else ReadAll(buffer + chunks[0], AsRecvs(chunks[1..]) + unread)
  {
    var script := AsRecvs(chunks) + unread;
    assert script[0] == Bytes(chunks[0]) && script[1..] == AsRecvs(chunks[1..]) + unread;
  }

  lemma {:induction false} TooMuchReceived(buffer: string, chunks: seq<string>, unread: seq<Recv>)
    requires forall i :: 0 <= i < |chunks| ==> chunks[i] != []
    requires |buffer| <= 8192 < |buffer + Joined(chunks)|
    ensures ReadAll(buffer, AsRecvs(chunks) + unread).end == TooLarge
    decreases |chunks|
  {
    if chunks != [] {
      NextChunk(buffer, chunks, unread);
      JoinedNext(buffer, chunks);
      if |buffer + chunks[0]| <= 8192 {
        TooMuchReceived(buffer + chunks[0], chunks[1..], unread);
      }
    }
  }

  /** The connection ends here: nothing was counted, nothing answered. */
  predicate EndedUnanswered(log: Log, reason: Reason) {
    log.closed == Some(reason) && log.countedAt.None? && log.answer.None? && log.sent == []
  }

  /**
    * What a read event does, by what the last `recv` reports. More than 8192 octets close the connection;
    * so do an error and the end of the stream, even after a complete request; EAGAIN keeps it reading, or
    * dispatches the request that is complete by then.
    */
  lemma ReadOutcome(s: Slot, chunks: seq<string>, last: Recv, unread: seq<Recv>, c: Context)
    requires Phase(s) && s.mask == In && EndsReceiving(last)
    requires forall i :: 0 <= i < |chunks| ==> chunks[i] != []
    ensures var s', stream := AfterRead(s, AsRecvs(chunks) + ([last] + unread), c), s.log.received + Joined(chunks);
      if |stream| > 8192 then EndedUnanswered(s'.log, Oversized)
      else if last != RecvFailed(true) then EndedUnanswered(s'.log, PeerGone) && s'.log.received == stream
      else if RequestIn(stream).Some? then Answered(s', stream, c)
      else s'.log.closed.None? && s'.mask == In && s'.log.received == stream && s'.conn.readBuffer == stream
  {
    if |s.log.received + Joined(chunks)| > 8192 {
      TooMuchReceived(s.log.received, chunks, [last] + unread);
    } else {
      ReceivedThen(s.log.received, chunks, last, unread);
    }
  }

  /** Chunks until nothing more is there for now. */
  function UntilDrained(chunks: seq<string>): seq<Recv> {
    AsRecvs(chunks) + ([RecvFailed(true)] + [])
  }

  /** Read events that deliver these chunks, one list and one context per event; no chunk is empty. */
  function ReadEvents(deliveries: seq<seq<string>>, contexts: seq<Context>): seq<ConnEvent>
    requires |contexts| == |deliveries|
  {
    if deliveries == [] then []
    else
      var last := |deliveries| - 1;
      ReadEvents(deliveries[..last], contexts[..last]) + [Readable(UntilDrained(deliveries[last]), contexts[last])]
  }

  function Delivered(deliveries: seq<seq<string>>): string {
    if deliveries == [] then []
    else Delivered(deliveries[..|deliveries| - 1]) + Joined(deliveries[|deliveries| - 1])
  }

  /** The event whose chunks complete the request: nothing complete before it, a complete one with it. */
  ghost predicate CompletesAt(deliveries: seq<seq<string>>, d: nat) {
    && d < |deliveries|
    && RequestIn(Delivered(deliveries[..d])).None?
    && RequestIn(Delivered(deliveries[..d + 1])).Some?
  }

  /** What the completing event makes of a connection, under the context of that event. */
  ghost predicate Answered(s: Slot, stream: string, c: Context) {
    && s.log.received <= stream && RequestIn(stream).Some? && RequestIn(s.log.received) == RequestIn(stream)
    && if c.refused then s.log.closed == Some(Refused) && s.log.answer.None?
       else
         var response := ResponseTo(RequestIn(stream).value, c.totalRequests, c.active, c.metricsText);
         && s.log.closed.None? && s.mask == Out && s.conn.writeBuffer == response
         && s.log.answer == Some(Answer(c.totalRequests, c.active, c.metricsText, response))
  }

  /** One event that delivers `chunks` to a connection that has received `before` and no complete request. */
  lemma NextDelivery(s: Slot, before: string, chunks: seq<string>, c: Context)
    requires Phase(s) && s.mask == In && s.log.received == before
    requires forall i :: 0 <= i < |chunks| ==> chunks[i] != []
    requires |before + Joined(chunks)| <= 8192
    ensures var s', stream := AfterRead(s, UntilDrained(chunks), c), before + Joined(chunks);
      if RequestIn(stream).Some? then Answered(s', stream, c)
      else s'.log.closed.None? && s'.mask == In && s'.log.received == stream
  {
    ReadOutcome(s, chunks, RecvFailed(true), [], c);
  }

  ghost predicate NoEmptyChunk(deliveries: seq<seq<string>>) {
    forall d :: 0 <= d < |deliveries| ==> forall i :: 0 <= i < |deliveries[d]| ==> deliveries[d][i] != []
  }

  /**
    * What a connection has become after these deliveries: it keeps what came until one event completes the
    * request, and that event's context decides how it is answered.
    */
  ghost predicate Dispatches(s: Slot, deliveries: seq<seq<string>>, contexts: seq<Context>)
    requires |contexts| == |deliveries|
  {
    var stream := Delivered(deliveries);
    if RequestIn(stream).None? then s.log.closed.None? && s.mask == In && s.log.received == stream
    else exists d: nat :: CompletesAt(deliveries, d) && Answered(s, stream, contexts[d])
  }

  lemma CompletedEarlier(deliveries: seq<seq<string>>, d: nat)
    requires deliveries != [] && CompletesAt(deliveries[..|deliveries| - 1], d)
    ensures CompletesAt(deliveries, d)
  {
    var earlier := deliveries[..|deliveries| - 1];
    assert earlier[..d] == deliveries[..d] && earlier[..d + 1] == deliveries[..d + 1];
  }

  lemma CompletedNow(deliveries: seq<seq<string>>)
    requires deliveries != [] && RequestIn(Delivered(deliveries)).Some?
    requires RequestIn(Delivered(deliveries[..|deliveries| - 1])).None?
    ensures CompletesAt(deliveries, |deliveries| - 1)
  {
    assert deliveries[..|deliveries| - 1 + 1] == deliveries;
  }

  lemma DeliveredPrefix(deliveries: seq<seq<string>>)
    requires deliveries != []
    ensures Delivered(deliveries[..|deliveries| - 1]) <= Delivered(deliveries)
  {
  }

  lemma AnsweredReadsNoMore(s: Slot, stream: string, c: Context, e: ConnEvent)
    requires Answered(s, stream, c) && e.Readable?
    ensures Happen(s, e) == s
  {
  }

  lemma AlreadyDispatched(s: Slot, deliveries: seq<seq<string>>, contexts: seq<Context>)
    requires |contexts| == |deliveries| && deliveries != []
    requires Dispatches(s, deliveries[..|deliveries| - 1], contexts[..|deliveries| - 1])
    requires RequestIn(Delivered(deliveries[..|deliveries| - 1])).Some?
    ensures Dispatches(s, deliveries, contexts)
    ensures forall e: ConnEvent :: e.Readable? ==> Happen(s, e) == s
  {
    var earlier, stream := deliveries[..|deliveries| - 1], Delivered(deliveries);
    DeliveredPrefix(deliveries);
    RequestOfPrefix(Delivered(earlier), stream);
    var d: nat :| CompletesAt(earlier, d) && Answered(s, Delivered(earlier), contexts[..|deliveries| - 1][d]);
    CompletedEarlier(deliveries, d);
    StaysAnswered(s, Delivered(earlier), stream, contexts[d]);
    forall e: ConnEvent | e.Readable? ensures Happen(s, e) == s {
      AnsweredReadsNoMore(s, stream, contexts[d], e);
    }
  }

  lemma OneMoreDelivery(s: Slot, deliveries: seq<seq<string>>, contexts: seq<Context>)
    requires |contexts| == |deliveries| && deliveries != []
    requires Phase(s) && s.mask == In && s.log.received == Delivered(deliveries[..|deliveries| - 1])
    requires NoEmptyChunk(deliveries) && |Delivered(deliveries)| <= 8192
    ensures var last := |deliveries| - 1;
            Dispatches(AfterRead(s, UntilDrained(deliveries[last]), contexts[last]), deliveries, contexts)
  {
    var last := |deliveries| - 1;
    NextDelivery(s, Delivered(deliveries[..last]), deliveries[last], contexts[last]);
    if RequestIn(Delivered(deliveries)).Some? {
      CompletedNow(deliveries);
    }
  }

  /**
    * A request that fits is always dispatched, and it is the same for every division of the stream into
    * chunks and events, whatever else the server does between the events.
    */
  lemma {:induction false} DispatchIsChunkIndependent(fd: int, ip: Ip, deliveries: seq<seq<string>>,
                                                      contexts: seq<Context>)
    requires |contexts| == |deliveries|
    requires NoEmptyChunk(deliveries) && |Delivered(deliveries)| <= 8192
    ensures Dispatches(Life(fd, ip, ReadEvents(deliveries, contexts)), deliveries, contexts)
  {
    if deliveries == [] {
      assert RequestIn("").None?;
    } else {
      var last := |deliveries| - 1;
      DeliveredPrefix(deliveries);
      DispatchIsChunkIndependent(fd, ip, deliveries[..last], contexts[..last]);
      LifeKeepsPhase(fd, ip, ReadEvents(deliveries[..last], contexts[..last]));
      LifeSnoc(fd, ip, deliveries, contexts);
      var s := Life(fd, ip, ReadEvents(deliveries[..last], contexts[..last]));
      if RequestIn(Delivered(deliveries[..last])).Some? {
        AlreadyDispatched(s, deliveries, contexts);
      } else {
        OneMoreDelivery(s, deliveries, contexts);
      }
    }
  }

  lemma LifeSnoc(fd: int, ip: Ip, deliveries: seq<seq<string>>, contexts: seq<Context>)
    requires |contexts| == |deliveries| && deliveries != []
    ensures var last := |deliveries| - 1;
            Life(fd, ip, ReadEvents(deliveries, contexts))
            == Happen(Life(fd, ip, ReadEvents(deliveries[..last], contexts[..last])),
                      Readable(UntilDrained(deliveries[last]), contexts[last]))
  {
    var last, events := |deliveries| - 1, ReadEvents(deliveries, contexts);
    assert events[..|events| - 1] == ReadEvents(deliveries[..last], contexts[..last]);
  }

  lemma StaysAnswered(s: Slot, before: string, stream: string, c: Context)
    requires Answered(s, before, c) && before <= stream
    ensures Answered(s, stream, c)
  {
    PrefixTransitive(s.log.received, before, stream);
    RequestOfPrefix(before, stream);
  }
}
