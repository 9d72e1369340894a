/**
  * The server's connection table together with the descriptors epoll watches. A descriptor number is
  * reused after it is closed, so every connection also gets an identity: its index in the list of logs.
  */
module ConnectionTable {
  import opened Http
  import opened Addresses
  import opened ClientConnection
  import opened ConnectionTheorems

  const MAX_CONNECTIONS: nat := 1000

  datatype Table = Table(conns: map<int, Connection>, watched: map<int, Mask>, ids: map<int, nat>, logs: seq<Log>)

  ghost predicate Bound(t: Table, fd: int) {
    && fd in t.conns && fd in t.watched && fd in t.ids && t.ids[fd] < |t.logs|
    && t.logs[t.ids[fd]].fd == fd
    && Phase(Slot(t.conns[fd], t.watched[fd], t.logs[t.ids[fd]]))
  }

  /** A log that is not closed belongs to an open connection; a closed one is consistent with its ending. */
  ghost predicate LogKept(t: Table, k: nat)
    requires k < |t.logs|
  {
    var log := t.logs[k];
    if log.closed.None? then log.fd in t.ids && t.ids[log.fd] == k else Closing(log)
  }

  ghost predicate TableKept(t: Table, serverFd: int) {
    && serverFd !in t.conns && |t.conns| <= MAX_CONNECTIONS
    && t.watched.Keys == t.conns.Keys + {serverFd}
    && t.ids.Keys == t.conns.Keys
    && (forall fd :: fd in t.conns ==> Bound(t, fd))
    && (forall k :: 0 <= k < |t.logs| ==> LogKept(t, k))
  }

  /** The table knows everything about the connection on `fd`. */
  predicate Present(t: Table, fd: int) {
    fd in t.conns && fd in t.watched && fd in t.ids && t.ids[fd] < |t.logs|
  }

  lemma OpenIsPresent(t: Table, serverFd: int, fd: int)
    requires TableKept(t, serverFd) && fd in t.conns
    ensures Present(t, fd) && Bound(t, fd)
  {
    assert Bound(t, fd);
  }

  function SlotAt(t: Table, fd: int): Slot
    requires Present(t, fd)
  {
    Slot(t.conns[fd], t.watched[fd], t.logs[t.ids[fd]])
  }

  /** Store what an event made of a connection; a closed one disappears, its log stays. */
  function Put(t: Table, fd: int, s: Slot): Table
    requires fd in t.ids && t.ids[fd] < |t.logs|
  {
    var logs := t.logs[t.ids[fd] := s.log];
    if s.log.closed.None? then Table(t.conns[fd := s.conn], t.watched[fd := s.mask], t.ids, logs)
    else Table(t.conns - {fd}, t.watched - {fd}, t.ids - {fd}, logs)
  }

  lemma KeysInserted<T>(m: map<int, T>, k: int, v: T)
    ensures m[k := v].Keys == m.Keys + {k}
  {
  }

  lemma KeysRemoved<T>(m: map<int, T>, k: int)
    ensures (m - {k}).Keys == m.Keys - {k}
  {
  }

  lemma KeysCount<T>(m: map<int, T>)
    ensures |m| == |m.Keys|
  {
  }

  function Insert(t: Table, fd: int, ip: Ip): Table {
    var s := NewSlot(fd, ip);
    Table(t.conns[fd := s.conn], t.watched[fd := s.mask], t.ids[fd := |t.logs|], t.logs + [s.log])
  }

  lemma PutKeeps(t: Table, serverFd: int, fd: int, s: Slot)
    requires TableKept(t, serverFd) && fd in t.conns
    requires SlotKept(s) && s.log.fd == fd
    ensures fd in t.ids && t.ids[fd] < |t.logs| && TableKept(Put(t, fd, s), serverFd)
  {
    assert Bound(t, fd);
    var t' := Put(t, fd, s);
    PutKeepsKeys(t, serverFd, fd, s);
    forall other | other in t'.conns ensures Bound(t', other) {
      BoundAfterPut(t, serverFd, fd, s, other);
    }
    forall k | 0 <= k < |t'.logs| ensures LogKept(t', k) {
      LogAfterPut(t, serverFd, fd, s, k);
    }
  }

  lemma PutKeepsKeys(t: Table, serverFd: int, fd: int, s: Slot)
    requires serverFd !in t.conns && fd in t.conns && t.ids.Keys == t.conns.Keys && t.ids[fd] < |t.logs|
    requires t.watched.Keys == t.conns.Keys + {serverFd} && |t.conns| <= MAX_CONNECTIONS
    ensures var t' := Put(t, fd, s);
      && t'.conns.Keys == t.conns.Keys - (if s.log.closed.Some? then {fd} else {})
      && serverFd !in t'.conns && |t'.conns| <= MAX_CONNECTIONS
      && t'.watched.Keys == t'.conns.Keys + {serverFd} && t'.ids.Keys == t'.conns.Keys
  {
    KeysCount(t.conns);
    KeysCount(Put(t, fd, s).conns);
    if s.log.closed.Some? {
      KeysRemoved(t.conns, fd);
      KeysRemoved(t.watched, fd);
      KeysRemoved(t.ids, fd);
    } else {
      KeysInserted(t.conns, fd, s.conn);
      KeysInserted(t.watched, fd, s.mask);
    }
  }

  lemma BoundAfterPut(t: Table, serverFd: int, fd: int, s: Slot, other: int)
    requires TableKept(t, serverFd) && fd in t.conns && Bound(t, fd)
    requires SlotKept(s) && s.log.fd == fd && other in Put(t, fd, s).conns
    ensures Bound(Put(t, fd, s), other)
  {
    assert Bound(t, other);
  }

  lemma LogAfterPut(t: Table, serverFd: int, fd: int, s: Slot, k: nat)
    requires TableKept(t, serverFd) && fd in t.conns && Bound(t, fd)
    requires SlotKept(s) && s.log.fd == fd && k < |t.logs|
    ensures LogKept(Put(t, fd, s), k)
  {
    assert LogKept(t, k);
  }

  lemma BoundAfterInsert(t: Table, serverFd: int, fd: int, ip: Ip, other: int)
    requires TableKept(t, serverFd) && fd !in t.conns && (other == fd || other in t.conns)
    ensures Bound(Insert(t, fd, ip), other)
  {
    if other == fd {
      FreshPhase(fd, ip);
    } else {
      assert Bound(t, other);
    }
  }

  lemma LogAfterInsert(t: Table, serverFd: int, fd: int, ip: Ip, k: nat)
    requires TableKept(t, serverFd) && fd !in t.conns && k <= |t.logs|
    ensures LogKept(Insert(t, fd, ip), k)
  {
    if k < |t.logs| {
      assert LogKept(t, k);
    }
  }

  lemma InsertKeepsKeys(t: Table, serverFd: int, fd: int, ip: Ip)
    requires serverFd !in t.conns && fd !in t.conns && fd != serverFd && t.ids.Keys == t.conns.Keys
    requires t.watched.Keys == t.conns.Keys + {serverFd} && |t.conns| < MAX_CONNECTIONS
    ensures var t' := Insert(t, fd, ip);
      && t'.conns.Keys == t.conns.Keys + {fd} && serverFd !in t'.conns && |t'.conns| <= MAX_CONNECTIONS
      && t'.watched.Keys == t'.conns.Keys + {serverFd} && t'.ids.Keys == t'.conns.Keys
  {
    KeysInserted(t.conns, fd, NewSlot(fd, ip).conn);
    KeysInserted(t.watched, fd, NewSlot(fd, ip).mask);
    KeysInserted(t.ids, fd, |t.logs|);
    KeysCount(t.conns);
    KeysCount(Insert(t, fd, ip).conns);
  }

  lemma InsertKeeps(t: Table, serverFd: int, fd: int, ip: Ip)
    requires TableKept(t, serverFd) && |t.conns| < MAX_CONNECTIONS
    requires fd !in t.conns && fd != serverFd
    ensures TableKept(Insert(t, fd, ip), serverFd)
  {
    var t' := Insert(t, fd, ip);
    InsertKeepsKeys(t, serverFd, fd, ip);
    forall other | other in t'.conns ensures Bound(t', other) {
      BoundAfterInsert(t, serverFd, fd, ip, other);
    }
    forall k | 0 <= k < |t'.logs| ensures LogKept(t', k) {
      LogAfterInsert(t, serverFd, fd, ip, k);
    }
  }

  lemma FreshPhase(fd: int, ip: Ip)
    ensures Phase(NewSlot(fd, ip))
  {
    LifeKeepsPhase(fd, ip, []);
  }

  // ---- Growth of the record ----

  ghost predicate LogsGrow(earlier: seq<Log>, later: seq<Log>) {
    && |earlier| <= |later|
    && forall k :: 0 <= k < |earlier| ==> Extends(later[k], earlier[k])
  }

  lemma ExtendsItself(log: Log)
    ensures Extends(log, log)
  {
  }

  lemma PutGrows(t: Table, fd: int, s: Slot)
    requires fd in t.ids && t.ids[fd] < |t.logs| && Extends(s.log, t.logs[t.ids[fd]])
    ensures LogsGrow(t.logs, Put(t, fd, s).logs)
  {
    forall k | 0 <= k < |t.logs| ensures Extends(Put(t, fd, s).logs[k], t.logs[k]) {
      ExtendsItself(t.logs[k]);
    }
  }

  lemma InsertGrows(t: Table, fd: int, ip: Ip)
    ensures LogsGrow(t.logs, Insert(t, fd, ip).logs)
  {
    forall k | 0 <= k < |t.logs| ensures Extends(Insert(t, fd, ip).logs[k], t.logs[k]) {
      ExtendsItself(t.logs[k]);
    }
  }

  lemma GrowsTransitive(a: seq<Log>, b: seq<Log>, c: seq<Log>)
    requires LogsGrow(a, b) && LogsGrow(b, c)
    ensures LogsGrow(a, c)
  {
    forall k | 0 <= k < |a| ensures Extends(c[k], a[k]) {
      assert Extends(c[k], b[k]) && Extends(b[k], a[k]);
    }
  }

  lemma GrowsReflexive(a: seq<Log>)
    ensures LogsGrow(a, a)
  {
    forall k | 0 <= k < |a| ensures Extends(a[k], a[k]) {
      ExtendsItself(a[k]);
    }
  }

  // ---- Idle sweeping ----

  /** Close the connection on `fd`, if there is one. */
  function AfterSweepOf(t: Table, fd: int): Table {
    if Present(t, fd) then Put(t, fd, Close(SlotAt(t, fd), Idle)) else t
  }

  function AfterSweep(t: Table, idle: seq<int>): Table {
    if idle == [] then t else AfterSweepOf(AfterSweep(t, idle[..|idle| - 1]), idle[|idle| - 1])
  }

  lemma AfterSweepSnoc(t: Table, idle: seq<int>, fd: int)
    ensures AfterSweep(t, idle + [fd]) == AfterSweepOf(AfterSweep(t, idle), fd)
  {
    assert (idle + [fd])[..|idle|] == idle;
  }

  /** Exactly the listed descriptors were closed. */
  ghost predicate Swept(before: set<int>, after: set<int>, idle: seq<int>) {
    forall fd :: fd in after <==> fd in before && fd !in idle
  }

  lemma SweptNext(before: set<int>, after: set<int>, idle: seq<int>, fd: int)
    requires Swept(before, after, idle)
    ensures Swept(before, after - {fd}, idle + [fd])
  {
  }

  // ---- epoll events ----

  /** One reported event: the readable and writable bits that the handler looks at. */
  datatype Event = Event(fd: int, readable: bool, writable: bool)

  /** What `epoll_wait` guarantees: each descriptor at most once, only watched ones, only watched bits. */
  predicate Reported(watched: map<int, Mask>, serverFd: int, events: seq<Event>) {
    && (forall i, j :: 0 <= i < j < |events| ==> events[i].fd != events[j].fd)
    && (forall i :: 0 <= i < |events| ==>
          && events[i].fd in watched
          && (events[i].fd != serverFd ==>
                && (events[i].readable ==> watched[events[i].fd] == In)
                && (events[i].writable ==> watched[events[i].fd] == Out)))
  }

  predicate ForClient(e: Event, serverFd: int) {
    e.fd != serverFd && (e.readable || e.writable)
  }

  /** All connections but the one on `fd` are as they were. */
  ghost predicate UntouchedExcept(t: Table, t': Table, fd: int) {
    forall other :: other in t.conns && other != fd ==>
      && other in t'.conns && t'.conns[other] == t.conns[other]
      && other in t.watched && other in t'.watched && t'.watched[other] == t.watched[other]
      && other in t.ids && other in t'.ids && t'.ids[other] == t.ids[other]
  }

  lemma PutLeavesOthers(t: Table, serverFd: int, fd: int, s: Slot)
    requires TableKept(t, serverFd) && fd in t.ids && t.ids[fd] < |t.logs|
    ensures UntouchedExcept(t, Put(t, fd, s), fd)
  {
    forall other | other in t.conns ensures other in t.watched && other in t.ids {
      assert Bound(t, other);
    }
  }

  /** The descriptors of the first `n` events. */
  function Descriptors(events: seq<Event>, n: nat): seq<int>
    requires n <= |events|
  {
    if n == 0 then [] else Descriptors(events, n - 1) + [events[n - 1].fd]
  }

  /** The identities the first `n` client events of a batch were reported for. */
  ghost function Identities(ids: map<int, nat>, serverFd: int, events: seq<Event>, n: nat): seq<nat>
    requires n <= |events|
  {
    if n == 0 then []
    else
      var e := events[n - 1];
      if ForClient(e, serverFd) && e.fd in ids then Identities(ids, serverFd, events, n - 1) + [ids[e.fd]]
      else Identities(ids, serverFd, events, n - 1)
  }

  ghost predicate ClientsKnown(ids: map<int, nat>, serverFd: int, events: seq<Event>) {
    forall i :: 0 <= i < |events| && events[i].fd != serverFd ==> events[i].fd in ids
  }

  /** From event i on, every client event still finds its connection, in the phase it was reported in. */
  ghost predicate StillThere(start: Table, now: Table, serverFd: int, events: seq<Event>, i: nat) {
    forall j :: i <= j < |events| && events[j].fd != serverFd ==>
      && events[j].fd in start.ids
      && events[j].fd in now.conns && events[j].fd in now.ids && events[j].fd in now.watched
      && now.ids[events[j].fd] == start.ids[events[j].fd]
      && (events[j].readable ==> now.watched[events[j].fd] == In)
      && (events[j].writable ==> now.watched[events[j].fd] == Out)
  }

  lemma AllThereAtFirst(t: Table, serverFd: int, events: seq<Event>)
    requires TableKept(t, serverFd) && Reported(t.watched, serverFd, events)
    ensures StillThere(t, t, serverFd, events, 0) && ClientsKnown(t.ids, serverFd, events)
  {
    forall j | 0 <= j < |events| && events[j].fd != serverFd
      ensures events[j].fd in t.conns && events[j].fd in t.ids && events[j].fd in t.watched
    {
      assert events[j].fd in t.watched;
    }
  }

  /** Handling event i touches no other connection, and its descriptor does not occur again in the batch. */
  lemma RestStillThere(start: Table, before: Table, after: Table, serverFd: int, events: seq<Event>, i: nat)
    requires i < |events| && forall j, k :: 0 <= j < k < |events| ==> events[j].fd != events[k].fd
    requires StillThere(start, before, serverFd, events, i)
    requires UntouchedExcept(before, after, events[i].fd)
    ensures StillThere(start, after, serverFd, events, i + 1)
  {
  }

  /** What the handler was called for so far: descriptors, and the identities of client connections. */
  datatype Calls = Calls(served: seq<nat>, handled: seq<int>)

  /** The first `i` events were handled in order, those of clients for the identities they were reported for. */
  ghost predicate Done(start: Table, serverFd: int, events: seq<Event>, i: nat, c0: Calls, c: Calls)
    requires i <= |events|
  {
    && c.served == c0.served + Identities(start.ids, serverFd, events, i)
    && c.handled == c0.handled + Descriptors(events, i)
  }

  lemma NothingDone(start: Table, serverFd: int, events: seq<Event>, c0: Calls)
    ensures Done(start, serverFd, events, 0, c0, c0)
  {
  }

  lemma DoneNext(start: Table, before: Table, serverFd: int, events: seq<Event>, i: nat, c0: Calls, c: Calls, c': Calls)
    requires i < |events| && StillThere(start, before, serverFd, events, i)
    requires Done(start, serverFd, events, i, c0, c) && c'.handled == c.handled + [events[i].fd]
    requires ForClient(events[i], serverFd) ==>
               events[i].fd in before.ids && c'.served == c.served + [before.ids[events[i].fd]]
    requires !ForClient(events[i], serverFd) ==> c'.served == c.served
    ensures Done(start, serverFd, events, i + 1, c0, c')
  {
  }

  ghost predicate Onward(start: Table, now: Table, serverFd: int, events: seq<Event>, i: nat) {
    LogsGrow(start.logs, now.logs) && StillThere(start, now, serverFd, events, i)
  }

  lemma OnwardNext(start: Table, before: Table, after: Table, serverFd: int, events: seq<Event>, i: nat)
    requires i < |events| && forall j, k :: 0 <= j < k < |events| ==> events[j].fd != events[k].fd
    requires Onward(start, before, serverFd, events, i)
    requires UntouchedExcept(before, after, events[i].fd) && LogsGrow(before.logs, after.logs)
    ensures Onward(start, after, serverFd, events, i + 1)
  {
    RestStillThere(start, before, after, serverFd, events, i);
    GrowsTransitive(start.logs, before.logs, after.logs);
  }

  // ---- accept ----

  /** One pending connection: its descriptor, its address, and whether the blacklist holds it. */
  datatype Accept = Accept(fd: int, ip: Ip, blocked: bool)

  function AfterAccept(t: Table, a: Accept): Table {
    if |t.conns| >= MAX_CONNECTIONS || a.blocked then t else Insert(t, a.fd, a.ip)
  }

  /** What a pending connection is sent at once: 503, 403, or nothing if it is let in. */
  function AnswerTo(t: Table, a: Accept): seq<string> {
    if |t.conns| >= MAX_CONNECTIONS then [UNAVAILABLE] else if a.blocked then [FORBIDDEN] else []
  }

  /** The 429 that a completed request is sent if the rate check refuses it. */
  function Refusal(completes: bool, c: Context): seq<string> {
    if completes && c.refused then [TOO_MANY] else []
  }

  function AnswersTo(t: Table, queue: seq<Accept>): seq<string>
    decreases |queue|
  {
    if queue == [] then [] else AnswerTo(t, queue[0]) + AnswersTo(AfterAccept(t, queue[0]), queue[1..])
  }

  /** `accept` returns descriptors that are not open at that moment; refused ones are closed at once. */
  predicate FreshDescriptors(open: set<int>, serverFd: int, queue: seq<Accept>)
    decreases |queue|
  {
    queue == [] ||
    (queue[0].fd !in open && queue[0].fd != serverFd
     && FreshDescriptors(OpenAfter(open, queue[0]), serverFd, queue[1..]))
  }

  function OpenAfter(open: set<int>, a: Accept): set<int> {
    if |open| >= MAX_CONNECTIONS || a.blocked then open else open + {a.fd}
  }

  function AfterAccepts(t: Table, queue: seq<Accept>): Table
    decreases |queue|
  {
    if queue == [] then t else AfterAccepts(AfterAccept(t, queue[0]), queue[1..])
  }

  /** Accepting what is left of a queue leads to the table `goal`, with these answers in all. */
  ghost predicate Accepting(t: Table, serverFd: int, answers: seq<string>, left: seq<Accept>,
                            goal: Table, allAnswers: seq<string>)
  {
    && FreshDescriptors(t.conns.Keys, serverFd, left)
    && AfterAccepts(t, left) == goal
    && answers + AnswersTo(t, left) == allAnswers
  }

  lemma AcceptingNext(t: Table, serverFd: int, answers: seq<string>, left: seq<Accept>,
                      goal: Table, allAnswers: seq<string>)
    requires left != [] && TableKept(t, serverFd) && Accepting(t, serverFd, answers, left, goal, allAnswers)
    ensures left[0].fd !in t.conns && left[0].fd != serverFd
    ensures Accepting(AfterAccept(t, left[0]), serverFd, answers + AnswerTo(t, left[0]), left[1..], goal, allAnswers)
  {
    AcceptedKeys(t, left[0]);
    AppendTwice(answers, AnswerTo(t, left[0]), AnswersTo(AfterAccept(t, left[0]), left[1..]));
  }

  lemma AppendTwice(a: seq<string>, b: seq<string>, c: seq<string>)
    ensures a + (b + c) == (a + b) + c
  {
  }

  lemma AcceptedKeys(t: Table, a: Accept)
    ensures AfterAccept(t, a).conns.Keys == OpenAfter(t.conns.Keys, a)
  {
    KeysCount(t.conns);
    KeysInserted(t.conns, a.fd, NewSlot(a.fd, a.ip).conn);
  }

  /** Accepting leaves the connections that were there as they were. */
  ghost predicate Untouched(t: Table, t': Table) {
    forall fd :: fd in t.conns ==>
      && fd in t'.conns && t'.conns[fd] == t.conns[fd]
      && fd in t.watched && fd in t'.watched && t'.watched[fd] == t.watched[fd]
      && fd in t.ids && fd in t'.ids && t'.ids[fd] == t.ids[fd]
  }

  lemma AcceptKeeps(t: Table, serverFd: int, a: Accept)
    requires TableKept(t, serverFd) && a.fd !in t.conns && a.fd != serverFd
    ensures TableKept(AfterAccept(t, a), serverFd)
    ensures Untouched(t, AfterAccept(t, a)) && LogsGrow(t.logs, AfterAccept(t, a).logs)
    ensures AfterAccept(t, a).conns.Keys == OpenAfter(t.conns.Keys, a)
  {
    AcceptedKeys(t, a);
    if |t.conns| >= MAX_CONNECTIONS || a.blocked {
      RefusingKeeps(t, serverFd);
    } else {
      AdmittingKeeps(t, serverFd, a);
    }
  }

  lemma RefusingKeeps(t: Table, serverFd: int)
    requires TableKept(t, serverFd)
    ensures Untouched(t, t) && LogsGrow(t.logs, t.logs)
  {
    InsideTable(t, serverFd);
    GrowsReflexive(t.logs);
  }

  lemma AdmittingKeeps(t: Table, serverFd: int, a: Accept)
    requires TableKept(t, serverFd) && |t.conns| < MAX_CONNECTIONS && a.fd !in t.conns && a.fd != serverFd
    ensures TableKept(Insert(t, a.fd, a.ip), serverFd)
    ensures Untouched(t, Insert(t, a.fd, a.ip)) && LogsGrow(t.logs, Insert(t, a.fd, a.ip).logs)
  {
    InsideTable(t, serverFd);
    InsertKeeps(t, serverFd, a.fd, a.ip);
    InsertGrows(t, a.fd, a.ip);
    InsertLeavesOthers(t, a.fd, a.ip);
  }

  lemma InsertLeavesOthers(t: Table, fd: int, ip: Ip)
    requires fd !in t.conns && forall other :: other in t.conns ==> other in t.watched && other in t.ids
    ensures Untouched(t, Insert(t, fd, ip)) && Insert(t, fd, ip).conns.Keys == t.conns.Keys + {fd}
  {
  }

  lemma InsideTable(t: Table, serverFd: int)
    requires TableKept(t, serverFd)
    ensures forall fd :: fd in t.conns ==> fd in t.watched && fd in t.ids
  {
    forall fd | fd in t.conns ensures fd in t.watched && fd in t.ids {
      assert Bound(t, fd);
    }
  }

  lemma {:induction false} AcceptsKeep(t: Table, serverFd: int, queue: seq<Accept>)
    requires TableKept(t, serverFd) && FreshDescriptors(t.conns.Keys, serverFd, queue)
    ensures TableKept(AfterAccepts(t, queue), serverFd)
    ensures Untouched(t, AfterAccepts(t, queue)) && LogsGrow(t.logs, AfterAccepts(t, queue).logs)
    decreases |queue|
  {
    if queue == [] {
      GrowsReflexive(t.logs);
      InsideTable(t, serverFd);
    } else {
      var t1 := AfterAccept(t, queue[0]);
      AcceptKeeps(t, serverFd, queue[0]);
      AcceptsKeep(t1, serverFd, queue[1..]);
      GrowsTransitive(t.logs, t1.logs, AfterAccepts(t, queue).logs);
      UntouchedTransitive(t, t1, AfterAccepts(t, queue));
    }
  }

  lemma UntouchedTransitive(a: Table, b: Table, c: Table)
    requires Untouched(a, b) && Untouched(b, c)
    ensures Untouched(a, c)
  {
  }
}
