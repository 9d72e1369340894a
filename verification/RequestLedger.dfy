/**
  * The connections' logs against the counters that requests go through: the total, and the history of each
  * address that the rate check works on.
  */
module RequestLedger {
  import opened Http
  import opened Addresses
  import opened TimeWindows
  import opened RateTheorems
  import opened ClientConnection
  import opened ConnectionTheorems
  import opened ConnectionTable

  /** The connection's request was complete, and answered or refused. */
  predicate Dispatched(log: Log) {
    log.answer.Some? || log.closed == Some(Refused)
  }

  function DispatchedIn(logs: seq<Log>): nat {
    if logs == [] then 0 else DispatchedIn(logs[..|logs| - 1]) + if Dispatched(logs[|logs| - 1]) then 1 else 0
  }

  /** Requests of one address recorded in a closed interval of time: all of them, or the answered ones. */
  datatype Query = Query(ip: Ip, lo: int, hi: int, answeredOnly: bool)

  predicate Counts(q: Query, log: Log) {
    && log.ip == q.ip && log.countedAt.Some? && q.lo <= log.countedAt.value <= q.hi
    && (q.answeredOnly ==> log.answer.Some?)
  }

  function InLogs(q: Query, logs: seq<Log>): nat {
    if logs == [] then 0 else InLogs(q, logs[..|logs| - 1]) + if Counts(q, logs[|logs| - 1]) then 1 else 0
  }

  function InRequests(q: Query, requests: map<Ip, seq<Request>>): nat {
    var rs := RequestsIn(requests, q.ip);
    |Between(if q.answeredOnly then AdmittedTimes(rs, |rs|) else Times(rs), q.lo, q.hi)|
  }

  /** Every query has the same answer in the logs of the connections and in the requests the rate check saw. */
  ghost predicate SameRequests(logs: seq<Log>, requests: map<Ip, seq<Request>>) {
    forall q :: InLogs(q, logs) == InRequests(q, requests)
  }

  ghost predicate Balanced(logs: seq<Log>, total: nat, requests: map<Ip, seq<Request>>) {
    total == DispatchedIn(logs) && SameRequests(logs, requests)
  }

  // ---- Changing one log ----

  lemma {:induction false} InLogsUpdate(q: Query, logs: seq<Log>, k: nat, log: Log)
    requires k < |logs|
    ensures InLogs(q, logs[k := log])
         == InLogs(q, logs) - (if Counts(q, logs[k]) then 1 else 0) + if Counts(q, log) then 1 else 0
  {
    var last := |logs| - 1;
    if k < last {
      InLogsUpdate(q, logs[..last], k, log);
      assert logs[k := log][..last] == logs[..last][k := log];
    } else {
      assert logs[k := log][..last] == logs[..last];
    }
  }

  lemma {:induction false} DispatchedUpdate(logs: seq<Log>, k: nat, log: Log)
    requires k < |logs|
    ensures DispatchedIn(logs[k := log])
         == DispatchedIn(logs) - (if Dispatched(logs[k]) then 1 else 0) + if Dispatched(log) then 1 else 0
  {
    var last := |logs| - 1;
    if k < last {
      DispatchedUpdate(logs[..last], k, log);
      assert logs[k := log][..last] == logs[..last][k := log];
    } else {
      assert logs[k := log][..last] == logs[..last];
    }
  }

  // ---- One more request ----

  lemma {:induction false} AdmittedTimesOfPrefix(rs: seq<Request>, r: Request, n: nat)
    requires n <= |rs|
    ensures AdmittedTimes(rs + [r], n) == AdmittedTimes(rs, n)
  {
    if n > 0 {
      AdmittedTimesOfPrefix(rs, r, n - 1);
      assert (rs + [r])[..n] == rs[..n];
    }
  }

  lemma AdmittedTimesNext(rs: seq<Request>, r: Request)
    ensures AdmittedTimes(rs + [r], |rs| + 1)
         == AdmittedTimes(rs, |rs|) + if AdmittedAt(rs + [r], |rs|) then [r.at] else []
  {
    AdmittedTimesOfPrefix(rs, r, |rs|);
  }

  lemma TimesNext(rs: seq<Request>, r: Request)
    ensures Times(rs + [r]) == Times(rs) + [r.at]
  {
  }

  lemma AnsweredNext(rs: seq<Request>, r: Request, lo: int, hi: int)
    ensures |Between(AdmittedTimes(rs + [r], |rs| + 1), lo, hi)|
         == |Between(AdmittedTimes(rs, |rs|), lo, hi)| + if lo <= r.at <= hi && AdmittedAt(rs + [r], |rs|) then 1 else 0
  {
    AdmittedTimesNext(rs, r);
    BetweenOne(r.at, lo, hi);
    BetweenConcat(AdmittedTimes(rs, |rs|), if AdmittedAt(rs + [r], |rs|) then [r.at] else [], lo, hi);
  }

  lemma SeenNext(rs: seq<Request>, r: Request, lo: int, hi: int)
    ensures |Between(Times(rs + [r]), lo, hi)| == |Between(Times(rs), lo, hi)| + if lo <= r.at <= hi then 1 else 0
  {
    TimesNext(rs, r);
    BetweenOne(r.at, lo, hi);
    BetweenConcat(Times(rs), [r.at], lo, hi);
  }

  lemma InRequestsNext(q: Query, requests: map<Ip, seq<Request>>, ip: Ip, r: Request)
    ensures InRequests(q, Checked(requests, ip, r)) == InRequests(q, requests)
              + if ip == q.ip && q.lo <= r.at <= q.hi && (q.answeredOnly ==> !Refuses(requests, ip, r)) then 1 else 0
  {
    if ip == q.ip {
      AnsweredNext(RequestsIn(requests, ip), r, q.lo, q.hi);
      SeenNext(RequestsIn(requests, ip), r, q.lo, q.hi);
    }
  }

  // ---- The events of a connection ----

  /** The log goes on without a request being counted or answered. */
  predicate SameAccount(later: Log, earlier: Log) {
    && later.ip == earlier.ip && later.countedAt == earlier.countedAt
    && (later.answer.Some? <==> earlier.answer.Some?) && (Dispatched(later) <==> Dispatched(earlier))
  }

  lemma SameAccountKeepsBalance(logs: seq<Log>, k: nat, log: Log, total: nat, requests: map<Ip, seq<Request>>)
    requires k < |logs| && SameAccount(log, logs[k]) && Balanced(logs, total, requests)
    ensures Balanced(logs[k := log], total, requests)
  {
    DispatchedUpdate(logs, k, log);
    forall q ensures InLogs(q, logs[k := log]) == InRequests(q, requests) {
      InLogsUpdate(q, logs, k, log);
    }
  }

  /** A request is counted on the connection, and answered unless the rate check refuses it. */
  predicate CountedNow(later: Log, earlier: Log, at: int, refused: bool) {
    && later.ip == earlier.ip && earlier.countedAt.None? && later.countedAt == Some(at)
    && (later.answer.Some? <==> !refused) && !Dispatched(earlier) && Dispatched(later)
  }

  lemma CountingKeepsBalance(logs: seq<Log>, k: nat, log: Log, total: nat, requests: map<Ip, seq<Request>>, r: Request)
    requires k < |logs| && Balanced(logs, total, requests)
    requires CountedNow(log, logs[k], r.at, Refuses(requests, log.ip, r))
    ensures Balanced(logs[k := log], total + 1, Checked(requests, log.ip, r))
  {
    DispatchedUpdate(logs, k, log);
    forall q ensures InLogs(q, logs[k := log]) == InRequests(q, Checked(requests, log.ip, r)) {
      InLogsUpdate(q, logs, k, log);
      InRequestsNext(q, requests, log.ip, r);
    }
  }

  lemma NewConnectionKeepsBalance(logs: seq<Log>, fd: int, ip: Ip, total: nat, requests: map<Ip, seq<Request>>)
    requires Balanced(logs, total, requests)
    ensures Balanced(logs + [NewSlot(fd, ip).log], total, requests)
  {
    var log := NewSlot(fd, ip).log;
    assert (logs + [log])[..|logs|] == logs;
    forall q ensures InLogs(q, logs + [log]) == InRequests(q, requests) {
      assert InLogs(q, logs + [log]) == InLogs(q, logs);
    }
  }

  lemma AcceptKeepsBalance(t: Table, a: Accept, total: nat, requests: map<Ip, seq<Request>>)
    requires Balanced(t.logs, total, requests)
    ensures Balanced(AfterAccept(t, a).logs, total, requests)
  {
    NewConnectionKeepsBalance(t.logs, a.fd, a.ip, total, requests);
  }

  /** A connection's request is counted by the read event that completes it, and never again. */
  lemma ReadCounts(s: Slot, script: seq<Recv>, context: Context)
    requires Phase(s) && s.mask == In
    ensures !Dispatched(s.log) && s.log.countedAt.None?
    ensures var after := AfterRead(s, script, context).log;
            if Completes(s.conn, script) then CountedNow(after, s.log, context.now, context.refused)
            else SameAccount(after, s.log)
  {
  }

  /** The total after an event that completes a request, or does not. */
  function TotalAfter(total: nat, completes: bool): nat {
    if completes then total + 1 else total
  }

  function RequestsAfter(requests: map<Ip, seq<Request>>, completes: bool, ip: Ip, r: Request): map<Ip, seq<Request>> {
    if completes then Checked(requests, ip, r) else requests
  }

  lemma ReadKeepsBalance(logs: seq<Log>, k: nat, s: Slot, script: seq<Recv>, context: Context,
                         total: nat, requests: map<Ip, seq<Request>>, r: Request)
    requires k < |logs| && logs[k] == s.log && Phase(s) && s.mask == In && Balanced(logs, total, requests)
    requires context.now == r.at && context.refused == Refuses(requests, s.conn.clientIp, r)
    ensures var completes := Completes(s.conn, script);
            Balanced(logs[k := AfterRead(s, script, context).log],
                     TotalAfter(total, completes), RequestsAfter(requests, completes, s.conn.clientIp, r))
  {
    var log := AfterRead(s, script, context).log;
    ReadCounts(s, script, context);
    if Completes(s.conn, script) {
      CountingKeepsBalance(logs, k, log, total, requests, r);
    } else {
      SameAccountKeepsBalance(logs, k, log, total, requests);
    }
  }

  lemma WriteCountsNothing(s: Slot, script: seq<Send>)
    requires Phase(s) && s.mask == Out
    ensures Dispatched(s.log) && SameAccount(AfterWrite(s, script).log, s.log)
  {
  }

  lemma SweepCountsNothing(s: Slot)
    requires Phase(s)
    ensures SameAccount(Close(s, Idle).log, s.log)
  {
  }

  // ---- The table and the ledger together ----

  ghost predicate Consistent(t: Table, serverFd: int, total: nat, requests: map<Ip, seq<Request>>) {
    TableKept(t, serverFd) && Balanced(t.logs, total, requests)
  }

  /** At the start only the listener is watched, and nothing has been counted. */
  lemma ConsistentAtFirst(serverFd: int)
    ensures Consistent(Table(map[], map[serverFd := In], map[], []), serverFd, 0, map[])
  {
    forall q ensures InLogs(q, []) == InRequests(q, map[]) {
      assert RequestsIn(map[], q.ip) == [];
    }
  }

  lemma PutGrowsTable(t: Table, serverFd: int, fd: int, s: Slot)
    requires TableKept(t, serverFd) && Present(t, fd)
    requires SlotKept(s) && Extends(s.log, SlotAt(t, fd).log)
    ensures TableKept(Put(t, fd, s), serverFd) && LogsGrow(t.logs, Put(t, fd, s).logs)
  {
    assert Bound(t, fd);
    PutKeeps(t, serverFd, fd, s);
    PutGrows(t, fd, s);
  }

  lemma ReadKeeps(t: Table, serverFd: int, fd: int, script: seq<Recv>, context: Context,
                  total: nat, requests: map<Ip, seq<Request>>, r: Request)
    requires Consistent(t, serverFd, total, requests) && Present(t, fd) && t.watched[fd] == In
    requires context.now == r.at && context.refused == Refuses(requests, t.conns[fd].clientIp, r)
    ensures var t', completes := Put(t, fd, AfterRead(SlotAt(t, fd), script, context)), Completes(t.conns[fd], script);
      && Consistent(t', serverFd, TotalAfter(total, completes),
                    RequestsAfter(requests, completes, t.conns[fd].clientIp, r))
      && LogsGrow(t.logs, t'.logs)
  {
    OpenIsPresent(t, serverFd, fd);
    var s := SlotAt(t, fd);
    ReadKeepsPhase(s, script, context);
    PutGrowsTable(t, serverFd, fd, AfterRead(s, script, context));
    ReadKeepsBalance(t.logs, t.ids[fd], s, script, context, total, requests, r);
  }

  lemma WriteKeeps(t: Table, serverFd: int, fd: int, script: seq<Send>, total: nat, requests: map<Ip, seq<Request>>)
    requires Consistent(t, serverFd, total, requests) && Present(t, fd) && t.watched[fd] == Out
    ensures var t' := Put(t, fd, AfterWrite(SlotAt(t, fd), script));
            Consistent(t', serverFd, total, requests) && LogsGrow(t.logs, t'.logs)
  {
    OpenIsPresent(t, serverFd, fd);
    var s := SlotAt(t, fd);
    WriteKeepsPhase(s, script);
    PutGrowsTable(t, serverFd, fd, AfterWrite(s, script));
    WriteCountsNothing(s, script);
    SameAccountKeepsBalance(t.logs, t.ids[fd], AfterWrite(s, script).log, total, requests);
  }

  lemma SweepKeeps(t: Table, serverFd: int, fd: int, total: nat, requests: map<Ip, seq<Request>>)
    requires Consistent(t, serverFd, total, requests) && Present(t, fd)
    ensures var t' := Put(t, fd, Close(SlotAt(t, fd), Idle));
            Consistent(t', serverFd, total, requests) && LogsGrow(t.logs, t'.logs)
  {
    OpenIsPresent(t, serverFd, fd);
    var s := SlotAt(t, fd);
    SweepKeepsPhase(s);
    PutGrowsTable(t, serverFd, fd, Close(s, Idle));
    SweepCountsNothing(s);
    SameAccountKeepsBalance(t.logs, t.ids[fd], Close(s, Idle).log, total, requests);
  }

  lemma AcceptingKeeps(t: Table, serverFd: int, a: Accept, total: nat, requests: map<Ip, seq<Request>>)
    requires Consistent(t, serverFd, total, requests) && a.fd !in t.conns && a.fd != serverFd
    ensures a.fd !in t.watched && Consistent(AfterAccept(t, a), serverFd, total, requests)
  {
    AcceptKeeps(t, serverFd, a);
    AcceptKeepsBalance(t, a, total, requests);
  }

  /** Whatever the server has done: at most 101 requests of an address recorded in one second were answered. */
  lemma AnswersBounded(logs: seq<Log>, total: nat, requests: map<Ip, seq<Request>>, ip: Ip, t: int)
    requires Balanced(logs, total, requests) && Ordered(RequestsIn(requests, ip))
    ensures InLogs(Query(ip, t, t + SECOND - 1, true), logs) <= 101
  {
    var rs, q := RequestsIn(requests, ip), Query(ip, t, t + SECOND - 1, true);
    BoundUpTo(rs, |rs|, t);
    assert InLogs(q, logs) == InRequests(q, requests) == AdmittedIn(rs, |rs|, t);
  }
}
