/** From the octets a client sent to the page it gets: which request, which target, which answer. */
module PageTheorems {
  import opened Http
  import opened HttpReader
  import opened Addresses
  import opened ClientConnection
  import opened ConnectionTable

  // ---- The request in a stream ----

  lemma EmptyLineAt(s: string, i: nat)
    ensures EndsHeaderAt(s, i) <==> i + 4 <= |s| && s[i..i + 4] == "\r\n\r\n"
  {
    if i + 4 <= |s| {
      var four := s[i..i + 4];
      assert four == [s[i], s[i + 1], s[i + 2], s[i + 3]];
      assert "\r\n\r\n" == ['\r', '\n', '\r', '\n'];
    }
  }

  /** `k` octets of the stream end with an empty line. */
  predicate EndsWithEmptyLine(s: string, k: nat) {
    4 <= k <= |s| && s[k - 4..k] == "\r\n\r\n"
  }

  /** The request is the shortest prefix of the stream that ends with an empty line. */
  lemma RequestIsUpToEmptyLine(s: string)
    ensures match RequestIn(s)
            case None => forall k: nat :: !EndsWithEmptyLine(s, k)
            case Some(r) => r <= s && EndsWithEmptyLine(s, |r|) && forall k: nat :: k < |r| ==> !EndsWithEmptyLine(s, k)
  {
    forall k: nat ensures EndsWithEmptyLine(s, k) ==> EndsHeaderAt(s, k - 4) {
      if k >= 4 {
        EmptyLineAt(s, k - 4);
      }
    }
    if FindHeaderEnd(s).Some? {
      EmptyLineAt(s, FindHeaderEnd(s).value);
    }
  }

  // ---- The target of a request ----

  const WHITESPACE: string := " \t\n\r\U{0B}\U{0C}"

  lemma WhitespaceIsSpace(c: char)
    ensures IsSpace(c) <==> c in WHITESPACE
  {
    assert WHITESPACE == [' ', '\t', '\n', '\r', '\U{0B}', '\U{0C}'];
  }

  predicate IsWord(s: string) {
    s != [] && forall c :: c in s ==> c !in WHITESPACE
  }

  predicate IsGap(s: string) {
    forall c :: c in s ==> c in WHITESPACE
  }

  lemma {:induction false} SkipGap(gap: string, rest: string)
    requires IsGap(gap) && (rest == [] || rest[0] !in WHITESPACE)
    ensures SkipSpace(gap + rest) == rest
  {
    if gap == [] {
      assert gap + rest == rest;
      if rest != [] {
        WhitespaceIsSpace(rest[0]);
      }
    } else {
      WhitespaceIsSpace(gap[0]);
      assert gap[0] in gap && (gap + rest)[1..] == gap[1..] + rest;
      SkipGap(gap[1..], rest);
    }
  }

  lemma {:induction false} TokenOf(word: string, rest: string)
    requires (forall c :: c in word ==> c !in WHITESPACE) && (rest == [] || rest[0] in WHITESPACE)
    ensures Token(word + rest) == word && AfterToken(word + rest) == rest
  {
    if word == [] {
      assert word + rest == rest;
      if rest != [] {
        WhitespaceIsSpace(rest[0]);
      }
    } else {
      WhitespaceIsSpace(word[0]);
      assert word[0] in word && (word + rest)[1..] == word[1..] + rest;
      TokenOf(word[1..], rest);
      assert [word[0]] + word[1..] == word;
    }
  }

  /** The server dispatches on the second word of a request, whatever white space separates the words. */
  lemma PathIsSecondWord(lead: string, verb: string, gap: string, target: string, tail: string)
    requires IsGap(lead) && IsWord(verb) && IsGap(gap) && gap != [] && IsWord(target)
    requires tail == [] || tail[0] in WHITESPACE
    ensures PathOf(lead + (verb + (gap + (target + tail)))) == target
  {
    assert verb[0] in verb && target[0] in target && gap[0] in gap;
    SkipGap(lead, verb + (gap + (target + tail)));
    TokenOf(verb, gap + (target + tail));
    SkipGap(gap, target + tail);
    TokenOf(target, tail);
  }

  /** Without a second word the path is empty. */
  lemma NoSecondWord(lead: string, verb: string, gap: string)
    requires IsGap(lead) && IsWord(verb) && IsGap(gap)
    ensures PathOf(lead + (verb + gap)) == ""
  {
    assert verb[0] in verb && (gap != [] ==> gap[0] in gap);
    SkipGap(lead, verb + gap);
    TokenOf(verb, gap);
    SkipGap(gap, "");
    assert gap + "" == gap;
  }

  lemma SingleSpace()
    ensures IsGap(" ") && " "[0] in WHITESPACE
  {
    assert WHITESPACE[0] == ' ';
  }

  /** Of a request line (RFC 9112 section 3) the server dispatches on the request target. */
  lemma PathIsRequestTarget(verb: string, target: string, version: string)
    requires IsWord(verb) && IsWord(target)
    ensures PathOf(verb + (" " + (target + (" " + version)))) == target
  {
    SingleSpace();
    var request := verb + (" " + (target + (" " + version)));
    assert "" + request == request;
    PathIsSecondWord("", verb, " ", target, " " + version);
  }

  lemma NoCarriageReturn(s: string)
    requires IsWord(s)
    ensures Without(s, '\r')
  {
    assert WHITESPACE[3] == '\r';
    forall i | 0 <= i < |s| ensures s[i] != '\r' {
      assert s[i] in s;
    }
  }

  /** The request line of a stream ends before its first empty line. */
  lemma RequestKeepsLine(line: string, after: string)
    requires Without(line, '\r') && RequestIn(line + after).Some?
    ensures exists version :: RequestIn(line + after) == Some(line + version)
  {
    var stream := line + after;
    var i := FindHeaderEnd(stream).value;
    assert forall k :: 0 <= k < |line| ==> stream[k] == line[k];
    var version := after[..i + 4 - |line|];
    assert stream[..i + 4] == line + version;
  }

  /** A stream that starts with a request line is answered by the target of that line. */
  lemma TargetOfStream(verb: string, target: string, after: string)
    requires IsWord(verb) && IsWord(target)
    requires RequestIn(verb + (" " + (target + (" " + after)))).Some?
    ensures PathOf(RequestIn(verb + (" " + (target + (" " + after)))).value) == target
  {
    var line := verb + (" " + (target + " "));
    assert line + after == verb + (" " + (target + (" " + after)));
    NoCarriageReturn(verb);
    NoCarriageReturn(target);
    RequestKeepsLine(line, after);
    var version :| RequestIn(line + after) == Some(line + version);
    assert line + version == verb + (" " + (target + (" " + version)));
    PathIsRequestTarget(verb, target, version);
  }

  // ---- A reader of the statistics page ----

  /** What follows the first occurrence of a name. */
  function AfterLabel(s: string, name: string): Option<string> {
    if name <= s then Some(s[|name|..])
    else if s == [] then None
    else AfterLabel(s[1..], name)
  }

  function LeadingDigits(s: string): string {
    if s == [] || !IsDigit(s[0]) then [] else [s[0]] + LeadingDigits(s[1..])
  }

  function NumberAfter(s: string, name: string): Option<nat> {
    match AfterLabel(s, name)
    case None => None
    case Some(rest) => ParseDecimal(LeadingDigits(rest))
  }

  lemma {:induction false} LeadingDigitsOf(digits: string, rest: string)
    requires (forall i :: 0 <= i < |digits| ==> IsDigit(digits[i])) && (rest == [] || !IsDigit(rest[0]))
    ensures LeadingDigits(digits + rest) == digits
  {
    if digits == [] {
      assert digits + rest == rest;
    } else {
      assert (digits + rest)[1..] == digits[1..] + rest;
      LeadingDigitsOf(digits[1..], rest);
      assert [digits[0]] + digits[1..] == digits;
    }
  }

  lemma BeginsAlike(s: string, name: string)
    requires |name| >= 2
    ensures name <= s ==> s[0] == name[0] && s[1] == name[1]
  {
  }

  /** A name begins with these two characters, and they do not follow each other in what is skipped. */
  lemma {:induction false} SkipTo(skipped: string, rest: string, name: string)
    requires |name| >= 2 && rest != []
    requires forall i :: 0 <= i < |skipped| && (skipped + rest)[i] == name[0] ==> (skipped + rest)[i + 1] != name[1]
    ensures AfterLabel(skipped + rest, name) == AfterLabel(rest, name)
  {
    if skipped == [] {
      assert skipped + rest == rest;
    } else {
      var s := skipped + rest;
      BeginsAlike(s, name);
      assert s[1..] == skipped[1..] + rest;
      forall i | 0 <= i < |skipped[1..]| && (skipped[1..] + rest)[i] == name[0]
        ensures (skipped[1..] + rest)[i + 1] != name[1]
      {
        assert s[i + 1] == (skipped[1..] + rest)[i] && s[i + 2] == (skipped[1..] + rest)[i + 1];
      }
      SkipTo(skipped[1..], rest, name);
    }
  }

  lemma NumberRead(name: string, n: nat, rest: string)
    requires rest == [] || !IsDigit(rest[0])
    ensures NumberAfter(name + (Decimal(n) + rest), name) == Some(n)
  {
    var s := name + (Decimal(n) + rest);
    assert name <= s && s[|name|..] == Decimal(n) + rest;
    DecimalIsDigits(n);
    LeadingDigitsOf(Decimal(n), rest);
    DecimalRoundTrip(n);
  }

  const TOTAL: string := "\"total_requests\": "
  const ACTIVE: string := "\"active_connections\": "
  const OPENING: string := "{\n  "
  const BETWEEN: string := ",\n  "

  lemma FirstLabel()
    ensures "{\n  \"total_requests\": " == OPENING + TOTAL
  {
  }

  lemma SecondLabel()
    ensures ",\n  \"active_connections\": " == BETWEEN + ACTIVE
  {
  }

  lemma Regroup(a: string, b: string, c: string, d: string, e: string, f: string, g: string)
    ensures (a + b) + c + (d + e) + f + g == a + (b + (c + (d + (e + (f + g)))))
  {
  }

  lemma StatsBodyParts(total: nat, active: nat)
    ensures StatsBody(total, active)
         == OPENING + (TOTAL + (Decimal(total) + (BETWEEN + (ACTIVE + (Decimal(active) + "\n}")))))
  {
    FirstLabel();
    SecondLabel();
    Regroup(OPENING, TOTAL, Decimal(total), BETWEEN, ACTIVE, Decimal(active), "\n}");
  }

  lemma SkipOpening(rest: string, name: string)
    requires |name| >= 2 && name[0] == '"' && rest != [] && rest[0] == '"'
    ensures AfterLabel(OPENING + rest, name) == AfterLabel(rest, name)
    ensures AfterLabel(BETWEEN + rest, name) == AfterLabel(rest, name)
  {
    SkipTo(OPENING, rest, name);
    SkipTo(BETWEEN, rest, name);
  }

  /** Neither the first name nor its number is taken for the second name. */
  lemma SkipTotal(total: nat, rest: string)
    requires rest != [] && rest[0] == ','
    ensures AfterLabel(TOTAL + (Decimal(total) + rest), ACTIVE) == AfterLabel(rest, ACTIVE)
  {
    DecimalIsDigits(total);
    assert ACTIVE[0] == '"' && ACTIVE[1] == 'a';
    SkipTo(Decimal(total), rest, ACTIVE);
    assert (Decimal(total) + rest)[0] != 'a';
    SkipTo(TOTAL, Decimal(total) + rest, ACTIVE);
  }

  lemma FirstNumber(total: nat, rest: string)
    requires rest != [] && rest[0] == ','
    ensures NumberAfter(OPENING + (TOTAL + (Decimal(total) + rest)), TOTAL) == Some(total)
  {
    assert TOTAL[0] == '"';
    SkipOpening(TOTAL + (Decimal(total) + rest), TOTAL);
    NumberRead(TOTAL, total, rest);
  }

  lemma SecondNumber(total: nat, active: nat)
    ensures NumberAfter(OPENING + (TOTAL + (Decimal(total) + (BETWEEN + (ACTIVE + (Decimal(active) + "\n}"))))), ACTIVE)
         == Some(active)
  {
    var last := ACTIVE + (Decimal(active) + "\n}");
    assert TOTAL[0] == '"' && ACTIVE[0] == '"' && BETWEEN[0] == ',';
    SkipOpening(TOTAL + (Decimal(total) + (BETWEEN + last)), ACTIVE);
    SkipTotal(total, BETWEEN + last);
    SkipOpening(last, ACTIVE);
    NumberRead(ACTIVE, active, "\n}");
  }

  /** On the statistics page a reader finds the two numbers under their names. */
  lemma StatsNumbers(total: nat, active: nat)
    ensures NumberAfter(StatsBody(total, active), "\"total_requests\": ") == Some(total)
    ensures NumberAfter(StatsBody(total, active), "\"active_connections\": ") == Some(active)
  {
    StatsBodyParts(total, active);
    assert BETWEEN[0] == ',';
    FirstNumber(total, BETWEEN + (ACTIVE + (Decimal(active) + "\n}")));
    SecondNumber(total, active);
  }

  // ---- The answer ----

  /** What a reader gets from the answer to a target: status, type and content. */
  predicate AnswersTarget(answer: string, target: string, total: nat, active: nat, metricsText: string) {
    match ReadResponse(answer)
    case Malformed => false
    case Message(statusLine, body, leftover) =>
      && statusLine == "HTTP/1.1 200 OK" && leftover == ""
      && ValuesOf(answer, "connection") == ["close"]
      && if target == "/stats" then
           && ValuesOf(answer, "content-type") == ["application/json"]
           && NumberAfter(body, "\"total_requests\": ") == Some(total)
           && NumberAfter(body, "\"active_connections\": ") == Some(active)
           && body != "" && body[0] == '{' && body[|body| - 1] == '}'
         else
           && ValuesOf(answer, "content-type") == ["text/plain"]
           && body == if target == "/metrics" then metricsText else "Monitoring EPOLLET Server"
  }

  lemma TypesTrim()
    ensures Without("application/json", '\r') && TrimRight(TrimLeft(" " + "application/json")) == "application/json"
    ensures Without("text/plain", '\r') && TrimRight(TrimLeft(" " + "text/plain")) == "text/plain"
  {
    assert (" " + "application/json")[1..] == "application/json";
    assert (" " + "text/plain")[1..] == "text/plain";
  }

  lemma PageAnswersTarget(target: string, total: nat, active: nat, metricsText: string)
    ensures var page := PageFor(target, total, active, metricsText);
            AnswersTarget(OkResponse(page.contentType, page.body), target, total, active, metricsText)
  {
    var page := PageFor(target, total, active, metricsText);
    TypesTrim();
    OkResponseRoundTrip(page.contentType, page.body);
    StatsNumbers(total, active);
  }

  /** The answer of a connection whose stream starts with a request line is the one for that line's target. */
  lemma AnswerByTarget(log: Log, verb: string, target: string, after: string)
    requires AnswersRequest(log) && IsWord(verb) && IsWord(target)
    requires log.received == verb + (" " + (target + (" " + after)))
    ensures var a := log.answer.value;
            AnswersTarget(a.response, target, a.totalRequests, a.active, a.metricsText)
  {
    var a := log.answer.value;
    TargetOfStream(verb, target, after);
    PageAnswersTarget(target, a.totalRequests, a.active, a.metricsText);
  }

  // ---- Clients turned away ----

  /** A list of answers that is one message with this status and this body. */
  predicate IsMessage(answers: seq<string>, statusLine: string, body: string) {
    |answers| == 1 && ReadResponse(answers[0]) == Message(statusLine, body, [])
  }

  /** A pending connection gets a 503 at 1000 connections, else a 403 if blocked, else it is let in to be read. */
  lemma AcceptOutcome(t: Table, a: Accept)
    ensures if |t.conns| >= 1000 then
              && AfterAccept(t, a) == t
              && IsMessage(AnswerTo(t, a), "HTTP/1.1 503 Service Unavailable", "Service Unavailable")
            else if a.blocked then
              && AfterAccept(t, a) == t
              && IsMessage(AnswerTo(t, a), "HTTP/1.1 403 Forbidden", "IP temporarily blocked")
            else
              && AnswerTo(t, a) == []
              && AfterAccept(t, a).conns == t.conns[a.fd := Connection(a.ip, "", "")]
              && AfterAccept(t, a).watched == t.watched[a.fd := In]
              && AfterAccept(t, a).ids == t.ids[a.fd := |t.logs|]
              && AfterAccept(t, a).logs == t.logs + [Log(a.fd, a.ip, "", None, None, "", None)]
  {
    if |t.conns| >= 1000 {
      FullOutcome(t, a);
    } else if a.blocked {
      BlockedOutcome(t, a);
    }
  }

  lemma FullOutcome(t: Table, a: Accept)
    requires |t.conns| >= 1000
    ensures AnswerTo(t, a) == [UNAVAILABLE]
    ensures IsMessage([UNAVAILABLE], "HTTP/1.1 503 Service Unavailable", "Service Unavailable")
  {
    RefusalsAreFramed();
  }

  lemma BlockedOutcome(t: Table, a: Accept)
    requires |t.conns| < 1000 && a.blocked
    ensures AnswerTo(t, a) == [FORBIDDEN]
    ensures IsMessage([FORBIDDEN], "HTTP/1.1 403 Forbidden", "IP temporarily blocked")
  {
    RefusalsAreFramed();
  }

  /** A request the rate check refuses gets a 429, any other nothing at once. */
  lemma RefusalOutcome(completes: bool, c: Context)
    ensures if completes && c.refused then
              IsMessage(Refusal(completes, c), "HTTP/1.1 429 Too Many Requests", "Too Many Requests")
            else Refusal(completes, c) == []
  {
    RefusalsAreFramed();
  }
}
