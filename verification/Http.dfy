/**
  * The HTTP text in src/main.cpp: finding the end of a request head, picking the path, and building
  * responses. A `char` stands for one octet.
  */
module Http {

  datatype Option<T> = None | Some(value: T)

  const CRLF: string := "\r\n"

  // ---- Requests ----

  predicate EndsHeaderAt(s: string, i: nat) {
    i + 4 <= |s| && s[i] == '\r' && s[i + 1] == '\n' && s[i + 2] == '\r' && s[i + 3] == '\n'
  }

  /** Position of the first empty line, as `std::string::find` reports it. */
  function FindHeaderEnd(s: string): (r: Option<nat>)
    ensures r.Some? ==> EndsHeaderAt(s, r.value) && forall i :: 0 <= i < r.value ==> !EndsHeaderAt(s, i)
    ensures r.None? ==> forall i :: 0 <= i ==> !EndsHeaderAt(s, i)
  {
    FindFrom(s, 0)
  }

  function FindFrom(s: string, i: nat): (r: Option<nat>)
    ensures r.Some? ==> EndsHeaderAt(s, r.value) && i <= r.value
    ensures r.Some? ==> forall j :: i <= j < r.value ==> !EndsHeaderAt(s, j)
    ensures r.None? ==> forall j :: i <= j ==> !EndsHeaderAt(s, j)
    decreases if i < |s| then |s| - i else 0
  {
    if i >= |s| then None else if EndsHeaderAt(s, i) then Some(i) else FindFrom(s, i + 1)
  }

  /** The request a connection's buffer holds, if its head is complete. */
  function RequestIn(s: string): Option<string> {
    match FindHeaderEnd(s)
    case None => None
    case Some(i) => Some(s[..i + 4])
  }

  predicate IsSpace(c: char) {
    c == ' ' || c == '\t' || c == '\n' || c == '\r' || c == '\U{0B}' || c == '\U{0C}'
  }

  function SkipSpace(s: string): string {
    if s != [] && IsSpace(s[0]) then SkipSpace(s[1..]) else s
  }

  function Token(s: string): string {
    if s == [] || IsSpace(s[0]) then [] else [s[0]] + Token(s[1..])
  }

  function AfterToken(s: string): string {
    if s == [] || IsSpace(s[0]) then s else AfterToken(s[1..])
  }

  /** Second word of the request: what `stream >> method >> path` leaves in `path`. */
  function PathOf(request: string): string {
    Token(SkipSpace(AfterToken(SkipSpace(request))))
  }

  // ---- Responses ----

  function Digit(d: nat): char
    requires d < 10
  {
    ('0' as int + d) as char
  }

  /** `std::to_string` of a number that is not negative. */
  function Decimal(n: nat): string {
    if n < 10 then [Digit(n)] else Decimal(n / 10) + [Digit(n % 10)]
  }

  /** A line of the head, followed by the rest of the message. */
  function Terminated(line: string, rest: string): string {
    line + CRLF + rest
  }

  function FieldLine(name: string, value: string): string {
    name + ":" + value
  }

  const LENGTH_NAME: string := "Content-Length"
  const CONNECTION_NAME: string := "Connection"
  const TYPE_NAME: string := "Content-Type"

  /** The end of every answer: the two framing fields, the empty line, the body. */
  function Framing(body: string): string {
    Terminated(FieldLine(LENGTH_NAME, " " + Decimal(|body|)),
    Terminated(FieldLine(CONNECTION_NAME, " close"),
    Terminated("", body)))
  }

  /** The 403, 429 and 503 answers. */
  function ErrorResponse(statusLine: string, body: string): string {
    Terminated(statusLine, Framing(body))
  }

  function OkResponse(contentType: string, body: string): string {
    Terminated(OK_LINE, Terminated(FieldLine(TYPE_NAME, " " + contentType), Framing(body)))
  }

  const UNAVAILABLE_LINE: string := "HTTP/1.1 503 Service Unavailable"
  const FORBIDDEN_LINE: string := "HTTP/1.1 403 Forbidden"
  const TOO_MANY_LINE: string := "HTTP/1.1 429 Too Many Requests"
  const OK_LINE: string := "HTTP/1.1 200 OK"

  const UNAVAILABLE: string := ErrorResponse(UNAVAILABLE_LINE, "Service Unavailable")
  const FORBIDDEN: string := ErrorResponse(FORBIDDEN_LINE, "IP temporarily blocked")
  const TOO_MANY: string := ErrorResponse(TOO_MANY_LINE, "Too Many Requests")

  function StatsBody(totalRequests: nat, activeConnections: nat): string {
    "{\n  \"total_requests\": " + Decimal(totalRequests) +
    ",\n  \"active_connections\": " + Decimal(activeConnections) + "\n}"
  }

  /** The content type and body served for a path. */
  datatype Page = Page(contentType: string, body: string)

  function PageFor(path: string, totalRequests: nat, activeConnections: nat, metricsText: string): Page {
    if path == "/stats" then Page("application/json", StatsBody(totalRequests, activeConnections))
    else if path == "/metrics" then Page("text/plain", metricsText)
    else Page("text/plain", "Monitoring EPOLLET Server")
  }
}
