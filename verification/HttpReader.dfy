/**
  * An independent reader of responses: RFC 9112 sections 2.1 (lines end with CRLF, an empty line ends
  * the head), 5 (field names are case-insensitive, whitespace around a value is not part of it) and
  * 6.2 and 6.3 (one Content-Length gives the number of body octets).
  */
module HttpReader {
  import opened Http

  datatype LineRead = NoLine | Line(text: string, rest: string)

  function ReadLine(s: string): (r: LineRead)
    ensures r.Line? ==> |r.rest| < |s|
  {
    if |s| < 2 then NoLine
    else if s[0] == '\r' && s[1] == '\n' then Line([], s[2..])
    else
      match ReadLine(s[1..])
      case NoLine => NoLine
      case Line(text, rest) => Line([s[0]] + text, rest)
  }

  datatype Head = BadHead | Head(lines: seq<string>, rest: string)

  function ReadHead(s: string): Head
    decreases |s|
  {
    match ReadLine(s)
    case NoLine => BadHead
    case Line(text, rest) =>
      if text == [] then Head([], rest)
      else
        match ReadHead(rest)
        case BadHead => BadHead
        case Head(lines, body) => Head([text] + lines, body)
  }

  datatype Field = NoField | Field(name: string, value: string)

  function SplitField(line: string): Field {
    if line == [] then NoField
    else if line[0] == ':' then Field([], line[1..])
    else
      match SplitField(line[1..])
      case NoField => NoField
      case Field(name, value) => Field([line[0]] + name, value)
  }

  function Lower(c: char): char {
    if 'A' <= c <= 'Z' then (c as int + 32) as char else c
  }

  predicate SameIgnoringCase(a: string, b: string) {
    |a| == |b| && forall i :: 0 <= i < |a| ==> Lower(a[i]) == Lower(b[i])
  }

  predicate IsBlank(c: char) { c == ' ' || c == '\t' }

  function TrimLeft(s: string): string {
    if s != [] && IsBlank(s[0]) then TrimLeft(s[1..]) else s
  }

  function TrimRight(s: string): string {
    if s != [] && IsBlank(s[|s| - 1]) then TrimRight(s[..|s| - 1]) else s
  }

  /** The values of all fields of that name. */
  function FieldValues(lines: seq<string>, wanted: string): seq<string> {
    if lines == [] then []
    else
      var rest := FieldValues(lines[1..], wanted);
      match SplitField(lines[0])
      case NoField => rest
      case Field(name, value) =>
        if SameIgnoringCase(name, wanted) then [TrimRight(TrimLeft(value))] + rest else rest
  }

  predicate IsDigit(c: char) { '0' <= c <= '9' }

  function ParseDecimal(s: string): Option<nat> {
    if s == [] then None
    else if !IsDigit(s[|s| - 1]) then None
    else
      var d := s[|s| - 1] as int - '0' as int;
      if |s| == 1 then Some(d)
      else
        match ParseDecimal(s[..|s| - 1])
        case None => None
        case Some(n) => Some(10 * n + d)
  }

  datatype Message = Malformed | Message(statusLine: string, body: string, leftover: string)

  function ReadResponse(s: string): Message {
    match ReadHead(s)
    case BadHead => Malformed
    case Head(lines, rest) =>
      if lines == [] then Malformed
      else
        var lengths := FieldValues(lines[1..], "content-length");
        if |lengths| != 1 then Malformed
        else
          match ParseDecimal(lengths[0])
          case None => Malformed
          case Some(n) => if n > |rest| then Malformed else Message(lines[0], rest[..n], rest[n..])
  }

  /** The values that a message gives a field, by name. */
  function ValuesOf(s: string, wanted: string): seq<string> {
    match ReadHead(s)
    case BadHead => []
    case Head(lines, _) => if lines == [] then [] else FieldValues(lines[1..], wanted)
  }

  // ---- Lines ----

  predicate Without(s: string, c: char) {
    forall i :: 0 <= i < |s| ==> s[i] != c
  }

  lemma {:induction false} ReadLineOf(l: string, rest: string)
    requires Without(l, '\r')
    ensures ReadLine(Terminated(l, rest)) == Line(l, rest)
  {
    var s := Terminated(l, rest);
    if l == [] {
      assert s[2..] == rest;
    } else {
      assert s[1..] == Terminated(l[1..], rest);
      ReadLineOf(l[1..], rest);
      assert [l[0]] + l[1..] == l;
    }
  }

  function AddLine(line: string, head: Head): Head {
    match head
    case BadHead => BadHead
    case Head(lines, rest) => Head([line] + lines, rest)
  }

  lemma ReadHeadOf(l: string, rest: string)
    requires Without(l, '\r') && l != []
    ensures ReadHead(Terminated(l, rest)) == AddLine(l, ReadHead(rest))
  {
    ReadLineOf(l, rest);
  }

  lemma ReadHeadEnd(body: string)
    ensures ReadHead(Terminated("", body)) == Head([], body)
  {
    ReadLineOf("", body);
  }

  // ---- Fields ----

  lemma {:induction false} SplitFieldOf(name: string, value: string)
    requires Without(name, ':')
    ensures SplitField(FieldLine(name, value)) == Field(name, value)
  {
    var line := FieldLine(name, value);
    if name == [] {
      assert line[1..] == value;
    } else {
      assert line[1..] == FieldLine(name[1..], value);
      SplitFieldOf(name[1..], value);
      assert [name[0]] + name[1..] == name;
    }
  }

  lemma FieldLineIsLine(name: string, value: string)
    requires Without(name, '\r') && Without(value, '\r')
    ensures Without(FieldLine(name, value), '\r') && FieldLine(name, value) != []
  {
  }

  lemma OtherField(name: string, value: string, lines: seq<string>, wanted: string)
    requires Without(name, ':') && |name| != |wanted|
    ensures FieldValues([FieldLine(name, value)] + lines, wanted) == FieldValues(lines, wanted)
  {
    SplitFieldOf(name, value);
    assert ([FieldLine(name, value)] + lines)[1..] == lines;
  }

  lemma WantedField(name: string, value: string, lines: seq<string>, wanted: string)
    requires Without(name, ':') && SameIgnoringCase(name, wanted)
    ensures FieldValues([FieldLine(name, value)] + lines, wanted)
         == [TrimRight(TrimLeft(value))] + FieldValues(lines, wanted)
  {
    SplitFieldOf(name, value);
    assert ([FieldLine(name, value)] + lines)[1..] == lines;
  }

  // ---- Numbers ----

  lemma {:induction false} DecimalIsDigits(n: nat)
    ensures Decimal(n) != [] && forall i :: 0 <= i < |Decimal(n)| ==> IsDigit(Decimal(n)[i])
  {
    if n >= 10 {
      DecimalIsDigits(n / 10);
    }
  }

  /** Printing and parsing decimal numbers are inverse. */
  lemma {:induction false} DecimalRoundTrip(n: nat)
    ensures ParseDecimal(Decimal(n)) == Some(n)
  {
    if n >= 10 {
      DecimalRoundTrip(n / 10);
      DecimalIsDigits(n / 10);
      var s := Decimal(n);
      assert s[..|s| - 1] == Decimal(n / 10);
    }
  }

  /** No number is printed with a leading zero. */
  lemma {:induction false} DecimalIsCanonical(n: nat)
    ensures Decimal(n) != [] && (Decimal(n)[0] == '0' <==> n == 0)
    ensures n == 0 ==> Decimal(n) == "0"
  {
    if n >= 10 {
      DecimalIsCanonical(n / 10);
      DecimalIsDigits(n / 10);
    }
  }

  lemma DecimalTrims(n: nat)
    ensures TrimRight(TrimLeft(" " + Decimal(n))) == Decimal(n)
    ensures Without(" " + Decimal(n), '\r')
  {
    DecimalIsDigits(n);
    assert (" " + Decimal(n))[1..] == Decimal(n);
  }

  // ---- Responses ----

  lemma Names()
    ensures Without(LENGTH_NAME, ':') && Without(LENGTH_NAME, '\r') && |LENGTH_NAME| == 14
    ensures Without(CONNECTION_NAME, ':') && Without(CONNECTION_NAME, '\r') && |CONNECTION_NAME| == 10
    ensures Without(TYPE_NAME, ':') && Without(TYPE_NAME, '\r') && |TYPE_NAME| == 12
    ensures Without(" close", '\r')
  {
  }

  lemma NamesAreWanted()
    ensures SameIgnoringCase(LENGTH_NAME, "content-length") && |"content-length"| == 14
    ensures SameIgnoringCase(CONNECTION_NAME, "connection") && |"connection"| == 10
    ensures SameIgnoringCase(TYPE_NAME, "content-type") && |"content-type"| == 12
  {
  }

  function FramingLines(n: nat): seq<string> {
    [FieldLine(LENGTH_NAME, " " + Decimal(n))] + [FieldLine(CONNECTION_NAME, " close")]
  }

  lemma ReadFraming(body: string)
    ensures ReadHead(Framing(body)) == Head(FramingLines(|body|), body)
  {
    Names();
    var length, connection := FieldLine(LENGTH_NAME, " " + Decimal(|body|)), FieldLine(CONNECTION_NAME, " close");
    assert Without(length, '\r') && length != [] by {
      DecimalTrims(|body|);
      FieldLineIsLine(LENGTH_NAME, " " + Decimal(|body|));
    }
    assert Without(connection, '\r') && connection != [] by {
      FieldLineIsLine(CONNECTION_NAME, " close");
    }
    TwoLines(length, connection, body);
  }

  lemma TwoLines(a: string, b: string, body: string)
    requires Without(a, '\r') && a != [] && Without(b, '\r') && b != []
    ensures ReadHead(Terminated(a, Terminated(b, Terminated("", body)))) == Head([a] + [b], body)
  {
    ReadHeadEnd(body);
    ReadHeadOf(b, Terminated("", body));
    ReadHeadOf(a, Terminated(b, Terminated("", body)));
    assert [b] + [] == [b];
  }

  lemma CloseTrims()
    ensures TrimRight(TrimLeft(" close")) == "close"
  {
    assert " close"[1..] == "close";
  }

  lemma FieldsOfFraming(n: nat)
    ensures FieldValues(FramingLines(n), "content-length") == [Decimal(n)]
    ensures FieldValues(FramingLines(n), "connection") == ["close"]
    ensures FieldValues(FramingLines(n), "content-type") == []
  {
    Names();
    NamesAreWanted();
    DecimalTrims(n);
    CloseTrims();
    var close := FieldLine(CONNECTION_NAME, " close");
    WantedField(LENGTH_NAME, " " + Decimal(n), [close], "content-length");
    OtherField(LENGTH_NAME, " " + Decimal(n), [close], "connection");
    OtherField(LENGTH_NAME, " " + Decimal(n), [close], "content-type");
    LastField(close);
  }

  lemma LastField(close: string)
    requires close == FieldLine(CONNECTION_NAME, " close")
    ensures FieldValues([close], "content-length") == [] && FieldValues([close], "content-type") == []
    ensures FieldValues([close], "connection") == ["close"]
  {
    Names();
    NamesAreWanted();
    CloseTrims();
    assert [close] == [close] + [];
    OtherField(CONNECTION_NAME, " close", [], "content-length");
    OtherField(CONNECTION_NAME, " close", [], "content-type");
    WantedField(CONNECTION_NAME, " close", [], "connection");
  }

  /** The last step of reading, once the head is known. */
  lemma ReadBody(s: string, statusLine: string, fields: seq<string>, body: string)
    requires ReadHead(s) == Head([statusLine] + fields, body)
    requires FieldValues(fields, "content-length") == [Decimal(|body|)]
    ensures ReadResponse(s) == Message(statusLine, body, [])
  {
    assert ([statusLine] + fields)[1..] == fields;
    DecimalRoundTrip(|body|);
    assert body[..|body|] == body && body[|body|..] == [];
  }

  /** Whatever the body, a reader of the answer gets exactly it, and nothing is left over. */
  lemma ErrorResponseRoundTrip(statusLine: string, body: string)
    requires Without(statusLine, '\r') && statusLine != []
    ensures ReadResponse(ErrorResponse(statusLine, body)) == Message(statusLine, body, [])
    ensures ValuesOf(ErrorResponse(statusLine, body), "connection") == ["close"]
  {
    ReadFraming(body);
    FieldsOfFraming(|body|);
    ReadHeadOf(statusLine, Framing(body));
    ReadBody(ErrorResponse(statusLine, body), statusLine, FramingLines(|body|), body);
    assert ([statusLine] + FramingLines(|body|))[1..] == FramingLines(|body|);
  }

  function TypeLine(contentType: string): string {
    FieldLine(TYPE_NAME, " " + contentType)
  }

  lemma ReadOkHead(contentType: string, body: string)
    requires Without(contentType, '\r')
    ensures ReadHead(OkResponse(contentType, body))
         == Head([OK_LINE] + ([TypeLine(contentType)] + FramingLines(|body|)), body)
  {
    Names();
    OkLine();
    FieldLineIsLine(TYPE_NAME, " " + contentType);
    ReadFraming(body);
    ReadHeadOf(TypeLine(contentType), Framing(body));
    ReadHeadOf(OK_LINE, Terminated(TypeLine(contentType), Framing(body)));
  }

  lemma FieldsOfOk(contentType: string, n: nat)
    ensures var fields := [TypeLine(contentType)] + FramingLines(n);
      && FieldValues(fields, "content-length") == [Decimal(n)]
      && FieldValues(fields, "connection") == ["close"]
      && FieldValues(fields, "content-type") == [TrimRight(TrimLeft(" " + contentType))]
  {
    Names();
    NamesAreWanted();
    FieldsOfFraming(n);
    OtherField(TYPE_NAME, " " + contentType, FramingLines(n), "content-length");
    OtherField(TYPE_NAME, " " + contentType, FramingLines(n), "connection");
    WantedField(TYPE_NAME, " " + contentType, FramingLines(n), "content-type");
  }

  lemma OkResponseRoundTrip(contentType: string, body: string)
    requires Without(contentType, '\r')
    ensures ReadResponse(OkResponse(contentType, body)) == Message(OK_LINE, body, [])
    ensures ValuesOf(OkResponse(contentType, body), "content-type") == [TrimRight(TrimLeft(" " + contentType))]
    ensures ValuesOf(OkResponse(contentType, body), "connection") == ["close"]
  {
    var fields := [TypeLine(contentType)] + FramingLines(|body|);
    ReadOkHead(contentType, body);
    FieldsOfOk(contentType, |body|);
    ReadBody(OkResponse(contentType, body), OK_LINE, fields, body);
    assert ([OK_LINE] + fields)[1..] == fields;
  }

  lemma OkLine()
    ensures Without(OK_LINE, '\r') && OK_LINE != []
  {
  }

  lemma ErrorLines()
    ensures Without(UNAVAILABLE_LINE, '\r') && UNAVAILABLE_LINE != []
    ensures Without(FORBIDDEN_LINE, '\r') && FORBIDDEN_LINE != []
    ensures Without(TOO_MANY_LINE, '\r') && TOO_MANY_LINE != []
  {
  }

  /** The answers that refuse a client. */
  lemma RefusalsAreFramed()
    ensures ReadResponse(UNAVAILABLE) == Message("HTTP/1.1 503 Service Unavailable", "Service Unavailable", [])
    ensures ReadResponse(FORBIDDEN) == Message("HTTP/1.1 403 Forbidden", "IP temporarily blocked", [])
    ensures ReadResponse(TOO_MANY) == Message("HTTP/1.1 429 Too Many Requests", "Too Many Requests", [])
  {
    ErrorLines();
    ErrorResponseRoundTrip(UNAVAILABLE_LINE, "Service Unavailable");
    ErrorResponseRoundTrip(FORBIDDEN_LINE, "IP temporarily blocked");
    ErrorResponseRoundTrip(TOO_MANY_LINE, "Too Many Requests");
  }

  /** The octets of a message: its lines, each with its end, then the body. */
  function Octets(lines: seq<string>, body: string): string {
    if lines == [] then body else lines[0] + "\r\n" + Octets(lines[1..], body)
  }

  lemma OctetsNext(line: string, lines: seq<string>, body: string)
    ensures Octets([line] + lines, body) == Terminated(line, Octets(lines, body))
  {
    assert ([line] + lines)[1..] == lines;
  }

  lemma LengthText(length: string)
    ensures FieldLine(LENGTH_NAME, " " + length) == "Content-Length: " + length
  {
    assert LENGTH_NAME + ":" + " " == "Content-Length: ";
    assert LENGTH_NAME + ":" + (" " + length) == (LENGTH_NAME + ":" + " ") + length;
  }

  lemma TypeText(contentType: string)
    ensures TypeLine(contentType) == "Content-Type: " + contentType
  {
    assert TYPE_NAME + ":" + " " == "Content-Type: ";
    assert TYPE_NAME + ":" + (" " + contentType) == (TYPE_NAME + ":" + " ") + contentType;
  }

  lemma CloseText()
    ensures FieldLine(CONNECTION_NAME, " close") == "Connection: close"
  {
  }

  /** The lines that frame a body of that length. */
  function FramingText(n: nat): seq<string> {
    ["Content-Length: " + Decimal(n)] + (["Connection: close"] + ([""] + []))
  }

  lemma FramingOctets(body: string)
    ensures Framing(body) == Octets(FramingText(|body|), body)
  {
    LengthText(Decimal(|body|));
    CloseText();
    OctetsNext("", [], body);
    OctetsNext("Connection: close", [""] + [], body);
    OctetsNext("Content-Length: " + Decimal(|body|), ["Connection: close"] + ([""] + []), body);
  }

  /** The answers line by line. */
  lemma ErrorOctets(statusLine: string, body: string)
    ensures ErrorResponse(statusLine, body) == Octets([statusLine] + FramingText(|body|), body)
  {
    FramingOctets(body);
    OctetsNext(statusLine, FramingText(|body|), body);
  }

  lemma OkOctets(contentType: string, body: string)
    ensures OkResponse(contentType, body)
         == Octets(["HTTP/1.1 200 OK"] + (["Content-Type: " + contentType] + FramingText(|body|)), body)
  {
    var typeLine := "Content-Type: " + contentType;
    FramingOctets(body);
    TypeText(contentType);
    OctetsNext(typeLine, FramingText(|body|), body);
    OctetsNext("HTTP/1.1 200 OK", [typeLine] + FramingText(|body|), body);
  }

  /** The answer to any path, with any counter values. */
  lemma PagesAreFramed(path: string, totalRequests: nat, active: nat, metricsText: string)
    ensures var page := PageFor(path, totalRequests, active, metricsText);
            ReadResponse(OkResponse(page.contentType, page.body)) == Message("HTTP/1.1 200 OK", page.body, [])
  {
    var page := PageFor(path, totalRequests, active, metricsText);
    OkResponseRoundTrip(page.contentType, page.body);
  }
}
