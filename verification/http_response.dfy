/** What a response looks like, a reader for it, when a bounded buffer takes it, and what the
    calculated size means. */
module HttpResponse {
  import opened Wire
  import opened HttpText

  datatype Config = Config(
    status: int,
    contentType: int,
    body: Option<string>,    // None for a null pointer
    bodyLength: nat,
    includeDate: bool)

  datatype Code = Ok | InvalidParam | Overflow

  const LENGTH_STR: nat := 16      // sizeof length_str
  const DATE_HEADER: nat := 38     // sizeof date_header
  const DATE: nat := 29            // an IMF-fixdate

  function StatusText(status: int): Option<string> {
    if status == 200 then Some("HTTP/1.1 " + "200" + " OK")
    else if status == 404 then Some("HTTP/1.1 " + "404" + " Not Found")
    else if status == 500 then Some("HTTP/1.1 " + "500" + " Internal Server Error")
    else None
  }

  function ContentTypeText(contentType: int): Option<string> {
    if contentType == 0 then Some("text/plain")
    else if contentType == 1 then Some("application/json")
    else None
  }

  predicate ValidConfig(cfg: Config) {
    StatusText(cfg.status).Some? && ContentTypeText(cfg.contentType).Some? && |Dec(cfg.bodyLength)| < LENGTH_STR
  }

  /** What callers promise about the body: the pointer covers `bodyLength` characters. */
  predicate BodyCovered(cfg: Config) {
    cfg.body.Some? ==> cfg.bodyLength <= |cfg.body.value|
  }

  /** The documented contract: the length is 0 when there is no body. */
  predicate HonoursContract(cfg: Config) {
    BodyCovered(cfg) && (cfg.body.None? ==> cfg.bodyLength == 0)
  }

  // ----- the serialisation -----

  function BodyText(cfg: Config): string
    requires BodyCovered(cfg)
  {
    if cfg.body.None? then "" else cfg.body.value[..cfg.bodyLength]
  }

  function DateLines(cfg: Config, date: string): seq<string> {
    if cfg.includeDate then ["Date: " + date] else []
  }

  function HeaderLines(cfg: Config, date: string): seq<string>
    requires StatusText(cfg.status).Some? && ContentTypeText(cfg.contentType).Some?
  {
    [StatusText(cfg.status).value, "Server: L"] + DateLines(cfg, date)
    + ["Content-Type: " + ContentTypeText(cfg.contentType).value]
    + ["Content-Length: " + Dec(cfg.bodyLength)]
  }

  function Serialise(cfg: Config, date: string): string
    requires ValidConfig(cfg) && BodyCovered(cfg)
  {
    Lines(HeaderLines(cfg, date)) + "\r\n" + BodyText(cfg)
  }

  // ----- the reader -----

  datatype Response = Response(status: nat, contentType: string, body: string)

  function StatusOf(line: string): Option<nat> {
    if |line| < 12 || line[..9] != "HTTP/1.1 " then None else ParseDec(line[9..12])
  }

  /** The value of the first header field with this name. */
  function FieldValue(lines: seq<string>, name: string): Option<string> {
    if lines == [] then None
    else if name + ": " <= lines[0] then Some(lines[0][|name| + 2..])
    else FieldValue(lines[1..], name)
  }

  /** Header lines up to an empty one, then as many characters of body as Content-Length says. */
  function ParseResponse(s: string): (r: Option<(Response, string)>)
    ensures r.Some? ==> |r.value.1| < |s|
  {
    match TakeHead(s)
    case None => None
    case Some((lines, rest)) =>
      if lines == [] then None
      else
        match (StatusOf(lines[0]), FieldValue(lines[1..], "Content-Type"), FieldValue(lines[1..], "Content-Length"))
        case (Some(status), Some(contentType), Some(length)) =>
          (match ParseDec(length)
           case None => None
           case Some(n) => if n > |rest| then None else Some((Response(status, contentType, rest[..n]), rest[n..])))
        case _ => None
  }

  function ParseResponses(s: string): Option<seq<Response>>
    decreases |s|
  {
    if s == [] then Some([])
    else
      match ParseResponse(s)
      case None => None
      case Some((r, rest)) =>
        match ParseResponses(rest)
        case None => None
        case Some(rs) => Some([r] + rs)
  }

  function Meant(cfg: Config): Response
    requires ValidConfig(cfg) && BodyCovered(cfg) && cfg.status >= 0
  {
    Response(cfg.status, if cfg.contentType == 0 then "text/plain" else "application/json", BodyText(cfg))
  }

  // ----- round trip -----

  /** What `strftime` leaves in its 30-byte buffer. */
  ghost predicate PlainDate(date: string) {
    |date| <= DATE && forall c <- date :: c != '\r' && c != '\0'
  }

  lemma StatusLineReads(status: int)
    requires StatusText(status).Some?
    ensures Plain(StatusText(status).value) && StatusText(status).value != []
    ensures StatusOf(StatusText(status).value) == Some(status)
  {
    if status == 200 {
      LineReads("200", " OK");
    } else if status == 404 {
      LineReads("404", " Not Found");
    } else {
      LineReads("500", " Internal Server Error");
    }
  }

  function ThreeDigitNumber(s: string): nat
    requires |s| == 3 && '0' <= s[0] <= '9' && '0' <= s[1] <= '9' && '0' <= s[2] <= '9'
  {
    100 * (s[0] as int - '0' as int) + 10 * (s[1] as int - '0' as int) + (s[2] as int - '0' as int)
  }

  lemma LineReads(code: string, reason: string)
    requires |code| == 3 && '0' <= code[0] <= '9' && '0' <= code[1] <= '9' && '0' <= code[2] <= '9' && Plain(reason)
    ensures var line := "HTTP/1.1 " + code + reason;
            && Plain(line)
            && StatusOf(line) == Some(ThreeDigitNumber(code))
  {
    var line := "HTTP/1.1 " + code + reason;
    assert line[..9] == "HTTP/1.1 " && line[9..12] == code;
    ThreeDigits(code);
    PlainConcat("HTTP/1.1 ", code);
    PlainConcat("HTTP/1.1 " + code, reason);
  }

  lemma ThreeDigits(s: string)
    requires |s| == 3 && '0' <= s[0] <= '9' && '0' <= s[1] <= '9' && '0' <= s[2] <= '9'
    ensures ParseDec(s) == Some(ThreeDigitNumber(s))
  {
    assert s[..2][..1] == s[..1] && s[..1][..0] == [];
    assert Value(s[..1]) == Some(s[0] as int - '0' as int);
    assert Value(s[..2]) == Some(10 * (s[0] as int - '0' as int) + (s[1] as int - '0' as int));
  }

  lemma PlainConcat(a: string, b: string)
    requires Plain(a) && Plain(b)
    ensures Plain(a + b)
  {
    forall c <- a + b ensures c != '\r' {
      assert c in a || c in b;
    }
  }

  lemma HeaderLinesArePlain(cfg: Config, date: string)
    requires ValidConfig(cfg) && PlainDate(date)
    ensures var lines := HeaderLines(cfg, date);
            forall i :: 0 <= i < |lines| ==> Plain(lines[i]) && lines[i] != []
  {
    StatusLineReads(cfg.status);
    DecRoundTrip(cfg.bodyLength);
    PlainConcat("Date: ", date);
    PlainConcat("Content-Type: ", ContentTypeText(cfg.contentType).value);
    PlainConcat("Content-Length: ", Dec(cfg.bodyLength));
  }

  lemma SkipField(lines: seq<string>, first: string, name: string)
    requires lines != [] && lines[0] == first && |name| > 0 && |first| > 0 && first[0] != name[0]
    ensures FieldValue(lines, name) == FieldValue(lines[1..], name)
  {
    assert (name + ": ")[0] == name[0];
  }

  lemma HitField(lines: seq<string>, name: string, value: string)
    requires lines != [] && lines[0] == name + ": " + value
    ensures FieldValue(lines, name) == Some(value)
  {
    assert lines[0][|name| + 2..] == value;
  }

  lemma StatusLines(status: int)
    ensures status == 200 ==> StatusText(status) == Some("HTTP/1.1 200 OK")
    ensures status == 404 ==> StatusText(status) == Some("HTTP/1.1 404 Not Found")
    ensures status == 500 ==> StatusText(status) == Some("HTTP/1.1 500 Internal Server Error")
  {
    assert "HTTP/1.1 " + "200" + " OK" == "HTTP/1.1 200 OK";
    assert "HTTP/1.1 " + "404" + " Not Found" == "HTTP/1.1 404 Not Found";
    assert "HTTP/1.1 " + "500" + " Internal Server Error" == "HTTP/1.1 500 Internal Server Error";
  }

  lemma LinesBefore(status: string, date: seq<string>, kind: string, length: string)
    ensures var lines := [status, "Server: L"] + date + [kind] + [length];
            && lines[0] == status && lines[1] == "Server: L" && |lines| == 4 + |date|
            && (|date| == 1 ==> lines[2] == date[0])
  {
  }

  /** The lines in front of the two fields. */
  lemma FirstLines(cfg: Config, date: string)
    requires ValidConfig(cfg)
    ensures var lines := HeaderLines(cfg, date);
            && (cfg.status == 200 ==> lines[0] == "HTTP/1.1 200 OK")
            && (cfg.status == 404 ==> lines[0] == "HTTP/1.1 404 Not Found")
            && (cfg.status == 500 ==> lines[0] == "HTTP/1.1 500 Internal Server Error")
            && lines[1] == "Server: L" && |lines| == (if cfg.includeDate then 5 else 4)
            && (cfg.includeDate ==> lines[2] == "Date: " + date)
  {
    StatusLines(cfg.status);
    LinesBefore(StatusText(cfg.status).value, DateLines(cfg, date),
                "Content-Type: " + ContentTypeText(cfg.contentType).value, "Content-Length: " + Dec(cfg.bodyLength));
  }

  lemma HeaderFieldsRead(cfg: Config, date: string)
    requires ValidConfig(cfg)
    ensures var lines := HeaderLines(cfg, date)[1..];
            && (cfg.contentType == 0 ==> FieldValue(lines, "Content-Type") == Some("text/plain"))
            && (cfg.contentType == 1 ==> FieldValue(lines, "Content-Type") == Some("application/json"))
            && FieldValue(lines, "Content-Length") == Some(Dec(cfg.bodyLength))
  {
    var ct, cl := ContentTypeText(cfg.contentType).value, Dec(cfg.bodyLength);
    var lines := HeaderLines(cfg, date)[1..];
    var tail := ["Content-Type: " + ct, "Content-Length: " + cl];
    SkipField(lines, "Server: L", "Content-Type");
    SkipField(lines, "Server: L", "Content-Length");
    if cfg.includeDate {
      SkipField(lines[1..], "Date: " + date, "Content-Type");
      SkipField(lines[1..], "Date: " + date, "Content-Length");
      assert lines[1..][1..] == tail;
    } else {
      assert lines[1..] == tail;
    }
    assert "Content-Type" + ": " == "Content-Type: ";
    assert "Content-Length" + ": " == "Content-Length: ";
    HitField(tail, "Content-Type", ct);
    assert !("Content-Length: " <= tail[0]) by {
      assert tail[0][8] == 'T' && "Content-Length: "[8] == 'L';
    }
    HitField(tail[1..], "Content-Length", cl);
  }

  /** A serialised response, followed by anything, reads back as what was meant, and the
      reader stops exactly at its end. */
  lemma ResponseRoundTrip(cfg: Config, date: string, more: string)
    requires ValidConfig(cfg) && HonoursContract(cfg) && PlainDate(date)
    ensures var kind := if cfg.contentType == 0 then "text/plain" else "application/json";
            var body := if cfg.body.None? then "" else cfg.body.value[..cfg.bodyLength];
            && cfg.status > 0
            && ParseResponse(Serialise(cfg, date) + more) == Some((Response(cfg.status, kind, body), more))
  {
    var lines, body := HeaderLines(cfg, date), BodyText(cfg);
    HeaderLinesArePlain(cfg, date);
    assert Serialise(cfg, date) + more == Lines(lines) + "\r\n" + (body + more);
    TakeHeadOf(lines, body + more);
    StatusLineReads(cfg.status);
    HeaderFieldsRead(cfg, date);
    DecRoundTrip(cfg.bodyLength);
    assert (body + more)[..|body|] == body && (body + more)[|body|..] == more;
  }

  /** A configuration together with the date it was built at. */
  datatype Job = Job(cfg: Config, date: string)

  ghost predicate GoodJobs(jobs: seq<Job>) {
    forall i :: 0 <= i < |jobs| ==> ValidConfig(jobs[i].cfg) && HonoursContract(jobs[i].cfg) && PlainDate(jobs[i].date)
  }

  ghost function SerialiseAll(jobs: seq<Job>): string
    requires GoodJobs(jobs)
  {
    if jobs == [] then [] else Serialise(jobs[0].cfg, jobs[0].date) + SerialiseAll(jobs[1..])
  }

  ghost function MeantAll(jobs: seq<Job>): seq<Response>
    requires GoodJobs(jobs)
  {
    seq(|jobs|, i requires 0 <= i < |jobs| => Meant(jobs[i].cfg))
  }

  lemma MeantReads(cfg: Config, date: string, more: string, first: string, r: Response)
    requires ValidConfig(cfg) && HonoursContract(cfg) && PlainDate(date)
    requires first == Serialise(cfg, date) && r == Meant(cfg)
    ensures ParseResponse(first + more) == Some((r, more))
  {
    ResponseRoundTrip(cfg, date, more);
  }

  lemma ReadsOneMore(s: string, r: Response, more: string, rs: seq<Response>)
    requires ParseResponse(s) == Some((r, more)) && ParseResponses(more) == Some(rs)
    ensures ParseResponses(s) == Some([r] + rs)
  {
  }

  lemma MeantNext(jobs: seq<Job>)
    requires GoodJobs(jobs) && jobs != []
    ensures GoodJobs(jobs[1..]) && MeantAll(jobs) == [Meant(jobs[0].cfg)] + MeantAll(jobs[1..])
  {
  }

  /** Pipelined responses need no separators: any list of them reads back one by one. */
  lemma {:induction false} ResponsesRoundTrip(jobs: seq<Job>)
    requires GoodJobs(jobs)
    ensures ParseResponses(SerialiseAll(jobs)) == Some(MeantAll(jobs))
  {
    if jobs != [] {
      MeantNext(jobs);
      var first, more := Serialise(jobs[0].cfg, jobs[0].date), SerialiseAll(jobs[1..]);
      MeantReads(jobs[0].cfg, jobs[0].date, more, first, Meant(jobs[0].cfg));
      ResponsesRoundTrip(jobs[1..]);
      assert SerialiseAll(jobs) == first + more;
      ReadsOneMore(first + more, Meant(jobs[0].cfg), more, MeantAll(jobs[1..]));
    } else {
      assert SerialiseAll(jobs) == [] && MeantAll(jobs) == [];
    }
  }

  /** ... and uniquely: equal bytes mean equal lists of statuses, content types and bodies. */
  lemma ResponsesAreUnambiguous(a: seq<Job>, b: seq<Job>)
    requires GoodJobs(a) && GoodJobs(b) && SerialiseAll(a) == SerialiseAll(b)
    ensures MeantAll(a) == MeantAll(b)
  {
    ResponsesRoundTrip(a);
    ResponsesRoundTrip(b);
  }

  // ----- when the bounded writer succeeds -----

  function DateText(cfg: Config, date: string): string {
    if cfg.includeDate then "Date: " + date + "\r\n" else ""
  }

  function HeadText(cfg: Config, date: string): string
    requires StatusText(cfg.status).Some?
  {
    StatusText(cfg.status).value + "\r\n" + "Server: L\r\n" + DateText(cfg, date)
  }

  function TypeText(cfg: Config): string
    requires ContentTypeText(cfg.contentType).Some?
  {
    "Content-Type: " + ContentTypeText(cfg.contentType).value + "\r\n"
  }

  function LengthText(cfg: Config): string {
    "Content-Length: " + Dec(cfg.bodyLength) + "\r\n"
  }

  lemma LinesOf(a: string, b: string, middle: seq<string>, c: string, d: string)
    ensures Lines([a, b] + middle + [c] + [d]) ==
            a + "\r\n" + (b + "\r\n") + Lines(middle) + (c + "\r\n") + (d + "\r\n")
  {
    assert [a, b] == [a] + [b];
    LinesAppend([a], [b]);
    LinesAppend([a, b], middle);
    LinesAppend([a, b] + middle, [c]);
    LinesAppend([a, b] + middle + [c], [d]);
    OneLine(a);
    OneLine(b);
    OneLine(c);
    OneLine(d);
  }

  /** The texts that go into the buffer, in order. */
  lemma SerialiseIsThePieces(cfg: Config, date: string)
    requires ValidConfig(cfg) && BodyCovered(cfg)
    ensures Serialise(cfg, date) == HeadText(cfg, date) + TypeText(cfg) + LengthText(cfg) + "\r\n" + BodyText(cfg)
  {
    LinesOf(StatusText(cfg.status).value, "Server: L", DateLines(cfg, date),
            "Content-Type: " + ContentTypeText(cfg.contentType).value, "Content-Length: " + Dec(cfg.bodyLength));
    OneLine("Date: " + date);
    assert DateText(cfg, date) == Lines(DateLines(cfg, date));
    assert "Server: L" + "\r\n" == "Server: L\r\n";
  }

  /** What a fresh buffer of `size` characters makes of a configuration: the checks in the
      order in which they are made, so that the first failing one gives the code. */
  function BuildCode(cfg: Config, date: string, size: nat): Code
    requires BodyCovered(cfg)
  {
    if StatusText(cfg.status).None? then InvalidParam
    else
      if |HeadText(cfg, date)| >= size then Overflow
      else if ContentTypeText(cfg.contentType).None? then InvalidParam
      else if |HeadText(cfg, date)| + |TypeText(cfg)| >= size then Overflow
      else if |Dec(cfg.bodyLength)| >= LENGTH_STR then InvalidParam
      else if |Serialise(cfg, date)| >= size then Overflow
      else Ok
  }

  /** A fresh buffer takes a response exactly when the configuration is valid and the text is
      strictly shorter than the buffer. */
  lemma BuildSucceedsExactly(cfg: Config, date: string, size: nat)
    requires BodyCovered(cfg)
    ensures BuildCode(cfg, date, size) == Ok <==> ValidConfig(cfg) && |Serialise(cfg, date)| < size
    ensures ValidConfig(cfg) && BuildCode(cfg, date, size) != Ok ==> BuildCode(cfg, date, size) == Overflow
  {
    if ValidConfig(cfg) {
      SerialiseIsThePieces(cfg, date);
    }
  }

  /** Which configurations are valid: three statuses, two content types, lengths of 15 digits. */
  lemma ValidExactly(cfg: Config)
    ensures ValidConfig(cfg) <==>
              && (cfg.status == 200 || cfg.status == 404 || cfg.status == 500)
              && (cfg.contentType == 0 || cfg.contentType == 1)
              && cfg.bodyLength < 1_000_000_000_000_000
  {
    DecLength(cfg.bodyLength, 15);
    assert Pow10(5) == 100_000;
    assert Pow10(10) == 10_000_000_000;
    assert Pow10(15) == 1_000_000_000_000_000;
  }

  function HeadSize(cfg: Config, date: string): nat {
    (if cfg.status == 200 then 17 else if cfg.status == 404 then 24 else 36)
    + 11 + if cfg.includeDate then 8 + |date| else 0
  }

  lemma PieceSizes(cfg: Config, date: string)
    requires StatusText(cfg.status).Some?
    ensures |HeadText(cfg, date)| == HeadSize(cfg, date)
    ensures cfg.contentType == 0 ==> |TypeText(cfg)| == 26
    ensures cfg.contentType == 1 ==> |TypeText(cfg)| == 32
    ensures |LengthText(cfg)| == 18 + |Dec(cfg.bodyLength)|
  {
  }

  /** The sizes of the texts in characters. */
  lemma ResponseSize(cfg: Config, date: string)
    requires ValidConfig(cfg) && BodyCovered(cfg)
    ensures |Serialise(cfg, date)| ==
            HeadSize(cfg, date) + (if cfg.contentType == 0 then 26 else 32) + 18 + |Dec(cfg.bodyLength)| + 2
            + (if cfg.body.None? then 0 else cfg.bodyLength)
  {
    SerialiseIsThePieces(cfg, date);
    PieceSizes(cfg, date);
  }

  /** Which code a failing build returns. An unknown status is noticed at once; an unknown content
      type only after the head has found room, and a length of more than 15 digits only after the
      content type has. */
  lemma BuildFailsExactly(cfg: Config, date: string, size: nat)
    requires BodyCovered(cfg) && !ValidConfig(cfg)
    ensures var known := cfg.status == 200 || cfg.status == 404 || cfg.status == 500;
            var typed := cfg.contentType == 0 || cfg.contentType == 1;
            var room := HeadSize(cfg, date) + if !typed then 0 else if cfg.contentType == 0 then 26 else 32;
            BuildCode(cfg, date, size) == if known && size <= room then Overflow else InvalidParam
  {
    if StatusText(cfg.status).Some? {
      PieceSizes(cfg, date);
    }
  }

  lemma DecTwo(n: nat)
    requires 10 <= n < 100
    ensures Dec(n) == [DigitChar(n / 10), DigitChar(n % 10)]
  {
  }

  lemma PlaintextPieces(cfg: Config, date: string)
    requires cfg.status == 200 && cfg.contentType == 0 && cfg.includeDate
    ensures HeadText(cfg, date) == "HTTP/1.1 200 OK\r\n" + "Server: L\r\n" + ("Date: " + date + "\r\n")
    ensures TypeText(cfg) == "Content-Type: text/plain\r\n"
  {
    assert StatusText(cfg.status).value + "\r\n" == "HTTP/1.1 200 OK\r\n";
  }

  lemma ThirteenCharacters(cfg: Config, body: string)
    requires cfg.bodyLength == 13 == |body| && cfg.body == Some(body)
    ensures LengthText(cfg) == "Content-Length: 13\r\n" && BodyCovered(cfg) && BodyText(cfg) == body
  {
    DecTwo(cfg.bodyLength);
    assert Dec(cfg.bodyLength) == "13";
  }

  /** The plaintext route's answer, character by character. */
  lemma PlaintextAnswer(date: string, body: string, cfg: Config)
    requires body == "Hello, World!" && cfg == Config(200, 0, Some(body), 13, true)
    ensures ValidConfig(cfg)
    ensures Serialise(cfg, date) ==
            "HTTP/1.1 200 OK\r\n" + "Server: L\r\n" + ("Date: " + date + "\r\n") + "Content-Type: text/plain\r\n"
            + "Content-Length: 13\r\n" + "\r\n" + body
  {
    PlaintextPieces(cfg, date);
    ThirteenCharacters(cfg, body);
    SerialiseIsThePieces(cfg, date);
  }

  // ----- the size calculator -----

  const LENGTH_ALLOWANCE: nat := 10

  ghost predicate KnownTexts(cfg: Config) {
    StatusText(cfg.status).Some? && ContentTypeText(cfg.contentType).Some?
  }

  /** The calculator counts every text and the body, with ten digits for the length however
      many it has; `date` stands for any date of full length. */
  ghost predicate SizeMeans(cfg: Config, n: nat) {
    if !KnownTexts(cfg) then n == 0
    else forall date: string :: |date| == 29 ==>
           n + |Dec(cfg.bodyLength)| == |HeadText(cfg, date)| + |TypeText(cfg)| + |LengthText(cfg)| + 2
                                        + cfg.bodyLength + LENGTH_ALLOWANCE
  }

  /** So on a configuration that keeps the contract it is off by exactly the digits the length
      does not have, and a buffer of exactly that size takes every body whose length has at most
      nine digits, and no other; one more character covers ten digits. */
  lemma SizeIsAdequate(cfg: Config, date: string, n: nat)
    requires KnownTexts(cfg) && HonoursContract(cfg) && SizeMeans(cfg, n) && |date| == DATE
    ensures ValidConfig(cfg) ==> n + |Dec(cfg.bodyLength)| == |Serialise(cfg, date)| + LENGTH_ALLOWANCE
    ensures BuildCode(cfg, date, n) == Ok <==> cfg.bodyLength < 1_000_000_000
    ensures BuildCode(cfg, date, n + 1) == Ok <==> cfg.bodyLength < 10_000_000_000
  {
    BuildSucceedsExactly(cfg, date, n);
    BuildSucceedsExactly(cfg, date, n + 1);
    if ValidConfig(cfg) {
      SerialiseIsThePieces(cfg, date);
    }
    DecLength(cfg.bodyLength, 9);
    DecLength(cfg.bodyLength, 10);
    assert Pow10(5) == 100_000;
    assert Pow10(9) == 1_000_000_000;
  }

  /** The calculated size as a number: 37 characters for a date line, ten digits for the length. */
  lemma CalculatedSize(cfg: Config, n: nat)
    requires KnownTexts(cfg) && SizeMeans(cfg, n)
    ensures n == (if cfg.status == 200 then 17 else if cfg.status == 404 then 24 else 36) + 11
                 + (if cfg.includeDate then 37 else 0) + (if cfg.contentType == 0 then 26 else 32)
                 + 28 + 2 + cfg.bodyLength
  {
    var date := seq(29, i => '0');
    assert |date| == 29;
    PieceSizes(cfg, date);
  }

  /** The header promises that the calculated size is enough; a body of 10^9 characters is
      the smallest for which it is not. */
  lemma CalculatedSizeCanBeTooSmall(date: string, n: nat)
    requires |date| == DATE
    ensures var body := seq(1_000_000_000, i => 'a');
            var cfg := Config(200, 0, Some(body), |body|, true);
            SizeMeans(cfg, n) ==> BuildCode(cfg, date, n) != Ok
  {
    var body := seq(1_000_000_000, i => 'a');
    var cfg := Config(200, 0, Some(body), |body|, true);
    if SizeMeans(cfg, n) {
      SizeIsAdequate(cfg, date, n);
    }
  }
}
