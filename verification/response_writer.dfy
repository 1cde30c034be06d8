/** The bounds-checked response writer over the caller's buffer, and its size calculator. */
module ResponseWriter {
  import opened Wire
  import opened HttpText
  import opened HttpResponse
  import opened Memory

  /** `http_response_calculate_size`. */
  method CalculateSize(cfg: Config) returns (size: nat)
    ensures SizeMeans(cfg, size)
  {
    size := 0;
    var status := StatusText(cfg.status);
    if status.None? {
      return 0;
    }
    size := size + |status.value| + 2;
    size := size + |"Server: L\r\n"|;
    if cfg.includeDate {
      size := size + DATE_HEADER - 1;
    }
    size := size + |"Content-Type: "|;
    var contentType := ContentTypeText(cfg.contentType);
    if contentType.None? {
      return 0;
    }
    size := size + |contentType.value|;
    size := size + |"\r\n"|;
    size := size + |"Content-Length: "|;
    size := size + LENGTH_ALLOWANCE;
    size := size + |"\r\n"|;
    size := size + |"\r\n"|;
    size := size + cfg.bodyLength;
  }

  /** The thread's `date_header`: its first six characters never change. */
  ghost predicate DateHeader(header: array<char>)
    reads header
  {
    header.Length == DATE_HEADER && header[..6] == "Date: "
  }

  /** Rewrites the date; `strlen` then finds the line just written. */
  method StampDate(header: array<char>, date: string) returns (line: string)
    requires DateHeader(header) && PlainDate(date)
    modifies header
    ensures DateHeader(header) && line == "Date: " + date + "\r\n"
  {
    var end := date + ['\r', '\n', '\0'];
    Store(header, 6, end);
    assert header[..6] == old(header[..6]);
    ghost var rest := header[9 + |date|..];
    assert header[..] == ("Date: " + date + "\r\n") + ['\0'] + rest;
    CStringOf("Date: " + date + "\r\n", rest);
    line := CString(header[..]);
  }

  class ResponseBuffer {
    var buffer: array<char>
    var size: nat
    var used: nat

    ghost predicate Valid()
      reads this
    {
      0 < size <= buffer.Length
    }

    constructor (memory: array<char>)
      ensures buffer == memory && size == 0 && used == 0
    {
      buffer, size, used := memory, 0, 0;
    }

    /** `http_response_buffer_init`. */
    method Init(memory: array<char>, memorySize: nat) returns (code: Code)
      requires memorySize <= memory.Length
      modifies this
      ensures code == if memorySize == 0 then InvalidParam else Ok
      ensures code == Ok ==> Valid() && buffer == memory && size == memorySize && used == 0
      ensures code != Ok ==> unchanged(this)
    {
      if memorySize == 0 {
        return InvalidParam;
      }
      buffer, size, used := memory, memorySize, 0;
      code := Ok;
    }

    /** `http_response_buffer_reset`. */
    method Reset()
      modifies this`used
      ensures used == 0
    {
      used := 0;
    }

    /** The next line, if it leaves room for one more character. */
    method BuildLine(before: nat, line: string, ghost start: string, ghost sofar: string) returns (fits: bool, at: nat)
      requires Valid() && |start| == buffer.Length && before == |sofar| < size && Stored(start, buffer[..], sofar)
      modifies buffer
      ensures buffer[size..] == start[size..]
      ensures fits <==> before + |line| < size
      ensures fits ==> at == before + |line| && Stored(start, buffer[..], sofar + line)
    {
      at, fits := before, |line| < size - before;
      StoredTail(start, buffer[..], sofar, size);
      if fits {
        at := Append(buffer, at, line, start, sofar);
        StoredTail(start, buffer[..], sofar + line, size);
      }
    }

    /** The date line, if it is wanted; the stamp is made before the room is checked. */
    method BuildDate(before: nat, cfg: Config, date: string, header: array<char>, ghost start: string,
        ghost sofar: string) returns (fits: bool, at: nat)
      requires Valid() && |start| == buffer.Length && before == |sofar| < size && Stored(start, buffer[..], sofar)
      requires DateHeader(header) && PlainDate(date) && header != buffer
      modifies buffer, header
      ensures DateHeader(header) && buffer[size..] == start[size..]
      ensures fits <==> before + |DateText(cfg, date)| < size
      ensures fits ==> at == before + |DateText(cfg, date)| && Stored(start, buffer[..], sofar + DateText(cfg, date))
    {
      if cfg.includeDate {
        var line := StampDate(header, date);
        fits, at := BuildLine(before, line, start, sofar);
      } else {
        fits, at := true, before;
        StoredTail(start, buffer[..], sofar, size);
        assert sofar + DateText(cfg, date) == sofar;
      }
    }

    /** The status line, the server line and, if wanted, the date line. */
    method BuildHead(cfg: Config, date: string, header: array<char>, ghost start: string) returns (fits: bool, at: nat)
      requires Valid() && DateHeader(header) && PlainDate(date) && header != buffer
      requires StatusText(cfg.status).Some? && start == buffer[..]
      modifies buffer, header
      ensures DateHeader(header) && buffer[size..] == start[size..]
      ensures fits <==> |HeadText(cfg, date)| < size
      ensures fits ==> at == |HeadText(cfg, date)| && Stored(start, buffer[..], HeadText(cfg, date))
    {
      var line := StatusText(cfg.status).value + "\r\n";
      assert "" + line == line;
      fits, at := BuildLine(0, line, start, "");
      if fits {
        fits, at := BuildLine(at, "Server: L\r\n", start, line);
      }
      if fits {
        fits, at := BuildDate(at, cfg, date, header, start, line + "Server: L\r\n");
      }
    }

    /** One header field, put in three parts after a single check. */
    method BuildField(before: nat, name: string, value: string, ghost start: string, ghost sofar: string)
        returns (fits: bool, at: nat)
      requires Valid() && |start| == buffer.Length && before == |sofar| < size && Stored(start, buffer[..], sofar)
      modifies buffer
      ensures fits <==> before + |name + value + "\r\n"| < size
      ensures !fits ==> buffer[..] == old(buffer[..])
      ensures fits ==> at == before + |name + value + "\r\n"|
      ensures fits ==> Stored(start, buffer[..], sofar + (name + value + "\r\n"))
    {
      at, fits := before, false;
      if |name| + |value| + 2 >= size - at {
        return;
      }
      at := Append(buffer, at, name, start, sofar);
      at := Append(buffer, at, value, start, sofar + name);
      at := Append(buffer, at, "\r\n", start, sofar + name + value);
      Associative(sofar + name, value, "\r\n");
      Associative(sofar, name, value);
      Associative(sofar, name + value, "\r\n");
      Associative(name, value, "\r\n");
      fits := true;
    }

    /** The empty line and the body. */
    method BuildEnd(before: nat, cfg: Config, ghost start: string, ghost sofar: string) returns (fits: bool, at: nat)
      requires Valid() && |start| == buffer.Length && before == |sofar| < size && Stored(start, buffer[..], sofar)
              && BodyCovered(cfg)
      modifies buffer
      ensures buffer[size..] == start[size..]
      ensures fits <==> before + 2 + |BodyText(cfg)| < size
      ensures fits ==> at == before + 2 + |BodyText(cfg)| && Stored(start, buffer[..], sofar + "\r\n" + BodyText(cfg))
    {
      at, fits := before, false;
      StoredTail(start, buffer[..], sofar, size);
      if 2 >= size - at {
        return;
      }
      at := Append(buffer, at, "\r\n", start, sofar);
      StoredTail(start, buffer[..], sofar + "\r\n", size);
      if cfg.body.Some? && cfg.bodyLength > 0 {
        if cfg.bodyLength >= size - at {
          return;
        }
        at := Append(buffer, at, cfg.body.value[..cfg.bodyLength], start, sofar + "\r\n");
        StoredTail(start, buffer[..], sofar + "\r\n" + BodyText(cfg), size);
      } else {
        assert sofar + "\r\n" + BodyText(cfg) == sofar + "\r\n";
      }
      fits := true;
    }

    /** `http_response_build`. */
    method Build(cfg: Config, date: string, header: array<char>) returns (code: Code)
      requires Valid() && BodyCovered(cfg) && DateHeader(header) && PlainDate(date) && header != buffer
      modifies this`used, buffer, header
      ensures DateHeader(header)
      ensures code == if old(used) > 0 then InvalidParam else BuildCode(cfg, date, size)
      ensures code == Ok ==> ValidConfig(cfg) && used == |Serialise(cfg, date)| < size
                             && buffer[..] == Serialise(cfg, date) + old(buffer[..])[used..]
      ensures code != Ok ==> used == old(used) && buffer[size..] == old(buffer[size..])
    {
      if used > 0 {
        return InvalidParam;
      }
      ghost var start := buffer[..];
      if StatusText(cfg.status).None? {
        return InvalidParam;
      }
      var fits, at := BuildHead(cfg, date, header, start);
      if !fits {
        return Overflow;
      }
      ghost var sofar := HeadText(cfg, date);
      if ContentTypeText(cfg.contentType).None? {
        return InvalidParam;
      }
      fits, at := BuildField(at, "Content-Type: ", ContentTypeText(cfg.contentType).value, start, sofar);
      if !fits {
        return Overflow;
      }
      sofar := sofar + TypeText(cfg);
      StoredTail(start, buffer[..], sofar, size);
      if |Dec(cfg.bodyLength)| >= LENGTH_STR {
        return InvalidParam;
      }
      SerialiseIsThePieces(cfg, date);
      fits, at := BuildField(at, "Content-Length: ", Dec(cfg.bodyLength), start, sofar);
      if !fits {
        return Overflow;
      }
      sofar := sofar + LengthText(cfg);
      fits, at := BuildEnd(at, cfg, start, sofar);
      if !fits {
        return Overflow;
      }
      used := at;
      code := Ok;
    }
  }
}
