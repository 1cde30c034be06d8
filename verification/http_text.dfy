/** Decimal numbers and CRLF-terminated lines. */
module HttpText {
  import opened Wire

  function DigitChar(d: nat): char
    requires d < 10
  {
    ('0' as int + d) as char
  }

  /** What `%zu` (and `%d` of a non-negative number) prints. */
  function Dec(n: nat): (s: string)
    ensures |s| >= 1
  {
    if n < 10 then [DigitChar(n)] else Dec(n / 10) + [DigitChar(n % 10)]
  }

  function Value(s: string): Option<nat> {
    if s == [] then Some(0)
    else
      var c := s[|s| - 1];
      match Value(s[..|s| - 1])
      case None => None
      case Some(v) => if '0' <= c <= '9' then Some(10 * v + (c as int - '0' as int)) else None
  }

  function ParseDec(s: string): Option<nat> {
    if s == [] then None else Value(s)
  }

  lemma {:induction false} DecRoundTrip(n: nat)
    ensures ParseDec(Dec(n)) == Some(n)
    ensures forall c <- Dec(n) :: '0' <= c <= '9'
  {
    if n < 10 {
      assert Dec(n)[..0] == [];
      assert Value([]) == Some(0);
    } else {
      DecRoundTrip(n / 10);
      assert Dec(n)[..|Dec(n)| - 1] == Dec(n / 10);
    }
  }

  function Pow10(k: nat): nat {
    if k == 0 then 1 else 10 * Pow10(k - 1)
  }

  /** A number has at most k digits exactly when it is below 10^k. */
  lemma {:induction false} DecLength(n: nat, k: nat)
    requires k >= 1
    ensures |Dec(n)| <= k <==> n < Pow10(k)
  {
    if k == 1 {
      assert Pow10(1) == 10 * Pow10(0);
    } else if n >= 10 {
      DecLength(n / 10, k - 1);
    } else {
      PowAtLeastTen(k);
    }
  }

  lemma {:induction false} PowAtLeastTen(k: nat)
    requires k >= 1
    ensures Pow10(k) >= 10
  {
    if k > 1 {
      PowAtLeastTen(k - 1);
    }
  }

  // ----- lines -----

  ghost predicate Plain(line: string) {
    forall c <- line :: c != '\r'
  }

  function Lines(lines: seq<string>): string {
    if lines == [] then [] else lines[0] + "\r\n" + Lines(lines[1..])
  }

  lemma OneLine(line: string)
    ensures Lines([line]) == line + "\r\n"
  {
    assert [line][1..] == [];
  }

  lemma {:induction false} LinesAppend(a: seq<string>, b: seq<string>)
    ensures Lines(a + b) == Lines(a) + Lines(b)
  {
    if a == [] {
      assert a + b == b;
    } else {
      assert (a + b)[1..] == a[1..] + b;
      LinesAppend(a[1..], b);
    }
  }

  /** The text up to the first CRLF, and what follows it. */
  function TakeLine(s: string): (r: Option<(string, string)>)
    ensures r.Some? ==> |r.value.1| < |s|
  {
    if |s| < 2 then None
    else if s[0] == '\r' && s[1] == '\n' then Some(("", s[2..]))
    else
      match TakeLine(s[1..])
      case None => None
      case Some((line, rest)) => Some(([s[0]] + line, rest))
  }

  /** The lines up to the first empty one, and what follows it. */
  function TakeHead(s: string): (r: Option<(seq<string>, string)>)
    ensures r.Some? ==> |r.value.1| < |s|
    decreases |s|
  {
    match TakeLine(s)
    case None => None
    case Some((line, rest)) =>
      if line == "" then Some(([], rest))
      else
        match TakeHead(rest)
        case None => None
        case Some((lines, body)) => Some(([line] + lines, body))
  }

  lemma {:induction false} TakeLineOf(line: string, rest: string)
    requires Plain(line)
    ensures TakeLine(line + "\r\n" + rest) == Some((line, rest))
  {
    var s := line + "\r\n" + rest;
    if line == [] {
      assert s[2..] == rest;
    } else {
      assert s[0] == line[0] && line[0] in line;
      assert s[1..] == line[1..] + "\r\n" + rest;
      assert forall c <- line[1..] :: c in line;
      TakeLineOf(line[1..], rest);
      assert [line[0]] + line[1..] == line;
    }
  }

  lemma {:induction false} TakeHeadOf(lines: seq<string>, rest: string)
    requires forall i :: 0 <= i < |lines| ==> Plain(lines[i]) && lines[i] != []
    ensures TakeHead(Lines(lines) + "\r\n" + rest) == Some((lines, rest))
  {
    if lines == [] {
      assert Lines(lines) + "\r\n" + rest == "" + "\r\n" + rest;
      TakeLineOf("", rest);
    } else {
      var more := Lines(lines[1..]) + "\r\n" + rest;
      assert Lines(lines) + "\r\n" + rest == lines[0] + "\r\n" + more;
      TakeLineOf(lines[0], more);
      TakeHeadOf(lines[1..], rest);
      assert [lines[0]] + lines[1..] == lines;
    }
  }
}
