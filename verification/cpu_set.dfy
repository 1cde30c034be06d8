/** The CPUs a process may run on: their enumeration, and their list as text. */
module CpuSet {
  import opened Wire
  import opened HttpText
  import opened Memory

  const CPU_SETSIZE: nat := 1024

  datatype Code = Ok | CpuCount | NoMemory | Affinity | InvalidParam

  type Cpus = mask: seq<bool> | |mask| == CPU_SETSIZE witness seq(CPU_SETSIZE, _ => false)

  /** The CPUs below k that are in the set, in order. */
  function Members(mask: seq<bool>, k: nat): (ids: seq<nat>)
    requires k <= |mask|
    ensures |ids| <= k
  {
    if k == 0 then [] else Members(mask, k - 1) + if mask[k - 1] then [k - 1] else []
  }

  ghost predicate Increasing(ids: seq<int>) {
    forall i, j :: 0 <= i < j < |ids| ==> ids[i] < ids[j]
  }

  /** They are exactly the CPUs of the set, each once, in strictly increasing order. */
  lemma {:induction false} MembersAreTheSet(mask: seq<bool>, k: nat)
    requires k <= |mask|
    ensures Increasing(Members(mask, k))
    ensures forall c: int :: c in Members(mask, k) <==> 0 <= c < k && mask[c]
  {
    if k > 0 {
      var before := Members(mask, k - 1);
      MembersAreTheSet(mask, k - 1);
      assert forall j :: 0 <= j < |before| ==> before[j] in before;
    }
  }

  lemma {:induction false} MembersGrow(mask: seq<bool>, k: nat, m: nat)
    requires k <= m <= |mask|
    ensures Members(mask, k) <= Members(mask, m)
    decreases m
  {
    if k < m {
      MembersGrow(mask, k, m - 1);
    }
  }

  /** `system_get_cpu_info`. */
  method GetCpuInfo(mask: Cpus, affinityOk: bool, memory: bool) returns (code: Code, count: int, ids: array<int>)
    ensures code == if !affinityOk || Members(mask, |mask|) == [] then CpuCount else if !memory then NoMemory else Ok
    ensures code == Ok ==> fresh(ids) && count == |ids[..]| && ids[..] == Members(mask, |mask|)
    ensures code == Ok ==> Increasing(ids[..]) && forall c: int :: c in ids[..] <==> 0 <= c < 1024 && mask[c]
  {
    count, ids := 0, new int[0];
    if !affinityOk {
      return CpuCount, count, ids;
    }
    count := |Members(mask, |mask|)|;
    if count <= 0 {
      return CpuCount, count, ids;
    }
    if !memory {
      return NoMemory, count, ids;
    }
    ids := new int[count];
    var rel, cpu := 0, 0;
    while cpu < CPU_SETSIZE
      invariant 0 <= cpu <= |mask| && rel == |Members(mask, cpu)| < count == ids.Length && fresh(ids)
      invariant count == |Members(mask, |mask|)| && ids[..rel] == Members(mask, cpu)
    {
      MembersGrow(mask, cpu + 1, |mask|);
      cpu := cpu + 1;
      if mask[cpu - 1] {
        ids[rel] := cpu - 1;
        rel := rel + 1;
        assert ids[..rel] == Members(mask, cpu);
        if rel == count {
          break;
        }
      }
    }
    assert ids[..] == ids[..rel];
    MembersAreTheSet(mask, |mask|);
    code := Ok;
  }

  /** The worker part of the default configuration. */
  method DefaultWorkers(mask: Cpus, affinityOk: bool, memory: bool) returns (count: int, cpuIds: Option<seq<int>>)
    ensures cpuIds == if affinityOk && memory && Members(mask, |mask|) != [] then Some(Members(mask, |mask|)) else None
    ensures count == if cpuIds.Some? then |cpuIds.value| else 1
  {
    var code, n, ids := GetCpuInfo(mask, affinityOk, memory);
    count, cpuIds := 1, None;
    if code == Ok && n > 0 {
      count, cpuIds := n, Some(ids[..]);
    }
  }

  // ----- the list as text -----

  /** What is printed for the next CPU. */
  function Piece(first: bool, cpu: nat): (s: string)
    ensures s != ""
  {
    if first then Dec(cpu) else "," + Dec(cpu)
  }

  function Joined(ids: seq<nat>): string {
    if ids == [] then ""
    else Joined(ids[..|ids| - 1]) + Piece(|ids| == 1, ids[|ids| - 1])
  }

  /** The reader's side: the value of each run of digits between commas. */
  function ReadList(s: string): Option<seq<nat>>
    decreases |s|
  {
    if s == [] then None
    else
      var (list, digits) := SplitLast(s);
      match ParseDec(digits)
      case None => None
      case Some(n) =>
        if list.None? then Some([n])
        else
          match ReadList(list.value)
          case None => None
          case Some(ids) => Some(ids + [n])
  }

  /** Splits at the last comma. */
  function SplitLast(s: string): (r: (Option<string>, string))
    ensures r.0.Some? ==> |r.0.value| < |s|
  {
    if s == [] then (None, [])
    else if s[|s| - 1] == ',' then (Some(s[..|s| - 1]), [])
    else
      var (list, digits) := SplitLast(s[..|s| - 1]);
      (list, digits + [s[|s| - 1]])
  }

  lemma {:induction false} SplitLastOf(list: Option<string>, digits: string)
    requires ',' !in digits
    ensures SplitLast((if list.None? then "" else list.value + ",") + digits) == (list, digits)
  {
    var s := (if list.None? then "" else list.value + ",") + digits;
    if digits == [] {
      if list.Some? {
        assert s[..|s| - 1] == list.value;
      }
    } else {
      var n := |digits| - 1;
      assert s[..|s| - 1] == (if list.None? then "" else list.value + ",") + digits[..n];
      assert digits[n] in digits && forall c <- digits[..n] :: c in digits;
      SplitLastOf(list, digits[..n]);
      assert digits[..n] + [digits[n]] == digits;
    }
  }

  lemma ReadListStep(list: Option<string>, n: nat)
    ensures ReadList((if list.None? then "" else list.value + ",") + Dec(n))
         == if list.None? then Some([n]) else if ReadList(list.value).None? then None
             else Some(ReadList(list.value).value + [n])
  {
    DecRoundTrip(n);
    SplitLastOf(list, Dec(n));
  }

  /** A list that was not cut short reads back as the CPUs it was made from. */
  lemma {:induction false} JoinedReadsBack(ids: seq<nat>)
    requires ids != []
    ensures ReadList(Joined(ids)) == Some(ids)
  {
    var n := |ids| - 1;
    var before, last := ids[..n], ids[n];
    assert before + [last] == ids;
    if n == 0 {
      ReadListStep(None, last);
      assert before == [] && "" + Dec(last) == Joined(ids);
    } else {
      JoinedReadsBack(before);
      ReadListStep(Some(Joined(before)), last);
      Associative(Joined(before), ",", Dec(last));
    }
  }

  lemma {:induction false} JoinedGrows(a: seq<nat>, b: seq<nat>)
    requires a <= b
    ensures Joined(a) <= Joined(b)
    decreases |b|
  {
    if a != b {
      assert a <= b[..|b| - 1];
      JoinedGrows(a, b[..|b| - 1]);
    } else {
      assert a == b;
    }
  }

  lemma JoinedNext(ids: seq<nat>, cpu: nat)
    ensures Joined(ids + [cpu]) == Joined(ids) + Piece(ids == [], cpu)
  {
    assert (ids + [cpu])[..|ids|] == ids;
  }

  lemma DecSmall(n: nat)
    requires n < 100
    ensures Dec(n) == if n < 10 then [DigitChar(n)] else [DigitChar(n / 10), DigitChar(n % 10)]
  {
  }

  /** Plain decimal numbers, with one comma and no space before each but the first. */
  lemma JoinedCommas(ids: seq<nat>, cpu: nat)
    ensures Joined([cpu]) == Dec(cpu)
    ensures ids != [] ==> Joined(ids + [cpu]) == Joined(ids) + "," + Dec(cpu)
  {
    JoinedNext([], cpu);
    assert [] + [cpu] == [cpu];
    JoinedNext(ids, cpu);
    Associative(Joined(ids), ",", Dec(cpu));
  }

  lemma JoinedExample(a: nat, b: nat, c: nat)
    requires a == 0 && b == 2 && c == 10
    ensures Joined([a] + [b] + [c]) == "0,2,10"
  {
    JoinedCommas([], a);
    JoinedCommas([a], b);
    JoinedCommas([a] + [b], c);
    DecSmall(a);
    DecSmall(b);
    DecSmall(c);
    assert "0" + "," + "2" + "," + "10" == "0,2,10";
  }

  // ----- printing into a bounded buffer -----

  /** The first `limit` characters. */
  function Cut(s: string, limit: nat): string {
    if |s| <= limit then s else s[..limit]
  }

  lemma CutBehind(text: string, more: string, limit: nat)
    requires |text| <= limit
    ensures text + Cut(more, limit - |text|) == Cut(text + more, limit)
  {
  }

  lemma CutOfPrefix(a: string, b: string, limit: nat)
    requires a <= b && |a| >= limit
    ensures Cut(a, limit) == Cut(b, limit)
  {
  }

  /** What `snprintf` leaves in `room` characters at `at`: what fits, and a NUL. */
  function Printed(mem: string, at: nat, room: nat, text: string): string
    requires room > 0 && at + room <= |mem|
  {
    mem[..at] + Cut(text, room - 1) + ['\0'] + mem[at + |Cut(text, room - 1)| + 1..]
  }

  /** `snprintf` answers the length the whole text would have had. */
  method Snprintf(buffer: array<char>, at: nat, room: nat, text: string) returns (len: nat)
    requires room > 0 && at + room <= buffer.Length
    modifies buffer
    ensures len == |text| && buffer[..] == Printed(old(buffer[..]), at, room, text)
  {
    ghost var mem := buffer[..];
    Store(buffer, at, Cut(text, room - 1) + ['\0']);
    Associative(mem[..at], Cut(text, room - 1), ['\0']);
    len := |text|;
  }

  /** `mem` is `start` with a C string at its front. */
  ghost predicate Holds(start: string, mem: string, text: string) {
    |text| < |start| && mem == text + ['\0'] + start[|text| + 1..]
  }

  /** ... or it starts with the text and only the place behind it has been touched. */
  ghost predicate Front(start: string, mem: string, text: string) {
    |text| < |start| == |mem| && mem[..|text|] == text && mem[|text| + 1..] == start[|text| + 1..]
  }

  lemma PrintedBehind(start: string, mem: string, text: string, size: nat, piece: string)
    requires Front(start, mem, text) && |text| < size <= |start|
    ensures Holds(start, Printed(mem, |text|, size - |text|, piece), Cut(text + piece, size - 1))
  {
    var kept := Cut(piece, size - 1 - |text|);
    CutBehind(text, piece, size - 1);
    assert mem[|text| + 1..][|kept|..] == start[|text| + 1..][|kept|..];
  }

  /** One print behind the text that is already there. */
  method PrintNext(buffer: array<char>, at: nat, size: nat, piece: string, ghost start: string,
      ghost text: string) returns (len: nat)
    requires at == |text| < size <= buffer.Length && Front(start, buffer[..], text)
    modifies buffer
    ensures len == |piece| && Holds(start, buffer[..], Cut(text + piece, size - 1))
  {
    PrintedBehind(start, buffer[..], text, size, piece);
    len := Snprintf(buffer, at, size - at, piece);
  }

  /** The buffer after a text has been printed in full; nothing has been printed for "". */
  ghost predicate Printing(text: string, size: nat, start: string, mem: string) {
    |text| < size <= |start| && if text == "" then mem == start else Holds(start, mem, text)
  }

  lemma PrintingIsFront(text: string, size: nat, start: string, mem: string)
    requires Printing(text, size, start, mem)
    ensures Front(start, mem, text)
  {
  }

  /** What the caller finds when the whole list is `list`. */
  ghost predicate Outcome(list: string, size: nat, start: string, mem: string) {
    if list != "" && size >= 2 then Holds(start, mem, Cut(list, size - 1)) else mem == start
  }

  /** The next piece has been printed: either it fitted, or the buffer is full of the front of
      the list. */
  lemma PrintingNext(text: string, piece: string, list: string, size: nat, start: string, mem: string)
    requires 2 <= size <= |start| && piece != "" && text + piece <= list
    requires Holds(start, mem, Cut(text + piece, size - 1))
    ensures if |text + piece| >= size then Outcome(list, size, start, mem) else Printing(text + piece, size, start, mem)
  {
    if |text + piece| >= size {
      CutOfPrefix(text + piece, list, size - 1);
    }
  }

  /** The loop has ended: the CPUs ran out, or the buffer is exactly full. */
  lemma PrintingDone(text: string, list: string, size: nat, start: string, mem: string)
    requires text <= list && Printing(text, size, start, mem) && (text == list || |text| == size - 1)
    ensures Outcome(list, size, start, mem)
  {
    if |text| == size - 1 {
      CutOfPrefix(text, list, size - 1);
    }
  }

  /** The list of the CPUs of a set. */
  function List(mask: seq<bool>): string {
    Joined(Members(mask, |mask|))
  }

  /** `text` is the list of the CPUs below i. */
  ghost predicate Scanned(mask: seq<bool>, i: nat, text: string, first: bool) {
    i <= |mask| && text == Joined(Members(mask, i)) && first == (Members(mask, i) == [])
  }

  lemma ScannedNext(mask: seq<bool>, i: nat, text: string, first: bool)
    requires i < |mask| && Scanned(mask, i, text, first)
    ensures mask[i] ==> Scanned(mask, i + 1, text + Piece(first, i), false) && text + Piece(first, i) <= List(mask)
    ensures !mask[i] ==> Scanned(mask, i + 1, text, first)
  {
    if mask[i] {
      JoinedNext(Members(mask, i), i);
      MembersGrow(mask, i + 1, |mask|);
      JoinedGrows(Members(mask, i + 1), Members(mask, |mask|));
    } else {
      assert Members(mask, i + 1) == Members(mask, i);
    }
  }

  lemma ScannedPrefix(mask: seq<bool>, i: nat, text: string, first: bool)
    requires Scanned(mask, i, text, first)
    ensures text <= List(mask) && (i == |mask| ==> text == List(mask))
  {
    MembersGrow(mask, i, |mask|);
    JoinedGrows(Members(mask, i), Members(mask, |mask|));
  }

  /** One CPU of the set; `full` when the loop is left early. */
  method PrintCpu(piece: string, written: nat, size: nat, buffer: array<char>, ghost start: string,
      ghost text: string, ghost list: string)
    returns (full: bool, written': nat)
    requires piece != "" && text + piece <= list
    requires written == |text| < size - 1 && size <= buffer.Length && Printing(text, size, start, buffer[..])
    modifies buffer
    ensures full ==> written' == written && Outcome(list, size, start, buffer[..])
    ensures !full ==> written' == |text + piece| && Printing(text + piece, size, start, buffer[..])
  {
    PrintingIsFront(text, size, start, buffer[..]);
    var len := PrintNext(buffer, written, size, piece, start, text);
    PrintingNext(text, piece, list, size, start, buffer[..]);
    full := len >= size - written;
    written' := if full then written else written + len;
  }

  /** The loop over all CPUs, which is left when the buffer is full. */
  method PrintList(mask: seq<bool>, buffer: array<char>, size: nat) returns (written: nat)
    requires 0 < size <= buffer.Length
    modifies buffer
    ensures written < size && Outcome(List(mask), size, old(buffer[..]), buffer[..])
  {
    ghost var start, text, list := buffer[..], "", List(mask);
    var first, i: nat, full := true, 0, false;
    written := 0;
    while !full && i < |mask| && written < size - 1
      invariant written < size && i <= |mask|
      invariant if full then Outcome(list, size, start, buffer[..])
                else written == |text| && Printing(text, size, start, buffer[..]) && Scanned(mask, i, text, first)
      decreases |mask| - i
    {
      ScannedNext(mask, i, text, first);
      if mask[i] {
        var piece := Piece(first, i);
        full, written := PrintCpu(piece, written, size, buffer, start, text, list);
        text := text + piece;
        first := false;
      }
      i := i + 1;
    }
    if !full {
      ScannedPrefix(mask, i, text, first);
      PrintingDone(text, list, size, start, buffer[..]);
    }
  }

  /** `system_get_cpu_affinity_string`: for a non-empty set and room for a character, the first
      size - 1 characters of the list; otherwise nothing is written, not even a NUL. The
      answer is never that the buffer is too small. */
  method AffinityString(mask: Cpus, affinityOk: bool, buffer: array<char>, size: nat) returns (code: Code)
    requires size <= buffer.Length
    modifies buffer
    ensures code == if size == 0 then InvalidParam else if !affinityOk then Affinity else Ok
    ensures if code == Ok then Outcome(List(mask), size, old(buffer[..]), buffer[..]) else buffer[..] == old(buffer[..])
  {
    if size == 0 {
      return InvalidParam;
    }
    if !affinityOk {
      return Affinity;
    }
    var written := PrintList(mask, buffer, size);
    if written >= size {
      return NoMemory;
    }
    code := Ok;
  }
}
