/** The log drain of an instance: hex text, counters, the bounded ring, and the collected logs. */
module LogDrain {
  import opened Bytes

  datatype Direction = HostToDevice | DeviceToHost

  // ---- Hex text ----

  function HexDigit(n: nat): char
    requires n < 16
  {
    if n < 10 then '0' + n as char else 'a' + (n - 10) as char
  }

  function HexByte(b: byte): string {
    [HexDigit(b / 16), HexDigit(b % 16)]
  }

  /** Two lower-case digits a byte, bytes separated by one space. */
  function HexText(data: seq<byte>): string {
    if data == [] then ""
    else if |data| == 1 then HexByte(data[0])
    else HexByte(data[0]) + " " + HexText(data[1..])
  }

  datatype InterceptedMessage = InterceptedMessage(direction: Direction, rawHex: string)

  /** A report crossing the bridge, before it is turned into text. */
  datatype Report = Report(direction: Direction, data: seq<byte>)

  function Intercept(r: Report): InterceptedMessage {
    InterceptedMessage(r.direction, HexText(r.data))
  }

  predicate IsWhitespace(c: char) {
    c == ' ' || '\t' <= c <= '\r' || c == '\U{85}' || c == '\U{A0}'
  }

  /** The number of maximal runs of other characters; `after` says that s follows whitespace. */
  function TokensIn(s: string, after: bool): nat {
    if s == "" then 0
    else (if after && !IsWhitespace(s[0]) then 1 else 0) + TokensIn(s[1..], IsWhitespace(s[0]))
  }

  function TokenCount(s: string): nat {
    TokensIn(s, true)
  }

  lemma HexDigitIsText(n: nat)
    requires n < 16
    ensures !IsWhitespace(HexDigit(n))
  {
  }

  lemma TokenPeels(a: char, b: char, rest: string)
    requires !IsWhitespace(a) && !IsWhitespace(b)
    ensures TokenCount([a, b] + " " + rest) == 1 + TokenCount(rest)
    ensures TokenCount([a, b]) == 1
  {
    var s := [a, b] + " " + rest;
    assert s[1..] == [b] + " " + rest;
    assert s[1..][1..] == " " + rest;
    assert s[1..][1..][1..] == rest;
    assert TokensIn(s, true) == 1 + TokensIn(s[1..], false);
    assert TokensIn(s[1..], false) == TokensIn(s[1..][1..], false);
    assert [a, b][1..] == [b] && [b][1..] == "";
    assert TokensIn([b], false) == TokensIn("", false);
  }

  /** The hex text has one whitespace-separated token a byte, and none for no bytes. */
  lemma {:induction false} HexTokenCount(data: seq<byte>)
    ensures TokenCount(HexText(data)) == |data|
  {
    if data != [] {
      HexDigitIsText(data[0] / 16);
      HexDigitIsText(data[0] % 16);
      TokenPeels(HexDigit(data[0] / 16), HexDigit(data[0] % 16), HexText(data[1..]));
      HexTokenCount(data[1..]);
    }
  }

  function HexValue(c: char): nat {
    if '0' <= c <= '9' then (c - '0') as nat else if 'a' <= c <= 'f' then (c - 'a') as nat + 10 else 0
  }

  /** The bytes a hex text was made of. */
  function HexData(s: string): seq<nat>
    decreases |s|
  {
    if |s| < 2 then []
    else [16 * HexValue(s[0]) + HexValue(s[1])] + HexData(if |s| > 3 then s[3..] else "")
  }

  /** The hex text loses nothing: the data can be read back from it. */
  lemma {:induction false} HexRoundTrip(data: seq<byte>)
    ensures HexData(HexText(data)) == data
  {
    if data != [] {
      var s, rest := HexText(data), data[1..];
      HexRoundTrip(rest);
      assert s[0] == HexDigit(data[0] / 16) && s[1] == HexDigit(data[0] % 16);
      if rest != [] {
        assert |HexText(rest)| >= 2;
        assert s[3..] == HexText(rest);
      }
      assert [data[0]] + rest == data;
    }
  }

  // ---- The bounded ring ----

  const LOG_BUFFER_CAP: nat := 500

  function Last<T>(s: seq<T>, n: nat): (r: seq<T>)
    ensures |r| == if |s| < n then |s| else n
  {
    if |s| <= n then s else s[|s| - n..]
  }

  /** Evict the front when full, then append. */
  method PushBounded<T>(buf: seq<T>, x: T, cap: nat) returns (r: seq<T>)
    requires cap > 0 && |buf| <= cap
    ensures r == Last(buf + [x], cap)
  {
    r := buf;
    if |r| >= cap {
      r := r[1..];
    }
    r := r + [x];
  }

  /** The ring after a push holds the last entries of the longer history. */
  lemma LastOfPush<T>(history: seq<T>, x: T, cap: nat)
    requires cap > 0
    ensures Last(Last(history, cap) + [x], cap) == Last(history + [x], cap)
  {
  }

  // ---- Counters ----

  function ReportCount(ms: seq<InterceptedMessage>, d: Direction): nat {
    if ms == [] then 0
    else ReportCount(ms[..|ms| - 1], d) + (if ms[|ms| - 1].direction == d then 1 else 0)
  }

  function ByteCount(ms: seq<InterceptedMessage>, d: Direction): nat {
    if ms == [] then 0
    else ByteCount(ms[..|ms| - 1], d) + (if ms[|ms| - 1].direction == d then TokenCount(ms[|ms| - 1].rawHex) else 0)
  }

  function InterceptAll(rs: seq<Report>): (ms: seq<InterceptedMessage>)
    ensures |ms| == |rs| && forall i :: 0 <= i < |rs| ==> ms[i] == Intercept(rs[i])
  {
    seq(|rs|, i requires 0 <= i < |rs| => Intercept(rs[i]))
  }

  /** The reports of one direction, and the sum of their lengths. */
  function Sent(rs: seq<Report>, d: Direction): seq<seq<byte>> {
    if rs == [] then []
    else Sent(rs[..|rs| - 1], d) + (if rs[|rs| - 1].direction == d then [rs[|rs| - 1].data] else [])
  }

  function TotalLength(parts: seq<seq<byte>>): nat {
    if parts == [] then 0 else TotalLength(parts[..|parts| - 1]) + |parts[|parts| - 1]|
  }

  /** The counts kept from the text are the number of reports and of bytes that crossed the bridge. */
  lemma {:induction false} CountsAreOfReports(rs: seq<Report>, d: Direction)
    ensures ReportCount(InterceptAll(rs), d) == |Sent(rs, d)|
    ensures ByteCount(InterceptAll(rs), d) == TotalLength(Sent(rs, d))
  {
    if rs != [] {
      var front, last := rs[..|rs| - 1], rs[|rs| - 1];
      var ms := InterceptAll(rs);
      assert ms[..|ms| - 1] == InterceptAll(front);
      CountsAreOfReports(front, d);
      HexTokenCount(last.data);
      hide HexText, TokenCount;
      if last.direction == d {
        assert Sent(rs, d)[..|Sent(rs, d)| - 1] == Sent(front, d);
      } else {
        assert Sent(rs, d) == Sent(front, d);
      }
    }
  }

  /** After draining any history of reports, the counters are the true report and byte totals, modulo 2^64. */
  lemma CountersOfReports(rs: seq<Report>)
    ensures CountersOf(InterceptAll(rs)) ==
      Counters(Wrap64(|Sent(rs, HostToDevice)|), Wrap64(TotalLength(Sent(rs, HostToDevice))),
               Wrap64(|Sent(rs, DeviceToHost)|), Wrap64(TotalLength(Sent(rs, DeviceToHost))))
  {
    hide Wrap64;
    CountsAreOfReports(rs, HostToDevice);
    CountsAreOfReports(rs, DeviceToHost);
  }

  // ---- The drain task ----

  /** One log entry; `at` is a monotonic clock reading in nanoseconds. */
  datatype BridgeLog = BridgeLog(at: nat, direction: Direction, rawHex: string)

  predicate Monotone(log: seq<BridgeLog>) {
    forall i, j :: 0 <= i < j < |log| ==> log[i].at <= log[j].at
  }

  function Entries(ms: seq<InterceptedMessage>, times: seq<nat>): (r: seq<BridgeLog>)
    requires |ms| == |times|
    ensures |r| == |ms|
  {
    seq(|ms|, i requires 0 <= i < |ms| => BridgeLog(times[i], ms[i].direction, ms[i].rawHex))
  }

  lemma EntriesNext(ms: seq<InterceptedMessage>, times: seq<nat>, m: InterceptedMessage, now: nat)
    requires |ms| == |times|
    ensures Entries(ms + [m], times + [now]) == Entries(ms, times) + [BridgeLog(now, m.direction, m.rawHex)]
  {
  }

  /** A clock that never runs backwards leaves the ring in time order. */
  lemma RingIsMonotone(ms: seq<InterceptedMessage>, times: seq<nat>, cap: nat)
    requires |times| == |ms| && forall i, j :: 0 <= i < j < |times| ==> times[i] <= times[j]
    ensures Monotone(Last(Entries(ms, times), cap))
  {
    var all := Entries(ms, times);
    assert Monotone(all);
    var from := |all| - |Last(all, cap)|;
    assert forall i :: 0 <= i < |Last(all, cap)| ==> Last(all, cap)[i] == all[from + i];
  }

  datatype Counters = Counters(h2dReports: u64, h2dBytes: u64, d2hReports: u64, d2hBytes: u64)

  /** The counters after a history of messages; u64 addition wraps around. */
  function CountersOf(ms: seq<InterceptedMessage>): Counters {
    Counters(Wrap64(ReportCount(ms, HostToDevice)), Wrap64(ByteCount(ms, HostToDevice)),
             Wrap64(ReportCount(ms, DeviceToHost)), Wrap64(ByteCount(ms, DeviceToHost)))
  }

  /** The counters after one more message. */
  function Counted(c: Counters, m: InterceptedMessage): Counters {
    match m.direction
    case HostToDevice =>
      c.(h2dReports := Wrap64(c.h2dReports + 1), h2dBytes := Wrap64(c.h2dBytes + TokenCount(m.rawHex)))
    case DeviceToHost =>
      c.(d2hReports := Wrap64(c.d2hReports + 1), d2hBytes := Wrap64(c.d2hBytes + TokenCount(m.rawHex)))
  }

  /** The counters that have gone on from c through a history of messages. */
  function Plus(c: Counters, ms: seq<InterceptedMessage>): Counters {
    Counters(Wrap64(c.h2dReports + ReportCount(ms, HostToDevice)), Wrap64(c.h2dBytes + ByteCount(ms, HostToDevice)),
             Wrap64(c.d2hReports + ReportCount(ms, DeviceToHost)), Wrap64(c.d2hBytes + ByteCount(ms, DeviceToHost)))
  }

  lemma PlusNothing(c: Counters)
    ensures Plus(c, []) == c
  {
  }

  lemma PlusNext(c: Counters, ms: seq<InterceptedMessage>, m: InterceptedMessage)
    ensures Plus(c, ms + [m]) == Counted(Plus(c, ms), m)
  {
    hide TokenCount, Wrap64, ReportCount, ByteCount;
    CountsOfNext(ms, m);
    WrapAdds(c.h2dReports + ReportCount(ms, HostToDevice), 1);
    WrapAdds(c.h2dBytes + ByteCount(ms, HostToDevice), TokenCount(m.rawHex));
    WrapAdds(c.d2hReports + ReportCount(ms, DeviceToHost), 1);
    WrapAdds(c.d2hBytes + ByteCount(ms, DeviceToHost), TokenCount(m.rawHex));
  }

  lemma PlusFromZero(ms: seq<InterceptedMessage>)
    ensures Plus(Counters(0, 0, 0, 0), ms) == CountersOf(ms)
  {
  }

  class Drain {
    var bridgeLog: seq<BridgeLog>
    var h2dReports: u64
    var h2dBytes: u64
    var d2hReports: u64
    var d2hBytes: u64
    ghost var messages: seq<InterceptedMessage>
    ghost var times: seq<nat>

    function Snapshot(): Counters
      reads this`h2dReports, this`h2dBytes, this`d2hReports, this`d2hBytes
    {
      Counters(h2dReports, h2dBytes, d2hReports, d2hBytes)
    }

    /** The ring and the counters agree with everything received so far. */
    ghost predicate Valid()
      reads this
    {
      && |times| == |messages|
      && bridgeLog == Last(Entries(messages, times), LOG_BUFFER_CAP)
      && Snapshot() == CountersOf(messages)
    }

    /** The clock has not run backwards, and does not if it goes on with the given readings. */
    ghost predicate Steady(clock: seq<nat>)
      reads this`times
    {
      forall i, j :: 0 <= i < j < |times + clock| ==> (times + clock)[i] <= (times + clock)[j]
    }

    constructor ()
      ensures Valid() && messages == [] && times == []
      ensures bridgeLog == [] && Snapshot() == Counters(0, 0, 0, 0)
    {
      bridgeLog := [];
      h2dReports, h2dBytes, d2hReports, d2hBytes := 0, 0, 0, 0;
      messages, times := [], [];
    }

    method Count(msg: InterceptedMessage)
      modifies this`h2dReports, this`h2dBytes, this`d2hReports, this`d2hBytes
      ensures Snapshot() == Counted(old(Snapshot()), msg)
    {
      hide TokenCount, Wrap64;
      var bytes := TokenCount(msg.rawHex);
      match msg.direction {
        case HostToDevice =>
          h2dReports := Wrap64(h2dReports + 1);
          h2dBytes := Wrap64(h2dBytes + bytes);
        case DeviceToHost =>
          d2hReports := Wrap64(d2hReports + 1);
          d2hBytes := Wrap64(d2hBytes + bytes);
      }
    }

    /** One turn of the drain loop. */
    method Capture(msg: InterceptedMessage, now: nat)
      requires Valid()
      modifies this
      ensures Valid() && messages == old(messages) + [msg] && times == old(times) + [now]
      ensures bridgeLog == Last(old(bridgeLog) + [BridgeLog(now, msg.direction, msg.rawHex)], LOG_BUFFER_CAP)
      ensures Snapshot() == Counted(old(Snapshot()), msg)
      ensures old(Steady([now])) ==> Steady([])
    {
      hide CountersOf, Snapshot, Last, Entries, Counted, Plus;
      PlusFromZero(messages);
      PlusFromZero(messages + [msg]);
      PlusNext(Counters(0, 0, 0, 0), messages, msg);
      Count(msg);
      var entry := BridgeLog(now, msg.direction, msg.rawHex);
      LastOfPush(Entries(messages, times), entry, LOG_BUFFER_CAP);
      bridgeLog := PushBounded(bridgeLog, entry, LOG_BUFFER_CAP);
      EntriesNext(messages, times, msg, now);
      messages, times := messages + [msg], times + [now];
      assert times + [] == old(times) + [now];
    }

    /** Draining a whole channel, each message with the time it was taken at. */
    method DrainAll(channel: seq<InterceptedMessage>, clock: seq<nat>)
      requires Valid() && |clock| == |channel|
      modifies this
      ensures Valid() && messages == old(messages) + channel && times == old(times) + clock
      ensures old(Steady(clock)) ==> Steady([])
    {
      hide Valid;
      var i := 0;
      while i < |channel|
        invariant i <= |channel| && Valid()
        invariant messages == old(messages) + channel[..i] && times == old(times) + clock[..i]
      {
        Capture(channel[i], clock[i]);
        assert channel[..i] + [channel[i]] == channel[..i + 1] && clock[..i] + [clock[i]] == clock[..i + 1];
        i := i + 1;
      }
      assert times + [] == old(times) + clock;
    }
  }

  lemma CountsOfNext(ms: seq<InterceptedMessage>, m: InterceptedMessage)
    ensures forall d :: ReportCount(ms + [m], d) == ReportCount(ms, d) + (if m.direction == d then 1 else 0)
    ensures forall d ::
      ByteCount(ms + [m], d) == ByteCount(ms, d) + (if m.direction == d then TokenCount(m.rawHex) else 0)
  {
    hide TokenCount;
    assert (ms + [m])[..|ms|] == ms;
  }

  lemma WrapAdds(x: nat, y: nat)
    ensures Wrap64(Wrap64(x) + y) == Wrap64(x + y)
  {
  }

  // ---- Collected logs ----

  datatype Source = Emulator | Bridge | All

  datatype LogEntry = LogEntry(tsMs: u64, source: Source, message: string, direction: string, rawHex: string)

  function DirectionText(d: Direction): string {
    if d.HostToDevice? then ">>" else "<<"
  }

  /** Milliseconds from start to at, none before it; the cast to u64 wraps around. */
  function Millis(start: nat, at: nat): u64 {
    if at <= start then 0 else Wrap64((at - start) / 1_000_000)
  }

  function EmulatorEntries(lines: seq<string>, nowMs: u64): (r: seq<LogEntry>)
    ensures |r| == |lines|
  {
    seq(|lines|, i requires 0 <= i < |lines| => LogEntry(nowMs, Emulator, lines[i], "", ""))
  }

  function BridgeEntries(log: seq<BridgeLog>, start: nat): (r: seq<LogEntry>)
    ensures |r| == |log|
  {
    seq(|log|, i requires 0 <= i < |log| =>
      LogEntry(Millis(start, log[i].at), Bridge, "", DirectionText(log[i].direction), log[i].rawHex))
  }

  predicate Sorted(s: seq<LogEntry>) {
    forall i, j :: 0 <= i < j < |s| ==> s[i].tsMs <= s[j].tsMs
  }

  /** e goes behind the entries of s that are not later: equal times keep their order. */
  function Insert(s: seq<LogEntry>, e: LogEntry): seq<LogEntry> {
    if s == [] then [e]
    else if s[|s| - 1].tsMs <= e.tsMs then s + [e]
    else Insert(s[..|s| - 1], e) + [s[|s| - 1]]
  }

  /** The stable sort of `sort_by_key` by time. */
  function SortedByTime(s: seq<LogEntry>): seq<LogEntry> {
    if s == [] then [] else Insert(SortedByTime(s[..|s| - 1]), s[|s| - 1])
  }

  function OfSource(s: seq<LogEntry>, source: Source): seq<LogEntry> {
    if s == [] then []
    else OfSource(s[..|s| - 1], source) + (if s[|s| - 1].source == source then [s[|s| - 1]] else [])
  }

  predicate AllBy(s: seq<LogEntry>, t: nat) {
    forall i :: 0 <= i < |s| ==> s[i].tsMs <= t
  }

  lemma {:induction false} InsertBounded(s: seq<LogEntry>, e: LogEntry, t: nat)
    requires AllBy(s, t) && e.tsMs <= t
    ensures AllBy(Insert(s, e), t)
  {
    if s != [] && s[|s| - 1].tsMs > e.tsMs {
      InsertBounded(s[..|s| - 1], e, t);
    }
  }

  lemma {:induction false} InsertSorts(s: seq<LogEntry>, e: LogEntry)
    requires Sorted(s)
    ensures Sorted(Insert(s, e))
  {
    if s != [] && s[|s| - 1].tsMs > e.tsMs {
      var front, last := s[..|s| - 1], s[|s| - 1];
      InsertSorts(front, e);
      InsertBounded(front, e, last.tsMs);
    }
  }

  lemma {:induction false} InsertPermutes(s: seq<LogEntry>, e: LogEntry)
    ensures multiset(Insert(s, e)) == multiset(s) + multiset{e}
  {
    if s != [] && s[|s| - 1].tsMs > e.tsMs {
      assert s == s[..|s| - 1] + [s[|s| - 1]];
      InsertPermutes(s[..|s| - 1], e);
    }
  }

  lemma {:induction false} SortSorts(s: seq<LogEntry>)
    ensures Sorted(SortedByTime(s)) && multiset(SortedByTime(s)) == multiset(s)
  {
    hide Insert;
    if s != [] {
      var front := s[..|s| - 1];
      SortSorts(front);
      InsertSorts(SortedByTime(front), s[|s| - 1]);
      InsertPermutes(SortedByTime(front), s[|s| - 1]);
      hide Sorted;
      assert s == front + [s[|s| - 1]];
    }
  }

  lemma OfSourceAppend(s: seq<LogEntry>, e: LogEntry, source: Source)
    ensures OfSource(s + [e], source) == if e.source == source then OfSource(s, source) + [e] else OfSource(s, source)
  {
    assert (s + [e])[..|s|] == s;
  }

  /** Inserting and then keeping one source is keeping it and then inserting. */
  lemma {:induction false} InsertKeepsSource(s: seq<LogEntry>, e: LogEntry, source: Source)
    requires Sorted(s)
    ensures OfSource(Insert(s, e), source) ==
            if e.source == source then Insert(OfSource(s, source), e) else OfSource(s, source)
  {
    hide OfSource, Insert;
    if s == [] || s[|s| - 1].tsMs <= e.tsMs {
      InsertLast(s, e);
      OfSourceAppend(s, e, source);
      OfSourceBounded(s, source, e.tsMs);
      InsertLast(OfSource(s, source), e);
    } else {
      var front, last := s[..|s| - 1], s[|s| - 1];
      assert s == front + [last];
      InsertBefore(front, last, e);
      InsertKeepsSource(front, e, source);
      OfSourceAppend(Insert(front, e), last, source);
      InsertBefore(OfSource(front, source), last, e);
      OfSourceAppend(front, last, source);
    }
  }

  lemma InsertLast(s: seq<LogEntry>, e: LogEntry)
    requires AllBy(s, e.tsMs)
    ensures Insert(s, e) == s + [e]
  {
    assert s == [] ==> s + [e] == [e];
  }

  lemma OfSourceOfNone(source: Source)
    ensures OfSource([], source) == []
  {
  }

  lemma {:induction false} OfSourceBounded(s: seq<LogEntry>, source: Source, t: nat)
    requires AllBy(s, t)
    ensures AllBy(OfSource(s, source), t)
  {
    if s != [] {
      OfSourceBounded(s[..|s| - 1], source, t);
    }
  }

  lemma InsertBefore(s: seq<LogEntry>, last: LogEntry, e: LogEntry)
    requires last.tsMs > e.tsMs
    ensures Insert(s + [last], e) == Insert(s, e) + [last]
  {
    assert (s + [last])[..|s|] == s;
  }

  lemma SortOfAppended(s: seq<LogEntry>, e: LogEntry)
    ensures SortedByTime(s + [e]) == Insert(SortedByTime(s), e)
    ensures SortedByTime([]) == []
  {
    assert (s + [e])[..|s|] == s;
  }

  /** Sorting is stable: what it does to one source it does as if the other were not there. */
  lemma {:induction false} SortKeepsSource(s: seq<LogEntry>, source: Source)
    ensures OfSource(SortedByTime(s), source) == SortedByTime(OfSource(s, source))
  {
    hide Insert, OfSource, SortedByTime, Sorted;
    SortOfAppended([], LogEntry(0, All, "", "", ""));
    if s != [] {
      var front, last := s[..|s| - 1], s[|s| - 1];
      SortKeepsSource(front, source);
      SortSorts(front);
      InsertKeepsSource(SortedByTime(front), last, source);
      assert s == front + [last];
      OfSourceAppend(front, last, source);
      SortOfAppended(OfSource(front, source), last);
      SortOfAppended(front, last);
    } else {
      OfSourceOfNone(source);
    }
  }

  lemma {:induction false} SortOfSorted(s: seq<LogEntry>)
    requires Sorted(s)
    ensures SortedByTime(s) == s
  {
    if s != [] {
      SortOfSorted(s[..|s| - 1]);
      assert s == s[..|s| - 1] + [s[|s| - 1]];
    }
  }

  /** What an instance's logs are collected from. */
  datatype LogState = LogState(emuOutput: seq<string>, bridgeLog: seq<BridgeLog>, startedAt: nat)

  function Selected(st: LogState, source: Source, now: nat): seq<LogEntry> {
    (if source != Bridge then EmulatorEntries(st.emuOutput, Millis(st.startedAt, now)) else [])
    + (if source != Emulator then BridgeEntries(st.bridgeLog, st.startedAt) else [])
  }

  /** The unified log: selected, sorted by time, and cut to its tail. */
  function Collected(st: LogState, source: Source, tail: Option<nat>, now: nat): seq<LogEntry> {
    var all := SortedByTime(Selected(st, source, now));
    if tail.Some? then Last(all, tail.value) else all
  }

  method CollectLogs(st: LogState, source: Source, tail: Option<nat>, now: nat) returns (out: seq<LogEntry>)
    ensures out == Collected(st, source, tail, now)
  {
    hide Millis, DirectionText, SortedByTime;
    out := [];
    if source == Emulator || source == All {
      var nowMs := Millis(st.startedAt, now);
      var i := 0;
      while i < |st.emuOutput|
        invariant i <= |st.emuOutput|
        invariant out == EmulatorEntries(st.emuOutput, nowMs)[..i]
      {
        out := out + [LogEntry(nowMs, Emulator, st.emuOutput[i], "", "")];
        i := i + 1;
      }
    }
    ghost var lines := out;
    if source == Bridge || source == All {
      var i := 0;
      while i < |st.bridgeLog|
        invariant i <= |st.bridgeLog|
        invariant out == lines + BridgeEntries(st.bridgeLog, st.startedAt)[..i]
      {
        var e := st.bridgeLog[i];
        out := out + [LogEntry(Millis(st.startedAt, e.at), Bridge, "", DirectionText(e.direction), e.rawHex)];
        i := i + 1;
      }
    }
    assert out == Selected(st, source, now);
    out := SortedByTime(out);
    if tail.Some? {
      if |out| > tail.value {
        out := out[|out| - tail.value..];
      }
    }
  }

  lemma MillisMonotone(start: nat, a: nat, b: nat)
    requires a <= b && b < start + TWO_TO_64 * 1_000_000
    ensures Millis(start, a) <= Millis(start, b)
  {
  }

  lemma BridgeEntriesSorted(log: seq<BridgeLog>, start: nat)
    requires Monotone(log)
    requires forall i :: 0 <= i < |log| ==> log[i].at < start + TWO_TO_64 * 1_000_000
    ensures Sorted(BridgeEntries(log, start))
  {
    hide Millis;
    forall i, j | 0 <= i < j < |log|
      ensures Millis(start, log[i].at) <= Millis(start, log[j].at)
    {
      MillisMonotone(start, log[i].at, log[j].at);
    }
  }

  lemma {:induction false} OneSource(s: seq<LogEntry>, source: Source, other: Source)
    requires forall i :: 0 <= i < |s| ==> s[i].source == source
    requires source != other
    ensures OfSource(s, source) == s && OfSource(s, other) == []
  {
    hide OfSource;
    OfSourceOfNone(source);
    OfSourceOfNone(other);
    if s != [] {
      var front := s[..|s| - 1];
      assert s == front + [s[|s| - 1]];
      OneSource(front, source, other);
      OfSourceAppend(front, s[|s| - 1], source);
      OfSourceAppend(front, s[|s| - 1], other);
    }
  }

  lemma {:induction false} OfSourceConcat(xs: seq<LogEntry>, ys: seq<LogEntry>, source: Source)
    ensures OfSource(xs + ys, source) == OfSource(xs, source) + OfSource(ys, source)
  {
    if ys == [] {
      assert xs + ys == xs;
    } else {
      assert (xs + ys)[..|xs + ys| - 1] == xs + ys[..|ys| - 1];
      OfSourceConcat(xs, ys[..|ys| - 1], source);
    }
  }

  /**
   * The whole unified log is a sorted permutation of both buffers in which each source is exactly
   * its own buffer, in its own order.
   */
  lemma CollectedKeepsOrder(st: LogState, now: nat)
    requires Monotone(st.bridgeLog)
    requires forall i :: 0 <= i < |st.bridgeLog| ==> st.bridgeLog[i].at < st.startedAt + TWO_TO_64 * 1_000_000
    ensures var all := SortedByTime(Selected(st, All, now));
      && Sorted(all) && multiset(all) == multiset(Selected(st, All, now))
      && OfSource(all, Emulator) == EmulatorEntries(st.emuOutput, Millis(st.startedAt, now))
      && OfSource(all, Bridge) == BridgeEntries(st.bridgeLog, st.startedAt)
  {
    hide Millis, SortedByTime, OfSource;
    var es, bs := EmulatorEntries(st.emuOutput, Millis(st.startedAt, now)), BridgeEntries(st.bridgeLog, st.startedAt);
    SortSorts(es + bs);
    OneSource(es, Emulator, Bridge);
    OneSource(bs, Bridge, Emulator);
    OfSourceConcat(es, bs, Emulator);
    OfSourceConcat(es, bs, Bridge);
    SortKeepsSource(es + bs, Emulator);
    SortKeepsSource(es + bs, Bridge);
    BridgeEntriesSorted(st.bridgeLog, st.startedAt);
    SortOfSorted(es);
    SortOfSorted(bs);
    assert es + [] == es && [] + bs == bs;
  }

  // ---- Where the emulator's lines go ----

  /** How many entries are earlier than t. */
  function Earlier(s: seq<LogEntry>, t: nat): (k: nat)
    ensures k <= |s|
  {
    if s == [] then 0 else Earlier(s[..|s| - 1], t) + (if s[|s| - 1].tsMs < t then 1 else 0)
  }

  /** The first k entries are earlier than t, and no other is. */
  predicate SplitAt(s: seq<LogEntry>, k: nat, t: nat) {
    && k <= |s|
    && (forall i :: 0 <= i < k ==> s[i].tsMs < t)
    && (forall i :: k <= i < |s| ==> s[i].tsMs >= t)
  }

  /** An entry goes in front of everything later than it. */
  lemma {:induction false} InsertInFront(xs: seq<LogEntry>, ys: seq<LogEntry>, e: LogEntry)
    requires forall i :: 0 <= i < |ys| ==> ys[i].tsMs > e.tsMs
    ensures Insert(xs + ys, e) == Insert(xs, e) + ys
  {
    hide Insert;
    if ys == [] {
      assert xs + ys == xs;
    } else {
      var front, last := ys[..|ys| - 1], ys[|ys| - 1];
      InsertInFront(xs, front, e);
      assert xs + ys == xs + front + [last];
      InsertBefore(xs + front, last, e);
    }
  }

  /** An entry goes behind everything not later than it. */
  lemma {:induction false} InsertBehind(xs: seq<LogEntry>, ys: seq<LogEntry>, e: LogEntry)
    requires AllBy(xs, e.tsMs)
    ensures Insert(xs + ys, e) == xs + Insert(ys, e)
  {
    if ys == [] {
      assert xs + ys == xs;
      InsertLast(xs, e);
    } else if ys[|ys| - 1].tsMs > e.tsMs {
      var front, last := ys[..|ys| - 1], ys[|ys| - 1];
      assert (xs + ys)[..|xs + ys| - 1] == xs + front;
      InsertBehind(xs, front, e);
    }
  }

  /** Inserting into a split log: es stands at the split, before and after. */
  lemma InsertAround(f: seq<LogEntry>, es: seq<LogEntry>, k: nat, t: nat, e: LogEntry)
    requires SplitAt(f, k, t) && forall i :: 0 <= i < |es| ==> es[i].tsMs == t
    ensures var g, j := Insert(f, e), k + (if e.tsMs < t then 1 else 0);
      SplitAt(g, j, t) && Insert(f[..k] + es + f[k..], e) == g[..j] + es + g[j..]
  {
    hide Insert;
    var g := Insert(f, e);
    assert f == f[..k] + f[k..];
    if e.tsMs < t {
      InsertInFront(f[..k], f[k..], e);
      InsertInFront(f[..k], es + f[k..], e);
      assert f[..k] + es + f[k..] == f[..k] + (es + f[k..]);
      InsertPermutes(f[..k], e);
      InsertBounded(f[..k], e, t - 1);
      assert |multiset(Insert(f[..k], e))| == k + 1;
      assert g[..k + 1] == Insert(f[..k], e) && g[k + 1..] == f[k..];
    } else {
      InsertBehind(f[..k], f[k..], e);
      InsertBehind(f[..k] + es, f[k..], e);
      InsertFrom(f[k..], e, t);
      assert g[..k] == f[..k] && g[k..] == Insert(f[k..], e);
    }
  }

  lemma {:induction false} InsertFrom(s: seq<LogEntry>, e: LogEntry, t: nat)
    requires e.tsMs >= t && forall i :: 0 <= i < |s| ==> s[i].tsMs >= t
    ensures forall i :: 0 <= i < |Insert(s, e)| ==> Insert(s, e)[i].tsMs >= t
  {
    if s != [] && s[|s| - 1].tsMs > e.tsMs {
      InsertFrom(s[..|s| - 1], e, t);
    }
  }

  lemma {:induction false} SortAround(es: seq<LogEntry>, bs: seq<LogEntry>, t: nat)
    requires forall i :: 0 <= i < |es| ==> es[i].tsMs == t
    ensures var f, k := SortedByTime(bs), Earlier(bs, t);
      SplitAt(f, k, t) && SortedByTime(es + bs) == f[..k] + es + f[k..]
  {
    hide Insert, SortedByTime;
    SortOfAppended([], LogEntry(0, All, "", "", ""));
    if bs == [] {
      assert es + bs == es;
      SortOfSorted(es);
    } else {
      var front, last := bs[..|bs| - 1], bs[|bs| - 1];
      SortAround(es, front, t);
      assert bs == front + [last] && es + bs == es + front + [last];
      SortOfAppended(front, last);
      SortOfAppended(es + front, last);
      InsertAround(SortedByTime(front), es, Earlier(front, t), t, last);
    }
  }

  /**
   * The whole unified log, for every input: all emulator lines carry the time of the call and stand
   * together, in order, behind exactly the bridge entries of an earlier millisecond.
   */
  lemma EmulatorLinesStandTogether(st: LogState, now: nat)
    ensures var t := Millis(st.startedAt, now);
      var es, bs := EmulatorEntries(st.emuOutput, t), BridgeEntries(st.bridgeLog, st.startedAt);
      var f, k := SortedByTime(bs), Earlier(bs, t);
      && (forall i :: 0 <= i < |es| ==> es[i].tsMs == t)
      && SplitAt(f, k, t) && SortedByTime(Selected(st, All, now)) == f[..k] + es + f[k..]
  {
    hide Millis, SortedByTime;
    var t := Millis(st.startedAt, now);
    SortAround(EmulatorEntries(st.emuOutput, t), BridgeEntries(st.bridgeLog, st.startedAt), t);
  }

  /** A log kept in time order is not rearranged around them. */
  lemma BridgeEntriesStayPut(st: LogState)
    requires Monotone(st.bridgeLog)
    requires forall i :: 0 <= i < |st.bridgeLog| ==> st.bridgeLog[i].at < st.startedAt + TWO_TO_64 * 1_000_000
    ensures var bs := BridgeEntries(st.bridgeLog, st.startedAt); SortedByTime(bs) == bs
  {
    hide Millis, SortedByTime;
    BridgeEntriesSorted(st.bridgeLog, st.startedAt);
    SortOfSorted(BridgeEntries(st.bridgeLog, st.startedAt));
  }

  /** Two lines and a report of millisecond 2, collected in millisecond 9: both lines are dated 9, none spread. */
  lemma LinesAreNotSpread()
    ensures var st := LogState(["first", "second"], [BridgeLog(2_000_000, HostToDevice, "00")], 0);
      var all := SortedByTime(Selected(st, All, 9_000_000));
      |all| == 3 && all[0].tsMs == 2 && all[1].message == "first" && all[1].tsMs == all[2].tsMs == 9
  {
    var st := LogState(["first", "second"], [BridgeLog(2_000_000, HostToDevice, "00")], 0);
    EmulatorLinesStandTogether(st, 9_000_000);
    BridgeEntriesStayPut(st);
    var bs := BridgeEntries(st.bridgeLog, 0);
    assert Millis(0, 2_000_000) == 2 && Millis(0, 9_000_000) == 9;
    assert bs[..0] == [];
    assert Earlier(bs, 9) == 1;
  }

  // ---- What each request gets ----

  /** Whole milliseconds between two clock readings in nanoseconds, and none for a reading before the start. */
  lemma MillisAreWhole(start: nat, at: nat)
    ensures at <= start ==> Millis(start, at) == 0
    ensures start <= at < start + TWO_TO_64 * 1_000_000 ==>
      Millis(start, at) * 1_000_000 <= at - start < (Millis(start, at) + 1) * 1_000_000
  {
  }

  /** Asking for the emulator gives its lines, all of them and in order, and nothing of the bridge. */
  lemma EmulatorLogIsItsLines(st: LogState, now: nat)
    ensures var all := Collected(st, Emulator, None, now);
      && |all| == |st.emuOutput|
      && forall i :: 0 <= i < |all| ==>
           all[i] == LogEntry(Millis(st.startedAt, now), Emulator, st.emuOutput[i], "", "")
  {
    hide Millis, SortedByTime;
    var es := EmulatorEntries(st.emuOutput, Millis(st.startedAt, now));
    assert es + [] == es;
    SortOfSorted(es);
  }

  /** How a message of the ring is listed: an arrow for its direction, and its hex text. */
  function RingEntry(b: BridgeLog, start: nat): LogEntry {
    LogEntry(Millis(start, b.at), Bridge, "", if b.direction == HostToDevice then ">>" else "<<", b.rawHex)
  }

  function RingEntries(st: LogState): seq<LogEntry> {
    seq(|st.bridgeLog|, i requires 0 <= i < |st.bridgeLog| => RingEntry(st.bridgeLog[i], st.startedAt))
  }

  /** Asking for the bridge gives the entries of its ring, each once, by time, and nothing of the emulator. */
  lemma BridgeLogIsItsRing(st: LogState, now: nat)
    ensures var all, ring := Collected(st, Bridge, None, now), RingEntries(st);
      && Sorted(all) && multiset(all) == multiset(ring)
      && (forall e :: e in all ==> e.source == Bridge)
      && (Monotone(st.bridgeLog)
          && (forall i :: 0 <= i < |st.bridgeLog| ==> st.bridgeLog[i].at < st.startedAt + TWO_TO_64 * 1_000_000)
          ==> all == ring)
  {
    hide Millis, SortedByTime;
    var bs := BridgeEntries(st.bridgeLog, st.startedAt);
    var ring := RingEntries(st);
    assert [] + bs == bs && bs == ring;
    SortSorts(bs);
    forall e | e in SortedByTime(bs)
      ensures e.source == Bridge
    {
      assert e in multiset(bs);
    }
    if Monotone(st.bridgeLog)
       && forall i :: 0 <= i < |st.bridgeLog| ==> st.bridgeLog[i].at < st.startedAt + TWO_TO_64 * 1_000_000
    {
      BridgeEntriesStayPut(st);
    }
  }

  /** A tail of n is the last n entries of the whole log, or all of it if there are fewer. */
  lemma TailIsSuffix(st: LogState, source: Source, n: nat, now: nat)
    ensures var all, tail := Collected(st, source, None, now), Collected(st, source, Some(n), now);
      && |tail| == (if n < |all| then n else |all|)
      && tail == all[|all| - |tail|..]
  {
    hide SortedByTime, Selected;
  }
}
