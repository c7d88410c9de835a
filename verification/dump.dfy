/** The answer to "show table <name>": a header line, the table's entry
    lines, and a blank line at the end, e.g.

      # table: fe_http, type: ip, size:1048576, used:1
      0x564104c72d60: key=192.168.128.1 use=0 exp=8183 gpc0=0 conn_rate(3000)=40 conn_cur=0 http_req_rate(10000)=19

    and the exporter's `getTableMetricsFromAnswer`, which turns it into a
    `tableMetrics` snapshot. */
module Dump {
  import opened Wrappers
  import opened Text
  import opened Numbers
  import opened GoMap
  import opened EntryLine
  import opened Header

  /** The snapshot of one stick-table. The Go record holds `float64`s; the
      model holds the naturals the digit-only reader gives. */
  datatype TableMetrics = TableMetrics(
    name: string,
    entries: nat,
    tcpConnRates: seq<nat>,
    tcpConnRatesInterval: string,
    httpRequestRates: seq<nat>,
    httpRequestRatesInterval: string)

  /** The snapshot the exporter starts from: only the name is set. */
  function Fresh(name: string): TableMetrics {
    TableMetrics(name, 0, [], "", [], "")
  }

  /** The two rates the exporter keeps per entry line. */
  datatype Metric = TcpConnRate | HttpReqRate

  /** The entry-line key a metric's samples are read from. */
  function Field(metric: Metric): string {
    match metric
    case TcpConnRate => "conn_rate"
    case HttpReqRate => "http_req_rate"
  }

  /** The entry-line key a metric's window is read from. */
  function IntervalField(metric: Metric): string {
    match metric
    case TcpConnRate => "conn_rate_interval"
    case HttpReqRate => "http_req_rate_interval"
  }

  function Samples(tm: TableMetrics, metric: Metric): seq<nat> {
    match metric
    case TcpConnRate => tm.tcpConnRates
    case HttpReqRate => tm.httpRequestRates
  }

  function Interval(tm: TableMetrics, metric: Metric): string {
    match metric
    case TcpConnRate => tm.tcpConnRatesInterval
    case HttpReqRate => tm.httpRequestRatesInterval
  }

  /** A line holding only white space ends the entry lines. */
  predicate IsBlank(line: string) {
    |TrimSpace(line)| == 0
  }

  /** The position of the first blank line at or after `from`, `|lines|`
      when there is none. */
  function FirstBlankFrom(lines: seq<string>, from: nat): (k: nat)
    requires from <= |lines|
    ensures from <= k <= |lines|
    ensures forall i :: from <= i < k ==> !IsBlank(lines[i])
    ensures k < |lines| ==> IsBlank(lines[k])
    decreases |lines| - from
  {
    if from == |lines| || IsBlank(lines[from]) then from else FirstBlankFrom(lines, from + 1)
  }

  /** The number of lines before the first blank one. */
  function FirstBlank(lines: seq<string>): (k: nat)
    ensures k <= |lines|
    ensures forall i :: 0 <= i < k ==> !IsBlank(lines[i])
    ensures k < |lines| ==> IsBlank(lines[k])
  {
    FirstBlankFrom(lines, 0)
  }

  /** Every line before the first blank one can be read as an entry line. */
  predicate EntriesOk(lines: seq<string>) {
    forall i :: 0 <= i < FirstBlank(lines) ==> EntryLineOk(lines[i])
  }

  /** The maps of the entry lines the loop reads: those before the first
      blank line, in order. */
  function EntryMaps(lines: seq<string>): (ms: seq<map<string, string>>)
    requires EntriesOk(lines)
    ensures |ms| == FirstBlank(lines)
  {
    seq(FirstBlank(lines), i requires 0 <= i < FirstBlank(lines) => LineToMap(lines[i]))
  }

  /** A metric's sample in one entry: the number under its key, 0 when there
      is none or it does not parse. */
  function Sample(m: map<string, string>, metric: Metric): nat {
    NumOrZero(Get(m, Field(metric)))
  }

  /** A metric's window in one entry, "" when there is none. */
  function Window(m: map<string, string>, metric: Metric): string {
    Get(m, IntervalField(metric))
  }

  /** One pass of the loop over the entry lines: append both samples, and
      take each window unless one is already known. */
  function AddEntry(tm: TableMetrics, m: map<string, string>): TableMetrics {
    tm.(tcpConnRates := tm.tcpConnRates + [Sample(m, TcpConnRate)],
        tcpConnRatesInterval :=
          if tm.tcpConnRatesInterval == "" then Window(m, TcpConnRate) else tm.tcpConnRatesInterval,
        httpRequestRates := tm.httpRequestRates + [Sample(m, HttpReqRate)],
        httpRequestRatesInterval :=
          if tm.httpRequestRatesInterval == "" then Window(m, HttpReqRate) else tm.httpRequestRatesInterval)
  }

  /** One entry adds exactly its sample to each metric and fills an empty
      window with its own; name and entry count stay. */
  lemma AddEntryMetric(tm: TableMetrics, m: map<string, string>, metric: Metric)
    ensures AddEntry(tm, m).name == tm.name && AddEntry(tm, m).entries == tm.entries
    ensures Samples(AddEntry(tm, m), metric) == Samples(tm, metric) + [Sample(m, metric)]
    ensures Interval(AddEntry(tm, m), metric) ==
              if Interval(tm, metric) == "" then Window(m, metric) else Interval(tm, metric)
  {
  }

  /** The loop over the entries, in order. */
  function AddEntries(tm: TableMetrics, ms: seq<map<string, string>>): (r: TableMetrics)
    ensures r.name == tm.name && r.entries == tm.entries
  {
    if |ms| == 0 then tm
    else AddEntry(AddEntries(tm, ms[..|ms| - 1]), ms[|ms| - 1])
  }

  /** A metric's samples of the entries, in order. */
  function SampleSeq(ms: seq<map<string, string>>, metric: Metric): (s: seq<nat>)
    ensures |s| == |ms|
  {
    seq(|ms|, i requires 0 <= i < |ms| => Sample(ms[i], metric))
  }

  lemma SampleSeqLast(ms: seq<map<string, string>>, metric: Metric)
    requires |ms| > 0
    ensures SampleSeq(ms, metric) == SampleSeq(ms[..|ms| - 1], metric) + [Sample(ms[|ms| - 1], metric)]
  {
  }

  /** The loop appends one sample per entry, in order, to the samples already held. */
  lemma {:induction false} AddEntriesSamples(tm: TableMetrics, ms: seq<map<string, string>>, metric: Metric)
    ensures Samples(AddEntries(tm, ms), metric) == Samples(tm, metric) + SampleSeq(ms, metric)
    decreases |ms|
  {
    if |ms| == 0 {
      assert Samples(tm, metric) + SampleSeq(ms, metric) == Samples(tm, metric);
    } else {
      var init := ms[..|ms| - 1];
      var last := ms[|ms| - 1];
      AddEntriesSamples(tm, init, metric);
      AddEntryMetric(AddEntries(tm, init), last, metric);
      SampleSeqLast(ms, metric);
      AppendAssoc(Samples(tm, metric), SampleSeq(init, metric), [Sample(last, metric)]);
    }
  }

  /** The first non-empty window among the entries, "" when there is none:
      a reference reading, scanning from the front. */
  function FirstWindow(ms: seq<map<string, string>>, metric: Metric): string {
    if |ms| == 0 then ""
    else if Window(ms[0], metric) != "" then Window(ms[0], metric)
    else FirstWindow(ms[1..], metric)
  }

  /** `FirstWindow` is "" exactly when every window is, and otherwise it is
      the window of the first entry that has one. */
  lemma {:induction false} FirstWindowSpec(ms: seq<map<string, string>>, metric: Metric)
    ensures FirstWindow(ms, metric) == "" <==> forall i :: 0 <= i < |ms| ==> Window(ms[i], metric) == ""
    ensures forall j :: 0 <= j < |ms| && Window(ms[j], metric) != ""
                        && (forall i :: 0 <= i < j ==> Window(ms[i], metric) == "") ==>
              FirstWindow(ms, metric) == Window(ms[j], metric)
    decreases |ms|
  {
    if |ms| > 0 && Window(ms[0], metric) == "" {
      var rest := ms[1..];
      FirstWindowSpec(rest, metric);
      assert forall i :: 0 < i < |ms| ==> ms[i] == rest[i - 1];
      forall j | 0 <= j < |ms| && Window(ms[j], metric) != ""
                 && (forall i :: 0 <= i < j ==> Window(ms[i], metric) == "")
        ensures FirstWindow(ms, metric) == Window(ms[j], metric)
      {
        assert forall i :: 0 <= i < j - 1 ==> rest[i] == ms[i + 1];
      }
    }
  }

  /** Appending an entry changes the first window only when there was none. */
  lemma {:induction false} FirstWindowAppend(ms: seq<map<string, string>>, m: map<string, string>, metric: Metric)
    ensures FirstWindow(ms + [m], metric) ==
              if FirstWindow(ms, metric) == "" then Window(m, metric) else FirstWindow(ms, metric)
    decreases |ms|
  {
    if |ms| == 0 {
      assert (ms + [m])[1..] == [];
    } else {
      FirstWindowAppend(ms[1..], m, metric);
      assert (ms + [m])[1..] == ms[1..] + [m];
    }
  }

  /** The loop keeps a known window, and otherwise ends with the first
      non-empty window among the entries. */
  lemma {:induction false} AddEntriesInterval(tm: TableMetrics, ms: seq<map<string, string>>, metric: Metric)
    ensures Interval(AddEntries(tm, ms), metric) ==
              if Interval(tm, metric) == "" then FirstWindow(ms, metric) else Interval(tm, metric)
    decreases |ms|
  {
    if |ms| > 0 {
      var init := ms[..|ms| - 1];
      var last := ms[|ms| - 1];
      assert init + [last] == ms;
      var before := AddEntries(tm, init);
      assert AddEntries(tm, ms) == AddEntry(before, last);
      AddEntriesInterval(tm, init, metric);
      AddEntryMetric(before, last, metric);
      FirstWindowAppend(init, last, metric);
    }
  }

  /** What the parser needs of an answer's lines: a header it can read and,
      when the header names the table asked for, entry lines it can read. */
  predicate DumpLinesOk(tableName: string, lines: seq<string>) {
    && |lines| >= 1
    && HeaderOk(lines[0])
    && (Get(FirstLineToMap(lines[0]), "table") == tableName ==> EntriesOk(lines[1..]))
  }

  /** The loop body of `getTableMetricsFromAnswer`, on the answer's lines. */
  function TableMetricsFromLines(tableName: string, lines: seq<string>): TableMetrics
    requires DumpLinesOk(tableName, lines)
  {
    var header := FirstLineToMap(lines[0]);
    var tm := Fresh(tableName);
    if Get(header, "table") != tableName then tm
    else AddEntries(tm.(entries := NumOrZero(Get(header, "used"))), EntryMaps(lines[1..]))
  }

  /** The header line's map: the first line of the answer. */
  function HeaderMap(rawtext: string): map<string, string>
    requires HeaderOk(Split(rawtext, '\n')[0])
  {
    FirstLineToMap(Split(rawtext, '\n')[0])
  }

  /** The header names the table that was asked for. */
  predicate Matches(tableName: string, rawtext: string)
    requires HeaderOk(Split(rawtext, '\n')[0])
  {
    Get(HeaderMap(rawtext), "table") == tableName
  }

  /** The lines after the header. */
  function Body(rawtext: string): seq<string> {
    Split(rawtext, '\n')[1..]
  }

  predicate DumpOk(tableName: string, rawtext: string) {
    DumpLinesOk(tableName, Split(rawtext, '\n'))
  }

  /** `getTableMetricsFromAnswer`: the snapshot of `tableName` read from the
      answer to "show table <tableName>". It always carries the name asked
      for; an answer about another table gives the empty snapshot; otherwise
      the entry count is the header's `used`. */
  function TableMetricsFromAnswer(tableName: string, rawtext: string): (tm: TableMetrics)
    requires DumpOk(tableName, rawtext)
    ensures tm.name == tableName
    ensures !Matches(tableName, rawtext) ==> tm == Fresh(tableName)
    ensures Matches(tableName, rawtext) ==> tm.entries == NumOrZero(Get(HeaderMap(rawtext), "used"))
  {
    TableMetricsFromLines(tableName, Split(rawtext, '\n'))
  }

  /** `getTableMetricsFromAnswer` as a total function: None where the Go
      function panics, on an answer it cannot parse. */
  function ReadDump(tableName: string, rawtext: string): (r: Option<TableMetrics>)
    ensures r.Some? <==> DumpOk(tableName, rawtext)
    ensures r.Some? ==> r.value == TableMetricsFromAnswer(tableName, rawtext)
  {
    if DumpOk(tableName, rawtext) then Some(TableMetricsFromAnswer(tableName, rawtext)) else None
  }

  /** A header piece without ':' makes `firstLineToMap` index past the end
      of its split: the answer cannot be read, whatever follows the header. */
  lemma HeaderWithoutColon(tableName: string, header: string, rest: string, i: nat)
    requires '\n' !in header
    requires i < |Pieces(header)| && ':' !in Pieces(header)[i]
    ensures ReadDump(tableName, header + ['\n'] + rest) == None
  {
    SplitFirst(header, '\n', rest);
  }

  /** After a header naming the table asked for, a non-blank line without
      "key" makes `lineToMap` slice from index -1: the answer cannot be read. */
  lemma EntryWithoutKey(tableName: string, header: string, line: string, rest: string)
    requires '\n' !in header && '\n' !in line
    requires HeaderOk(header) && Get(FirstLineToMap(header), "table") == tableName
    requires !IsBlank(line) && forall j: nat :: !OccursAt(line, "key", j)
    ensures ReadDump(tableName, header + ['\n'] + line + ['\n'] + rest) == None
  {
    KeylessLineUnreadable(line);
    var lines := TwoLines(header, line, rest);
    SecondLineUnreadable(tableName, lines);
  }

  /** The first two lines of an answer that starts with two given lines. */
  lemma TwoLines(header: string, line: string, rest: string) returns (lines: seq<string>)
    requires '\n' !in header && '\n' !in line
    ensures lines == Split(header + ['\n'] + line + ['\n'] + rest, '\n')
    ensures |lines| >= 2 && lines[0] == header && lines[1] == line
  {
    assert header + ['\n'] + line + ['\n'] + rest == header + ['\n'] + (line + ['\n'] + rest);
    SplitFirst(header, '\n', line + ['\n'] + rest);
    SplitFirst(line, '\n', rest);
    lines := Split(header + ['\n'] + line + ['\n'] + rest, '\n');
  }

  lemma SecondLineUnreadable(tableName: string, lines: seq<string>)
    requires |lines| >= 2 && HeaderOk(lines[0]) && Get(FirstLineToMap(lines[0]), "table") == tableName
    requires !IsBlank(lines[1]) && !EntryLineOk(lines[1])
    ensures !DumpLinesOk(tableName, lines)
  {
    FirstLineUnreadable(lines[1..]);
  }

  lemma KeylessLineUnreadable(line: string)
    requires forall j: nat :: !OccursAt(line, "key", j)
    ensures !EntryLineOk(line)
  {
  }

  lemma FirstLineUnreadable(lines: seq<string>)
    requires |lines| >= 1 && !IsBlank(lines[0]) && !EntryLineOk(lines[0])
    ensures !EntriesOk(lines)
  {
    assert FirstBlank(lines) > 0;
  }

  /** An answer whose header can be read but names another table gives the
      empty snapshot, whatever the lines after the header hold. */
  lemma OtherTableBodyIgnored(tableName: string, header: string, rest: string)
    requires '\n' !in header
    requires HeaderOk(header) && Get(FirstLineToMap(header), "table") != tableName
    ensures ReadDump(tableName, header + ['\n'] + rest) == Some(Fresh(tableName))
  {
    SplitFirst(header, '\n', rest);
  }

  /** The i-th entry map is the map of the i-th line after the header. */
  lemma EntryMapsAt(lines: seq<string>, i: nat)
    requires EntriesOk(lines) && i < FirstBlank(lines)
    ensures EntryMaps(lines)[i] == LineToMap(lines[i])
  {
  }

  /** For the table asked for, a metric's samples are, in order, its samples
      in the entry lines' maps: the lines after the header up to the first
      blank one. */
  lemma DumpSamples(tableName: string, rawtext: string, metric: Metric)
    requires DumpOk(tableName, rawtext) && Matches(tableName, rawtext)
    ensures Samples(TableMetricsFromAnswer(tableName, rawtext), metric) == SampleSeq(EntryMaps(Body(rawtext)), metric)
  {
    var ms := EntryMaps(Body(rawtext));
    var tm := Fresh(tableName).(entries := NumOrZero(Get(HeaderMap(rawtext), "used")));
    AddEntriesSamples(tm, ms, metric);
    assert Samples(tm, metric) + SampleSeq(ms, metric) == SampleSeq(ms, metric);
  }

  /** The i-th sample of a metric is the number under its key on the i-th
      entry line, 0 when there is none. */
  lemma DumpSampleAt(tableName: string, rawtext: string, metric: Metric, i: nat)
    requires DumpOk(tableName, rawtext) && Matches(tableName, rawtext)
    requires i < FirstBlank(Body(rawtext))
    ensures |Samples(TableMetricsFromAnswer(tableName, rawtext), metric)| == FirstBlank(Body(rawtext))
    ensures Samples(TableMetricsFromAnswer(tableName, rawtext), metric)[i] ==
              NumOrZero(Get(LineToMap(Body(rawtext)[i]), Field(metric)))
  {
    DumpSamples(tableName, rawtext, metric);
    EntryMapsAt(Body(rawtext), i);
  }

  /** For the table asked for, a metric's window is the first non-empty one
      among the entry lines (see `FirstWindowSpec`), "" when there is none. */
  lemma DumpInterval(tableName: string, rawtext: string, metric: Metric)
    requires DumpOk(tableName, rawtext) && Matches(tableName, rawtext)
    ensures Interval(TableMetricsFromAnswer(tableName, rawtext), metric) == FirstWindow(EntryMaps(Body(rawtext)), metric)
  {
    var ms := EntryMaps(Body(rawtext));
    var tm := Fresh(tableName).(entries := NumOrZero(Get(HeaderMap(rawtext), "used")));
    AddEntriesInterval(tm, ms, metric);
  }

  /** The interval key of a metric's field is the metric's window key. */
  lemma IntervalFieldOfField(metric: Metric)
    ensures IntervalKey(Field(metric)) == IntervalField(metric)
  {
  }

  /** Different fields have different interval keys. */
  lemma IntervalKeyInjective(a: string, b: string)
    requires IntervalKey(a) == IntervalKey(b)
    ensures a == b
  {
    assert a == IntervalKey(a)[..|a|];
    assert b == IntervalKey(b)[..|b|];
  }

  /** No interval key is a metric's sample key. */
  lemma IntervalKeyNotField(f: string, metric: Metric)
    ensures IntervalKey(f) != Field(metric)
  {
    var k := IntervalKey(f);
    var g := Field(metric);
    if |k| == |g| {
      assert k[|k| - 8] == 'i';
      assert g[|g| - 8] != 'i';
    }
  }

  /** A token whose field is neither of a metric's keys writes neither. */
  lemma UnwatchedFieldWritesNothing(t: Token, metric: Metric)
    requires t.field != Field(metric) && t.field != IntervalField(metric)
    ensures !Writes(t, Field(metric)) && !Writes(t, IntervalField(metric))
  {
    if t.window.Some? {
      IntervalKeyNotField(t.field, metric);
      IntervalFieldOfField(metric);
      if IntervalKey(t.field) == IntervalField(metric) {
        IntervalKeyInjective(t.field, Field(metric));
      }
    }
  }

  /** Field independence: inserting a token whose field is neither of a
      metric's keys, anywhere on an entry line, changes neither its sample
      nor its window. */
  lemma UnwatchedTokenIgnored(pre: seq<Token>, t: Token, post: seq<Token>, metric: Metric)
    requires t.field != Field(metric) && t.field != IntervalField(metric)
    ensures Sample(Assign(TokensPairs(pre + [t] + post)), metric) == Sample(Assign(TokensPairs(pre + post)), metric)
    ensures Window(Assign(TokensPairs(pre + [t] + post)), metric) == Window(Assign(TokensPairs(pre + post)), metric)
  {
    UnwatchedFieldWritesNothing(t, metric);
    InsertedTokenIgnored(pre, t, post, Field(metric));
    InsertedTokenIgnored(pre, t, post, IntervalField(metric));
  }

  /** Field independence for order: swapping a token whose field is neither
      of a metric's keys with its neighbour changes neither its sample nor
      its window. */
  lemma UnwatchedTokenSwapped(pre: seq<Token>, t: Token, u: Token, post: seq<Token>, metric: Metric)
    requires t.field != Field(metric) && t.field != IntervalField(metric)
    ensures Sample(Assign(TokensPairs(pre + [t, u] + post)), metric) == Sample(Assign(TokensPairs(pre + [u, t] + post)), metric)
    ensures Window(Assign(TokensPairs(pre + [t, u] + post)), metric) == Window(Assign(TokensPairs(pre + [u, t] + post)), metric)
  {
    UnwatchedFieldWritesNothing(t, metric);
    SwappedTokensIgnored(pre, t, u, post, Field(metric));
    SwappedTokensIgnored(pre, t, u, post, IntervalField(metric));
  }

  /** The lines of an answer made of a header, one entry line and the final
      line break. */
  lemma OneEntryLines(header: string, line: string, rawtext: string)
    requires '\n' !in header && '\n' !in line
    requires rawtext == header + ['\n'] + line + ['\n']
    ensures Split(rawtext, '\n') == [header, line, ""]
  {
    var parts := [header, line, ""];
    assert Join(parts[1..], '\n') == line + ['\n'] + "";
    assert Join(parts, '\n') == rawtext;
    SplitJoin(parts, '\n');
  }

  /** One entry line followed by a blank one is read as one entry. */
  lemma OneEntryBody(lines: seq<string>)
    requires |lines| == 2 && EntryLineOk(lines[0]) && !IsBlank(lines[0]) && |lines[1]| == 0
    ensures FirstBlank(lines) == 1 && EntriesOk(lines)
    ensures EntryMaps(lines) == [LineToMap(lines[0])]
  {
    var rest := lines[1..];
    EmptyIsBlank(rest[0]);
    assert FirstBlank(rest) == 0;
  }

  lemma EmptyIsBlank(s: string)
    requires |s| == 0
    ensures IsBlank(s)
  {
    assert LeadingSpace(s) == |s|;
  }

  lemma AddOneEntry(tm: TableMetrics, m: map<string, string>)
    ensures AddEntries(tm, [m]) == AddEntry(tm, m)
  {
    assert [m][..0] == [];
  }

  /** Lines made of a header naming the table, one entry line and a blank
      line give that line's samples and windows and the header's entry count. */
  lemma OneEntryLinesOk(tableName: string, lines: seq<string>)
    requires |lines| == 3 && |lines[2]| == 0
    requires HeaderOk(lines[0]) && Get(FirstLineToMap(lines[0]), "table") == tableName
    requires EntryLineOk(lines[1]) && !IsBlank(lines[1])
    ensures DumpLinesOk(tableName, lines)
    ensures EntryMaps(lines[1..]) == [LineToMap(lines[1])]
  {
    var body := lines[1..];
    assert body[0] == lines[1] && body[1] == lines[2];
    OneEntryBody(body);
  }

  lemma OneEntryAdded(tableName: string, lines: seq<string>)
    requires DumpLinesOk(tableName, lines) && |lines| >= 2 && Get(FirstLineToMap(lines[0]), "table") == tableName
    requires EntryLineOk(lines[1])
    requires EntryMaps(lines[1..]) == [LineToMap(lines[1])]
    ensures TableMetricsFromLines(tableName, lines) ==
              AddEntry(Fresh(tableName).(entries := NumOrZero(Get(FirstLineToMap(lines[0]), "used"))), LineToMap(lines[1]))
  {
    var m := LineToMap(lines[1]);
    var tm := Fresh(tableName).(entries := NumOrZero(Get(FirstLineToMap(lines[0]), "used")));
    AddOneEntry(tm, m);
  }

  /** Lines made of a header naming the table, one entry line and a blank
      line give that line's samples and windows and the header's entry count. */
  lemma OneEntryFromLines(tableName: string, lines: seq<string>)
    requires |lines| == 3 && |lines[2]| == 0
    requires HeaderOk(lines[0]) && Get(FirstLineToMap(lines[0]), "table") == tableName
    requires EntryLineOk(lines[1]) && !IsBlank(lines[1])
    ensures DumpLinesOk(tableName, lines)
    ensures var m := LineToMap(lines[1]);
            TableMetricsFromLines(tableName, lines) ==
            TableMetrics(tableName, NumOrZero(Get(FirstLineToMap(lines[0]), "used")),
                         [Sample(m, TcpConnRate)], Window(m, TcpConnRate),
                         [Sample(m, HttpReqRate)], Window(m, HttpReqRate))
  {
    OneEntryLinesOk(tableName, lines);
    OneEntryAdded(tableName, lines);
    var m := LineToMap(lines[1]);
    var tm := Fresh(tableName).(entries := NumOrZero(Get(FirstLineToMap(lines[0]), "used")));
    AddEntryMetric(tm, m, TcpConnRate);
    AddEntryMetric(tm, m, HttpReqRate);
  }

  /** An answer about the table asked for, holding one entry line and the
      final line break, gives that line's samples and windows and the
      header's entry count. */
  lemma OneEntryDump(tableName: string, header: string, line: string, rawtext: string)
    requires '\n' !in header && '\n' !in line
    requires rawtext == header + ['\n'] + line + ['\n']
    requires HeaderOk(header) && Get(FirstLineToMap(header), "table") == tableName
    requires EntryLineOk(line) && !IsBlank(line)
    ensures DumpOk(tableName, rawtext) && Matches(tableName, rawtext)
    ensures var m := LineToMap(line);
            TableMetricsFromAnswer(tableName, rawtext) ==
            TableMetrics(tableName, NumOrZero(Get(FirstLineToMap(header), "used")),
                         [Sample(m, TcpConnRate)], Window(m, TcpConnRate),
                         [Sample(m, HttpReqRate)], Window(m, HttpReqRate))
  {
    OneEntryLines(header, line, rawtext);
    OneEntryFromLines(tableName, [header, line, ""]);
  }

  /** A line with a character other than white space is not blank. */
  lemma NotBlank(s: string, j: nat)
    requires j < |s| && !IsSpace(s[j])
    ensures !IsBlank(s)
  {
    var n := LeadingSpace(s);
    assert n <= j;
  }

  lemma ExampleNumbers(one: string, forty: string, nineteen: string)
    requires one == "1" && forty == "40" && nineteen == "19"
    ensures NumOrZero(one) == 1 && NumOrZero(forty) == 40 && NumOrZero(nineteen) == 19
  {
    TwoDigits(forty, 4, 0);
    TwoDigits(nineteen, 1, 9);
    OneDigit(one, 1);
  }

  lemma OneDigit(s: string, a: nat)
    requires a < 10 && s == [DigitChar(a)]
    ensures NumOrZero(s) == a
  {
    assert IsDecimal(s);
    assert s[..0] == [];
    assert DecimalValue(s) == 10 * DecimalValue(s[..0]) + DigitValue(s[0]);
  }

  lemma TwoDigits(s: string, a: nat, b: nat)
    requires a < 10 && b < 10 && s == [DigitChar(a), DigitChar(b)]
    ensures NumOrZero(s) == 10 * a + b
  {
    assert IsDecimal(s);
    OneDigit(s[..1], a);
    assert DecimalValue(s) == 10 * DecimalValue(s[..1]) + DigitValue(s[1]);
  }

  /** The documented answer to "show table fe_http", a header, one entry line
      and the final line break, gives one entry with conn_rate 40 over a
      3000 ms window and http_req_rate 19 over a 10000 ms window. */
  lemma DumpExample(fields: seq<HeaderField>, addr: string, header: string, line: string, rawtext: string)
    requires fields == ExampleFields() && header == RenderHeader(fields)
    requires addr == "0x564104c72d60:"
    requires line == addr + [' '] + Join(RenderTokens(ExampleTokens()), ' ')
    requires rawtext == header + ['\n'] + line + ['\n']
    ensures DumpOk("fe_http", rawtext)
    ensures TableMetricsFromAnswer("fe_http", rawtext) == TableMetrics("fe_http", 1, [40], "3000", [19], "10000")
  {
    HeaderExample(fields, header);
    ExampleHeaderUnbroken(fields, header);
    EntryExample(addr, line);
    ExampleLineUnbroken(addr, line);
    ExampleLineNotBlank(addr, line);
    ExampleDumpFrom(header, line, rawtext);
  }

  lemma ExampleLineNotBlank(addr: string, line: string)
    requires addr == "0x564104c72d60:"
    requires line == addr + [' '] + Join(RenderTokens(ExampleTokens()), ' ')
    ensures !IsBlank(line)
  {
    assert line[0] == '0';
    NotBlank(line, 0);
  }

  lemma ExampleDumpFrom(header: string, line: string, rawtext: string)
    requires '\n' !in header && '\n' !in line
    requires rawtext == header + ['\n'] + line + ['\n']
    requires HeaderOk(header)
    requires Get(FirstLineToMap(header), "table") == "fe_http" && Get(FirstLineToMap(header), "used") == "1"
    requires EntryLineOk(line) && !IsBlank(line)
    requires Get(LineToMap(line), "conn_rate") == "40" && Get(LineToMap(line), "conn_rate_interval") == "3000"
    requires Get(LineToMap(line), "http_req_rate") == "19" && Get(LineToMap(line), "http_req_rate_interval") == "10000"
    ensures DumpOk("fe_http", rawtext)
    ensures TableMetricsFromAnswer("fe_http", rawtext) == TableMetrics("fe_http", 1, [40], "3000", [19], "10000")
  {
    OneEntryDump("fe_http", header, line, rawtext);
    ExampleNumbers("1", "40", "19");
  }
}
