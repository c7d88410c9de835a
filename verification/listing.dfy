/** The answer to HAProxy's "show table" command: one line per stick-table,
    `# table: <name>, type: ..., size:..., used:...`. The exporter keeps, in
    answer order, the text between the `# table: ` marker and the first comma
    of every line that starts with the marker, and ignores every other line. */
module Listing {
  import opened Text

  const TablePrefix: string := "# table: "

  /** The line announces a table. */
  predicate IsTableLine(line: string) {
    TablePrefix <= line
  }

  /** The exporter slices a table line up to its first comma, and panics when
      there is none; any other line is skipped. */
  predicate LineOk(line: string) {
    IsTableLine(line) ==> ',' in line
  }

  predicate LinesOk(lines: seq<string>) {
    forall i :: 0 <= i < |lines| ==> LineOk(lines[i])
  }

  /** The answer as a whole can be parsed without a panic. */
  predicate ListingOk(rawtext: string) {
    LinesOk(Split(rawtext, '\n'))
  }

  /** The table name a table line announces: the marker, then the name, then
      the line's first comma. */
  function TableNameOf(line: string): (name: string)
    requires IsTableLine(line) && ',' in line
    ensures ',' !in name
    ensures |TablePrefix| + |name| < |line|
    ensures line[|TablePrefix|..|TablePrefix| + |name|] == name
    ensures line[|TablePrefix| + |name|] == ','
  {
    var comma := IndexOf(line, ',').value;
    assert line[..|TablePrefix|] == TablePrefix;
    assert ',' !in TablePrefix;
    assert comma >= |TablePrefix|;
    line[|TablePrefix|..comma]
  }

  /** The positions of the table lines, in increasing order. */
  function TableLines(lines: seq<string>): (idx: seq<nat>)
    ensures forall k :: 0 <= k < |idx| ==> idx[k] < |lines| && IsTableLine(lines[idx[k]])
  {
    if |lines| == 0 then []
    else
      var init := TableLines(lines[..|lines| - 1]);
      if IsTableLine(lines[|lines| - 1]) then init + [|lines| - 1] else init
  }

  /** `TableLines` lists every table line, each once, in increasing order. */
  lemma {:induction false} TableLinesSpec(lines: seq<string>)
    ensures forall k, l :: 0 <= k < l < |TableLines(lines)| ==> TableLines(lines)[k] < TableLines(lines)[l]
    ensures forall j :: 0 <= j < |lines| && IsTableLine(lines[j]) ==> j in TableLines(lines)
    decreases |lines|
  {
    if |lines| > 0 {
      var init := lines[..|lines| - 1];
      TableLinesSpec(init);
      assert forall j :: 0 <= j < |init| ==> init[j] == lines[j];
    }
  }

  /** The loop of `getTablesFromFromAnswer` over the answer's lines: exactly one
      name per table line, in line order. */
  function TablesFromLines(lines: seq<string>): (names: seq<string>)
    requires LinesOk(lines)
    ensures |names| <= |lines|
    ensures forall k :: 0 <= k < |names| ==> ',' !in names[k]
  {
    if |lines| == 0 then []
    else
      var last := lines[|lines| - 1];
      TablesFromLines(lines[..|lines| - 1]) + (if IsTableLine(last) then [TableNameOf(last)] else [])
  }

  /** Exactly one name per table line, in line order: the k-th name is the
      name on the k-th table line. */
  lemma {:induction false} TablesFromLinesSpec(lines: seq<string>)
    requires LinesOk(lines)
    ensures |TablesFromLines(lines)| == |TableLines(lines)|
    ensures forall k :: 0 <= k < |TableLines(lines)| ==>
              TablesFromLines(lines)[k] == TableNameOf(lines[TableLines(lines)[k]])
    decreases |lines|
  {
    if |lines| > 0 {
      var init := lines[..|lines| - 1];
      var last := lines[|lines| - 1];
      TablesFromLinesSpec(init);
      var idx := TableLines(init);
      var names := TablesFromLines(init);
      TablesFromLinesLast(lines);
      forall k | 0 <= k < |TableLines(lines)|
        ensures TablesFromLines(lines)[k] == TableNameOf(lines[TableLines(lines)[k]])
      {
        if k < |idx| {
          assert TableLines(lines)[k] == idx[k] && TablesFromLines(lines)[k] == names[k];
          assert lines[idx[k]] == init[idx[k]];
        }
      }
    }
  }

  /** One more line adds its position and its name when it is a table line,
      and nothing otherwise. */
  lemma TablesFromLinesLast(lines: seq<string>)
    requires LinesOk(lines) && |lines| > 0
    ensures var init := lines[..|lines| - 1];
            var last := lines[|lines| - 1];
            if IsTableLine(last) then
              TableLines(lines) == TableLines(init) + [|lines| - 1]
              && TablesFromLines(lines) == TablesFromLines(init) + [TableNameOf(last)]
            else
              TableLines(lines) == TableLines(init) && TablesFromLines(lines) == TablesFromLines(init)
  {
  }

  /** `getTablesFromFromAnswer`: the table names announced by a "show table" answer. */
  function TablesFromAnswer(rawtext: string): seq<string>
    requires ListingOk(rawtext)
  {
    TablesFromLines(Split(rawtext, '\n'))
  }

  /** Parsing a listing works line by line: the names of two runs of lines
      are the names of the first followed by those of the second. */
  lemma {:induction false} TablesFromLinesAppend(a: seq<string>, b: seq<string>)
    requires LinesOk(a) && LinesOk(b)
    ensures LinesOk(a + b)
    ensures TablesFromLines(a + b) == TablesFromLines(a) + TablesFromLines(b)
    decreases |b|
  {
    if |b| == 0 {
      assert a + b == a;
    } else {
      var b' := b[..|b| - 1];
      TablesFromLinesAppend(a, b');
      assert (a + b)[..|a + b| - 1] == a + b';
    }
  }

  /** A line that does not start with the marker (a blank line among them)
      contributes nothing, wherever it stands. */
  lemma OtherLineIgnored(a: seq<string>, line: string, b: seq<string>)
    requires LinesOk(a) && LinesOk(b) && !IsTableLine(line)
    ensures LinesOk(a + [line] + b)
    ensures TablesFromLines(a + [line] + b) == TablesFromLines(a + b)
  {
    TablesFromLinesAppend(a, [line]);
    TablesFromLinesAppend(a + [line], b);
    TablesFromLinesAppend(a, b);
    assert TablesFromLines([line]) == [] by {
      assert [line][..0] == [];
    }
  }

  /** One line of a "show table" answer: the marker, a name, a comma and the
      rest of the table's description. */
  function ListingLine(name: string, details: string): string {
    TablePrefix + name + "," + details
  }

  /** The name of a rendered listing line is the name it was rendered with. */
  lemma TableNameOfListingLine(name: string, details: string)
    requires ',' !in name
    ensures IsTableLine(ListingLine(name, details)) && ',' in ListingLine(name, details)
    ensures TableNameOf(ListingLine(name, details)) == name
  {
    var line := ListingLine(name, details);
    assert line == (TablePrefix + name) + [','] + details;
    assert line[..|TablePrefix|] == TablePrefix;
    assert ',' !in TablePrefix;
    IndexOfAfter(TablePrefix + name, ',', details);
    assert line[|TablePrefix|..|TablePrefix| + |name|] == name;
  }

  /** The lines of a listing of the given tables, each described by its name
      and the rest of its line. */
  function ListingLines(tables: seq<(string, string)>): (lines: seq<string>)
    ensures |lines| == |tables|
    ensures forall i :: 0 <= i < |tables| ==> lines[i] == ListingLine(tables[i].0, tables[i].1)
  {
    if |tables| == 0 then []
    else ListingLines(tables[..|tables| - 1]) + [ListingLine(tables[|tables| - 1].0, tables[|tables| - 1].1)]
  }

  function Names(tables: seq<(string, string)>): (names: seq<string>)
    ensures |names| == |tables|
    ensures forall i :: 0 <= i < |tables| ==> names[i] == tables[i].0
  {
    if |tables| == 0 then [] else Names(tables[..|tables| - 1]) + [tables[|tables| - 1].0]
  }

  /** Round trip: listing lines rendered from table names give those names back. */
  lemma {:induction false} ListingLinesRoundTrip(tables: seq<(string, string)>)
    requires forall i :: 0 <= i < |tables| ==> ',' !in tables[i].0
    ensures LinesOk(ListingLines(tables))
    ensures TablesFromLines(ListingLines(tables)) == Names(tables)
    decreases |tables|
  {
    var lines := ListingLines(tables);
    forall i | 0 <= i < |tables| ensures LineOk(lines[i]) {
      TableNameOfListingLine(tables[i].0, tables[i].1);
    }
    if |tables| > 0 {
      var n := |tables| - 1;
      ListingLinesRoundTrip(tables[..n]);
      TableNameOfListingLine(tables[n].0, tables[n].1);
      assert lines[..n] == ListingLines(tables[..n]);
      assert Names(tables) == Names(tables[..n]) + [tables[n].0];
    }
  }

  lemma ListingLineHasNoBreak(name: string, details: string)
    requires '\n' !in name && '\n' !in details
    ensures '\n' !in ListingLine(name, details)
  {
    assert '\n' !in TablePrefix;
  }

  /** An empty answer is one empty line, which is no table line. */
  lemma EmptyListing()
    ensures ListingOk("") && TablesFromAnswer("") == []
  {
  }

  /** Round trip on a whole answer: a "show table" answer made of rendered lines
      (details free of line breaks) names exactly the rendered tables, in order. */
  lemma ListingRoundTrip(tables: seq<(string, string)>)
    requires forall i :: 0 <= i < |tables| ==> ',' !in tables[i].0 && '\n' !in tables[i].0
    requires forall i :: 0 <= i < |tables| ==> '\n' !in tables[i].1
    ensures ListingOk(Join(ListingLines(tables), '\n'))
    ensures TablesFromAnswer(Join(ListingLines(tables), '\n')) == Names(tables)
  {
    if |tables| == 0 {
      EmptyListing();
    } else {
      ListedLinesSplit(tables);
      ListingLinesRoundTrip(tables);
    }
  }

  /** A non-empty listing splits back into its rendered lines. */
  lemma ListedLinesSplit(tables: seq<(string, string)>)
    requires |tables| >= 1
    requires forall i :: 0 <= i < |tables| ==> '\n' !in tables[i].0 && '\n' !in tables[i].1
    ensures Split(Join(ListingLines(tables), '\n'), '\n') == ListingLines(tables)
  {
    var lines := ListingLines(tables);
    forall i | 0 <= i < |lines| ensures '\n' !in lines[i] {
      ListingLineHasNoBreak(tables[i].0, tables[i].1);
    }
    SplitJoin(lines, '\n');
  }

  /** The two table lines of the listing documented above
      `getTablesFromFromAnswer` give `monitoring` and then `fe_https`. */
  lemma ExampleTableLines(l1: string, l2: string)
    requires l1 == ListingLine("monitoring", " type: ip, size:32, used:0")
    requires l2 == ListingLine("fe_https", " type: ip, size:1048576, used:0")
    ensures LinesOk([l1, l2])
    ensures TablesFromLines([l1, l2]) == ["monitoring", "fe_https"]
  {
    TableNameOfListingLine("monitoring", " type: ip, size:32, used:0");
    TableNameOfListingLine("fe_https", " type: ip, size:1048576, used:0");
    assert [l1, l2][..1] == [l1];
    assert [l1][..0] == [];
  }

  /** Blank lines between and after table lines change nothing (a blank line
      anywhere else is covered by `OtherLineIgnored`). */
  lemma BlankLinesIgnored(l1: string, l2: string)
    requires LinesOk([l1, l2])
    ensures LinesOk([l1, "", l2, ""])
    ensures TablesFromLines([l1, "", l2, ""]) == TablesFromLines([l1, l2])
  {
    assert !IsTableLine("");
    OtherLineIgnored([l1, l2], "", []);
    OtherLineIgnored([l1], "", [l2, ""]);
    assert [l1] + [""] + [l2, ""] == [l1, "", l2, ""];
    assert [l1] + [l2, ""] == [l1, l2] + [""] + [];
    assert [l1, l2] + [] == [l1, l2];
  }

  /** The listing documented above `getTablesFromFromAnswer`, with a blank
      line between the two table lines and the empty text after the final
      line break, names `monitoring` and then `fe_https`. */
  lemma ListingExample(l1: string, l2: string, rawtext: string)
    requires l1 == ListingLine("monitoring", " type: ip, size:32, used:0")
    requires l2 == ListingLine("fe_https", " type: ip, size:1048576, used:0")
    requires rawtext == Join([l1, "", l2, ""], '\n')
    ensures ListingOk(rawtext)
    ensures TablesFromAnswer(rawtext) == ["monitoring", "fe_https"]
  {
    ExampleTableLines(l1, l2);
    ExampleLinesUnbroken(l1, l2);
    BlankLinesIgnored(l1, l2);
    SplitJoin([l1, "", l2, ""], '\n');
  }

  lemma ExampleLinesUnbroken(l1: string, l2: string)
    requires l1 == ListingLine("monitoring", " type: ip, size:32, used:0")
    requires l2 == ListingLine("fe_https", " type: ip, size:1048576, used:0")
    ensures forall i :: 0 <= i < 4 ==> '\n' !in [l1, "", l2, ""][i]
  {
    ListingLineHasNoBreak("monitoring", " type: ip, size:32, used:0");
    ListingLineHasNoBreak("fe_https", " type: ip, size:1048576, used:0");
  }
}
