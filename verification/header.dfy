/** The first line of a "show table <name>" answer, e.g.
    `# table: fe_http, type: ip, size:1048576, used:1`, and the exporter's
    `firstLineToMap`: drop everything up to the first '#', split the rest on
    commas, and read every piece as a key, a ':' and a value, both trimmed of
    white space. */
module Header {
  import opened Wrappers
  import opened Text
  import opened GoMap

  /** The text after the first '#', or the whole line when there is none
      (`strings.Index` gives -1 there, and the slice starts at -1 + 1 = 0). */
  function HeaderBody(line: string): (body: string)
    ensures '#' !in line ==> body == line
    ensures '#' in line ==> |body| < |line| && line[|line| - |body| - 1] == '#'
                            && line[|line| - |body|..] == body
                            && '#' !in line[..|line| - |body| - 1]
  {
    match IndexOf(line, '#')
    case None => line
    case Some(i) =>
      assert line[..|line| - |line[i + 1..]| - 1] == line[..i];
      line[i + 1..]
  }

  /** The comma-separated pieces of the header. */
  function Pieces(line: string): seq<string> {
    Split(HeaderBody(line), ',')
  }

  /** `firstLineToMap` panics on a piece without ':'. */
  predicate HeaderOk(line: string) {
    forall i :: 0 <= i < |Pieces(line)| ==> ':' in Pieces(line)[i]
  }

  /** One piece read as a key and a value: the text before the first ':' and
      the text between it and the next ':' (or the end), both trimmed. */
  function ParsePiece(piece: string): (p: Pair)
    requires ':' in piece
    ensures Trimmed(p.0) && Trimmed(p.1)
    ensures ':' !in p.0 && ':' !in p.1
  {
    var parts := Split(piece, ':');
    SplitFirstTwo(piece, ':');
    TrimSpaceWithin(parts[0], ':');
    TrimSpaceWithin(parts[1], ':');
    (TrimSpace(parts[0]), TrimSpace(parts[1]))
  }

  /** A character absent from a piece is absent from its key and its value. */
  lemma ParsePieceWithin(piece: string, c: char)
    requires ':' in piece && c !in piece
    ensures c !in ParsePiece(piece).0 && c !in ParsePiece(piece).1
  {
    var parts := Split(piece, ':');
    SplitPartsWithin(piece, ':', c);
    SplitFirstTwo(piece, ':');
    TrimSpaceWithin(parts[0], c);
    TrimSpaceWithin(parts[1], c);
  }

  /** The assignments `firstLineToMap` makes, one per piece, in order. */
  function PiecesPairs(pieces: seq<string>): seq<Pair>
    requires forall i :: 0 <= i < |pieces| ==> ':' in pieces[i]
  {
    seq(|pieces|, i requires 0 <= i < |pieces| => ParsePiece(pieces[i]))
  }

  /** `firstLineToMap`: the map a header line describes. Keys and values are
      trimmed and hold neither ':' nor ','. */
  function FirstLineToMap(line: string): (m: map<string, string>)
    requires HeaderOk(line)
    ensures forall k :: k in m ==> Trimmed(k) && ':' !in k && ',' !in k
    ensures forall k :: k in m ==> Trimmed(m[k]) && ':' !in m[k] && ',' !in m[k]
  {
    var pieces := Pieces(line);
    PiecesWithoutComma(pieces);
    Assign(PiecesPairs(pieces))
  }

  lemma PiecesWithoutComma(pieces: seq<string>)
    requires forall i :: 0 <= i < |pieces| ==> ':' in pieces[i] && ',' !in pieces[i]
    ensures forall j :: 0 <= j < |PiecesPairs(pieces)| ==>
              Trimmed(PiecesPairs(pieces)[j].0) && ':' !in PiecesPairs(pieces)[j].0 && ',' !in PiecesPairs(pieces)[j].0
              && Trimmed(PiecesPairs(pieces)[j].1) && ':' !in PiecesPairs(pieces)[j].1 && ',' !in PiecesPairs(pieces)[j].1
  {
    forall j | 0 <= j < |pieces| ensures ',' !in ParsePiece(pieces[j]).0 && ',' !in ParsePiece(pieces[j]).1 {
      ParsePieceWithin(pieces[j], ',');
    }
  }

  /** One field of a header as HAProxy writes it: a space, the key, ':', some
      white space (none, or one space) and the value. */
  datatype HeaderField = HeaderField(key: string, gap: string, value: string)

  function RenderPiece(f: HeaderField): string {
    [' '] + f.key + [':'] + f.gap + f.value
  }

  /** A header line: '#' and the rendered fields separated by commas. */
  function RenderHeader(fields: seq<HeaderField>): string {
    ['#'] + Join(seq(|fields|, i requires 0 <= i < |fields| => RenderPiece(fields[i])), ',')
  }

  /** A field whose key and value are trimmed and free of the header's
      separators, with only white space between ':' and the value. */
  predicate CleanField(f: HeaderField) {
    && Trimmed(f.key) && ':' !in f.key && ',' !in f.key
    && Trimmed(f.value) && ':' !in f.value && ',' !in f.value
    && AllSpace(f.gap) && ':' !in f.gap && ',' !in f.gap
  }

  /** The key/value assignments a run of fields describes. */
  function FieldPairs(fields: seq<HeaderField>): seq<Pair> {
    seq(|fields|, i requires 0 <= i < |fields| => (fields[i].key, fields[i].value))
  }

  /** Round trip for one piece: the padding around key and value is trimmed
      away and the key and the value come back. */
  lemma ParseRenderPiece(f: HeaderField)
    requires CleanField(f)
    ensures ':' in RenderPiece(f) && ',' !in RenderPiece(f)
    ensures ParsePiece(RenderPiece(f)) == (f.key, f.value)
  {
    RenderedPieceSplits(f);
    assert AllSpace([' ']) && AllSpace([]);
    TrimPadded([' '], f.key, []);
    assert [' '] + f.key + [] == [' '] + f.key;
    TrimPadded(f.gap, f.value, []);
    assert f.gap + f.value + [] == f.gap + f.value;
  }

  /** How `firstLineToMap` reads a piece: the key is the text before the ':'
      and the value the text after it, each stripped of the white space
      around it, whatever that padding is. */
  lemma ParsePaddedPiece(a: string, key: string, b: string, c: string, value: string, d: string)
    requires AllSpace(a) && AllSpace(b) && AllSpace(c) && AllSpace(d)
    requires Trimmed(key) && ':' !in key && Trimmed(value) && ':' !in value
    ensures ':' in a + key + b + [':'] + c + value + d
    ensures ParsePiece(a + key + b + [':'] + c + value + d) == (key, value)
  {
    var left := a + key + b;
    var right := c + value + d;
    var piece := a + key + b + [':'] + c + value + d;
    assert piece == left + [':'] + right;
    assert piece[|left|] == ':';
    SpaceWithout(a, ':');
    SpaceWithout(b, ':');
    SpaceWithout(c, ':');
    SpaceWithout(d, ':');
    assert ':' !in left && ':' !in right;
    SplitFirst(left, ':', right);
    assert Split(right, ':') == [right];
    TrimPadded(a, key, b);
    TrimPadded(c, value, d);
  }

  /** A rendered clean piece splits on ':' into the padded key and the padded value. */
  lemma RenderedPieceSplits(f: HeaderField)
    requires CleanField(f)
    ensures ':' in RenderPiece(f) && ',' !in RenderPiece(f)
    ensures Split(RenderPiece(f), ':') == [[' '] + f.key, f.gap + f.value]
  {
    var left := [' '] + f.key;
    var right := f.gap + f.value;
    assert RenderPiece(f) == left + [':'] + right;
    assert ':' !in left && ':' !in right;
    SplitJoin([left, right], ':');
  }

  /** Round trip for a whole header line: the rendered line of clean fields
      is read as the assignments of those fields, in order. */
  lemma HeaderRoundTrip(fields: seq<HeaderField>)
    requires |fields| >= 1
    requires forall i :: 0 <= i < |fields| ==> CleanField(fields[i])
    ensures HeaderOk(RenderHeader(fields))
    ensures FirstLineToMap(RenderHeader(fields)) == Assign(FieldPairs(fields))
  {
    var pieces := seq(|fields|, i requires 0 <= i < |fields| => RenderPiece(fields[i]));
    RenderedPieces(fields, pieces);
    RenderedHeaderPieces(fields, pieces);
  }

  /** Rendered clean fields read back as their key/value pairs. */
  lemma RenderedPieces(fields: seq<HeaderField>, pieces: seq<string>)
    requires forall i :: 0 <= i < |fields| ==> CleanField(fields[i])
    requires pieces == seq(|fields|, i requires 0 <= i < |fields| => RenderPiece(fields[i]))
    ensures forall i :: 0 <= i < |pieces| ==> ':' in pieces[i] && ',' !in pieces[i]
    ensures PiecesPairs(pieces) == FieldPairs(fields)
  {
    forall i | 0 <= i < |fields| ensures ':' in pieces[i] && ',' !in pieces[i]
      && PiecesPairs(pieces)[i] == FieldPairs(fields)[i] {
      ParseRenderPiece(fields[i]);
    }
  }

  /** The pieces of a rendered header are the rendered fields. */
  lemma RenderedHeaderPieces(fields: seq<HeaderField>, pieces: seq<string>)
    requires |fields| >= 1
    requires pieces == seq(|fields|, i requires 0 <= i < |fields| => RenderPiece(fields[i]))
    requires forall i :: 0 <= i < |pieces| ==> ':' in pieces[i] && ',' !in pieces[i]
    ensures Pieces(RenderHeader(fields)) == pieces
  {
    var line := RenderHeader(fields);
    assert line == [] + ['#'] + Join(pieces, ',');
    IndexOfAfter([], '#', Join(pieces, ','));
    assert HeaderBody(line) == Join(pieces, ',');
    SplitJoin(pieces, ',');
  }

  /** In a rendered header of clean fields, a key holds the value of the last
      field that names it. */
  lemma HeaderFieldValue(fields: seq<HeaderField>, i: nat)
    requires i < |fields|
    requires forall j :: 0 <= j < |fields| ==> CleanField(fields[j])
    requires forall j :: i < j < |fields| ==> fields[j].key != fields[i].key
    ensures HeaderOk(RenderHeader(fields))
    ensures Get(FirstLineToMap(RenderHeader(fields)), fields[i].key) == fields[i].value
  {
    HeaderRoundTrip(fields);
    LastFieldWins(fields, i);
  }

  lemma LastFieldWins(fields: seq<HeaderField>, i: nat)
    requires i < |fields|
    requires forall j :: i < j < |fields| ==> fields[j].key != fields[i].key
    ensures Get(Assign(FieldPairs(fields)), fields[i].key) == fields[i].value
  {
    var pairs := FieldPairs(fields);
    assert forall j :: 0 <= j < |fields| ==> pairs[j].0 == fields[j].key;
    AssignLastWins(pairs, i);
  }

  /** The fields of the header line documented above `firstLineToMap`:
      `# table: fe_http, type: ip, size:1048576, used:1`. */
  function ExampleFields(): seq<HeaderField> {
    [HeaderField("table", " ", "fe_http"), HeaderField("type", " ", "ip"),
     HeaderField("size", "", "1048576"), HeaderField("used", "", "1")]
  }

  lemma ExampleFieldsClean(fields: seq<HeaderField>)
    requires fields == ExampleFields()
    ensures forall j :: 0 <= j < |fields| ==> CleanField(fields[j])
  {
    ExampleNameFieldsClean(fields);
    ExampleCountFieldsClean(fields);
  }

  lemma ExampleNameFieldsClean(fields: seq<HeaderField>)
    requires fields == ExampleFields()
    ensures CleanField(fields[0]) && CleanField(fields[1])
  {
  }

  lemma ExampleCountFieldsClean(fields: seq<HeaderField>)
    requires fields == ExampleFields()
    ensures CleanField(fields[2]) && CleanField(fields[3])
  {
  }

  /** The documented header line names table `fe_http` with one entry in use. */
  lemma HeaderExample(fields: seq<HeaderField>, line: string)
    requires fields == ExampleFields()
    requires line == RenderHeader(fields)
    ensures HeaderOk(line)
    ensures Get(FirstLineToMap(line), "table") == "fe_http"
    ensures Get(FirstLineToMap(line), "used") == "1"
  {
    ExampleFieldsClean(fields);
    HeaderFieldValue(fields, 0);
    HeaderFieldValue(fields, 3);
  }

  /** A field none of whose parts holds `c`. */
  predicate FieldWithout(f: HeaderField, c: char) {
    c !in f.key && c !in f.gap && c !in f.value
  }

  /** A rendered header holds no character that its fields and its syntax lack;
      in particular no line break. */
  lemma RenderHeaderWithout(fields: seq<HeaderField>, c: char)
    requires c != '#' && c != ',' && c != ' ' && c != ':'
    requires forall j :: 0 <= j < |fields| ==> FieldWithout(fields[j], c)
    ensures c !in RenderHeader(fields)
  {
    var pieces := seq(|fields|, i requires 0 <= i < |fields| => RenderPiece(fields[i]));
    forall j | 0 <= j < |pieces| ensures c !in pieces[j] {
      assert pieces[j] == [' '] + fields[j].key + [':'] + fields[j].gap + fields[j].value;
    }
    JoinWithout(pieces, ',', c);
  }

  lemma ExampleFieldsUnbroken(fields: seq<HeaderField>)
    requires fields == ExampleFields()
    ensures forall j :: 0 <= j < |fields| ==> FieldWithout(fields[j], '\n')
  {
    assert FieldWithout(fields[0], '\n') && FieldWithout(fields[1], '\n');
    assert FieldWithout(fields[2], '\n') && FieldWithout(fields[3], '\n');
  }

  /** The documented header line is a single line. */
  lemma ExampleHeaderUnbroken(fields: seq<HeaderField>, line: string)
    requires fields == ExampleFields()
    requires line == RenderHeader(fields)
    ensures '\n' !in line
  {
    ExampleFieldsUnbroken(fields);
    RenderHeaderWithout(fields, '\n');
  }
}
