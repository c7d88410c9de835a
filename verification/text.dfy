/** The few Go `strings` primitives the exporter's parsers are built from:
    `strings.Index` (for one character and for a substring), `strings.Split`
    on a one-character separator, `strings.HasPrefix` (Dafny's sequence
    prefix `<=`) and `strings.TrimSpace`. Each is characterised by what it
    finds rather than by how it scans; `Join` is the renderer that `Split`
    inverts. */
module Text {
  import opened Wrappers

  /** Go's `unicode.IsSpace`, the predicate `strings.TrimSpace` trims by. */
  predicate IsSpace(c: char) {
    || c == ' ' || c == '\t' || c == '\n' || c == '\U{000B}' || c == '\U{000C}' || c == '\r'
    || c == '\U{0085}' || c == '\U{00A0}' || c == '\U{1680}'
    || ('\U{2000}' <= c <= '\U{200A}')
    || c == '\U{2028}' || c == '\U{2029}' || c == '\U{202F}' || c == '\U{205F}' || c == '\U{3000}'
  }

  predicate AllSpace(s: string) {
    forall i :: 0 <= i < |s| ==> IsSpace(s[i])
  }

  /** Neither end of `s` is white space (the empty string counts as trimmed). */
  predicate Trimmed(s: string) {
    |s| == 0 || (!IsSpace(s[0]) && !IsSpace(s[|s| - 1]))
  }

  /** `strings.Index(s, string(c))`: the first position of `c`, None for Go's -1. */
  function IndexOf(s: string, c: char): (r: Option<nat>)
    ensures r.None? <==> c !in s
    ensures r.Some? ==> r.value < |s| && s[r.value] == c && c !in s[..r.value]
  {
    if |s| == 0 then None
    else if s[0] == c then Some(0)
    else
      match IndexOf(s[1..], c)
      case None => None
      case Some(i) =>
        assert s[..i + 1] == [s[0]] + s[1..][..i];
        Some(i + 1)
  }

  /** `sub` occurs in `s` starting at position `i`. */
  predicate OccursAt(s: string, sub: string, i: nat) {
    i <= |s| && sub <= s[i..]
  }

  /** The first position at or after `from` where `sub` occurs in `s`. */
  function IndexOfSubFrom(s: string, sub: string, from: nat): (r: Option<nat>)
    ensures r.Some? ==> from <= r.value && OccursAt(s, sub, r.value)
    ensures r.Some? ==> forall j: nat :: from <= j < r.value ==> !OccursAt(s, sub, j)
    ensures r.None? ==> forall j: nat :: from <= j ==> !OccursAt(s, sub, j)
    decreases |s| + 1 - from
  {
    if from > |s| then None
    else if OccursAt(s, sub, from) then Some(from)
    else IndexOfSubFrom(s, sub, from + 1)
  }

  /** `strings.Index(s, sub)`: the first position where `sub` occurs, None for Go's -1. */
  function IndexOfSub(s: string, sub: string): (r: Option<nat>)
    ensures r.Some? ==> OccursAt(s, sub, r.value)
    ensures r.Some? ==> forall j: nat :: j < r.value ==> !OccursAt(s, sub, j)
    ensures r.None? ==> forall j: nat :: !OccursAt(s, sub, j)
  {
    IndexOfSubFrom(s, sub, 0)
  }

  /** Go's `strings.Join(parts, string(sep))`: the pieces with `sep` between neighbours. */
  function Join(parts: seq<string>, sep: char): string {
    if |parts| == 0 then ""
    else if |parts| == 1 then parts[0]
    else parts[0] + [sep] + Join(parts[1..], sep)
  }

  /** Go's `strings.Split(s, string(sep))`: the pieces between the occurrences of
      `sep`. There is always at least one piece, no piece contains `sep`, and
      joining the pieces back with `sep` gives `s` again. */
  function Split(s: string, sep: char): (parts: seq<string>)
    ensures |parts| >= 1
    ensures |parts| == 1 <==> sep !in s
    ensures forall i :: 0 <= i < |parts| ==> sep !in parts[i]
    ensures Join(parts, sep) == s
    decreases |s|
  {
    match IndexOf(s, sep)
    case None => [s]
    case Some(i) =>
      var rest := Split(s[i + 1..], sep);
      assert ([s[..i]] + rest)[1..] == rest;
      assert s == s[..i] + [sep] + s[i + 1..];
      [s[..i]] + rest
  }

  /** Inside `a + [c] + b`, when `a` has no `c`, the first `c` is the one after `a`. */
  lemma IndexOfAfter(a: string, c: char, b: string)
    requires c !in a
    ensures IndexOf(a + [c] + b, c) == Some(|a|)
  {
    var s := a + [c] + b;
    assert s[|a|] == c;
    assert s[..|a|] == a;
    assert forall k :: |a| < k <= |s| ==> s[..k][|a|] == c;
  }

  /** Splitting inverts joining: pieces free of the separator come back unchanged. */
  lemma {:induction false} SplitJoin(parts: seq<string>, sep: char)
    requires |parts| >= 1
    requires forall i :: 0 <= i < |parts| ==> sep !in parts[i]
    ensures Split(Join(parts, sep), sep) == parts
    decreases |parts|
  {
    if |parts| == 1 {
      assert Join(parts, sep) == parts[0];
    } else {
      var tail := Join(parts[1..], sep);
      var s := parts[0] + [sep] + tail;
      assert Join(parts, sep) == s;
      IndexOfAfter(parts[0], sep, tail);
      assert s[..|parts[0]|] == parts[0];
      assert s[|parts[0]| + 1..] == tail;
      assert Split(s, sep) == [parts[0]] + Split(tail, sep);
      SplitJoin(parts[1..], sep);
      assert parts == [parts[0]] + parts[1..];
    }
  }

  /** Text up to the first separator is the first piece; the rest splits on its own. */
  lemma SplitFirst(a: string, sep: char, b: string)
    requires sep !in a
    ensures Split(a + [sep] + b, sep) == [a] + Split(b, sep)
  {
    var s := a + [sep] + b;
    IndexOfAfter(a, sep, b);
    assert s[..|a|] == a;
    assert s[|a| + 1..] == b;
  }

  /** Every character of a piece occurs in the joined text. */
  lemma {:induction false} JoinContainsParts(parts: seq<string>, sep: char, c: char)
    requires c !in Join(parts, sep)
    ensures forall i :: 0 <= i < |parts| ==> c !in parts[i]
    decreases |parts|
  {
    if |parts| > 1 {
      JoinContainsParts(parts[1..], sep, c);
      assert forall i :: 1 <= i < |parts| ==> parts[i] == parts[1..][i - 1];
    }
  }

  /** A character absent from `s` is absent from every piece of `s`. */
  lemma SplitPartsWithin(s: string, sep: char, c: char)
    requires c !in s
    ensures forall i :: 0 <= i < |Split(s, sep)| ==> c !in Split(s, sep)[i]
  {
    JoinContainsParts(Split(s, sep), sep, c);
  }

  /** The first two pieces of a text holding `sep`: `s` starts with the first
      piece, `sep` and the second piece, followed by the end of `s` or by
      another `sep`. */
  lemma SplitFirstTwo(s: string, sep: char)
    requires sep in s
    ensures |Split(s, sep)| >= 2
    ensures Split(s, sep)[0] + [sep] + Split(s, sep)[1] <= s
    ensures var n := |Split(s, sep)[0]| + 1 + |Split(s, sep)[1]|;
            n == |s| || s[n] == sep
  {
    var parts := Split(s, sep);
    var rest := Join(parts[1..], sep);
    assert s == parts[0] + [sep] + rest;
    var tail := parts[1..];
    if |tail| == 1 {
      assert rest == parts[1];
    } else {
      assert rest == parts[1] + [sep] + Join(tail[1..], sep);
    }
  }

  /** White space holds no character that is not white space. */
  lemma SpaceWithout(s: string, c: char)
    requires AllSpace(s) && !IsSpace(c)
    ensures c !in s
  {
  }

  /** The number of white-space characters `s` starts with. */
  function LeadingSpace(s: string): (n: nat)
    ensures n <= |s|
    ensures forall i :: 0 <= i < n ==> IsSpace(s[i])
    ensures n < |s| ==> !IsSpace(s[n])
  {
    if |s| == 0 || !IsSpace(s[0]) then 0 else LeadingSpace(s[1..]) + 1
  }

  /** The number of white-space characters `s` ends with. */
  function TrailingSpace(s: string): (n: nat)
    ensures n <= |s|
    ensures forall i :: |s| - n <= i < |s| ==> IsSpace(s[i])
    ensures n < |s| ==> !IsSpace(s[|s| - n - 1])
  {
    if |s| == 0 || !IsSpace(s[|s| - 1]) then 0 else TrailingSpace(s[..|s| - 1]) + 1
  }

  /** Go's `strings.TrimSpace`: `s` without its leading and trailing white space.
      The result is trimmed, and `s` is the result padded on both sides with
      white space only. */
  function TrimSpace(s: string): (r: string)
    ensures Trimmed(r)
    ensures exists i: nat :: i + |r| <= |s| && s[i..i + |r|] == r
                             && AllSpace(s[..i]) && AllSpace(s[i + |r|..])
  {
    var n := LeadingSpace(s);
    if n == |s| then
      assert s[..0] == "";
      ""
    else
      var m := TrailingSpace(s);
      assert !IsSpace(s[n]) && n < |s| - m;
      var r := s[n..|s| - m];
      assert r[0] == s[n] && r[|r| - 1] == s[|s| - m - 1];
      assert AllSpace(s[..n]);
      assert s[n + |r|..] == s[|s| - m..] && AllSpace(s[|s| - m..]);
      r
  }

  /** Trimming undoes white-space padding: the partner of `TrimSpace`'s contract,
      showing that the trimmed core is unique. */
  lemma TrimPadded(a: string, t: string, b: string)
    requires AllSpace(a) && AllSpace(b) && Trimmed(t)
    ensures TrimSpace(a + t + b) == t
  {
    var s := a + t + b;
    if |t| == 0 {
      assert LeadingSpace(s) == |s| by {
        assert forall k :: |a| <= k < |s| ==> s[k] == b[k - |a|];
      }
    } else {
      PaddedLeading(a, t, b);
      PaddedTrailing(a, t, b);
      assert s[|a|..|s| - |b|] == t;
    }
  }

  lemma PaddedLeading(a: string, t: string, b: string)
    requires AllSpace(a) && |t| > 0 && !IsSpace(t[0])
    ensures LeadingSpace(a + t + b) == |a|
  {
    var s := a + t + b;
    assert s[|a|] == t[0];
    assert forall k :: 0 <= k < |a| ==> s[k] == a[k];
  }

  lemma PaddedTrailing(a: string, t: string, b: string)
    requires AllSpace(b) && |t| > 0 && !IsSpace(t[|t| - 1])
    ensures TrailingSpace(a + t + b) == |b|
  {
    var s := a + t + b;
    assert s[|a| + |t| - 1] == t[|t| - 1];
    assert forall k :: |a| + |t| <= k < |s| ==> s[k] == b[k - |a| - |t|];
  }

  /** A character absent from `s` is absent from its trimmed form. */
  lemma TrimSpaceWithin(s: string, c: char)
    requires c !in s
    ensures c !in TrimSpace(s)
  {
    var n := LeadingSpace(s);
    if n < |s| {
      var r := s[n..|s| - TrailingSpace(s)];
      assert TrimSpace(s) == r;
      forall j | 0 <= j < |r| ensures r[j] != c {
        assert r[j] == s[n + j];
      }
    }
  }

  /** A character that is not the separator and is in no piece is not in the joined text. */
  lemma {:induction false} JoinWithout(parts: seq<string>, sep: char, c: char)
    requires c != sep
    requires forall i :: 0 <= i < |parts| ==> c !in parts[i]
    ensures c !in Join(parts, sep)
    decreases |parts|
  {
    if |parts| > 1 {
      assert forall i :: 0 <= i < |parts| - 1 ==> parts[1..][i] == parts[i + 1];
      JoinWithout(parts[1..], sep, c);
      assert Join(parts, sep) == parts[0] + [sep] + Join(parts[1..], sep);
    }
  }

  lemma AppendAssoc<T>(x: seq<T>, y: seq<T>, z: seq<T>)
    ensures x + y + z == x + (y + z)
  {
  }
}
