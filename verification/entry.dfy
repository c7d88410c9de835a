/** One entry line of a "show table <name>" answer, e.g.
    `0x564104c72d60: key=192.168.128.1 use=0 conn_rate(3000)=40 ...`, and the
    exporter's `lineToMap`: drop everything before the first "key", split the
    rest on single spaces, and turn every token into one or two map
    assignments. A token `f=v` assigns `m[f] = v`; a token `f(w)=v` assigns
    `m[f_interval] = w` and then `m[f] = v`. */
module EntryLine {
  import opened Wrappers
  import opened Text
  import opened GoMap

  /** A token: a field name, an optional window written in parentheses, and a value. */
  datatype Token = Token(field: string, window: Option<string>, value: string)

  /** The key under which a windowed field's window is stored. */
  function IntervalKey(field: string): string {
    field + "_interval"
  }

  /** The text of a token before its first '='. */
  function KeyHead(tok: string): string {
    Split(tok, '=')[0]
  }

  /** The head of a token can be read: a '(' in it is followed by the
      head's first ')'. */
  predicate HeadOk(head: string) {
    match IndexOf(head, '(')
    case None => true
    case Some(open) =>
      match IndexOf(head, ')')
      case None => false
      case Some(close) => open < close
  }

  /** `lineToMap` panics on a token without '=' (an empty token from a double
      or trailing space among them), and on a '(' in the head that the head's
      first ')' does not follow (there is no ')', or the first one comes
      before the '('). */
  predicate TokenOk(tok: string) {
    '=' in tok && HeadOk(KeyHead(tok))
  }

  /** The value of a token: the text between its first and its second '='
      (or the end). */
  function TokenValue(tok: string): (v: string)
    requires '=' in tok
    ensures '=' !in v
    ensures KeyHead(tok) + ['='] + v <= tok
    ensures var n := |KeyHead(tok)| + 1 + |v|; n == |tok| || tok[n] == '='
  {
    SplitFirstTwo(tok, '=');
    Split(tok, '=')[1]
  }

  /** The field and the window of a head: the whole head when it has no '(',
      otherwise the text before the first '(' and the text between it and the
      first ')'. */
  function ParseHead(head: string): (fw: (string, Option<string>))
    requires HeadOk(head)
    ensures fw.1.None? ==> fw.0 == head && '(' !in head
    ensures fw.1.Some? ==> '(' !in fw.0 && ')' !in fw.1.value
                           && fw.0 + ['('] + fw.1.value + [')'] <= head
  {
    match IndexOf(head, '(')
    case None => (head, None)
    case Some(open) =>
      var close := IndexOf(head, ')').value;
      var field := head[..open];
      var window := head[open + 1..close];
      assert ')' !in head[..close];
      assert head[..close] == field + ['('] + window;
      assert head[..close + 1] == field + ['('] + window + [')'];
      (field, Some(window))
  }

  /** How `lineToMap` reads one token: the value is the text between the first
      and the second '=' (or the end); the head before the first '=' is either
      the bare field name, or the field name, '(', the window and the first ')'. */
  function ParseToken(tok: string): (t: Token)
    requires TokenOk(tok)
    ensures '=' !in t.value && '=' !in t.field
    ensures t.value == TokenValue(tok)
    ensures t.window.None? ==> t.field == KeyHead(tok) && '(' !in t.field
    ensures t.window.Some? ==> '(' !in t.field && ')' !in t.window.value
                               && t.field + ['('] + t.window.value + [')'] <= KeyHead(tok)
  {
    var head := KeyHead(tok);
    var value := TokenValue(tok);
    ParseHeadWithin(head, '=');
    var fw := ParseHead(head);
    Token(fw.0, fw.1, value)
  }

  /** The text of a token, as HAProxy writes it. */
  function RenderToken(t: Token): string {
    match t.window
    case None => t.field + ['='] + t.value
    case Some(w) => t.field + ['('] + w + [')'] + ['='] + t.value
  }

  /** A token whose parts hold none of the characters the line syntax uses. */
  predicate CleanToken(t: Token) {
    && '=' !in t.field && '(' !in t.field && ')' !in t.field && ' ' !in t.field
    && '=' !in t.value && ' ' !in t.value
    && (t.window.Some? ==> '=' !in t.window.value && ')' !in t.window.value && ' ' !in t.window.value)
  }

  /** Round trip: reading a rendered clean token gives the token back, so a
      token `f=v` reads as field `f` and value `v`, and `f(w)=v` as field `f`,
      window `w` and value `v`. */
  lemma ParseRenderToken(t: Token)
    requires CleanToken(t)
    ensures ' ' !in RenderToken(t)
    ensures TokenOk(RenderToken(t))
    ensures ParseToken(RenderToken(t)) == t
  {
    var head := match t.window case None => t.field case Some(w) => t.field + ['('] + w + [')'];
    RenderedHead(t, head);
    ParseRenderedHead(t, head);
    assert KeyHead(RenderToken(t)) == head;
    assert TokenValue(RenderToken(t)) == t.value;
  }

  /** The head of a rendered clean token reads as its field and window. */
  lemma ParseRenderedHead(t: Token, head: string)
    requires CleanToken(t)
    requires head == match t.window case None => t.field case Some(w) => t.field + ['('] + w + [')']
    ensures HeadOk(head)
    ensures ParseHead(head) == (t.field, t.window)
  {
    match t.window {
      case None =>
        assert IndexOf(head, '(') == None;
      case Some(w) =>
        WindowedHead(t.field, w, head);
        assert head[..|t.field|] == t.field;
        assert head[|t.field| + 1..|t.field| + 1 + |w|] == w;
    }
  }

  /** A rendered clean token splits on '=' into its head and its value. */
  lemma RenderedHead(t: Token, head: string)
    requires CleanToken(t)
    requires head == match t.window case None => t.field case Some(w) => t.field + ['('] + w + [')']
    ensures RenderToken(t) == head + ['='] + t.value
    ensures ' ' !in RenderToken(t)
    ensures Split(RenderToken(t), '=') == [head, t.value]
  {
    assert '=' !in head;
    SplitJoin([head, t.value], '=');
  }

  /** In the head `f(w)` of a clean windowed token, the first '(' follows `f`
      and the first ')' follows `w`. */
  lemma WindowedHead(f: string, w: string, head: string)
    requires '(' !in f && ')' !in f && ')' !in w
    requires head == f + ['('] + w + [')']
    ensures IndexOf(head, '(') == Some(|f|)
    ensures IndexOf(head, ')') == Some(|f| + 1 + |w|)
  {
    WindowedHeadOpen(f, w, head);
    WindowedHeadClose(f, w, head);
  }

  lemma WindowedHeadOpen(f: string, w: string, head: string)
    requires '(' !in f
    requires head == f + ['('] + w + [')']
    ensures IndexOf(head, '(') == Some(|f|)
  {
    assert head == f + ['('] + (w + [')']);
    IndexOfAfter(f, '(', w + [')']);
  }

  lemma WindowedHeadClose(f: string, w: string, head: string)
    requires ')' !in f && ')' !in w
    requires head == f + ['('] + w + [')']
    ensures IndexOf(head, ')') == Some(|f| + 1 + |w|)
  {
    var before := f + ['('] + w;
    assert ')' !in before;
    assert head == before + [')'] + [];
    IndexOfAfter(before, ')', []);
  }

  /** The assignments `lineToMap` makes for one token, in order. */
  function TokenPairs(t: Token): seq<Pair> {
    match t.window
    case None => [(t.field, t.value)]
    case Some(w) => [(IntervalKey(t.field), w), (t.field, t.value)]
  }

  /** The assignments for a run of tokens, in order. */
  function TokensPairs(toks: seq<Token>): seq<Pair> {
    if |toks| == 0 then [] else TokensPairs(toks[..|toks| - 1]) + TokenPairs(toks[|toks| - 1])
  }

  lemma {:induction false} TokensPairsAppend(a: seq<Token>, b: seq<Token>)
    ensures TokensPairs(a + b) == TokensPairs(a) + TokensPairs(b)
    decreases |b|
  {
    if |b| == 0 {
      assert a + b == a;
    } else {
      var b' := b[..|b| - 1];
      TokensPairsAppend(a, b');
      assert (a + b)[..|a + b| - 1] == a + b';
      AppendAssoc(TokensPairs(a), TokensPairs(b'), TokenPairs(b[|b| - 1]));
    }
  }

  /** The tokens of a line that `lineToMap` can read without a panic. */
  predicate TokensOk(toks: seq<string>) {
    forall i :: 0 <= i < |toks| ==> TokenOk(toks[i])
  }

  /** Every token read, in order. */
  function ParseTokens(toks: seq<string>): seq<Token>
    requires TokensOk(toks)
  {
    seq(|toks|, i requires 0 <= i < |toks| => ParseToken(toks[i]))
  }

  /** `lineToMap` slices the line from the first "key" (and panics when there is
      none) and requires every space-separated token after it to be readable. */
  predicate EntryLineOk(line: string) {
    match IndexOfSub(line, "key")
    case None => false
    case Some(i) => TokensOk(Split(line[i..], ' '))
  }

  /** The tokens of an entry line: the text from the first "key" on, split on spaces. */
  function EntryTokens(line: string): seq<string>
    requires EntryLineOk(line)
  {
    Split(line[IndexOfSub(line, "key").value..], ' ')
  }

  /** `lineToMap`: the map an entry line describes. No key or value holds a
      space or '='. */
  function LineToMap(line: string): (m: map<string, string>)
    requires EntryLineOk(line)
    ensures forall k :: k in m ==> ' ' !in k && '=' !in k && ' ' !in m[k] && '=' !in m[k]
  {
    var toks := EntryTokens(line);
    ParsedTokensFree(toks);
    Assign(TokensPairs(ParseTokens(toks)))
  }

  /** An assignment whose key and value hold no space and no '='. */
  predicate PairFree(p: Pair) {
    ' ' !in p.0 && '=' !in p.0 && ' ' !in p.1 && '=' !in p.1
  }

  predicate PairsFree(ps: seq<Pair>) {
    forall j :: 0 <= j < |ps| ==> PairFree(ps[j])
  }

  /** The assignments made for a token without spaces hold no space or '='. */
  lemma TokenPairsFree(tok: string)
    requires TokenOk(tok) && ' ' !in tok
    ensures PairsFree(TokenPairs(ParseToken(tok)))
  {
    var parts := Split(tok, '=');
    SplitFirstTwo(tok, '=');
    SplitPartsWithin(tok, '=', ' ');
    assert ' ' !in parts[0] && ' ' !in parts[1];
    var head := KeyHead(tok);
    ParseHeadWithin(head, ' ');
    ParseHeadWithin(head, '=');
    FreeTokenPairs(ParseToken(tok));
  }

  /** A token with no space or '=' in any part makes free assignments. */
  lemma FreeTokenPairs(t: Token)
    requires ' ' !in t.field && '=' !in t.field && ' ' !in t.value && '=' !in t.value
    requires t.window.Some? ==> ' ' !in t.window.value && '=' !in t.window.value
    ensures PairsFree(TokenPairs(t))
  {
    assert ' ' !in "_interval" && '=' !in "_interval";
  }

  /** A character absent from a head is absent from its field and its window. */
  lemma ParseHeadWithin(head: string, c: char)
    requires HeadOk(head) && c !in head
    ensures c !in ParseHead(head).0
    ensures ParseHead(head).1.Some? ==> c !in ParseHead(head).1.value
  {
    var fw := ParseHead(head);
    if fw.1.Some? {
      var h := fw.0 + ['('] + fw.1.value + [')'];
      assert head[..|h|] == h;
    }
  }

  lemma {:induction false} TokensPairsFree(ts: seq<Token>)
    requires forall i :: 0 <= i < |ts| ==> PairsFree(TokenPairs(ts[i]))
    ensures PairsFree(TokensPairs(ts))
    decreases |ts|
  {
    if |ts| > 0 {
      var init := ts[..|ts| - 1];
      assert forall i :: 0 <= i < |init| ==> init[i] == ts[i];
      TokensPairsFree(init);
    }
  }

  lemma ParsedTokensFree(toks: seq<string>)
    requires TokensOk(toks)
    requires forall i :: 0 <= i < |toks| ==> ' ' !in toks[i]
    ensures PairsFree(TokensPairs(ParseTokens(toks)))
  {
    var ts := ParseTokens(toks);
    forall i | 0 <= i < |ts| ensures PairsFree(TokenPairs(ts[i])) {
      TokenPairsFree(toks[i]);
    }
    TokensPairsFree(ts);
  }

  /** The tokens rendered, in order. */
  function RenderTokens(ts: seq<Token>): seq<string> {
    seq(|ts|, i requires 0 <= i < |ts| => RenderToken(ts[i]))
  }

  /** Nothing before the first "key" of a line matters: an address that holds
      no "key", followed by a space, is skipped. */
  lemma AddressIgnored(addr: string, rest: string)
    requires forall j: nat :: !OccursAt(addr, "key", j)
    requires "key" <= rest
    ensures IndexOfSub(addr + [' '] + rest, "key") == Some(|addr| + 1)
    ensures IndexOfSub(rest, "key") == Some(0)
    ensures EntryLineOk(addr + [' '] + rest) <==> EntryLineOk(rest)
    ensures EntryLineOk(rest) ==> LineToMap(addr + [' '] + rest) == LineToMap(rest)
  {
    var s := addr + [' '] + rest;
    assert s[|addr| + 1..] == rest;
    assert OccursAt(rest, "key", 0);
    forall j: nat | j < |addr| + 1 ensures !OccursAt(s, "key", j) {
      if j + 3 <= |addr| {
        assert s[j..j + 3] == addr[j..j + 3];
        assert !OccursAt(addr, "key", j);
      } else {
        assert s[|addr|] == ' ';
        assert "key"[|addr| - j] != ' ';
      }
    }
    assert OccursAt(s, "key", |addr| + 1);
  }

  /** A text without a 'k' holds no "key". */
  lemma NoKeyWithoutK(s: string)
    requires 'k' !in s
    ensures forall j: nat :: !OccursAt(s, "key", j)
  {
    forall j: nat | j < |s| ensures !OccursAt(s, "key", j) {
      assert s[j] != 'k';
    }
  }

  /** Round trip for a whole entry line: an address without "key", a space,
      then clean tokens the first of which names a field starting with "key",
      joined by single spaces, reads as the assignments of those tokens. */
  lemma RenderedLineRoundTrip(addr: string, ts: seq<Token>)
    requires forall j: nat :: !OccursAt(addr, "key", j)
    requires |ts| >= 1 && "key" <= ts[0].field
    requires forall i :: 0 <= i < |ts| ==> CleanToken(ts[i])
    ensures EntryLineOk(addr + [' '] + Join(RenderTokens(ts), ' '))
    ensures LineToMap(addr + [' '] + Join(RenderTokens(ts), ' ')) == Assign(TokensPairs(ts))
  {
    var rest := Join(RenderTokens(ts), ' ');
    RenderedStartsWithKey(ts);
    AddressIgnored(addr, rest);
    RenderedTokensLine(ts, rest);
  }

  /** Rendered tokens whose first field starts with "key" start with "key". */
  lemma RenderedStartsWithKey(ts: seq<Token>)
    requires |ts| >= 1 && "key" <= ts[0].field
    ensures "key" <= Join(RenderTokens(ts), ' ')
  {
    var toks := RenderTokens(ts);
    JoinStartsWithFirst(toks, ' ');
    assert ts[0].field <= toks[0];
    PrefixTransitive("key", ts[0].field, toks[0]);
    PrefixTransitive("key", toks[0], Join(toks, ' '));
  }

  /** Clean tokens joined by single spaces, read from their start, give back
      the assignments of those tokens. */
  lemma RenderedTokensLine(ts: seq<Token>, rest: string)
    requires forall i :: 0 <= i < |ts| ==> CleanToken(ts[i])
    requires |ts| >= 1
    requires rest == Join(RenderTokens(ts), ' ')
    requires IndexOfSub(rest, "key") == Some(0)
    ensures EntryLineOk(rest)
    ensures LineToMap(rest) == Assign(TokensPairs(ts))
  {
    var toks := RenderTokens(ts);
    RenderedTokensRoundTrip(ts);
    SplitJoin(toks, ' ');
    EntryTokensAtStart(rest, toks);
    LineToMapUnfold(rest);
  }

  /** A line that starts with "key" is split into tokens as a whole. */
  lemma EntryTokensAtStart(rest: string, toks: seq<string>)
    requires IndexOfSub(rest, "key") == Some(0)
    requires Split(rest, ' ') == toks && TokensOk(toks)
    ensures EntryLineOk(rest)
    ensures EntryTokens(rest) == toks
  {
    assert rest[0..] == rest;
  }

  lemma LineToMapUnfold(line: string)
    requires EntryLineOk(line)
    ensures LineToMap(line) == Assign(TokensPairs(ParseTokens(EntryTokens(line))))
  {
  }

  lemma PrefixTransitive(a: string, b: string, c: string)
    requires a <= b && b <= c
    ensures a <= c
  {
  }

  lemma JoinStartsWithFirst(parts: seq<string>, sep: char)
    requires |parts| >= 1
    ensures parts[0] <= Join(parts, sep)
  {
    if |parts| > 1 {
      assert Join(parts, sep) == parts[0] + ([sep] + Join(parts[1..], sep));
    }
  }

  /** Reading rendered clean tokens gives the tokens back. */
  lemma RenderedTokensRoundTrip(ts: seq<Token>)
    requires forall i :: 0 <= i < |ts| ==> CleanToken(ts[i])
    ensures forall i :: 0 <= i < |ts| ==> ' ' !in RenderTokens(ts)[i]
    ensures TokensOk(RenderTokens(ts))
    ensures ParseTokens(RenderTokens(ts)) == ts
  {
    var toks := RenderTokens(ts);
    forall i | 0 <= i < |ts| ensures ' ' !in toks[i] && TokenOk(toks[i]) && ParseToken(toks[i]) == ts[i] {
      ParseRenderToken(ts[i]);
    }
  }

  /** The assignment a token makes to `k`, if any. */
  predicate Writes(t: Token, k: string) {
    k == t.field || (t.window.Some? && k == IntervalKey(t.field))
  }

  lemma NoWriteNoKeyPairs(t: Token, k: string)
    requires !Writes(t, k)
    ensures KeyPairs(TokenPairs(t), k) == []
  {
    var p := TokenPairs(t);
    if |p| == 1 {
      assert p[..0] == [];
    } else {
      assert p[..1][..0] == [];
    }
  }

  lemma NoWritePairs(t: Token, k: string)
    requires !Writes(t, k)
    ensures forall j :: 0 <= j < |TokenPairs(t)| ==> TokenPairs(t)[j].0 != k
  {
  }

  /** A token that does not assign `k`, inserted anywhere among the tokens of a
      line, does not change what the line's map holds at `k`. */
  lemma InsertedTokenIgnored(pre: seq<Token>, t: Token, post: seq<Token>, k: string)
    requires !Writes(t, k)
    ensures Get(Assign(TokensPairs(pre + [t] + post)), k) == Get(Assign(TokensPairs(pre + post)), k)
  {
    TokensPairsAppend(pre + [t], post);
    TokensPairsAppend(pre, [t]);
    TokensPairsAppend(pre, post);
    assert TokensPairs([t]) == TokenPairs(t) by {
      assert [t][..0] == [];
    }
    KeyPairsAppend(TokensPairs(pre) + TokenPairs(t), TokensPairs(post), k);
    KeyPairsAppend(TokensPairs(pre), TokenPairs(t), k);
    KeyPairsAppend(TokensPairs(pre), TokensPairs(post), k);
    NoWriteNoKeyPairs(t, k);
    assert KeyPairs(TokensPairs(pre), k) + [] == KeyPairs(TokensPairs(pre), k);
    SameKeyPairsSameValue(TokensPairs(pre + [t] + post), TokensPairs(pre + post), k);
  }

  /** Two neighbouring tokens of which one does not assign `k` may swap places
      without changing what the line's map holds at `k`. */
  lemma SwappedTokensIgnored(pre: seq<Token>, t: Token, u: Token, post: seq<Token>, k: string)
    requires !Writes(t, k)
    ensures Get(Assign(TokensPairs(pre + [t, u] + post)), k) == Get(Assign(TokensPairs(pre + [u, t] + post)), k)
  {
    var a := pre + [t, u] + post;
    var b := pre + [u, t] + post;
    var c := pre + [u] + post;
    assert a == pre + [t] + ([u] + post);
    assert c == pre + ([u] + post);
    assert b == (pre + [u]) + [t] + post;
    assert c == (pre + [u]) + post;
    InsertedTokenIgnored(pre, t, [u] + post, k);
    InsertedTokenIgnored(pre + [u], t, post, k);
  }

  /** Tokens that do not assign `k` make no assignment to `k`. */
  lemma {:induction false} NoWritersNoPairs(ts: seq<Token>, k: string)
    requires forall j :: 0 <= j < |ts| ==> !Writes(ts[j], k)
    ensures forall j :: 0 <= j < |TokensPairs(ts)| ==> TokensPairs(ts)[j].0 != k
    decreases |ts|
  {
    if |ts| > 0 {
      var init := ts[..|ts| - 1];
      assert forall j :: 0 <= j < |init| ==> init[j] == ts[j];
      NoWritersNoPairs(init, k);
      NoWritePairs(ts[|ts| - 1], k);
    }
  }

  /** Tokens that do not assign `k`, read after the fact, leave `m[k]` as it was. */
  lemma NoWritersAfter(pre: seq<Token>, post: seq<Token>, k: string)
    requires forall j :: 0 <= j < |post| ==> !Writes(post[j], k)
    ensures Get(Assign(TokensPairs(pre + post)), k) == Get(Assign(TokensPairs(pre)), k)
  {
    TokensPairsAppend(pre, post);
    NoWritersNoPairs(post, k);
    AssignOthersAfter(TokensPairs(pre), TokensPairs(post), k);
  }

  /** A field holds the value of the last token that names it: in `f=v` and
      in `f(w)=v` alike, `m[f]` is `v` when no later token assigns `f`. */
  lemma LastTokenDecidesField(ts: seq<Token>, i: nat)
    requires i < |ts|
    requires forall j :: i < j < |ts| ==> !Writes(ts[j], ts[i].field)
    ensures Get(Assign(TokensPairs(ts)), ts[i].field) == ts[i].value
  {
    var pre := ts[..i] + [ts[i]];
    SplitAround(ts, i);
    NoWritersAfter(pre, ts[i + 1..], ts[i].field);
    TokenRead(ts[..i], ts[i]);
  }

  /** The window of the last token that writes a field's interval key is what
      that key holds: in `f(w)=v`, `m[f_interval]` is `w` when no later token
      assigns `f_interval`. */
  lemma LastTokenDecidesInterval(ts: seq<Token>, i: nat)
    requires i < |ts| && ts[i].window.Some?
    requires forall j :: i < j < |ts| ==> !Writes(ts[j], IntervalKey(ts[i].field))
    ensures Get(Assign(TokensPairs(ts)), IntervalKey(ts[i].field)) == ts[i].window.value
  {
    var pre := ts[..i] + [ts[i]];
    SplitAround(ts, i);
    NoWritersAfter(pre, ts[i + 1..], IntervalKey(ts[i].field));
    TokenRead(ts[..i], ts[i]);
  }

  lemma SplitAround(ts: seq<Token>, i: nat)
    requires i < |ts|
    ensures ts == ts[..i] + [ts[i]] + ts[i + 1..]
  {
  }

  /** Right after reading a token, its field holds its value and, for a
      windowed token, its interval key holds its window. */
  lemma TokenRead(pre: seq<Token>, t: Token)
    ensures Get(Assign(TokensPairs(pre + [t])), t.field) == t.value
    ensures t.window.Some? ==> Get(Assign(TokensPairs(pre + [t])), IntervalKey(t.field)) == t.window.value
  {
    TokensPairsAppend(pre, [t]);
    assert TokensPairs([t]) == TokenPairs(t) by {
      assert [t][..0] == [];
    }
    var p := TokensPairs(pre) + TokenPairs(t);
    if t.window.Some? {
      assert |IntervalKey(t.field)| != |t.field|;
      assert p[..|p| - 1] == TokensPairs(pre) + [(IntervalKey(t.field), t.window.value)];
    }
  }

  /** The tokens of the entry line documented above `lineToMap`:
      `0x564104c72d60: key=192.168.128.1 use=0 exp=8183 gpc0=0 conn_rate(3000)=40 conn_cur=0 http_req_rate(10000)=19`. */
  function ExampleTokens(): seq<Token> {
    [Token("key", None, "192.168.128.1"), Token("use", None, "0"), Token("exp", None, "8183"),
     Token("gpc0", None, "0"), Token("conn_rate", Some("3000"), "40"), Token("conn_cur", None, "0"),
     Token("http_req_rate", Some("10000"), "19")]
  }

  lemma ExampleTokensClean()
    ensures forall i :: 0 <= i < |ExampleTokens()| ==> CleanToken(ExampleTokens()[i])
  {
    ExampleKeyTokensClean();
    ExampleCounterTokensClean();
    ExampleRateTokensClean();
  }

  lemma ExampleKeyTokensClean()
    ensures CleanToken(ExampleTokens()[0]) && CleanToken(ExampleTokens()[1]) && CleanToken(ExampleTokens()[2])
  {
  }

  lemma ExampleCounterTokensClean()
    ensures CleanToken(ExampleTokens()[3]) && CleanToken(ExampleTokens()[5])
  {
  }

  lemma ExampleRateTokensClean()
    ensures CleanToken(ExampleTokens()[4]) && CleanToken(ExampleTokens()[6])
  {
    ExampleConnRateTokenClean(ExampleTokens()[4]);
    ExampleHttpReqRateTokenClean(ExampleTokens()[6]);
  }

  lemma ExampleConnRateTokenClean(t: Token)
    requires t == Token("conn_rate", Some("3000"), "40")
    ensures CleanToken(t)
  {
  }

  lemma ExampleHttpReqRateTokenClean(t: Token)
    requires t == Token("http_req_rate", Some("10000"), "19")
    ensures CleanToken(t)
  {
  }

  /** The documented entry line reads as conn_rate 40 over a 3000 ms window and
      http_req_rate 19 over a 10000 ms window. */
  lemma EntryExample(addr: string, line: string)
    requires addr == "0x564104c72d60:"
    requires line == addr + [' '] + Join(RenderTokens(ExampleTokens()), ' ')
    ensures EntryLineOk(line)
    ensures Get(LineToMap(line), "conn_rate") == "40"
    ensures Get(LineToMap(line), "conn_rate_interval") == "3000"
    ensures Get(LineToMap(line), "http_req_rate") == "19"
    ensures Get(LineToMap(line), "http_req_rate_interval") == "10000"
  {
    var ts := ExampleTokens();
    ExampleLineReadsTokens(addr, ts, line);
    ExampleConnRate(ts);
    ExampleHttpReqRate(ts);
  }

  lemma ExampleLineReadsTokens(addr: string, ts: seq<Token>, line: string)
    requires addr == "0x564104c72d60:"
    requires ts == ExampleTokens()
    requires line == addr + [' '] + Join(RenderTokens(ts), ' ')
    ensures EntryLineOk(line)
    ensures LineToMap(line) == Assign(TokensPairs(ts))
  {
    ExampleTokensClean();
    assert "key" <= ts[0].field;
    assert 'k' !in addr;
    NoKeyWithoutK(addr);
    RenderedLineRoundTrip(addr, ts);
  }

  lemma ExampleConnRate(ts: seq<Token>)
    requires ts == ExampleTokens()
    ensures Get(Assign(TokensPairs(ts)), "conn_rate") == "40"
    ensures Get(Assign(TokensPairs(ts)), "conn_rate_interval") == "3000"
  {
    LastTokenDecidesField(ts, 4);
    var f := ts[4].field;
    assert f == "conn_rate";
    ConnRateIntervalKey(f);
    LastTokenDecidesInterval(ts, 4);
  }

  lemma ConnRateIntervalKey(f: string)
    requires f == "conn_rate"
    ensures IntervalKey(f) == "conn_rate_interval"
  {
  }

  lemma ExampleHttpReqRate(ts: seq<Token>)
    requires ts == ExampleTokens()
    ensures Get(Assign(TokensPairs(ts)), "http_req_rate") == "19"
    ensures Get(Assign(TokensPairs(ts)), "http_req_rate_interval") == "10000"
  {
    LastTokenDecidesField(ts, 6);
    var f := ts[6].field;
    assert f == "http_req_rate";
    HttpReqRateIntervalKey(f);
    LastTokenDecidesInterval(ts, 6);
  }

  lemma HttpReqRateIntervalKey(f: string)
    requires f == "http_req_rate"
    ensures IntervalKey(f) == "http_req_rate_interval"
  {
  }

  /** A token none of whose parts holds `c`. */
  predicate TokenWithout(t: Token, c: char) {
    c !in t.field && c !in t.value && (t.window.Some? ==> c !in t.window.value)
  }

  /** A rendered entry line holds no character that its address, its tokens
      and its syntax lack; in particular no line break. */
  lemma RenderedLineWithout(addr: string, ts: seq<Token>, c: char)
    requires c != ' ' && c != '=' && c != '(' && c != ')'
    requires c !in addr
    requires forall j :: 0 <= j < |ts| ==> TokenWithout(ts[j], c)
    ensures c !in addr + [' '] + Join(RenderTokens(ts), ' ')
  {
    var toks := RenderTokens(ts);
    forall j | 0 <= j < |toks| ensures c !in toks[j] {
      assert toks[j] == RenderToken(ts[j]);
    }
    JoinWithout(toks, ' ', c);
  }

  lemma ExampleTokensUnbroken(ts: seq<Token>)
    requires ts == ExampleTokens()
    ensures forall j :: 0 <= j < |ts| ==> TokenWithout(ts[j], '\n')
  {
    forall j | 0 <= j < |ts| ensures TokenWithout(ts[j], '\n') {
      ExampleTokenUnbroken(ts[j]);
    }
  }

  lemma ExampleTokenUnbroken(t: Token)
    requires t in ExampleTokens()
    ensures TokenWithout(t, '\n')
  {
  }

  /** The documented entry line is a single line. */
  lemma ExampleLineUnbroken(addr: string, line: string)
    requires addr == "0x564104c72d60:"
    requires line == addr + [' '] + Join(RenderTokens(ExampleTokens()), ' ')
    ensures '\n' !in line
  {
    ExampleTokensUnbroken(ExampleTokens());
    RenderedLineWithout(addr, ExampleTokens(), '\n');
  }
}
