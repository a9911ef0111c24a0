/** Tokens against the template: that they tile it, and that each of them says what it covers. */
module MustacheTiles {
  import opened Wrappers
  import opened MustacheScanner
  import opened MustacheTokens
  import opened MustacheLexer

  // ---------- the text of a tag ----------

  predicate AllSpace(s: string) { forall k | 0 <= k < |s| :: IsSpace(s[k]) }

  /** No symbol, or one of those that start a tag. */
  predicate IsSymbol(s: string) { s == "" || (|s| == 1 && s[0] in "#^/>{&=!") }

  /** The symbols that the kinds of tags are written with. */
  predicate Stands(symbol: string, kind: Kind) {
    match kind
    case Open => symbol == "#"
    case Inverted => symbol == "^"
    case Close => symbol == "/"
    case Partial => symbol == ">"
    case Raw => symbol == "{" || symbol == "&"
    case Delimiters => symbol == "="
    case Comment => symbol == "!"
    case Name => symbol == ""
    case Text => false
  }

  /** What stands between a value and the closing delimiter, depending on the tag's symbol. */
  predicate EndsValue(symbol: string, rest: string) {
    var n := SpaceRun(rest);
    if symbol == "=" then n < |rest| && rest[n] == '='
    else if symbol == "{" then rest[n..] == "}"
    else n == |rest|
  }

  /** White space is no part of a value's ends. */
  predicate Trimmed(value: string) { value != "" ==> !IsSpace(value[0]) && !IsSpace(value[|value| - 1]) }

  /** A tag's text, part by part. */
  predicate Spells(text: string, tags: TagPair, kind: Kind, value: string,
                   lead: string, symbol: string, gap: string, rest: string)
  {
    && text == tags.open + lead + symbol + gap + value + rest + tags.close
    && AllSpace(lead) && Stands(symbol, kind) && AllSpace(gap)
    && Trimmed(value) && EndsValue(symbol, rest)
  }

  /** A closing delimiter ends what scanning for it takes, after white space. */
  lemma {:induction false} CloseFits(tail: string, tags: Tags)
    requires ScanText(Closing(tags), tail) != ""
    ensures var (k, n) := (SpaceRun(tail), |tags.close|);
            k + n <= |tail| && ScanText(Closing(tags), tail) == tail[..k + n] && tail[k..k + n] == tags.close
  {
    var k := SpaceRun(tail);
    assert tail[k..k + |tags.close|] == tail[k..][..|tags.close|];
  }

  lemma {:induction false} SpaceRunIs(s: string, n: nat)
    requires n <= |s| && (forall k | 0 <= k < n :: IsSpace(s[k])) && (n < |s| ==> !IsSpace(s[n]))
    ensures SpaceRun(s) == n
  {
  }

  lemma {:induction false} SliceOfDrop(s: string, a: nat, lo: nat, hi: nat)
    requires lo <= hi && a + hi <= |s|
    ensures s[a..][lo..hi] == s[a + lo..a + hi]
  {
    var (x, y) := (s[a..][lo..hi], s[a + lo..a + hi]);
    assert |x| == |y| && forall k | 0 <= k < hi - lo :: x[k] == y[k];
  }

  /** The head of a tag: the opening delimiter, white space, the symbol, white space. */
  lemma {:induction false} HeadParts(s: string, tags: Tags) returns (a: nat, b: nat)
    requires MatchAt(Opening(tags), s).Some?
    ensures var (symbol, from) := TagHead(s, tags);
            && |tags.open| <= a <= b <= from <= |s|
            && s[..|tags.open|] == tags.open && AllSpace(s[|tags.open|..a])
            && s[a..b] == symbol && IsSymbol(symbol) && AllSpace(s[b..from])
  {
    hide ScanText, MatchAt, SpaceRun, AllSpace, IsSymbol;
    a := |ScanText(Opening(tags), s)|;
    b := a + |ScanText(TagSymbol(), s[a..])|;
    OpeningText(s, tags);
    SymbolText(s[a..]);
    SpacesText(s[b..]);
    RunOfDrop(s, |tags.open|);
    RunOfDrop(s, b);
    assert s[a..b] == s[a..][..b - a];
  }

  lemma {:induction false} OpeningText(s: string, tags: Tags)
    requires MatchAt(Opening(tags), s).Some?
    ensures |tags.open| <= |s| && s[..|tags.open|] == tags.open
    ensures |ScanText(Opening(tags), s)| == |tags.open| + SpaceRun(s[|tags.open|..])
  {
    hide SpaceRun;
  }

  lemma {:induction false} SymbolText(s: string)
    ensures IsSymbol(ScanText(TagSymbol(), s))
  {
  }

  lemma {:induction false} SpacesText(s: string)
    ensures |ScanText(Spaces, s)| == SpaceRun(s)
  {
    hide SpaceRun;
  }

  lemma {:induction false} RunOfDrop(s: string, a: nat)
    requires a <= |s|
    ensures AllSpace(s[a..a + SpaceRun(s[a..])])
  {
    SliceOfDrop(s, a, 0, SpaceRun(s[a..]));
  }

  /** Where the closing delimiter starts. */
  lemma {:induction false} CloseAt(s: string, n: nat, tags: Tags) returns (m: nat)
    requires n <= |s| && ScanText(Closing(tags), s[n..]) != ""
    ensures m == n + SpaceRun(s[n..]) && m + |tags.close| == n + |ScanText(Closing(tags), s[n..])| <= |s|
    ensures s[m..m + |tags.close|] == tags.close
  {
    hide ScanText, SpaceRun;
    CloseFits(s[n..], tags);
    var k := SpaceRun(s[n..]);
    m := n + k;
    SliceOfDrop(s, n, k, k + |tags.close|);
  }

  /** The rest of a closed tag: where its closing delimiter starts, and what stands before that. */
  lemma {:induction false} RestParts(symbol: string, s: string, tags: Tags) returns (m: nat)
    requires var n := TagValue(symbol, s, tags).1; ScanText(Closing(tags), s[n..]) != ""
    ensures var (value, n) := TagValue(symbol, s, tags);
            && |value| <= m && m + |tags.close| == n + |ScanText(Closing(tags), s[n..])| <= |s|
            && s[m..m + |tags.close|] == tags.close
            && EndsValue(symbol, s[|value|..m])
            && (value != "" ==> !IsSpace(value[|value| - 1]))
  {
    hide TagValue, ScanText, EndsValue, SpaceRun, IsSpace;
    m := CloseAt(s, TagValue(symbol, s, tags).1, tags);
    if symbol == "=" {
      SetRest(s, tags, m);
    } else if symbol == "{" {
      CurlyRest(s, tags);
    } else {
      PlainRest(symbol, s, tags);
    }
  }

  lemma {:induction false} PlainRest(symbol: string, s: string, tags: Tags)
    requires symbol != "=" && symbol != "{"
    requires ScanText(Closing(tags), s[TagValue(symbol, s, tags).1..]) != ""
    ensures var (value, n) := TagValue(symbol, s, tags);
            && n == |value| && EndsValue(symbol, s[n..n + SpaceRun(s[n..])])
            && (value != "" ==> !IsSpace(value[|value| - 1]))
  {
    hide Search, MatchAt, ScanText, SpaceRun, IsSpace, UntilText, EndsValue;
    PlainEnd(symbol, s, TagValue(symbol, s, tags).1);
    if Search(Closing(tags), s).None? {
      assert UntilText(Closing(tags), s) == s by { UntilEnd(Closing(tags), s); }
      NothingToClose(s, tags);
    } else {
      NoTrailingSpace(tags.close, s);
    }
  }

  lemma {:induction false} UntilEnd(re: Regex, s: string)
    requires Search(re, s).None?
    ensures UntilText(re, s) == s
  {
    hide Search;
  }

  /** White space ends the value of most tags. */
  lemma {:induction false} PlainEnd(symbol: string, s: string, n: nat)
    requires symbol != "=" && symbol != "{" && n <= |s|
    ensures EndsValue(symbol, s[n..n + SpaceRun(s[n..])])
  {
    var k := SpaceRun(s[n..]);
    RunOfDrop(s, n);
    SpaceRunIs(s[n..n + k], k);
  }

  lemma {:induction false} NothingToClose(s: string, tags: Tags)
    ensures ScanText(Closing(tags), s[|s|..]) == ""
  {
    assert s[|s|..] == "";
  }

  lemma {:induction false} SetRest(s: string, tags: Tags, m: nat)
    requires ScanText(Closing(tags), s[TagValue("=", s, tags).1..]) != "" && TagValue("=", s, tags).1 <= m <= |s|
    ensures var value := TagValue("=", s, tags).0;
            |value| <= m && EndsValue("=", s[|value|..m]) && (value != "" ==> !IsSpace(value[|value| - 1]))
  {
    hide Search, MatchAt, ScanText, UntilText, SpaceRun, IsSpace, EndsValue;
    if Search(EQUALS, s).None? {
      ClosedNeedsText(s, tags);
    } else {
      NoTrailingSpace("=", s);
      UntilMatches(EQUALS, s);
      var v := |UntilText(EQUALS, s)|;
      LiteralAfterSpaces("=", s[v..]);
      SetEnds(s, v, m);
    }
  }

  lemma {:induction false} SetEnds(s: string, v: nat, m: nat)
    requires v <= m <= |s| && var j := SpaceRun(s[v..]); v + j < m && s[v..][j] == '='
    ensures EndsValue("=", s[v..m])
  {
    var j := SpaceRun(s[v..]);
    assert forall k | 0 <= k <= j :: s[v..m][k] == s[v..][k];
    SpaceRunIs(s[v..m], j);
  }

  /** A match of white space and a literal, and what scanning takes for it. */
  lemma {:induction false} LiteralAfterSpaces(literal: string, s: string)
    requires MatchAt(SpacesThen(literal), s).Some? && literal != ""
    ensures var j := SpaceRun(s);
            && j + |literal| <= |s| && s[j..j + |literal|] == literal && literal <= s[j..] && s[j] == literal[0]
            && |ScanText(SpacesThen(literal), s)| == j + |literal|
  {
    var j := SpaceRun(s);
    assert s[j..j + |literal|] == s[j..][..|literal|];
  }

  lemma {:induction false} CurlyRest(s: string, tags: Tags)
    requires ScanText(Closing(tags), s[TagValue("{", s, tags).1..]) != ""
    ensures var (value, n) := TagValue("{", s, tags);
            && |value| <= n <= |s| && EndsValue("{", s[|value|..n]) && SpaceRun(s[n..]) == 0
            && (value != "" ==> !IsSpace(value[|value| - 1]))
  {
    hide Search, MatchAt, ScanText, TagValue, UntilText, EndsValue, SpaceRun, IsSpace;
    if Search(ClosingCurly(tags), s).None? {
      CurlyMissing(s, tags);
    } else {
      NoTrailingSpace("}" + tags.close, s);
      CurlyValue(s, tags);
    }
  }

  lemma {:induction false} UntilMatches(re: Regex, s: string)
    requires Search(re, s).Some?
    ensures MatchAt(re, s[|UntilText(re, s)|..]).Some?
  {
    hide Search, MatchAt;
  }

  lemma {:induction false} CurlyValue(s: string, tags: Tags)
    requires Search(ClosingCurly(tags), s).Some?
    ensures var (value, n) := TagValue("{", s, tags);
            && value == UntilText(ClosingCurly(tags), s)
            && |value| <= n <= |s| && EndsValue("{", s[|value|..n]) && SpaceRun(s[n..]) == 0
  {
    hide Search, MatchAt, ScanText, UntilText, EndsValue, SpaceRun, IsSpace;
    var v := |UntilText(ClosingCurly(tags), s)|;
    UntilMatches(ClosingCurly(tags), s);
    CurlyFound(s[v..], tags);
    var j := SpaceRun(s[v..]);
    DropDrop(s, v, j + 1);
    SliceOfDrop(s, v, 0, j + 1);
    ClosesAtOnce(s[v + (j + 1)..], tags);
    assert s[v..][0..j + 1] == s[v..][..j + 1];
  }

  lemma {:induction false} CurlyMissing(s: string, tags: Tags)
    requires Search(ClosingCurly(tags), s).None?
    ensures ScanText(Closing(tags), s[TagValue("{", s, tags).1..]) == ""
  {
    hide Search, MatchAt, ScanText;
    assert s[|s|..] == "";
    NothingToClose(s, tags);
  }

  lemma {:induction false} CurlyFound(s: string, tags: Tags)
    requires MatchAt(ClosingCurly(tags), s).Some?
    ensures var j := SpaceRun(s);
            && j < |s| && |ScanText(CURLY, s)| == j + 1 && EndsValue("{", s[..j + 1])
            && tags.close <= s[j + 1..] && SpaceRun(s[j + 1..]) == 0
  {
    hide MatchAt, ScanText, SpaceRun, EndsValue, IsSpace;
    var (j, literal) := (SpaceRun(s), "}" + tags.close);
    LiteralAfterSpaces(literal, s);
    CurlyScanned(s);
    CurlyEnds(s);
    CloseBehindCurly(s[j..], tags);
    assert s[j..][1..] == s[j + 1..];
  }

  lemma {:induction false} CurlyScanned(s: string)
    requires SpaceRun(s) < |s| && s[SpaceRun(s)] == '}'
    ensures |ScanText(CURLY, s)| == SpaceRun(s) + 1
  {
    hide SpaceRun;
    assert "}" <= s[SpaceRun(s)..];
  }

  lemma {:induction false} CurlyEnds(s: string)
    requires SpaceRun(s) < |s| && s[SpaceRun(s)] == '}'
    ensures EndsValue("{", s[..SpaceRun(s) + 1])
  {
    var j := SpaceRun(s);
    var t := s[..j + 1];
    assert forall k | 0 <= k < j + 1 :: t[k] == s[k];
    SpaceRunIs(t, j);
    assert t[j..] == "}";
  }

  lemma {:induction false} CloseBehindCurly(t: string, tags: Tags)
    requires "}" + tags.close <= t
    ensures tags.close <= t[1..] && SpaceRun(t[1..]) == 0
  {
    var n := |tags.close|;
    assert t[..n + 1][1..] == tags.close && t[1..][..n] == t[..n + 1][1..];
    assert t[1..][0] == tags.close[0];
  }

  lemma {:induction false} ClosesAtOnce(s: string, tags: Tags)
    requires tags.close <= s && SpaceRun(s) == 0
    ensures UntilText(Closing(tags), s) == ""
  {
    hide Search;
    assert s[0..] == s;
    assert MatchAt(Closing(tags), s[0..]).Some?;
  }

  /** The parts of a closed tag behind its head, as slices of the template. */
  lemma {:induction false} TagParts(s: string, tags: Tags) returns (e: nat, f: nat)
    requires ReadTag(s, tags).closed
    ensures var (t, (symbol, from)) := (ReadTag(s, tags), TagHead(s, tags));
            && from <= e <= f && f + |tags.close| == t.length <= |s|
            && s[from..e] == t.value && EndsValue(symbol, s[e..f]) && s[f..t.length] == tags.close
            && Trimmed(t.value) && t.kind == KindOf(symbol)
  {
    hide TagValue, TagHead, ScanText, EndsValue, IsSpace, KindOf;
    var (symbol, from) := TagHead(s, tags);
    var tail := s[from..];
    var (value, n) := TagValue(symbol, tail, tags);
    DropDrop(s, from, n);
    var m := RestParts(symbol, tail, tags);
    e, f := from + |value|, from + m;
    HeadEndsSpaces(s, tags);
    SliceOfDrop(s, from, 0, |value|);
    SliceOfDrop(s, from, |value|, m);
    SliceOfDrop(s, from, m, m + |tags.close|);
    assert tail[0..|value|] == tail[..|value|] == value;
    assert value != "" ==> value[0] == tail[0] == s[from];
  }

  /**
   * A closed tag starts with the opening delimiter and ends with the closing one; between them stand
   * the symbol of its kind and its value, with white space around them and what ends the value.
   */
  lemma {:induction false} TagFits(s: string, tags: Tags)
    returns (lead: string, symbol: string, gap: string, rest: string)
    requires MatchAt(Opening(tags), s).Some? && ReadTag(s, tags).closed
    ensures var t := ReadTag(s, tags);
            t.length <= |s| && Spells(s[..t.length], tags, t.kind, t.value, lead, symbol, gap, rest)
  {
    hide ReadTag, TagHead, MatchAt, AllSpace, EndsValue, Trimmed, IsSymbol, KindOf, Stands;
    var (t, from) := (ReadTag(s, tags), TagHead(s, tags).1);
    var a, b := HeadParts(s, tags);
    var e, f := TagParts(s, tags);
    SymbolStands(s[a..b]);
    lead, symbol, gap, rest := s[|tags.open|..a], s[a..b], s[b..from], s[e..f];
    SixCuts(s, |tags.open|, a, b, from, e, f, t.length);
  }

  lemma {:induction false} SymbolStands(symbol: string)
    requires IsSymbol(symbol)
    ensures Stands(symbol, KindOf(symbol))
  {
    assert symbol == "" || symbol == [symbol[0]];
  }

  lemma {:induction false} SixCuts(s: string, a: nat, b: nat, c: nat, d: nat, e: nat, f: nat, g: nat)
    requires a <= b <= c <= d <= e <= f <= g <= |s|
    ensures s[..g] == s[..a] + s[a..b] + s[b..c] + s[c..d] + s[d..e] + s[e..f] + s[f..g]
  {
    assert s[..b] == s[..a] + s[a..b];
    assert s[..c] == s[..b] + s[b..c];
    assert s[..d] == s[..c] + s[c..d];
    assert s[..e] == s[..d] + s[d..e];
    assert s[..f] == s[..e] + s[e..f];
    assert s[..g] == s[..f] + s[f..g];
  }

  // ---------- the delimiters in force ----------

  function After(tags: TagPair, t: Token): TagPair {
    if t.kind.Delimiters? && SplitTags(t.value).Some? then SplitTags(t.value).value else tags
  }

  /** The delimiters in force behind tokens, when `tags` are in force before them. */
  function InForce(tokens: seq<Token>, tags: TagPair): TagPair {
    if tokens == [] then tags else After(InForce(tokens[..|tokens| - 1], tags), tokens[|tokens| - 1])
  }

  lemma {:induction false} InForceSnoc(a: seq<Token>, t: Token, tags: TagPair)
    ensures InForce(a + [t], tags) == After(InForce(a, tags), t)
  {
    hide After;
    assert (a + [t])[..|a + [t]| - 1] == a;
  }

  lemma {:induction false} InForceConcat(a: seq<Token>, b: seq<Token>, tags: TagPair)
    ensures InForce(a + b, tags) == InForce(b, InForce(a, tags))
  {
    hide After;
    if b == [] {
      assert a + b == a;
    } else {
      InForceConcat(a, b[..|b| - 1], tags);
      assert (a + b)[..|a + b| - 1] == a + b[..|b| - 1];
    }
  }

  lemma {:induction false} TextChangesNoTags(value: string, start: nat, tags: TagPair)
    ensures InForce(TextTokens(value, start), tags) == tags
  {
    if value != "" {
      var n := |value| - 1;
      TextChangesNoTags(value[..n], start, tags);
      assert TextTokens(value, start)[..n] == TextTokens(value[..n], start);
    }
  }

  // ---------- what tokens say ----------

  /** A token says what it covers: text is that text, a tag is spelled out there with the given delimiters. */
  ghost predicate Faithful(template: string, t: Token, tags: TagPair) {
    && t.start < t.end <= |template|
    && var text := template[t.start..t.end];
       if t.kind.Text? then text == t.value
       else exists lead, symbol, gap, rest :: Spells(text, tags, t.kind, t.value, lead, symbol, gap, rest)
  }

  /** Each token is faithful to the delimiters in force where it stands. */
  ghost predicate AllFaithful(template: string, tokens: seq<Token>, tags: TagPair) {
    tokens == []
    || var (front, t) := (tokens[..|tokens| - 1], tokens[|tokens| - 1]);
       AllFaithful(template, front, tags) && Faithful(template, t, InForce(front, tags))
  }

  lemma {:induction false} FaithfulAt(template: string, tokens: seq<Token>, tags: TagPair, k: nat)
    requires AllFaithful(template, tokens, tags) && k < |tokens|
    ensures Faithful(template, tokens[k], InForce(tokens[..k], tags))
  {
    hide Faithful, InForce;
    var n := |tokens| - 1;
    if k < n {
      FaithfulAt(template, tokens[..n], tags, k);
      assert tokens[..n][..k] == tokens[..k];
    }
  }

  lemma {:induction false} FaithfulSnoc(template: string, a: seq<Token>, t: Token, tags: TagPair)
    ensures AllFaithful(template, a + [t], tags)
            <==> AllFaithful(template, a, tags) && Faithful(template, t, InForce(a, tags))
  {
    hide Faithful, InForce;
    assert (a + [t])[..|a + [t]| - 1] == a;
  }

  lemma {:induction false} FaithfulConcat(template: string, a: seq<Token>, b: seq<Token>, tags: TagPair)
    requires AllFaithful(template, a, tags) && AllFaithful(template, b, InForce(a, tags))
    ensures AllFaithful(template, a + b, tags)
  {
    hide Faithful, InForce;
    if b == [] {
      assert a + b == a;
    } else {
      var n := |b| - 1;
      FaithfulConcat(template, a, b[..n], tags);
      InForceConcat(a, b[..n], tags);
      FaithfulSnoc(template, a + b[..n], b[n], tags);
      assert a + b == a + b[..n] + [b[n]];
    }
  }

  lemma {:induction false} TextFaithful(template: string, text: string, pos: nat, tags: TagPair)
    requires pos <= |template| && text <= template[pos..]
    ensures AllFaithful(template, TextTokens(text, pos), tags)
  {
    hide InForce;
    if text != "" {
      var n := |text| - 1;
      TextFaithful(template, text[..n], pos, tags);
      assert TextTokens(text, pos)[..n] == TextTokens(text[..n], pos);
      assert template[pos..][n] == text[n];
      assert template[pos + n..pos + n + 1] == [text[n]];
    }
  }

  // ---------- tiling ----------

  /** The tokens lie end to end from `lo` to `hi`. */
  ghost predicate Tile(tokens: seq<Token>, lo: nat, hi: nat) {
    if tokens == [] then lo == hi
    else
      var t := tokens[|tokens| - 1];
      Tile(tokens[..|tokens| - 1], lo, t.start) && t.start < t.end && t.end == hi
  }

  lemma {:induction false} TileConcat(a: seq<Token>, b: seq<Token>, lo: nat, mid: nat, hi: nat)
    requires Tile(a, lo, mid) && Tile(b, mid, hi)
    ensures Tile(a + b, lo, hi)
  {
    if b == [] {
      assert a + b == a;
    } else {
      TileConcat(a, b[..|b| - 1], lo, mid, b[|b| - 1].start);
      assert (a + b)[..|a + b| - 1] == a + b[..|b| - 1];
    }
  }

  lemma {:induction false} TextTiles(value: string, start: nat)
    ensures Tile(TextTokens(value, start), start, start + |value|)
  {
    if value != "" {
      var n := |value| - 1;
      TextTiles(value[..n], start);
      assert TextTokens(value, start)[..n] == TextTokens(value[..n], start);
    }
  }

  lemma {:induction false} TileSnoc(a: seq<Token>, t: Token, lo: nat)
    requires Tile(a, lo, t.start) && t.start < t.end
    ensures Tile(a + [t], lo, t.end)
  {
    assert (a + [t])[..|a + [t]| - 1] == a;
  }

  /** Where tokens that start at `pos` end. */
  function EndOf(tokens: seq<Token>, pos: nat): nat { if tokens == [] then pos else tokens[|tokens| - 1].end }

  /**
   * What lexing from a position is to yield: tokens that tile the template, or a part of it up to a
   * tag that cannot be read, and that say what they cover.
   */
  ghost predicate LexedWell(template: string, pos: nat, tags: TagPair, lx: Lexed) {
    var end := EndOf(lx.tokens, pos);
    && Tile(lx.tokens, pos, end) && end <= |template| && (lx.error.None? ==> end == |template|)
    && AllFaithful(template, lx.tokens, tags)
  }

  /**
   * The tokens of a template are the template, cut without gap or overlap; before an unreadable tag
   * they are a prefix of it. Every token says what it covers, a tag in the delimiters in force there.
   */
  lemma {:induction false} LexTiles(template: string, pos: nat, tags: Tags)
    requires pos <= |template|
    ensures LexedWell(template, pos, tags, Lex(template[pos..], pos, tags))
    decreases |template| - pos
  {
    hide ReadTag, Search, MatchAt, NextTags, LexedWell, UntilText, ScanText, TextTokens, After;
    var tail := template[pos..];
    if tail == "" {
      NothingLexed(template, tags);
    } else {
      var text := UntilText(Opening(tags), tail);
      var (rest, start) := (tail[|text|..], pos + |text|);
      assert rest == template[start..];
      if ScanText(Opening(tags), rest) == "" {
        TextLexed(template, pos, tags);
      } else {
        var tag := ReadTag(rest, tags);
        TextBeforeTag(template, pos, tags);
        if tag.closed {
          var token := Token(tag.kind, tag.value, start, start + tag.length);
          TagTakes(rest, tags);
          TagLexed(template, pos, tags);
          assert rest[tag.length..] == template[token.end..];
          if NextTags(rest, tags).Some? {
            var next := NextTags(rest, tags).value;
            NextIsAfter(rest, tags, token);
            LexTiles(template, token.end, next);
            var lx := Lex(template[token.end..], token.end, next);
            LexedAhead(template, pos, tags, TextTokens(text, pos) + [token], lx);
          }
        }
      }
    }
  }

  lemma {:induction false} NothingLexed(template: string, tags: TagPair)
    ensures LexedWell(template, |template|, tags, Lexed([], None))
  {
  }

  lemma {:induction false} NextIsAfter(rest: string, tags: Tags, token: Token)
    requires ScanText(Opening(tags), rest) != "" && ReadTag(rest, tags).closed
    requires token.kind == ReadTag(rest, tags).kind && token.value == ReadTag(rest, tags).value
    ensures NextTags(rest, tags).Some? ==> NextTags(rest, tags).value == After(tags, token)
  {
    hide ReadTag, ScanText, SplitTags;
  }

  /** Text up to the end, where no opening delimiter is left. */
  lemma {:induction false} TextLexed(template: string, pos: nat, tags: Tags)
    requires pos <= |template|
    requires ScanText(Opening(tags), template[pos..][|UntilText(Opening(tags), template[pos..])|..]) == ""
    ensures LexedWell(template, pos, tags, Lexed(TextTokens(UntilText(Opening(tags), template[pos..]), pos), None))
  {
    hide UntilText, ScanText, Tile, AllFaithful;
    NoTagLeft(template[pos..], tags);
    TextTiles(template[pos..], pos);
    TextFaithful(template, template[pos..], pos, tags);
  }

  /** Text before a tag, should that turn out to be unreadable. */
  lemma {:induction false} TextBeforeTag(template: string, pos: nat, tags: Tags)
    requires pos <= |template|
    ensures var chars := TextTokens(UntilText(Opening(tags), template[pos..]), pos);
            && InForce(chars, tags) == tags
            && forall e: ParseError :: LexedWell(template, pos, tags, Lexed(chars, Some(e)))
  {
    hide UntilText, Tile, AllFaithful, InForce;
    var text := UntilText(Opening(tags), template[pos..]);
    TextTiles(text, pos);
    TextFaithful(template, text, pos, tags);
    TextChangesNoTags(text, pos, tags);
  }

  /** Text and a closed tag behind it, should its delimiters turn out to be no pair. */
  lemma {:induction false} TagLexed(template: string, pos: nat, tags: Tags)
    requires pos <= |template|
    requires var start := pos + |UntilText(Opening(tags), template[pos..])|;
             ScanText(Opening(tags), template[start..]) != "" && ReadTag(template[start..], tags).closed
    ensures var text := UntilText(Opening(tags), template[pos..]);
            var (chars, start) := (TextTokens(text, pos), pos + |text|);
            var tag := ReadTag(template[start..], tags);
            var token := Token(tag.kind, tag.value, start, start + tag.length);
            && InForce(chars + [token], tags) == After(tags, token)
            && forall e: ParseError :: LexedWell(template, pos, tags, Lexed(chars + [token], Some(e)))
  {
    hide UntilText, ScanText, TextTokens, Tile, ReadTag, After, InForce, AllFaithful, Faithful;
    var text := UntilText(Opening(tags), template[pos..]);
    var (chars, start) := (TextTokens(text, pos), pos + |text|);
    var tag := ReadTag(template[start..], tags);
    var token := Token(tag.kind, tag.value, start, start + tag.length);
    TextTiles(text, pos);
    TextBeforeTag(template, pos, tags);
    TextFaithful(template, text, pos, tags);
    TagToken(template, start, tags, token);
    TileSnoc(chars, token, pos);
    InForceSnoc(chars, token, tags);
    FaithfulSnoc(template, chars, token, tags);
  }

  lemma {:induction false} LexedAhead(template: string, pos: nat, tags: TagPair, here: seq<Token>, lx: Lexed)
    requires forall e: ParseError :: LexedWell(template, pos, tags, Lexed(here, Some(e)))
    requires here != [] && LexedWell(template, here[|here| - 1].end, InForce(here, tags), lx)
    ensures LexedWell(template, pos, tags, Before(here, lx))
  {
    hide Tile, AllFaithful, InForce;
    assert LexedWell(template, pos, tags, Lexed(here, Some(UnclosedTag(0))));
    TileConcat(here, lx.tokens, pos, here[|here| - 1].end, EndOf(lx.tokens, here[|here| - 1].end));
    FaithfulConcat(template, here, lx.tokens, tags);
  }

  lemma {:induction false} TagToken(template: string, start: nat, tags: Tags, t: Token)
    requires start <= |template| && ScanText(Opening(tags), template[start..]) != ""
    requires ReadTag(template[start..], tags).closed
    requires var tag := ReadTag(template[start..], tags); t == Token(tag.kind, tag.value, start, start + tag.length)
    ensures t.start < t.end <= |template| && Faithful(template, t, tags)
  {
    hide ReadTag, MatchAt, ScanText, Spells;
    var rest := template[start..];
    TagOpens(rest, tags);
    TagTakes(rest, tags);
    TagIsNoText(rest, tags);
    var lead, symbol, gap, close := TagFits(rest, tags);
    assert template[t.start..t.end] == rest[..ReadTag(rest, tags).length];
  }
}
