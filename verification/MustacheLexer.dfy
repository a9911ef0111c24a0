/** Cutting a template into tokens: one for each character of text, one for each tag. */
module MustacheLexer {
  import opened Wrappers
  import opened MustacheScanner
  import opened MustacheTokens

  datatype ParseError =
    | InvalidTags(value: string)
    | UnclosedTag(position: nat)
    | UnopenedSection(name: string, position: nat)
    | UnclosedSection(name: string, position: nat)

  /** An opening and a closing delimiter. */
  datatype TagPair = TagPair(open: string, close: string)

  predicate IsDelimiter(s: string) { s != "" && NoSpace(s) }

  type Tags = t: TagPair | IsDelimiter(t.open) && IsDelimiter(t.close) witness TagPair("{", "}")

  const DEFAULT_TAGS: Tags := TagPair("{{", "}}")

  const EQUALS := SpacesThen("=")
  const CURLY := SpacesThen("}")

  function TagSymbol(): Regex { OneOf("#^/>{&=!") }
  function Opening(tags: TagPair): Regex { ThenSpaces(tags.open) }
  function Closing(tags: TagPair): Regex { SpacesThen(tags.close) }
  function ClosingCurly(tags: TagPair): Regex { SpacesThen("}" + tags.close) }

  // ---------- set-delimiter tags ----------

  /** The characters before the first white space. */
  function Word(s: string): (r: string)
    ensures r <= s && NoSpace(r) && (|r| < |s| ==> IsSpace(s[|r|]))
  {
    if s == "" || IsSpace(s[0]) then ""
    else
      var rest := Word(s[1..]);
      [s[0]] + rest
  }

  /** `value.split(/\s+/, 2)`, when it has two parts. */
  function SplitTags(value: string): Option<TagPair> {
    var first := Word(value);
    if first == value then None
    else
      var rest := value[|first|..];
      Some(TagPair(first, Word(rest[SpaceRun(rest)..])))
  }

  // ---------- one tag ----------

  /** What a tag says, how much it takes, and whether it is closed. */
  datatype TagText = TagText(kind: Kind, value: string, length: nat, closed: bool)

  function KindOf(symbol: string): (k: Kind)
    ensures !k.Text?
  {
    if symbol == "#" then Open
    else if symbol == "^" then Inverted
    else if symbol == "/" then Close
    else if symbol == ">" then Partial
    else if symbol == "{" || symbol == "&" then Raw
    else if symbol == "=" then Delimiters
    else if symbol == "!" then Comment
    else Name
  }

  /** A value that ends where `stop` matches, and where the scanner then looks for the closing delimiter. */
  function EnclosedValue(stop: Regex, skip: Regex, s: string, tags: TagPair): (r: (string, nat))
    ensures |r.0| <= r.1 <= |s| && r.0 == s[..|r.0|]
  {
    var value := UntilText(stop, s);
    var n := |value| + |ScanText(skip, s[|value|..])|;
    (value, n + |UntilText(Closing(tags), s[n..])|)
  }

  /** The tag's value and where the scanner then looks for the closing delimiter. */
  function TagValue(symbol: string, s: string, tags: TagPair): (r: (string, nat))
    ensures |r.0| <= r.1 <= |s| && r.0 == s[..|r.0|]
  {
    if symbol == "=" then EnclosedValue(EQUALS, EQUALS, s, tags)
    else if symbol == "{" then EnclosedValue(ClosingCurly(tags), CURLY, s, tags)
    else
      var value := UntilText(Closing(tags), s);
      (value, |value|)
  }

  /** How much of the tag stands before its value. */
  function TagHead(s: string, tags: TagPair): (r: (string, nat))
    ensures r.1 <= |s|
  {
    var a := |ScanText(Opening(tags), s)|;
    var symbol := ScanText(TagSymbol(), s[a..]);
    var b := a + |symbol|;
    (symbol, b + |ScanText(Spaces, s[b..])|)
  }

  /** The tag at the start of `s`. */
  function ReadTag(s: string, tags: TagPair): (r: TagText)
    ensures r.length <= |s|
  {
    var (symbol, from) := TagHead(s, tags);
    var (value, n) := TagValue(symbol, s[from..], tags);
    var close := ScanText(Closing(tags), s[from + n..]);
    TagText(KindOf(symbol), value, from + n + |close|, close != "")
  }

  lemma {:induction false} HeadFits(s: string, tags: Tags)
    requires MatchAt(Opening(tags), s).Some?
    ensures |tags.open| <= TagHead(s, tags).1 && tags.open == s[..|tags.open|]
  {
  }

  /** The delimiters set by a closed tag are usable again. */
  lemma {:induction false} NewTagsUsable(s: string, tags: Tags)
    requires ReadTag(s, tags).closed && ReadTag(s, tags).kind.Delimiters?
    ensures var pair := SplitTags(ReadTag(s, tags).value);
            pair.Some? ==> IsDelimiter(pair.value.open) && IsDelimiter(pair.value.close)
  {
    hide MatchAt, Search, TagHead, ReadTag, UntilText, SplitTags, IsDelimiter;
    var from := TagHead(s, tags).1;
    var value := UntilText(EQUALS, s[from..]);
    DelimitersRead(s, tags);
    HeadEndsSpaces(s, tags);
    NoTrailingSpace("=", s[from..]);
    assert value != "" ==> value[0] == s[from];
    if SplitTags(value).Some? { SplitUsable(value); }
  }

  /** A closed set-delimiter tag has a second '=', which ends its value. */
  lemma {:induction false} DelimitersRead(s: string, tags: Tags)
    requires ReadTag(s, tags).closed && ReadTag(s, tags).kind.Delimiters?
    ensures var text := s[TagHead(s, tags).1..];
            Search(EQUALS, text).Some? && ReadTag(s, tags).value == UntilText(EQUALS, text)
  {
    hide MatchAt, Search, TagHead, ScanText, UntilText;
    var (symbol, from) := TagHead(s, tags);
    var n := TagValue(symbol, s[from..], tags).1;
    assert symbol == "=";
    if Search(EQUALS, s[from..]).None? { ClosedNeedsText(s[from..], tags); }
  }

  /** After the head of a tag comes no white space. */
  lemma {:induction false} HeadEndsSpaces(s: string, tags: TagPair)
    ensures var from := TagHead(s, tags).1; from < |s| ==> !IsSpace(s[from])
  {
    var a := |ScanText(Opening(tags), s)|;
    var b := a + |ScanText(TagSymbol(), s[a..])|;
    var n := SpaceRun(s[b..]);
    assert b + n < |s| ==> s[b..][n] == s[b + n];
  }

  /** If no '=' is found the scanner is at the end of the template, where no tag can close. */
  lemma {:induction false} ClosedNeedsText(text: string, tags: Tags)
    requires Search(EQUALS, text).None?
    ensures var (_, n) := TagValue("=", text, tags); n == |text| && ScanText(Closing(tags), text[n..]) == ""
  {
    hide Search;
    assert text[|text|..] == "";
  }

  /** Text up to the first match of white space and a literal does not end in white space. */
  lemma {:induction false} NoTrailingSpace(literal: string, text: string)
    requires Search(SpacesThen(literal), text).Some?
    ensures var value := UntilText(SpacesThen(literal), text); value != "" ==> !IsSpace(value[|value| - 1])
  {
    hide Search, MatchAt;
    var i := Search(SpacesThen(literal), text).value;
    if i > 0 {
      assert text[i - 1..][1..] == text[i..];
      SpaceExtends(literal, text[i - 1..]);
    }
  }

  /** White space before such a match starts a longer match. */
  lemma {:induction false} SpaceExtends(literal: string, t: string)
    requires t != "" && MatchAt(SpacesThen(literal), t[1..]).Some?
    ensures IsSpace(t[0]) ==> MatchAt(SpacesThen(literal), t).Some?
  {
    var u := t[1..];
    if IsSpace(t[0]) {
      assert SpaceRun(t) == 1 + SpaceRun(u);
      assert t[SpaceRun(t)..] == u[SpaceRun(u)..];
    }
  }

  lemma {:induction false} SplitUsable(value: string)
    requires SplitTags(value).Some?
    requires value != "" ==> !IsSpace(value[0]) && !IsSpace(value[|value| - 1])
    ensures var pair := SplitTags(value).value; IsDelimiter(pair.open) && IsDelimiter(pair.close)
  {
    var first := Word(value);
    var rest := value[|first|..];
    assert rest[|rest| - 1] == value[|value| - 1];
    var n := SpaceRun(rest);
    assert n < |rest|;
    assert !IsSpace(rest[n..][0]);
  }

  // ---------- a whole template ----------

  /** One token for each character. */
  function TextTokens(value: string, start: nat): (r: seq<Token>)
    ensures |r| == |value|
  {
    seq(|value|, i requires 0 <= i < |value| => Token(Text, [value[i]], start + i, start + i + 1))
  }

  /** The tokens up to the first tag that cannot be read, and what is wrong with it. */
  datatype Lexed = Lexed(tokens: seq<Token>, error: Option<ParseError>)

  function Before(tokens: seq<Token>, rest: Lexed): Lexed { Lexed(tokens + rest.tokens, rest.error) }

  /** The delimiters in force after a closed tag; a set-delimiter tag that names no pair leaves none. */
  function NextTags(rest: string, tags: Tags): Option<Tags>
    requires ScanText(Opening(tags), rest) != "" && ReadTag(rest, tags).closed
  {
    var tag := ReadTag(rest, tags);
    if !tag.kind.Delimiters? then Some(tags)
    else match SplitTags(tag.value)
      case None => None
      case Some(pair) => NewTagsUsable(rest, tags); Some(pair)
  }

  lemma {:induction false} TagOpens(rest: string, tags: Tags)
    requires ScanText(Opening(tags), rest) != ""
    ensures MatchAt(Opening(tags), rest).Some?
  {
  }

  /** A closed tag takes up something. */
  lemma {:induction false} TagTakes(rest: string, tags: Tags)
    requires ScanText(Opening(tags), rest) != "" && ReadTag(rest, tags).closed
    ensures 0 < ReadTag(rest, tags).length <= |rest|
  {
    hide TagHead, TagValue, ScanText, MatchAt;
    TagOpens(rest, tags);
    HeadFits(rest, tags);
  }

  /** The tokens of a template's tail that starts at `pos`. */
  function Lex(tail: string, pos: nat, tags: Tags): Lexed
    decreases |tail|
  {
    if tail == "" then Lexed([], None)
    else
      var text := UntilText(Opening(tags), tail);
      var (chars, rest, start) := (TextTokens(text, pos), tail[|text|..], pos + |text|);
      if ScanText(Opening(tags), rest) == "" then Lexed(chars, None)
      else
        var tag := ReadTag(rest, tags);
        if !tag.closed then Lexed(chars, Some(UnclosedTag(start + tag.length)))
        else
          var token := Token(tag.kind, tag.value, start, start + tag.length);
          match NextTags(rest, tags)
          case None => Lexed(chars + [token], Some(InvalidTags(tag.value)))
          case Some(next) => TagTakes(rest, tags); Before(chars + [token], Lex(rest[tag.length..], token.end, next))
  }

  /** Where no opening delimiter matches, the text goes on to the end. */
  lemma {:induction false} NoTagLeft(tail: string, tags: Tags)
    requires ScanText(Opening(tags), tail[|UntilText(Opening(tags), tail)|..]) == ""
    ensures UntilText(Opening(tags), tail) == tail
  {
    hide Search;
  }

  lemma {:induction false} TagIsNoText(s: string, tags: Tags)
    ensures !ReadTag(s, tags).kind.Text?
  {
    hide TagValue, KindOf, TagHead, ScanText;
  }
}
