/** The template parser: one pass over the template that refines lexing, checking, stripping, squashing and nesting. */
module MustacheParser {
  import opened Wrappers
  import opened MustacheScanner
  import opened MustacheTokens
  import opened MustacheSquash
  import opened MustacheLines
  import opened MustacheLexer

  // ---------- section nesting ----------

  /** The open sections, outermost first, or what is wrong with the nesting. */
  datatype Check = Opened(sections: seq<Token>) | Broken(error: ParseError)

  function CheckStep(st: Check, t: Token): Check {
    if st.Broken? then st
    else if IsOpening(t) then Opened(st.sections + [t])
    else if !t.kind.Close? then st
    else if st.sections == [] then Broken(UnopenedSection(t.value, t.start))
    else
      var n := |st.sections| - 1;
      if st.sections[n].value != t.value then Broken(UnclosedSection(st.sections[n].value, t.start))
      else Opened(st.sections[..n])
  }

  function CheckRun(tokens: seq<Token>): Check {
    if tokens == [] then Opened([]) else CheckStep(CheckRun(tokens[..|tokens| - 1]), tokens[|tokens| - 1])
  }

  lemma {:induction false} CheckSnoc(a: seq<Token>, t: Token)
    ensures CheckRun(a + [t]) == CheckStep(CheckRun(a), t)
  {
    hide CheckStep;
    assert (a + [t])[..|a + [t]| - 1] == a;
  }

  /** The first nesting error is final. */
  lemma {:induction false} BrokenStays(a: seq<Token>, b: seq<Token>)
    requires CheckRun(a).Broken?
    ensures CheckRun(a + b) == CheckRun(a)
  {
    if b == [] {
      assert a + b == a;
    } else {
      BrokenStays(a, b[..|b| - 1]);
      assert (a + b)[..|a + b| - 1] == a + b[..|b| - 1];
    }
  }

  // ---------- the parser's specification ----------

  /** What the parser makes of lexed tokens; nesting errors come before the lexical error behind them. */
  function Verdict(lx: Lexed, length: nat): Option<ParseError> {
    match CheckRun(lx.tokens)
    case Broken(e) => Some(e)
    case Opened(sections) =>
      if lx.error.Some? then lx.error
      else if sections != [] then Some(UnclosedSection(sections[|sections| - 1].value, length))
      else None
  }

  /** The tree of tokens whose sections nest. */
  function TreeOf(tokens: seq<Token>): seq<Node>
    requires CheckRun(tokens) == Opened([])
  {
    StrippedNests(tokens);
    Nest(Squash(Strip(tokens)))
  }

  function ParseLexed(lx: Lexed, length: nat): Result<seq<Node>, ParseError> {
    match Verdict(lx, length)
    case Some(e) => Error(e)
    case None => Success(TreeOf(lx.tokens))
  }

  function Parse(template: string, tags: Tags): Result<seq<Node>, ParseError> {
    ParseLexed(Lex(template, 0, tags), |template|)
  }

  /** What the parser keeps of the open sections: the nester's sections, with their names matched so far. */
  ghost predicate Tracks(st: Nesting, sections: seq<Token>) {
    && |st.sections| == |sections| && Named(st.collector)
    && forall k | 0 <= k < |sections| :: st.sections[k].open == sections[k] && Named(st.sections[k].before)
  }

  lemma {:induction false} StepTracks(st: Nesting, sections: seq<Token>, t: Token)
    requires Tracks(st, sections) && CheckStep(Opened(sections), t).Opened?
    ensures NestStep(st, t).Some? && Tracks(NestStep(st, t).value, CheckStep(Opened(sections), t).sections)
  {
    hide Named;
    if IsOpening(t) {
      NoNames();
    } else if t.kind.Close? {
      CloseTracks(st, sections, t);
    } else {
      FlattenSnoc(st.collector, Leaf(t));
    }
  }

  lemma {:induction false} CloseTracks(st: Nesting, sections: seq<Token>, t: Token)
    requires Tracks(st, sections) && sections != [] && sections[|sections| - 1].value == t.value
    ensures var n := |st.sections| - 1;
            var f := st.sections[n];
            Tracks(Nesting(f.before + [Section(f.open, st.collector, t)], st.sections[..n]), sections[..n])
  {
    hide Named, NamedNode, Flatten, FlattenNode, Proper, ProperNode;
    var n := |st.sections| - 1;
    var s := Section(st.sections[n].open, st.collector, t);
    FlattenSnoc(st.sections[n].before, s);
    SectionNamed(s);
  }

  lemma {:induction false} SectionNamed(s: Node)
    requires s.Section? && s.open.value == s.close.value && Named(s.kids)
    ensures NamedNode(s)
  {
  }

  lemma {:induction false} NoNames()
    ensures Named([])
  {
  }

  /** Where the check goes through, nesting does: it never closes a section that is not open. */
  lemma {:induction false} CheckedRuns(tokens: seq<Token>)
    requires CheckRun(tokens).Opened?
    ensures NestRun(tokens).Some? && Tracks(NestRun(tokens).value, CheckRun(tokens).sections)
  {
    hide NestStep, CheckStep, Tracks;
    if tokens == [] {
      assert Tracks(Nesting([], []), []) by { NothingTracked(); }
    } else {
      var before, t := tokens[..|tokens| - 1], tokens[|tokens| - 1];
      OpenedBefore(before, t);
      CheckedRuns(before);
      assert CheckStep(CheckRun(before), t).Opened?;
      StepTracks(NestRun(before).value, CheckRun(before).sections, t);
    }
  }

  lemma {:induction false} NothingTracked()
    ensures Tracks(Nesting([], []), [])
  {
  }

  lemma {:induction false} OpenedBefore(before: seq<Token>, t: Token)
    requires CheckStep(CheckRun(before), t).Opened?
    ensures CheckRun(before).Opened?
  {
  }

  lemma {:induction false} CheckedNests(tokens: seq<Token>)
    ensures CheckRun(tokens) == Opened([]) ==> Balanced(tokens) && Named(Nest(tokens))
  {
    hide NestRun, CheckRun;
    if CheckRun(tokens) == Opened([]) {
      CheckedRuns(tokens);
    }
  }

  // ---------- dropped text does not disturb nesting ----------

  /** Only text has been taken out. */
  ghost predicate Thins(holes: seq<Option<Token>>, tokens: seq<Token>) {
    && |holes| == |tokens|
    && forall i | 0 <= i < |holes| :: if holes[i].None? then tokens[i].kind.Text? else holes[i].value == tokens[i]
  }

  /** Tokens without their text. */
  function TagTokens(tokens: seq<Token>): seq<Token> {
    if tokens == [] then []
    else
      var t := tokens[|tokens| - 1];
      TagTokens(tokens[..|tokens| - 1]) + (if t.kind.Text? then [] else [t])
  }

  lemma {:induction false} ThinnedAlike(holes: seq<Option<Token>>, tokens: seq<Token>)
    requires Thins(holes, tokens)
    ensures CheckRun(Compact(holes)) == CheckRun(tokens) && TagTokens(Compact(holes)) == TagTokens(tokens)
  {
    hide CheckRun, CheckStep;
    if holes != [] {
      var n := |holes| - 1;
      var (c, t) := (Compact(holes[..n]), tokens[n]);
      ThinnedAlike(holes[..n], tokens[..n]);
      assert tokens[..n] + [t] == tokens;
      CheckSnoc(tokens[..n], t);
      if holes[n].Some? {
        CheckSnoc(c, t);
        TagTokensSnoc(c, t);
      } else {
        TextUnchecked(CheckRun(tokens[..n]), t);
        assert c + [] == c;
      }
    } else {
      assert holes == [] && tokens == [];
    }
  }

  lemma {:induction false} TextUnchecked(st: Check, t: Token)
    requires t.kind.Text?
    ensures CheckStep(st, t) == st
  {
  }

  lemma {:induction false} TagTokensSnoc(a: seq<Token>, t: Token)
    ensures TagTokens(a + [t]) == TagTokens(a) + if t.kind.Text? then [] else [t]
  {
    assert (a + [t])[..|a + [t]| - 1] == a;
  }

  lemma {:induction false} StripThins(tokens: seq<Token>)
    ensures Thins(Strip(tokens), tokens)
  {
  }

  lemma {:induction false} StrippedNests(tokens: seq<Token>)
    ensures CheckRun(tokens) == Opened([]) ==>
              && Balanced(Compact(Strip(tokens))) && Balanced(Squash(Strip(tokens)))
              && Named(Nest(Compact(Strip(tokens))))
  {
    hide NestRun, CheckRun, Strip, Compact, SquashRun;
    if CheckRun(tokens) == Opened([]) {
      StripThins(tokens);
      ThinnedAlike(Strip(tokens), tokens);
      CheckedNests(Compact(Strip(tokens)));
      NestOfSquash(Compact(Strip(tokens)));
    }
  }

  // ---------- the parser ----------

  /** A value that ends where `stop` matches. */
  method ScanEnclosed(scanner: Scanner, stop: Regex, skip: Regex, tags: Tags) returns (value: string)
    requires scanner.Valid()
    modifies scanner
    ensures scanner.Valid()
    ensures var (v, n) := EnclosedValue(stop, skip, old(scanner.tail), tags);
            value == v && scanner.tail == old(scanner.tail)[n..] && scanner.pos == old(scanner.pos) + n
  {
    hide ScanText, UntilText, Closing, Scanner.Valid, EnclosedValue;
    ghost var s := scanner.tail;
    value := scanner.ScanUntil(stop);
    var skipped := scanner.Scan(skip);
    EnclosedParts(stop, skip, s, tags);
    var rest := scanner.ScanUntil(Closing(tags));
  }

  lemma {:induction false} EnclosedParts(stop: Regex, skip: Regex, s: string, tags: Tags)
    ensures var value := UntilText(stop, s);
            var skipped := ScanText(skip, s[|value|..]);
            var rest := UntilText(Closing(tags), s[|value|..][|skipped|..]);
            && EnclosedValue(stop, skip, s, tags) == (value, |value| + |skipped| + |rest|)
            && s[|value|..][|skipped|..][|rest|..] == s[|value| + |skipped| + |rest|..]
  {
    hide ScanText, UntilText, Closing;
    var (value, skipped) := (UntilText(stop, s), ScanText(skip, s[|UntilText(stop, s)|..]));
    DropDrop(s, |value|, |skipped|);
    DropDrop(s, |value| + |skipped|, |UntilText(Closing(tags), s[|value| + |skipped|..])|);
  }

  /** The value of a tag, up to where its closing delimiter is expected. */
  method ScanValue(scanner: Scanner, symbol: string, tags: Tags) returns (value: string)
    requires scanner.Valid()
    modifies scanner
    ensures scanner.Valid()
    ensures var (v, n) := TagValue(symbol, old(scanner.tail), tags);
            value == v && scanner.tail == old(scanner.tail)[n..] && scanner.pos == old(scanner.pos) + n
  {
    hide EnclosedValue, UntilText, Scanner.Valid;
    if symbol == "=" {
      value := ScanEnclosed(scanner, EQUALS, EQUALS, tags);
    } else if symbol == "{" {
      value := ScanEnclosed(scanner, ClosingCurly(tags), CURLY, tags);
    } else {
      value := scanner.ScanUntil(Closing(tags));
    }
  }

  /** The symbol of a tag, and the white space before its value. */
  method ScanHead(scanner: Scanner, tags: Tags, ghost whole: string) returns (symbol: string)
    requires scanner.Valid() && scanner.tail == whole[|ScanText(Opening(tags), whole)|..]
    modifies scanner
    ensures scanner.Valid()
    ensures var (s, from) := TagHead(whole, tags);
            && symbol == s && scanner.tail == whole[from..]
            && scanner.pos == old(scanner.pos) - |ScanText(Opening(tags), whole)| + from
  {
    hide ScanText, TagSymbol, Opening, TagHead, Scanner.Valid;
    HeadScanned(whole, tags);
    symbol := scanner.Scan(TagSymbol());
    var spaces := scanner.Scan(Spaces);
  }

  lemma {:induction false} HeadScanned(whole: string, tags: Tags)
    ensures var a := |ScanText(Opening(tags), whole)|;
            var symbol := ScanText(TagSymbol(), whole[a..]);
            var spaces := ScanText(Spaces, whole[a..][|symbol|..]);
            && TagHead(whole, tags) == (symbol, a + |symbol| + |spaces|)
            && whole[a..][|symbol|..][|spaces|..] == whole[a + |symbol| + |spaces|..]
  {
    hide ScanText, TagSymbol, Opening;
    var a := |ScanText(Opening(tags), whole)|;
    var symbol := ScanText(TagSymbol(), whole[a..]);
    DropDrop(whole, a, |symbol|);
    DropDrop(whole, a + |symbol|, |ScanText(Spaces, whole[a + |symbol|..])|);
  }

  /** The part of a tag after its opening delimiter; the tag starts at `start`. */
  method ScanTag(scanner: Scanner, start: nat, tags: Tags, ghost whole: string) returns (t: TagText)
    requires scanner.Valid() && scanner.tail == whole[|ScanText(Opening(tags), whole)|..]
    requires scanner.pos == start + |ScanText(Opening(tags), whole)|
    modifies scanner
    ensures scanner.Valid() && t == ReadTag(whole, tags)
    ensures scanner.tail == whole[t.length..] && scanner.pos == start + t.length
  {
    hide ScanText, TagValue, KindOf, TagHead, Closing, Scanner.Valid;
    var symbol := ScanHead(scanner, tags, whole);
    ghost var from := TagHead(whole, tags).1;
    var value := ScanValue(scanner, symbol, tags);
    ghost var n := TagValue(symbol, whole[from..], tags).1;
    DropDrop(whole, from, n);
    var close := scanner.Scan(Closing(tags));
    DropDrop(whole, from + n, |close|);
    t := TagText(KindOf(symbol), value, scanner.pos - start, close != "");
  }

  /** Pushes the characters of a stretch of text. */
  method PushChars(buffer: TokenBuffer, value: string, start: nat)
    requires buffer.Valid()
    modifies buffer
    ensures buffer.Valid() && buffer.pushed == old(buffer.pushed) + TextTokens(value, start)
  {
    hide Strip, LineRecord, LineStart;
    ghost var was := buffer.pushed;
    for i := 0 to |value|
      invariant buffer.Valid() && buffer.pushed == was + TextTokens(value, start)[..i]
    {
      buffer.PushText(value[i], start + i);
    }
    assert TextTokens(value, start)[..|value|] == TextTokens(value, start);
  }

  lemma {:induction false} CheckText(tokens: seq<Token>, value: string, start: nat)
    ensures CheckRun(tokens + TextTokens(value, start)) == CheckRun(tokens)
  {
    if value == "" {
      assert tokens + TextTokens(value, start) == tokens;
    } else {
      var n := |value| - 1;
      CheckText(tokens, value[..n], start);
      var t := TextTokens(value, start)[n];
      assert TextTokens(value, start) == TextTokens(value[..n], start) + [t];
      assert tokens + TextTokens(value, start) == tokens + TextTokens(value[..n], start) + [t];
      CheckSnoc(tokens + TextTokens(value[..n], start), t);
    }
  }

  lemma {:induction false} NothingRead(template: string, tags: Tags)
    ensures Lex(template, 0, tags) == Before([], Lex(template, 0, tags)) && CheckRun([]) == Opened([])
  {
    hide Lex;
  }

  /** One round of the lexer, behind the tokens read before it: the text before the next tag. */
  lemma {:induction false} LexText(pushed: seq<Token>, tail: string, pos: nat, tags: Tags)
    requires tail != ""
    ensures var text := UntilText(Opening(tags), tail);
            var rest := tail[|text|..];
            ScanText(Opening(tags), rest) == "" ==>
              Before(pushed, Lex(tail, pos, tags)) == Lexed(pushed + TextTokens(text, pos), None) && rest == ""
  {
    hide ReadTag, UntilText, ScanText, NextTags, TextTokens;
    var text := UntilText(Opening(tags), tail);
    if ScanText(Opening(tags), tail[|text|..]) == "" {
      NoTagLeft(tail, tags);
    }
  }

  /** The text and the tag `t` after it, when there is one. */
  ghost predicate NextTag(tail: string, pos: nat, tags: Tags, text: string, rest: string, t: Token) {
    && tail != "" && text == UntilText(Opening(tags), tail) && rest == tail[|text|..]
    && ScanText(Opening(tags), rest) != ""
    && var tag := ReadTag(rest, tags);
       t == Token(tag.kind, tag.value, pos + |text|, pos + |text| + tag.length)
  }

  lemma {:induction false} IsNextTag(tail: string, pos: nat, tags: Tags, text: string, rest: string, t: Token)
    requires tail != "" && text == UntilText(Opening(tags), tail) && rest == tail[|text|..]
    requires ScanText(Opening(tags), rest) != ""
    requires var tag := ReadTag(rest, tags); t == Token(tag.kind, tag.value, pos + |text|, pos + |text| + tag.length)
    ensures NextTag(tail, pos, tags, text, rest, t)
  {
    hide ReadTag, UntilText, ScanText;
  }

  lemma {:induction false} LexUnclosed(pushed: seq<Token>, tail: string, pos: nat, tags: Tags, text: string,
                                       rest: string, t: Token)
    requires NextTag(tail, pos, tags, text, rest, t) && !ReadTag(rest, tags).closed
    ensures Before(pushed, Lex(tail, pos, tags)) == Lexed(pushed + TextTokens(text, pos), Some(UnclosedTag(t.end)))
  {
    hide ReadTag, UntilText, ScanText, NextTags, TextTokens;
  }

  lemma {:induction false} LexTag(pushed: seq<Token>, tail: string, pos: nat, tags: Tags, text: string, rest: string,
                                  t: Token)
    requires NextTag(tail, pos, tags, text, rest, t) && ReadTag(rest, tags).closed
    ensures t.start < t.end <= t.start + |rest|
    ensures var here := pushed + TextTokens(text, pos) + [t];
            Before(pushed, Lex(tail, pos, tags)) ==
            match NextTags(rest, tags)
            case None => Lexed(here, Some(InvalidTags(t.value)))
            case Some(next) => Before(here, Lex(rest[t.end - t.start..], t.end, next))
  {
    hide ReadTag, UntilText, ScanText, NextTags, TextTokens, Lex, Before;
    TagTakes(rest, tags);
    LexTagAhead(tail, pos, tags, text, rest, t);
    var chars := TextTokens(text, pos);
    match NextTags(rest, tags) {
      case None => Reassociate(pushed, chars, t, Lexed([], Some(InvalidTags(t.value))));
      case Some(next) => Reassociate(pushed, chars, t, Lex(rest[t.end - t.start..], t.end, next));
    }
  }

  lemma {:induction false} LexTagAhead(tail: string, pos: nat, tags: Tags, text: string, rest: string, t: Token)
    requires NextTag(tail, pos, tags, text, rest, t) && ReadTag(rest, tags).closed
    requires 0 < ReadTag(rest, tags).length <= |rest|
    ensures Lex(tail, pos, tags) ==
            match NextTags(rest, tags)
            case None => Before(TextTokens(text, pos) + [t], Lexed([], Some(InvalidTags(t.value))))
            case Some(next) => Before(TextTokens(text, pos) + [t], Lex(rest[t.end - t.start..], t.end, next))
  {
    hide ReadTag, UntilText, ScanText, NextTags, TextTokens;
  }

  lemma {:induction false} Reassociate(pushed: seq<Token>, chars: seq<Token>, token: Token, lx: Lexed)
    ensures Before(pushed, Before(chars + [token], lx)) == Before(pushed + chars + [token], lx)
    ensures Before(pushed + chars + [token], Lexed([], lx.error)) == Lexed(pushed + chars + [token], lx.error)
  {
    assert pushed + (chars + [token] + lx.tokens) == pushed + chars + [token] + lx.tokens;
    assert pushed + chars + [token] + [] == pushed + chars + [token];
  }

  /** A nesting error in the tokens read so far is the parser's verdict. */
  lemma {:induction false} BrokenVerdict(template: string, tags: Tags, read: seq<Token>, lx: Lexed)
    requires Lex(template, 0, tags) == Before(read, lx) && CheckRun(read).Broken?
    ensures Parse(template, tags) == Error(CheckRun(read).error)
  {
    hide Lex, CheckRun;
    BrokenStays(read, lx.tokens);
  }

  /** Opens and closes sections; an error says which section was not opened or not closed. */
  method CheckSection(token: Token, open: seq<Token>) returns (error: Option<ParseError>, sections: seq<Token>)
    ensures CheckStep(Opened(open), token) == match error case Some(e) => Broken(e) case None => Opened(sections)
    ensures error.Some? ==> token.kind.Close?
  {
    sections := open;
    if token.kind.Open? || token.kind.Inverted? {
      sections := sections + [token];
    } else if token.kind.Close? {
      if sections == [] {
        return Some(UnopenedSection(token.value, token.start)), sections;
      }
      var openSection := sections[|sections| - 1];
      sections := sections[..|sections| - 1];
      if openSection.value != token.value {
        return Some(UnclosedSection(openSection.value, token.start)), sections;
      }
    }
    error := None;
  }

  /** Parses a template in one pass over its text, stopping at the first error. */
  method ParseTemplate(template: string, tags: Tags) returns (r: Result<seq<Node>, ParseError>)
    ensures r == Parse(template, tags)
  {
    hide Lex, ReadTag, ScanText, UntilText, CheckRun, CheckStep, TextTokens, SplitTags, Parse, Strip;
    hide LineRecord, LineStart, Squash, Balanced, Nest, NestRun, TreeOf, Opening, NextTag, Before, KindOf;
    var scanner := new Scanner(template);
    var buffer := new TokenBuffer();
    var sections: seq<Token> := [];
    var current: Tags := tags;
    ghost var whole := Lex(template, 0, tags);
    NothingRead(template, tags);
    while !scanner.Eos()
      invariant scanner.Valid() && buffer.Valid() && scanner.text == template && fresh(scanner) && fresh(buffer)
      invariant whole == Before(buffer.pushed, Lex(scanner.tail, scanner.pos, current))
      invariant CheckRun(buffer.pushed) == Opened(sections)
      decreases |scanner.tail|
    {
      ghost var (pushed, tail, pos) := (buffer.pushed, scanner.tail, scanner.pos);
      LexText(pushed, tail, pos, current);
      var start := scanner.pos;
      var value := scanner.ScanUntil(Opening(current));
      CheckText(buffer.pushed, value, start);
      PushChars(buffer, value, start);
      start := start + |value|;

      ghost var rest := scanner.tail;
      var opening := scanner.Scan(Opening(current));
      if opening == "" { break; }
      var tag := ScanTag(scanner, start, current, rest);
      var token := Token(tag.kind, tag.value, start, scanner.pos);
      IsNextTag(tail, pos, current, value, rest, token);
      if !tag.closed {
        LexUnclosed(pushed, tail, pos, current, value, rest, token);
        UnreadVerdict(template, tags, buffer.pushed, UnclosedTag(scanner.pos));
        return Error(UnclosedTag(scanner.pos));
      }
      TagIsNoText(rest, current);
      CheckSnoc(buffer.pushed, token);
      buffer.PushTag(token);
      LexTag(pushed, tail, pos, current, value, rest, token);

      var error;
      error, sections := CheckSection(token, sections);
      if error.Some? {
        BrokenVerdict(template, tags, buffer.pushed, Lex(scanner.tail, scanner.pos, current));
        return Error(error.value);
      }
      if token.kind.Delimiters? {
        var pair := SplitTags(token.value);
        if pair.None? {
          UnreadVerdict(template, tags, buffer.pushed, InvalidTags(token.value));
          return Error(InvalidTags(token.value));
        }
        current := pair.value;
      }
    }
    NothingLeft(scanner.tail, scanner.pos, current, buffer.pushed);
    assert whole == Lexed(buffer.pushed, None);
    EndVerdict(template, tags, buffer.pushed);
    if sections != [] {
      return Error(UnclosedSection(sections[|sections| - 1].value, scanner.pos));
    }
    var squashed := SquashTokens(buffer.tokens);
    var nested := NestTokens(squashed);
    return Success(nested);
  }

  /** The first unreadable tag is the verdict when the sections before it nest. */
  lemma {:induction false} UnreadVerdict(template: string, tags: Tags, read: seq<Token>, e: ParseError)
    requires Lex(template, 0, tags) == Lexed(read, Some(e)) && CheckRun(read).Opened?
    ensures Parse(template, tags) == Error(e)
  {
    hide Lex, CheckRun;
  }

  lemma {:induction false} EndVerdict(template: string, tags: Tags, read: seq<Token>)
    requires Lex(template, 0, tags) == Lexed(read, None) && CheckRun(read).Opened?
    ensures var sections := CheckRun(read).sections;
            if sections != [] then
              Parse(template, tags) == Error(UnclosedSection(sections[|sections| - 1].value, |template|))
            else Balanced(Squash(Strip(read))) && Parse(template, tags) == Success(Nest(Squash(Strip(read))))
  {
    hide Lex, CheckRun, Strip, Squash, Nest, Balanced;
    if CheckRun(read).sections == [] {
      StrippedNests(read);
    }
  }

  lemma {:induction false} NothingLeft(tail: string, pos: nat, tags: Tags, pushed: seq<Token>)
    ensures tail == "" ==> Before(pushed, Lex(tail, pos, tags)) == Lexed(pushed, None)
  {
  }
}
