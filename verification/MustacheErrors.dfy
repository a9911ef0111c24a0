/** What is wrong with a template that is not accepted. */
module MustacheErrors {
  import opened Wrappers
  import opened MustacheScanner
  import opened MustacheTokens
  import opened MustacheLexer
  import opened MustacheParser
  import opened MustacheFidelity

  /** Open sections with well-named trees before and inside them. */
  ghost predicate OpenSections(frames: seq<Frame>, nodes: seq<Node>) {
    && Proper(nodes) && Named(nodes) && ProperFrames(frames)
    && forall k | 0 <= k < |frames| :: Named(frames[k].before)
  }

  function Innermost(frames: seq<Frame>): string
    requires frames != []
  {
    frames[|frames| - 1].open.value
  }

  lemma {:induction false} FramesOpened(frames: seq<Frame>)
    requires OpenSections(frames, [])
    ensures CheckRun(FlattenFrames(frames)).Opened?
    ensures var sections := CheckRun(FlattenFrames(frames)).sections;
            |sections| == |frames| && forall k | 0 <= k < |frames| :: sections[k] == frames[k].open
  {
    hide CheckRun, Flatten, Proper, Named;
    if frames == [] {
      NothingChecked();
    } else {
      var (front, f) := (frames[..|frames| - 1], frames[|frames| - 1]);
      FramesOpened(front);
      var a := FlattenFrames(front);
      CheckFlatten(a, f.before);
      CheckSnoc(a + Flatten(f.before), f.open);
      assert FlattenFrames(frames) == a + Flatten(f.before) + [f.open];
    }
  }

  lemma {:induction false} TreesOpened(frames: seq<Frame>, nodes: seq<Node>)
    requires OpenSections(frames, nodes)
    ensures var check := CheckRun(FlattenFrames(frames) + Flatten(nodes));
            && check.Opened? && |check.sections| == |frames|
            && forall k | 0 <= k < |frames| :: check.sections[k] == frames[k].open
  {
    hide CheckRun, Flatten, FlattenFrames, Proper, Named, ProperFrames;
    NothingNamed();
    FramesOpened(frames);
    CheckFlatten(FlattenFrames(frames), nodes);
  }

  lemma {:induction false} NothingNamed()
    ensures Proper([]) && Named([])
  {
  }

  /** Tokens that pass the check are open sections with trees before and inside them. */
  lemma {:induction false} OpenedHasFrames(tokens: seq<Token>) returns (frames: seq<Frame>, nodes: seq<Node>)
    requires CheckRun(tokens).Opened?
    ensures OpenSections(frames, nodes) && tokens == FlattenFrames(frames) + Flatten(nodes)
  {
    hide CheckRun, NestRun, Flatten, FlattenFrames, Proper, Named, ProperFrames;
    CheckedRuns(tokens);
    NestKeepsTokens(tokens);
    frames, nodes := NestRun(tokens).value.sections, NestRun(tokens).value.collector;
  }

  /** The first token at which the check fails, or the end. */
  lemma {:induction false} FirstBroken(tokens: seq<Token>, n: nat) returns (k: nat)
    requires n <= |tokens|
    ensures k <= n && CheckRun(tokens[..k]).Opened?
    ensures k < n ==> CheckRun(tokens[..k + 1]).Broken?
  {
    hide CheckRun;
    if n == 0 {
      NothingChecked();
      k := 0;
    } else {
      k := FirstBroken(tokens, n - 1);
      if k == n - 1 && CheckRun(tokens[..n]).Opened? { k := n; }
    }
  }

  /**
   * What the parser says of any template. Its tokens begin with open sections, trees before and inside
   * them; the next token closes a section that is not the innermost open one, and that is the error, or
   * the tokens end there: then an unreadable tag is, or a section left open, or nothing is wrong.
   */
  lemma {:induction false} ErrorsExplained(template: string, tags: Tags)
    returns (frames: seq<Frame>, nodes: seq<Node>, k: nat)
    ensures var lx := Lex(template, 0, tags);
            && k <= |lx.tokens| && OpenSections(frames, nodes)
            && lx.tokens[..k] == FlattenFrames(frames) + Flatten(nodes)
            && if k < |lx.tokens| then
                 var t := lx.tokens[k];
                 && t.kind == Close && (frames == [] || Innermost(frames) != t.value)
                 && Parse(template, tags)
                    == Error(if frames == [] then UnopenedSection(t.value, t.start)
                             else UnclosedSection(Innermost(frames), t.start))
               else if lx.error.Some? then Parse(template, tags) == Error(lx.error.value)
               else if frames != [] then
                 Parse(template, tags) == Error(UnclosedSection(Innermost(frames), |template|))
               else Parse(template, tags).Success?
  {
    hide Lex, CheckRun, Flatten, FlattenFrames, TreeOf, OpenSections;
    var tokens := Lex(template, 0, tags).tokens;
    k := FirstBroken(tokens, |tokens|);
    frames, nodes := OpenedHasFrames(tokens[..k]);
    TreesOpened(frames, nodes);
    if k < |tokens| {
      assert tokens[..k + 1] == tokens[..k] + [tokens[k]] && tokens == tokens[..k + 1] + tokens[k + 1..];
      CheckSnoc(tokens[..k], tokens[k]);
      BrokenStays(tokens[..k + 1], tokens[k + 1..]);
    } else {
      assert tokens[..k] == tokens;
    }
  }

  /** An unclosed tag is reported at the end of the template: there the scanner looked for its end. */
  lemma {:induction false} UnclosedTagAtEnd(tail: string, pos: nat, tags: Tags, at: nat)
    requires Lex(tail, pos, tags).error == Some(UnclosedTag(at))
    ensures at == pos + |tail|
    decreases |tail|
  {
    hide ReadTag, UntilText, ScanText, TextTokens, NextTags;
    if tail != "" {
      var text := UntilText(Opening(tags), tail);
      var (rest, start) := (tail[|text|..], pos + |text|);
      if ScanText(Opening(tags), rest) != "" {
        var tag := ReadTag(rest, tags);
        if !tag.closed {
          UnclosedTakesAll(rest, tags);
        } else if NextTags(rest, tags).Some? {
          TagTakes(rest, tags);
          UnclosedTagAtEnd(rest[tag.length..], start + tag.length, NextTags(rest, tags).value, at);
        }
      }
    }
  }

  lemma {:induction false} UnclosedTakesAll(s: string, tags: Tags)
    requires !ReadTag(s, tags).closed
    ensures ReadTag(s, tags).length == |s|
  {
    hide TagValue, TagHead, ScanText;
    var (symbol, from) := TagHead(s, tags);
    var (value, n) := TagValue(symbol, s[from..], tags);
    DropDrop(s, from, n);
    UnclosedValue(symbol, s[from..], tags);
  }

  lemma {:induction false} UnclosedValue(symbol: string, s: string, tags: Tags)
    requires ScanText(Closing(tags), s[TagValue(symbol, s, tags).1..]) == ""
    ensures TagValue(symbol, s, tags).1 == |s|
  {
    hide ScanText, UntilText;
    if symbol == "=" {
      EnclosedTakesAll(EQUALS, EQUALS, s, tags);
    } else if symbol == "{" {
      EnclosedTakesAll(ClosingCurly(tags), CURLY, s, tags);
    } else {
      UntilTakesAll(s, tags);
    }
  }

  lemma {:induction false} EnclosedTakesAll(stop: Regex, skip: Regex, s: string, tags: Tags)
    requires ScanText(Closing(tags), s[EnclosedValue(stop, skip, s, tags).1..]) == ""
    ensures EnclosedValue(stop, skip, s, tags).1 == |s|
  {
    hide ScanText, UntilText;
    var v := |UntilText(stop, s)|;
    var n := v + |ScanText(skip, s[v..])|;
    DropDrop(s, n, |UntilText(Closing(tags), s[n..])|);
    UntilTakesAll(s[n..], tags);
  }

  lemma {:induction false} UntilTakesAll(s: string, tags: Tags)
    requires ScanText(Closing(tags), s[|UntilText(Closing(tags), s)|..]) == ""
    ensures |UntilText(Closing(tags), s)| == |s|
  {
    hide Search, MatchAt, ScanText;
    ClosingTakes(s[|UntilText(Closing(tags), s)|..], tags);
  }

  lemma {:induction false} ClosingTakes(s: string, tags: Tags)
    ensures MatchAt(Closing(tags), s).Some? ==> ScanText(Closing(tags), s) != ""
  {
  }

  /** Delimiters are refused when the value that sets them is a single word. */
  lemma {:induction false} BadDelimiters(tail: string, pos: nat, tags: Tags, value: string)
    requires Lex(tail, pos, tags).error == Some(InvalidTags(value))
    ensures var tokens := Lex(tail, pos, tags).tokens;
            && tokens != [] && tokens[|tokens| - 1].kind == Delimiters && tokens[|tokens| - 1].value == value
            && NoSpace(value)
    decreases |tail|
  {
    hide ReadTag, UntilText, ScanText, TextTokens, SplitTags;
    if tail != "" {
      var text := UntilText(Opening(tags), tail);
      var (rest, start) := (tail[|text|..], pos + |text|);
      if ScanText(Opening(tags), rest) != "" && ReadTag(rest, tags).closed {
        var tag := ReadTag(rest, tags);
        if NextTags(rest, tags).Some? {
          TagTakes(rest, tags);
          BadDelimiters(rest[tag.length..], start + tag.length, NextTags(rest, tags).value, value);
        } else {
          OneWord(tag.value);
        }
      }
    }
  }

  lemma {:induction false} OneWord(value: string)
    requires SplitTags(value).None?
    ensures NoSpace(value)
  {
  }
}
