/** Tags written out part by part are read as what was written. */
module MustacheReading {
  import opened Wrappers
  import opened MustacheScanner
  import opened MustacheTokens
  import opened MustacheLexer
  import opened MustacheTiles

  /** What is written between the delimiters of a tag. */
  datatype Parts = Parts(lead: string, symbol: string, gap: string, value: string, rest: string)

  function Spelling(p: Parts, tags: TagPair): string {
    tags.open + p.lead + p.symbol + p.gap + p.value + p.rest + tags.close
  }

  /** The literal does not begin in the value, whatever follows that. */
  predicate NotIn(literal: string, value: string, follow: string) {
    forall i | 0 <= i < |value| :: !(literal <= (value + follow)[i..])
  }

  /**
   * Parts that can be read back: white space around the symbol and the value, a curly bracket to
   * close one, and nothing in the value that would end it early.
   */
  predicate Readable(p: Parts, tags: TagPair) {
    && AllSpace(p.lead) && AllSpace(p.gap) && p.value != "" && Trimmed(p.value)
    && (p.symbol == "" ==> p.gap == "" && p.value[0] !in "#^/>{&=!")
    && if p.symbol == "{" then
         && p.rest != "" && p.rest[|p.rest| - 1] == '}' && AllSpace(p.rest[..|p.rest| - 1])
         && NotIn("}" + tags.close, p.value, p.rest + tags.close)
       else AllSpace(p.rest) && NotIn(tags.close, p.value, p.rest + tags.close)
  }

  // ---------- matching ----------

  lemma {:induction false} SearchFinds(re: Regex, s: string, k: nat)
    requires k <= |s| && MatchAt(re, s[k..]).Some? && forall i | 0 <= i < k :: MatchAt(re, s[i..]).None?
    ensures Search(re, s) == Some(k) && UntilText(re, s) == s[..k]
  {
    hide MatchAt;
  }

  /** White space and a literal behind a value end it. */
  lemma {:induction false} UntilLiteral(literal: string, value: string, space: string, more: string)
    requires literal != "" && !IsSpace(literal[0]) && Trimmed(value) && AllSpace(space)
    requires NotIn(literal, value, space + literal + more)
    ensures UntilText(SpacesThen(literal), value + space + literal + more) == value
    ensures ScanText(SpacesThen(literal), space + literal + more) == space + literal
  {
    hide Search, UntilText, NotIn, Trimmed, AllSpace;
    var (s, t, re) := (value + space + literal + more, space + literal + more, SpacesThen(literal));
    SpaceBefore(space, literal + more);
    assert space + (literal + more) == t;
    assert t[|space|..] == literal + more && literal <= literal + more;
    assert t[..|space| + |literal|] == space + literal;
    assert s == value + t && s[|value|..] == t && s[..|value|] == value;
    forall i: nat | i < |value| ensures MatchAt(re, s[i..]).None? {
      NoMatchInValue(literal, value, t, i);
    }
    SearchFinds(re, s, |value|);
  }

  lemma {:induction false} SpaceBefore(space: string, more: string)
    requires AllSpace(space) && (more != "" ==> !IsSpace(more[0]))
    ensures SpaceRun(space + more) == |space|
  {
    SpaceRunIs(space + more, |space|);
  }

  lemma {:induction false} NoMatchInValue(literal: string, value: string, follow: string, i: nat)
    requires literal != "" && !IsSpace(literal[0]) && Trimmed(value) && i < |value| && NotIn(literal, value, follow)
    ensures MatchAt(SpacesThen(literal), (value + follow)[i..]).None?
  {
    var s := value + follow;
    var n := SpaceRun(s[i..]);
    RunEndsInValue(value, follow, i);
    DropDrop(s, i, n);
  }

  lemma {:induction false} RunEndsInValue(value: string, follow: string, i: nat)
    requires Trimmed(value) && i < |value|
    ensures i + SpaceRun((value + follow)[i..]) < |value|
  {
    var t := (value + follow)[i..];
    assert t[|value| - 1 - i] == value[|value| - 1];
  }

  /** Where a literal begins in front of `more` depends only on what the literal can reach. */
  lemma {:induction false} NotInMore(literal: string, value: string, follow: string, more: string)
    requires NotIn(literal, value, follow) && |literal| <= |follow|
    ensures NotIn(literal, value, follow + more)
  {
    forall i | 0 <= i < |value| ensures !(literal <= (value + (follow + more))[i..]) {
      Reaches(literal, (value + follow)[i..], more);
      assert (value + (follow + more))[i..] == (value + follow)[i..] + more;
    }
  }

  lemma {:induction false} Reaches(literal: string, s: string, more: string)
    requires |literal| <= |s|
    ensures literal <= s + more ==> literal <= s
  {
    assert (s + more)[..|literal|] == s[..|literal|];
  }

  // ---------- the head of a tag ----------

  /** A head that is written out part by part, in front of a character that belongs to none of them. */
  lemma {:induction false} HeadReads(p: Parts, tags: Tags, follow: string, s: string)
    requires AllSpace(p.lead) && AllSpace(p.gap) && follow != "" && !IsSpace(follow[0])
    requires if p.symbol == "" then p.gap == "" && follow[0] !in "#^/>{&=!"
             else |p.symbol| == 1 && p.symbol[0] in "#^/>{&=!"
    requires s == tags.open + p.lead + (p.symbol + (p.gap + follow))
    ensures var n := |tags.open| + |p.lead| + |p.symbol| + |p.gap|;
            && MatchAt(Opening(tags), s).Some? && ScanText(Opening(tags), s) != ""
            && TagHead(s, tags) == (p.symbol, n) && n <= |s| && s[n..] == follow
  {
    hide MatchAt, ScanText, AllSpace, IsSpace, TagSymbol, Opening, TagHead;
    var x := tags.open + p.lead;
    HeadStarts(p, follow);
    OpeningReads(tags, p.lead, p.symbol + (p.gap + follow));
    Cut(s, x, p.symbol + (p.gap + follow));
    SymbolReads(p.symbol, p.gap + follow);
    Cut(s[|x|..], p.symbol, p.gap + follow);
    SpacesRead(p.gap, follow);
    Cut(s[|x|..][|p.symbol|..], p.gap, follow);
    DropDrop(s, |x|, |p.symbol|);
    DropDrop(s, |x| + |p.symbol|, |p.gap|);
    HeadAssembled(s, tags, x, p.symbol, p.gap);
  }

  lemma {:induction false} Cut(s: string, a: string, b: string)
    requires s == a + b
    ensures |a| <= |s| && s[|a|..] == b
  {
  }

  lemma {:induction false} HeadStarts(p: Parts, follow: string)
    requires follow != "" && !IsSpace(follow[0])
    requires if p.symbol == "" then p.gap == "" && follow[0] !in "#^/>{&=!"
             else |p.symbol| == 1 && p.symbol[0] in "#^/>{&=!"
    ensures var u := p.gap + follow;
            && u != "" && !IsSpace((p.symbol + u)[0])
            && (p.symbol == "" ==> u[0] !in "#^/>{&=!")
  {
    hide IsSpace;
    if p.symbol != "" { SymbolsAreNoSpace(p.symbol[0]); }
  }

  lemma {:induction false} HeadAssembled(s: string, tags: Tags, x: string, symbol: string, gap: string)
    requires ScanText(Opening(tags), s) == x && ScanText(TagSymbol(), s[|x|..]) == symbol
    requires |x| + |symbol| <= |s| && ScanText(Spaces, s[|x| + |symbol|..]) == gap
    ensures TagHead(s, tags) == (symbol, |x| + |symbol| + |gap|)
  {
    hide ScanText, TagSymbol, Opening;
  }

  lemma {:induction false} SymbolsAreNoSpace(c: char)
    ensures c in "#^/>{&=!" ==> !IsSpace(c)
  {
  }

  lemma {:induction false} OpeningReads(tags: Tags, lead: string, t: string)
    requires AllSpace(lead) && t != "" && !IsSpace(t[0])
    ensures var s := tags.open + lead + t;
            MatchAt(Opening(tags), s).Some? && ScanText(Opening(tags), s) == tags.open + lead
  {
    var s := tags.open + lead + t;
    assert s[|tags.open|..] == lead + t && tags.open <= s;
    SpaceBefore(lead, t);
    assert s[..|tags.open| + |lead|] == tags.open + lead;
  }

  lemma {:induction false} SymbolReads(symbol: string, t: string)
    requires t != ""
    requires if symbol == "" then t[0] !in "#^/>{&=!" else |symbol| == 1 && symbol[0] in "#^/>{&=!"
    ensures ScanText(TagSymbol(), symbol + t) == symbol
  {
    var s := symbol + t;
    if symbol == "" { assert s == t; } else { assert s[0] == symbol[0] && s[..1] == symbol; }
  }

  lemma {:induction false} SpacesRead(space: string, t: string)
    requires AllSpace(space) && t != "" && !IsSpace(t[0])
    ensures ScanText(Spaces, space + t) == space
  {
    SpaceBefore(space, t);
  }

  // ---------- whole tags ----------

  /** A value and the end of its tag. */
  lemma {:induction false} PlainReads(p: Parts, tags: Tags, more: string)
    requires Readable(p, tags) && p.symbol != "{" && p.symbol != "="
    ensures var s := p.value + p.rest + tags.close + more;
            && TagValue(p.symbol, s, tags) == (p.value, |p.value|)
            && ScanText(Closing(tags), s[|p.value|..]) == p.rest + tags.close
  {
    hide UntilText, ScanText, NotIn;
    var s := p.value + p.rest + tags.close + more;
    NotInMore(tags.close, p.value, p.rest + tags.close, more);
    assert p.rest + tags.close + more == (p.rest + tags.close) + more;
    UntilLiteral(tags.close, p.value, p.rest, more);
    assert s[|p.value|..] == p.rest + tags.close + more;
  }

  lemma {:induction false} CurlyReads(p: Parts, tags: Tags, more: string)
    requires Readable(p, tags) && p.symbol == "{"
    ensures var s := p.value + p.rest + tags.close + more;
            && TagValue("{", s, tags) == (p.value, |p.value| + |p.rest|)
            && ScanText(Closing(tags), s[|p.value| + |p.rest|..]) == tags.close
  {
    hide UntilText, ScanText, NotIn;
    var (space, literal) := (p.rest[..|p.rest| - 1], "}" + tags.close);
    var s := p.value + p.rest + tags.close + more;
    assert p.rest == space + "}";
    assert p.rest + tags.close == space + literal && !IsSpace(literal[0]);
    NotInMore(literal, p.value, space + literal, more);
    UntilLiteral(literal, p.value, space, more);
    assert s == p.value + space + literal + more;
    CurlyTaken(space, tags.close + more);
    assert s[|p.value|..] == space + ("}" + (tags.close + more));
    ClosesNow(tags, more);
    assert s[|p.value| + |p.rest|..] == tags.close + more;
  }

  lemma {:induction false} CurlyTaken(space: string, more: string)
    requires AllSpace(space)
    ensures |ScanText(CURLY, space + ("}" + more))| == |space| + 1
  {
    var s := space + ("}" + more);
    SpaceBefore(space, "}" + more);
    assert s[|space|..] == "}" + more;
  }

  lemma {:induction false} ClosesNow(tags: Tags, more: string)
    ensures UntilText(Closing(tags), tags.close + more) == ""
    ensures ScanText(Closing(tags), tags.close + more) == tags.close
  {
    hide UntilText, ScanText;
    UntilLiteral(tags.close, "", "", more);
    assert "" + "" + tags.close + more == tags.close + more && "" + tags.close == tags.close;
  }

  /** A readable tag is read as its symbol and its value, and takes just its text. */
  lemma {:induction false} TagReadsBack(p: Parts, tags: Tags, kind: Kind, more: string)
    requires Readable(p, tags) && Stands(p.symbol, kind) && kind != Delimiters
    ensures var s := Spelling(p, tags) + more;
            && MatchAt(Opening(tags), s).Some? && ScanText(Opening(tags), s) != ""
            && ReadTag(s, tags) == TagText(kind, p.value, |Spelling(p, tags)|, true)
  {
    hide MatchAt, ScanText, TagHead, TagValue, AllSpace, NotIn, Trimmed, ReadTag;
    hide Readable, Spelling;
    var follow := p.value + p.rest + tags.close + more;
    var s := Spelling(p, tags) + more;
    SpellingSplit(p, tags, more);
    KindStands(p.symbol, kind);
    ReadableHead(p, tags);
    HeadReads(p, tags, follow, s);
    var from := |tags.open| + |p.lead| + |p.symbol| + |p.gap|;
    if p.symbol == "{" {
      CurlyReads(p, tags, more);
      Assembled(s, tags, p.symbol, from, p.value, |p.value| + |p.rest|, tags.close);
    } else {
      PlainReads(p, tags, more);
      Assembled(s, tags, p.symbol, from, p.value, |p.value|, p.rest + tags.close);
    }
  }

  lemma {:induction false} SpellingSplit(p: Parts, tags: Tags, more: string)
    ensures Spelling(p, tags) + more
            == tags.open + p.lead + (p.symbol + (p.gap + (p.value + p.rest + tags.close + more)))
    ensures |Spelling(p, tags)|
            == |tags.open| + |p.lead| + |p.symbol| + |p.gap| + |p.value| + |p.rest| + |tags.close|
  {
  }

  lemma {:induction false} Assembled(s: string, tags: Tags, symbol: string, from: nat, value: string, n: nat,
                                     close: string)
    requires from <= |s| && n <= |s| - from && TagHead(s, tags) == (symbol, from)
    requires TagValue(symbol, s[from..], tags) == (value, n) && ScanText(Closing(tags), s[from..][n..]) == close
    ensures ReadTag(s, tags) == TagText(KindOf(symbol), value, from + n + |close|, close != "")
  {
    hide TagHead, TagValue, ScanText, KindOf;
    DropDrop(s, from, n);
  }

  lemma {:induction false} ReadableHead(p: Parts, tags: Tags)
    requires Readable(p, tags)
    ensures AllSpace(p.lead) && AllSpace(p.gap) && p.value != "" && !IsSpace(p.value[0])
    ensures p.symbol == "" ==> p.gap == "" && p.value[0] !in "#^/>{&=!"
  {
  }

  lemma {:induction false} KindStands(symbol: string, kind: Kind)
    requires Stands(symbol, kind)
    ensures KindOf(symbol) == kind && (symbol == "" || (|symbol| == 1 && symbol[0] in "#^/>{&=!"))
  {
  }

  // ---------- set-delimiter tags ----------

  /** The text of a tag that sets the delimiters `a` and `b`. */
  function SetText(tags: TagPair, lead: string, gap: string, w: Words, space: string, last: string): string {
    tags.open + lead + "=" + gap + w.Text() + space + "=" + last + tags.close
  }

  /** The words of a set-delimiter tag: two delimiters, and possibly more behind white space. */
  datatype Words = Words(a: string, between: string, b: string, extra: string) {
    function Text(): string { a + between + b + extra }

    predicate Usable() {
      && IsDelimiter(a) && IsDelimiter(b) && between != "" && AllSpace(between)
      && (extra != "" ==> IsSpace(extra[0]) && !IsSpace(extra[|extra| - 1]))
      && '=' !in a && '=' !in b && '=' !in extra
    }
  }

  lemma {:induction false} WordReads(a: string, more: string)
    requires NoSpace(a) && (more != "" ==> IsSpace(more[0]))
    ensures Word(a + more) == a
  {
    if a == "" {
      assert a + more == more;
    } else {
      WordReads(a[1..], more);
      assert (a + more)[1..] == a[1..] + more;
    }
  }

  /** The first two words count; what white space cuts off behind them does not. */
  lemma {:induction false} SplitReads(a: string, between: string, b: string, extra: string)
    requires IsDelimiter(a) && IsDelimiter(b) && between != "" && AllSpace(between)
    requires extra != "" ==> IsSpace(extra[0])
    ensures SplitTags(a + between + b + extra) == Some(TagPair(a, b))
  {
    var (value, t) := (a + between + b + extra, b + extra);
    WordReads(a, between + t);
    assert a + (between + t) == value;
    assert value[|a|..] == between + t;
    SpaceBefore(between, t);
    assert (between + t)[|between|..] == t;
    WordReads(b, extra);
  }

  /** A set-delimiter tag is read as one, and the delimiters in force behind it are the first two it names. */
  lemma {:induction false} SetReadsBack(tags: Tags, lead: string, gap: string, w: Words, space: string, last: string,
                                        more: string)
    requires w.Usable() && AllSpace(lead) && AllSpace(gap) && AllSpace(space) && AllSpace(last)
    ensures var text := SetText(tags, lead, gap, w, space, last);
            && ScanText(Opening(tags), text + more) != ""
            && ReadTag(text + more, tags) == TagText(Delimiters, w.Text(), |text|, true)
            && NextTags(text + more, tags) == Some(TagPair(w.a, w.b))
            && forall t: Token | t.kind == Delimiters && t.value == w.Text() :: After(tags, t) == TagPair(w.a, w.b)
  {
    hide MatchAt, ScanText, TagHead, TagValue, AllSpace, SplitTags, ReadTag, Words.Text, Words.Usable, SetText;
    var (text, value) := (SetText(tags, lead, gap, w, space, last), w.Text());
    var follow := value + space + "=" + (last + tags.close + more);
    WordsFacts(w);
    SetTextSplit(tags, lead, gap, w, space, last, more);
    HeadReads(Parts(lead, "=", gap, value, ""), tags, follow, text + more);
    SetValueReads(tags, w, space, last, more);
    var from := |tags.open| + |lead| + 1 + |gap|;
    Assembled(text + more, tags, "=", from, value, |value| + |space| + 1, last + tags.close);
  }

  lemma {:induction false} SetTextSplit(tags: Tags, lead: string, gap: string, w: Words, space: string, last: string,
                                        more: string)
    ensures var text := SetText(tags, lead, gap, w, space, last);
            && text + more == tags.open + lead + ("=" + (gap + (w.Text() + space + "=" + (last + tags.close + more))))
            && |text| == |tags.open| + |lead| + 1 + |gap| + |w.Text()| + |space| + 1 + |last| + |tags.close|
  {
    hide Words.Text;
  }

  lemma {:induction false} WordsFacts(w: Words)
    requires w.Usable()
    ensures w.Text() != "" && Trimmed(w.Text()) && !IsSpace(w.Text()[0])
    ensures forall k | 0 <= k < |w.Text()| :: w.Text()[k] != '='
    ensures SplitTags(w.Text()) == Some(TagPair(w.a, w.b))
  {
    hide SplitTags, Word;
    SplitReads(w.a, w.between, w.b, w.extra);
    SymbolsAreNoSpace('=');
    var (value, last) := (w.Text(), if w.extra == "" then w.b else w.extra);
    assert value[0] == w.a[0] && value[|value| - 1] == last[|last| - 1];
    assert forall k | 0 <= k < |w.between| :: w.between[k] != '=';
  }

  lemma {:induction false} SetValueReads(tags: Tags, w: Words, space: string, last: string, more: string)
    requires w.Usable() && AllSpace(space) && AllSpace(last)
    ensures var value := w.Text();
            var s := value + space + "=" + (last + tags.close + more);
            && TagValue("=", s, tags) == (value, |value| + |space| + 1)
            && ScanText(Closing(tags), s[|value| + |space| + 1..]) == last + tags.close
  {
    hide UntilText, ScanText, MatchAt, Words.Text, Words.Usable, AllSpace;
    var (value, t) := (w.Text(), last + tags.close + more);
    var s := value + space + "=" + t;
    EqualsRead(w, space, t);
    CloseReads(tags, last, more);
    assert s[|value|..] == space + "=" + t;
    assert s[|value| + |space| + 1..] == t;
  }

  lemma {:induction false} EqualsRead(w: Words, space: string, t: string)
    requires w.Usable() && AllSpace(space)
    ensures UntilText(EQUALS, w.Text() + space + "=" + t) == w.Text()
    ensures ScanText(EQUALS, space + "=" + t) == space + "="
  {
    hide UntilText, ScanText, Words.Text, Words.Usable, NotIn;
    WordsFacts(w);
    NoEqualsIn(w.Text(), space + "=" + t);
    UntilLiteral("=", w.Text(), space, t);
  }

  lemma {:induction false} CloseReads(tags: Tags, last: string, more: string)
    requires AllSpace(last)
    ensures var t := last + tags.close + more;
            UntilText(Closing(tags), t) == "" && ScanText(Closing(tags), t) == last + tags.close
  {
    hide UntilText, ScanText, NotIn;
    NothingIn(tags.close, last + tags.close + more);
    UntilLiteral(tags.close, "", last, more);
    assert "" + last + tags.close + more == last + tags.close + more;
  }

  lemma {:induction false} NothingIn(literal: string, follow: string)
    ensures NotIn(literal, "", follow)
  {
  }

  lemma {:induction false} NoEqualsIn(value: string, follow: string)
    requires forall k | 0 <= k < |value| :: value[k] != '='
    ensures NotIn("=", value, follow)
  {
    forall i | 0 <= i < |value| ensures !("=" <= (value + follow)[i..]) {
      assert (value + follow)[i..][0] == value[i];
    }
  }
}
