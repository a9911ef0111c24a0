/** Dropping the white space of lines that hold only tags that print nothing. */
module MustacheLines {
  import opened Wrappers
  import opened MustacheScanner
  import opened MustacheTokens

  predicate IsNewline(t: Token) { t.kind.Text? && t.value == "\n" }

  predicate IsBlank(t: Token) { t.kind.Text? && |t.value| == 1 && IsSpace(t.value[0]) }

  /** What keeps a line: text that is not white space, or a tag that prints a value. */
  predicate IsSolid(t: Token) { (t.kind.Text? && !IsBlank(t)) || t.kind.Name? || t.kind.Raw? }

  predicate HasTag(tokens: seq<Token>) { exists k | 0 <= k < |tokens| :: !tokens[k].kind.Text? }

  predicate HasSolid(tokens: seq<Token>) { exists k | 0 <= k < |tokens| :: IsSolid(tokens[k]) }

  /** The first token of the line that reaches up to `n`; a line ends with a newline in text. */
  function LineStart(tokens: seq<Token>, n: nat): (r: nat)
    requires n <= |tokens|
    ensures r <= n && (r > 0 ==> IsNewline(tokens[r - 1])) && forall k | r <= k < n :: !IsNewline(tokens[k])
  {
    if n == 0 || IsNewline(tokens[n - 1]) then n else LineStart(tokens, n - 1)
  }

  /** The newline that ends the line of token `n`, or the number of tokens if none does. */
  function LineEnd(tokens: seq<Token>, n: nat): (r: nat)
    requires n <= |tokens|
    ensures n <= r <= |tokens| && (r < |tokens| ==> IsNewline(tokens[r]))
    ensures forall k | n <= k < r :: !IsNewline(tokens[k])
    decreases |tokens| - n
  {
    if n == |tokens| || IsNewline(tokens[n]) then n else LineEnd(tokens, n + 1)
  }

  /** A line from which the white space goes: it carries a tag and nothing solid. */
  predicate Standalone(line: seq<Token>) { HasTag(line) && !HasSolid(line) }

  /**
   * The tokens that are dropped: the text of standalone lines, newline included. The template's last
   * line is not ended by a newline and keeps its white space.
   */
  predicate Dropped(tokens: seq<Token>, i: nat)
    requires i < |tokens|
  {
    var end := LineEnd(tokens, i);
    tokens[i].kind.Text? && end < |tokens| && Standalone(tokens[LineStart(tokens, i)..end + 1])
  }

  /** The flat list with holes where tokens are dropped. */
  function Strip(tokens: seq<Token>): (r: seq<Option<Token>>)
    ensures |r| == |tokens|
  {
    seq(|tokens|, i requires 0 <= i < |tokens| => if Dropped(tokens, i) then None else Some(tokens[i]))
  }

  // ---------- growing a list token by token ----------

  lemma {:induction false} LineStartSnoc(tokens: seq<Token>, t: Token, n: nat)
    requires n <= |tokens|
    ensures LineStart(tokens + [t], n) == LineStart(tokens, n)
  {
    if !(n == 0 || IsNewline(tokens[n - 1])) { LineStartSnoc(tokens, t, n - 1); }
  }

  lemma {:induction false} LineEndSnoc(tokens: seq<Token>, t: Token, n: nat)
    requires n <= |tokens|
    ensures LineEnd(tokens + [t], n) ==
            if LineEnd(tokens, n) < |tokens| || IsNewline(t) then LineEnd(tokens, n) else |tokens| + 1
    decreases |tokens| - n
  {
    if !(n == |tokens| || IsNewline(tokens[n])) { LineEndSnoc(tokens, t, n + 1); }
  }

  /** On the unfinished line nothing is dropped yet. */
  lemma {:induction false} UnfinishedKept(tokens: seq<Token>, i: nat)
    requires LineStart(tokens, |tokens|) <= i < |tokens|
    ensures LineEnd(tokens, i) == |tokens| && !Dropped(tokens, i) && LineStart(tokens, i) == LineStart(tokens, |tokens|)
  {
    SameLine(tokens, i, |tokens|);
  }

  lemma {:induction false} SameLine(tokens: seq<Token>, i: nat, n: nat)
    requires i <= n <= |tokens| && forall k | i <= k < n :: !IsNewline(tokens[k])
    ensures LineStart(tokens, i) == LineStart(tokens, n)
    decreases n
  {
    if i < n { SameLine(tokens, i, n - 1); }
  }

  /** A line that has ended is not affected by what follows. */
  lemma {:induction false} EndedLineFixed(tokens: seq<Token>, t: Token, i: nat)
    requires i < |tokens| && LineEnd(tokens, i) < |tokens|
    ensures Dropped(tokens + [t], i) == Dropped(tokens, i)
  {
    hide Standalone;
    LineStartSnoc(tokens, t, i);
    LineEndSnoc(tokens, t, i);
    var (lo, hi) := (LineStart(tokens, i), LineEnd(tokens, i) + 1);
    assert (tokens + [t])[lo..hi] == tokens[lo..hi];
  }

  lemma {:induction false} BeforeLineEnds(tokens: seq<Token>, i: nat)
    requires i < LineStart(tokens, |tokens|)
    ensures LineEnd(tokens, i) < |tokens|
  {
  }

  /** A token that is no newline only adds itself. */
  lemma {:induction false} StripSnoc(tokens: seq<Token>, t: Token)
    requires !IsNewline(t)
    ensures Strip(tokens + [t]) == Strip(tokens) + [Some(t)]
  {
    hide Dropped, Standalone, IsNewline;
    var all := tokens + [t];
    forall i | 0 <= i <= |tokens| ensures Strip(all)[i] == (Strip(tokens) + [Some(t)])[i] {
      LineStartSnoc(tokens, t, |tokens|);
      assert LineStart(all, |all|) == LineStart(all, |tokens|);
      if i < LineStart(tokens, |tokens|) {
        BeforeLineEnds(tokens, i);
        EndedLineFixed(tokens, t, i);
      } else {
        UnfinishedKept(all, i);
        if i < |tokens| { UnfinishedKept(tokens, i); }
      }
    }
  }

  /** A newline ends the line; its text goes if the line is standalone, and stays otherwise. */
  lemma {:induction false} StripNewline(tokens: seq<Token>, t: Token, i: nat)
    requires IsNewline(t) && i <= |tokens|
    ensures var (all, from) := (tokens + [t], LineStart(tokens, |tokens|));
            Strip(all)[i] ==
            if i < from then Strip(tokens)[i]
            else if all[i].kind.Text? && Standalone(all[from..]) then None
            else Some(all[i])
  {
    hide Standalone, IsNewline;
    var (all, from) := (tokens + [t], LineStart(tokens, |tokens|));
    if i < from {
      BeforeLineEnds(tokens, i);
      EndedLineFixed(tokens, t, i);
    } else {
      LastLine(tokens, t, i);
      assert all[from..|tokens| + 1] == all[from..];
    }
  }

  lemma {:induction false} LastLine(tokens: seq<Token>, t: Token, i: nat)
    requires IsNewline(t) && LineStart(tokens, |tokens|) <= i <= |tokens|
    ensures LineEnd(tokens + [t], i) == |tokens| && LineStart(tokens + [t], i) == LineStart(tokens, |tokens|)
  {
    hide IsNewline;
    LineEndSnoc(tokens, t, i);
    LineStartSnoc(tokens, t, i);
    if i < |tokens| { UnfinishedKept(tokens, i); } else { NoLineAhead(tokens); }
  }

  lemma {:induction false} NoLineAhead(tokens: seq<Token>)
    ensures LineEnd(tokens, |tokens|) == |tokens|
  {
  }

  // ---------- the parser's buffer ----------

  /** The record of the current line, which starts at `from`. */
  ghost predicate LineRecord(pushed: seq<Token>, from: nat, spaces: seq<nat>, hasTag: bool, nonSpace: bool) {
    && from <= |pushed| && spaces == Blanks(pushed, from, |pushed|)
    && hasTag == HasTag(pushed[from..]) && nonSpace == HasSolid(pushed[from..])
  }

  /** The parser's token buffer with its record of the current line. */
  class TokenBuffer {
    /** Tokens, with holes where white space was dropped. */
    var tokens: seq<Option<Token>>
    /** Indices of white space on the current line. */
    var spaces: seq<nat>
    var hasTag: bool
    var nonSpace: bool
    /** Every token pushed. */
    ghost var pushed: seq<Token>

    ghost predicate Valid()
      reads this
    {
      && tokens == Strip(pushed)
      && LineRecord(pushed, LineStart(pushed, |pushed|), spaces, hasTag, nonSpace)
    }

    constructor ()
      ensures Valid() && pushed == []
    {
      tokens, spaces, hasTag, nonSpace, pushed := [], [], false, false, [];
    }

    /** Pushes one character of text, and strips the line when it ends there. */
    method PushText(chr: char, start: nat)
      requires Valid()
      modifies this
      ensures Valid() && pushed == old(pushed) + [Token(Text, [chr], start, start + 1)]
    {
      hide Strip, LineRecord, LineStart;
      var token := Token(Text, [chr], start, start + 1);
      ghost var was := pushed;
      TextRecorded(was, token, LineStart(was, |was|), spaces, hasTag, nonSpace);
      if IsSpace(chr) {
        spaces := spaces + [|tokens|];
      } else {
        nonSpace := true;
      }
      tokens := tokens + [Some(token)];
      pushed := pushed + [token];
      if chr == '\n' {
        StripSpace(was, token);
      } else {
        StripSnoc(was, token);
        LineGrows(was, token);
      }
    }

    /** Pushes a tag. */
    method PushTag(token: Token)
      requires Valid() && !token.kind.Text?
      modifies this
      ensures Valid() && pushed == old(pushed) + [token]
    {
      hide Strip, LineRecord, LineStart;
      TagRecorded(pushed, token, LineStart(pushed, |pushed|), spaces, hasTag, nonSpace);
      StripSnoc(pushed, token);
      LineGrows(pushed, token);
      hasTag := true;
      tokens := tokens + [Some(token)];
      if token.kind.Name? || token.kind.Raw? {
        nonSpace := true;
      }
      pushed := pushed + [token];
    }

    /** At the end of a line: drops its white space if it is standalone, and starts a new line. */
    method StripSpace(ghost was: seq<Token>, ghost newline: Token)
      requires IsNewline(newline) && pushed == was + [newline] && tokens == Strip(was) + [Some(newline)]
      requires LineRecord(pushed, LineStart(was, |was|), spaces, hasTag, nonSpace)
      modifies this`tokens, this`spaces, this`hasTag, this`nonSpace
      ensures Valid()
    {
      hide Strip, Dropped, HasTag, HasSolid, LineStart, IsBlank, Holes;
      ghost var from := LineStart(was, |was|);
      ghost var full := tokens;
      if hasTag && !nonSpace {
        ghost var n: nat := |pushed|;
        NoHoles(full, pushed, from);
        while |spaces| > 0
          invariant n <= |tokens| == |full| == |pushed| && spaces == Blanks(pushed, from, n)
          invariant tokens == Holes(full, pushed, from, n)
          decreases |spaces|
        {
          var i := spaces[|spaces| - 1];
          LastBlank(pushed, from, n);
          HoleAt(full, pushed, from, n, i);
          spaces := spaces[..|spaces| - 1];
          tokens := tokens[i := None];
          n := i;
        }
        AllHoles(full, pushed, from, n);
      } else {
        spaces := [];
      }
      hasTag := false;
      nonSpace := false;
      StripEndsLine(was, newline, tokens);
    }
  }

  lemma {:induction false} TextRecorded(was: seq<Token>, t: Token, from: nat, spaces: seq<nat>, hasTag: bool,
                                        nonSpace: bool)
    requires LineRecord(was, from, spaces, hasTag, nonSpace) && t.kind.Text?
    ensures IsBlank(t) ==> LineRecord(was + [t], from, spaces + [|was|], hasTag, nonSpace)
    ensures !IsBlank(t) ==> LineRecord(was + [t], from, spaces, hasTag, true)
  {
    hide HasTag, HasSolid, IsBlank;
    BlanksSnoc(was, t, from, |was|);
    assert (was + [t])[from..] == was[from..] + [t];
    TagSnoc(was[from..], t);
  }

  lemma {:induction false} TagRecorded(was: seq<Token>, t: Token, from: nat, spaces: seq<nat>, hasTag: bool,
                                       nonSpace: bool)
    requires LineRecord(was, from, spaces, hasTag, nonSpace) && !t.kind.Text?
    ensures LineRecord(was + [t], from, spaces, true, nonSpace || t.kind.Name? || t.kind.Raw?)
  {
    hide HasTag, HasSolid;
    BlanksSnoc(was, t, from, |was|);
    assert (was + [t])[from..] == was[from..] + [t];
    TagSnoc(was[from..], t);
  }

  /** `full` with a hole for every blank token of the line from index `n` on. */
  ghost function Holes(full: seq<Option<Token>>, tokens: seq<Token>, from: nat, n: nat): seq<Option<Token>>
    requires |full| == |tokens|
  {
    seq(|full|, i requires 0 <= i < |full| => if n <= i && from <= i && IsBlank(tokens[i]) then None else full[i])
  }

  lemma {:induction false} NoHoles(full: seq<Option<Token>>, tokens: seq<Token>, from: nat)
    requires |full| == |tokens|
    ensures Holes(full, tokens, from, |tokens|) == full
  {
  }

  lemma {:induction false} HoleAt(full: seq<Option<Token>>, tokens: seq<Token>, from: nat, n: nat, i: nat)
    requires |full| == |tokens| && from <= i < n <= |tokens| && IsBlank(tokens[i])
    requires forall j | i < j < n :: !IsBlank(tokens[j])
    ensures Holes(full, tokens, from, n)[i := None] == Holes(full, tokens, from, i)
  {
  }

  lemma {:induction false} AllHoles(full: seq<Option<Token>>, tokens: seq<Token>, from: nat, n: nat)
    requires |full| == |tokens| && n <= |tokens| && Blanks(tokens, from, n) == []
    ensures Holes(full, tokens, from, n) == Holes(full, tokens, from, from)
  {
    hide IsBlank;
    NoBlanks(tokens, from, n);
  }

  /** What stripping the buffer at the end of a line has to leave. */
  lemma {:induction false} StripEndsLine(was: seq<Token>, newline: Token, tokens: seq<Option<Token>>)
    requires IsNewline(newline)
    requires var (all, from) := (was + [newline], LineStart(was, |was|));
             var full := Strip(was) + [Some(newline)];
             tokens == if Standalone(all[from..]) then Holes(full, all, from, from) else full
    ensures var all := was + [newline];
            && tokens == Strip(all)
            && LineStart(all, |all|) == |all| && Blanks(all, |all|, |all|) == []
            && !HasTag(all[|all|..]) && !HasSolid(all[|all|..])
  {
    hide Strip, Dropped, HasTag, HasSolid, LineStart, IsNewline;
    assert LineStart(was + [newline], |was| + 1) == |was| + 1 by { LineRestarts(was, newline); }
    var (all, from) := (was + [newline], LineStart(was, |was|));
    NoneSolid(all[from..]);
    EmptyLine(all[|all|..]);
    forall i | 0 <= i < |all| ensures tokens[i] == Strip(all)[i] {
      StripNewline(was, newline, i);
      StripKeeps(was, i);
      if i >= from { assert all[from..][i - from] == all[i]; }
    }
  }

  lemma {:induction false} LineRestarts(was: seq<Token>, newline: Token)
    requires IsNewline(newline)
    ensures LineStart(was + [newline], |was| + 1) == |was| + 1
  {
  }

  lemma {:induction false} StripKeeps(tokens: seq<Token>, i: nat)
    ensures LineStart(tokens, |tokens|) <= i < |tokens| ==> Strip(tokens)[i] == Some(tokens[i])
  {
    if LineStart(tokens, |tokens|) <= i < |tokens| { UnfinishedKept(tokens, i); }
  }

  /** The indices of white space between `from` and `n`, in order. */
  function Blanks(tokens: seq<Token>, from: nat, n: nat): (r: seq<nat>)
    requires n <= |tokens|
    ensures forall k | 0 <= k < |r| :: from <= r[k] < n
  {
    if n <= from then [] else Blanks(tokens, from, n - 1) + (if IsBlank(tokens[n - 1]) then [n - 1] else [])
  }

  lemma {:induction false} BlanksSnoc(was: seq<Token>, t: Token, from: nat, n: nat)
    requires from <= n <= |was|
    ensures Blanks(was + [t], from, n) == Blanks(was, from, n)
    ensures Blanks(was + [t], from, |was| + 1) == Blanks(was + [t], from, |was|) + if IsBlank(t) then [|was|] else []
  {
    if from < n { BlanksSnoc(was, t, from, n - 1); }
  }

  /** Taking the last index off leaves the indices before it. */
  lemma {:induction false} LastBlank(tokens: seq<Token>, from: nat, n: nat)
    requires n <= |tokens| && Blanks(tokens, from, n) != []
    ensures var all := Blanks(tokens, from, n);
            var i := all[|all| - 1];
            && from <= i < n && IsBlank(tokens[i])
            && all[..|all| - 1] == Blanks(tokens, from, i)
            && forall j | i < j < n :: !IsBlank(tokens[j])
  {
    hide IsBlank;
    if !IsBlank(tokens[n - 1]) {
      assert Blanks(tokens, from, n) == Blanks(tokens, from, n - 1);
      LastBlank(tokens, from, n - 1);
    }
  }

  lemma {:induction false} NoBlanks(tokens: seq<Token>, from: nat, n: nat)
    requires n <= |tokens| && Blanks(tokens, from, n) == []
    ensures forall j | from <= j < n :: !IsBlank(tokens[j])
  {
    hide IsBlank;
    if from < n { NoBlanks(tokens, from, n - 1); }
  }

  /** The current line after one more token, a newline being still part of it. */
  lemma {:induction false} LineGrows(was: seq<Token>, t: Token)
    requires !IsNewline(t)
    ensures LineStart(was + [t], |was| + 1) == LineStart(was, |was|)
  {
    LineStartSnoc(was, t, |was|);
  }

  lemma {:induction false} TagSnoc(line: seq<Token>, t: Token)
    ensures HasTag(line + [t]) == (HasTag(line) || !t.kind.Text?)
    ensures HasSolid(line + [t]) == (HasSolid(line) || IsSolid(t))
  {
    var all := line + [t];
    assert all[|line|] == t;
    forall k | 0 <= k < |line| ensures all[k] == line[k] { }
    if HasTag(line) {
      var k :| 0 <= k < |line| && !line[k].kind.Text?;
      assert !all[k].kind.Text?;
    }
    if HasSolid(line) {
      var k :| 0 <= k < |line| && IsSolid(line[k]);
      assert IsSolid(all[k]);
    }
  }

  /** Where nothing is solid, text is white space. */
  lemma {:induction false} NoneSolid(line: seq<Token>)
    ensures !HasSolid(line) ==> forall k | 0 <= k < |line| :: line[k].kind.Text? <==> IsBlank(line[k])
  {
  }

  lemma {:induction false} EmptyLine(line: seq<Token>)
    ensures line == [] ==> !HasTag(line) && !HasSolid(line)
  {
  }
}
