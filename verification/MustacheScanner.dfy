/** The string scanner of the template parser and the few regular expressions it is used with. */
module MustacheScanner {
  import opened Wrappers

  /** The characters that `\s` matches. */
  predicate IsSpace(c: char) {
    || '\t' <= c <= '\r' || c == ' ' || c == '\U{A0}' || c == '\U{1680}' || '\U{2000}' <= c <= '\U{200A}'
    || c == '\U{2028}' || c == '\U{2029}' || c == '\U{202F}' || c == '\U{205F}' || c == '\U{3000}' || c == '\U{FEFF}'
  }

  /** They are the white space of ECMAScript, Unicode's space separators, the line ends and the byte order mark. */
  lemma {:induction false} SpaceCharacters(c: char)
    ensures IsSpace(c) <==>
              c as int in {0x09, 0x0A, 0x0B, 0x0C, 0x0D, 0x20, 0xA0, 0x1680, 0x2000, 0x2001, 0x2002, 0x2003, 0x2004,
                           0x2005, 0x2006, 0x2007, 0x2008, 0x2009, 0x200A, 0x2028, 0x2029, 0x202F, 0x205F, 0x3000,
                           0xFEFF}
  {
  }

  predicate NoSpace(s: string) { forall k | 0 <= k < |s| :: !IsSpace(s[k]) }

  /** The length of the leading white space. */
  function SpaceRun(s: string): (n: nat)
    ensures n <= |s| && (forall k | 0 <= k < n :: IsSpace(s[k])) && (n < |s| ==> !IsSpace(s[n]))
  {
    if s == "" || !IsSpace(s[0]) then 0 else 1 + SpaceRun(s[1..])
  }

  /** The expressions the parser uses; literals hold no white space. */
  datatype Regex =
    | ThenSpaces(literal: string)  // literal, then \s*
    | SpacesThen(literal: string)  // \s*, then literal
    | OneOf(chars: string)
    | Spaces                       // \s*

  /** How much a match at the start of `s` takes, if there is one. */
  function MatchAt(re: Regex, s: string): (r: Option<nat>)
    ensures r.Some? ==> r.value <= |s|
  {
    match re
    case ThenSpaces(lit) => if lit <= s then Some(|lit| + SpaceRun(s[|lit|..])) else None
    case SpacesThen(lit) => var n := SpaceRun(s); if lit <= s[n..] then Some(n + |lit|) else None
    case OneOf(chars) => if s != "" && s[0] in chars then Some(1) else None
    case Spaces => Some(SpaceRun(s))
  }

  /** The least index at which `re` matches. */
  function Search(re: Regex, s: string): (r: Option<nat>)
    ensures r.Some? ==> r.value <= |s| && MatchAt(re, s[r.value..]).Some?
    ensures r.Some? ==> forall j | 0 <= j < r.value :: MatchAt(re, s[j..]).None?
    ensures r.None? ==> forall j | 0 <= j <= |s| :: MatchAt(re, s[j..]).None?
  {
    hide MatchAt;
    assert s[0..] == s;
    if MatchAt(re, s).Some? then Some(0)
    else if s == "" then None
    else
      assert forall j | 1 <= j <= |s| :: s[j..] == s[1..][j - 1..];
      match Search(re, s[1..])
      case None => None
      case Some(i) => Some(i + 1)
  }

  /** What `scan` takes: a match at the start, or nothing. */
  function ScanText(re: Regex, s: string): (r: string)
    ensures r <= s
  {
    match MatchAt(re, s)
    case None => ""
    case Some(n) => s[..n]
  }

  /** What `scanUntil` takes: everything before the first match, or all there is. */
  function UntilText(re: Regex, s: string): (r: string)
    ensures r <= s
  {
    match Search(re, s)
    case None => s
    case Some(i) => s[..i]
  }

  lemma {:induction false} DropDrop(s: string, a: nat, b: nat)
    requires a + b <= |s|
    ensures s[a..][b..] == s[a + b..]
  {
  }

  class Scanner {
    const text: string
    var tail: string
    var pos: nat

    ghost predicate Valid()
      reads this
    {
      pos <= |text| && tail == text[pos..]
    }

    constructor (text: string)
      ensures Valid() && this.text == text && tail == text && pos == 0
    {
      this.text, tail, pos := text, text, 0;
    }

    predicate Eos()
      reads this
    {
      tail == ""
    }

    /** Takes a match at the current position. */
    method Scan(re: Regex) returns (r: string)
      requires Valid()
      modifies this
      ensures Valid() && r == ScanText(re, old(tail)) && tail == old(tail)[|r|..] && pos == old(pos) + |r|
    {
      hide SpaceRun;
      DropDrop(text, pos, |ScanText(re, tail)|);
      var m := MatchAt(re, tail);
      if m.None? {
        return "";
      }
      r := tail[..m.value];
      tail := tail[|r|..];
      pos := pos + |r|;
    }

    /** Takes everything up to the next match. */
    method ScanUntil(re: Regex) returns (r: string)
      requires Valid()
      modifies this
      ensures Valid() && r == UntilText(re, old(tail)) && tail == old(tail)[|r|..] && pos == old(pos) + |r|
    {
      hide MatchAt;
      var index := Search(re, tail);
      DropDrop(text, pos, |UntilText(re, tail)|);
      match index {
        case None =>
          r := tail;
          tail := "";
        case Some(i) =>
          if i == 0 {
            r := "";
          } else {
            r := tail[..i];
            tail := tail[i..];
          }
      }
      pos := pos + |r|;
    }
  }
}
