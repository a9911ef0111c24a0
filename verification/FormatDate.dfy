/** Formats a date by replacing letter patterns in a text until none is left. */
module FormatDate {

  /** A point in time as the host splits it up; month counts from 0. */
  datatype DateParts =
    | Invalid
    | Valid(fullYear: int, month: int, day: int, hours: int, minutes: int, seconds: int)

  type Date = d: DateParts | InCalendar(d) witness Invalid

  predicate InCalendar(d: DateParts) {
    d.Valid? ==>
      && 0 <= d.month < 12 && 1 <= d.day <= 31
      && 0 <= d.hours < 24 && 0 <= d.minutes < 60 && 0 <= d.seconds < 60
  }

  // ---------- numbers as text ----------

  predicate NumberLike(s: string) {
    s != [] && forall i | 0 <= i < |s| :: s[i] == '-' || '0' <= s[i] <= '9'
  }

  function Digits(n: nat): (s: string)
    ensures NumberLike(s)
  {
    if n < 10 then [(n as char) + '0'] else Digits(n / 10) + [((n % 10) as char) + '0']
  }

  function Decimal(n: int): (s: string)
    ensures NumberLike(s)
  {
    if n < 0 then "-" + Digits(-n) else Digits(n)
  }

  function TwoDigits(n: nat): (s: string)
    ensures NumberLike(s)
  {
    if n < 10 then "0" + Decimal(n) else Decimal(n)
  }

  /** The number that a row of digits stands for. */
  function Number(s: string): int {
    if s == [] then 0 else 10 * Number(s[..|s| - 1]) + (s[|s| - 1] as int - '0' as int)
  }

  lemma {:induction false} DigitsAreTheNumber(n: nat)
    ensures Number(Digits(n)) == n
  {
    if n >= 10 {
      DigitsAreTheNumber(n / 10);
      var last := [((n % 10) as char) + '0'];
      assert (Digits(n / 10) + last)[..|Digits(n / 10)|] == Digits(n / 10);
    } else {
      assert Number(Digits(n)[..0]) == 0;
    }
  }

  // ---------- patterns ----------

  /** In the order in which they are tried. */
  const PATTERNS: seq<string> := ["yyyy", "yy", "MM", "dd", "HH", "hh", "mm", "ss", "a"]

  predicate IsPattern(p: string) {
    p == "yyyy" || p == "yy" || p == "MM" || p == "dd" || p == "HH" || p == "hh" || p == "mm" || p == "ss" || p == "a"
  }

  /** What a pattern becomes. Every comparison with a part of an invalid date fails. */
  function Replacement(p: string, d: Date): string {
    if d.Invalid? then
      if p == "yyyy" || p == "yy" then "NaN" else ""
    else if p == "yyyy" then Decimal(d.fullYear)
    else if p == "yy" then Decimal(d.fullYear - 1900)
    else if p == "MM" then TwoDigits(d.month + 1)
    else if p == "dd" then TwoDigits(d.day)
    else if p == "HH" then TwoDigits(d.hours)
    else if p == "hh" then if d.hours < 10 then "0" + Decimal(d.hours % 12) else Decimal(d.hours % 12)
    else if p == "mm" then TwoDigits(d.minutes)
    else if p == "ss" then TwoDigits(d.seconds)
    else if p == "a" then if d.hours < 12 then "AM" else "PM"
    else ""
  }

  lemma {:induction false} DigitCount(n: nat)
    requires n < 100
    ensures |Digits(n)| == if n < 10 then 1 else 2
  {
    if n >= 10 {
      assert |Digits(n / 10)| == 1;
    }
  }

  lemma {:induction false} LeadingZero(s: string)
    ensures Number("0" + s) == Number(s)
  {
    if s == "" {
      assert "0"[..0] == "";
    } else {
      var front := s[..|s| - 1];
      assert ("0" + s)[..|s|] == "0" + front;
      LeadingZero(front);
    }
  }

  lemma {:induction false} TwoDigitsShow(n: nat)
    requires n < 100
    ensures |TwoDigits(n)| == 2 && Number(TwoDigits(n)) == n
  {
    hide Digits, Number;
    DigitCount(n);
    DigitsAreTheNumber(n);
    LeadingZero(Digits(n));
  }

  /** The number that a row of digits with or without a sign stands for. */
  function Signed(s: string): int { if s != "" && s[0] == '-' then -Number(s[1..]) else Number(s) }

  lemma {:induction false} FirstDigit(n: nat)
    ensures Digits(n)[0] != '-'
  {
    if n >= 10 { FirstDigit(n / 10); }
  }

  lemma {:induction false} DecimalIsTheNumber(n: int)
    ensures Signed(Decimal(n)) == n
  {
    hide Digits, Number;
    if n < 0 {
      DigitsAreTheNumber(-n);
      assert ("-" + Digits(-n))[1..] == Digits(-n);
    } else {
      DigitsAreTheNumber(n);
      FirstDigit(n);
    }
  }

  /** A number is written without superfluous zeros. */
  lemma {:induction false} NoLeadingZero(n: nat)
    ensures Digits(n)[0] == '0' <==> n == 0
    ensures n < 10 ==> |Digits(n)| == 1
  {
    if n >= 10 { NoLeadingZero(n / 10); }
  }

  /** Each field reads back as the part of the date it stands for, with two digits where that is promised. */
  lemma {:induction false} FieldsShowTheDate(d: Date)
    requires d.Valid?
    ensures Signed(Replacement("yyyy", d)) == d.fullYear
    ensures d.fullYear > 0 ==> Replacement("yyyy", d)[0] !in "-0"
    ensures d.fullYear == 0 ==> Replacement("yyyy", d) == "0"
    ensures d.fullYear < 0 ==> Replacement("yyyy", d)[0] == '-' && Replacement("yyyy", d)[1] !in "-0"
    ensures Signed(Replacement("yy", d)) == d.fullYear - 1900
    ensures var m := Replacement("MM", d); |m| == 2 && Number(m) == d.month + 1
    ensures var day := Replacement("dd", d); |day| == 2 && Number(day) == d.day
    ensures var h := Replacement("HH", d); |h| == 2 && Number(h) == d.hours
    ensures var m := Replacement("mm", d); |m| == 2 && Number(m) == d.minutes
    ensures var s := Replacement("ss", d); |s| == 2 && Number(s) == d.seconds
  {
    hide TwoDigits, Digits, Signed, Number;
    YearIsPlain(d.fullYear);
    DecimalIsTheNumber(d.fullYear);
    DecimalIsTheNumber(d.fullYear - 1900);
    TwoDigitsShow(d.month + 1);
    TwoDigitsShow(d.day);
    TwoDigitsShow(d.hours);
    TwoDigitsShow(d.minutes);
    TwoDigitsShow(d.seconds);
  }

  lemma {:induction false} YearIsPlain(n: int)
    ensures n > 0 ==> Decimal(n)[0] !in "-0"
    ensures n == 0 ==> Decimal(n) == "0"
    ensures n < 0 ==> |Decimal(n)| > 1 && Decimal(n)[0] == '-' && Decimal(n)[1] !in "-0"
  {
    var m := if n < 0 then -n else n;
    NoLeadingZero(m);
    FirstDigit(m);
  }

  /**
   * The 12-hour field with its marker tells the hour, noon and midnight being 0. It is two
   * characters wide except from noon until ten at night.
   */
  lemma {:induction false} TwelveHourField(d: Date)
    requires d.Valid?
    ensures Replacement("a", d) == if d.hours < 12 then "AM" else "PM"
    ensures var h := Replacement("hh", d);
            && Number(h) + (if Replacement("a", d) == "PM" then 12 else 0) == d.hours
            && (|h| == 2 <==> !(12 <= d.hours < 22))
  {
    hide Digits, Number;
    DigitCount(d.hours % 12);
    DigitsAreTheNumber(d.hours % 12);
    LeadingZero(Digits(d.hours % 12));
    assert d.hours < 12 ==> d.hours % 12 == d.hours;
    assert d.hours >= 12 ==> d.hours % 12 == d.hours - 12;
  }

  // ---------- searching ----------

  predicate At(r: string, p: string, i: int) {
    0 <= i <= |r| - |p| && r[i..i + |p|] == p
  }

  predicate Occurs(r: string, p: string) {
    exists i | 0 <= i <= |r| :: At(r, p, i)
  }

  /** The least index at which p occurs from the given one on, or -1. */
  function IndexOf(r: string, p: string, from: nat): (i: int)
    ensures i == -1 || (i >= from && At(r, p, i))
    ensures forall j | from <= j && (i == -1 || j < i) :: !At(r, p, j)
    decreases |r| - from
  {
    if from > |r| then -1
    else if At(r, p, from) then from
    else IndexOf(r, p, from + 1)
  }

  // ---------- termination ----------

  function LetterWeight(c: char): nat {
    if c == 'a' || c == 'y' then 2
    else if c == 'M' || c == 'd' || c == 'H' || c == 'h' || c == 'm' || c == 's' then 1
    else 0
  }

  function Weight(s: string): nat {
    if s == [] then 0 else LetterWeight(s[0]) + Weight(s[1..])
  }

  lemma {:induction false} WeightOfConcat(s: string, t: string)
    ensures Weight(s + t) == Weight(s) + Weight(t)
  {
    if s == [] {
      assert s + t == t;
    } else {
      WeightOfConcat(s[1..], t);
      assert (s + t)[1..] == s[1..] + t;
    }
  }

  lemma {:induction false} NumbersWeighNothing(s: string)
    requires s == [] || NumberLike(s)
    ensures Weight(s) == 0
  {
    if s != [] {
      NumbersWeighNothing(s[1..]);
    }
  }

  /** Every pattern outweighs what replaces it, on valid and invalid dates. */
  lemma {:induction false} ReplacementIsLighter(p: string, d: Date)
    requires IsPattern(p)
    ensures Weight(Replacement(p, d)) < Weight(p)
  {
    PatternWeight(p);
    if p == "a" || d.Invalid? {
      ShortWeights();
    } else {
      ValuesAreNumbers(p, d);
      NumbersWeighNothing(Replacement(p, d));
    }
  }

  lemma {:induction false} PatternWeight(p: string)
    requires IsPattern(p)
    ensures Weight(p) >= if p == "yyyy" || p == "yy" then 4 else 2
  {
    assert Weight(p) == LetterWeight(p[0]) + Weight(p[1..]);
    if |p| > 1 {
      assert Weight(p[1..]) == LetterWeight(p[1..][0]) + Weight(p[1..][1..]);
    }
  }

  lemma {:induction false} ShortWeights()
    ensures Weight("") == 0 && Weight("NaN") == 2 && Weight("AM") == 1 && Weight("PM") == 1
  {
    assert "NaN"[1..] == "aN" && "aN"[1..] == "N" && "N"[1..] == "";
    assert "AM"[1..] == "M" && "PM"[1..] == "M" && "M"[1..] == "";
  }

  lemma {:induction false} ValuesAreNumbers(p: string, d: Date)
    requires IsPattern(p) && p != "a" && d.Valid?
    ensures NumberLike(Replacement(p, d))
  {
  }

  // ---------- rewriting until nothing changes ----------

  /** The first pattern, from position k of the list on, that occurs; |PATTERNS| if none does. */
  function FirstPattern(r: string, k: nat): (i: nat)
    requires k <= |PATTERNS|
    ensures k <= i <= |PATTERNS|
    ensures i < |PATTERNS| ==> IndexOf(r, PATTERNS[i], 0) != -1
    ensures forall j | k <= j < i :: IndexOf(r, PATTERNS[j], 0) == -1
    decreases |PATTERNS| - k
  {
    if k == |PATTERNS| || IndexOf(r, PATTERNS[k], 0) != -1 then k else FirstPattern(r, k + 1)
  }

  function Splice(r: string, at: int, p: string, v: string): string
    requires At(r, p, at)
  {
    r[..at] + v + r[at + |p|..]
  }

  /** One round: the first pattern of the list that occurs, replaced where it first occurs. */
  function Rewrite(r: string, d: Date): (t: string)
    requires FirstPattern(r, 0) < |PATTERNS|
    ensures Weight(t) < Weight(r)
  {
    var p := PATTERNS[FirstPattern(r, 0)];
    var at := IndexOf(r, p, 0);
    SpliceIsLighter(r, at, p, d);
    Splice(r, at, p, Replacement(p, d))
  }

  lemma {:induction false} SpliceIsLighter(r: string, at: int, p: string, d: Date)
    requires At(r, p, at) && IsPattern(p)
    ensures Weight(Splice(r, at, p, Replacement(p, d))) < Weight(r)
  {
    hide Replacement, IsPattern, Weight;
    var u, v, w := r[..at], Replacement(p, d), r[at + |p|..];
    assert r == u + p + w;
    ReplacementIsLighter(p, d);
    WeightOfConcat(u + p, w);
    WeightOfConcat(u, p);
    WeightOfConcat(u + v, w);
    WeightOfConcat(u, v);
  }

  /** What the loop ends with. It ends for every pattern text and every date, invalid ones included. */
  function Fix(r: string, d: Date): string
    decreases Weight(r)
  {
    if FirstPattern(r, 0) == |PATTERNS| then r else Fix(Rewrite(r, d), d)
  }

  /** No pattern is left in the result, whatever the date; not even the `a` of the "NaN" for an invalid year. */
  lemma {:induction false} FixIsNormal(r: string, d: Date, p: string)
    requires IsPattern(p)
    ensures !Occurs(Fix(r, d), p)
    decreases Weight(r)
  {
    hide Rewrite, IndexOf, Weight;
    if FirstPattern(r, 0) == |PATTERNS| {
      var k :| 0 <= k < |PATTERNS| && PATTERNS[k] == p;
      assert IndexOf(r, PATTERNS[k], 0) == -1;
      forall j ensures !At(r, p, j) { }
    } else {
      FixIsNormal(Rewrite(r, d), d, p);
    }
  }

  // ---------- the code ----------

  /** The chain of comparisons that picks the text for a pattern. */
  method PatternText(p: string, d: Date) returns (v: string)
    ensures v == Replacement(p, d)
  {
    v := "";
    if p == "yyyy" {
      v := if d.Valid? then Decimal(d.fullYear) else "NaN";
    } else if p == "yy" {
      v := if d.Valid? then Decimal(d.fullYear - 1900) else "NaN";
    } else if p == "MM" && d.Valid? && d.month < 9 {
      v := "0" + Decimal(d.month + 1);
    } else if p == "MM" && d.Valid? && d.month >= 9 {
      v := Decimal(d.month + 1);
    } else if p == "dd" && d.Valid? && d.day < 10 {
      v := "0" + Decimal(d.day);
    } else if p == "dd" && d.Valid? && d.day >= 10 {
      v := Decimal(d.day);
    } else if p == "HH" && d.Valid? && d.hours < 10 {
      v := "0" + Decimal(d.hours);
    } else if p == "HH" && d.Valid? && d.hours >= 10 {
      v := Decimal(d.hours);
    } else if p == "hh" && d.Valid? && d.hours < 10 {
      v := "0" + Decimal(d.hours % 12);
    } else if p == "hh" && d.Valid? && d.hours >= 10 {
      v := Decimal(d.hours % 12);
    } else if p == "mm" && d.Valid? && d.minutes < 10 {
      v := "0" + Decimal(d.minutes);
    } else if p == "mm" && d.Valid? && d.minutes >= 10 {
      v := Decimal(d.minutes);
    } else if p == "ss" && d.Valid? && d.seconds < 10 {
      v := "0" + Decimal(d.seconds);
    } else if p == "ss" && d.Valid? && d.seconds >= 10 {
      v := Decimal(d.seconds);
    } else if p == "a" && d.Valid? && d.hours < 12 {
      v := "AM";
    } else if p == "a" && d.Valid? && d.hours >= 12 {
      v := "PM";
    }
  }

  /** Text without a bar is returned as it is; otherwise the date stands before it and the pattern after it. */
  method FormatDate(s: string, parse: string -> Date) returns (r: string)
    ensures '|' !in s ==> r == s
    ensures forall index | 0 <= index < |s| && s[index] == '|' && '|' !in s[..index] ::
              r == Fix(s[index + 1..], parse(s[..index]))
  {
    hide Fix, IndexOf, At;
    var bar := IndexOf(s, "|", 0);
    if bar == -1 {
      NoBar(s);
      return s;
    }
    FirstBar(s, bar);
    r := RewriteAll(s[bar + 1..], parse(s[..bar]));
  }

  lemma {:induction false} NoBar(s: string)
    requires IndexOf(s, "|", 0) == -1
    ensures '|' !in s
  {
    forall i | 0 <= i < |s| ensures s[i] != '|' {
      assert !At(s, "|", i);
      assert s[i..i + 1] == [s[i]];
    }
  }

  lemma {:induction false} FirstBar(s: string, bar: int)
    requires bar == IndexOf(s, "|", 0) && bar != -1
    ensures 0 <= bar < |s| && s[bar] == '|' && '|' !in s[..bar]
  {
    assert s[bar..bar + 1] == [s[bar]];
    forall i | 0 <= i < bar ensures s[i] != '|' {
      assert !At(s, "|", i);
      assert s[i..i + 1] == [s[i]];
    }
  }

  /** The loop that goes on as long as a round has changed something. */
  method RewriteAll(pattern: string, d: Date) returns (r: string)
    ensures r == Fix(pattern, d)
  {
    hide Weight, FirstPattern, Rewrite;
    r := pattern;
    var hasChange := true;
    while hasChange
      invariant Fix(r, d) == Fix(pattern, d)
      invariant !hasChange ==> FirstPattern(r, 0) == |PATTERNS|
      decreases hasChange, Weight(r)
    {
      r, hasChange := RewriteOnce(r, d);
    }
  }

  /** The loop over the pattern list, left at the first pattern that occurs. */
  method RewriteOnce(text: string, d: Date) returns (r: string, hasChange: bool)
    ensures hasChange == (FirstPattern(text, 0) < |PATTERNS|)
    ensures r == if hasChange then Rewrite(text, d) else text
  {
    hide Weight, IndexOf, Replacement, FirstPattern;
    r, hasChange := text, false;
    var i := 0;
    FirstPatternEnd(text);
    while !hasChange && i < |PATTERNS|
      invariant 0 <= i <= |PATTERNS|
      invariant !hasChange ==> r == text && FirstPattern(text, 0) == FirstPattern(text, i)
      invariant hasChange ==> FirstPattern(text, 0) < |PATTERNS| && r == Rewrite(text, d)
    {
      var p := PATTERNS[i];
      var index := IndexOf(r, p, 0);
      FirstPatternStep(r, i);
      if index > -1 {
        hasChange := true;
        var v := PatternText(p, d);
        r := r[..index] + v + r[index + |p|..];
      }
      i := i + 1;
    }
  }

  lemma {:induction false} FirstPatternStep(r: string, k: nat)
    requires k < |PATTERNS|
    ensures FirstPattern(r, k) == if IndexOf(r, PATTERNS[k], 0) != -1 then k else FirstPattern(r, k + 1)
  {
    hide IndexOf;
  }

  lemma {:induction false} FirstPatternEnd(r: string)
    ensures FirstPattern(r, |PATTERNS|) == |PATTERNS|
  {
    hide IndexOf;
  }

  // ---------- one pass from left to right ----------

  predicate Doubles(c: char) {
    c == 'y' || c == 'M' || c == 'd' || c == 'H' || c == 'h' || c == 'm' || c == 's'
  }

  /** The longest pattern that the text starts with, or nothing. */
  function Longest(r: string): (p: string)
    ensures p <= r
  {
    if "yyyy" <= r then "yyyy"
    else if |r| >= 2 && r[0] == r[1] && Doubles(r[0]) then r[..2]
    else if "a" <= r then "a"
    else ""
  }

  lemma {:induction false} LongestIsLongest(r: string)
    ensures Longest(r) == "" || IsPattern(Longest(r))
    ensures forall p | IsPattern(p) && p <= r :: |p| <= |Longest(r)|
  {
  }

  /** Each letter is read once, and nothing that was put in is read again. */
  function OnePass(r: string, d: Date): string {
    var p := Longest(r);
    if r == "" then ""
    else if p == "" then [r[0]] + OnePass(r[1..], d)
    else Replacement(p, d) + OnePass(r[|p|..], d)
  }

  /** No pattern reaches across the seam. */
  predicate Apart(u: string, w: string) {
    u == "" || w == "" || u[|u| - 1] != w[0] || !Doubles(w[0])
  }

  lemma {:induction false} StartsWithYear(r: string)
    ensures "yyyy" <= r <==> |r| >= 4 && r[0] == 'y' && r[1] == 'y' && r[2] == 'y' && r[3] == 'y'
  {
    var year := "yyyy";
    assert year[0] == 'y' && year[1] == 'y' && year[2] == 'y' && year[3] == 'y';
  }

  lemma {:induction false} StartsWithYy(r: string)
    ensures "yy" <= r <==> |r| >= 2 && r[0] == 'y' && r[1] == 'y'
  {
    var yy := "yy";
    assert yy[0] == 'y' && yy[1] == 'y';
  }

  lemma {:induction false} LongestBeforeSeam(u: string, w: string)
    requires Apart(u, w) && u != ""
    ensures Longest(u + w) == Longest(u)
  {
    var r := u + w;
    StartsWithYear(r);
    StartsWithYear(u);
    assert forall i | 0 <= i < |u| :: r[i] == u[i];
  }

  /** How many letters the pass reads at once, and what it puts out for them. */
  function Taken(r: string): (n: nat)
    requires r != ""
    ensures 0 < n <= |r|
  {
    if Longest(r) == "" then 1 else |Longest(r)|
  }

  function Put(r: string, d: Date): string
    requires r != ""
  {
    if Longest(r) == "" then [r[0]] else Replacement(Longest(r), d)
  }

  lemma {:induction false} OnePassBegins(r: string, d: Date)
    requires r != ""
    ensures OnePass(r, d) == Put(r, d) + OnePass(r[Taken(r)..], d)
  {
    hide Replacement, Longest;
  }

  lemma {:induction false} NothingPasses(d: Date)
    ensures OnePass("", d) == ""
  {
  }

  lemma {:induction false} OnePassSplits(u: string, w: string, d: Date)
    requires Apart(u, w)
    ensures OnePass(u + w, d) == OnePass(u, d) + OnePass(w, d)
    decreases |u|
  {
    hide Replacement, Longest, Apart, OnePass;
    if u == "" {
      assert u + w == w;
      NothingPasses(d);
    } else {
      LongestBeforeSeam(u, w);
      var n := Taken(u);
      assert (u + w)[n..] == u[n..] + w && (u + w)[0] == u[0];
      OnePassBegins(u, d);
      OnePassBegins(u + w, d);
      ApartSuffix(u, w, n);
      OnePassSplits(u[n..], w, d);
    }
  }

  lemma {:induction false} ApartSuffix(u: string, w: string, n: nat)
    requires Apart(u, w) && n <= |u|
    ensures Apart(u[n..], w)
  {
  }

  lemma {:induction false} NumbersPass(s: string, d: Date)
    requires s == "" || NumberLike(s)
    ensures OnePass(s, d) == s
  {
    hide Replacement;
    if s != "" {
      assert Longest(s) == "";
      NumbersPass(s[1..], d);
    }
  }

  lemma {:induction false} MarkerPasses(v: string, d: Date)
    requires v == "AM" || v == "PM"
    ensures OnePass(v, d) == v && OnePass("M", d) == "M"
  {
    hide Replacement;
    assert v[1..] == "M" && "M"[1..] == "";
    assert Longest(v) == "" && Longest("M") == "";
    assert OnePass("", d) == "";
    assert OnePass("M", d) == ['M'] + OnePass("M"[1..], d);
    assert OnePass(v, d) == [v[0]] + OnePass(v[1..], d);
  }

  /** What replaces a pattern passes unchanged; it begins with no letter of a pattern. */
  lemma {:induction false} ReplacementPasses(p: string, d: Date)
    requires IsPattern(p) && d.Valid?
    ensures var v := Replacement(p, d);
            && v != "" && OnePass(v, d) == v
            && v[0] != 'M' && !Doubles(v[0])
            && (Doubles(v[|v| - 1]) ==> p == "a" && v[|v| - 1] == 'M')
            && 'a' !in v
  {
    var v := Replacement(p, d);
    if p == "a" {
      MarkerPasses(v, d);
    } else {
      ValuesAreNumbers(p, d);
      NumbersPass(v, d);
    }
  }

  // ---------- when the two agree ----------

  /** An 'a' followed by exactly one 'M'. */
  predicate LoneM(s: string, i: int) {
    0 <= i < |s| - 1 && s[i] == 'a' && s[i + 1] == 'M' && (i + 2 == |s| || s[i + 2] != 'M')
  }

  predicate NoLoneM(s: string) {
    forall i | 0 <= i < |s| :: !LoneM(s, i)
  }

  /** The text u + p + w, where p is what the next round replaces. */
  predicate NextRound(u: string, p: string, w: string) {
    && IsPattern(p)
    && Apart(u, p)
    && (p == "yy" ==> !("yy" <= w))
    && (p == "a" ==> w == "" || w[0] != 'M')
  }

  lemma {:induction false} RoundKeepsOnePass(u: string, p: string, w: string, d: Date)
    requires NextRound(u, p, w) && d.Valid?
    ensures OnePass(u + Replacement(p, d) + w, d) == OnePass(u + p + w, d)
  {
    hide Replacement, OnePass;
    var v := Replacement(p, d);
    ReplacementPasses(p, d);
    assert u + p + w == u + (p + w) && u + v + w == u + (v + w);
    assert Apart(u, p + w) && Apart(u, v + w) && Apart(v, w);
    OnePassSplits(u, p + w, d);
    OnePassSplits(u, v + w, d);
    OnePassSplits(v, w, d);
    PatternInFront(p, w, d);
  }

  lemma {:induction false} PatternInFront(p: string, w: string, d: Date)
    requires IsPattern(p) && (p == "yy" ==> !("yy" <= w))
    ensures OnePass(p + w, d) == Replacement(p, d) + OnePass(w, d)
  {
    hide Replacement;
    LongestInFront(p, w);
    assert (p + w)[|p|..] == w;
  }

  lemma {:induction false} LongestInFront(p: string, w: string)
    requires IsPattern(p) && (p == "yy" ==> !("yy" <= w))
    ensures Longest(p + w) == p
  {
    var r := p + w;
    assert forall i | 0 <= i < |p| :: r[i] == p[i];
    StartsWithYear(r);
    assert r[..|p|] == p;
    StartsWithYy(w);
  }

  lemma {:induction false} RoundKeepsNoLoneM(u: string, p: string, w: string, d: Date)
    requires NextRound(u, p, w) && d.Valid? && NoLoneM(u + p + w)
    ensures NoLoneM(u + Replacement(p, d) + w)
  {
    hide Replacement, OnePass, LoneM;
    var v := Replacement(p, d);
    ReplacementPasses(p, d);
    forall i | 0 <= i < |u + v + w| ensures !LoneM(u + v + w, i) {
      if i < |u| {
        LoneMBefore(u, p, v, w, i);
      } else {
        LoneMAfter(u, p, v, w, i);
      }
    }
  }

  lemma {:induction false} LoneMBefore(u: string, p: string, v: string, w: string, i: nat)
    requires i < |u| && p != "" && v != "" && v[0] != 'M' && !(p[0] == 'M' && u[|u| - 1] == 'M')
    ensures LoneM(u + v + w, i) ==> LoneM(u + p + w, i)
  {
    var r, t := u + p + w, u + v + w;
    assert r[|u|] == p[0] && t[|u|] == v[0];
    assert forall k | 0 <= k < |u| :: r[k] == u[k] == t[k];
  }

  lemma {:induction false} LoneMAfter(u: string, p: string, v: string, w: string, i: nat)
    requires i >= |u| && 'a' !in v
    ensures LoneM(u + v + w, i) ==> LoneM(u + p + w, i - |v| + |p|)
  {
    if i < |u| + |v| {
      assert (u + v + w)[i] == v[i - |u|];
    } else {
      LoneMInSuffix(u + v, w, i - |u| - |v|);
      LoneMInSuffix(u + p, w, i - |u| - |v|);
    }
  }

  lemma {:induction false} LoneMInSuffix(x: string, w: string, j: nat)
    ensures LoneM(x + w, |x| + j) <==> LoneM(w, j)
  {
    assert forall k | 0 <= k < |w| :: (x + w)[|x| + k] == w[k];
  }

  /** What the next round replaces, and where. */
  lemma {:induction false} NextRoundOf(r: string, d: Date) returns (u: string, p: string, w: string)
    requires NoLoneM(r) && FirstPattern(r, 0) < |PATTERNS|
    ensures NextRound(u, p, w) && r == u + p + w && Rewrite(r, d) == u + Replacement(p, d) + w
  {
    hide Replacement, Weight, IsPattern, NoLoneM, FirstPattern, At;
    var k := FirstPattern(r, 0);
    p := PATTERNS[k];
    var at := IndexOf(r, p, 0);
    CutOut(r, p, at);
    u, w := r[..at], r[at + |p|..];
    EarlierPatternsAbsent(r);
    LeftmostIsApart(r, p, at);
    if p == "yy" {
      YearAt(r, at);
      assert !At(r, "yyyy", at);
    }
    if p == "a" {
      MarkerWithoutM(r, at);
    }
  }

  lemma {:induction false} CutOut(r: string, p: string, at: int)
    requires At(r, p, at)
    ensures 0 <= at <= |r| - |p| && r == r[..at] + p + r[at + |p|..]
    ensures forall v :: Splice(r, at, p, v) == r[..at] + v + r[at + |p|..]
  {
    assert r == r[..at] + r[at..at + |p|] + r[at + |p|..];
  }

  lemma {:induction false} EarlierPatternsAbsent(r: string)
    requires FirstPattern(r, 0) < |PATTERNS|
    ensures var p := PATTERNS[FirstPattern(r, 0)];
            && IsPattern(p)
            && (p == "yy" ==> forall i :: !At(r, "yyyy", i))
            && (p == "a" ==> !Occurs(r, "MM"))
  {
    hide FirstPattern, IndexOf, At;
    assert PATTERNS[0] == "yyyy" && PATTERNS[2] == "MM";
    var k := FirstPattern(r, 0);
    if k > 0 {
      AbsentIs(r, PATTERNS[0]);
    }
    if k > 2 {
      AbsentIs(r, PATTERNS[2]);
    }
  }

  lemma {:induction false} AbsentIs(r: string, p: string)
    requires IndexOf(r, p, 0) == -1
    ensures forall i :: !At(r, p, i)
  {
    forall i ensures !At(r, p, i) {
      assert 0 <= i || !At(r, p, i);
    }
  }

  lemma {:induction false} LeftmostIsApart(r: string, p: string, at: int)
    requires IsPattern(p) && at == IndexOf(r, p, 0) && at != -1
    ensures Apart(r[..at], p)
  {
    if at > 0 {
      StepBack(r, p, at);
      assert !At(r, p, at - 1);
    }
  }

  lemma {:induction false} StepBack(r: string, p: string, at: int)
    requires IsPattern(p) && At(r, p, at) && at > 0
    ensures r[at - 1] == p[0] && |p| > 1 ==> At(r, p, at - 1)
  {
    var here := r[at..at + |p|];
    assert forall i | 0 <= i < |p| :: p[i] == p[0];
    if r[at - 1] == p[0] {
      var t := r[at - 1..at - 1 + |p|];
      forall i | 0 <= i < |p| ensures t[i] == p[i] {
        assert i > 0 ==> r[at - 1 + i] == here[i - 1];
      }
      assert t == p;
    }
  }

  lemma {:induction false} YearAt(r: string, at: int)
    requires At(r, "yy", at)
    ensures "yy" <= r[at + 2..] ==> At(r, "yyyy", at)
  {
    var here, rest := r[at..at + 2], r[at + 2..];
    assert here[0] == 'y' && here[1] == 'y';
    if "yy" <= rest {
      assert rest[..2] == "yy" && rest[0] == 'y' && rest[1] == 'y';
      assert r[at..at + 4] == "yyyy";
    }
  }

  lemma {:induction false} TwoMsAt(r: string, i: int)
    requires 0 <= i < |r| - 1 && r[i] == 'M' && r[i + 1] == 'M'
    ensures At(r, "MM", i)
  {
    assert r[i..i + 2] == "MM";
  }

  lemma {:induction false} MarkerWithoutM(r: string, at: int)
    requires At(r, "a", at) && !Occurs(r, "MM") && NoLoneM(r)
    ensures at + 1 == |r| || r[at + 1] != 'M'
  {
    var here := r[at..at + 1];
    assert here[0] == 'a';
    assert !LoneM(r, at);
    forall i | 0 <= i < |r| - 1 && r[i] == 'M' ensures r[i + 1] != 'M' {
      if r[i + 1] == 'M' {
        TwoMsAt(r, i);
      }
    }
  }

  lemma {:induction false} FixIsOnePass(r: string, d: Date)
    requires d.Valid? && NoLoneM(r)
    ensures Fix(r, d) == OnePass(r, d)
    decreases Weight(r)
  {
    hide Rewrite, Replacement, IndexOf, Weight, NextRound, NoLoneM;
    if FirstPattern(r, 0) == |PATTERNS| {
      NormalPasses(r, d);
    } else {
      var u, p, w := NextRoundOf(r, d);
      RoundKeepsOnePass(u, p, w, d);
      RoundKeepsNoLoneM(u, p, w, d);
      FixIsOnePass(Rewrite(r, d), d);
    }
  }

  lemma {:induction false} NormalPasses(r: string, d: Date)
    requires FirstPattern(r, 0) == |PATTERNS|
    ensures OnePass(r, d) == r
  {
    hide OnePass, FirstPattern;
    forall p, i | IsPattern(p) ensures !At(r, p, i) {
      FixIsNormal(r, d, p);
      assert !Occurs(r, p) by { assert Fix(r, d) == r; }
    }
    PlainPasses(r, d);
  }

  lemma {:induction false} PlainPasses(r: string, d: Date)
    requires forall p, i | IsPattern(p) :: !At(r, p, i)
    ensures OnePass(r, d) == r
  {
    hide Replacement, IsPattern;
    if r != "" {
      LongestIsLongest(r);
      var p := Longest(r);
      assert !At(r, p, 0) || p == "";
      forall q, i | IsPattern(q) ensures !At(r[1..], q, i) {
        AtInTail(r, q, i);
      }
      PlainPasses(r[1..], d);
    }
  }

  lemma {:induction false} AtInTail(r: string, q: string, i: int)
    requires r != ""
    ensures At(r[1..], q, i) ==> At(r, q, i + 1)
  {
    if At(r[1..], q, i) {
      assert r[i + 1..i + 1 + |q|] == r[1..][i..i + |q|];
    }
  }

  /** A lone M meets the M of the AM or PM before it. */
  lemma {:induction false} LoneMLeavesPattern(r: string, i: int, d: Date)
    requires d.Valid? && LoneM(r, i)
    ensures Occurs(OnePass(r, d), "MM")
  {
    hide OnePass;
    var u, w := r[..i], r[i + 2..];
    assert r == u + ("a" + ("M" + w));
    OnePassSplits(u, "a" + ("M" + w), d);
    PatternInFront("a", "M" + w, d);
    OnePassSplits("M", w, d);
    MarkerPasses("AM", d);
    MeetingMs(OnePass(u, d), Replacement("a", d), OnePass(w, d));
  }

  lemma {:induction false} MeetingMs(x: string, v: string, y: string)
    requires v == "AM" || v == "PM"
    ensures Occurs(x + (v + ("M" + y)), "MM")
  {
    var t := x + (v + ("M" + y));
    assert t[|x| + 1..|x| + 3] == "MM";
    assert At(t, "MM", |x| + 1);
  }

  /** For a valid date the loop equals one pass exactly when no 'a' is followed by a lone 'M'. */
  lemma {:induction false} FixIsOnePassExactly(r: string, d: Date)
    requires d.Valid?
    ensures Fix(r, d) == OnePass(r, d) <==> NoLoneM(r)
  {
    hide Fix, OnePass, LoneM;
    if NoLoneM(r) {
      FixIsOnePass(r, d);
    } else {
      var i :| LoneM(r, i);
      LoneMLeavesPattern(r, i, d);
      FixIsNormal(r, d, "MM");
    }
  }

  // ---------- invalid dates ----------

  lemma {:induction false} NothingToDo(r: string, d: Date)
    requires forall p | IsPattern(p) :: !Occurs(r, p)
    ensures Fix(r, d) == r
  {
    hide Rewrite, IndexOf, At;
    var k := FirstPattern(r, 0);
    if k < |PATTERNS| {
      assert IsPattern(PATTERNS[k]);
      FoundOccurs(r, PATTERNS[k]);
      assert false;
    }
  }

  lemma {:induction false} FoundOccurs(r: string, p: string)
    requires IndexOf(r, p, 0) != -1
    ensures Occurs(r, p)
  {
    hide At;
    assert At(r, p, IndexOf(r, p, 0));
    FoundInside(r, p, IndexOf(r, p, 0));
  }

  lemma {:induction false} FoundInside(r: string, p: string, i: int)
    requires At(r, p, i)
    ensures 0 <= i <= |r|
  {
  }

  /** A text all of one letter, other than a year, has no other pattern in it. */
  lemma {:induction false} OnlyItself(p: string)
    requires IsPattern(p)
    ensures FirstPattern(p, 0) < |PATTERNS| && PATTERNS[FirstPattern(p, 0)] == p && IndexOf(p, p, 0) == 0
  {
    hide FirstPattern, IndexOf;
    var k := Place(p);
    assert At(p, p, 0) by { assert p[0..|p|] == p; }
    var i := FirstPattern(p, 0);
    if i < |PATTERNS| { OccursByLetter(p, PATTERNS[i]); }
  }

  lemma {:induction false} Place(p: string) returns (k: nat)
    requires IsPattern(p)
    ensures k < |PATTERNS| && PATTERNS[k] == p
  {
    k := if p == "yyyy" then 0 else if p == "yy" then 1 else if p == "MM" then 2 else if p == "dd" then 3
         else if p == "HH" then 4 else if p == "hh" then 5 else if p == "mm" then 6 else if p == "ss" then 7 else 8;
  }

  lemma {:induction false} OccursByLetter(r: string, p: string)
    requires IsPattern(r) && IsPattern(p) && IndexOf(r, p, 0) != -1
    ensures p == r || (r == "yyyy" && p == "yy")
  {
    var i := IndexOf(r, p, 0);
    assert p[0] == r[i..i + |p|][0] == r[i];
    assert forall k | 0 <= k < |r| :: r[k] == r[0];
  }

  lemma {:induction false} FirstLetterAt(r: string, p: string, i: int)
    requires p != "" && At(r, p, i)
    ensures i < |r| && r[i] == p[0]
  {
    assert r[i..i + |p|][0] == r[i];
  }

  lemma {:induction false} NoPatternIn(r: string)
    requires r == "" || r == "NN"
    ensures Fix(r, Invalid) == r
  {
    forall p | IsPattern(p) ensures !Occurs(r, p) {
      if i :| 0 <= i <= |r| && At(r, p, i) { FirstLetterAt(r, p, i); }
    }
    NothingToDo(r, Invalid);
  }

  lemma {:induction false} NotANumberShrinks()
    ensures Fix("NaN", Invalid) == "NN"
  {
    hide IndexOf, FirstPattern, Weight;
    var (r, k) := ("NaN", FirstPattern("NaN", 0));
    assert At(r, "a", 1) by { assert r[1..2] == "a"; }
    assert PATTERNS[8] == "a";
    assert k < |PATTERNS|;
    var at := IndexOf(r, PATTERNS[k], 0);
    assert PATTERNS[k][0] == r[at..at + |PATTERNS[k]|][0] == r[at];
    assert k == 8 && at == 1;
    assert Splice(r, 1, "a", "") == "NN";
    NoPatternIn("NN");
  }

  /** For an invalid date a year leaves the N's of NaN, and every other field leaves nothing. */
  lemma {:induction false} InvalidFields(p: string)
    requires IsPattern(p)
    ensures Fix(p, Invalid) == if p == "yyyy" || p == "yy" then "NN" else ""
  {
    hide IndexOf, FirstPattern, Weight, At;
    OnlyItself(p);
    var v := Replacement(p, Invalid);
    assert Rewrite(p, Invalid) == v by { assert "" + v + "" == v; }
    NotANumberShrinks();
    NoPatternIn("");
  }
}
