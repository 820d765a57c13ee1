/**
 Timeframe labels such as "15m" or "1d" and the interval each one denotes.

 Instants and intervals are integers counting microseconds, the resolution of the
 source's datetimes; instants before 1970 are negative.  Text is treated as ASCII.
 */
module Timeframes {
  import opened Numerals
  import opened Wrappers

  const TICKS_PER_SECOND: int := 1_000_000

  predicate IsSpace(c: char) {
    c == ' ' || '\t' <= c <= '\r' || '\U{1C}' <= c <= '\U{1F}'
  }

  function StripLeft(s: string): string {
    if s != [] && IsSpace(s[0]) then StripLeft(s[1..]) else s
  }

  function StripRight(s: string): string {
    if s != [] && IsSpace(s[|s| - 1]) then StripRight(s[..|s| - 1]) else s
  }

  function Strip(s: string): string {
    StripRight(StripLeft(s))
  }

  predicate Stripped(s: string) {
    s == [] || (!IsSpace(s[0]) && !IsSpace(s[|s| - 1]))
  }

  function LowerChar(c: char): char {
    if 'A' <= c <= 'Z' then (c as int + 32) as char else c
  }

  function Lower(s: string): (r: string)
    ensures |r| == |s|
  {
    seq(|s|, i requires 0 <= i < |s| => LowerChar(s[i]))
  }

  /** `strip().lower()`, applied to every label before it is compared or parsed. */
  function Normalize(s: string): string {
    Lower(Strip(s))
  }

  lemma {:induction false} StripLeftRemovesHead(s: string)
    ensures StripLeft(s) == [] || !IsSpace(StripLeft(s)[0])
  {
    if s != [] && IsSpace(s[0]) { StripLeftRemovesHead(s[1..]); }
  }

  lemma {:induction false} StripRightRemovesTail(s: string)
    requires s == [] || !IsSpace(s[0])
    ensures Stripped(StripRight(s))
  {
    if s != [] && IsSpace(s[|s| - 1]) { StripRightRemovesTail(s[..|s| - 1]); }
  }

  predicate Blank(s: string) {
    forall i | 0 <= i < |s| :: IsSpace(s[i])
  }

  lemma {:induction false} StripLeftSplits(s: string) returns (margin: string)
    ensures Blank(margin) && s == margin + StripLeft(s)
  {
    margin := [];
    if s != [] && IsSpace(s[0]) {
      var inner := StripLeftSplits(s[1..]);
      margin := [s[0]] + inner;
    }
  }

  lemma {:induction false} StripRightSplits(s: string) returns (margin: string)
    ensures Blank(margin) && s == StripRight(s) + margin
  {
    margin := [];
    if s != [] && IsSpace(s[|s| - 1]) {
      var inner := StripRightSplits(s[..|s| - 1]);
      margin := inner + [s[|s| - 1]];
    }
  }

  /** The stripped text is what is left between two margins of white space. */
  lemma StripSplits(s: string) returns (left: string, right: string)
    ensures Blank(left) && Blank(right) && s == left + Strip(s) + right && Stripped(Strip(s))
  {
    left := StripLeftSplits(s);
    right := StripRightSplits(StripLeft(s));
    StripLeftRemovesHead(s);
    StripRightRemovesTail(StripLeft(s));
  }

  lemma {:induction false} StripLeftOf(left: string, rest: string)
    requires Blank(left) && (rest == [] || !IsSpace(rest[0]))
    ensures StripLeft(left + rest) == rest
  {
    if left == [] {
      assert left + rest == rest;
    } else {
      assert (left + rest)[1..] == left[1..] + rest;
      StripLeftOf(left[1..], rest);
    }
  }

  lemma {:induction false} StripRightOf(rest: string, right: string)
    requires Blank(right) && (rest == [] || !IsSpace(rest[|rest| - 1]))
    ensures StripRight(rest + right) == rest
  {
    if right == [] {
      assert rest + right == rest;
    } else {
      var n := |rest + right| - 1;
      assert (rest + right)[..n] == rest + right[..|right| - 1];
      StripRightOf(rest, right[..|right| - 1]);
    }
  }

  /** Margins never matter, and a text without them is only lowered: so `StripSplits` pins the stripped text down. */
  lemma MarginsVanish(left: string, text: string, right: string)
    requires Blank(left) && Blank(right) && Stripped(text)
    ensures Strip(left + text + right) == text
    ensures Normalize(left + text + right) == Lower(text)
  {
    if text == [] {
      assert Blank(left + right) && left + text + right == (left + right) + [];
      StripLeftOf(left + right, []);
    } else {
      assert left + text + right == left + (text + right);
      StripLeftOf(left, text + right);
      StripRightOf(text, right);
    }
  }

  /** The characters `strip` removes and the letters `lower` changes, code by code. */
  lemma CharacterCodes(c: char)
    ensures IsSpace(c) <==> c as int in {9, 10, 11, 12, 13, 28, 29, 30, 31, 32}
    ensures 65 <= c as int <= 90 ==> LowerChar(c) as int == c as int + 32
    ensures !(65 <= c as int <= 90) ==> LowerChar(c) == c
  {
  }

  /** Normalising twice is normalising once, so a label stored by one step is read unchanged by the next. */
  lemma NormalizeIdempotent(s: string)
    ensures Stripped(Normalize(s))
    ensures Normalize(Normalize(s)) == Normalize(s)
  {
    StripLeftRemovesHead(s);
    StripRightRemovesTail(StripLeft(s));
    var t := Lower(Strip(s));
    assert Stripped(t);
    assert Strip(t) == t;
    assert Lower(t) == t;
  }

  function UnitSeconds(unit: char): Option<nat> {
    match unit
    case 'm' => Some(60)
    case 'h' => Some(3600)
    case 'd' => Some(86400)
    case _ => None
  }

  /** The interval of a label, or None where the source refuses the label. */
  function Interval(spelling: string): (r: Option<int>)
    ensures r.Some? ==> r.value > 0 && r.value % TICKS_PER_SECOND == 0
  {
    var text := Normalize(spelling);
    if |text| < 2 then None
    else
      var digits, unit := text[..|text| - 1], text[|text| - 1];
      if !AllDigits(digits) || digits[0] == '0' || UnitSeconds(unit).None? then None
      else
        var seconds := NumberOf(digits) * UnitSeconds(unit).value;
        assert seconds > 0;
        Some(seconds * TICKS_PER_SECOND)
  }

  /** The length in microseconds that a normalised label stands for: so many minutes, hours or days. */
  ghost predicate Denotes(text: string, ticks: int) {
    exists n: nat | n >= 1 :: Spells(text, n, ticks)
  }

  predicate Spells(text: string, n: nat, ticks: int) {
    || (text == Numeral(n) + "m" && ticks == n * 60_000_000)
    || (text == Numeral(n) + "h" && ticks == n * 3_600_000_000)
    || (text == Numeral(n) + "d" && ticks == n * 86_400_000_000)
  }

  /** Digits and a unit letter are a normalised text, except for the case of the letter. */
  lemma CountedText(k: string, unit: char)
    requires IsCount(k) && !IsSpace(unit)
    ensures Normalize(k + [unit]) == k + [LowerChar(unit)]
  {
    assert k[0] in k;
    MarginsVanish([], k + [unit], []);
    assert [] + (k + [unit]) + [] == k + [unit];
    forall i | 0 <= i < |k| ensures LowerChar(k[i]) == k[i] {
      assert k[i] in k;
    }
    assert Lower(k + [unit]) == k + [LowerChar(unit)];
  }

  lemma UnitReads(k: string, unit: char)
    requires IsCount(k) && UnitSeconds(unit).Some?
    ensures Interval(k + [unit]) == Some(NumberOf(k) * UnitSeconds(unit).value * TICKS_PER_SECOND)
  {
    CountedText(k, unit);
    hide Normalize;
    assert (k + [unit])[..|k|] == k;
  }

  lemma CaseIgnored(k: string, unit: char)
    requires IsCount(k) && !IsSpace(unit) && !IsSpace(LowerChar(unit))
    ensures Interval(k + [unit]) == Interval(k + [LowerChar(unit)])
  {
    hide Interval;
    CountedText(k, unit);
    IntervalIgnoresSpelling(k + [unit]);
  }

  /** Digits followed by a unit are read as that many units, whichever case the unit is written in. */
  lemma LabelReads(k: string)
    requires IsCount(k)
    ensures Interval(k + "m") == Interval(k + "M") == Some(NumberOf(k) * 60_000_000)
    ensures Interval(k + "h") == Interval(k + "H") == Some(NumberOf(k) * 3_600_000_000)
    ensures Interval(k + "d") == Interval(k + "D") == Some(NumberOf(k) * 86_400_000_000)
  {
    hide Interval, IsCount;
    UnitReads(k, 'm');
    UnitReads(k, 'h');
    UnitReads(k, 'd');
    CaseIgnored(k, 'M');
    CaseIgnored(k, 'H');
    CaseIgnored(k, 'D');
  }

  /**
   What every label denotes: a label is supported exactly when its normalised text is a positive
   decimal count, written without a leading zero, followed by m, h or d, and its interval is that
   many times 60, 3,600 or 86,400 seconds.
   */
  lemma IntervalExactly(spelling: string, ticks: int)
    ensures Interval(spelling) == Some(ticks) <==> Denotes(Normalize(spelling), ticks)
  {
    var text := Normalize(spelling);
    IntervalIgnoresSpelling(spelling);
    if Interval(spelling) == Some(ticks) {
      var k, unit := text[..|text| - 1], text[|text| - 1];
      assert text == k + [unit];
      NumeralOfNumber(k);
      UnitReads(k, unit);
      assert Spells(text, NumberOf(k), ticks);
    }
    if n: nat :| n >= 1 && Spells(text, n, ticks) {
      NumberOfNumeral(n);
      LabelReads(Numeral(n));
    }
  }

  lemma IntervalMeans(spelling: string)
    ensures forall ticks: int :: Interval(spelling) == Some(ticks) <==> Denotes(Normalize(spelling), ticks)
    ensures Interval(spelling).Some? ==> Denotes(Normalize(spelling), Interval(spelling).value)
  {
    forall ticks: int ensures Interval(spelling) == Some(ticks) <==> Denotes(Normalize(spelling), ticks) {
      IntervalExactly(spelling, ticks);
    }
  }

  /** A day is 24 hours, an hour 60 minutes and a minute 60 seconds, whatever the count. */
  lemma UnitsCompare(k: string)
    requires IsCount(k)
    ensures Interval(k + "m").Some? && Interval(k + "h").Some? && Interval(k + "d").Some?
    ensures Interval(k + "h").value == 60 * Interval(k + "m").value
    ensures Interval(k + "d").value == 24 * Interval(k + "h").value
  {
    hide Interval;
    LabelReads(k);
  }

  lemma OneOfEach()
    ensures Interval("1m") == Some(60 * TICKS_PER_SECOND) && Interval("1h") == Some(3600 * TICKS_PER_SECOND)
    ensures Interval("1d") == Some(86400 * TICKS_PER_SECOND)
  {
    hide Interval;
    assert "1"[..0] == "";
    LabelReads("1");
    assert "1" + "m" == "1m" && "1" + "h" == "1h" && "1" + "d" == "1d";
  }

  /** A label and its normalised spelling denote the same interval. */
  lemma IntervalIgnoresSpelling(spelling: string)
    ensures Interval(Normalize(spelling)) == Interval(spelling)
  {
    NormalizeIdempotent(spelling);
  }
}
