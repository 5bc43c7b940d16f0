/**
 The countdown parser and duration conversion of bot.js: `parseCountdownText` runs the
 regular expression `/(\d+) hours (\d+) min (\d+) sec/` over the text the dashboard shows
 and `timeToMilliseconds` turns the parsed duration into a delay.
 */
module Countdown {
  import opened Wrappers
  import opened Text

  /** `{ hours, minutes, seconds }` as `parseCountdownText` returns it. */
  datatype Duration = Duration(hours: nat, minutes: nat, seconds: nat)

  /** What the three capture groups of the countdown pattern hold. */
  datatype Captures = Captures(hours: string, minutes: string, seconds: string)

  const HoursWord := " hours "
  const MinutesWord := " min "
  const SecondsWord := " sec"

  /** A string `\d+` can capture. */
  predicate IsDigitRun(s: string) {
    s != [] && AllSatisfy(s, IsDigit)
  }

  predicate WellFormed(c: Captures) {
    IsDigitRun(c.hours) && IsDigitRun(c.minutes) && IsDigitRun(c.seconds)
  }

  /** The text a match of the countdown pattern covers, given its captures. */
  function Render(c: Captures): string {
    c.hours + (HoursWord + (c.minutes + (MinutesWord + (c.seconds + SecondsWord))))
  }

  /**
   The countdown pattern anchored at the start of `x`. Each `\d+` is greedy and must be
   followed by a space, so backtracking into a shorter digit run can never succeed: the
   greedy run is the only candidate.
   */
  function MatchAt(x: string): (r: Option<Captures>)
    ensures r.Some? ==> WellFormed(r.value) && StartsWith(x, Render(r.value))
  {
    var a := RunLength(x, IsDigit);
    if a == 0 || !StartsWith(x[a..], HoursWord) then None
    else
      var y := x[a + |HoursWord|..];
      var b := RunLength(y, IsDigit);
      if b == 0 || !StartsWith(y[b..], MinutesWord) then None
      else
        var z := y[b + |MinutesWord|..];
        var c := RunLength(z, IsDigit);
        if c == 0 || !StartsWith(z[c..], SecondsWord) then None
        else
          var caps := Captures(x[..a], y[..b], z[..c]);
          assert StartsWith(x, Render(caps)) by {
            StartsWithConcat(z, caps.seconds, SecondsWord);
            StartsWithConcat(y[b..], MinutesWord, caps.seconds + SecondsWord);
            assert y[b..][|MinutesWord|..] == z;
            StartsWithConcat(y, caps.minutes, MinutesWord + (caps.seconds + SecondsWord));
            StartsWithConcat(x[a..], HoursWord, caps.minutes + (MinutesWord + (caps.seconds + SecondsWord)));
            assert x[a..][|HoursWord|..] == y;
            StartsWithConcat(x, caps.hours, HoursWord + (caps.minutes + (MinutesWord + (caps.seconds + SecondsWord))));
          }
          Some(caps)
  }

  /**
   One stage of the pattern: when `x` begins with a digit run `d`, then a word `w` that
   starts with a non-digit, then `rest`, the greedy `\d+` captures exactly `d`.
   */
  lemma {:induction false} GreedyStage(x: string, d: string, w: string, rest: string)
    requires IsDigitRun(d) && w != [] && !IsDigit(w[0])
    requires StartsWith(x, d + (w + rest))
    ensures |d| + |w| <= |x|
    ensures RunLength(x, IsDigit) == |d| && x[..|d|] == d
    ensures StartsWith(x[|d|..], w) && StartsWith(x[|d| + |w|..], rest)
  {
    StartsWithConcat(x, d, w + rest);
    StartsWithConcat(x[|d|..], w, rest);
    assert x[|d|..][|w|..] == x[|d| + |w|..];
    assert x[|d|] == w[0];
    RunLengthUnique(x, IsDigit, |d|);
  }

  /** Every text that begins with a rendering of well-formed captures matches, with exactly those captures. */
  lemma {:induction false} MatchAtComplete(x: string, c: Captures)
    requires WellFormed(c) && StartsWith(x, Render(c))
    ensures MatchAt(x) == Some(c)
  {
    GreedyStage(x, c.hours, HoursWord, c.minutes + (MinutesWord + (c.seconds + SecondsWord)));
    var y := x[|c.hours| + |HoursWord|..];
    GreedyStage(y, c.minutes, MinutesWord, c.seconds + SecondsWord);
    var z := y[|c.minutes| + |MinutesWord|..];
    assert c.seconds + SecondsWord == c.seconds + (SecondsWord + []);
    GreedyStage(z, c.seconds, SecondsWord, []);
  }

  /** `parseInt(s, 10)` of a string of decimal digits. */
  function DecimalValue(s: string): (v: nat)
    requires AllSatisfy(s, IsDigit)
    ensures v < Pow10(|s|)
  {
    if s == [] then 0
    else
      AllSatisfyTake(s, IsDigit, |s| - 1);
      var high := DecimalValue(s[..|s| - 1]);
      var digit := s[|s| - 1] as int - '0' as int;
      assert high * 10 + digit < Pow10(|s|) by {
        assert high + 1 <= Pow10(|s| - 1);
        assert (high + 1) * 10 <= Pow10(|s| - 1) * 10;
      }
      high * 10 + digit
  }

  function Pow10(n: nat): nat {
    if n == 0 then 1 else 10 * Pow10(n - 1)
  }

  function DigitChar(d: nat): (c: char)
    requires d < 10
    ensures IsDigit(c) && c as int - '0' as int == d
  {
    ('0' as int + d) as char
  }

  /** The decimal numeral of `n`, without leading zeros, which `DecimalValue` maps back to `n`. */
  function Numeral(n: nat): (s: string)
    ensures IsDigitRun(s)
    ensures DecimalValue(s) == n
  {
    if n < 10 then [DigitChar(n)]
    else
      var s := Numeral(n / 10) + [DigitChar(n % 10)];
      assert s[..|s| - 1] == Numeral(n / 10);
      s
  }

  /** `parseCountdownText`: the captures of the leftmost match, or zero when nothing matches. */
  function ParseCountdownText(text: string): (d: Duration)
    ensures (forall j {:trigger MatchAt(text[j..])} :: 0 <= j <= |text| ==> MatchAt(text[j..]).None?) ==> d == Duration(0, 0, 0)
  {
    match FirstMatch(text, 0, MatchAt)
    case Some(m) => Duration(DecimalValue(m.value.hours), DecimalValue(m.value.minutes), DecimalValue(m.value.seconds))
    case None => Duration(0, 0, 0)
  }

  /** The duration a rendering of `c` stands for. */
  function ValueOf(c: Captures): Duration
    requires WellFormed(c)
  {
    Duration(DecimalValue(c.hours), DecimalValue(c.minutes), DecimalValue(c.seconds))
  }

  /**
   When a countdown phrase is embedded in surrounding text and no match starts earlier,
   the parse yields exactly the numbers of that phrase.
   */
  lemma {:induction false} ParseLeftmost(prefix: string, c: Captures, suffix: string)
    requires WellFormed(c)
    requires forall j {:trigger MatchAt((prefix + Render(c) + suffix)[j..])} :: 0 <= j < |prefix| ==> MatchAt((prefix + Render(c) + suffix)[j..]).None?
    ensures ParseCountdownText(prefix + Render(c) + suffix) == ValueOf(c)
  {
    var text := prefix + Render(c) + suffix;
    assert text[|prefix|..] == Render(c) + suffix;
    StartsWithConcat(Render(c) + suffix, Render(c), suffix);
    MatchAtComplete(text[|prefix|..], c);
    var r := FirstMatch(text, 0, MatchAt);
    assert r.Some? && r.value.at == |prefix|;
  }

  /** Round trip: parsing `"<h> hours <m> min <s> sec"` gives back `h`, `m` and `s`. */
  lemma {:induction false} ParseRoundTrip(h: nat, m: nat, s: nat)
    ensures ParseCountdownText(Render(Captures(Numeral(h), Numeral(m), Numeral(s)))) == Duration(h, m, s)
  {
    var c := Captures(Numeral(h), Numeral(m), Numeral(s));
    assert [] + Render(c) + [] == Render(c);
    ParseLeftmost([], c, []);
  }

  /** A digit in front of a match extends its first capture, so the match starts one place earlier. */
  lemma {:induction false} MatchExtendsLeft(x: string, c: Captures)
    requires x != [] && IsDigit(x[0]) && WellFormed(c) && StartsWith(x[1..], Render(c))
    ensures MatchAt(x) == Some(Captures([x[0]] + c.hours, c.minutes, c.seconds))
  {
    var c' := Captures([x[0]] + c.hours, c.minutes, c.seconds);
    PrependDigit(x[0], c);
    ConsStartsWith(x, Render(c));
    MatchAtComplete(x, c');
  }

  lemma PrependDigit(d: char, c: Captures)
    requires IsDigit(d) && WellFormed(c)
    ensures WellFormed(Captures([d] + c.hours, c.minutes, c.seconds))
    ensures Render(Captures([d] + c.hours, c.minutes, c.seconds)) == [d] + Render(c)
  {
    var tail := HoursWord + (c.minutes + (MinutesWord + (c.seconds + SecondsWord)));
    Associative([d], c.hours, tail);
  }

  lemma ConsStartsWith(x: string, p: string)
    requires x != [] && StartsWith(x[1..], p)
    ensures StartsWith(x, [x[0]] + p)
  {
    assert x == [x[0]] + x[1..];
    StartsWithConcat(x, [x[0]], p);
  }

  /**
   The leftmost match never starts inside a run of digits, so its first capture is a
   whole digit run of the text.
   */
  lemma {:induction false} MatchStartsAtDigitRun(text: string)
    ensures var r := FirstMatch(text, 0, MatchAt);
            r.Some? && r.value.at > 0 ==> !IsDigit(text[r.value.at - 1])
  {
    var r := FirstMatch(text, 0, MatchAt);
    if r.Some? && r.value.at > 0 {
      var i := r.value.at;
      var x := text[i - 1..];
      assert MatchAt(x).None?;
      assert x[1..] == text[i..];
      var c := MatchAt(x[1..]).value;
      if IsDigit(x[0]) {
        MatchExtendsLeft(x, c);
      }
    }
  }

  /** A match anchored at position `j` contains the text `" hours "`. */
  lemma {:induction false} NoMatchWithoutHoursWord(text: string, j: nat)
    requires j <= |text| && !Contains(text, HoursWord)
    ensures MatchAt(text[j..]).None?
  {
    if MatchAt(text[j..]).Some? {
      var c := MatchAt(text[j..]).value;
      var x := text[j..];
      var rest := c.minutes + (MinutesWord + (c.seconds + SecondsWord));
      var y := x[|c.hours|..];
      DropDrop(text, j, |c.hours|);
      StartsWithConcat(x, c.hours, HoursWord + rest);
      StartsWithConcat(y, HoursWord, rest);
    }
  }

  /**
   Without the exact text `" hours "` nothing matches, so the singular `"1 hour 5 min 0 sec"`
   and any other unmatched text parse as zero, without an error.
   */
  lemma {:induction false} ZeroWithoutHoursWord(text: string)
    requires !Contains(text, HoursWord)
    ensures ParseCountdownText(text) == Duration(0, 0, 0)
  {
    forall j | 0 <= j <= |text| ensures MatchAt(text[j..]).None? {
      NoMatchWithoutHoursWord(text, j);
    }
  }

  /** The example of the source's own comment: `"06 hours 23 min 28 sec"` gives 6, 23 and 28. */
  lemma ParseCommentExample()
    ensures ParseCountdownText("06 hours 23 min 28 sec") == Duration(6, 23, 28)
  {
    var c := Captures("06", "23", "28");
    CommentExampleRenders();
    ParseLeftmost([], c, []);
    CommentExampleValues();
  }

  lemma CommentExampleRenders()
    ensures WellFormed(Captures("06", "23", "28"))
    ensures "06 hours 23 min 28 sec" == [] + Render(Captures("06", "23", "28")) + []
  {
  }

  lemma CommentExampleValues()
    ensures ValueOf(Captures("06", "23", "28")) == Duration(6, 23, 28)
  {
    assert DecimalValue("06") == 6;
    assert DecimalValue("23") == 23;
    assert DecimalValue("28") == 28;
  }

  /** `timeToMilliseconds`. */
  function TimeToMilliseconds(t: Duration): (ms: nat)
    ensures ms % 1000 == 0
    ensures ms == 0 <==> t == Duration(0, 0, 0)
  {
    (t.hours * 3600 + t.minutes * 60 + t.seconds) * 1000
  }

  /** The normalised duration (minutes and seconds below 60) of a whole number of seconds in `ms`. */
  function FromMilliseconds(ms: nat): (t: Duration)
    ensures t.minutes < 60 && t.seconds < 60
  {
    var secs := ms / 1000;
    Duration(secs / 3600, secs % 3600 / 60, secs % 60)
  }

  /** Euclidean division has one quotient and remainder. */
  lemma {:induction false} DivModUnique(x: nat, d: nat, q: nat, r: nat)
    requires 0 < d && r < d && x == q * d + r
    ensures x / d == q && x % d == r
  {
    var q', r' := x / d, x % d;
    assert (q - q') * d == r' - r;
    if q > q' {
      MulAtLeast(q - q', d);
    } else if q < q' {
      MulAtLeast(q' - q, d);
    }
  }

  lemma MulAtLeast(k: int, d: nat)
    requires k >= 1
    ensures k * d >= d
  {
  }

  lemma {:induction false} MillisecondsRoundTrip(ms: nat)
    requires ms % 1000 == 0
    ensures TimeToMilliseconds(FromMilliseconds(ms)) == ms
  {
    var secs := ms / 1000;
    assert secs % 3600 == secs % 3600 / 60 * 60 + secs % 60;
    assert secs == secs / 3600 * 3600 + secs % 3600;
  }

  lemma {:induction false} DurationRoundTrip(t: Duration)
    requires t.minutes < 60 && t.seconds < 60
    ensures FromMilliseconds(TimeToMilliseconds(t)) == t
  {
    var below := t.minutes * 60 + t.seconds;
    var secs := t.hours * 3600 + below;
    DivModUnique(TimeToMilliseconds(t), 1000, secs, 0);
    DivModUnique(secs, 3600, t.hours, below);
    DivModUnique(below, 60, t.minutes, t.seconds);
    DivModUnique(secs, 60, t.hours * 60 + t.minutes, t.seconds);
  }
}
