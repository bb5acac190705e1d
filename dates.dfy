/** Relative and future time parsing (src/lib/dates.ts).

    Instants are epoch milliseconds. The clock is the parameter `now`; the
    local-time calendar operations of JavaScript's `Date` (`setDate`,
    `setHours`, `setMonth`) and `Date.parse` are the function-valued fields of
    a `Calendar`, about which nothing is assumed. `toISOString` is modelled by
    its range check: it throws a `RangeError` ("Invalid time value") for an
    instant outside the range a `Date` can hold, and otherwise denotes the
    instant itself. */
module Dates {
  import opened Wrappers
  import opened JsStrings

  /** The largest magnitude of a `Date` time value (section 21.4.1.1 of ECMA-262). */
  const MaxTimeMs: int := 8_640_000_000_000_000

  /** The units of both grammars: the past one uses h, d, w and mo, the future one m, h, d and w. */
  datatype Unit = Minute | Hour | Day | Week | Month

  function UnitText(u: Unit): string {
    match u
    case Minute => "m"
    case Hour => "h"
    case Day => "d"
    case Week => "w"
    case Month => "mo"
  }

  /** Milliseconds in one unit; a month has no fixed length. */
  function SpanMs(u: Unit): (ms: nat)
    requires u != Month
    ensures ms >= 60 * 1000
  {
    match u
    case Minute => 60 * 1000
    case Hour => 60 * 60 * 1000
    case Day => 24 * 60 * 60 * 1000
    case Week => 7 * 24 * 60 * 60 * 1000
  }

  /** Local-time calendar operations, left uninterpreted. */
  datatype Calendar = Calendar(
    /** the instant of the local day of `t` at `h`:00:00.000 — `setHours(h, 0, 0, 0)` */
    atHour: (int, int) -> int,
    /** `t` moved by `n` local calendar days — `setDate(getDate() + n)` */
    addDays: (int, int) -> int,
    /** `t` moved by `n` calendar months — `setMonth(getMonth() + n)` */
    addMonths: (int, int) -> int,
    /** `Date.parse(s)`, `None` for NaN */
    parse: string -> Option<int>)

  datatype DateError = InvalidDateFormat(input: string) | InvalidTimeValue

  datatype TimeError = InvalidTimeFormat(input: string)

  /** The forms the "Invalid date format" message offers, in its order. */
  const PastExamples: seq<string> := ["1h ago", "2d ago", "3w ago", "1mo ago", "yesterday", "today"]

  /** The quoted forms the "Invalid time format" message offers, before "or ISO date". */
  const FutureExamples: seq<string> := ["30m", "1h", "2d", "1w", "tomorrow"]

  function Quoted(s: string): string {
    "\"" + s + "\""
  }

  function QuotedList(forms: seq<string>): string {
    if |forms| == 0 then []
    else if |forms| == 1 then Quoted(forms[0])
    else Quoted(forms[0]) + ", " + QuotedList(forms[1..])
  }

  /** The `message` of the error `parseRelativeDate` throws. */
  function DateErrorMessage(e: DateError): string {
    match e
    case InvalidDateFormat(input) =>
      "Invalid date format: " + Quoted(input) + ". Use: "
        + QuotedList(PastExamples[..5]) + ", or " + Quoted(PastExamples[5])
    case InvalidTimeValue => "Invalid time value"
  }

  /** The `message` of the error `parseFutureTime` throws. */
  function TimeErrorMessage(e: TimeError): string {
    "Invalid time format: " + Quoted(e.input) + ". Use: " + QuotedList(FutureExamples) + ", or ISO date"
  }

  /** `date.toISOString()` of the `Date` holding `t`. */
  function ToIso(t: int): (r: Result<int, DateError>)
    ensures r.Ok? <==> -MaxTimeMs <= t <= MaxTimeMs
    ensures r.Ok? ==> r.value == t
    ensures r.Err? ==> r.error == InvalidTimeValue
  {
    if -MaxTimeMs <= t <= MaxTimeMs then Ok(t) else Err(InvalidTimeValue)
  }

  // ---------------------------------------------------------------------------
  // parseRelativeDate: /^(\d+)(h|d|w|mo)\s*ago$/i

  /** The unit of `(h|d|w|mo)` at the start of `s`, with the length of its text. */
  function PastUnitAt(s: string): (r: Option<(Unit, nat)>)
    ensures r.Some? ==> r.value.0 != Minute && r.value.1 == |UnitText(r.value.0)| <= |s|
    ensures r.Some? ==> LowerIs(s[..r.value.1], UnitText(r.value.0))
  {
    if |s| >= 2 && LowerChar(s[0]) == 'm' && LowerChar(s[1]) == 'o' then Some((Month, 2))
    else if |s| >= 1 && LowerChar(s[0]) == 'h' then Some((Hour, 1))
    else if |s| >= 1 && LowerChar(s[0]) == 'd' then Some((Day, 1))
    else if |s| >= 1 && LowerChar(s[0]) == 'w' then Some((Week, 1))
    else None
  }

  /** `\s*ago` on the whole of `rest`, "ago" in any letter case. */
  predicate AgoAt(rest: string) {
    LowerIs(rest[WhitespaceRun(rest)..], "ago")
  }

  /** `(h|d|w|mo)\s*ago` on the whole of `t`: the unit it names. */
  function UnitAgoAt(t: string): (r: Option<Unit>)
    ensures r.Some? ==> r.value != Minute
    ensures r.Some? ==> t != [] && !IsDigit(t[0])
  {
    match PastUnitAt(t)
    case None => None
    case Some((u, len)) => if AgoAt(t[len..]) then Some(u) else None
  }

  /** The amount and unit when the whole of `s` matches the past-offset
      pattern: digits, a unit, optional whitespace, "ago"; letters in any case.
      The pattern is deterministic: the digit run and the whitespace run are
      maximal because no unit letter is a digit and "a" is not whitespace. */
  function MatchPast(s: string): (r: Option<(nat, Unit)>)
    ensures r.Some? ==> r.value.1 != Minute
  {
    var k := DigitRun(s);
    if k == 0 then None
    else
      match UnitAgoAt(s[k..])
      case None => None
      case Some(u) => Some((DigitsValue(s[..k]), u))
  }

  /** `parseRelativeDate(input)` at the instant `now`. */
  function ParseRelativeDate(input: string, now: int, cal: Calendar): (r: Result<int, DateError>)
    ensures r == Err(InvalidDateFormat(input))
        <==> !LowerIs(input, "yesterday") && !LowerIs(input, "today") && MatchPast(input).None?
    ensures r.Err? ==> r.error == InvalidDateFormat(input) || r.error == InvalidTimeValue
    ensures r.Ok? ==> -MaxTimeMs <= r.value <= MaxTimeMs
  {
    if LowerIs(input, "yesterday") then ToIso(cal.atHour(cal.addDays(now, -1), 0))
    else if LowerIs(input, "today") then ToIso(cal.atHour(now, 0))
    else
      match MatchPast(input)
      case Some((n, u)) =>
        if u == Month then ToIso(cal.addMonths(now, -(n as int))) else ToIso(now - n * SpanMs(u))
      case None => Err(InvalidDateFormat(input))
  }

  /** An input that starts with a digit is neither keyword. */
  lemma DigitFirstIsNoKeyword(input: string)
    ensures input != [] && IsDigit(input[0]) ==>
      !LowerIs(input, "yesterday") && !LowerIs(input, "today") && !LowerIs(input, "tomorrow")
  {
  }

  lemma LowerUnitText(u: Unit)
    ensures LowerIs(UnitText(u), UnitText(u))
  {
  }

  lemma {:induction false} PastUnitAtOf(unit: string, tail: string, u: Unit)
    requires u != Minute && LowerIs(unit, UnitText(u))
    ensures PastUnitAt(unit + tail) == Some((u, |unit|))
  {
    var s := unit + tail;
    assert |unit| == |UnitText(u)|;
    assert LowerChar(s[0]) == UnitText(u)[0];
    if u == Month {
      assert LowerChar(s[1]) == 'o';
    }
  }

  lemma AgoAtOf(space: string, ago: string)
    requires AllWhitespace(space) && LowerIs(ago, "ago")
    ensures AgoAt(space + ago)
  {
    assert LowerChar(ago[0]) == 'a';
    WhitespaceRunOf(space, ago);
    assert (space + ago)[|space|..] == ago;
  }

  lemma UnitAgoAtOf(unit: string, rest: string, u: Unit)
    requires u != Minute && LowerIs(unit, UnitText(u)) && AgoAt(rest)
    ensures UnitAgoAt(unit + rest) == Some(u)
  {
    PastUnitAtOf(unit, rest, u);
    assert (unit + rest)[|unit|..] == rest;
  }

  /** Digits followed by a unit-and-"ago" tail: the digits are the amount. */
  lemma MatchPastOf(digits: string, tail: string)
    requires digits != [] && AllDigits(digits) && UnitAgoAt(tail).Some?
    ensures MatchPast(digits + tail) == Some((DigitsValue(digits), UnitAgoAt(tail).value))
  {
    var s := digits + tail;
    DigitRunOf(digits, tail);
    assert s[..|digits|] == digits;
    assert s[|digits|..] == tail;
  }

  /** Every input of the offset grammar is accepted: a non-empty digit string,
      a unit among h, d, w, mo in any letter case, any whitespace (possibly
      none), and "ago" in any letter case. */
  lemma {:induction false} PastOffsetAccepted(digits: string, unit: string, space: string, ago: string, u: Unit)
    requires digits != [] && AllDigits(digits)
    requires u != Minute && LowerIs(unit, UnitText(u))
    requires AllWhitespace(space)
    requires LowerIs(ago, "ago")
    ensures MatchPast(digits + unit + space + ago) == Some((DigitsValue(digits), u))
  {
    AgoAtOf(space, ago);
    UnitAgoAtOf(unit, space + ago, u);
    MatchPastOf(digits, unit + (space + ago));
    Concat4(digits, unit, space, ago);
  }

  lemma Concat4(a: string, b: string, c: string, d: string)
    ensures a + (b + (c + d)) == a + b + c + d
  {
  }

  lemma AgoAtShape(rest: string) returns (space: string, ago: string)
    requires AgoAt(rest)
    ensures rest == space + ago && AllWhitespace(space) && LowerIs(ago, "ago")
  {
    var w := WhitespaceRun(rest);
    space, ago := rest[..w], rest[w..];
    assert rest == space + ago;
  }

  lemma UnitAgoAtShape(t: string) returns (unit: string, rest: string)
    requires UnitAgoAt(t).Some?
    ensures t == unit + rest && LowerIs(unit, UnitText(UnitAgoAt(t).value)) && AgoAt(rest)
  {
    var len := PastUnitAt(t).value.1;
    unit, rest := t[..len], t[len..];
    assert t == unit + rest;
  }

  /** A matched input is its digits followed by a unit-and-"ago" tail. */
  lemma MatchPastSplit(s: string) returns (digits: string, tail: string)
    requires MatchPast(s).Some?
    ensures s == digits + tail
    ensures digits != [] && AllDigits(digits) && DigitsValue(digits) == MatchPast(s).value.0
    ensures UnitAgoAt(tail) == Some(MatchPast(s).value.1)
  {
    var k := DigitRun(s);
    digits, tail := s[..k], s[k..];
    assert s == digits + tail;
  }

  /** A unit-and-"ago" tail is the unit, whitespace and "ago". */
  lemma UnitAgoTailShape(t: string) returns (unit: string, space: string, ago: string)
    requires UnitAgoAt(t).Some?
    ensures t == unit + (space + ago)
    ensures LowerIs(unit, UnitText(UnitAgoAt(t).value))
    ensures AllWhitespace(space) && LowerIs(ago, "ago")
  {
    var rest;
    unit, rest := UnitAgoAtShape(t);
    space, ago := AgoAtShape(rest);
  }

  /** Conversely, every matched input has that shape. */
  lemma PastOffsetShape(s: string) returns (digits: string, unit: string, space: string, ago: string)
    requires MatchPast(s).Some?
    ensures s == digits + unit + space + ago
    ensures digits != [] && AllDigits(digits) && DigitsValue(digits) == MatchPast(s).value.0
    ensures LowerIs(unit, UnitText(MatchPast(s).value.1))
    ensures AllWhitespace(space) && LowerIs(ago, "ago")
  {
    var tail;
    digits, tail := MatchPastSplit(s);
    unit, space, ago := UnitAgoTailShape(tail);
    Concat4(digits, unit, space, ago);
  }

  /** The value of an accepted offset: `now` minus N hours, days or weeks, or
      N calendar months back; toISOString's range check applies. */
  lemma {:induction false} PastOffsetValue(input: string, now: int, cal: Calendar)
    requires MatchPast(input).Some?
    ensures var (n, u) := MatchPast(input).value;
      ParseRelativeDate(input, now, cal)
        == if u == Month then ToIso(cal.addMonths(now, -(n as int))) else ToIso(now - n * SpanMs(u))
  {
    var k := DigitRun(input);
    DigitFirstIsNoKeyword(input);
  }

  /** `"{N}h ago"`, `"{N}d ago"`, `"{N}w ago"` and `"{N}mo ago"` are matched
      for every N, with that amount and unit. */
  lemma {:induction false} RenderedPastMatches(n: nat, u: Unit)
    requires u != Minute
    ensures MatchPast(NatToString(n) + UnitText(u) + " ago") == Some((n, u))
  {
    NatToStringValue(n);
    UnitSpaceAgo(u);
    MatchPastOf(NatToString(n), UnitText(u) + " ago");
    assert NatToString(n) + (UnitText(u) + " ago") == NatToString(n) + UnitText(u) + " ago";
  }

  /** A unit's own text followed by " ago" is a unit-and-"ago" tail. */
  lemma UnitSpaceAgo(u: Unit)
    requires u != Minute
    ensures UnitAgoAt(UnitText(u) + " ago") == Some(u)
  {
    LowerUnitText(u);
    assert AgoAt(" ago") by {
      assert LowerIs("ago", "ago");
      AgoAtOf(" ", "ago");
      assert " " + "ago" == " ago";
    }
    UnitAgoAtOf(UnitText(u), " ago", u);
  }

  /** An hour, day or week offset never lies after `now`. */
  lemma {:induction false} PastOffsetNotAfterNow(input: string, now: int, cal: Calendar)
    requires MatchPast(input).Some? && MatchPast(input).value.1 != Month
    requires ParseRelativeDate(input, now, cal).Ok?
    ensures ParseRelativeDate(input, now, cal).value <= now
  {
    var (n, u) := MatchPast(input).value;
    PastOffsetValue(input, now, cal);
    MulMonotone(0, n, SpanMs(u));
  }

  /** A larger amount of the same fixed unit gives an earlier (or the same)
      instant, whatever the spelling of the two inputs. */
  lemma {:induction false} PastOffsetAntitone(a: string, b: string, now: int, cal: Calendar)
    requires MatchPast(a).Some? && MatchPast(b).Some?
    requires MatchPast(a).value.1 == MatchPast(b).value.1 != Month
    requires MatchPast(a).value.0 <= MatchPast(b).value.0
    requires ParseRelativeDate(a, now, cal).Ok? && ParseRelativeDate(b, now, cal).Ok?
    ensures ParseRelativeDate(b, now, cal).value <= ParseRelativeDate(a, now, cal).value
  {
    var (n1, u) := MatchPast(a).value;
    var n2 := MatchPast(b).value.0;
    PastOffsetValue(a, now, cal);
    PastOffsetValue(b, now, cal);
    MulMonotone(n1, n2, SpanMs(u));
  }

  lemma MulMonotone(a: nat, b: nat, c: nat)
    requires a <= b
    ensures a * c <= b * c
  {
  }

  /** "yesterday" and "today" in any letter case: local midnight of the day
      before and of the day of `now`. Neither matches the offset grammar, so
      the order of the three checks does not change any result. */
  lemma KeywordsAnyCase(input: string, now: int, cal: Calendar)
    ensures LowerIs(input, "yesterday") ==>
      ParseRelativeDate(input, now, cal) == ToIso(cal.atHour(cal.addDays(now, -1), 0))
    ensures LowerIs(input, "today") ==>
      ParseRelativeDate(input, now, cal) == ToIso(cal.atHour(now, 0))
    ensures LowerIs(input, "yesterday") || LowerIs(input, "today") ==> MatchPast(input).None?
  {
    if LowerIs(input, "yesterday") || LowerIs(input, "today") {
      assert !IsDigit(input[0]);
    }
  }

  /** An input that is not a keyword and does not start with a digit is
      rejected: a leading space, a sign or a word. */
  lemma NoLeadingDigitRejected(input: string, now: int, cal: Calendar)
    requires !LowerIs(input, "yesterday") && !LowerIs(input, "today")
    requires input == [] || !IsDigit(input[0])
    ensures ParseRelativeDate(input, now, cal) == Err(InvalidDateFormat(input))
  {
  }

  /** Inputs outside the grammar, each rejected with "Invalid date format". */
  lemma RejectedPastInputs(now: int, cal: Calendar)
    ensures ParseRelativeDate(" 1d ago", now, cal) == Err(InvalidDateFormat(" 1d ago"))
    ensures ParseRelativeDate("-1d ago", now, cal) == Err(InvalidDateFormat("-1d ago"))
    ensures ParseRelativeDate("nonsense", now, cal) == Err(InvalidDateFormat("nonsense"))
  {
    NoLeadingDigitRejected(" 1d ago", now, cal);
    NoLeadingDigitRejected("-1d ago", now, cal);
    NoLeadingDigitRejected("nonsense", now, cal);
  }

  /** "m" is no past unit: "1m ago" is rejected. */
  lemma MinutesAgoRejected(now: int, cal: Calendar)
    ensures ParseRelativeDate("1m ago", now, cal) == Err(InvalidDateFormat("1m ago"))
  {
    DigitRunOf("1", "m ago");
    assert "1m ago"[1..] == "m ago";
    assert PastUnitAt("m ago") == None;
    assert UnitAgoAt("m ago") == None;
    DigitFirstIsNoKeyword("1m ago");
  }

  lemma PastRejectsTrailingSpace()
    ensures MatchPast("1d ago ").None?
  {
    DigitRunOf("1", "d ago ");
    assert "1d ago "[1..] == "d ago ";
    assert "1d ago "[2..] == " ago ";
    WhitespaceRunOf(" ", "ago ");
    assert " ago "[1..] == "ago ";
  }

  /** Nothing may follow "ago": "1d ago " is rejected. */
  lemma TrailingSpaceRejected(now: int, cal: Calendar)
    ensures ParseRelativeDate("1d ago ", now, cal) == Err(InvalidDateFormat("1d ago "))
  {
    PastRejectsTrailingSpace();
    DigitFirstIsNoKeyword("1d ago ");
  }

  lemma {:induction false} QuotedListHas(forms: seq<string>, i: nat)
    requires i < |forms|
    ensures Contains(QuotedList(forms), Quoted(forms[i]))
  {
    if |forms| == 1 {
      ContainsInfix([], Quoted(forms[0]), []);
      assert [] + Quoted(forms[0]) + [] == Quoted(forms[0]);
    } else if i == 0 {
      ContainsInfix([], Quoted(forms[0]), ", " + QuotedList(forms[1..]));
      assert [] + Quoted(forms[0]) + (", " + QuotedList(forms[1..])) == QuotedList(forms);
    } else {
      QuotedListHas(forms[1..], i - 1);
      ContainsInfixOf(Quoted(forms[0]) + ", ", QuotedList(forms[1..]), Quoted(forms[i]));
    }
  }

  /** An occurrence in `b` is an occurrence in `a + b`. */
  lemma {:induction false} ContainsInfixOf(a: string, b: string, sub: string)
    requires Contains(b, sub)
    ensures Contains(a + b, sub)
  {
    if a != [] {
      assert (a + b)[1..] == a[1..] + b;
      ContainsInfixOf(a[1..], b, sub);
      assert Contains((a + b)[1..], sub);
    } else {
      assert a + b == b;
    }
  }

  /** The "Invalid date format" message names every form it offers. */
  lemma PastExamplesAdvertised(input: string, i: nat)
    requires i < |PastExamples|
    ensures Contains(DateErrorMessage(InvalidDateFormat(input)), Quoted(PastExamples[i]))
  {
    var head := "Invalid date format: " + Quoted(input) + ". Use: ";
    var list := QuotedList(PastExamples[..5]);
    var tail := ", or " + Quoted(PastExamples[5]);
    assert DateErrorMessage(InvalidDateFormat(input)) == head + (list + tail);
    if i < 5 {
      QuotedListHas(PastExamples[..5], i);
      assert PastExamples[..5][i] == PastExamples[i];
      ContainsPrefixOf(list, tail, Quoted(PastExamples[i]));
      ContainsInfixOf(head, list + tail, Quoted(PastExamples[i]));
    } else {
      ContainsInfix(head + list + ", or ", Quoted(PastExamples[5]), []);
      assert head + list + ", or " + Quoted(PastExamples[5]) + [] == head + (list + tail);
    }
  }

  /** Every offset form the message offers (the first four of
      `PastExamples`) is accepted by the grammar. */
  lemma PastExampleAccepted(i: nat)
    requires i < 4
    ensures MatchPast(PastExamples[i]).Some?
  {
    var u := [Hour, Day, Week, Month][i];
    var digit := ["1", "2", "3", "1"][i];
    assert PastExamples[i] == digit + (UnitText(u) + " ago");
    UnitSpaceAgo(u);
    MatchPastOf(digit, UnitText(u) + " ago");
  }

  /** An occurrence in `a` is an occurrence in `a + b`. */
  lemma {:induction false} ContainsPrefixOf(a: string, b: string, sub: string)
    requires Contains(a, sub)
    ensures Contains(a + b, sub)
  {
    if StartsWith(a, sub) {
      assert (a + b)[..|sub|] == a[..|sub|];
    } else {
      assert (a + b)[1..] == a[1..] + b;
      ContainsPrefixOf(a[1..], b, sub);
    }
  }

  // ---------------------------------------------------------------------------
  // parseFutureTime: /^(\d+)(m|h|d|w)$/i, then "tomorrow", then Date.parse

  function FutureUnitOf(c: char): (r: Option<Unit>)
    ensures r.Some? ==> r.value != Month && [LowerChar(c)] == UnitText(r.value)
  {
    match LowerChar(c)
    case 'm' => Some(Minute)
    case 'h' => Some(Hour)
    case 'd' => Some(Day)
    case 'w' => Some(Week)
    case _ => None
  }

  /** The amount and unit when the whole of `s` is digits followed by one
      unit letter among m, h, d, w in any case: no whitespace, no suffix. */
  function MatchFuture(s: string): (r: Option<(nat, Unit)>)
    ensures r.Some? ==> r.value.1 != Month
  {
    var k := DigitRun(s);
    if k == 0 || |s| != k + 1 then None
    else
      match FutureUnitOf(s[k])
      case None => None
      case Some(u) => Some((DigitsValue(s[..k]), u))
  }

  /** `parseFutureTime(input)` at the instant `now`. */
  function ParseFutureTime(input: string, now: int, cal: Calendar): (r: Result<int, TimeError>)
    ensures r.Err? <==> !LowerIs(input, "tomorrow") && MatchFuture(input).None? && cal.parse(input).None?
    ensures r.Err? ==> r.error == InvalidTimeFormat(input)
    ensures MatchFuture(input).Some? ==> r.Ok? && r.value >= now
  {
    DigitFirstIsNoKeyword(input);
    if LowerIs(input, "tomorrow") then Ok(cal.atHour(cal.addDays(now, 1), 9))
    else
      match MatchFuture(input)
      case Some((n, u)) => Ok(now + n * SpanMs(u))
      case None =>
        match cal.parse(input)
        case Some(t) => Ok(t)
        case None => Err(InvalidTimeFormat(input))
  }

  /** Every input of the future grammar is accepted: a non-empty digit string
      and one unit letter m, h, d or w in either case. */
  lemma {:induction false} FutureOffsetAccepted(digits: string, unit: char, u: Unit, now: int, cal: Calendar)
    requires digits != [] && AllDigits(digits)
    requires u != Month && [LowerChar(unit)] == UnitText(u)
    ensures MatchFuture(digits + [unit]) == Some((DigitsValue(digits), u))
    ensures ParseFutureTime(digits + [unit], now, cal) == Ok(now + DigitsValue(digits) * SpanMs(u))
  {
    var s := digits + [unit];
    assert !IsDigit(unit);
    DigitRunOf(digits, [unit]);
    assert s[..|digits|] == digits;
    DigitFirstIsNoKeyword(s);
  }

  /** Conversely, every matched input has that shape. */
  lemma FutureOffsetShape(s: string) returns (digits: string, unit: char)
    requires MatchFuture(s).Some?
    ensures s == digits + [unit]
    ensures digits != [] && AllDigits(digits) && DigitsValue(digits) == MatchFuture(s).value.0
    ensures [LowerChar(unit)] == UnitText(MatchFuture(s).value.1)
  {
    var k := DigitRun(s);
    digits, unit := s[..k], s[k];
    assert s == s[..k] + [s[k]];
  }

  /** `"{N}m"`, `"{N}h"`, `"{N}d"` and `"{N}w"` for every N: `now` plus N units. */
  lemma {:induction false} RenderedFutureOffset(n: nat, u: Unit, now: int, cal: Calendar)
    requires u != Month
    ensures ParseFutureTime(NatToString(n) + UnitText(u), now, cal) == Ok(now + n * SpanMs(u))
  {
    NatToStringValue(n);
    FutureOffsetAccepted(NatToString(n), UnitText(u)[0], u, now, cal);
    assert UnitText(u) == [UnitText(u)[0]];
  }

  /** "tomorrow" in any letter case is 09:00:00.000 local time on the next
      calendar day; `Date.parse` is not consulted. */
  lemma TomorrowAnyCase(input: string, now: int, cal: Calendar, parse: string -> Option<int>)
    requires LowerIs(input, "tomorrow")
    ensures ParseFutureTime(input, now, cal) == Ok(cal.atHour(cal.addDays(now, 1), 9))
    ensures ParseFutureTime(input, now, cal.(parse := parse)) == ParseFutureTime(input, now, cal)
  {
  }

  /** The offset grammar takes priority over `Date.parse`: whatever the parser
      would make of a matched input, the offset is returned. */
  lemma GrammarBeforeFallback(input: string, now: int, cal: Calendar, parse: string -> Option<int>)
    requires MatchFuture(input).Some?
    ensures ParseFutureTime(input, now, cal.(parse := parse)) == ParseFutureTime(input, now, cal)
  {
    DigitFirstIsNoKeyword(input);
  }

  /** Any other input is handed to `Date.parse`; a non-NaN result is returned
      unchanged, NaN raises "Invalid time format". */
  lemma FallbackOtherwise(input: string, now: int, cal: Calendar)
    requires !LowerIs(input, "tomorrow") && MatchFuture(input).None?
    ensures ParseFutureTime(input, now, cal)
         == match cal.parse(input) case Some(t) => Ok(t) case None => Err(InvalidTimeFormat(input))
  {
  }

  /** The two grammars differ. A past offset is no future offset, so
      "2d ago" goes to `Date.parse`, and "mo" is no future unit ... */
  lemma FutureGrammarRejectsPastForms()
    ensures MatchFuture("2d ago").None? && MatchFuture("1mo").None?
  {
    DigitRunOf("2", "d ago");
    DigitRunOf("1", "mo");
  }

  lemma PastRejects30m()
    ensures MatchPast("30m").None?
  {
    DigitRunOf("30", "m");
    assert "30m"[..2] == "30" && "30m"[2..] == "m";
  }

  lemma PastRejects2d()
    ensures MatchPast("2d").None?
  {
    DigitRunOf("2", "d");
    assert "2d"[1..] == "d" && "2d"[2..] == [];
  }

  /** ... while a future offset is an invalid date: it lacks "ago". */
  lemma PastGrammarRejectsFutureForms(now: int, cal: Calendar)
    ensures ParseRelativeDate("30m", now, cal) == Err(InvalidDateFormat("30m"))
    ensures ParseRelativeDate("2d", now, cal) == Err(InvalidDateFormat("2d"))
  {
    PastRejects30m();
    DigitFirstIsNoKeyword("30m");
    PastRejects2d();
    DigitFirstIsNoKeyword("2d");
  }

  /** Two concrete offsets: 30 minutes and 2 days ahead. */
  lemma FutureExamplesValues(now: int, cal: Calendar)
    ensures ParseFutureTime("30m", now, cal) == Ok(now + 1_800_000)
    ensures ParseFutureTime("2d", now, cal) == Ok(now + 172_800_000)
  {
    FutureOffsetAccepted("30", 'm', Minute, now, cal);
    assert DigitsValue("30") == 30 by {
      assert "30"[..1] == "3";
    }
    FutureOffsetAccepted("2", 'd', Day, now, cal);
  }

  /** The "Invalid time format" message names every quoted form it offers. */
  lemma FutureExamplesAdvertised(input: string, i: nat)
    requires i < |FutureExamples|
    ensures Contains(TimeErrorMessage(InvalidTimeFormat(input)), Quoted(FutureExamples[i]))
  {
    var head := "Invalid time format: " + Quoted(input) + ". Use: ";
    var list := QuotedList(FutureExamples);
    assert TimeErrorMessage(InvalidTimeFormat(input)) == head + (list + ", or ISO date");
    QuotedListHas(FutureExamples, i);
    ContainsPrefixOf(list, ", or ISO date", Quoted(FutureExamples[i]));
    ContainsInfixOf(head, list + ", or ISO date", Quoted(FutureExamples[i]));
  }

  /** Every form the message offers is accepted, whatever `Date.parse` does. */
  lemma FutureExamplesAccepted(now: int, cal: Calendar)
    ensures forall i :: 0 <= i < |FutureExamples| ==> ParseFutureTime(FutureExamples[i], now, cal).Ok?
  {
    FutureOffsetAccepted("30", 'm', Minute, now, cal);
    FutureOffsetAccepted("1", 'h', Hour, now, cal);
    FutureOffsetAccepted("2", 'd', Day, now, cal);
    FutureOffsetAccepted("1", 'w', Week, now, cal);
    assert "30" + ['m'] == FutureExamples[0];
    assert "1" + ['h'] == FutureExamples[1];
    assert "2" + ['d'] == FutureExamples[2];
    assert "1" + ['w'] == FutureExamples[3];
  }
}
