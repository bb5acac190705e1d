/** Helpers shared by the commands (src/lib/command-utils.ts): resolve or
    exit, parse a date option or exit, the date-range check, the command
    error handler with its extra handlers, the file-size unit, comma-list
    options and the escaping step of query highlighting. Each `...OrExit`
    helper returns `Err(exit)` where the source prints to stderr and calls
    `process.exit(1)`. */
module CommandUtils {
  import opened Wrappers
  import opened JsStrings
  import opened Process
  import opened Config
  import opened Aliases
  import opened Dates
  import opened Errors

  // ---------------------------------------------------------------------------
  // resolveChatIdOrExit

  /** `resolveChatIdOrExit(arg, config)`. */
  function ResolveChatIdOrExit(arg: string, config: BeeperConfig): (r: Result<string, Exit>)
    ensures r.Err? <==> ResolveAlias(arg, config).None?
    ensures r.Ok? ==> r.value == ResolveAlias(arg, config).value
    ensures r.Err? ==> r.error == Exit(["Invalid chat ID or alias: " + arg])
  {
    var resolved := ResolveAlias(arg, config);
    if resolved.Some? then Ok(resolved.value)
    else if IsValidChatId(arg) then Ok(arg)
    else Err(Exit(["Invalid chat ID or alias: " + arg]))
  }

  /** The second test of `resolveChatIdOrExit` never succeeds: the resolver
      already passes every chat id through, so a null result means the
      argument is not one. */
  lemma ChatIdFallbackIsDead(arg: string, config: BeeperConfig)
    requires ResolveAlias(arg, config).None?
    ensures !IsValidChatId(arg)
  {
  }

  /** What the helper returns is a table value or the argument itself, and
      in the second case the argument is a chat id. */
  lemma ResolvedIsTableValueOrChatId(arg: string, config: BeeperConfig)
    requires ResolveChatIdOrExit(arg, config).Ok?
    ensures var id := ResolveChatIdOrExit(arg, config).value;
      || (arg in AliasTable(config) && id == AliasTable(config)[arg] != "")
      || (id == arg && IsValidChatId(arg))
  {
  }

  // ---------------------------------------------------------------------------
  // parseDateOrExit

  const DateExamplesLine := "   Examples: '1d ago', '2h ago', 'yesterday', 'today'"

  /** `parseDateOrExit(dateStr, optionName)` at the instant `now`. Every
      value `parseRelativeDate` throws is an `Error`, so the "Unknown error"
      alternative of the source never applies. */
  function ParseDateOrExit(dateStr: string, optionName: string, now: int, cal: Calendar): (r: Result<int, Exit>)
    ensures r.Ok? <==> ParseRelativeDate(dateStr, now, cal).Ok?
    ensures r.Ok? ==> r.value == ParseRelativeDate(dateStr, now, cal).value
    ensures r.Err? ==> r.error.stderr == [
      "Invalid " + optionName + " date: " + DateErrorMessage(ParseRelativeDate(dateStr, now, cal).error),
      DateExamplesLine]
  {
    match ParseRelativeDate(dateStr, now, cal)
    case Ok(t) => Ok(t)
    case Err(e) => Err(Exit(["Invalid " + optionName + " date: " + DateErrorMessage(e), DateExamplesLine]))
  }

  /** An input neither keyword nor offset makes the helper exit with the
      format error, which names the input. */
  lemma MalformedDateExits(dateStr: string, optionName: string, now: int, cal: Calendar)
    requires !LowerIs(dateStr, "yesterday") && !LowerIs(dateStr, "today") && MatchPast(dateStr).None?
    ensures ParseDateOrExit(dateStr, optionName, now, cal).Err?
    ensures ParseDateOrExit(dateStr, optionName, now, cal).error.stderr[0]
         == "Invalid " + optionName + " date: " + DateErrorMessage(InvalidDateFormat(dateStr))
  {
  }

  // ---------------------------------------------------------------------------
  // validateDateRangeOrExit

  const RangeErrorLine := "--after date must be before --before date"

  /** `validateDateRangeOrExit(after, before)` on the two instants. */
  function ValidateDateRangeOrExit(after: int, before: int): (r: Outcome<Exit>)
    ensures r.Pass? <==> after < before
    ensures r.Fail? ==> r.error == Exit([RangeErrorLine])
  {
    if after >= before then Fail(Exit([RangeErrorLine])) else Pass
  }

  /** An `--after` and a `--before` offset in the same hour, day or week
      unit, parsed at the clock readings `afterNow` and `beforeNow` (each
      parse reads the clock), whatever the spelling of the two inputs: a
      larger `--after` amount passes unless the clock went back; equal
      amounts pass exactly when the clock moved on between the two reads; a
      smaller `--after` amount fails unless the reads lie a whole unit apart.
      With one reading for both, the check passes exactly when the `--after`
      amount is the larger. */
  lemma OffsetRangeOrder(after: string, before: string, afterNow: int, beforeNow: int, cal: Calendar)
    requires MatchPast(after).Some? && MatchPast(before).Some?
    requires MatchPast(after).value.1 == MatchPast(before).value.1 != Month
    requires ParseDateOrExit(after, "--after", afterNow, cal).Ok?
    requires ParseDateOrExit(before, "--before", beforeNow, cal).Ok?
    ensures var passes := ValidateDateRangeOrExit(
        ParseDateOrExit(after, "--after", afterNow, cal).value,
        ParseDateOrExit(before, "--before", beforeNow, cal).value).Pass?;
      var (n1, u) := MatchPast(after).value;
      var n2 := MatchPast(before).value.0;
      && (n1 > n2 && afterNow <= beforeNow ==> passes)
      && (n1 == n2 ==> (passes <==> afterNow < beforeNow))
      && (n1 < n2 && beforeNow - afterNow < SpanMs(u) ==> !passes)
      && (afterNow == beforeNow ==> (passes <==> n1 > n2))
  {
    var (n1, u) := MatchPast(after).value;
    var n2 := MatchPast(before).value.0;
    PastOffsetValue(after, afterNow, cal);
    PastOffsetValue(before, beforeNow, cal);
    OffsetInstantOrder(n1, n2, SpanMs(u), afterNow, beforeNow);
  }

  /** The order of `a - n1·span` and `b - n2·span`. */
  lemma OffsetInstantOrder(n1: nat, n2: nat, span: nat, a: int, b: int)
    requires span > 0
    ensures n1 > n2 && a <= b ==> a - n1 * span < b - n2 * span
    ensures n1 == n2 ==> (a - n1 * span < b - n2 * span <==> a < b)
    ensures n1 < n2 && b - a < span ==> a - n1 * span >= b - n2 * span
  {
    if n1 > n2 {
      MulStrict(n2, n1, span);
    } else if n1 < n2 {
      MulMonotone(n1 + 1, n2, span);
      assert (n1 + 1) * span == n1 * span + span;
    }
  }

  lemma MulStrict(a: nat, b: nat, c: nat)
    requires a < b && c > 0
    ensures a * c < b * c
  {
  }

  // ---------------------------------------------------------------------------
  // handleCommandError

  const ConnectionLines := ["Cannot connect to Beeper Desktop API",
                            "   Make sure Beeper Desktop is running with API enabled."]

  /** `handleCommandError(error, extraHandlers)`: the connection error is
      recognised first, then the first extra handler (in list order) whose
      `match` occurs in the message, then the generic report. The source
      never returns; the result is what it prints before exiting. */
  method HandleCommandError(error: Thrown, extraHandlers: Option<seq<Hint>>) returns (exit: Exit)
    ensures error.NonError? ==> exit.stderr == ["Unknown error occurred"]
    ensures error.ErrorObject? && Contains(error.message, "ECONNREFUSED") ==> exit.stderr == ConnectionLines
    ensures (error.ErrorObject? && !Contains(error.message, "ECONNREFUSED")
             && extraHandlers.Some? && FirstMatch(extraHandlers.value, error.message).Some?) ==>
      exit.stderr == HintLines("", extraHandlers.value[FirstMatch(extraHandlers.value, error.message).value])
    ensures (error.ErrorObject? && !Contains(error.message, "ECONNREFUSED")
             && (extraHandlers.None? || FirstMatch(extraHandlers.value, error.message).None?)) ==>
      exit.stderr == ["Error: " + error.message]
  {
    if error.NonError? {
      return Exit(["Unknown error occurred"]);
    }
    var msg := error.message;
    if Contains(msg, "ECONNREFUSED") {
      return Exit(ConnectionLines);
    }
    if extraHandlers.Some? {
      var handlers := extraHandlers.value;
      var i := 0;
      while i < |handlers|
        invariant 0 <= i <= |handlers|
        invariant FirstMatch(handlers, msg) == FirstMatchFrom(handlers, msg, i)
      {
        if Contains(msg, handlers[i].pattern) {
          return Exit(HintLines("", handlers[i]));
        }
        i := i + 1;
      }
    }
    return Exit(["Error: " + msg]);
  }

  // ---------------------------------------------------------------------------
  // formatSize

  /** The unit `formatSize` chooses, with the amount it prints in that unit
      (the `toFixed(1)` text of the amount is not modelled). */
  datatype SizeText = Bytes(text: string) | Kilobytes(amount: real) | Megabytes(amount: real)

  function FormatSize(bytes: int): (r: SizeText)
    ensures r.Bytes? <==> bytes < 1024
    ensures r.Kilobytes? <==> 1024 <= bytes < 1024 * 1024
    ensures r.Megabytes? <==> 1024 * 1024 <= bytes
    ensures r.Kilobytes? ==> 1.0 <= r.amount < 1024.0 && r.amount * 1024.0 == bytes as real
    ensures r.Megabytes? ==> 1.0 <= r.amount && r.amount * 1048576.0 == bytes as real
  {
    if bytes < 1024 then Bytes(IntToString(bytes) + "B")
    else if bytes < 1024 * 1024 then Kilobytes(bytes as real / 1024.0)
    else Megabytes(bytes as real / 1048576.0)
  }

  function UnitRank(s: SizeText): nat {
    match s
    case Bytes(_) => 0
    case Kilobytes(_) => 1
    case Megabytes(_) => 2
  }

  /** A larger size never gets a smaller unit. */
  lemma FormatSizeUnitMonotone(a: int, b: int)
    requires a <= b
    ensures UnitRank(FormatSize(a)) <= UnitRank(FormatSize(b))
  {
  }

  /** A size below 1 KB is printed as its decimal digits and "B", and the
      digits read back as the size. */
  lemma FormatSizeBytesText(bytes: nat)
    requires bytes < 1024
    ensures var t := FormatSize(bytes).text;
      t[|t| - 1] == 'B' && AllDigits(t[..|t| - 1]) && DigitsValue(t[..|t| - 1]) == bytes
  {
    var t := FormatSize(bytes).text;
    assert t[..|t| - 1] == NatToString(bytes);
    NatToStringValue(bytes);
  }

  // ---------------------------------------------------------------------------
  // parseArrayOption

  /** An option given once (a string) or repeatedly (an array of strings). */
  datatype OptionValue = Single(s: string) | Many(items: seq<string>)

  /** `s.split(",").map((s) => s.trim())`. */
  function Pieces(s: string): (r: seq<string>)
    ensures |r| == |Split(s, ',')|
    ensures forall i :: 0 <= i < |r| ==> r[i] == Trim(Split(s, ',')[i])
  {
    seq(|Split(s, ',')|, i requires 0 <= i < |Split(s, ',')| => Trim(Split(s, ',')[i]))
  }

  /** `items.flatMap(Pieces)`. */
  function FlatPieces(items: seq<string>): (r: seq<string>)
    ensures |r| >= |items|
  {
    if items == [] then []
    else
      SplitCount(items[0], ',');
      Pieces(items[0]) + FlatPieces(items[1..])
  }

  /** `parseArrayOption(value)`: every string given contributes at least one
      piece, and a single string one piece more than it has commas. */
  function ParseArrayOption(value: OptionValue): (r: seq<string>)
    ensures value.Single? ==> |r| == CountChar(value.s, ',') + 1
    ensures value.Many? ==> |r| >= |value.items|
  {
    match value
    case Single(s) => SplitCount(s, ','); Pieces(s)
    case Many(items) => FlatPieces(items)
  }

  /** No piece holds a comma, and none starts or ends with whitespace. */
  lemma PiecesAreClean(s: string, i: nat)
    requires i < |Pieces(s)|
    ensures ',' !in Pieces(s)[i]
    ensures Pieces(s)[i] != [] ==> !IsJsWhitespace(Pieces(s)[i][0]) && !IsJsWhitespace(Pieces(s)[i][|Pieces(s)[i]| - 1])
  {
    var piece := Split(s, ',')[i];
    SplitPiecesHaveNoSeparator(s, ',');
    NoCountNotIn(piece, ',');
    var e := TrimEnd(piece);
    var r := TrimStart(e);
    assert r == e[|e| - |r|..];
    assert e == piece[..|e|];
  }

  lemma {:induction false} NoCountNotIn(s: string, c: char)
    requires CountChar(s, c) == 0
    ensures c !in s
  {
    if s != [] {
      NoCountNotIn(s[1..], c);
      assert s == [s[0]] + s[1..];
    }
  }

  /** An array of one string is read like the string itself. */
  lemma ManyOfOne(s: string)
    ensures ParseArrayOption(Many([s])) == ParseArrayOption(Single(s))
  {
    assert [s][1..] == [];
    assert FlatPieces([s]) == Pieces(s) + FlatPieces([]);
    assert Pieces(s) + [] == Pieces(s);
  }

  /** The pieces of an array are the pieces of its elements, in order:
      splitting two arrays and concatenating is splitting their
      concatenation. */
  lemma FlatPiecesAppendHead(a: seq<string>, b: seq<string>)
    requires a != []
    ensures FlatPieces(a + b) == Pieces(a[0]) + FlatPieces(a[1..] + b)
  {
    assert (a + b)[0] == a[0] && (a + b)[1..] == a[1..] + b;
  }

  lemma {:induction false} ManyAppend(a: seq<string>, b: seq<string>)
    ensures ParseArrayOption(Many(a + b)) == ParseArrayOption(Many(a)) + ParseArrayOption(Many(b))
  {
    if a != [] {
      var head, rest, tail := Pieces(a[0]), FlatPieces(a[1..]), FlatPieces(b);
      FlatPiecesAppendHead(a, b);
      ManyAppend(a[1..], b);
      assert head + (rest + tail) == (head + rest) + tail;
    } else {
      assert a + b == b;
    }
  }

  // ---------------------------------------------------------------------------
  // The escaping step of highlightQuery: /[.*+?^${}()|[\]\\]/g -> "\\$&"

  /** The characters a regular expression treats specially. */
  predicate IsRegexMeta(c: char) {
    c in ".*+?^${}()|[]\\"
  }

  /** `str.replaceAll(/[.*+?^${}()|[\]\\]/g, "\\$&")`. */
  function EscapeRegex(s: string): (r: string)
    ensures |r| >= |s|
  {
    if s == [] then []
    else (if IsRegexMeta(s[0]) then ['\\', s[0]] else [s[0]]) + EscapeRegex(s[1..])
  }

  /** A pattern read as a literal: a backslash makes the next character
      stand for itself. */
  function Unescape(r: string): string {
    if r == [] then []
    else if r[0] == '\\' && |r| >= 2 then [r[1]] + Unescape(r[2..])
    else [r[0]] + Unescape(r[1..])
  }

  /** A pattern in which every special character is preceded by a
      backslash that escapes it, so the pattern matches only literal text. */
  predicate Escaped(r: string) {
    if r == [] then true
    else if r[0] == '\\' then |r| >= 2 && IsRegexMeta(r[1]) && Escaped(r[2..])
    else !IsRegexMeta(r[0]) && Escaped(r[1..])
  }

  /** The escaped query is a literal pattern ... */
  lemma {:induction false} EscapeRegexEscaped(s: string)
    ensures Escaped(EscapeRegex(s))
  {
    if s != [] {
      EscapeRegexEscaped(s[1..]);
      var r := EscapeRegex(s);
      if IsRegexMeta(s[0]) {
        assert r[2..] == EscapeRegex(s[1..]);
      } else {
        assert r[1..] == EscapeRegex(s[1..]);
      }
    }
  }

  /** ... that stands for exactly the query. */
  lemma {:induction false} UnescapeEscapeRegex(s: string)
    ensures Unescape(EscapeRegex(s)) == s
  {
    if s != [] {
      UnescapeEscapeRegex(s[1..]);
      var r := EscapeRegex(s);
      if IsRegexMeta(s[0]) {
        assert r[2..] == EscapeRegex(s[1..]);
      } else {
        assert r[1..] == EscapeRegex(s[1..]);
      }
      assert s == [s[0]] + s[1..];
    }
  }

  /** Escaping works character by character. */
  lemma {:induction false} EscapeRegexAppend(a: string, b: string)
    ensures EscapeRegex(a + b) == EscapeRegex(a) + EscapeRegex(b)
  {
    if a != [] {
      assert (a + b)[1..] == a[1..] + b;
      EscapeRegexAppend(a[1..], b);
    } else {
      assert a + b == b;
    }
  }

  function CountMeta(s: string): nat {
    if s == [] then 0 else (if IsRegexMeta(s[0]) then 1 else 0) + CountMeta(s[1..])
  }

  /** Exactly one backslash is added per special character. */
  lemma {:induction false} EscapeRegexLength(s: string)
    ensures |EscapeRegex(s)| == |s| + CountMeta(s)
  {
    if s != [] {
      EscapeRegexLength(s[1..]);
    }
  }

  /** A query without special characters is used as it is. */
  lemma {:induction false} EscapeRegexPlain(s: string)
    requires forall i :: 0 <= i < |s| ==> !IsRegexMeta(s[i])
    ensures EscapeRegex(s) == s
  {
    if s != [] {
      EscapeRegexPlain(s[1..]);
      assert s == [s[0]] + s[1..];
    }
  }
}
