/** The error reporter with its ordered hint table (src/lib/errors.ts). */
module Errors {
  import opened Wrappers
  import opened JsStrings
  import opened Process

  /** A pattern looked for in an error message, the message reported instead,
      and an optional hint line. Both `ErrorHint` of errors.ts and
      `ErrorHandler` of command-utils.ts have this shape. */
  datatype Hint = Hint(pattern: string, message: string, hint: Option<string>)

  /** `ERROR_HINTS`, in order. */
  const ErrorHints: seq<Hint> := [
    Hint("ECONNREFUSED", "Cannot connect to Beeper Desktop API",
      Some("Make sure Beeper Desktop is running with API enabled.\n   Settings -> Developers -> Enable Beeper Desktop API")),
    Hint("404", "Resource not found", Some("Make sure the ID is correct.")),
    Hint("403", "Permission denied", Some("Check your token has the required permissions.")),
    Hint("invalid", "Invalid URL format", Some("URL should be mxc:// or localmxc://"))
  ]

  /** Index of the first entry of `table` at or after `from` whose pattern
      occurs (case-sensitively) in `msg`: `table.find(...)` from `from` on. */
  function FirstMatchFrom(table: seq<Hint>, msg: string, from: nat): (r: Option<nat>)
    requires from <= |table|
    ensures r.Some? ==> from <= r.value < |table| && Contains(msg, table[r.value].pattern)
    ensures r.Some? ==> forall j :: from <= j < r.value ==> !Contains(msg, table[j].pattern)
    ensures r.None? ==> forall j :: from <= j < |table| ==> !Contains(msg, table[j].pattern)
    decreases |table| - from
  {
    if from == |table| then None
    else if Contains(msg, table[from].pattern) then Some(from)
    else FirstMatchFrom(table, msg, from + 1)
  }

  function FirstMatch(table: seq<Hint>, msg: string): (r: Option<nat>) {
    FirstMatchFrom(table, msg, 0)
  }

  /** The lines a matched entry prints: its message (prefixed as the caller
      wants) and, when its hint is non-empty, the indented hint. */
  function HintLines(prefix: string, h: Hint): (r: seq<string>)
    ensures 1 <= |r| <= 2 && r[0] == prefix + h.message
    ensures |r| == 2 <==> h.hint.Some? && h.hint.value != ""
    ensures |r| == 2 ==> r[1] == "   " + h.hint.value
  {
    [prefix + h.message] + (if h.hint.Some? && h.hint.value != "" then ["   " + h.hint.value] else [])
  }

  /** `handleError(error)`: what it writes to stderr before `process.exit(1)`. */
  function HandleError(error: Thrown): (x: Exit)
    ensures error.NonError? ==> x.stderr == ["Unknown error occurred"]
    ensures error.ErrorObject? && FirstMatch(ErrorHints, error.message).None? ==>
      x.stderr == ["Error: " + error.message]
    ensures error.ErrorObject? && FirstMatch(ErrorHints, error.message).Some? ==>
      |x.stderr| == 2 && Contains(error.message, ErrorHints[FirstMatch(ErrorHints, error.message).value].pattern)
  {
    match error
    case NonError => Exit(["Unknown error occurred"])
    case ErrorObject(msg) =>
      match FirstMatch(ErrorHints, msg)
      case Some(i) => Exit(HintLines("Error: ", ErrorHints[i]))
      case None => Exit(["Error: " + msg])
  }

  /** The connection error comes first: a message that mentions it is
      reported with the first entry, whatever else it contains. */
  lemma ConnectionRefusedWins(msg: string)
    requires Contains(msg, "ECONNREFUSED")
    ensures FirstMatch(ErrorHints, msg) == Some(0)
    ensures HandleError(ErrorObject(msg)).stderr == HintLines("Error: ", ErrorHints[0])
  {
    assert ErrorHints[0].pattern == "ECONNREFUSED";
  }

  /** "404 ECONNREFUSED" matches both the connection entry and the "404"
      entry; the connection entry, first in the table, is reported. */
  lemma ConnectionRefusedBefore404()
    ensures Contains("404 ECONNREFUSED", ErrorHints[1].pattern)
    ensures HandleError(ErrorObject("404 ECONNREFUSED")).stderr == HintLines("Error: ", ErrorHints[0])
  {
    var msg := "404 ECONNREFUSED";
    assert msg[4..16] == "ECONNREFUSED";
    ContainsAt(msg, "ECONNREFUSED", 4);
    ConnectionRefusedWins(msg);
    assert msg[0..3] == "404";
    ContainsAt(msg, "404", 0);
    assert ErrorHints[1].pattern == "404";
  }

  /** "404" alone gets the second entry: it cannot hold "ECONNREFUSED". */
  lemma NotFoundMatchesSecond()
    ensures FirstMatch(ErrorHints, "404") == Some(1)
  {
    ShorterNoMatch("404", "ECONNREFUSED");
    assert "404"[0..3] == "404";
    ContainsAt("404", "404", 0);
    assert ErrorHints[0].pattern == "ECONNREFUSED" && ErrorHints[1].pattern == "404";
  }

  /** A bare "404" is reported with the second entry: "Resource not found"
      and the hint to check the id. */
  lemma NotFoundHinted()
    ensures HandleError(ErrorObject("404")).stderr == HintLines("Error: ", ErrorHints[1])
    ensures ErrorHints[1].message == "Resource not found"
  {
    NotFoundMatchesSecond();
  }

  /** A string that lacks a character of the pattern does not contain it. */
  lemma {:induction false} NoLetterNoMatch(s: string, sub: string, c: char)
    requires c in sub && c !in s
    ensures !Contains(s, sub)
  {
    if |s| > 0 {
      NoLetterNoMatch(s[1..], sub, c);
    }
  }

  /** The match is case-sensitive: "Invalid" alone does not select the
      "invalid" hint, so the raw message is reported. */
  lemma MatchIsCaseSensitive(msg: string)
    requires msg == "Invalid"
    ensures HandleError(ErrorObject(msg)) == Exit(["Error: Invalid"])
  {
    InvalidMatchesNoHint(msg);
    NoHintContained(msg);
    assert "Error: " + msg == "Error: Invalid";
  }

  lemma InvalidMatchesNoHint(msg: string)
    requires msg == "Invalid"
    ensures forall j :: 0 <= j < |ErrorHints| ==> !Contains(msg, ErrorHints[j].pattern)
  {
    assert 'E' !in msg && '4' !in msg;
    NoLetterNoMatch(msg, "ECONNREFUSED", 'E');
    NoLetterNoMatch(msg, "404", '4');
    NoLetterNoMatch(msg, "403", '4');
    assert !StartsWith(msg, "invalid") by { assert msg[0] != "invalid"[0]; }
    ShorterNoMatch(msg[1..], "invalid");
  }

  /** A message that contains no pattern of the table gets no entry. */
  lemma NoHintContained(msg: string)
    requires forall j :: 0 <= j < |ErrorHints| ==> !Contains(msg, ErrorHints[j].pattern)
    ensures FirstMatch(ErrorHints, msg) == None
  {
  }

  lemma {:induction false} ShorterNoMatch(s: string, sub: string)
    requires |s| < |sub|
    ensures !Contains(s, sub)
  {
    if |s| > 0 {
      ShorterNoMatch(s[1..], sub);
    }
  }

  /** Every entry has a hint, so a matched message always prints two lines, the second its hint. */
  lemma MatchedPrintsHint(msg: string)
    requires FirstMatch(ErrorHints, msg).Some?
    ensures HandleError(ErrorObject(msg)).stderr
         == ["Error: " + ErrorHints[FirstMatch(ErrorHints, msg).value].message,
             "   " + ErrorHints[FirstMatch(ErrorHints, msg).value].hint.value]
  {
  }
}
