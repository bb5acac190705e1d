/** The `chats` command (src/commands/chats.ts): take the search stream when
    `--search` is given and the list stream otherwise, keep up to the limit,
    and describe each chat by its label, network, unread count and a
    truncated preview. */
module Chats {
  import opened Wrappers
  import opened JsStrings
  import opened Config
  import opened Collect
  import opened Process
  import Errors

  /** A chat as the command prints it; a missing text field is `""`, which
      JavaScript treats as false just like `undefined`. */
  datatype Chat = Chat(
    id: string,
    title: string,
    description: string,
    network: string,
    accountID: string,
    unreadCount: int,
    preview: Option<string>)

  /** `truncate(text, maxLength)`: the text when it fits, otherwise its
      first `maxLength - 3` characters (as `slice` counts them) and "...". */
  function Truncate(text: string, maxLength: int): (r: string)
    ensures |text| <= maxLength ==> r == text
    ensures |text| > maxLength ==> 3 <= |r| <= |text| + 3
    ensures |text| > maxLength ==> r[|r| - 3..] == "..." && r[..|r| - 3] == text[..|r| - 3]
    ensures |text| > maxLength >= 3 ==> |r| == maxLength
  {
    if |text| <= maxLength then text else Slice(text, 0, maxLength - 3) + "..."
  }

  /** The result is never longer than the limit, once the limit leaves room for "...". */
  lemma TruncateFits(text: string, maxLength: int)
    requires maxLength >= 3
    ensures |Truncate(text, maxLength)| <= maxLength
    ensures Truncate(text, maxLength) == text || |Truncate(text, maxLength)| == maxLength
  {
  }

  /** Below three, the end `max - 3` of `slice` is negative and counts from
      the end of the text: a limit of 0, 1 or 2 cuts 3, 2 or 1 characters
      (all of a text too short for that) and still appends "...". A text of
      more than three characters thus comes out `max` characters longer:
      never shorter, and longer for a limit of 1 or 2. */
  lemma TruncateSmallLimit(text: string, maxLength: int)
    requires 0 <= maxLength < 3 && |text| > maxLength
    ensures |Truncate(text, maxLength)| == (if |text| + maxLength >= 3 then |text| + maxLength else 3)
    ensures |text| > 3 ==> |Truncate(text, maxLength)| == |text| + maxLength
  {
  }

  /** `chat.title || chat.description || "Unknown"`. */
  function ChatLabel(c: Chat): (r: string)
    ensures r != ""
    ensures c.title != "" ==> r == c.title
    ensures c.title == "" && c.description != "" ==> r == c.description
    ensures c.title == "" && c.description == "" ==> r == "Unknown"
  {
    if c.title != "" then c.title else if c.description != "" then c.description else "Unknown"
  }

  /** `chat.network || chat.accountID`. */
  function NetworkTag(c: Chat): (r: string)
    ensures c.network != "" ==> r == c.network
    ensures c.network == "" ==> r == c.accountID
  {
    if c.network != "" then c.network else c.accountID
  }

  /** The unread suffix: present exactly when the count is non-zero. */
  function UnreadSuffix(count: int): (r: string)
    ensures r == "" <==> count == 0
    ensures count != 0 ==> r == " (" + IntToString(count) + " unread)"
  {
    if count != 0 then " (" + IntToString(count) + " unread)" else ""
  }

  /** The preview line's text: the preview truncated to 50, when it has text. */
  function PreviewText(c: Chat): (r: Option<string>)
    ensures r.Some? <==> Truthy(c.preview)
    ensures r.Some? ==> |r.value| <= 50
    ensures r.Some? && |c.preview.value| <= 50 ==> r.value == c.preview.value
  {
    if Truthy(c.preview) then Some(Truncate(c.preview.value, 50)) else None
  }

  /** Which stream the command reads: the search stream for a non-empty
      `--search` query. */
  function SourceStream(search: Option<string>, listed: seq<Chat>, searched: string -> seq<Chat>): seq<Chat> {
    if Truthy(search) then searched(search.value) else listed
  }

  /** The collection loop of the action, over the stream `--search` selects. */
  method CollectChats(search: Option<string>, listed: seq<Chat>, searched: string -> seq<Chat>, limit: int)
    returns (chats: seq<Chat>)
    ensures Truthy(search) ==> chats == Take(searched(search.value), Cap(limit))
    ensures !Truthy(search) ==> chats == Take(listed, Cap(limit))
  {
    if Truthy(search) {
      chats := CollectUpTo(searched(search.value), limit);
    } else {
      chats := CollectUpTo(listed, limit);
    }
  }

  /** The kept chats are a prefix of the chosen stream, at most the cap long,
      and "No chats found." is printed exactly when that stream is empty. */
  lemma CollectedChatsPrefix(search: Option<string>, listed: seq<Chat>, searched: string -> seq<Chat>, limit: int)
    ensures var s := SourceStream(search, listed, searched);
      var kept := Take(s, Cap(limit));
      && |kept| <= Cap(limit) && kept == s[..|kept|]
      && (kept == [] <==> s == [])
  {
    TakeEmpty(SourceStream(search, listed, searched), Cap(limit));
  }

  // ---------------------------------------------------------------------------
  // The error handler chats.ts and search.ts each define for themselves

  const ConnectionFailedLines := ["\U{274C} Cannot connect to Beeper Desktop API",
                                  "   Make sure Beeper Desktop is running with API enabled."]

  /** The local `handleError(error)`: the connection error, otherwise the
      raw message, otherwise the unknown-error line; then `process.exit(1)`.
      Unlike the shared handler it consults no hint table. */
  function ReportError(error: Thrown): (x: Exit)
    ensures error.NonError? ==> x.stderr == ["\U{274C} Unknown error occurred"]
    ensures error.ErrorObject? && Contains(error.message, "ECONNREFUSED") ==> x.stderr == ConnectionFailedLines
    ensures error.ErrorObject? && !Contains(error.message, "ECONNREFUSED") ==>
      x.stderr == ["\U{274C} Error: " + error.message]
  {
    match error
    case NonError => Exit(["\U{274C} Unknown error occurred"])
    case ErrorObject(msg) =>
      if Contains(msg, "ECONNREFUSED") then Exit(ConnectionFailedLines)
      else Exit(["\U{274C} Error: " + msg])
  }

  /** A "404" is reported with its raw message here, where the shared
      handler of errors.ts prints "Resource not found" and its hint. */
  lemma NotFoundReportedRaw()
    ensures ReportError(ErrorObject("404")) == Exit(["\U{274C} Error: 404"])
    ensures Errors.HandleError(ErrorObject("404")).stderr == Errors.HintLines("Error: ", Errors.ErrorHints[1])
    ensures Errors.ErrorHints[1].message == "Resource not found"
  {
    Errors.ShorterNoMatch("404", "ECONNREFUSED");
    assert "\U{274C} Error: " + "404" == "\U{274C} Error: 404";
    Errors.NotFoundHinted();
  }
}
