# beepctl core, modelled in Dafny

beepctl is a command-line client for the local HTTP API of Beeper Desktop. It
lists chats and messages, searches, manages chat aliases and stores an API
token. Most of it passes arguments to a generated HTTP client and prints the
replies. This project models the deterministic rules around those calls and
proves what they promise:

- **Relative and future time parsing** (`Dates`): `parseRelativeDate` parses
  "today", "yesterday" and `<N>(h|d|w|mo) ago`. `parseFutureTime` parses
  "tomorrow" and `<N>(m|h|d|w)`, then falls back to `Date.parse`. The clock
  is a parameter `now` (epoch milliseconds). The local-time calendar
  operations and `Date.parse` are uninterpreted functions in a `Calendar`
  value.
- **Alias resolution and validation** (`Aliases`): table first, then
  `!`-prefixed pass-through, then null. Also the alias-name and chat-id
  validators.
- **Command helpers** (`CommandUtils`, `Errors`): resolve or exit, parse a date
  or exit, the date-range check, the two error reporters with their
  first-match hint selection, the file-size unit, comma-list options, and the
  regular-expression escaping used for highlighting.
- **Commands**:
  - `alias` add/remove/show/list (`AliasCommand`) on the alias table of the
    config file (`Config.ConfigFile`, a class whose `saved` field the commands
    update);
  - the `messages` date window with its limit (`Messages`);
  - the `chats` and `search` collection loops, `truncate` and labels (`Chats`,
    `Search`, `Collect`);
  - token masking and the env/config/default precedence of `auth` (`Auth`).

`process.exit(1)` becomes an `Exit` value that holds the lines written to
stderr before it. A thrown error becomes a `Result` error. API streams are
finite sequences passed in as parameters. JavaScript string behaviour is
written out in `JsStrings`, with lengths counted in Unicode characters rather
than UTF-16 code units:
- ASCII case folding;
- the `\s` class and `trim`;
- `slice` with negative indices;
- `split` and `includes`.

## Model

| member | source | states |
|---|---|---|
| `Dates.ParseRelativeDate` | src/lib/dates.ts:5-54 | fails with "Invalid date format" exactly when the input is neither keyword (any case) nor matched by the offset grammar; any other error is toISOString's range error; a result is a valid `Date` instant |
| `Dates.KeywordsAnyCase` | src/lib/dates.ts:9-21 | "yesterday" in any case is local midnight of the day before `now`, "today" local midnight of `now`'s day; neither matches the offset grammar, so the check order changes nothing |
| `Dates.MatchPast` | src/lib/dates.ts:24 | the offset matcher never yields minutes: "m" is no past unit (the grammar itself, both ways, is in the next two rows) |
| `Dates.PastOffsetAccepted` | src/lib/dates.ts:24 | digits, a unit h/d/w/mo in any case, optional whitespace and "ago" in any case are matched, with the amount the digits denote and that unit |
| `Dates.PastOffsetShape` | src/lib/dates.ts:24 | every matched input splits into digits, unit, whitespace and "ago", so the matcher accepts nothing else |
| `Dates.PastOffsetValue` | src/lib/dates.ts:26-48 | a matched offset yields `now − N·span` for h/d/w and `addMonths(now, −N)` for mo, under toISOString's range check |
| `Dates.RenderedPastMatches` | src/lib/dates.ts:24-42 | `"{N}h ago"`, `"{N}d ago"`, `"{N}w ago"` and `"{N}mo ago"` match with amount N for every N |
| `Dates.PastOffsetNotAfterNow` | src/lib/dates.ts:31-42 | an hour, day or week offset never lies after `now` |
| `Dates.PastOffsetAntitone` | src/lib/dates.ts:31-42 | for the same unit, a larger amount gives an earlier or equal instant, whatever the spelling of the inputs |
| `Dates.NoLeadingDigitRejected` | src/lib/dates.ts:23-53 | a non-keyword input that does not start with a digit is rejected with "Invalid date format" |
| `Dates.RejectedPastInputs` | src/lib/dates.ts:23-53 | a leading space, a sign and a word are rejected |
| `Dates.MinutesAgoRejected` | src/lib/dates.ts:24 | "1m ago" is rejected: m is no past unit |
| `Dates.TrailingSpaceRejected` | src/lib/dates.ts:24 | nothing may follow "ago" |
| `Dates.PastExamplesAdvertised` | src/lib/dates.ts:51-53 | the "Invalid date format" message contains each of the six quoted forms |
| `Dates.PastExampleAccepted` | src/lib/dates.ts:23-53 | every offset form the message offers is accepted by the grammar |
| `Dates.ParseFutureTime` | src/lib/dates.ts:60-99 | fails with "Invalid time format" exactly when the input is not "tomorrow", not a future offset and `Date.parse` gives NaN; an offset result is ≥ `now` |
| `Dates.MatchFuture` | src/lib/dates.ts:72 | the future matcher never yields months: "mo" is no future unit (the grammar itself, both ways, is in the next two rows) |
| `Dates.FutureOffsetAccepted` | src/lib/dates.ts:72-87 | digits followed by one unit letter m/h/d/w in either case give `now + N·span` |
| `Dates.FutureOffsetShape` | src/lib/dates.ts:72 | every matched input is digits followed by one unit letter, with no whitespace or suffix |
| `Dates.RenderedFutureOffset` | src/lib/dates.ts:72-87 | `"{N}m"`, `"{N}h"`, `"{N}d"`, `"{N}w"` give `now` plus N minutes, hours, days or weeks for every N |
| `Dates.TomorrowAnyCase` | src/lib/dates.ts:64-69 | "tomorrow" in any case is 09:00 local time on the next calendar day, and `Date.parse` is not consulted |
| `Dates.GrammarBeforeFallback` | src/lib/dates.ts:72-93 | a matched offset is returned whatever `Date.parse` would make of the input |
| `Dates.FallbackOtherwise` | src/lib/dates.ts:90-98 | otherwise a non-NaN `Date.parse` result is returned unchanged and NaN raises "Invalid time format" |
| `Dates.FutureGrammarRejectsPastForms` | src/lib/dates.ts:56-72 | "2d ago" and "1mo" are no future offsets |
| `Dates.PastGrammarRejectsFutureForms` | src/lib/dates.ts:23-53 | "30m" and "2d" are invalid past dates |
| `Dates.FutureExamplesValues` | src/lib/dates.ts:79-84 | "30m" is `now + 1,800,000` and "2d" is `now + 172,800,000` |
| `Dates.FutureExamplesAdvertised` | src/lib/dates.ts:96-98 | the "Invalid time format" message contains each quoted form it offers |
| `Dates.FutureExamplesAccepted` | src/lib/dates.ts:72-97 | every form that message offers is accepted, whatever `Date.parse` does |
| `Aliases.ResolveAlias` | src/lib/aliases.ts:4-12 | a table entry with a non-empty value wins, then a `!`-prefixed input is returned unchanged, otherwise null; a result is never empty |
| `Aliases.EmptyEntryIsAbsent` | src/lib/aliases.ts:5 | an entry whose value is "" resolves as if the key were absent |
| `Aliases.UnmappedResultIsChatId` | src/lib/aliases.ts:8-22 | for an input not in the table, a non-null result is the input itself and a valid chat id |
| `Aliases.TableBeatsPassThrough` | src/lib/aliases.ts:5-7 | the table is consulted first, even for an input that starts with `!` |
| `Aliases.IsValidAliasName` | src/lib/aliases.ts:15-17 | valid exactly when non-empty and every character is an ASCII letter, a digit or "_"; so no space, "!" or "-" |
| `Aliases.IsValidChatId` | src/lib/aliases.ts:20-22 | valid exactly when the first character is "!" |
| `Aliases.AliasNamesAreNotChatIds` | src/lib/aliases.ts:15-22 | no valid alias name is a valid chat id |
| `Aliases.ResolveExamples` | src/lib/aliases.ts:4-22 | concrete cases: table hit, pass-through, not found, valid and invalid alias names and chat ids, "" invalid for both |
| `Aliases.ResolveAliasAsWritten` | src/lib/aliases.ts:5-6 | the lookup as JavaScript performs it returns an inherited value only for an Object.prototype member name |
| `Aliases.PrototypeNameResolvesAsWritten` | src/lib/aliases.ts:5-6 | as written, "toString" resolves against an empty table to an inherited function, where `ResolveAlias` yields null |
| `Aliases.AsWrittenAgreesOffPrototype` | src/lib/aliases.ts:4-12 | both lookups agree on every own key and on every other non-prototype name |
| `CommandUtils.ResolveChatIdOrExit` | src/lib/command-utils.ts:9-16 | exits exactly when `resolveAlias` returns null, with "Invalid chat ID or alias"; otherwise returns the resolved id |
| `CommandUtils.ChatIdFallbackIsDead` | src/lib/command-utils.ts:10-12 | when the resolver returns null the argument is no chat id, so the second test never succeeds |
| `CommandUtils.ResolvedIsTableValueOrChatId` | src/lib/command-utils.ts:9-16 | a returned id is a non-empty table value of the argument, or the argument itself when it is a chat id |
| `CommandUtils.ParseDateOrExit` | src/lib/command-utils.ts:21-30 | returns `parseRelativeDate`'s instant when it succeeds; otherwise exits with its message prefixed by the option name, and the examples line |
| `CommandUtils.MalformedDateExits` | src/lib/command-utils.ts:21-30 | an input outside both grammars exits with the format error naming the input |
| `CommandUtils.ValidateDateRangeOrExit` | src/lib/command-utils.ts:35-40 | passes exactly when `after < before`; equal instants are rejected |
| `CommandUtils.OffsetRangeOrder` | src/lib/command-utils.ts:21-40 | two offsets in the same fixed unit, parsed at two clock readings: a larger `--after` amount passes unless the clock went back; equal amounts pass exactly when the clock moved on between the reads; a smaller `--after` amount fails unless the reads are a whole unit apart; with one reading, passes exactly when the `--after` amount is larger |
| `CommandUtils.HandleCommandError` | src/lib/command-utils.ts:45-70 | a non-Error gives "Unknown error occurred"; ECONNREFUSED is checked before any extra handler; otherwise the first handler in list order whose `match` occurs in the message; otherwise "Error: " + message |
| `CommandUtils.FormatSize` | src/lib/command-utils.ts:81-85 | "B" below 1024, KB from 1024 below 1,048,576, MB from there on, with the amount in that unit |
| `CommandUtils.FormatSizeUnitMonotone` | src/lib/command-utils.ts:81-85 | a larger size never gets a smaller unit |
| `CommandUtils.FormatSizeBytesText` | src/lib/command-utils.ts:82 | below 1 KB the text is the size's decimal digits followed by "B" |
| `CommandUtils.ParseArrayOption` | src/lib/command-utils.ts:90-95 | a single string gives one piece more than it has commas; an array gives at least one piece per element |
| `CommandUtils.PiecesAreClean` | src/lib/command-utils.ts:94 | no piece holds a comma, and none starts or ends with whitespace |
| `CommandUtils.ManyOfOne` | src/lib/command-utils.ts:90-95 | an array of one string gives the same pieces as the string |
| `CommandUtils.ManyAppend` | src/lib/command-utils.ts:91-92 | the pieces of an array are its elements' pieces concatenated in order |
| `CommandUtils.EscapeRegex` | src/lib/command-utils.ts:101 | the escaped text is never shorter than the query |
| `CommandUtils.EscapeRegexEscaped` | src/lib/command-utils.ts:101 | in the escaped text every special character is preceded by a backslash |
| `CommandUtils.UnescapeEscapeRegex` | src/lib/command-utils.ts:101 | reading the escaped text as a literal gives back exactly the query |
| `CommandUtils.EscapeRegexAppend` | src/lib/command-utils.ts:101 | escaping works character by character |
| `CommandUtils.EscapeRegexLength` | src/lib/command-utils.ts:101 | exactly one backslash is added per special character |
| `CommandUtils.EscapeRegexPlain` | src/lib/command-utils.ts:101 | a query without special characters is left unchanged |
| `Errors.FirstMatchFrom` | src/lib/errors.ts:38 | the index of the first entry whose pattern occurs in the message; no entry before it matches, and `None` means none matches |
| `Errors.HandleError` | src/lib/errors.ts:32-46 | a non-Error gives "Unknown error occurred"; no matching hint gives "Error: " + message; a matched hint prints two lines and its pattern occurs in the message |
| `Errors.ConnectionRefusedWins` | src/lib/errors.ts:9-38 | a message containing ECONNREFUSED is reported as the connection error, whatever else it contains |
| `Errors.ConnectionRefusedBefore404` | src/lib/errors.ts:9-38 | a message with both "404" and "ECONNREFUSED" reports the connection error |
| `Errors.MatchIsCaseSensitive` | src/lib/errors.ts:26-44 | "Invalid" does not select the "invalid" hint; the raw message is reported |
| `Errors.MatchedPrintsHint` | src/lib/errors.ts:39-41 | a matched entry prints "Error: " + its message and then its hint line |
| `Errors.HintLines` | src/lib/errors.ts:39-41 | the message line with the prefix, then the indented hint exactly when the hint is non-empty |
| `Errors.NotFoundHinted` | src/lib/errors.ts:15-41 | a bare "404" is reported with the second entry, "Resource not found", and its hint |
| `Messages.Qualifies` | src/commands/messages.ts:53-55 | a message passes the window exactly when its timestamp is invalid, or is after `--after` (when given) and before `--before` (when given) |
| `Messages.Filtered` | src/commands/messages.ts:52-55 | never more messages than the stream; which messages, and in what order, is stated by `Messages.FilteredMembers` and `Messages.KeptIsSubsequence` |
| `Messages.CollectMessages` | src/commands/messages.ts:51-58 | the kept messages are the first `max(limit, 1)` qualifying messages of the stream |
| `Messages.FilteredMembers` | src/commands/messages.ts:53-55 | a message is in the filtered stream exactly when it is in the stream and inside the window |
| `Messages.KeptAfter` | src/commands/messages.ts:54-55 | every kept message with a valid timestamp is strictly after `--after` and strictly before `--before` |
| `Messages.KeptIsSubsequence` | src/commands/messages.ts:51-58 | the kept list is an order-preserving subsequence of the stream |
| `Messages.NonPositiveLimitKeepsOne` | src/commands/messages.ts:56-57 | a limit below one still keeps the first qualifying message |
| `Messages.FilterDescription` | src/commands/messages.ts:37-40 | empty exactly when neither option is given; otherwise `after` is listed before `before`, with the raw option text |
| `Messages.BuildNetworkMap` | src/commands/messages.ts:44-48 | the loop builds the map in which each account id maps to its network, or to the id when the network is empty |
| `Messages.NetworkMapKeys` | src/commands/messages.ts:45-48 | the map's keys are exactly the account ids |
| `Messages.NetworkMapLastWins` | src/commands/messages.ts:46-47 | a later account with the same id overwrites an earlier one |
| `Messages.NetworkLabel` | src/commands/messages.ts:85 | a message's network label is the map's non-empty entry, otherwise its account id |
| `Messages.NetworkLabelOfAccount` | src/commands/messages.ts:45-85 | for an account, the label is its network, or its id when the network is empty |
| `Messages.AttachmentIcon` | src/commands/messages.ts:110-121 | img→"img", video→"vid", audio→"aud", anything else including undefined→"att", each both ways |
| `Messages.ListMessages` | src/commands/messages.ts:21-58 | with a separate clock reading for each of the two date parses: exits on an unresolvable chat, then on a bad `--after`, then on a bad `--before`, then on an inverted range (checked only when both are given); otherwise lists the filter text, the network map and the kept messages |
| `Messages.NoDatesListsPrefix` | src/commands/messages.ts:51-58 | without date options the first `max(limit, 1)` messages are listed |
| `AliasCommand.AddAlias` | src/commands/alias.ts:20-55 | rejects an invalid name before looking at the chat id, then a chat id without `!`; otherwise sets `name := chatId` and leaves every other entry, the token and the URL unchanged; warns exactly when it overwrites a non-empty value |
| `AliasCommand.Add` | src/commands/alias.ts:25-55 | a rejected argument saves nothing; otherwise the file holds the updated config |
| `AliasCommand.RemoveAlias` | src/commands/alias.ts:57-75 | "not found" exactly when the name is absent or maps to ""; otherwise deletes only that key |
| `AliasCommand.Remove` | src/commands/alias.ts:61-75 | a missing name saves nothing; otherwise the file holds the table without the name |
| `AliasCommand.ShowAlias` | src/commands/alias.ts:77-92 | fails when the name has no non-empty entry, otherwise reports the mapped id |
| `AliasCommand.ListAliases` | src/commands/alias.ts:94-112 | the "No aliases configured" path is taken exactly when the table is empty; otherwise every entry is listed |
| `AliasCommand.ListEmptyIffNoKeys` | src/commands/alias.ts:97-99 | the table is empty exactly when it holds no key |
| `AliasCommand.AddThenShowAndResolve` | src/commands/alias.ts:50-91 | an alias just added is shown, and resolved, as its chat id |
| `AliasCommand.AddIdempotent` | src/commands/alias.ts:50-52 | adding the same alias twice saves the same config as adding it once |
| `AliasCommand.AddThenRemove` | src/commands/alias.ts:50-70 | removing what was just added gives the original table without that name, and exactly the original table when the name was new |
| `AliasCommand.RemoveThenShowAndResolve` | src/commands/alias.ts:70-88 | a removed name is not found any more and resolves only as a chat id |
| `AliasCommand.AddPersists` | src/commands/alias.ts:40-52 | saved and reloaded without override variables, the new alias resolves to its chat id |
| `AliasCommand.AddUnderOverride` | src/commands/alias.ts:40-52 | with BEEPER_TOKEN or BEEPER_URL set, `add` saves a table holding only the new alias |
| `AliasCommand.RemoveAliasAsWritten` | src/commands/alias.ts:63-72 | the guard as JavaScript evaluates it also passes for an absent Object.prototype member name |
| `AliasCommand.PrototypeNameRemovedAsWritten` | src/commands/alias.ts:63-72 | as written, removing the valid alias name "constructor" from an empty table succeeds, where `RemoveAlias` reports not found |
| `AliasCommand.AddAliasAsWritten` | src/commands/alias.ts:40-52 | the same validation as `AddAlias`; warns exactly for a non-empty own entry or an absent Object.prototype member name; an absent `__proto__` leaves the table unchanged, any other name is stored as by `AddAlias` |
| `AliasCommand.AddAsWrittenAgreesOffPrototype` | src/commands/alias.ts:40-52 | off the Object.prototype names, `add` as written saves the same config and warns with the same own value as `AddAlias` |
| `AliasCommand.InheritedNameWarnsAsWritten` | src/commands/alias.ts:44-48 | as written, `add toString !abc` on an empty table warns with the inherited function, where `AddAlias` overwrites nothing |
| `AliasCommand.ProtoNameNotStoredAsWritten` | src/commands/alias.ts:50-52 | as written, `add __proto__ !abc` on an empty table saves an empty table, where `AddAlias` stores the alias |
| `AliasCommand.ShowAliasAsWritten` | src/commands/alias.ts:82-91 | found exactly for a non-empty own entry or an absent Object.prototype member name; an own entry is what `ShowAlias` reports, an absent one the inherited member |
| `AliasCommand.PrototypeNameShownAsWritten` | src/commands/alias.ts:82-91 | as written, `show toString` on an empty table, and `show constructor` after removing an own "constructor" alias, find the inherited member, where `ShowAlias` reports not found |
| `Chats.Truncate` | src/commands/chats.ts:69-72 | the text unchanged when it fits; otherwise a prefix of the text followed by "...", of length exactly `max` when `max ≥ 3` |
| `Chats.TruncateFits` | src/commands/chats.ts:69-72 | for `max ≥ 3` the result never exceeds `max` and is the text or exactly `max` long |
| `Chats.TruncateSmallLimit` | src/commands/chats.ts:71 | for `0 ≤ max < 3` and a text longer than `max`, the negative slice end counts from the end, so the result has `max(|text| + max − 3, 0) + 3` characters: for a text of more than three characters, `max` more than the text |
| `Chats.ChatLabel` | src/commands/chats.ts:47 | title, else description, else "Unknown"; never empty |
| `Chats.NetworkTag` | src/commands/chats.ts:48 | the network, else the account id |
| `Chats.UnreadSuffix` | src/commands/chats.ts:49 | present exactly when the unread count is non-zero |
| `Chats.PreviewText` | src/commands/chats.ts:54-57 | a preview line exactly when the preview has text, at most 50 characters, unchanged when it fits |
| `Chats.CollectChats` | src/commands/chats.ts:18-32 | the search stream when `--search` is given, the list stream otherwise, cut at `max(limit, 1)` |
| `Chats.CollectedChatsPrefix` | src/commands/chats.ts:18-37 | the kept chats are an in-order prefix of the chosen stream, at most `max(limit, 1)` long, empty exactly when the stream is |
| `Chats.ReportError` | src/commands/chats.ts:74-86 | the connection error, otherwise "Error: " + message, otherwise the unknown-error line (search.ts:100-112 defines the same handler) |
| `Chats.NotFoundReportedRaw` | src/commands/chats.ts:75-81 | the local handler reports a "404" with its raw message, while `handleError` of errors.ts reports the same error with the "Resource not found" entry and its hint |
| `Collect.CollectUpTo` | src/commands/search.ts:29-33 | the push-then-test loop keeps the first `max(limit, 1)` items of the stream |
| `Collect.TakeEmpty` | src/commands/search.ts:29-40 | a capped collection is empty exactly when the stream is |
| `Search.RunSearch` | src/commands/search.ts:14-45 | "No results" exactly when both streams are empty; otherwise messages cut at `max(limit, 1)`, chats cut at 5, and the network map |
| `Search.HighlightPattern` | src/commands/search.ts:91-98 | the highlight pattern is the escaped query inside one group |
| `Search.HighlightPatternIsLiteral` | src/commands/search.ts:96-98 | inside the group the pattern is a literal that stands for exactly the query |
| `Auth.MaskToken` | src/commands/auth.ts:31 | for every length: the first 8 characters (all of a shorter token), "...", the last 4 (all of a shorter token); at most 15 characters |
| `Auth.ShortTokenFullyShown` | src/commands/auth.ts:31 | a token of at most 12 characters is shown in full by the two parts |
| `Auth.ShowAuth` | src/commands/auth.ts:19-46 | token: BEEPER_TOKEN, then the config token masked, then "not set"; URL: BEEPER_URL, then the config URL, then the default, with a source label for the branch taken |
| `Auth.UrlVariableHidesFileToken` | src/commands/auth.ts:23-35 | with only BEEPER_URL set, a token saved in the file shows as not set |
| `Auth.TokenVariableHidesFileUrl` | src/commands/auth.ts:23-42 | with only BEEPER_TOKEN set, a URL saved in the file is ignored for the default |
| `Auth.WithToken` | src/commands/auth.ts:12-13 | only the token changes; the URL and the aliases are kept |
| `Auth.SetToken` | src/commands/auth.ts:11-17 | the file holds the loaded config with the new token; without override variables the URL and aliases on disk are kept |
| `Auth.SetThenShow` | src/commands/auth.ts:11-35 | without override variables, a token just set is the one `show` masks next |
| `Auth.SetUnderOverride` | src/commands/auth.ts:12-14 | with an override variable set, `set` drops the file's aliases and saves BEEPER_URL as the URL |
| `Auth.Clear` | src/commands/auth.ts:48-54 | the file becomes `{}` |
| `Auth.ClearedShowsDefaults` | src/commands/auth.ts:52 | after `clear` there is no token, the default URL and no alias |
| `Config.GetConfig` | src/lib/config.ts:50-71 | either variable set: only the two variables, no aliases; otherwise the file's content |

## Left out

- The HTTP client and its lazy singleton (src/lib/client.ts), which wrap a foreign library. API responses are parameters: account lists and finite message and chat streams. The pages fetched behind a stream are not modelled.
- Config file I/O, directory creation and the legacy-directory migration of src/lib/config.ts. The file is the `saved` field of `Config.ConfigFile`, and an unreadable file is the `{}` it yields.
- JavaScript `Date` internals: the local time zone, `setDate`, `setHours` and `setMonth` arithmetic, and `Date.parse`. They are uninterpreted functions, and nothing is assumed about them, so nothing is asserted about month lengths. `setMonth` rolls an overflowing day into the next month (31 March minus one month is 3 March in a non-leap year); it does not clamp to the month's last day. The ISO text of `toISOString` is not modelled either. A valid instant stands for its text, and an out-of-range instant gives the `RangeError` "Invalid time value".
- Dates.ParseFutureTime: one instant `now` stands for both clock reads. The "tomorrow" branch reads the clock again with `new Date()`.
- Dates.ParseFutureTime: integers are unbounded. `parseInt` and the multiplication are IEEE doubles in the source, so amounts beyond 2^53 lose precision there. This function has no range check. `parseRelativeDate` keeps the source's range check through `toISOString`.
- CommandUtils.FormatSize: the `toFixed(1)` decimal text of the KB and MB amounts is not modelled. Only the branch, the unit and the exact amount are.
- The `RegExp` replacement of `highlightQuery` (kleur colouring of matches). Only the escaping and the pattern text are modelled.
- kleur colours, emoji and all `console.log` output. Lines written before an exit are kept as plain text. Listings are returned as values instead of being printed.
- `process.exit` becomes an `Exit` value. Every exit in the CLI uses status 1.
- `NaN` limits produced by `parseInt` on a non-numeric `--limit`.
- The order of `Object.entries` in `alias list`. The listing is the table itself.
- AliasCommand.AddAlias: reads and writes own keys only. For the twelve Object.prototype member names the program warns about an inherited value and, for an absent `__proto__`, stores nothing (see Findings and `AliasCommand.AddAliasAsWritten`).
- AliasCommand.Add: saves what `AddAlias` computes, so for an absent `__proto__` its file holds an entry that the program as written never stores.
- AliasCommand.ShowAlias: reads own keys only. As written, `show` also finds an absent Object.prototype member name (see `AliasCommand.ShowAliasAsWritten`).
- AliasCommand.AddThenShowAndResolve: holds of the own-key model. As written it fails for an absent `__proto__`, which `add` does not store.
- AliasCommand.RemoveThenShowAndResolve: holds of the own-key model. As written, after removing an own Object.prototype member name, `show` and `resolveAlias` find the inherited member.
- AliasCommand.AddPersists: holds of the own-key model. As written the saved file does not hold an absent `__proto__`.
- Chats.Truncate: lengths and slice indices count Unicode characters, while `text.length` and `slice` count UTF-16 code units. A text with characters outside the Basic Multilingual Plane is cut at a different place, and the split of a surrogate pair that `slice` can make is not modelled.
- Chats.PreviewText: the 50-character limit counts Unicode characters, not UTF-16 code units as the program does, for the reason given for `Chats.Truncate`.
- Messages.ListMessages: a message timestamp that gives an Invalid Date is kept by the window, because comparisons with NaN are false. The after/before properties are stated for messages with a valid timestamp.
- Glue commands: accounts, contacts, send, download, reminders, focus, archive, src/cli.ts and src/index.ts. focus.ts and archive.ts only repeat the resolve-or-exit rule of `CommandUtils.ResolveChatIdOrExit`.
- Message printing other than the network label and attachment icon: sender fallback, reaction lists and `toLocaleString` times.

## Findings

| source | as written | input that shows it | evidently intended | confidence | as-written member | corrected member |
|---|---|---|---|---|---|---|
| src/lib/aliases.ts:5-6 | `config.aliases?.[input]` is a property lookup on a plain object. It also finds members inherited from Object.prototype. | `resolveAlias("toString", {aliases: {}})` returns the inherited function `Object.prototype.toString` instead of null | only the table's own keys are aliases | high (not executed) | `Aliases.PrototypeNameResolvesAsWritten` | `Aliases.ResolveAlias` |
| src/commands/alias.ts:63-72 | `!aliases[name]` has the same lookup. An absent name that is an Object.prototype member passes the guard. | `alias remove constructor` with no such alias reports "removed" and saves the config | "not found" for every name that is not an own key with a non-empty value | high (not executed) | `AliasCommand.PrototypeNameRemovedAsWritten` | `AliasCommand.RemoveAlias` |
| src/commands/alias.ts:44-48 | the overwrite warning tests `aliases[name]`, which finds inherited members | `alias add toString !abc` with no such alias warns "already exists" and shows the source text of `Object.prototype.toString` | warn only when an own entry is overwritten | high (not executed) | `AliasCommand.InheritedNameWarnsAsWritten` | `AliasCommand.AddAlias` |
| src/commands/alias.ts:50-52 | `aliases[name] = chatId` with `name` = `__proto__` calls the inherited setter, which ignores a string | `alias add __proto__ !abc` prints "saved" and saves a table without the alias | store every valid alias name, or reject `__proto__` | high (not executed) | `AliasCommand.ProtoNameNotStoredAsWritten` | `AliasCommand.AddAlias` |
| src/commands/alias.ts:85-91 | `show` tests and prints `aliases[name]`, which finds inherited members | `alias show toString` with no such alias prints the source text of `Object.prototype.toString` as the chat id | "not found" for every name that is not an own key with a non-empty value | high (not executed) | `AliasCommand.PrototypeNameShownAsWritten` | `AliasCommand.ShowAlias` |
