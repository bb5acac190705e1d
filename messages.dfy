/** The `messages` command (src/commands/messages.ts): resolve the chat,
    parse the date options, check their order, describe the filters, build
    the account-to-network map, then collect the chat's messages through the
    client-side date window until the limit is reached. */
module Messages {
  import opened Wrappers
  import opened JsStrings
  import opened Process
  import opened Config
  import opened Dates
  import opened CommandUtils
  import opened Collect

  /** A message as far as the command looks at it: `timestamp` is `None`
      when `new Date(msg.timestamp)` is an Invalid Date. */
  datatype Message = Message(id: string, chatID: string, accountID: string, timestamp: Option<int>)

  /** An account, with `""` for a missing `network`. */
  datatype Account = Account(accountID: string, network: string)

  // ---------------------------------------------------------------------------
  // The date window

  /** Whether the loop keeps `m`: it skips a message at or before `after` and
      one at or after `before`. Comparisons with an Invalid Date are false,
      so a message without a valid timestamp is never skipped. */
  predicate Qualifies(m: Message, after: Option<int>, before: Option<int>)
    ensures Qualifies(m, after, before) <==>
      m.timestamp.None? || ((after.None? || m.timestamp.value > after.value) && (before.None? || m.timestamp.value < before.value))
  {
    && !(after.Some? && m.timestamp.Some? && m.timestamp.value <= after.value)
    && !(before.Some? && m.timestamp.Some? && m.timestamp.value >= before.value)
  }

  /** What the loop pushes for one message: the message, or nothing. */
  function Kept(m: Message, after: Option<int>, before: Option<int>): seq<Message> {
    if Qualifies(m, after, before) then [m] else []
  }

  /** The qualifying messages of `s`, in order. */
  function Filtered(s: seq<Message>, after: Option<int>, before: Option<int>): (r: seq<Message>)
    ensures |r| <= |s|
  {
    if s == [] then []
    else Kept(s[0], after, before) + Filtered(s[1..], after, before)
  }

  lemma FilteredAppendHead(s: seq<Message>, t: seq<Message>, after: Option<int>, before: Option<int>)
    requires s != []
    ensures Filtered(s + t, after, before) == Kept(s[0], after, before) + Filtered(s[1..] + t, after, before)
  {
    assert (s + t)[0] == s[0] && (s + t)[1..] == s[1..] + t;
  }

  lemma {:induction false} FilteredAppend(s: seq<Message>, t: seq<Message>, after: Option<int>, before: Option<int>)
    ensures Filtered(s + t, after, before) == Filtered(s, after, before) + Filtered(t, after, before)
  {
    if s != [] {
      var head, rest, tail := Kept(s[0], after, before), Filtered(s[1..], after, before), Filtered(t, after, before);
      FilteredAppendHead(s, t, after, before);
      FilteredAppend(s[1..], t, after, before);
      assert head + (rest + tail) == (head + rest) + tail;
    } else {
      assert s + t == t;
    }
  }

  /** A message is in the filtered stream exactly when it is in the stream and qualifies. */
  lemma {:induction false} FilteredMembers(s: seq<Message>, after: Option<int>, before: Option<int>, m: Message)
    ensures m in Filtered(s, after, before) <==> m in s && Qualifies(m, after, before)
  {
    if s != [] {
      FilteredMembers(s[1..], after, before, m);
      assert s == [s[0]] + s[1..];
    }
  }

  /** `sub` is `s` with some items left out, the rest in order. */
  predicate IsSubsequence(sub: seq<Message>, s: seq<Message>)
    decreases |s|
  {
    if sub == [] then true
    else if s == [] then false
    else if sub[0] == s[0] then IsSubsequence(sub[1..], s[1..])
    else IsSubsequence(sub, s[1..])
  }

  lemma {:induction false} FilteredIsSubsequence(s: seq<Message>, after: Option<int>, before: Option<int>)
    ensures IsSubsequence(Filtered(s, after, before), s)
  {
    if s != [] {
      FilteredIsSubsequence(s[1..], after, before);
      var rest := Filtered(s[1..], after, before);
      if Qualifies(s[0], after, before) {
        assert ([s[0]] + rest)[1..] == rest;
      } else {
        assert Filtered(s, after, before) == rest;
        SubsequenceOfTail(rest, s);
      }
    }
  }

  lemma {:induction false} SubsequenceOfTail(sub: seq<Message>, s: seq<Message>)
    requires s != [] && IsSubsequence(sub, s[1..])
    ensures IsSubsequence(sub, s)
    decreases |s|, 0
  {
    if sub != [] && sub[0] == s[0] {
      SubsequenceDropHead(sub, s[1..]);
    }
  }

  lemma {:induction false} SubsequenceDropHead(sub: seq<Message>, t: seq<Message>)
    requires sub != [] && IsSubsequence(sub, t)
    ensures IsSubsequence(sub[1..], t)
    decreases |t|, 1
  {
    if sub[0] != t[0] {
      SubsequenceDropHead(sub, t[1..]);
    }
    SubsequenceOfTail(sub[1..], t);
  }

  lemma {:induction false} PrefixIsSubsequence(p: seq<Message>, s: seq<Message>)
    requires |p| <= |s| && p == s[..|p|]
    ensures IsSubsequence(p, s)
  {
    if p != [] {
      assert p[1..] == s[1..][..|p| - 1];
      PrefixIsSubsequence(p[1..], s[1..]);
    }
  }

  lemma {:induction false} SubsequenceTransitive(a: seq<Message>, b: seq<Message>, c: seq<Message>)
    requires IsSubsequence(a, b) && IsSubsequence(b, c)
    ensures IsSubsequence(a, c)
    decreases |c|
  {
    if a != [] {
      assert b != [] && c != [];
      if b[0] == c[0] {
        if a[0] == b[0] {
          SubsequenceTransitive(a[1..], b[1..], c[1..]);
        } else {
          SubsequenceTransitive(a, b[1..], c[1..]);
          SubsequenceOfTail(a, c);
        }
      } else {
        SubsequenceTransitive(a, b, c[1..]);
        SubsequenceOfTail(a, c);
      }
    }
  }

  /** One more message of the stream extends the filtered prefix by that
      message exactly when it qualifies. */
  lemma FilteredStep(stream: seq<Message>, i: nat, after: Option<int>, before: Option<int>)
    requires i < |stream|
    ensures Filtered(stream[..i + 1], after, before)
         == Filtered(stream[..i], after, before) + Kept(stream[i], after, before)
  {
    assert stream[..i + 1] == stream[..i] + [stream[i]];
    FilteredAppend(stream[..i], [stream[i]], after, before);
  }

  /** The filtered stream is the filtered prefix followed by the filtered rest. */
  lemma FilteredSplit(stream: seq<Message>, i: nat, after: Option<int>, before: Option<int>)
    requires i <= |stream|
    ensures Filtered(stream, after, before)
         == Filtered(stream[..i], after, before) + Filtered(stream[i..], after, before)
  {
    assert stream == stream[..i] + stream[i..];
    FilteredAppend(stream[..i], stream[i..], after, before);
  }

  /** The loop over the chat's history. */
  method CollectMessages(stream: seq<Message>, after: Option<int>, before: Option<int>, limit: int)
    returns (kept: seq<Message>)
    ensures kept == Take(Filtered(stream, after, before), Cap(limit))
  {
    kept := [];
    var i := 0;
    while i < |stream|
      invariant 0 <= i <= |stream|
      invariant kept == Filtered(stream[..i], after, before)
      invariant |kept| < Cap(limit)
    {
      var m := stream[i];
      FilteredStep(stream, i, after, before);
      i := i + 1;
      if !Qualifies(m, after, before) {
        continue;
      }
      kept := kept + [m];
      if |kept| >= limit {
        FilteredSplit(stream, i, after, before);
        TakeFull(kept, Filtered(stream[i..], after, before), Cap(limit));
        return;
      }
    }
    FilteredSplit(stream, i, after, before);
    TakeShort(kept, Cap(limit));
  }

  /** With `--after`, every kept message with a valid timestamp is strictly after it. */
  lemma KeptAfter(stream: seq<Message>, after: Option<int>, before: Option<int>, limit: int, m: Message)
    requires m in Take(Filtered(stream, after, before), Cap(limit))
    ensures m in stream
    ensures after.Some? && m.timestamp.Some? ==> m.timestamp.value > after.value
    ensures before.Some? && m.timestamp.Some? ==> m.timestamp.value < before.value
  {
    FilteredMembers(stream, after, before, m);
  }

  /** The kept messages are the stream with some messages left out, in stream order. */
  lemma KeptIsSubsequence(stream: seq<Message>, after: Option<int>, before: Option<int>, limit: int)
    ensures IsSubsequence(Take(Filtered(stream, after, before), Cap(limit)), stream)
  {
    var f := Filtered(stream, after, before);
    PrefixIsSubsequence(Take(f, Cap(limit)), f);
    FilteredIsSubsequence(stream, after, before);
    SubsequenceTransitive(Take(f, Cap(limit)), f, stream);
  }

  /** A limit below one still keeps the first qualifying message. */
  lemma NonPositiveLimitKeepsOne(stream: seq<Message>, after: Option<int>, before: Option<int>, limit: int)
    requires limit < 1 && Filtered(stream, after, before) != []
    ensures Take(Filtered(stream, after, before), Cap(limit)) == [Filtered(stream, after, before)[0]]
  {
  }

  // ---------------------------------------------------------------------------
  // The filter description

  /** The text after the chat id in "Listing messages from chat ...": the
      given options with their raw text, `after` first, or nothing. */
  function FilterDescription(after: Option<string>, before: Option<string>): (r: string)
    ensures r == "" <==> !Truthy(after) && !Truthy(before)
    ensures Truthy(after) && Truthy(before) ==> r == " [after: " + after.value + ", before: " + before.value + "]"
    ensures Truthy(after) && !Truthy(before) ==> r == " [after: " + after.value + "]"
    ensures !Truthy(after) && Truthy(before) ==> r == " [before: " + before.value + "]"
  {
    var parts := (if Truthy(after) then ["after: " + after.value] else [])
               + (if Truthy(before) then ["before: " + before.value] else []);
    assert |parts| == 2 ==> parts == [parts[0], parts[1]];
    assert |parts| == 2 ==> Join(parts, ", ") == parts[0] + ", " + parts[1] by {
      if |parts| == 2 { JoinPair(parts[0], parts[1], ", "); }
    }
    if |parts| > 0 then " [" + Join(parts, ", ") + "]" else ""
  }

  // ---------------------------------------------------------------------------
  // The network map

  /** `account.network || account.accountID`. */
  function NetworkOf(a: Account): string {
    if a.network != "" then a.network else a.accountID
  }

  /** The map the loop over the accounts builds: each `set` overwrites, so
      the last account with an id decides its entry. */
  function NetworkMap(accounts: seq<Account>): map<string, string>
    decreases |accounts|
  {
    if accounts == [] then map[]
    else
      var last := accounts[|accounts| - 1];
      NetworkMap(accounts[..|accounts| - 1])[last.accountID := NetworkOf(last)]
  }

  method BuildNetworkMap(accounts: seq<Account>) returns (networks: map<string, string>)
    ensures networks == NetworkMap(accounts)
  {
    networks := map[];
    var i := 0;
    while i < |accounts|
      invariant 0 <= i <= |accounts|
      invariant networks == NetworkMap(accounts[..i])
    {
      assert accounts[..i + 1][..i] == accounts[..i];
      networks := networks[accounts[i].accountID := NetworkOf(accounts[i])];
      i := i + 1;
    }
    assert accounts[..i] == accounts;
  }

  /** The keys are exactly the account ids. */
  lemma {:induction false} NetworkMapKeys(accounts: seq<Account>, id: string)
    ensures id in NetworkMap(accounts) <==> exists i :: 0 <= i < |accounts| && accounts[i].accountID == id
  {
    if accounts != [] {
      var init := accounts[..|accounts| - 1];
      NetworkMapKeys(init, id);
      if id in NetworkMap(init) {
        var i :| 0 <= i < |init| && init[i].accountID == id;
        assert accounts[i].accountID == id;
      }
      if exists i :: 0 <= i < |accounts| && accounts[i].accountID == id {
        var i :| 0 <= i < |accounts| && accounts[i].accountID == id;
        if i < |init| {
          assert init[i].accountID == id;
        }
      }
    }
  }

  /** The entry of an id comes from the last account with that id. */
  lemma {:induction false} NetworkMapLastWins(accounts: seq<Account>, j: nat)
    requires j < |accounts|
    requires forall k :: j < k < |accounts| ==> accounts[k].accountID != accounts[j].accountID
    ensures accounts[j].accountID in NetworkMap(accounts)
    ensures NetworkMap(accounts)[accounts[j].accountID] == NetworkOf(accounts[j])
  {
    if j < |accounts| - 1 {
      var init := accounts[..|accounts| - 1];
      NetworkMapLastWins(init, j);
    }
  }

  /** `networkMap.get(msg.accountID) || msg.accountID`: the label printed for a message's network. */
  function NetworkLabel(networks: map<string, string>, accountID: string): (r: string)
    ensures !(accountID in networks && networks[accountID] != "") ==> r == accountID
    ensures accountID in networks && networks[accountID] != "" ==> r == networks[accountID]
  {
    if accountID in networks && networks[accountID] != "" then networks[accountID] else accountID
  }

  /** For an account in the list, the label is its network, or its id when the network is empty. */
  lemma NetworkLabelOfAccount(accounts: seq<Account>, j: nat)
    requires j < |accounts|
    requires forall k :: j < k < |accounts| ==> accounts[k].accountID != accounts[j].accountID
    ensures NetworkLabel(NetworkMap(accounts), accounts[j].accountID) == NetworkOf(accounts[j])
  {
    NetworkMapLastWins(accounts, j);
  }

  // ---------------------------------------------------------------------------
  // Attachments

  /** `getAttachmentIcon(type)`. */
  function AttachmentIcon(kind: Option<string>): (r: string)
    ensures r == "img" <==> kind == Some("img")
    ensures r == "vid" <==> kind == Some("video")
    ensures r == "aud" <==> kind == Some("audio")
    ensures r == "att" <==> kind !in {Some("img"), Some("video"), Some("audio")}
  {
    if kind == Some("img") then "img"
    else if kind == Some("video") then "vid"
    else if kind == Some("audio") then "aud"
    else "att"
  }

  // ---------------------------------------------------------------------------
  // The action

  /** The instant a date option stands for: absent when the option is not
      given (empty counts as not given) or does not parse. */
  function OptionDate(option: Option<string>, name: string, now: int, cal: Calendar): Option<int> {
    if Truthy(option) && ParseDateOrExit(option.value, name, now, cal).Ok?
    then Some(ParseDateOrExit(option.value, name, now, cal).value)
    else None
  }

  /** What the command lists: the resolved chat, the filter description,
      the network map for labels, and the kept messages. */
  datatype Listing = Listing(chatID: string, filters: string, networks: map<string, string>, messages: seq<Message>)

  /** The `messages <chat-id>` action. `history` is the chat's message
      stream, newest first as the client yields it. `afterNow` and `beforeNow`
      are the clock readings of the two `parseDateOrExit` calls, which each
      read the clock through `parseRelativeDate`. */
  method ListMessages(chatIdArg: string, config: BeeperConfig, limit: int,
                      after: Option<string>, before: Option<string>,
                      afterNow: int, beforeNow: int, cal: Calendar,
                      accounts: seq<Account>, history: string -> seq<Message>)
    returns (r: Result<Listing, Exit>)
    ensures ResolveChatIdOrExit(chatIdArg, config).Err? ==> r == Err(ResolveChatIdOrExit(chatIdArg, config).error)
    ensures (ResolveChatIdOrExit(chatIdArg, config).Ok? && Truthy(after)
             && ParseDateOrExit(after.value, "--after", afterNow, cal).Err?) ==>
      r == Err(ParseDateOrExit(after.value, "--after", afterNow, cal).error)
    ensures (ResolveChatIdOrExit(chatIdArg, config).Ok?
             && (Truthy(after) ==> ParseDateOrExit(after.value, "--after", afterNow, cal).Ok?)
             && Truthy(before) && ParseDateOrExit(before.value, "--before", beforeNow, cal).Err?) ==>
      r == Err(ParseDateOrExit(before.value, "--before", beforeNow, cal).error)
    ensures r.Ok? <==>
      && ResolveChatIdOrExit(chatIdArg, config).Ok?
      && (Truthy(after) ==> ParseDateOrExit(after.value, "--after", afterNow, cal).Ok?)
      && (Truthy(before) ==> ParseDateOrExit(before.value, "--before", beforeNow, cal).Ok?)
      && (Truthy(after) && Truthy(before) ==>
            OptionDate(after, "--after", afterNow, cal).value < OptionDate(before, "--before", beforeNow, cal).value)
    ensures (r.Err? && ResolveChatIdOrExit(chatIdArg, config).Ok? && OptionDate(after, "--after", afterNow, cal).Some?
             && OptionDate(before, "--before", beforeNow, cal).Some?) ==> r == Err(Exit([RangeErrorLine]))
    ensures r.Ok? ==> r.value == Listing(
      ResolveChatIdOrExit(chatIdArg, config).value,
      FilterDescription(after, before),
      NetworkMap(accounts),
      Take(Filtered(history(ResolveChatIdOrExit(chatIdArg, config).value),
                    OptionDate(after, "--after", afterNow, cal), OptionDate(before, "--before", beforeNow, cal)),
           Cap(limit)))
  {
    var resolved := ResolveChatIdOrExit(chatIdArg, config);
    if resolved.Err? {
      return Err(resolved.error);
    }
    var chatID := resolved.value;

    var dateAfter: Option<int> := None;
    if Truthy(after) {
      var parsed := ParseDateOrExit(after.value, "--after", afterNow, cal);
      if parsed.Err? {
        return Err(parsed.error);
      }
      dateAfter := Some(parsed.value);
    }
    var dateBefore: Option<int> := None;
    if Truthy(before) {
      var parsed := ParseDateOrExit(before.value, "--before", beforeNow, cal);
      if parsed.Err? {
        return Err(parsed.error);
      }
      dateBefore := Some(parsed.value);
    }
    if dateAfter.Some? && dateBefore.Some? {
      var check := ValidateDateRangeOrExit(dateAfter.value, dateBefore.value);
      if check.Fail? {
        return Err(check.error);
      }
    }

    var filters := FilterDescription(after, before);
    var networks := BuildNetworkMap(accounts);
    var kept := CollectMessages(history(chatID), dateAfter, dateBefore, limit);
    return Ok(Listing(chatID, filters, networks, kept));
  }

  /** Without date options every message of the history is a candidate, so
      the command lists the first `limit` of them (at least one). */
  lemma NoDatesListsPrefix(history: seq<Message>, limit: int)
    ensures Take(Filtered(history, None, None), Cap(limit)) == Take(history, Cap(limit))
  {
    NoWindowKeepsAll(history);
  }

  lemma {:induction false} NoWindowKeepsAll(s: seq<Message>)
    ensures Filtered(s, None, None) == s
  {
    if s != [] {
      NoWindowKeepsAll(s[1..]);
      assert s == [s[0]] + s[1..];
    }
  }
}
