/** The `search` command (src/commands/search.ts): build the network map,
    collect matching messages up to the limit and matching chats up to five,
    and report "No results" when both are empty. The query is highlighted in
    each message through a regular expression built from the escaped query. */
module Search {
  import opened JsStrings
  import opened CommandUtils
  import opened Collect
  import opened Messages
  import opened Chats

  /** At most this many matching chats are shown, whatever `--limit` says. */
  const ChatCap := 5

  datatype SearchResult =
    | NoResults
    | Results(networks: map<string, string>, chats: seq<Chat>, messages: seq<Message>)

  /** The `search <query>` action over the account list and the two search
      streams of `query`. */
  method RunSearch(accounts: seq<Account>, foundMessages: seq<Message>, foundChats: seq<Chat>, limit: int)
    returns (res: SearchResult)
    ensures res.NoResults? <==> foundMessages == [] && foundChats == []
    ensures res.Results? ==> res.networks == NetworkMap(accounts)
    ensures res.Results? ==> res.messages == Take(foundMessages, Cap(limit))
    ensures res.Results? ==> res.chats == Take(foundChats, ChatCap)
  {
    var networks := BuildNetworkMap(accounts);
    var messages := CollectUpTo(foundMessages, limit);
    var chats := CollectUpTo(foundChats, ChatCap);
    TakeEmpty(foundMessages, Cap(limit));
    TakeEmpty(foundChats, ChatCap);
    if messages == [] && chats == [] {
      return NoResults;
    }
    return Results(networks, chats, messages);
  }

  /** `(${escapeRegex(query)})`: the pattern `highlightQuery` compiles. */
  function HighlightPattern(query: string): (p: string)
    ensures |p| >= 2 && p[0] == '(' && p[|p| - 1] == ')'
  {
    "(" + EscapeRegex(query) + ")"
  }

  /** Inside its group the pattern is a literal that stands for exactly the
      query, so highlighting matches the query's own text. */
  lemma HighlightPatternIsLiteral(query: string)
    ensures var p := HighlightPattern(query);
      Escaped(p[1..|p| - 1]) && Unescape(p[1..|p| - 1]) == query
  {
    var p := HighlightPattern(query);
    assert p[1..|p| - 1] == EscapeRegex(query);
    EscapeRegexEscaped(query);
    UnescapeEscapeRegex(query);
  }
}
