/** Alias resolution and validation (src/lib/aliases.ts). */
module Aliases {
  import opened Wrappers
  import opened JsStrings
  import opened Config

  /** `[a-zA-Z0-9_]`. */
  predicate IsAliasChar(c: char) {
    ('a' <= c <= 'z') || ('A' <= c <= 'Z') || IsDigit(c) || c == '_'
  }

  /** `/^[a-zA-Z0-9_]+$/.test(name)`. */
  predicate IsValidAliasName(name: string)
    ensures IsValidAliasName(name) <==> name != [] && forall c :: c in name ==> IsAliasChar(c)
    ensures IsValidAliasName(name) ==> ' ' !in name && '!' !in name && '-' !in name
  {
    |name| > 0 && forall i :: 0 <= i < |name| ==> IsAliasChar(name[i])
  }

  /** `chatId.startsWith("!")`. */
  predicate IsValidChatId(chatId: string)
    ensures IsValidChatId(chatId) <==> chatId != [] && chatId[0] == '!'
  {
    StartsWith(chatId, "!")
  }

  /** `resolveAlias(input, config)`: a table entry with a non-empty value
      wins, then a `!`-prefixed input passes through, otherwise null. The
      table is read by own keys only (see `ResolveAliasAsWritten`). */
  function ResolveAlias(input: string, config: BeeperConfig): (r: Option<string>)
    ensures input in AliasTable(config) && AliasTable(config)[input] != "" ==> r == Some(AliasTable(config)[input])
    ensures !(input in AliasTable(config) && AliasTable(config)[input] != "") ==>
      r == if IsValidChatId(input) then Some(input) else None
    ensures r.Some? ==> r.value != ""
  {
    var table := AliasTable(config);
    if input in table && table[input] != "" then Some(table[input])
    else if StartsWith(input, "!") then Some(input)
    else None
  }

  /** An entry whose value is the empty string is as good as absent. */
  lemma EmptyEntryIsAbsent(input: string, config: BeeperConfig)
    requires input in AliasTable(config) && AliasTable(config)[input] == ""
    ensures ResolveAlias(input, config) == ResolveAlias(input, config.(aliases := Some(AliasTable(config) - {input})))
  {
  }

  /** What the resolver returns for an input the table does not map is a chat id. */
  lemma UnmappedResultIsChatId(input: string, config: BeeperConfig)
    requires input !in AliasTable(config)
    requires ResolveAlias(input, config).Some?
    ensures IsValidChatId(ResolveAlias(input, config).value)
    ensures ResolveAlias(input, config).value == input
  {
  }

  /** The table is consulted first, even for an input that looks like a chat id. */
  lemma TableBeatsPassThrough(input: string, config: BeeperConfig)
    requires IsValidChatId(input)
    requires input in AliasTable(config) && AliasTable(config)[input] != ""
    ensures ResolveAlias(input, config) == Some(AliasTable(config)[input])
  {
  }

  /** A valid alias name never looks like a chat id, so the two kinds of
      argument cannot be confused. */
  lemma AliasNamesAreNotChatIds(s: string)
    requires IsValidAliasName(s)
    ensures !IsValidChatId(s)
  {
    assert IsAliasChar(s[0]);
  }

  /** Concrete cases: a table hit, a pass-through, an unknown name, and
      valid and invalid alias names and chat ids. */
  lemma ResolveExamples()
    ensures ResolveAlias("work", BeeperConfig(None, None, Some(map["work" := "!abc:beeper.local"])))
         == Some("!abc:beeper.local")
    ensures ResolveAlias("!xyz:beeper.local", EmptyConfig) == Some("!xyz:beeper.local")
    ensures ResolveAlias("unknown", EmptyConfig) == None
    ensures IsValidAliasName("my_alias1") && !IsValidAliasName("my alias") && !IsValidAliasName("")
    ensures IsValidChatId("!abc") && !IsValidChatId("abc") && !IsValidChatId("")
  {
    assert !IsAliasChar("my alias"[2]);
    assert "!xyz:beeper.local"[..1] == "!";
    assert "unknown"[0] == 'u';
  }

  // ---------------------------------------------------------------------------
  // The lookup as written: `config.aliases?.[input]` on a plain JavaScript
  // object also finds the members every object inherits from Object.prototype.

  /** The names an object parsed from JSON inherits from Object.prototype. */
  const PrototypeMembers: set<string> := {
    "constructor", "hasOwnProperty", "isPrototypeOf", "propertyIsEnumerable",
    "toLocaleString", "toString", "valueOf", "__proto__",
    "__defineGetter__", "__defineSetter__", "__lookupGetter__", "__lookupSetter__"}

  /** A property value: an own string, or an inherited function or object (always truthy). */
  datatype PropertyValue = Own(text: string) | Inherited(name: string)

  function LookupAsWritten(config: BeeperConfig, key: string): Option<PropertyValue> {
    if config.aliases.None? then None
    else if key in config.aliases.value then Some(Own(config.aliases.value[key]))
    else if key in PrototypeMembers then Some(Inherited(key))
    else None
  }

  predicate IsTruthy(v: PropertyValue) {
    v.Own? ==> v.text != ""
  }

  /** `resolveAlias` with the property lookup JavaScript performs. */
  function ResolveAliasAsWritten(input: string, config: BeeperConfig): (r: Option<PropertyValue>)
    ensures r.Some? && r.value.Inherited? ==> input in PrototypeMembers
  {
    var found := LookupAsWritten(config, input);
    if found.Some? && IsTruthy(found.value) then found
    else if StartsWith(input, "!") then Some(Own(input))
    else None
  }

  /** As written, "toString" resolves against an empty alias table to the
      inherited `Object.prototype.toString`, a function rather than a chat
      id, where `ResolveAlias` yields null. */
  lemma PrototypeNameResolvesAsWritten()
    ensures var config := BeeperConfig(None, None, Some(map[]));
      && ResolveAliasAsWritten("toString", config) == Some(Inherited("toString"))
      && ResolveAlias("toString", config) == None
  {
    assert "toString"[0] == 't';
  }

  /** Both lookups agree on every own key and on every name that is not an
      Object.prototype member: the difference is exactly the inherited names. */
  lemma AsWrittenAgreesOffPrototype(input: string, config: BeeperConfig)
    requires input !in PrototypeMembers || config.aliases.None? || input in config.aliases.value
    ensures ResolveAliasAsWritten(input, config)
         == match ResolveAlias(input, config) case Some(s) => Some(Own(s)) case None => None
  {
  }
}
