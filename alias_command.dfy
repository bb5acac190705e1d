/** The `alias` command (src/commands/alias.ts): `add`, `remove`, `show`
    and `list` on the alias table of the loaded config, which `add` and
    `remove` save back. A missing `aliases` field is the empty table. */
module AliasCommand {
  import opened Wrappers
  import opened Config
  import opened Aliases

  datatype AliasError = InvalidAliasName | InvalidChatId | NotFound(name: string)

  function AliasErrorMessage(e: AliasError): string {
    match e
    case InvalidAliasName => "\U{274C} Alias name must be alphanumeric (underscores allowed, no spaces)"
    case InvalidChatId => "\U{274C} Chat ID must start with '!' (e.g., !abc123:beeper.local)"
    case NotFound(name) => "\U{274C} Alias '" + name + "' not found"
  }

  /** `aliases[name]` tested for truthiness: an entry with a non-empty value. */
  predicate HasEntry(table: map<string, string>, name: string) {
    name in table && table[name] != ""
  }

  /** A successful `add`: the config to save, and the value it overwrites
      when the command warns about one. */
  datatype Added = Added(config: BeeperConfig, overwritten: Option<string>)

  /** `alias add <name> <chat-id>` on the loaded config. */
  function AddAlias(config: BeeperConfig, name: string, chatId: string): (r: Result<Added, AliasError>)
    ensures !IsValidAliasName(name) ==> r == Err(InvalidAliasName)
    ensures IsValidAliasName(name) && !IsValidChatId(chatId) ==> r == Err(InvalidChatId)
    ensures r.Ok? <==> IsValidAliasName(name) && IsValidChatId(chatId)
    ensures r.Ok? ==> r.value.config.aliases.Some?
    ensures r.Ok? ==> var t, t' := AliasTable(config), AliasTable(r.value.config);
      && name in t' && t'[name] == chatId
      && (forall k :: k != name ==> (k in t' <==> k in t))
      && (forall k :: k != name && k in t ==> t'[k] == t[k])
    ensures r.Ok? ==> r.value.config.token == config.token && r.value.config.baseUrl == config.baseUrl
    ensures r.Ok? ==> (r.value.overwritten.Some? <==> HasEntry(AliasTable(config), name))
    ensures r.Ok? && r.value.overwritten.Some? ==> r.value.overwritten.value == AliasTable(config)[name]
  {
    if !IsValidAliasName(name) then Err(InvalidAliasName)
    else if !IsValidChatId(chatId) then Err(InvalidChatId)
    else
      var aliases := AliasTable(config);
      var overwritten := if HasEntry(aliases, name) then Some(aliases[name]) else None;
      Ok(Added(config.(aliases := Some(aliases[name := chatId])), overwritten))
  }

  /** `alias add`: validate both arguments, load the config, update the
      table in place and save. A rejected argument saves nothing. */
  method Add(file: ConfigFile, name: string, chatId: string) returns (r: Result<Option<string>, AliasError>)
    modifies file
    ensures AddAlias(old(file.Loaded()), name, chatId).Err? ==>
      r == Err(AddAlias(old(file.Loaded()), name, chatId).error) && file.saved == old(file.saved)
    ensures AddAlias(old(file.Loaded()), name, chatId).Ok? ==>
      r == Ok(AddAlias(old(file.Loaded()), name, chatId).value.overwritten)
      && file.saved == AddAlias(old(file.Loaded()), name, chatId).value.config
  {
    if !IsValidAliasName(name) {
      return Err(InvalidAliasName);
    }
    if !IsValidChatId(chatId) {
      return Err(InvalidChatId);
    }
    var config := file.Loaded();
    var aliases := AliasTable(config);
    var overwritten: Option<string> := None;
    if HasEntry(aliases, name) {
      overwritten := Some(aliases[name]);
    }
    aliases := aliases[name := chatId];
    config := config.(aliases := Some(aliases));
    file.Save(config);
    return Ok(overwritten);
  }

  /** `alias remove <name>` on the loaded config. */
  function RemoveAlias(config: BeeperConfig, name: string): (r: Result<BeeperConfig, AliasError>)
    ensures r.Err? <==> !HasEntry(AliasTable(config), name)
    ensures r.Err? ==> r.error == NotFound(name)
    ensures r.Ok? ==> var t, t' := AliasTable(config), AliasTable(r.value);
      && name !in t'
      && (forall k :: k != name ==> (k in t' <==> k in t))
      && (forall k :: k != name && k in t ==> t'[k] == t[k])
    ensures r.Ok? ==> r.value.token == config.token && r.value.baseUrl == config.baseUrl
  {
    var aliases := AliasTable(config);
    if !HasEntry(aliases, name) then Err(NotFound(name))
    else Ok(config.(aliases := Some(aliases - {name})))
  }

  /** `alias remove`: load, check, delete the key in place and save. */
  method Remove(file: ConfigFile, name: string) returns (r: Outcome<AliasError>)
    modifies file
    ensures RemoveAlias(old(file.Loaded()), name).Err? ==> r == Fail(NotFound(name)) && file.saved == old(file.saved)
    ensures RemoveAlias(old(file.Loaded()), name).Ok? ==> r == Pass && file.saved == RemoveAlias(old(file.Loaded()), name).value
  {
    var config := file.Loaded();
    var aliases := AliasTable(config);
    if !HasEntry(aliases, name) {
      return Fail(NotFound(name));
    }
    aliases := aliases - {name};
    config := config.(aliases := Some(aliases));
    file.Save(config);
    return Pass;
  }

  /** `alias show <name>`: the chat id the name maps to. */
  function ShowAlias(config: BeeperConfig, name: string): (r: Result<string, AliasError>)
    ensures r.Err? <==> !HasEntry(AliasTable(config), name)
    ensures r.Err? ==> r.error == NotFound(name)
    ensures r.Ok? ==> name in AliasTable(config) && r.value == AliasTable(config)[name] && r.value != ""
  {
    var aliases := AliasTable(config);
    if HasEntry(aliases, name) then Ok(aliases[name]) else Err(NotFound(name))
  }

  /** What `alias list` prints: the hint for an empty table, or its entries. */
  datatype Listing = NoAliases | Entries(table: map<string, string>)

  function ListAliases(config: BeeperConfig): (r: Listing)
    ensures r.NoAliases? <==> |AliasTable(config)| == 0
    ensures r.Entries? ==> r.table == AliasTable(config)
  {
    var aliases := AliasTable(config);
    if |aliases| == 0 then NoAliases else Entries(aliases)
  }

  lemma ListEmptyIffNoKeys(config: BeeperConfig)
    ensures ListAliases(config).NoAliases? <==> forall k :: k !in AliasTable(config)
  {
    var t := AliasTable(config);
    if |t| != 0 {
      var k :| k in t.Keys;
    }
  }

  // ---------------------------------------------------------------------------
  // How the commands combine

  /** An alias just added is shown, and resolved, as its chat id. */
  lemma AddThenShowAndResolve(config: BeeperConfig, name: string, chatId: string)
    requires AddAlias(config, name, chatId).Ok?
    ensures ShowAlias(AddAlias(config, name, chatId).value.config, name) == Ok(chatId)
    ensures ResolveAlias(name, AddAlias(config, name, chatId).value.config) == Some(chatId)
  {
    assert chatId[0] == '!';
  }

  /** Adding the same alias twice saves the same config as adding it once. */
  lemma AddIdempotent(config: BeeperConfig, name: string, chatId: string)
    requires AddAlias(config, name, chatId).Ok?
    ensures var once := AddAlias(config, name, chatId).value.config;
      AddAlias(once, name, chatId).Ok? && AddAlias(once, name, chatId).value.config == once
  {
    var once := AddAlias(config, name, chatId).value.config;
    assert AliasTable(once)[name := chatId] == AliasTable(once);
  }

  /** Removing what was just added leaves the original table without that
      name; when the name was new, exactly the original table. */
  lemma AddThenRemove(config: BeeperConfig, name: string, chatId: string)
    requires AddAlias(config, name, chatId).Ok?
    ensures RemoveAlias(AddAlias(config, name, chatId).value.config, name).Ok?
    ensures AliasTable(RemoveAlias(AddAlias(config, name, chatId).value.config, name).value)
         == AliasTable(config) - {name}
    ensures name !in AliasTable(config) ==>
      AliasTable(RemoveAlias(AddAlias(config, name, chatId).value.config, name).value) == AliasTable(config)
  {
    assert chatId[0] == '!';
    var t := AliasTable(config);
    assert t[name := chatId] - {name} == t - {name};
    if name !in t {
      assert t - {name} == t;
    }
  }

  /** A removed name is not found any more, and resolves only as a chat id. */
  lemma RemoveThenShowAndResolve(config: BeeperConfig, name: string)
    requires RemoveAlias(config, name).Ok?
    ensures ShowAlias(RemoveAlias(config, name).value, name) == Err(NotFound(name))
    ensures ResolveAlias(name, RemoveAlias(config, name).value) == if IsValidChatId(name) then Some(name) else None
  {
  }

  /** Saved and loaded again without the override variables, the alias
      resolves to its chat id. */
  lemma AddPersists(env: Env, file: BeeperConfig, name: string, chatId: string)
    requires !Overrides(env)
    requires AddAlias(GetConfig(env, file), name, chatId).Ok?
    ensures ResolveAlias(name, GetConfig(env, AddAlias(GetConfig(env, file), name, chatId).value.config)) == Some(chatId)
  {
    AddThenShowAndResolve(GetConfig(env, file), name, chatId);
  }

  /** With an override variable set the loaded config has no aliases, so
      `add` saves a table holding the new alias alone: the file's other
      aliases are lost, and the alias itself is not seen while the variable
      stays set. */
  lemma AddUnderOverride(env: Env, file: BeeperConfig, name: string, chatId: string)
    requires Overrides(env)
    requires AddAlias(GetConfig(env, file), name, chatId).Ok?
    ensures AliasTable(AddAlias(GetConfig(env, file), name, chatId).value.config) == map[name := chatId]
    ensures AliasTable(GetConfig(env, AddAlias(GetConfig(env, file), name, chatId).value.config)) == map[]
  {
  }

  // ---------------------------------------------------------------------------
  // The `remove` guard as written: `!aliases[name]` on a plain JavaScript
  // object also sees the members inherited from Object.prototype.

  /** `alias remove <name>` with the property lookup JavaScript performs. */
  function RemoveAliasAsWritten(config: BeeperConfig, name: string): (r: Result<BeeperConfig, AliasError>)
    ensures r.Ok? <==> HasEntry(AliasTable(config), name) || (name !in AliasTable(config) && name in PrototypeMembers)
    ensures r.Err? ==> r == RemoveAlias(config, name)
    ensures r.Ok? ==> AliasTable(r.value) == AliasTable(config) - {name}
  {
    var aliases := AliasTable(config);
    var found := LookupAsWritten(config.(aliases := Some(aliases)), name);
    if !(found.Some? && IsTruthy(found.value)) then Err(NotFound(name))
    else Ok(config.(aliases := Some(aliases - {name})))
  }

  /** "constructor" is a valid alias name; as written, removing it from a
      table that does not hold it reports success and saves the config,
      where `RemoveAlias` reports it as not found. */
  lemma PrototypeNameRemovedAsWritten()
    ensures IsValidAliasName("constructor")
    ensures RemoveAliasAsWritten(EmptyConfig, "constructor") == Ok(BeeperConfig(None, None, Some(map[])))
    ensures RemoveAlias(EmptyConfig, "constructor") == Err(NotFound("constructor"))
  {
    var empty: map<string, string> := map[];
    assert empty - {"constructor"} == empty;
    assert 'c' <= "constructor"[0] <= 'z';
  }

  // ---------------------------------------------------------------------------
  // `add` and `show` as written: `aliases[name]` on a plain JavaScript object.

  /** A successful `add` as written: the config to save, and the value the
      warning shows, an own entry or an inherited member. */
  datatype AddedAsWritten = AddedAsWritten(config: BeeperConfig, warned: Option<PropertyValue>)

  /** `alias add <name> <chat-id>` with the property access JavaScript
      performs. The warning test also sees the Object.prototype members, and
      assigning to a `__proto__` the table does not hold calls the inherited
      setter, which ignores a string: nothing is stored. */
  function AddAliasAsWritten(config: BeeperConfig, name: string, chatId: string): (r: Result<AddedAsWritten, AliasError>)
    ensures r.Err? <==> AddAlias(config, name, chatId).Err?
    ensures r.Err? ==> r.error == AddAlias(config, name, chatId).error
    ensures r.Ok? ==> (r.value.warned.Some? <==>
      HasEntry(AliasTable(config), name) || (name !in AliasTable(config) && name in PrototypeMembers))
    ensures r.Ok? && name in AliasTable(config) && r.value.warned.Some? ==>
      r.value.warned.value == Own(AliasTable(config)[name])
    ensures r.Ok? && name == "__proto__" && name !in AliasTable(config) ==>
      AliasTable(r.value.config) == AliasTable(config)
    ensures r.Ok? && !(name == "__proto__" && name !in AliasTable(config)) ==>
      r.value.config == AddAlias(config, name, chatId).value.config
  {
    if !IsValidAliasName(name) then Err(InvalidAliasName)
    else if !IsValidChatId(chatId) then Err(InvalidChatId)
    else
      var aliases := AliasTable(config);
      var found := LookupAsWritten(config.(aliases := Some(aliases)), name);
      var warned := if found.Some? && IsTruthy(found.value) then found else None;
      var stored := if name == "__proto__" && name !in aliases then aliases else aliases[name := chatId];
      Ok(AddedAsWritten(config.(aliases := Some(stored)), warned))
  }

  /** Off the Object.prototype names, `add` as written is `AddAlias`. */
  lemma AddAsWrittenAgreesOffPrototype(config: BeeperConfig, name: string, chatId: string)
    requires name !in PrototypeMembers
    ensures AddAliasAsWritten(config, name, chatId).Ok? <==> AddAlias(config, name, chatId).Ok?
    ensures AddAliasAsWritten(config, name, chatId).Ok? ==>
      var w, c := AddAliasAsWritten(config, name, chatId).value, AddAlias(config, name, chatId).value;
      w.config == c.config && (w.warned.Some? <==> c.overwritten.Some?)
      && (w.warned.Some? ==> w.warned.value == Own(c.overwritten.value))
  {
  }

  /** As written, `alias add toString !abc` on an empty table warns that the
      alias already exists, showing the inherited function, where `AddAlias`
      overwrites nothing. */
  lemma InheritedNameWarnsAsWritten()
    ensures IsValidAliasName("toString")
    ensures AddAliasAsWritten(EmptyConfig, "toString", "!abc").Ok?
    ensures AddAliasAsWritten(EmptyConfig, "toString", "!abc").value.warned == Some(Inherited("toString"))
    ensures AddAlias(EmptyConfig, "toString", "!abc") == Ok(Added(BeeperConfig(None, None, Some(map["toString" := "!abc"])), None))
  {
    assert "!abc"[..1] == "!";
    assert 'a' <= "toString"[0] <= 'z';
  }

  /** As written, `alias add __proto__ !abc` on an empty table saves the
      table empty although it reports success, where `AddAlias` stores the
      alias. */
  lemma ProtoNameNotStoredAsWritten()
    ensures IsValidAliasName("__proto__")
    ensures AddAliasAsWritten(EmptyConfig, "__proto__", "!abc")
         == Ok(AddedAsWritten(BeeperConfig(None, None, Some(map[])), Some(Inherited("__proto__"))))
    ensures AddAlias(EmptyConfig, "__proto__", "!abc") == Ok(Added(BeeperConfig(None, None, Some(map["__proto__" := "!abc"])), None))
  {
    assert "!abc"[..1] == "!";
    assert "__proto__"[0] == '_';
  }

  /** `alias show <name>` with the property lookup JavaScript performs. */
  function ShowAliasAsWritten(config: BeeperConfig, name: string): (r: Result<PropertyValue, AliasError>)
    ensures r.Ok? <==> HasEntry(AliasTable(config), name) || (name !in AliasTable(config) && name in PrototypeMembers)
    ensures r.Err? ==> r == Err(NotFound(name)) && ShowAlias(config, name) == Err(NotFound(name))
    ensures r.Ok? && name in AliasTable(config) ==> r == Ok(Own(ShowAlias(config, name).value))
    ensures r.Ok? && name !in AliasTable(config) ==> r == Ok(Inherited(name))
  {
    var aliases := AliasTable(config);
    var found := LookupAsWritten(config.(aliases := Some(aliases)), name);
    if found.Some? && IsTruthy(found.value) then Ok(found.value) else Err(NotFound(name))
  }

  /** As written, `alias show toString` on an empty table finds the
      inherited function, and so does `show constructor` right after an own
      "constructor" alias was removed; `ShowAlias` reports both as not found. */
  lemma PrototypeNameShownAsWritten(config: BeeperConfig)
    requires HasEntry(AliasTable(config), "constructor")
    ensures ShowAliasAsWritten(EmptyConfig, "toString") == Ok(Inherited("toString"))
    ensures ShowAlias(EmptyConfig, "toString") == Err(NotFound("toString"))
    ensures RemoveAlias(config, "constructor").Ok?
    ensures ShowAliasAsWritten(RemoveAlias(config, "constructor").value, "constructor") == Ok(Inherited("constructor"))
    ensures ShowAlias(RemoveAlias(config, "constructor").value, "constructor") == Err(NotFound("constructor"))
  {
  }
}
