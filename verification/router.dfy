/** The change hook resource (`ChangeHookResource`): the dialect table built
    from the configuration, and `getChild`, which maps the path segment after
    `/change_hook/` to a dialect handler or to a refusal.
 */
module Router {
  import opened Values
  import opened Text

  /** Dialect name to configured options; a value equal to False disables
      the dialect. */
  type Table = map<string, Value>

  /** The diagnostic dialects every table holds. */
  const Builtins: set<string> := {"base", "error", "invalid", "null", "one"}

  /** The table built by `__init__`: every built-in disabled, then the
      configuration laid over it (overriding or adding names). */
  function NewTable(config: map<string, Value>): (t: Table)
    ensures t.Keys == Builtins + config.Keys
    ensures forall d :: d in config ==> t[d] == config[d]
    ensures forall d :: d in Builtins && d !in config ==> t[d] == Bool(false)
  {
    (map d | d in Builtins :: Bool(false)) + config
  }

  /** What `getChild` gives back. `NotImplemented` is the exception it
      raises; `NotFound` is a NoResource page carrying `message`. */
  datatype Route =
    | NotImplemented(message: string)
    | NotFound(message: string)
    | Dialect(name: string, options: Value)

  const DefaultDialect: string := "base"

  /** The reserved segment for synchronous calls, which are not implemented. */
  const SyncCall: string := "sync_call"

  /** The refusal for a disabled dialect: it quotes the name right after
      "Dialect '". */
  function DisabledMessage(name: string): (r: string)
    ensures |r| >= 9 && r[..9] == "Dialect '" && OccursAt(r, name, 9)
  {
    var r := "Dialect '" + name + "' is " + "disabled" + " for this instance of WebStatus()";
    assert r[9..9 + |name|] == name;
    r
  }

  /** The refusal for a name outside the table: it starts with "Unknown"
      and ends with the name. */
  function UnknownMessage(name: string): (r: string)
    ensures |r| >= 7 && r[..7] == "Unknown" && OccursAt(r, name, |r| - |name|)
  {
    var r := "Unknown" + " WebStatus() dialect " + name;
    assert r[|r| - |name|..] == name;
    r
  }

  /** `getChild(segment)`. The source's `name is 'base'` identity test is
      read as string equality. */
  function GetChild(table: Table, segment: string): (r: Route)
    ensures r.Dialect? ==> r.name in table && r.options == table[r.name] && !EqualsFalse(r.options)
    ensures r.Dialect? ==> r.name == segment || (segment == "" && r.name == DefaultDialect)
    ensures r.NotImplemented? <==> segment == SyncCall
  {
    var name := if segment == "" then DefaultDialect else segment;
    if name == SyncCall then NotImplemented("synchronized call not implemented")
    else if name in table || name == DefaultDialect then
      if DefaultDialect !in table || EqualsFalse(table[name]) then NotFound(DisabledMessage(name))
      else Dialect(name, table[name])
    else NotFound(UnknownMessage(name))
  }

  /** An empty segment is routed exactly as "base". */
  lemma EmptySegmentIsBase(table: Table)
    ensures GetChild(table, "") == GetChild(table, DefaultDialect)
  {
  }

  /** "sync_call" is refused before the table is consulted, even when the
      configuration enables a dialect of that name. */
  lemma SyncCallNeverReachesTable(config: map<string, Value>)
    ensures GetChild(NewTable(config), SyncCall) == NotImplemented("synchronized call not implemented")
  {
  }

  /** The disabled message mentions "disabled" whatever the case. */
  lemma DisabledMessageSaysDisabled(name: string)
    ensures Contains(Lower(DisabledMessage(name)), "disabled")
  {
    var pre := "Dialect '" + name + "' is ";
    var post := " for this instance of WebStatus()";
    assert DisabledMessage(name) == pre + "disabled" + post;
    LowerAppend(pre, "disabled");
    LowerAppend(pre + "disabled", post);
    assert Lower("disabled") == "disabled";
    ContainsMiddle(Lower(pre), "disabled", Lower(post));
  }

  /** The unknown-dialect message mentions "unknown" whatever the case. */
  lemma UnknownMessageSaysUnknown(name: string)
    ensures Contains(Lower(UnknownMessage(name)), "unknown")
  {
    var post := " WebStatus() dialect " + name;
    assert UnknownMessage(name) == "Unknown" + post;
    LowerAppend("Unknown", post);
    assert Lower("Unknown") == "unknown";
    var s := Lower(UnknownMessage(name));
    assert s[..7] == "unknown";
    assert OccursAt(s, "unknown", 0);
  }

  /** A name whose table value equals False is not found, with the
      disabled message. */
  lemma DisabledIsNotFound(config: map<string, Value>, name: string)
    requires name != SyncCall && name != ""
    requires name in NewTable(config) && EqualsFalse(NewTable(config)[name])
    ensures GetChild(NewTable(config), name) == NotFound(DisabledMessage(name))
    ensures Contains(Lower(GetChild(NewTable(config), name).message), "disabled")
  {
    DisabledMessageSaysDisabled(name);
  }

  /** The built-in dialects are disabled unless the configuration names
      them. */
  lemma BuiltinsDisabledByDefault(config: map<string, Value>, name: string)
    requires name in Builtins && name !in config
    ensures GetChild(NewTable(config), name).NotFound?
    ensures Contains(Lower(GetChild(NewTable(config), name).message), "disabled")
  {
    DisabledIsNotFound(config, name);
  }

  /** A name absent from the table is unknown. */
  lemma UnknownIsNotFound(config: map<string, Value>, name: string)
    requires name != SyncCall && name != ""
    requires name !in NewTable(config)
    ensures GetChild(NewTable(config), name) == NotFound(UnknownMessage(name))
    ensures Contains(Lower(GetChild(NewTable(config), name).message), "unknown")
  {
    UnknownMessageSaysUnknown(name);
  }

  /** Every other name in the table is handled, with its configured options
      passed on unchanged. */
  lemma EnabledIsHandled(config: map<string, Value>, name: string)
    requires name != SyncCall && name != ""
    requires name in config && !EqualsFalse(config[name])
    ensures GetChild(NewTable(config), name) == Dialect(name, config[name])
  {
  }

  /** The two refusals never share a message. */
  lemma DisabledAndUnknownDiffer(a: string, b: string)
    ensures DisabledMessage(a) != UnknownMessage(b)
  {
    assert DisabledMessage(a)[0] == 'D';
    assert UnknownMessage(b)[0] == 'U';
  }
}
