/** The built-in plugins: the diagnostic dialects `error`, `null`, `invalid`
    and `one`, and the adapter that turns a legacy hook module (one with a
    `getChanges(request, options)` function) into a one-dialect plugin.
 */
module LegacyCompat {
  import opened Values
  import opened Text
  import opened Api

  /** The sample change yielded by the `one` dialect; it asks to be
      discarded, so it never reaches the master. */
  const DummyChange: Change := map[
    "revision" := Int(0),
    "author" := Str("root"),
    "comments" := Str("nope"),
    "branch" := Str("trunk"),
    "category" := Str("main"),
    "revlink" := Str("http://example.org/"),
    "repository" := Str("297f711d-216a-466b-9181-f5a93ec79a14"),
    "project" := Str("TestCase"),
    "files" := Tuple([Str("/dev/null"), Str("/dev/zero")]),
    DiscardKey := Bool(true)
  ]

  /** The change yielded by the `invalid` dialect: a keyword the master does
      not know, and no discard flag. */
  const MalformedChange: Change := map["malformed_on_purpose" := Bool(true)]

  /** The diagnostic plugin's '/'-separated dialect string. */
  const DialectString: string := "error/null/invalid/one"

  /** The diagnostic plugin's `dialects()`: the dialect string split on '/'.
      Joining the names back gives the string, and no name holds a '/', which
      by `Text.JoinInjective` makes this the one list the split can give. */
  function DummyDialects(): (r: seq<string>)
    ensures |r| > 0 && SeparatorFree(r, '/')
    ensures Join(r, '/') == DialectString
  {
    ["error", "null", "invalid", "one"]
  }

  /** The sample change of `one` asks to be discarded; the change of
      `invalid` carries no discard flag, only a key the master does not
      know. */
  lemma DiagnosticChangeFlags()
    ensures DiscardKey in DummyChange && Discarded(DummyChange)
    ensures DiscardKey !in MalformedChange && !Discarded(MalformedChange)
    ensures MalformedChange.Keys == {"malformed_on_purpose"}
  {
  }

  /** The diagnostic plugin's `changes()`. The request and options are
      ignored; a dialect it does not declare raises RuntimeError. */
  function DummyChanges(request: Request, dialect: string, options: Value): (r: Stream)
    ensures r.end.Raises? && r.end.error.cls == RuntimeError <==> dialect !in DummyDialects()
    ensures r.end.Raises? && r.end.error.cls == ValueError <==> dialect == "error"
    ensures r.end == Exhausted <==> dialect in ["error", "null", "invalid", "one"] && dialect != "error"
    ensures |r.items| <= 1
  {
    if dialect == "error" then Stream([], Raises(Exception(ValueError, ["Error as per request"])))
    else if dialect == "null" then Stream([], Exhausted)
    else if dialect == "invalid" then Stream([MalformedChange], Exhausted)
    else if dialect == "one" then Stream([DummyChange], Exhausted)
    else Stream([], Raises(Exception(RuntimeError, ["unknown dialect " + dialect])))
  }

  /** What a legacy module's `getChanges(request, options)` does: returns
      None, returns a list of changes, or raises. */
  datatype Returned = ReturnedNone | ReturnedList(changes: seq<Change>) | Raised(error: Exception)

  /** A legacy hook module, reduced to its `getChanges` function. The
      translators themselves (base, github, ...) are left opaque. */
  datatype LegacyModule = LegacyModule(getChanges: (Request, Value) -> Returned)

  /** Python truthiness of a `getChanges` return value. */
  predicate ReturnedTruthy(v: Returned)
    requires !v.Raised?
  {
    v.ReturnedList? && |v.changes| > 0
  }

  /** The adapter wrapping one legacy module under the module's name. */
  datatype LegacyAdapter = LegacyAdapter(dialect: string, hook: LegacyModule)

  /** The adapter's `dialects()`: the one name it was built with. */
  function AdapterDialects(a: LegacyAdapter): (r: seq<string>)
    ensures |r| == 1 && r[0] == a.dialect
  {
    [a.dialect]
  }

  /** The adapter's `changes()`: the module's changes, in order, or none
      when the module returns a false value. */
  function AdapterChanges(a: LegacyAdapter, request: Request, dialect: string, options: Value): (r: Stream)
    ensures a.hook.getChanges(request, options).Raised? <==> r.end.Raises?
    ensures r.end.Raises? ==> r.end.error == a.hook.getChanges(request, options).error
    ensures a.hook.getChanges(request, options).ReturnedList? ==>
      r.items == a.hook.getChanges(request, options).changes
    ensures !a.hook.getChanges(request, options).ReturnedList? ==> r.items == []
  {
    var v := a.hook.getChanges(request, options);
    if v.Raised? then Stream([], Raises(v.error))
    else if ReturnedTruthy(v) then Stream(v.changes, Exhausted)
    else Stream([], Exhausted)
  }

  /** The dialect argument plays no part in the adapter's output. */
  lemma AdapterIgnoresDialect(a: LegacyAdapter, request: Request, d1: string, d2: string, options: Value)
    ensures AdapterChanges(a, request, d1, options) == AdapterChanges(a, request, d2, options)
  {
  }
}
