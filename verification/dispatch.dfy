/** One request end to end — route the path segment, then render the routed
    dialect — and what that gives for the diagnostic dialects and for the
    test double's queue.
 */
module Dispatch {
  import opened Values
  import opened Text
  import opened Api
  import opened LegacyCompat
  import opened Registry
  import opened Router
  import opened DialectResource

  /** `/change_hook/<segment>` against the table built from `config`: a
      refusal from `getChild`, or the dialect handler's render. */
  function Serve(config: map<string, Value>, segment: string, request: Request, plugins: seq<Plugin>, queue: Queue)
    : (r: Outcome)
    ensures !GetChild(NewTable(config), segment).Dialect? ==> r.added == []
    ensures segment == SyncCall ==> r.reply.Uncaught? && r.reply.error.cls == NotImplementedError
    ensures GetChild(NewTable(config), segment).NotFound? ==>
      r == Outcome(Status(404, GetChild(NewTable(config), segment).message), [])
  {
    match GetChild(NewTable(config), segment)
    case NotImplemented(m) => Outcome(Uncaught(Exception(NotImplementedError, [m])), [])
    case NotFound(m) => Outcome(Status(404, m), [])
    case Dialect(name, options) => RenderPost(plugins, name, options, request, queue)
  }

  /** An enabled dialect is served by its handler, which gets the configured
      value as its options. */
  lemma EnabledIsRendered(config: map<string, Value>, name: string, request: Request, plugins: seq<Plugin>, queue: Queue)
    requires name != SyncCall && name != ""
    requires name in config && !EqualsFalse(config[name])
    ensures Serve(config, name, request, plugins, queue) == RenderPost(plugins, name, config[name], request, queue)
  {
    EnabledIsHandled(config, name);
  }

  /** A name outside the table is answered 404 with the unknown-dialect
      message, and nothing is submitted. */
  lemma UnknownIsRefused(config: map<string, Value>, name: string, request: Request, plugins: seq<Plugin>, queue: Queue)
    requires name != SyncCall && name != ""
    requires name !in NewTable(config)
    ensures Serve(config, name, request, plugins, queue) == Outcome(Status(404, UnknownMessage(name)), [])
    ensures Contains(Lower(Serve(config, name, request, plugins, queue).reply.message), "unknown")
  {
    UnknownIsNotFound(config, name);
  }

  /** Only `plugins[i]` declares `dialect`. */
  predicate OnlyDeclarer(plugins: seq<Plugin>, i: nat, dialect: string) {
    i < |plugins| && Count(Dialects(plugins[i]), dialect) == 1
    && forall j :: 0 <= j < |plugins| && j != i ==> dialect !in Dialects(plugins[j])
  }

  /** When one plugin alone declares a dialect, the others play no part. */
  lemma SoleDeclarer(plugins: seq<Plugin>, i: nat, request: Request, dialect: string, options: Value)
    requires OnlyDeclarer(plugins, i, dialect)
    ensures GetChanges(plugins, request, dialect, options) == GetChanges([plugins[i]], request, dialect, options)
  {
    var before := plugins[..i];
    var after := plugins[i + 1..];
    var only := [plugins[i]];
    assert plugins == before + only + after;
    forall j | 0 <= j < |before|
      ensures dialect !in Dialects(before[j])
    {
      assert before[j] == plugins[j];
    }
    forall j | 0 <= j < |after|
      ensures dialect !in Dialects(after[j])
    {
      assert after[j] == plugins[i + 1 + j];
    }
    assert GetChanges(before, request, dialect, options) == Collected([]);
    assert GetChanges(after, request, dialect, options) == Collected([]);
    GetChangesAppendNothing(before, only, request, dialect, options);
    GetChangesAppendNothing(before + only, after, request, dialect, options);
  }

  /** Each diagnostic name occurs once in the diagnostic plugin's list. */
  lemma DiagnosticDeclaredOnce(dialect: string)
    requires dialect in ["error", "null", "invalid", "one"]
    ensures Count(DummyDialects(), dialect) == 1
  {
    var names := DummyDialects();
    assert names[1..][1..][1..][1..] == [];
  }

  /** A diagnostic dialect served by the diagnostic plugin alone collects
      exactly what that plugin's `changes` gives. */
  lemma DiagnosticCollection(plugins: seq<Plugin>, i: nat, request: Request, dialect: string, options: Value)
    requires dialect in ["error", "null", "invalid", "one"]
    requires OnlyDeclarer(plugins, i, dialect) && plugins[i] == Dummy
    ensures var s := DummyChanges(request, dialect, options);
      GetChanges(plugins, request, dialect, options)
        == if s.end == Exhausted then Collected(s.items) else Failed(s.end.error)
  {
    SoleDeclarer(plugins, i, request, dialect, options);
    DiagnosticDeclaredOnce(dialect);
    SinglePluginChanges(Dummy, request, dialect, options);
    var s := DummyChanges(request, dialect, options);
    assert Repeat(s.items, 1) == s.items + [];
  }

  /** `error`: 400 with the plugin's message, and nothing submitted. */
  lemma ErrorDialectIsBadRequest(plugins: seq<Plugin>, i: nat, request: Request, options: Value, queue: Queue)
    requires OnlyDeclarer(plugins, i, "error") && plugins[i] == Dummy
    ensures RenderPost(plugins, "error", options, request, queue)
      == Outcome(Status(400, "Error as per request"), [])
  {
    DiagnosticCollection(plugins, i, request, "error", options);
  }

  /** `null`: 200 "OK no changes", and the queue is never called. */
  lemma NullDialectHasNoChanges(plugins: seq<Plugin>, i: nat, request: Request, options: Value, queue: Queue)
    requires OnlyDeclarer(plugins, i, "null") && plugins[i] == Dummy
    ensures RenderPost(plugins, "null", options, request, queue)
      == Outcome(Status(200, "OK no changes"), [])
  {
    DiagnosticCollection(plugins, i, request, "null", options);
  }

  /** The pipeline on a one-change list, and the count it reports. */
  lemma SubmitOne(c: Change, queue: Queue)
    ensures Submit([c], queue, []) ==
      if Discarded(c) then Submission([], None)
      else match queue([], c)
        case Accepted => Submission([c], None)
        case Rejected(m) => Submission([], Some(m))
    ensures SuccessMessage(|[c]|) == "OK 1 changes"
  {
    assert [c][1..] == [];
    assert Decimal(1) == "1";
  }

  /** `invalid`: its one change carries no discard flag, so it is submitted;
      the answer is whatever the queue makes of it. */
  lemma InvalidDialectReachesQueue(plugins: seq<Plugin>, i: nat, request: Request, options: Value, queue: Queue)
    requires OnlyDeclarer(plugins, i, "invalid") && plugins[i] == Dummy
    ensures RenderPost(plugins, "invalid", options, request, queue)
      == match queue([], MalformedChange)
         case Accepted => Outcome(Status(200, "OK 1 changes"), [MalformedChange])
         case Rejected(m) => Outcome(Status(400, m), [])
  {
    DiagnosticCollection(plugins, i, request, "invalid", options);
    assert !Discarded(MalformedChange);
    SubmitOne(MalformedChange, queue);
  }

  /** `one`: its change asks to be discarded, so the queue receives nothing,
      yet the answer counts it: 200 "OK 1 changes". */
  lemma OneDialectCountsDiscarded(plugins: seq<Plugin>, i: nat, request: Request, options: Value, queue: Queue)
    requires OnlyDeclarer(plugins, i, "one") && plugins[i] == Dummy
    ensures RenderPost(plugins, "one", options, request, queue)
      == Outcome(Status(200, "OK 1 changes"), [])
  {
    DiagnosticCollection(plugins, i, request, "one", options);
    assert Discarded(DummyChange);
    SubmitOne(DummyChange, queue);
  }

  /** The diagnostic plugin raises RuntimeError for any name it does not
      declare, but collection never asks it about one. */
  lemma DummyRuntimeErrorUnreachable(request: Request, dialect: string, options: Value)
    requires dialect !in ["error", "null", "invalid", "one"]
    ensures DummyChanges(request, dialect, options).end
      == Raises(Exception(RuntimeError, ["unknown dialect " + dialect]))
    ensures GetChanges([Dummy], request, dialect, options) == Collected([])
  {
    assert GetChanges([Dummy], request, dialect, options) == Collected([]);
  }

  /** With the test double's queue, which accepts every change, a translation
      that succeeds always answers 200: the queue receives exactly the kept
      changes, and the count covers the whole list. */
  lemma AcceptingQueueSucceeds(plugins: seq<Plugin>, dialect: string, options: Value, request: Request)
    requires GetChanges(plugins, request, dialect, options).Collected?
    ensures var changes := GetChanges(plugins, request, dialect, options).changes;
      RenderPost(plugins, dialect, options, request, AcceptAll()) ==
        Outcome(Status(200, if |changes| == 0 then NoChangesMessage else SuccessMessage(|changes|)), Kept(changes))
  {
    var changes := GetChanges(plugins, request, dialect, options).changes;
    var s := Submit(changes, AcceptAll(), []);
    if s.failure.Some? {
      assert false;
    }
    assert |changes| == 0 ==> Kept(changes) == [];
  }

  /** A translation error ends the request before any submission. As
      written, the handler's except clauses answer it, or it escapes (as
      IndexError when it carries no argument); as intended, every Exception
      subclass is answered with its status code. */
  lemma TranslationErrorSubmitsNothing(plugins: seq<Plugin>, dialect: string, options: Value, request: Request, queue: Queue)
    requires GetChanges(plugins, request, dialect, options).Failed?
    ensures var e := GetChanges(plugins, request, dialect, options).error;
      var r := RenderPost(plugins, dialect, options, request, queue);
      r.added == [] && (r.reply.Uncaught? <==> e.cls.NonException? || |e.args| == 0)
      && (r.reply.Uncaught? && !e.cls.NonException? ==> r.reply.error == IndexError)
    ensures var e := GetChanges(plugins, request, dialect, options).error;
      var r := CorrectedRenderPost(plugins, dialect, options, request, queue);
      r.added == [] && (r.reply.Uncaught? <==> e.cls.NonException?)
  {
  }

  /** An empty segment is served exactly as "base", end to end. */
  lemma EmptySegmentServedAsBase(config: map<string, Value>, request: Request, plugins: seq<Plugin>, queue: Queue)
    ensures Serve(config, "", request, plugins, queue) == Serve(config, DefaultDialect, request, plugins, queue)
  {
    EmptySegmentIsBase(NewTable(config));
  }

  /** With no configuration, every built-in dialect is refused with a 404
      whose message mentions "disabled", and nothing is submitted. */
  lemma UnconfiguredBuiltinsRefused(name: string, request: Request, plugins: seq<Plugin>, queue: Queue)
    requires name in Builtins
    ensures var r := Serve(map[], name, request, plugins, queue);
      r.reply.Status? && r.reply.code == 404 && Contains(Lower(r.reply.message), "disabled") && r.added == []
  {
    BuiltinsDisabledByDefault(map[], name);
  }
}
