# Buildbot change hook: webhook dispatch, in Dafny

This project models the decision logic of Buildbot's web change hook
(`/change_hook/<dialect>`), and of the built-in plugins that come with it.
A push notification from a hosting service arrives as an HTTP request. The
router picks a *dialect* from the first path segment and checks it against
the configured dialect table. Every registered plugin that declares that
dialect then translates the request into change dictionaries. The whole
translation is materialised into a list. A translation error is mapped to a
status code. Otherwise the changes not flagged `_discard_change` go to the
master's change queue, one at a time, stopping at the first failure, and the
request is answered with `OK <n> changes` or with the failure.

Modules, in the order a request meets them:

- `Values`: Python values, change dictionaries, Python's `== False` test and the discard flag.
- `Text`: ASCII `lower()`, substring search, `%d` rendering with its inverse, and `join`, whose injectivity pins down `split`.
- `Api`: the plugin contract. A plugin's output is a `Stream` (the changes it yields, then exhaustion or an exception). `Materialise` gives `list()` over the chained generators.
- `LegacyCompat`: the diagnostic plugin (`error`, `null`, `invalid`, `one`), its sample change, and the adapter for legacy `getChanges` modules.
- `Registry`: the ordered plugin list and `get_changes`.
- `Router`: the dialect table built by `ChangeHookResource.__init__`, and `getChild`.
- `DialectResource`: exception classification, the discard filter, the submission pipeline (a pure `Submit` and the sequential `SubmitChanges` loop), `_cb_render_POST`, and `render_POST`.
- `Dispatch`: one request end to end, plus the outcomes for the diagnostic dialects and for the test double's always-accepting queue.

The master's queue is an oracle. It takes the changes this request has
already queued plus the next change, and answers `Accepted` or
`Rejected(message)`. The test double in `master/buildbot/test/fake/web.py`
is the oracle that always accepts (`AcceptAll`).

## Behaviour that is easy to misread

- When several plugins declare the same dialect, every one of them is consulted, in registry order, and their changes are concatenated (`Registry.DuplicateDialectsAllConsulted`).
- A dialect is disabled only when its table value compares equal to `False`, which means `False` or `0`. A table value of `None` or `""` routes to the handler.
- A change is discarded when `_discard_change` is present and `!= False`. So `None` or `""` as the flag discards the change, although the plugin interface (master/buildbot/status/web/api.py:32) speaks of a "non-false" key.
- The count in `OK <n> changes` is the length of the whole change list, discarded changes included. So `one` answers `OK 1 changes` while the queue receives nothing.
- `getChild("sync_call")` raises `NotImplementedError`; it returns no page. The model's result is an escaping exception (`Uncaught`). How Twisted renders that exception is not modelled.
- A translator exception raised without arguments is not answered: reading `e.args[0]` raises IndexError inside the except clause (see "## Findings").

## Model

| member | source | states |
|---|---|---|
| `Values.EqualsFalse` | master/buildbot/status/web/change_hook.py:79 | Python's `== False`: a bool or an int equals False exactly when it is falsy. A value of any other type never does, even a falsy one such as `None` or `""`. |
| `Values.Discarded` | master/buildbot/status/web/change_hook.py:190 | A change without the flag is kept. A bool or int flag discards exactly when it is truthy. A flag of any other type discards, even `None` or `""`. |
| `Api.Materialise` | master/buildbot/status/web/change_hook.py:124 | `list()` over the chained plugin generators. Collected if and only if no generator raises. The result is then every item in order; otherwise it is the exception of the first generator that raises, all earlier ones having been exhausted. |
| `Api.MaterialiseAppend` | master/buildbot/status/web/change_hook.py:178-183 | Materialising two chains one after the other: the second chain matters only when the first completes. The results are concatenated. |
| `Text.Decimal` | master/buildbot/status/web/change_hook.py:158 | `%d` of a count: a non-empty string of digits that starts with '0' only for the count 0, so it has no leading zero. |
| `Text.DecimalRoundTrip` | master/buildbot/status/web/change_hook.py:158 | Reading the rendered digits back gives the count. |
| `LegacyCompat.DummyDialects` | master/buildbot/status/web/hooks/legacy_compat.py:65-69 | The diagnostic dialects are the string "error/null/invalid/one" split on '/': non-empty, no name contains '/', and joining them with '/' gives the string back. |
| `Text.JoinInjective` | master/buildbot/status/web/hooks/legacy_compat.py:68 | Joining with a separator is injective on non-empty lists of separator-free parts. So the list above is the only one the split can give. |
| `LegacyCompat.DiagnosticChangeFlags` | master/buildbot/status/web/hooks/legacy_compat.py:36-47 | The sample change of `one` carries the discard flag and is discarded. The change of `invalid` (line 77) carries only `malformed_on_purpose`, so it is not discarded. |
| `LegacyCompat.DummyChanges` | master/buildbot/status/web/hooks/legacy_compat.py:71-82 | RuntimeError exactly for names outside the declared four, and ValueError exactly for `error`. The stream ends normally exactly for `null`, `invalid` and `one`, with at most one change. |
| `LegacyCompat.AdapterDialects` | master/buildbot/status/web/hooks/legacy_compat.py:93-98 | The adapter declares exactly one dialect: the name it was built with. |
| `LegacyCompat.AdapterChanges` | master/buildbot/status/web/hooks/legacy_compat.py:100-104 | The adapter yields the module's `getChanges(request, options)` list in order, with the options passed unchanged. It yields nothing when the module returns None, and it re-raises whatever the module raises. |
| `LegacyCompat.AdapterIgnoresDialect` | master/buildbot/status/web/hooks/legacy_compat.py:100-104 | The adapter's output does not depend on the dialect argument. |
| `Registry.PluginStreams` | master/buildbot/status/web/change_hook.py:179-181 | A plugin is asked for its changes once per declared name equal to the dialect, and never otherwise. |
| `Registry.RegistryStreams` | master/buildbot/status/web/change_hook.py:178-181 | Every generator that collection consumes comes from a plugin declaring the dialect. With no such plugin there are none. |
| `Registry.GetChanges` | master/buildbot/status/web/change_hook.py:163-183 | `list(get_changes(request))`. A dialect no plugin declares collects an empty list, not an error. |
| `Registry.FailureFromDeclarer` | master/buildbot/status/web/change_hook.py:178-183 | A failed collection fails with the exception that some plugin declaring the dialect raised. |
| `Registry.GetChangesAppend` | master/buildbot/status/web/change_hook.py:178-183 | Collection over `a + b` is collection over `a`, then over `b` only if `a` completed, with the changes concatenated in plugin order. |
| `Registry.SinglePluginChanges` | master/buildbot/status/web/change_hook.py:179-183 | One plugin contributes its changes once per matching declaration. If it raises, collection fails with that exception. |
| `Registry.DuplicateDialectsAllConsulted` | master/buildbot/status/web/change_hook.py:178-183 | Two plugins declaring the same dialect both contribute, in registry order. |
| `Router.NewTable` | master/buildbot/status/web/change_hook.py:54-61 | The table holds the five built-ins and every configured name. Configured values override. Built-ins the configuration omits map to False. |
| `Router.DisabledMessage` | master/buildbot/status/web/change_hook.py:80 | The disabled refusal starts with "Dialect '" and quotes the name right after it. |
| `Router.UnknownMessage` | master/buildbot/status/web/change_hook.py:86 | The unknown-dialect refusal starts with "Unknown" and ends with the name. |
| `Router.GetChild` | master/buildbot/status/web/change_hook.py:73-88 | A handler only for a name in the table whose value is not equal to False, and it gets exactly that value as options. The name is the segment, or `base` for an empty segment. NotImplemented exactly for `sync_call`. |
| `Router.EmptySegmentIsBase` | master/buildbot/status/web/change_hook.py:74-75 | An empty segment routes exactly as `base`. |
| `Router.SyncCallNeverReachesTable` | master/buildbot/status/web/change_hook.py:76-77 | `sync_call` is refused as not implemented, whatever the configuration. |
| `Router.DisabledMessageSaysDisabled` | master/buildbot/status/web/change_hook.py:80 | The disabled message contains "disabled" after lower-casing. |
| `Router.UnknownMessageSaysUnknown` | master/buildbot/status/web/change_hook.py:86 | The unknown-dialect message contains "unknown" after lower-casing. |
| `Router.DisabledIsNotFound` | master/buildbot/status/web/change_hook.py:78-82 | A name whose table value equals False is not found, with the disabled message. |
| `Router.BuiltinsDisabledByDefault` | master/buildbot/test/unit/test_status_web_change_hook.py:59-67 | A built-in dialect that the configuration omits is not found, with a message containing "disabled". |
| `Router.UnknownIsNotFound` | master/buildbot/status/web/change_hook.py:85-88 | A name absent from the table is not found, with "Unknown WebStatus() dialect " + name. |
| `Router.EnabledIsHandled` | master/buildbot/status/web/change_hook.py:83-84 | A configured name whose value is not equal to False is handled, with that value as options. |
| `Router.DisabledAndUnknownDiffer` | master/buildbot/status/web/change_hook.py:80-86 | The disabled and unknown refusals never carry the same message. |
| `DialectResource.ClassifyAsWritten` | master/buildbot/status/web/change_hook.py:123-139 | Classification as written: 400, 501 or 500 by class, with the first argument as message. An exception without arguments makes the handler raise IndexError; a class outside Exception escapes as itself. |
| `DialectResource.Classify` | master/buildbot/status/web/change_hook.py:123-139 | ValueError gives 400, NotImplementedError gives 501, and any other Exception gives 500, with the first argument (or "") as message. Only non-Exception classes escape. |
| `DialectResource.ClassifyAgreesWithArguments` | master/buildbot/status/web/change_hook.py:125-137 | Both classifiers agree whenever the exception has an argument. |
| `DialectResource.BareValueErrorCrashesHandler` | master/buildbot/status/web/change_hook.py:125-126 | `ValueError()` with no arguments makes the handler raise IndexError as written. The corrected classifier answers 400. |
| `DialectResource.Kept` | master/buildbot/status/web/change_hook.py:189-192 | The changes that reach the queue are exactly those of the list that are not flagged for discard. The filter never lengthens the list. |
| `DialectResource.KeptAppend` | master/buildbot/status/web/change_hook.py:189-192 | The discard filter works change by change: filtering a concatenation concatenates the filtered parts. |
| `DialectResource.KeptIdempotent` | master/buildbot/status/web/change_hook.py:189-192 | Filtering twice equals filtering once. |
| `DialectResource.AcceptAll` | master/buildbot/test/fake/web.py:43-47 | The test double's queue accepts every change, whatever was queued before. |
| `DialectResource.Submit` | master/buildbot/status/web/change_hook.py:186-196 | The queue's received sequence is a prefix of the kept list, and the queue accepted each change given those before it. On success it is the whole kept list. On failure, the next kept change is the one the queue rejected with the reported message. |
| `DialectResource.SubmitUnique` | master/buildbot/status/web/change_hook.py:186-196 | The queue's verdicts fully determine the pipeline's outcome. |
| `DialectResource.SubmitChanges` | master/buildbot/status/web/change_hook.py:186-196 | The sequential loop: the queue receives a prefix of the kept changes, in order, and accepted each one given those before it. On success the queue received all kept changes. On failure, the next kept change is the one the queue rejected with the reported message. |
| `DialectResource.Respond` | master/buildbot/status/web/change_hook.py:153-160 | A failure answers 400 with its message. Success answers 200 with "OK <count> changes". |
| `DialectResource.SuccessMessage` | master/buildbot/status/web/change_hook.py:158 | "OK %d changes": "OK ", the count in decimal, then " changes". It never equals "OK no changes". |
| `DialectResource.SubmitAndRespond` | master/buildbot/status/web/change_hook.py:141-158 | A successful translation: an empty list answers 200 "OK no changes" without calling the queue. Otherwise the queue receives a prefix of the kept changes, each accepted. The reply is 200 "OK <len> changes" exactly when all were queued, else 400 with the message of the queue's rejection of the next kept change. |
| `DialectResource.SuccessMessageCount` | master/buildbot/status/web/change_hook.py:158 | The count in "OK %d changes" is all digits and reads back exactly. |
| `DialectResource.RenderPost` | master/buildbot/status/web/change_hook.py:113-158 | `render_POST` as written. A translation error submits nothing and is answered by the handler's except clauses, or escapes. An empty list answers 200 "OK no changes". Otherwise the queue receives a prefix of the kept changes, each accepted. The reply is 200 "OK <len> changes" exactly when all were queued, else 400 with the queue's rejection message for the next kept change. |
| `DialectResource.CorrectedRenderPost` | master/buildbot/status/web/change_hook.py:113-158 | `render_POST` with the missing-argument case handled: a translation error is answered by `Classify`, so only classes outside Exception escape. On a successful translation it is `RenderPost`. |
| `DialectResource.RenderPostsDiffer` | master/buildbot/status/web/change_hook.py:125-137 | The as-written and corrected renders differ exactly when translation fails with an Exception raised without arguments. |
| `Dispatch.Serve` | master/buildbot/status/web/change_hook.py:73-88 | Refused routes submit nothing. An unknown or disabled name answers 404 with the refusal message `getChild` built. `sync_call` escapes as NotImplementedError. |
| `Dispatch.EnabledIsRendered` | master/buildbot/status/web/change_hook.py:83-84 | A configured name whose value is not equal to False is served by its handler's render, with the configured value as options. |
| `Dispatch.UnknownIsRefused` | master/buildbot/status/web/change_hook.py:85-88 | A name outside the table is answered 404 with "Unknown WebStatus() dialect " + name, which mentions "unknown" whatever the case, and nothing is submitted. |
| `Dispatch.SoleDeclarer` | master/buildbot/status/web/change_hook.py:178-183 | When one plugin alone declares a dialect, collection is that plugin's output. |
| `Dispatch.DiagnosticDeclaredOnce` | master/buildbot/status/web/hooks/legacy_compat.py:65-69 | Each of error, null, invalid and one occurs once in the diagnostic plugin's dialect list. |
| `Dispatch.DiagnosticCollection` | master/buildbot/status/web/hooks/legacy_compat.py:65-82 | A diagnostic dialect collects exactly the diagnostic plugin's stream. |
| `Dispatch.ErrorDialectIsBadRequest` | master/buildbot/status/web/hooks/legacy_compat.py:72-73 | `error` answers 400 "Error as per request" and submits nothing. |
| `Dispatch.NullDialectHasNoChanges` | master/buildbot/status/web/hooks/legacy_compat.py:74-75 | `null` answers 200 "OK no changes" and never calls the queue. |
| `Dispatch.SubmitOne` | master/buildbot/status/web/change_hook.py:186-196 | On a one-change list, the pipeline submits that change unless it is discarded. The count reads "OK 1 changes". |
| `Dispatch.InvalidDialectReachesQueue` | master/buildbot/status/web/hooks/legacy_compat.py:76-78 | `invalid` submits its one malformed change. The answer is 200 "OK 1 changes" if the queue accepts it, else 400 with the queue's message. |
| `Dispatch.OneDialectCountsDiscarded` | master/buildbot/status/web/hooks/legacy_compat.py:79-81 | `one` answers 200 "OK 1 changes" while the queue receives nothing. |
| `Dispatch.DummyRuntimeErrorUnreachable` | master/buildbot/status/web/hooks/legacy_compat.py:82 | The diagnostic plugin raises RuntimeError for an undeclared name, yet collection through it gives an empty list. |
| `Dispatch.AcceptingQueueSucceeds` | master/buildbot/test/fake/web.py:43-47 | With the always-accepting queue, a successful translation answers 200. The queue receives exactly the kept changes, and the count covers the whole list. |
| `Dispatch.TranslationErrorSubmitsNothing` | master/buildbot/status/web/change_hook.py:123-139 | A translation error submits nothing. As written, the reply escapes exactly for a class outside Exception or an exception without arguments, and then as IndexError in the second case. As intended, it escapes only for a class outside Exception. |
| `Dispatch.EmptySegmentServedAsBase` | master/buildbot/test/unit/test_status_web_change_hook.py:69-78 | `/change_hook/` and `/change_hook/base` are served identically. |
| `Dispatch.UnconfiguredBuiltinsRefused` | master/buildbot/test/unit/test_status_web_change_hook.py:59-67 | With no configuration, every built-in answers 404 with a message containing "disabled", and nothing is submitted. |

## Findings

| source | as written | input that shows it | evidently intended | confidence | as-written member | corrected member |
|---|---|---|---|---|---|---|
| master/buildbot/status/web/change_hook.py:125-137 | The status message is `e.args[0]`, read inside the except clause. | A translator that raises `ValueError()` (or any exception) with no arguments: the handler raises IndexError instead of answering. | Answer the mapped status (400, 501 or 500) with an empty message. | medium, not executed | `DialectResource.ClassifyAsWritten` | `DialectResource.Classify` |

`DialectResource.BareValueErrorCrashesHandler` exhibits the input. `DialectResource.RenderPost`, which `Dispatch.Serve` uses, follows the code as written. `DialectResource.CorrectedRenderPost` uses the corrected `Classify`, and `DialectResource.RenderPostsDiffer` states exactly where the two differ.

## Left out

- Twisted resource plumbing is not modelled: `NoResource` page rendering, `NOT_DONE_YET`, `request.finish`, the status line, and the Deferred callback chain. A refusal is modelled as a 404 with its message. An exception escaping `getChild` or `render_POST` is modelled as `Uncaught`.
- `render_GET` only delegates to `render_POST`, so one render models both.
- Plugin discovery (`getPlugins`, the glob and `namedModule` scan of the hooks directory, the path set-up of the plugins package) is import-time I/O. The registry is an explicit, ordered list of plugins.
- The logging loop in `ChangeHookResource.__init__` only logs which declared dialects are enabled, so it is not modelled. Other logging and traceback printing are left out for the same reason.
- The payload translators behind legacy modules (`base`, `github`, ...) are not part of this model. Each legacy module is an opaque `getChanges` function.
- Registry.Custom: a plugin other than the built-in ones is given by a finite list of dialect names and a translation function. A `dialects()` generator that raises or never ends is not modelled.
- `Router.GetChild` reads `name is 'base'` as string equality. The two differ only for a table without `base`, and `__init__` never builds one.
- The queue oracle's verdict depends on this request's earlier submissions only. Concurrent requests interleaving at the master are not modelled.
- Floating-point values are not modelled, so `0.0 == False` is not covered.
- Exception classes are reduced to ValueError (with its subclasses), NotImplementedError, RuntimeError, other Exception classes except StopIteration, and classes outside Exception. Exception arguments are strings.
- Api.Materialise: StopIteration is not one of the modelled exception classes, and `OtherException("StopIteration")` must not be read as it. Raised inside a generator, it just ends the generator, which the model writes as `Exhausted` (master/buildbot/status/web/hooks/legacy_compat.py:75, 78 and 81). Raised by a `changes()` that is not a generator, at the call inside `get_changes`, Python 2 silently ends `get_changes`. `list()` then returns the changes collected so far, skips every later plugin and reports no error. That truncation is not modelled.
- Api.Materialise: a `changes()` generator that never ends, which makes `list()` never return, is not modelled. A `Stream` holds finitely many items.
- `DialectResource`'s `isLeaf` handling of extra path segments is not modelled. Only the first segment is routed.
