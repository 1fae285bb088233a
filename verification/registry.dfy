/** The plugin registry and change collection (`get_changes`): every plugin,
    in registry order, is asked for its dialect names, and each name equal to
    the requested dialect contributes that plugin's changes. Plugin discovery
    is replaced by an explicit, ordered list of plugins.
 */
module Registry {
  import opened Values
  import opened Api
  import opened LegacyCompat

  /** One registered plugin: the diagnostic plugin, a legacy adapter, or any
      other plugin given by its declared names and its translation. */
  datatype Plugin =
    | Dummy
    | Legacy(adapter: LegacyAdapter)
    | Custom(names: seq<string>, translate: (Request, string, Value) -> Stream)

  /** The plugin's `dialects()`. */
  function Dialects(p: Plugin): seq<string> {
    match p
    case Dummy => DummyDialects()
    case Legacy(a) => AdapterDialects(a)
    case Custom(names, _) => names
  }

  /** The plugin's `changes(request, dialect, options)`. */
  function Changes(p: Plugin, request: Request, dialect: string, options: Value): Stream {
    match p
    case Dummy => DummyChanges(request, dialect, options)
    case Legacy(a) => AdapterChanges(a, request, dialect, options)
    case Custom(_, translate) => translate(request, dialect, options)
  }

  /** How many times `d` occurs in `names`. */
  function Count(names: seq<string>, d: string): (n: nat)
    ensures n <= |names|
    ensures n == 0 <==> d !in names
    decreases |names|
  {
    if |names| == 0 then 0 else (if names[0] == d then 1 else 0) + Count(names[1..], d)
  }

  /** The inner loop of `get_changes` for one plugin: one call of `changes`
      per declared name equal to the dialect. */
  function PluginStreams(p: Plugin, names: seq<string>, request: Request, dialect: string, options: Value)
    : (r: seq<Stream>)
    ensures |r| == Count(names, dialect)
    ensures forall k :: 0 <= k < |r| ==> r[k] == Changes(p, request, dialect, options)
    decreases |names|
  {
    if |names| == 0 then []
    else
      (if names[0] == dialect then [Changes(p, request, dialect, options)] else [])
      + PluginStreams(p, names[1..], request, dialect, options)
  }

  /** Stream `s` is what some plugin of the registry that declares the
      dialect translates the request into. */
  ghost predicate FromDeclaringPlugin(plugins: seq<Plugin>, s: Stream, request: Request, dialect: string, options: Value) {
    exists i :: 0 <= i < |plugins| && dialect in Dialects(plugins[i])
      && s == Changes(plugins[i], request, dialect, options)
  }

  /** The generators `get_changes` chains together, in the order it consumes
      them: only plugins that declare the dialect are asked for changes. */
  function RegistryStreams(plugins: seq<Plugin>, request: Request, dialect: string, options: Value)
    : (r: seq<Stream>)
    ensures forall k :: 0 <= k < |r| ==> FromDeclaringPlugin(plugins, r[k], request, dialect, options)
    ensures (forall i :: 0 <= i < |plugins| ==> dialect !in Dialects(plugins[i])) ==> r == []
    decreases |plugins|
  {
    if |plugins| == 0 then []
    else
      var head := PluginStreams(plugins[0], Dialects(plugins[0]), request, dialect, options);
      var tail := RegistryStreams(plugins[1..], request, dialect, options);
      assert forall k :: 0 <= k < |tail| ==> FromDeclaringPlugin(plugins, tail[k], request, dialect, options) by {
        forall k | 0 <= k < |tail|
          ensures FromDeclaringPlugin(plugins, tail[k], request, dialect, options)
        {
          var j :| 0 <= j < |plugins[1..]| && dialect in Dialects(plugins[1..][j])
            && tail[k] == Changes(plugins[1..][j], request, dialect, options);
          assert plugins[1..][j] == plugins[j + 1];
        }
      }
      assert forall k :: 0 <= k < |head| ==> FromDeclaringPlugin(plugins, head[k], request, dialect, options) by {
        if |head| > 0 {
          assert dialect in Dialects(plugins[0]);
        }
      }
      head + tail
  }

  /** `list(get_changes(request))`: every change of every consulted
      generator, or the first exception one of them raises. */
  function GetChanges(plugins: seq<Plugin>, request: Request, dialect: string, options: Value): (r: Translation)
    ensures (forall i :: 0 <= i < |plugins| ==> dialect !in Dialects(plugins[i])) ==> r == Collected([])
  {
    Materialise(RegistryStreams(plugins, request, dialect, options))
  }

  /** A collection failure is the exception that a plugin declaring the
      dialect raised. */
  lemma FailureFromDeclarer(plugins: seq<Plugin>, request: Request, dialect: string, options: Value)
    ensures var t := GetChanges(plugins, request, dialect, options);
      t.Failed? ==>
        exists i :: 0 <= i < |plugins| && dialect in Dialects(plugins[i])
          && Changes(plugins[i], request, dialect, options).end == Raises(t.error)
  {
    var streams := RegistryStreams(plugins, request, dialect, options);
    var t := Materialise(streams);
    if t.Failed? {
      var k :| 0 <= k < |streams| && streams[k].end == Raises(t.error);
      assert FromDeclaringPlugin(plugins, streams[k], request, dialect, options);
    }
  }

  lemma {:induction false} RegistryStreamsAppend(a: seq<Plugin>, b: seq<Plugin>, request: Request, dialect: string, options: Value)
    ensures RegistryStreams(a + b, request, dialect, options)
      == RegistryStreams(a, request, dialect, options) + RegistryStreams(b, request, dialect, options)
    decreases |a|
  {
    if |a| == 0 {
      assert a + b == b;
    } else {
      assert (a + b)[0] == a[0];
      assert (a + b)[1..] == a[1..] + b;
      RegistryStreamsAppend(a[1..], b, request, dialect, options);
    }
  }

  /** Registering more plugins after others: the later plugins' changes come
      after the earlier ones', and are only asked for when the earlier ones
      completed. */
  lemma GetChangesAppend(a: seq<Plugin>, b: seq<Plugin>, request: Request, dialect: string, options: Value)
    ensures GetChanges(a + b, request, dialect, options) ==
      match GetChanges(a, request, dialect, options)
      case Failed(e) => Failed(e)
      case Collected(xs) =>
        match GetChanges(b, request, dialect, options)
        case Failed(e) => Failed(e)
        case Collected(ys) => Collected(xs + ys)
  {
    RegistryStreamsAppend(a, b, request, dialect, options);
    MaterialiseAppend(RegistryStreams(a, request, dialect, options), RegistryStreams(b, request, dialect, options));
  }

  /** Plugins that collect nothing, placed before or after others, change
      nothing. */
  lemma GetChangesAppendNothing(a: seq<Plugin>, b: seq<Plugin>, request: Request, dialect: string, options: Value)
    ensures GetChanges(a, request, dialect, options) == Collected([]) ==>
      GetChanges(a + b, request, dialect, options) == GetChanges(b, request, dialect, options)
    ensures GetChanges(b, request, dialect, options) == Collected([]) ==>
      GetChanges(a + b, request, dialect, options) == GetChanges(a, request, dialect, options)
  {
    GetChangesAppend(a, b, request, dialect, options);
    var ra := GetChanges(a, request, dialect, options);
    var rb := GetChanges(b, request, dialect, options);
    if ra.Collected? && rb.Collected? {
      assert [] + rb.changes == rb.changes;
      assert ra.changes + [] == ra.changes;
    }
  }

  /** One plugin's contribution: its stream once per declaration of the
      dialect, so a plugin declaring a name twice is consulted twice. */
  lemma {:induction false} SinglePluginChanges(p: Plugin, request: Request, dialect: string, options: Value)
    ensures var s := Changes(p, request, dialect, options);
      GetChanges([p], request, dialect, options) ==
        if Count(Dialects(p), dialect) == 0 || s.end == Exhausted
        then Collected(Repeat(s.items, Count(Dialects(p), dialect)))
        else Failed(s.end.error)
  {
    var s := Changes(p, request, dialect, options);
    var n := Count(Dialects(p), dialect);
    var streams := RegistryStreams([p], request, dialect, options);
    assert streams == PluginStreams(p, Dialects(p), request, dialect, options) + [];
    assert |streams| == n;
    if n > 0 && s.end.Raises? {
      assert streams[0].end == s.end;
    } else {
      RepeatedItems(streams, s, n);
    }
  }

  /** `xs` repeated `n` times. */
  function Repeat(xs: seq<Change>, n: nat): (r: seq<Change>)
    ensures |r| == n * |xs|
    decreases n
  {
    if n == 0 then [] else xs + Repeat(xs, n - 1)
  }

  lemma {:induction false} RepeatedItems(streams: seq<Stream>, s: Stream, n: nat)
    requires |streams| == n
    requires forall k :: 0 <= k < n ==> streams[k] == s
    ensures AllItems(streams) == Repeat(s.items, n)
    decreases n
  {
    if n > 0 {
      RepeatedItems(streams[1..], s, n - 1);
    }
  }

  /** Duplicate registrations are all consulted, in registry order: with two
      plugins declaring the same dialect, both contribute their changes; the
      first registration does not shadow the second. */
  lemma DuplicateDialectsAllConsulted(p: Plugin, q: Plugin, request: Request, dialect: string, options: Value)
    requires Count(Dialects(p), dialect) == 1 && Count(Dialects(q), dialect) == 1
    requires Changes(p, request, dialect, options).end == Exhausted
    requires Changes(q, request, dialect, options).end == Exhausted
    ensures GetChanges([p, q], request, dialect, options)
      == Collected(Changes(p, request, dialect, options).items + Changes(q, request, dialect, options).items)
  {
    SinglePluginChanges(p, request, dialect, options);
    SinglePluginChanges(q, request, dialect, options);
    GetChangesAppend([p], [q], request, dialect, options);
    assert [p] + [q] == [p, q];
    var sp := Changes(p, request, dialect, options).items;
    var sq := Changes(q, request, dialect, options).items;
    assert Repeat(sp, 1) == sp + [];
    assert Repeat(sq, 1) == sq + [];
  }
}
