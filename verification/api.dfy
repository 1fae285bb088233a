/** The dialect plugin contract: a plugin names the dialects it handles and,
    for one of them, lazily yields change dictionaries, possibly raising
    part-way. This module also gives the meaning of `list(...)` over such
    lazy output: either every change, or the first exception.
 */
module Api {
  import opened Values

  /** The HTTP request as the translators see it: its query/form arguments,
      each a list of values. */
  datatype Request = Request(args: map<string, seq<Value>>)

  /** The exception classes the change hook tells apart. `ValueError` stands
      for ValueError and its subclasses; `NonException` for the classes that
      do not derive from Exception (SystemExit, KeyboardInterrupt, ...).
      StopIteration is none of these: a generator that raises it has simply
      ended (`Exhausted`). */
  datatype ErrorClass =
    | ValueError
    | NotImplementedError
    | RuntimeError
    | OtherException(name: string)
    | NonException(name: string)

  /** A raised exception with its positional arguments. */
  datatype Exception = Exception(cls: ErrorClass, args: seq<string>)

  /** How a generator ends once its items are consumed. */
  datatype End = Exhausted | Raises(error: Exception)

  /** The whole behaviour of one plugin generator: the items it yields, in
      order, and how it ends after the last one. */
  datatype Stream = Stream(items: seq<Change>, end: End)

  /** The outcome of materialising lazy translation output into a list. */
  datatype Translation = Collected(changes: seq<Change>) | Failed(error: Exception)

  /** All items of the streams, in order. */
  function AllItems(streams: seq<Stream>): seq<Change>
    decreases |streams|
  {
    if |streams| == 0 then [] else streams[0].items + AllItems(streams[1..])
  }

  /** Consuming generators one after another, as `list()` does over a
      generator that delegates to each of them in turn: the items of every
      stream when none raises; otherwise the exception of the first one that
      raises (the items already produced are lost with the list). */
  function Materialise(streams: seq<Stream>): (r: Translation)
    ensures r.Collected? <==> forall k :: 0 <= k < |streams| ==> streams[k].end == Exhausted
    ensures r.Collected? ==> r.changes == AllItems(streams)
    ensures r.Failed? ==>
      exists k :: 0 <= k < |streams| && streams[k].end == Raises(r.error)
        && forall j :: 0 <= j < k ==> streams[j].end == Exhausted
    decreases |streams|
  {
    if |streams| == 0 then Collected([])
    else
      match streams[0].end
      case Raises(e) => Failed(e)
      case Exhausted =>
        match Materialise(streams[1..])
        case Failed(e) => Failed(e)
        case Collected(rest) => Collected(streams[0].items + rest)
  }

  lemma {:induction false} AllItemsAppend(a: seq<Stream>, b: seq<Stream>)
    ensures AllItems(a + b) == AllItems(a) + AllItems(b)
    decreases |a|
  {
    if |a| > 0 {
      assert (a + b)[1..] == a[1..] + b;
      AllItemsAppend(a[1..], b);
      assert AllItems(a + b) == a[0].items + AllItems(a[1..] + b);
    } else {
      assert a + b == b;
    }
  }

  /** Materialising a concatenation of generator chains: the second chain's
      outcome matters only when the first completes. */
  lemma {:induction false} MaterialiseAppend(a: seq<Stream>, b: seq<Stream>)
    ensures Materialise(a + b) ==
      match Materialise(a)
      case Failed(e) => Failed(e)
      case Collected(xs) =>
        match Materialise(b)
        case Failed(e) => Failed(e)
        case Collected(ys) => Collected(xs + ys)
    decreases |a|
  {
    if |a| > 0 {
      assert (a + b)[1..] == a[1..] + b;
      MaterialiseAppend(a[1..], b);
      if a[0].end == Exhausted {
        match Materialise(a[1..])
        case Failed(e) =>
        case Collected(xs) =>
          match Materialise(b)
          case Failed(e) =>
          case Collected(ys) =>
            assert a[0].items + (xs + ys) == (a[0].items + xs) + ys;
      }
    } else {
      assert a + b == b;
    }
  }
}
