/** The dialect handler (`DialectResource`): it materialises the changes the
    plugins produce, classifies a translation error into a status code,
    submits the kept changes one at a time to the master's change queue,
    stopping at the first rejection, and maps the outcome to a response.
 */
module DialectResource {
  import opened Values
  import opened Text
  import opened Api
  import opened Registry

  /** The response a request ends with: a status code with its message, or
      an exception that escapes the handler (Twisted renders that itself). */
  datatype Reply = Status(code: int, message: string) | Uncaught(error: Exception)

  /** The exception the handler itself raises when it reads the first
      argument of an exception that has none. */
  const IndexError: Exception := Exception(OtherException("IndexError"), ["tuple index out of range"])

  /** The status code a caught translation error maps to. */
  function ErrorCode(cls: ErrorClass): int {
    match cls
    case ValueError => 400
    case NotImplementedError => 501
    case _ => 500
  }

  /** `render_POST`'s except clauses as written: the code by class and the
      exception's first argument as message. An exception raised without
      arguments makes `e.args[0]` itself raise IndexError. */
  function ClassifyAsWritten(e: Exception): (r: Reply)
    ensures r.Uncaught? <==> e.cls.NonException? || |e.args| == 0
    ensures r.Uncaught? ==> r.error == (if e.cls.NonException? then e else IndexError)
    ensures r.Status? ==> r.code == ErrorCode(e.cls) && r.message == e.args[0]
  {
    if e.cls.NonException? then Uncaught(e)
    else if |e.args| == 0 then Uncaught(IndexError)
    else Status(ErrorCode(e.cls), e.args[0])
  }

  /** The message of a caught exception: its first argument, or the empty
      string (Python's `str(e)`) when it has none. */
  function ErrorMessage(e: Exception): string {
    if |e.args| == 0 then "" else e.args[0]
  }

  /** `render_POST`'s except clauses with the missing-argument case handled:
      every Exception subclass becomes a status; only non-Exception classes
      escape. */
  function Classify(e: Exception): (r: Reply)
    ensures r.Uncaught? <==> e.cls.NonException?
    ensures r.Uncaught? ==> r.error == e
    ensures r.Status? ==> r.code in {400, 500, 501} && r.message == ErrorMessage(e)
    ensures r.Status? ==> (r.code == 400 <==> e.cls == ValueError)
    ensures r.Status? ==> (r.code == 501 <==> e.cls == NotImplementedError)
  {
    if e.cls.NonException? then Uncaught(e) else Status(ErrorCode(e.cls), ErrorMessage(e))
  }

  /** Both classifiers agree on every exception that carries an argument. */
  lemma ClassifyAgreesWithArguments(e: Exception)
    requires |e.args| > 0
    ensures Classify(e) == ClassifyAsWritten(e)
  {
  }

  /** `raise ValueError()` in a translator: as written, the handler crashes
      with IndexError instead of answering 400. */
  lemma BareValueErrorCrashesHandler()
    ensures ClassifyAsWritten(Exception(ValueError, [])) == Uncaught(IndexError)
    ensures Classify(Exception(ValueError, [])) == Status(400, "")
  {
  }

  /** The changes the pipeline submits: those not flagged for discard, in
      their original order. */
  function Kept(changes: seq<Change>): (r: seq<Change>)
    ensures |r| <= |changes|
    ensures forall c :: c in r <==> c in changes && !Discarded(c)
    decreases |changes|
  {
    if |changes| == 0 then []
    else if Discarded(changes[0]) then Kept(changes[1..])
    else [changes[0]] + Kept(changes[1..])
  }

  lemma {:induction false} KeptAppend(a: seq<Change>, b: seq<Change>)
    ensures Kept(a + b) == Kept(a) + Kept(b)
    decreases |a|
  {
    if |a| == 0 {
      assert a + b == b;
    } else {
      assert (a + b)[0] == a[0];
      assert (a + b)[1..] == a[1..] + b;
      KeptAppend(a[1..], b);
    }
  }

  /** Filtering twice changes nothing. */
  lemma {:induction false} KeptIdempotent(changes: seq<Change>)
    ensures Kept(Kept(changes)) == Kept(changes)
    decreases |changes|
  {
    if |changes| > 0 {
      KeptIdempotent(changes[1..]);
      if !Discarded(changes[0]) {
        var k := Kept(changes);
        assert k[0] == changes[0] && k[1..] == Kept(changes[1..]);
      }
    }
  }

  /** The master's answer to one `addChange`: the change is queued, or the
      call fails with a message. */
  datatype Verdict = Accepted | Rejected(message: string)

  /** The change queue as an oracle: its verdict on a change, given the
      changes this request already queued. */
  type Queue = (seq<Change>, Change) -> Verdict

  /** The test double's queue: every `addChange` succeeds. */
  function AcceptAll(): (q: Queue)
    ensures forall history, c :: q(history, c) == Accepted
  {
    (history: seq<Change>, c: Change) => Accepted
  }

  /** What the pipeline did: the changes the queue received, in order, and
      the message of the failure that stopped it, if any. */
  datatype Submission = Submission(added: seq<Change>, failure: Option<string>)

  predicate IsPrefix(a: seq<Change>, b: seq<Change>) {
    |a| <= |b| && b[..|a|] == a
  }

  /** Every change in `added` was accepted by the queue, given `history`
      plus the changes queued before it. */
  ghost predicate AllAccepted(queue: Queue, history: seq<Change>, added: seq<Change>) {
    forall i :: 0 <= i < |added| ==> queue(history + added[..i], added[i]) == Accepted
  }

  /** A change the queue accepted, followed by changes it accepted after
      it, were all accepted. */
  lemma PrependAccepted(queue: Queue, history: seq<Change>, c: Change, added: seq<Change>)
    requires queue(history, c) == Accepted
    requires AllAccepted(queue, history + [c], added)
    ensures AllAccepted(queue, history, [c] + added)
  {
    var all := [c] + added;
    forall i | 0 <= i < |all|
      ensures queue(history + all[..i], all[i]) == Accepted
    {
      if i == 0 {
        assert history + all[..0] == history;
      } else {
        assert all[..i] == [c] + added[..i - 1];
        assert history + all[..i] == (history + [c]) + added[..i - 1];
        assert all[i] == added[i - 1];
      }
    }
  }

  /** `submit_changes`: walk the changes in order, skip the discarded ones,
      and hand each other one to the queue, stopping at the first failure.
      `history` holds what this request queued before. */
  function Submit(changes: seq<Change>, queue: Queue, history: seq<Change>): (r: Submission)
    ensures IsPrefix(r.added, Kept(changes))
    ensures AllAccepted(queue, history, r.added)
    ensures r.failure.None? ==> r.added == Kept(changes)
    ensures r.failure.Some? ==>
      |r.added| < |Kept(changes)|
      && queue(history + r.added, Kept(changes)[|r.added|]) == Rejected(r.failure.value)
    decreases |changes|
  {
    if |changes| == 0 then Submission([], None)
    else if Discarded(changes[0]) then Submit(changes[1..], queue, history)
    else
      match queue(history, changes[0])
      case Rejected(m) =>
        assert history + [] == history;
        assert Kept(changes)[0] == changes[0];
        Submission([], Some(m))
      case Accepted =>
        var rest := Submit(changes[1..], queue, history + [changes[0]]);
        var added := [changes[0]] + rest.added;
        PrependAccepted(queue, history, changes[0], rest.added);
        assert history + added == (history + [changes[0]]) + rest.added;
        assert Kept(changes) == [changes[0]] + Kept(changes[1..]);
        Submission(added, rest.failure)
  }

  /** When two accepted runs both follow `k`, the longer one had the queue
      accept the change right after the shorter one. */
  lemma AcceptedBeyond(queue: Queue, history: seq<Change>, k: seq<Change>, a: seq<Change>, b: seq<Change>)
    requires IsPrefix(a, k) && IsPrefix(b, k) && |a| < |b|
    requires AllAccepted(queue, history, b)
    ensures queue(history + a, k[|a|]) == Accepted
  {
    assert b[..|a|] == a;
    assert b[|a|] == k[|a|];
  }

  /** The pipeline is determined by the queue's verdicts: any submission that
      satisfies the pipeline's contract is the one `Submit` gives. */
  lemma {:induction false} SubmitUnique(changes: seq<Change>, queue: Queue, history: seq<Change>, s: Submission)
    requires IsPrefix(s.added, Kept(changes))
    requires AllAccepted(queue, history, s.added)
    requires s.failure.None? ==> s.added == Kept(changes)
    requires s.failure.Some? ==>
      |s.added| < |Kept(changes)|
      && queue(history + s.added, Kept(changes)[|s.added|]) == Rejected(s.failure.value)
    ensures s == Submit(changes, queue, history)
  {
    var r := Submit(changes, queue, history);
    var k := Kept(changes);
    if |r.added| < |s.added| {
      AcceptedBeyond(queue, history, k, r.added, s.added);
      assert false;
    }
    if |s.added| < |r.added| {
      AcceptedBeyond(queue, history, k, s.added, r.added);
      assert false;
    }
    assert r.added == Kept(changes)[..|r.added|] == s.added;
  }

  /** `prefix` queued first, then what `s` queued. */
  function After(prefix: seq<Change>, s: Submission): Submission {
    Submission(prefix + s.added, s.failure)
  }

  lemma AfterAfter(a: seq<Change>, b: seq<Change>, s: Submission)
    ensures After(a, After(b, s)) == After(a + b, s)
  {
    assert a + (b + s.added) == (a + b) + s.added;
  }

  /** One step of the pipeline on a non-empty list. */
  lemma SubmitStep(changes: seq<Change>, i: nat, queue: Queue, history: seq<Change>)
    requires i < |changes|
    ensures var c := changes[i];
      Submit(changes[i..], queue, history) ==
        if Discarded(c) then Submit(changes[i + 1..], queue, history)
        else match queue(history, c)
          case Rejected(m) => Submission([], Some(m))
          case Accepted => After([c], Submit(changes[i + 1..], queue, history + [c]))
  {
    assert changes[i..][0] == changes[i] && changes[i..][1..] == changes[i + 1..];
  }

  /** The sequential loop of `submit_changes`: one `addChange` at a time,
      waiting for each before the next. */
  method SubmitChanges(changes: seq<Change>, queue: Queue) returns (added: seq<Change>, failure: Option<string>)
    ensures IsPrefix(added, Kept(changes))
    ensures AllAccepted(queue, [], added)
    ensures failure.None? ==> added == Kept(changes)
    ensures failure.Some? ==>
      |added| < |Kept(changes)| && queue(added, Kept(changes)[|added|]) == Rejected(failure.value)
  {
    added := [];
    failure := None;
    var i := 0;
    assert changes[0..] == changes;
    while i < |changes| && failure.None?
      invariant 0 <= i <= |changes|
      invariant failure.None? ==> Submit(changes, queue, []) == After(added, Submit(changes[i..], queue, added))
      invariant failure.Some? ==> Submit(changes, queue, []) == Submission(added, failure)
    {
      var c := changes[i];
      SubmitStep(changes, i, queue, added);
      if !Discarded(c) {
        match queue(added, c)
        case Rejected(m) =>
          failure := Some(m);
        case Accepted =>
          AfterAfter(added, [c], Submit(changes[i + 1..], queue, added + [c]));
          added := added + [c];
      }
      i := i + 1;
    }
    if failure.None? {
      assert changes[i..] == [];
    }
    assert Submission(added, failure) == Submit(changes, queue, []);
    assert [] + added == added;
  }

  /** `_cb_render_POST`: a failure answers 400 with its message; success
      answers 200 with the size of the whole change list, discarded changes
      included. */
  function Respond(failure: Option<string>, count: nat): (r: Reply)
    ensures r.Status?
    ensures r.code == 200 <==> failure.None?
    ensures failure.Some? ==> r == Status(400, failure.value)
    ensures failure.None? ==> r.message == SuccessMessage(count)
  {
    match failure
    case Some(m) => Status(400, m)
    case None => Status(200, SuccessMessage(count))
  }

  const NoChangesMessage: string := "OK no changes"

  /** "OK %d changes": the count in decimal between "OK " and " changes",
      never to be mistaken for the reply to an empty list. */
  function SuccessMessage(count: nat): (r: string)
    ensures |r| > 11 && r[..3] == "OK " && r[|r| - 8..] == " changes"
    ensures r != NoChangesMessage
  {
    var d := Decimal(count);
    var r := "OK " + d + " changes";
    assert r[3] == d[0] && NoChangesMessage[3] == 'n';
    r
  }

  /** The count can be read back from a success message. */
  lemma SuccessMessageCount(count: nat)
    ensures var m := SuccessMessage(count);
      |m| > 11 && (forall i :: 3 <= i < |m| - 8 ==> '0' <= m[i] <= '9')
      && ParseDecimal(m[3..|m| - 8]) == count
  {
    var m := SuccessMessage(count);
    assert m[3..|m| - 8] == Decimal(count);
    DecimalRoundTrip(count);
  }

  /** What one request did: its reply and the changes the queue received. */
  datatype Outcome = Outcome(reply: Reply, added: seq<Change>)

  /** The reply to a translation that succeeded: "OK no changes" for an
      empty list; otherwise submit, then answer with the whole list's size
      or with the queue's failure. */
  function SubmitAndRespond(changes: seq<Change>, queue: Queue): (r: Outcome)
    ensures |changes| == 0 ==> r == Outcome(Status(200, NoChangesMessage), [])
    ensures r.reply.Status? && IsPrefix(r.added, Kept(changes)) && AllAccepted(queue, [], r.added)
    ensures r.reply.code == 200 <==> r.added == Kept(changes)
    ensures |changes| > 0 && r.reply.code == 200 ==> r.reply.message == SuccessMessage(|changes|)
    ensures r.reply.code != 200 ==>
      r.reply.code == 400 && |r.added| < |Kept(changes)|
      && queue(r.added, Kept(changes)[|r.added|]) == Rejected(r.reply.message)
  {
    if |changes| == 0 then Outcome(Status(200, NoChangesMessage), [])
    else
      var s := Submit(changes, queue, []);
      assert [] + s.added == s.added;
      Outcome(Respond(s.failure, |changes|), s.added)
  }

  /** `render_POST` for a routed dialect, as written: collect, classify a
      translation error with the handler's own except clauses (so an
      exception without arguments escapes as IndexError), short-cut the
      empty list, submit, respond. */
  function RenderPost(plugins: seq<Plugin>, dialect: string, options: Value, request: Request, queue: Queue)
    : (r: Outcome)
    ensures var t := GetChanges(plugins, request, dialect, options);
      t.Failed? ==> r == Outcome(ClassifyAsWritten(t.error), [])
    ensures GetChanges(plugins, request, dialect, options) == Collected([]) ==>
      r == Outcome(Status(200, NoChangesMessage), [])
    ensures var t := GetChanges(plugins, request, dialect, options);
      t.Collected? ==>
        r.reply.Status? && IsPrefix(r.added, Kept(t.changes)) && AllAccepted(queue, [], r.added)
    ensures var t := GetChanges(plugins, request, dialect, options);
      t.Collected? && |t.changes| > 0 && r.reply.code == 200 ==> r.reply.message == SuccessMessage(|t.changes|)
    ensures var t := GetChanges(plugins, request, dialect, options);
      t.Collected? && r.reply.code != 200 ==>
        r.reply.code == 400 && |r.added| < |Kept(t.changes)|
        && queue(r.added, Kept(t.changes)[|r.added|]) == Rejected(r.reply.message)
    ensures var t := GetChanges(plugins, request, dialect, options);
      r.reply.Status? && r.reply.code == 200 <==> t.Collected? && r.added == Kept(t.changes)
  {
    match GetChanges(plugins, request, dialect, options)
    case Failed(e) => Outcome(ClassifyAsWritten(e), [])
    case Collected(changes) => SubmitAndRespond(changes, queue)
  }

  /** `render_POST` as evidently intended: every Exception subclass raised
      by a translator is answered with its status code. */
  function CorrectedRenderPost(plugins: seq<Plugin>, dialect: string, options: Value, request: Request, queue: Queue)
    : (r: Outcome)
    ensures var t := GetChanges(plugins, request, dialect, options);
      t.Failed? ==> r == Outcome(Classify(t.error), [])
    ensures GetChanges(plugins, request, dialect, options).Collected? ==>
      r == RenderPost(plugins, dialect, options, request, queue)
    ensures r.reply.Uncaught? ==> GetChanges(plugins, request, dialect, options).error.cls.NonException?
  {
    match GetChanges(plugins, request, dialect, options)
    case Failed(e) => Outcome(Classify(e), [])
    case Collected(changes) => SubmitAndRespond(changes, queue)
  }

  /** The two renders differ exactly on a translation that fails with an
      Exception raised without arguments. */
  lemma RenderPostsDiffer(plugins: seq<Plugin>, dialect: string, options: Value, request: Request, queue: Queue)
    ensures var t := GetChanges(plugins, request, dialect, options);
      RenderPost(plugins, dialect, options, request, queue)
        != CorrectedRenderPost(plugins, dialect, options, request, queue)
      <==> t.Failed? && |t.error.args| == 0 && !t.error.cls.NonException?
  {
    var t := GetChanges(plugins, request, dialect, options);
    if t.Failed? && |t.error.args| == 0 && !t.error.cls.NonException? {
      assert ClassifyAsWritten(t.error).Uncaught? && Classify(t.error).Status?;
    }
  }
}
