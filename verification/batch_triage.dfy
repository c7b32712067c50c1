/** The batch loop of src/main.py: every ticket in status "New" is fingerprinted,
    looked up by fingerprint among tickets already "Classified" with a real
    category, and otherwise sent once to the classifier. The session
    autoflushes, so the store is updated in place and a duplicate later in the
    same batch can hit a ticket classified earlier in it. The classifier's
    answers and the points where an exception interrupts a ticket are inputs. */
module BatchTriage {
  import opened Wrappers
  import opened Tickets
  import opened Fingerprint
  import opened Provider

  /** Where, if anywhere, an exception interrupts the processing of a ticket:
      while computing the fingerprint, or after it was stored on the ticket
      (the lookup query). The classifier itself never raises. */
  datatype Fault = NoFault | FailBeforeHash | FailAfterHash

  ghost predicate Increasing(p: seq<nat>) {
    forall i, j :: 0 <= i < j < |p| ==> p[i] < p[j]
  }

  /** `session.query(Ticket).filter(Ticket.status == "New").all()`, in id order. */
  function NewTickets(store: Store, from: nat): (p: seq<nat>)
    requires from <= |store|
    ensures Increasing(p)
    ensures forall k :: k in p <==> from <= k < |store| && store[k].status == New
    decreases |store| - from
  {
    if from == |store| then []
    else
      var rest := NewTickets(store, from + 1);
      if store[from].status == New then
        assert forall i :: 0 <= i < |rest| ==> rest[i] in rest;
        [from] + rest
      else rest
  }

  /** A ticket the exact-hash lookup may reuse. */
  predicate IsCacheSource(t: Ticket, hash: string) {
    && t.contentHash == Some(hash)
    && t.status == Classified
    && t.category.Some? && t.category.value != Sentinel
  }

  /** `.filter(content_hash == hash, status == "Classified",
      category != "Unclassified").first()`, taken as the lowest id. */
  function FindByHash(store: Store, hash: string, from: nat): (r: Option<nat>)
    requires from <= |store|
    ensures r.Some? ==> from <= r.value < |store| && IsCacheSource(store[r.value], hash)
    ensures r.Some? ==> forall j :: from <= j < r.value ==> !IsCacheSource(store[j], hash)
    ensures r.None? ==> forall j :: from <= j < |store| ==> !IsCacheSource(store[j], hash)
    decreases |store| - from
  {
    if from == |store| then None
    else if IsCacheSource(store[from], hash) then Some(from)
    else FindByHash(store, hash, from + 1)
  }

  /** The session state threaded through the loop. */
  datatype BatchState = BatchState(store: Store, processed: nat, cacheHits: nat, calls: seq<Call>)

  /** How one ticket ends, given its fault: untouched; only fingerprinted; or
      fingerprinted, categorised and "Classified". */
  ghost predicate Settled(before: Ticket, after: Ticket, f: Fault, hash: string) {
    match f
    case FailBeforeHash => after == before
    case FailAfterHash => after == before.(contentHash := Some(hash))
    case NoFault =>
      && after.category.Some?
      && after == before.(contentHash := Some(hash), category := after.category, status := Classified)
  }

  /** The lookup and, on a miss, the classifier call, for the ticket at `k`
      whose fingerprint `hash` is already stored; the ticket ends "Classified". */
  function Resolve(categories: seq<string>, answer: nat -> string, st: BatchState, k: nat, hash: string): (out: BatchState)
    requires k < |st.store| && !IsCacheSource(st.store[k], hash)
    ensures |out.store| == |st.store|
    ensures forall j :: 0 <= j < |st.store| && j != k ==> out.store[j] == st.store[j]
    ensures out.store[k].category.Some?
    ensures out.store[k] == st.store[k].(category := out.store[k].category, status := Classified)
    ensures out.processed == st.processed + 1
    ensures out.cacheHits == st.cacheHits || out.cacheHits == st.cacheHits + 1
    ensures out.cacheHits == st.cacheHits + 1 <==>
      exists j :: 0 <= j < |st.store| && IsCacheSource(st.store[j], hash)
    ensures out.cacheHits == st.cacheHits + 1 ==>
      && out.calls == st.calls
      && exists j :: 0 <= j < |st.store| && IsCacheSource(st.store[j], hash)
           && out.store[k].category == st.store[j].category
    ensures out.cacheHits == st.cacheHits ==>
      && out.calls == st.calls + [Call(st.store[k].description, categories, None)]
      && out.store[k].category == Some(answer(|st.calls|))
  {
    var t := st.store[k];
    match FindByHash(st.store, hash, 0)
    case Some(j) =>
      BatchState(st.store[k := t.(category := st.store[j].category, status := Classified)],
                 st.processed + 1, st.cacheHits + 1, st.calls)
    case None =>
      BatchState(st.store[k := t.(category := Some(answer(|st.calls|)), status := Classified)],
                 st.processed + 1, st.cacheHits, st.calls + [Call(t.description, categories, None)])
  }

  /** One pass of the loop body for the ticket at index `k`; `fp` is the
      fingerprint function. */
  function Step(fp: string -> string, categories: seq<string>, answer: nat -> string,
                fault: nat -> Fault, st: BatchState, k: nat): (out: BatchState)
    requires k < |st.store| && st.store[k].status == New
    ensures |out.store| == |st.store|
    ensures forall j :: 0 <= j < |st.store| && j != k ==> out.store[j] == st.store[j]
    ensures Settled(st.store[k], out.store[k], fault(k), fp(st.store[k].description))
    ensures out.processed == st.processed + (if fault(k) == NoFault then 1 else 0)
    ensures out.cacheHits == st.cacheHits || out.cacheHits == st.cacheHits + 1
    ensures out.cacheHits == st.cacheHits + 1 <==>
      fault(k) == NoFault
      && exists j :: 0 <= j < |st.store| && IsCacheSource(st.store[j], fp(st.store[k].description))
    ensures out.cacheHits == st.cacheHits + 1 ==>
      exists j :: 0 <= j < |st.store| && IsCacheSource(st.store[j], fp(st.store[k].description))
        && out.store[k].category == st.store[j].category
    ensures fault(k) == NoFault && out.cacheHits == st.cacheHits ==>
      && out.calls == st.calls + [Call(st.store[k].description, categories, None)]
      && out.store[k].category == Some(answer(|st.calls|))
    ensures !(fault(k) == NoFault && out.cacheHits == st.cacheHits) ==> out.calls == st.calls
    ensures Tally(st, out, if fault(k) == NoFault then 1 else 0, categories)
  {
    var t := st.store[k];
    var hash := fp(t.description);
    if fault(k) == FailBeforeHash then st
    else
      var st1 := st.(store := st.store[k := t.(contentHash := Some(hash))]);
      if fault(k) == FailAfterHash then st1
      else
        assert forall j :: 0 <= j < |st.store| ==>
          (IsCacheSource(st1.store[j], hash) <==> IsCacheSource(st.store[j], hash));
        Resolve(categories, answer, st1, k, hash)
  }

  /** The number of tickets of `p` that complete without an exception. */
  function Completed(p: seq<nat>, fault: nat -> Fault): (n: nat)
    ensures n <= |p|
  {
    if |p| == 0 then 0 else (if fault(p[0]) == NoFault then 1 else 0) + Completed(p[1..], fault)
  }

  /** Every call goes to the classifier with the ticket text, the configured
      categories and no examples. */
  ghost predicate PlainCalls(calls: seq<Call>, categories: seq<string>) {
    forall i :: 0 <= i < |calls| ==> calls[i].categories == categories && calls[i].examples == None
  }

  /** `out` extends the calls of `st` with one plain call for each of the
      `done` completed tickets that missed the cache. */
  ghost predicate Tally(st: BatchState, out: BatchState, done: nat, categories: seq<string>) {
    && out.processed == st.processed + done
    && st.cacheHits <= out.cacheHits <= st.cacheHits + done
    && |out.calls| == |st.calls| + done - (out.cacheHits - st.cacheHits)
    && out.calls[..|st.calls|] == st.calls
    && (PlainCalls(st.calls, categories) ==> PlainCalls(out.calls, categories))
  }

  /** The pending tickets `p` are distinct tickets, all still "New". */
  ghost predicate Pending(store: Store, p: seq<nat>) {
    && Increasing(p)
    && forall k :: k in p ==> k < |store| && store[k].status == New
  }

  lemma PendingTail(st: BatchState, st1: BatchState, p: seq<nat>)
    requires Pending(st.store, p) && |p| > 0 && |st1.store| == |st.store|
    requires forall j :: 0 <= j < |st.store| && j != p[0] ==> st1.store[j] == st.store[j]
    ensures Pending(st1.store, p[1..])
    ensures forall k :: k in p[1..] ==> k in p && k != p[0]
  {
    forall k | k in p[1..]
      ensures k in p && k != p[0]
    {
      var i :| 0 <= i < |p[1..]| && p[1..][i] == k;
      assert p[i + 1] == k;
    }
  }

  /** The loop over the pending tickets `p`, in order. */
  function Run(fp: string -> string, categories: seq<string>, answer: nat -> string,
               fault: nat -> Fault, st: BatchState, p: seq<nat>): (out: BatchState)
    requires Pending(st.store, p)
    ensures |out.store| == |st.store|
    ensures Tally(st, out, Completed(p, fault), categories)
    decreases |p|
  {
    if |p| == 0 then st
    else
      assert p[0] in p;
      var st1 := Step(fp, categories, answer, fault, st, p[0]);
      PendingTail(st, st1, p);
      var out := Run(fp, categories, answer, fault, st1, p[1..]);
      TallyChain(st, st1, out, if fault(p[0]) == NoFault then 1 else 0, Completed(p[1..], fault), categories);
      out
  }

  /** Only the pending tickets change, and each of them is settled. */
  lemma {:induction false} RunSettles(fp: string -> string, categories: seq<string>, answer: nat -> string,
                                      fault: nat -> Fault, st: BatchState, p: seq<nat>)
    requires Pending(st.store, p)
    ensures forall j :: 0 <= j < |st.store| && j !in p ==>
      Run(fp, categories, answer, fault, st, p).store[j] == st.store[j]
    ensures forall k :: k in p ==>
      Settled(st.store[k], Run(fp, categories, answer, fault, st, p).store[k], fault(k), fp(st.store[k].description))
    decreases |p|
  {
    if |p| > 0 {
      assert p[0] in p;
      var st1 := Step(fp, categories, answer, fault, st, p[0]);
      PendingTail(st, st1, p);
      var q := p[1..];
      RunSettles(fp, categories, answer, fault, st1, q);
      var out := Run(fp, categories, answer, fault, st1, q);
      assert Run(fp, categories, answer, fault, st, p) == out;
      assert p[0] !in q;
      forall k | k in p
        ensures Settled(st.store[k], out.store[k], fault(k), fp(st.store[k].description))
      {
        if k != p[0] {
          assert k in q;
        }
      }
    }
  }

  lemma TallyChain(a: BatchState, b: BatchState, c: BatchState, m: nat, n: nat, categories: seq<string>)
    requires Tally(a, b, m, categories) && Tally(b, c, n, categories)
    ensures Tally(a, c, m + n, categories)
  {
    assert c.calls[..|a.calls|] == c.calls[..|b.calls|][..|a.calls|];
  }

  /** What one run of the batch leaves behind. `session` is the state the
      session saw; `persisted` is what the database holds afterwards, which is
      the session only if it was committed. */
  datatype Report = Report(
    session: Store, persisted: Store,
    processed: nat, cacheHits: nat, calls: seq<Call>, committed: bool)
  {
    /** The "AI Calls Made" figure of the report. */
    function ReportedAiCalls(): int {
      processed - cacheHits
    }
  }

  /** `calculate_content_hash` as the function the loop applies. */
  function HashOf(sha: seq<byte> -> Digest): (fp: string -> string)
    ensures forall text :: fp(text) == ContentHash(sha, text)
  {
    text => ContentHash(sha, text)
  }

  /** `main()` from the point the session is opened. */
  function TriageBatch(sha: seq<byte> -> Digest, categories: seq<string>, answer: nat -> string,
                       fault: nat -> Fault, store: Store): (r: Report)
    ensures |NewTickets(store, 0)| == 0 ==> r.calls == [] && !r.committed && r.persisted == store
    ensures |r.session| == |store|
    ensures forall j :: 0 <= j < |store| && store[j].status != New ==> r.session[j] == store[j]
    ensures forall k :: 0 <= k < |store| && store[k].status == New ==>
      Settled(store[k], r.session[k], fault(k), ContentHash(sha, store[k].description))
    ensures r.processed == Completed(NewTickets(store, 0), fault)
    ensures r.cacheHits <= r.processed
    ensures |r.calls| == r.ReportedAiCalls()
    ensures PlainCalls(r.calls, categories)
    ensures r.committed <==> r.processed > 0
    ensures r.persisted == (if r.committed then r.session else store)
  {
    var pending := NewTickets(store, 0);
    if |pending| == 0 then Report(store, store, 0, 0, [], false)
    else
      var fp := HashOf(sha);
      var st := BatchState(store, 0, 0, []);
      var out := Run(fp, categories, answer, fault, st, pending);
      RunSettles(fp, categories, answer, fault, st, pending);
      var committed := out.processed > 0;
      Report(out.store, if committed then out.store else store, out.processed, out.cacheHits, out.calls, committed)
  }

  /** The loop over two "New" tickets with the same fingerprint and no
      exceptions: one classifier call, whose answer both tickets receive. */
  lemma DuplicateRun(fp: string -> string, categories: seq<string>, answer: nat -> string, t1: Ticket, t2: Ticket)
    requires t1.status == New && t2.status == New
    requires fp(t1.description) == fp(t2.description)
    requires answer(0) != Sentinel
    ensures var out := Run(fp, categories, answer, _ => NoFault, BatchState([t1, t2], 0, 0, []), [0, 1]);
      && out.calls == [Call(t1.description, categories, None)]
      && out.processed == 2 && out.cacheHits == 1
      && out.store[0].category == Some(answer(0)) && out.store[1].category == Some(answer(0))
  {
    var fault: nat -> Fault := _ => NoFault;
    var st0 := BatchState([t1, t2], 0, 0, []);
    var st1 := Step(fp, categories, answer, fault, st0, 0);
    assert !IsCacheSource(st0.store[1], fp(t1.description));
    assert st1.cacheHits == 0;
    assert IsCacheSource(st1.store[0], fp(t2.description));
    var st2 := Step(fp, categories, answer, fault, st1, 1);
    assert st2.cacheHits == 1;
    assert Run(fp, categories, answer, fault, st0, [0, 1]) == st2 by {
      assert [0, 1][1..] == [1];
      assert [1][1..] == [];
    }
  }

  lemma NewTicketsOfTwo(t1: Ticket, t2: Ticket)
    requires t1.status == New && t2.status == New
    ensures NewTickets([t1, t2], 0) == [0, 1]
  {
    var store := [t1, t2];
    assert NewTickets(store, 2) == [];
    assert NewTickets(store, 1) == [1] + [];
    assert NewTickets(store, 0) == [0] + [1];
  }

  /** Two "New" tickets whose descriptions normalise alike: the first goes to
      the classifier, the second reuses its category without a call. */
  lemma DuplicateInBatchHitsCache(sha: seq<byte> -> Digest, categories: seq<string>, answer: nat -> string,
                                  t1: Ticket, t2: Ticket)
    requires t1.status == New && t2.status == New
    requires Normalize(t1.description) == Normalize(t2.description)
    requires answer(0) != Sentinel
    ensures var r := TriageBatch(sha, categories, answer, _ => NoFault, [t1, t2]);
      && r.calls == [Call(t1.description, categories, None)]
      && r.processed == 2 && r.cacheHits == 1
      && r.persisted[0].category == Some(answer(0)) && r.persisted[1].category == Some(answer(0))
  {
    var fp := HashOf(sha);
    NewTicketsOfTwo(t1, t2);
    ContentHashOfNormalForm(sha, t1.description);
    ContentHashOfNormalForm(sha, t2.description);
    assert fp(t1.description) == fp(t2.description);
    DuplicateRun(fp, categories, answer, t1, t2);
  }

  /** The same two tickets when the first answer is the sentinel: the sentinel
      is never reused, so the second ticket costs a call of its own. */
  lemma SentinelRun(fp: string -> string, categories: seq<string>, answer: nat -> string, t1: Ticket, t2: Ticket)
    requires t1.status == New && t2.status == New
    requires answer(0) == Sentinel
    ensures var out := Run(fp, categories, answer, _ => NoFault, BatchState([t1, t2], 0, 0, []), [0, 1]);
      && out.calls == [Call(t1.description, categories, None), Call(t2.description, categories, None)]
      && out.processed == 2 && out.cacheHits == 0
      && out.store[0].category == Some(Sentinel) && out.store[1].category == Some(answer(1))
  {
    var fault: nat -> Fault := _ => NoFault;
    var st0 := BatchState([t1, t2], 0, 0, []);
    var st1 := Step(fp, categories, answer, fault, st0, 0);
    assert !IsCacheSource(st0.store[1], fp(t1.description));
    assert st1.cacheHits == 0;
    assert forall j :: 0 <= j < 2 ==> !IsCacheSource(st1.store[j], fp(t2.description));
    var st2 := Step(fp, categories, answer, fault, st1, 1);
    assert st2.cacheHits == 0;
    assert Run(fp, categories, answer, fault, st0, [0, 1]) == st2 by {
      assert [0, 1][1..] == [1];
      assert [1][1..] == [];
    }
  }

  /** Through the whole batch: an "Unclassified" answer is retried for the
      duplicate, and the report counts two AI calls. */
  lemma SentinelIsRetried(sha: seq<byte> -> Digest, categories: seq<string>, answer: nat -> string,
                          t1: Ticket, t2: Ticket)
    requires t1.status == New && t2.status == New
    requires answer(0) == Sentinel
    ensures var r := TriageBatch(sha, categories, answer, _ => NoFault, [t1, t2]);
      && |r.calls| == 2 && r.ReportedAiCalls() == 2 && r.cacheHits == 0
      && r.persisted[1].category == Some(answer(1))
  {
    NewTicketsOfTwo(t1, t2);
    SentinelRun(HashOf(sha), categories, answer, t1, t2);
  }
}
