/** The asynchronous gateway of src/api/main.py: ingestion stores a "Pending"
    ticket and queues the background worker; the worker consults the semantic
    shield, otherwise asks the local classifier with few-shot examples and
    teaches the vector store; polling reads a ticket back; feedback overrides a
    category in the database and in the vector store. The database, the vector
    store, the configured categories and whether a classifier is configured are
    one immutable `App` value. The classifier's HTTP reply, the distance
    metric and the points where an exception interrupts the worker are inputs. */
module TriageApi {
  import opened Wrappers
  import opened Text
  import opened Tickets
  import opened Provider
  import opened SemanticCache
  import opened OllamaAdapter

  datatype App = App(store: Store, cache: Collection, categories: seq<string>, hasClassifier: bool)

  /** The step of the worker at which the database or the vector store raises,
      if any: the ticket lookup, the shield query, the example query or the
      cache write. An exception escaping the classifier comes from its reply
      (`Reply.MalformedBody`). */
  datatype Stage = LoadTicket | ShieldQuery | ExampleQuery | CacheAdd

  /** How many few-shot examples the worker asks for. */
  const ExampleLimit: nat := 3

  /** The row with id `id` replaced by `t`. */
  function Put(store: Store, id: int, t: Ticket): (r: Store)
    requires HasId(store, id)
    ensures |r| == |store| && Find(r, id) == Some(t)
    ensures forall j :: j != id ==> Find(r, j) == Find(store, j)
  {
    store[id - 1 := t]
  }

  /** `id` holds a nearest entry, within the default threshold, with a
      non-empty category. */
  ghost predicate UsableHit(cache: Collection, dist: Distance, description: string, id: string) {
    && IsNearest(cache, dist, description, id)
    && dist(description, cache.records[id].document) < DefaultThreshold
    && cache.records[id].category != ""
  }

  /** The shield answers with a usable category: `if cached_category:` is a
      truthiness test, so an empty category counts as a miss. */
  function ShieldAnswers(cache: Collection, dist: Distance, description: string): (b: bool)
    requires Valid(cache)
    ensures b ==> exists id :: UsableHit(cache, dist, description, id)
    ensures (forall k :: k in cache.records ==> cache.records[k].category != "") ==>
      (b <==> exists id :: id in cache.records && dist(description, cache.records[id].document) < DefaultThreshold)
  {
    var hit := CheckCache(cache, dist, description, DefaultThreshold);
    if hit.Some? && hit.value != "" then
      assert exists id :: UsableHit(cache, dist, description, id) by {
        var near :| IsNearest(cache, dist, description, near) && cache.records[near].category == hit.value;
        var close :| close in cache.records && dist(description, cache.records[close].document) < DefaultThreshold;
        assert dist(description, cache.records[near].document) <= dist(description, cache.records[close].document);
        assert UsableHit(cache, dist, description, near);
      }
      true
    else
      false
  }

  /** The statuses the worker leaves a ticket in. */
  predicate WorkerStatus(s: Status) {
    s == ClassifiedByCache || s == ClassifiedByAI || s == FailedNoAI || s == FailedProcessing
  }

  /** The worker's state after one run, and the classifier call it made. */
  datatype Worked = Worked(app: App, call: Option<Call>)

  /** `process_ticket_background(id, description)`. */
  function ProcessTicketBackground(app: App, dist: Distance, reply: Reply, fault: Option<Stage>,
                                   id: int, description: string): (w: Worked)
    requires Valid(app.cache)
    ensures Valid(w.app.cache)
    ensures |w.app.store| == |app.store|
    ensures w.app.categories == app.categories && w.app.hasClassifier == app.hasClassifier
    ensures forall j :: j != id ==> Find(w.app.store, j) == Find(app.store, j)
    // the vector store only ever gains entries
    ensures forall k :: k in app.cache.records ==> k in w.app.cache.records && w.app.cache.records[k] == app.cache.records[k]
    ensures !HasId(app.store, id) || fault == Some(LoadTicket) ==> w == Worked(app, None)
    ensures HasId(app.store, id) && fault != Some(LoadTicket) ==>
      var before, after := app.store[id - 1], w.app.store[id - 1];
      && WorkerStatus(after.status)
      && after == before.(category := after.category, status := after.status)
    ensures HasId(app.store, id) && fault == Some(ShieldQuery) ==>
      w.app.store[id - 1].status == FailedProcessing && w.app.store[id - 1].category == app.store[id - 1].category
    // a shield hit costs no call and teaches nothing
    ensures HasId(app.store, id) && fault != Some(LoadTicket) && fault != Some(ShieldQuery)
            && ShieldAnswers(app.cache, dist, description) ==>
      && w.app.store[id - 1].status == ClassifiedByCache
      && w.app.store[id - 1].category == CheckCache(app.cache, dist, description, DefaultThreshold)
      && w.call == None && w.app.cache == app.cache
    ensures w.call.Some? <==>
      HasId(app.store, id) && app.hasClassifier && !ShieldAnswers(app.cache, dist, description)
      && fault != Some(LoadTicket) && fault != Some(ShieldQuery) && fault != Some(ExampleQuery)
    ensures HasId(app.store, id) && !app.hasClassifier && !ShieldAnswers(app.cache, dist, description)
            && fault != Some(LoadTicket) && fault != Some(ShieldQuery) ==>
      && w.app.store[id - 1].status == FailedNoAI
      && w.app.store[id - 1].category == app.store[id - 1].category
    ensures HasId(app.store, id) && app.hasClassifier && !ShieldAnswers(app.cache, dist, description)
            && fault == Some(ExampleQuery) ==>
      && w.app.store[id - 1].status == FailedProcessing
      && w.app.store[id - 1].category == app.store[id - 1].category
    // the call carries the description, the categories and the nearest examples
    ensures w.call.Some? ==>
      && w.call.value.description == description && w.call.value.categories == app.categories
      && w.call.value.examples == Some(SimilarExamples(app.cache, dist, description, ExampleLimit))
      && |w.call.value.examples.value| == Min(ExampleLimit, Count(app.cache))
      && (forall i :: 0 <= i < |w.call.value.examples.value| ==> PairsAnEntry(app.cache, w.call.value.examples.value[i]))
    ensures w.call.Some? && Classify(w.call.value, reply).Ok? ==>
      && w.app.store[id - 1].category == Some(Classify(w.call.value, reply).value)
      && w.app.store[id - 1].status == (if fault == Some(CacheAdd) then FailedProcessing else ClassifiedByAI)
    // an exception escaping the classifier leaves the category and teaches nothing
    ensures w.call.Some? && Classify(w.call.value, reply).Err? ==>
      && w.app.store[id - 1].status == FailedProcessing
      && w.app.store[id - 1].category == app.store[id - 1].category
      && w.app.cache == app.cache
    // the answer, even the sentinel, is taught under the ticket id
    ensures w.call.Some? && Classify(w.call.value, reply).Ok? && fault != Some(CacheAdd)
            && DecimalString(id) !in app.cache.records ==>
      && w.app.cache.records.Keys == app.cache.records.Keys + {DecimalString(id)}
      && w.app.cache.records[DecimalString(id)] == Record(description, Classify(w.call.value, reply).value)
    ensures w.app.cache != app.cache ==>
      w.call.Some? && fault != Some(CacheAdd) && Classify(w.call.value, reply).Ok?
  {
    if fault == Some(LoadTicket) || !HasId(app.store, id) then Worked(app, None)
    else
      var t := app.store[id - 1];
      if fault == Some(ShieldQuery) then
        Worked(app.(store := Put(app.store, id, t.(status := FailedProcessing))), None)
      else if ShieldAnswers(app.cache, dist, description) then
        var hit := CheckCache(app.cache, dist, description, DefaultThreshold);
        Worked(app.(store := Put(app.store, id, t.(category := hit, status := ClassifiedByCache))), None)
      else if !app.hasClassifier then
        Worked(app.(store := Put(app.store, id, t.(status := FailedNoAI))), None)
      else if fault == Some(ExampleQuery) then
        Worked(app.(store := Put(app.store, id, t.(status := FailedProcessing))), None)
      else
        var examples := SimilarExamples(app.cache, dist, description, ExampleLimit);
        var call := Call(description, app.categories, Some(examples));
        match Classify(call, reply)
        case Err(_) =>
          Worked(app.(store := Put(app.store, id, t.(status := FailedProcessing))), Some(call))
        case Ok(category) =>
          var classified := t.(category := Some(category), status := ClassifiedByAI);
          if fault == Some(CacheAdd) then
            Worked(app.(store := Put(app.store, id, classified.(status := FailedProcessing))), Some(call))
          else
            var cache := AddToCache(app.cache, DecimalString(id), description, category);
            Worked(app.(store := Put(app.store, id, classified), cache := cache), Some(call))
  }

  /** What `POST /classify` answers with HTTP 202. */
  datatype Accepted = Accepted(message: string, ticketId: int, status: string)

  /** The minimum description length of the request schema (src/api/schemas.py). */
  const MinDescriptionLength: nat := 5

  /** Pydantic's answer to a request failing validation. */
  const UnprocessableEntity: int := 422
  const NotFound: int := 404
  const BadRequest: int := 400

  /** An accepted request: the new state, the response body and the job queued
      for the worker, which receives the id and the request's description. */
  datatype Ingested = Ingested(app: App, response: Accepted, job: (int, string))

  /** `POST /classify`: a description shorter than five characters is refused;
      otherwise the ticket is stored "Pending" for "api_user" with urgency
      "Medium" under the next id, and the worker is queued. */
  function IngestTicket(app: App, description: string): (r: Result<Ingested, int>)
    ensures r.Err? <==> |description| < MinDescriptionLength
    ensures r.Err? ==> r.error == UnprocessableEntity
    ensures r.Ok? ==>
      var id := r.value.response.ticketId;
      && id == |app.store| + 1
      && r.value.app == app.(store := r.value.app.store)
      && Find(r.value.app.store, id) == Some(Ticket("api_user", description, DefaultUrgency, None, None, Pending))
      && (forall j :: HasId(app.store, j) ==> Find(r.value.app.store, j) == Find(app.store, j))
      && r.value.response.status == Pending.Name()
      && r.value.job == (id, description)
  {
    if |description| < MinDescriptionLength then Err(UnprocessableEntity)
    else
      var (store, id) := Insert(app.store, NewTicket("api_user", description, DefaultUrgency, Pending));
      Ok(Ingested(app.(store := store), Accepted("Ticket received and queued for processing.", id, Pending.Name()), (id, description)))
  }

  /** The body of `GET /tickets/{id}`; a NULL category is `None`. */
  datatype TicketView = TicketView(ticketId: int, description: string, category: Option<string>, status: string)

  /** `GET /tickets/{id}`: the row's description, category and status string,
      or 404. Nothing changes. */
  function GetTicketStatus(app: App, id: int): (r: Result<TicketView, int>)
    ensures r.Err? <==> !HasId(app.store, id)
    ensures r.Err? ==> r.error == NotFound
    ensures r.Ok? ==>
      && r.value.ticketId == id
      && r.value.description == app.store[id - 1].description
      && r.value.category == app.store[id - 1].category
      && r.value.status == app.store[id - 1].status.Name()
  {
    match Find(app.store, id)
    case None => Err(NotFound)
    case Some(t) => Ok(TicketView(id, t.description, t.category, t.status.Name()))
  }

  /** `POST /tickets/{id}/feedback`: 404 for an unknown id before 400 for a
      category outside the configuration; neither changes anything. Otherwise
      the row is "Human_Corrected" with the new category and the vector store
      entry, if any, takes the category too; `fails` is an error of the vector
      store, which is logged and swallowed. */
  function SubmitFeedback(app: App, id: int, category: string, fails: bool): (r: Result<(App, string), int>)
    requires Valid(app.cache)
    ensures r.Err? <==> !HasId(app.store, id) || category !in app.categories
    ensures r.Err? ==> r.error == (if !HasId(app.store, id) then NotFound else BadRequest)
    ensures r.Ok? ==>
      var next := r.value.0;
      && Valid(next.cache)
      && |next.store| == |app.store| && next.categories == app.categories && next.hasClassifier == app.hasClassifier
      && next.store[id - 1] == app.store[id - 1].(category := Some(category), status := HumanCorrected)
      && (forall j :: j != id ==> Find(next.store, j) == Find(app.store, j))
      && next.cache.records.Keys == app.cache.records.Keys
      && next.cache.order == app.cache.order
      && (forall k :: k in app.cache.records && k != DecimalString(id) ==> next.cache.records[k] == app.cache.records[k])
      && (DecimalString(id) !in app.cache.records ==> next.cache == app.cache)
      && (!fails && DecimalString(id) in app.cache.records ==>
            next.cache.records[DecimalString(id)] == app.cache.records[DecimalString(id)].(category := category))
      && (fails ==> next.cache == app.cache)
      && r.value.1 == "Ticket " + DecimalString(id) + " updated to '" + category + "'."
  {
    if !HasId(app.store, id) then Err(NotFound)
    else if category !in app.categories then Err(BadRequest)
    else
      var t := app.store[id - 1].(category := Some(category), status := HumanCorrected);
      var cache := UpdateCategory(app.cache, DecimalString(id), category, fails);
      Ok((app.(store := Put(app.store, id, t), cache := cache),
          "Ticket " + DecimalString(id) + " updated to '" + category + "'."))
  }

  // ---- properties across requests ----

  /** A ticket just ingested polls back "Pending" with its description and no
      category. */
  lemma IngestThenPoll(app: App, description: string)
    requires |description| >= MinDescriptionLength
    ensures var r := IngestTicket(app, description);
      && r.Ok?
      && GetTicketStatus(r.value.app, r.value.job.0) == Ok(TicketView(r.value.job.0, description, None, "Pending"))
  {
  }

  /** The queued job always finds its ticket: the worker that runs it without
      an exception moves the ticket out of "Pending" and touches no other row. */
  lemma IngestThenWork(app: App, description: string, dist: Distance, reply: Reply)
    requires Valid(app.cache) && |description| >= MinDescriptionLength
    ensures var r := IngestTicket(app, description);
      && r.Ok?
      && var w := ProcessTicketBackground(r.value.app, dist, reply, None, r.value.job.0, r.value.job.1);
      && WorkerStatus(w.app.store[r.value.job.0 - 1].status)
      && w.app.store[r.value.job.0 - 1].description == description
      && w.app.store[..|app.store|] == app.store
  {
    var r := IngestTicket(app, description);
    var id := r.value.job.0;
    var w := ProcessTicketBackground(r.value.app, dist, reply, None, id, description);
    forall j | 0 <= j < |app.store|
      ensures w.app.store[j] == app.store[j]
    {
      assert Find(w.app.store, j + 1) == Find(r.value.app.store, j + 1) == Find(app.store, j + 1);
    }
  }

  /** An entry holding the description itself is within the threshold. */
  lemma TaughtEntryShields(cache: Collection, dist: Distance, description: string, key: string)
    requires Valid(cache) && key in cache.records && cache.records[key].document == description
    requires dist(description, description) == 0.0
    ensures CheckCache(cache, dist, description, DefaultThreshold).Some?
    ensures (forall k :: k in cache.records ==> cache.records[k].category != "") ==>
      ShieldAnswers(cache, dist, description)
  {
    assert dist(description, cache.records[key].document) < DefaultThreshold;
  }

  /** Adding one entry with a non-empty category to a store whose categories
      are all non-empty keeps them all non-empty. */
  lemma GrownCategoriesNonEmpty(before: Collection, after: Collection, key: string)
    requires after.records.Keys == before.records.Keys + {key}
    requires forall k :: k in before.records ==> after.records[k] == before.records[k]
    ensures after.records[key].category != "" && (forall k :: k in before.records ==> before.records[k].category != "") ==>
      forall k :: k in after.records ==> after.records[k].category != ""
  {
    if after.records[key].category != "" && (forall k :: k in before.records ==> before.records[k].category != "") {
      forall k | k in after.records
        ensures after.records[k].category != ""
      {
        if k != key {
          assert k in before.records;
        }
      }
    }
  }

  /** Once the worker has classified a ticket under a fresh id, an identical
      description (distance zero) is within the shield's threshold; when the
      answer and every stored category are non-empty, the shield answers it. */
  lemma ClassifiedTicketShieldsRepeat(app: App, dist: Distance, reply: Reply, id: int, description: string)
    requires Valid(app.cache) && HasId(app.store, id) && app.hasClassifier
    requires !ShieldAnswers(app.cache, dist, description) && !reply.MalformedBody?
    requires DecimalString(id) !in app.cache.records
    requires dist(description, description) == 0.0
    ensures var w := ProcessTicketBackground(app, dist, reply, None, id, description);
      && w.call.Some?
      && CheckCache(w.app.cache, dist, description, DefaultThreshold).Some?
      && (Classify(w.call.value, reply).value != "" && (forall k :: k in app.cache.records ==> app.cache.records[k].category != "") ==>
            ShieldAnswers(w.app.cache, dist, description))
  {
    var w := ProcessTicketBackground(app, dist, reply, None, id, description);
    var key := DecimalString(id);
    assert w.call.Some?;
    assert Classify(w.call.value, reply).Ok?;
    var answer := Classify(w.call.value, reply).value;
    assert w.app.cache.records.Keys == app.cache.records.Keys + {key};
    assert w.app.cache.records[key] == Record(description, answer);
    TaughtEntryShields(w.app.cache, dist, description, key);
    GrownCategoriesNonEmpty(app.cache, w.app.cache, key);
  }

  /** A failed classification is taught too: the vector store learns the
      sentinel "Unclassified" for the ticket's description. */
  lemma SentinelIsTaught(app: App, dist: Distance, id: int, description: string)
    requires Valid(app.cache) && HasId(app.store, id) && app.hasClassifier
    requires !ShieldAnswers(app.cache, dist, description)
    requires DecimalString(id) !in app.cache.records
    ensures var w := ProcessTicketBackground(app, dist, RequestError, None, id, description);
      && w.app.store[id - 1].status == ClassifiedByAI
      && w.app.store[id - 1].category == Some(Sentinel)
      && w.app.cache.records[DecimalString(id)] == Record(description, Sentinel)
  {
  }

  /** Repeating the same correction changes nothing more. */
  lemma FeedbackIdempotent(app: App, id: int, category: string, fails: bool)
    requires Valid(app.cache)
    requires SubmitFeedback(app, id, category, fails).Ok?
    ensures var once := SubmitFeedback(app, id, category, fails).value;
      SubmitFeedback(once.0, id, category, fails) == Ok(once)
  {
    var once := SubmitFeedback(app, id, category, fails).value.0;
    var key := DecimalString(id);
    assert once.store[id - 1 := once.store[id - 1]] == once.store;
    if !fails && key in once.cache.records {
      var e := once.cache.records[key];
      assert e == Record(e.document, category);
      assert once.cache.records[key := e] == once.cache.records;
    }
  }
}
