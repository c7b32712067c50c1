/** The seeding script generate_synthetic_data.py: one batch of ticket records
    is requested from a generative model with a bounded, exponentially backed
    off retry on rate limits, and every record carrying a description and an
    urgency is stored as a "New" ticket. What each attempt of the model call
    returns, the random jitter of each back-off and the random fallback user
    numbers are inputs; sleeping is recorded as the list of delays. */
module SyntheticData {
  import opened Wrappers
  import opened Text
  import opened Tickets
  import BatchTriage

  /** A generated record: a JSON object with string values. */
  type Item = map<string, string>

  /** The outcome of one attempt: a JSON array, JSON that is not an array,
      text that is not JSON, or an exception with its message. */
  datatype Attempt = ListJson(items: seq<Item>) | NonListJson | BadJson | Raised(message: string)

  const MaxRetries: nat := 5
  const BaseDelay: real := 4.0

  /** The error text marks a rate limit. */
  predicate IsRateLimit(message: string) {
    Contains(message, "429") || Contains(message, "RESOURCE_EXHAUSTED")
  }

  function Pow2(n: nat): (p: nat)
    ensures p >= 1
  {
    if n == 0 then 1 else 2 * Pow2(n - 1)
  }

  /** The back-off before the attempt after attempt `a`. */
  function Delay(a: nat, jitter: real): real {
    BaseDelay * (Pow2(a) as real) + jitter
  }

  /** What `generate_batch` returns, how many model calls it made and the
      delays it slept, in order. */
  datatype Generated = Generated(items: seq<Item>, calls: nat, sleeps: seq<real>)

  /** An exception whose text marks a rate limit: the one outcome that backs off. */
  predicate RateLimited(o: Attempt) {
    o.Raised? && IsRateLimit(o.message)
  }

  /** An outcome after which the loop tries again: JSON that is not an array,
      text that is not JSON, or a rate limit. */
  predicate Retried(o: Attempt) {
    o.NonListJson? || o.BadJson? || RateLimited(o)
  }

  /** Attempt `i` is the loop's last call: its outcome is not retried, or no
      attempt is left after it. */
  predicate EndsLoop(outcomes: seq<Attempt>, i: nat)
    requires |outcomes| == MaxRetries && i < MaxRetries
  {
    !Retried(outcomes[i]) || i == MaxRetries - 1
  }

  /** The back-offs of the rate-limited attempts in `[lo, hi)`, in order:
      attempt `i` sleeps `Delay(i, jitter[i])` and no other outcome sleeps. */
  function Backoffs(outcomes: seq<Attempt>, jitter: seq<real>, lo: nat, hi: nat): seq<real>
    requires |outcomes| == MaxRetries && |jitter| == MaxRetries && hi <= MaxRetries
    decreases hi - lo
  {
    if lo >= hi then []
    else (if RateLimited(outcomes[lo]) then [Delay(lo, jitter[lo])] else []) + Backoffs(outcomes, jitter, lo + 1, hi)
  }

  /** The retry loop from attempt `a` on, as a recursive definition: it never
      passes the last attempt, calls at least once while attempts remain, and
      returns items only from the array its last call received. */
  function GenerateFrom(outcomes: seq<Attempt>, jitter: seq<real>, a: nat): (g: Generated)
    requires |outcomes| == MaxRetries && |jitter| == MaxRetries && a <= MaxRetries
    ensures a + g.calls <= MaxRetries
    ensures g.calls == 0 <==> a == MaxRetries
    ensures g.items != [] ==> outcomes[a + g.calls - 1] == ListJson(g.items)
    decreases MaxRetries - a
  {
    if a == MaxRetries then Generated([], 0, [])
    else
      match outcomes[a]
      case ListJson(items) => Generated(items, 1, [])
      case Raised(message) =>
        if !IsRateLimit(message) || a == MaxRetries - 1 then Generated([], 1, [])
        else
          var g := GenerateFrom(outcomes, jitter, a + 1);
          Generated(g.items, g.calls + 1, [Delay(a, jitter[a])] + g.sleeps)
      case _ =>
        var g := GenerateFrom(outcomes, jitter, a + 1);
        g.(calls := g.calls + 1)
  }

  /** `generate_batch`: the loop over at most five attempts. */
  method GenerateBatch(outcomes: seq<Attempt>, jitter: seq<real>) returns (items: seq<Item>, calls: nat, sleeps: seq<real>)
    requires |outcomes| == MaxRetries && |jitter| == MaxRetries
    ensures Generated(items, calls, sleeps) == GenerateFrom(outcomes, jitter, 0)
  {
    calls, sleeps := 0, [];
    var a := 0;
    while a < MaxRetries
      invariant a <= MaxRetries && calls == a
      invariant var g := GenerateFrom(outcomes, jitter, a);
        GenerateFrom(outcomes, jitter, 0) == Generated(g.items, calls + g.calls, sleeps + g.sleeps)
    {
      ghost var here, next := GenerateFrom(outcomes, jitter, a), GenerateFrom(outcomes, jitter, a + 1);
      calls := calls + 1;
      match outcomes[a] {
        case ListJson(xs) =>
          items := xs;
          return;
        case Raised(message) =>
          if !IsRateLimit(message) || a == MaxRetries - 1 {
            items := [];
            return;
          }
          assert here == Generated(next.items, next.calls + 1, [Delay(a, jitter[a])] + next.sleeps);
          ShiftOne(sleeps, Delay(a, jitter[a]), next.sleeps);
          sleeps := sleeps + [Delay(a, jitter[a])];
        case _ =>
          assert here == Generated(next.items, next.calls + 1, next.sleeps);
      }
      assert GenerateFrom(outcomes, jitter, 0) == Generated(next.items, calls + next.calls, sleeps + next.sleeps);
      a := a + 1;
    }
    items := [];
  }

  lemma ShiftOne(s: seq<real>, x: real, t: seq<real>)
    ensures s + ([x] + t) == (s + [x]) + t
  {
  }

  function Sum(s: seq<real>): real {
    if |s| == 0 then 0.0 else s[0] + Sum(s[1..])
  }

  /** The most the loop from attempt `a` on can sleep with jitter at most one
      second: one back-off for each attempt but the last. */
  function SleepBudget(a: nat): real
    decreases MaxRetries - a
  {
    if a + 1 >= MaxRetries then 0.0 else Delay(a, 1.0) + SleepBudget(a + 1)
  }

  ghost predicate JitterInRange(jitter: seq<real>) {
    forall i :: 0 <= i < |jitter| ==> 0.0 <= jitter[i] <= 1.0
  }

  /** At most five calls, at least one, and fewer sleeps than calls. */
  lemma {:induction false} CallsBounded(outcomes: seq<Attempt>, jitter: seq<real>, a: nat)
    requires |outcomes| == MaxRetries && |jitter| == MaxRetries && a < MaxRetries
    ensures var g := GenerateFrom(outcomes, jitter, a);
      1 <= g.calls <= MaxRetries - a && |g.sleeps| < g.calls
    decreases MaxRetries - a
  {
    if a + 1 < MaxRetries {
      CallsBounded(outcomes, jitter, a + 1);
    }
  }

  /** Every call but the last one the loop makes met an outcome that is
      retried: a JSON array, or an exception other than a rate limit, ends the
      loop. */
  lemma {:induction false} RetriedBeforeLast(outcomes: seq<Attempt>, jitter: seq<real>, a: nat)
    requires |outcomes| == MaxRetries && |jitter| == MaxRetries && a <= MaxRetries
    ensures var g := GenerateFrom(outcomes, jitter, a);
      forall i :: a <= i < a + g.calls - 1 ==> Retried(outcomes[i])
    decreases MaxRetries - a
  {
    if a < MaxRetries {
      var g := GenerateFrom(outcomes, jitter, a);
      if Retried(outcomes[a]) {
        RetriedBeforeLast(outcomes, jitter, a + 1);
        assert g.calls == GenerateFrom(outcomes, jitter, a + 1).calls + 1;
      } else {
        assert g.calls == 1;
      }
    }
  }

  /** Where the loop stops and what it leaves behind, independently of how it
      is written: the last call is the first attempt that ends the loop, the
      batch is that attempt's array if it got one and empty otherwise, and the
      sleeps are exactly the back-offs of the rate limits met before it. */
  lemma {:induction false} LoopOutcome(outcomes: seq<Attempt>, jitter: seq<real>, a: nat)
    requires |outcomes| == MaxRetries && |jitter| == MaxRetries && a < MaxRetries
    ensures var g := GenerateFrom(outcomes, jitter, a);
      var last := a + g.calls - 1;
      && EndsLoop(outcomes, last)
      && g.items == (if outcomes[last].ListJson? then outcomes[last].items else [])
      && g.sleeps == Backoffs(outcomes, jitter, a, last)
    decreases MaxRetries - a
  {
    var g := GenerateFrom(outcomes, jitter, a);
    if EndsLoop(outcomes, a) {
      if Retried(outcomes[a]) && !RateLimited(outcomes[a]) {
        assert GenerateFrom(outcomes, jitter, a + 1) == Generated([], 0, []);
      }
      assert g.calls == 1 && g.sleeps == [];
    } else {
      LoopOutcome(outcomes, jitter, a + 1);
      var h := GenerateFrom(outcomes, jitter, a + 1);
      assert g.calls == h.calls + 1 && g.items == h.items;
      assert g.sleeps == (if RateLimited(outcomes[a]) then [Delay(a, jitter[a])] else []) + h.sleeps;
    }
  }

  lemma {:induction false} SleepWithinBudget(outcomes: seq<Attempt>, jitter: seq<real>, a: nat)
    requires |outcomes| == MaxRetries && |jitter| == MaxRetries && a <= MaxRetries
    requires JitterInRange(jitter)
    ensures Sum(GenerateFrom(outcomes, jitter, a).sleeps) <= SleepBudget(a)
    decreases MaxRetries - a
  {
    if a < MaxRetries {
      SleepWithinBudget(outcomes, jitter, a + 1);
      assert SleepBudget(a) >= SleepBudget(a + 1) by {
        if a + 1 < MaxRetries {
          assert Delay(a, 1.0) >= 0.0;
        }
      }
      if outcomes[a].Raised? && IsRateLimit(outcomes[a].message) && a < MaxRetries - 1 {
        var g, h := GenerateFrom(outcomes, jitter, a), GenerateFrom(outcomes, jitter, a + 1);
        assert g.sleeps == [Delay(a, jitter[a])] + h.sleeps;
        assert g.sleeps[1..] == h.sleeps;
      }
    }
  }

  lemma {:induction false} BackoffGrows(outcomes: seq<Attempt>, jitter: seq<real>, a: nat)
    requires |outcomes| == MaxRetries && |jitter| == MaxRetries && a <= MaxRetries
    requires JitterInRange(jitter)
    ensures forall i :: 0 <= i < |GenerateFrom(outcomes, jitter, a).sleeps| ==>
      GenerateFrom(outcomes, jitter, a).sleeps[i] >= BaseDelay * (Pow2(a + i) as real)
    decreases MaxRetries - a
  {
    if a < MaxRetries {
      BackoffGrows(outcomes, jitter, a + 1);
      assert forall n: nat :: Pow2(n + 1) == 2 * Pow2(n);
      if outcomes[a].Raised? && IsRateLimit(outcomes[a].message) && a < MaxRetries - 1 {
        var g, h := GenerateFrom(outcomes, jitter, a), GenerateFrom(outcomes, jitter, a + 1);
        assert g.sleeps == [Delay(a, jitter[a])] + h.sleeps;
        forall i | 0 < i < |g.sleeps|
          ensures g.sleeps[i] >= BaseDelay * (Pow2(a + i) as real)
        {
          assert g.sleeps[i] == h.sleeps[i - 1];
          assert a + i == (a + 1) + (i - 1);
        }
      }
    }
  }

  lemma BudgetOfBatch()
    ensures SleepBudget(0) == 64.0
  {
    assert Pow2(1) == 2 && Pow2(2) == 4 && Pow2(3) == 8;
    assert SleepBudget(4) == 0.0;
    assert SleepBudget(3) == 33.0;
    assert SleepBudget(2) == 50.0;
    assert SleepBudget(1) == 59.0;
  }

  /** With jitter drawn from [0, 1], a batch sleeps at most
      4 + 8 + 16 + 32 seconds plus one second of jitter per back-off. */
  lemma TotalSleepBounded(outcomes: seq<Attempt>, jitter: seq<real>)
    requires |outcomes| == MaxRetries && |jitter| == MaxRetries
    requires JitterInRange(jitter)
    ensures Sum(GenerateFrom(outcomes, jitter, 0).sleeps) <= 64.0
  {
    SleepWithinBudget(outcomes, jitter, 0);
    BudgetOfBatch();
  }

  /** A rate limit on every attempt: five calls, four back-offs, and nothing. */
  lemma PersistentRateLimit(jitter: seq<real>)
    requires |jitter| == MaxRetries
    ensures var g := GenerateFrom(seq(MaxRetries, _ => Raised("429 RESOURCE_EXHAUSTED")), jitter, 0);
      g.items == [] && g.calls == 5 && |g.sleeps| == 4
  {
    var outcomes := seq(MaxRetries, _ => Raised("429 RESOURCE_EXHAUSTED"));
    assert "429" <= "429 RESOURCE_EXHAUSTED";
    assert forall a :: 0 <= a < MaxRetries ==> IsRateLimit(outcomes[a].message);
  }

  /** Any other exception ends the batch after a single call. */
  lemma OtherErrorStops(outcomes: seq<Attempt>, jitter: seq<real>)
    requires |outcomes| == MaxRetries && |jitter| == MaxRetries
    requires outcomes[0].Raised? && !IsRateLimit(outcomes[0].message)
    ensures GenerateFrom(outcomes, jitter, 0) == Generated([], 1, [])
  {
  }

  /** A record the inserter accepts. */
  predicate Complete(item: Item) {
    "description" in item && "urgency" in item
  }

  /** `str(uid)` for `item.get("user_id", f"u{random.randint(1000, 9999)}")`. */
  function UserIdOf(item: Item, draw: nat): (uid: string)
    requires 1000 <= draw <= 9999
    ensures "user_id" in item ==> uid == item["user_id"]
    ensures "user_id" !in item ==> |uid| == 5 && uid[0] == 'u' && forall k :: 1 <= k < 5 ==> IsDigit(uid[k])
  {
    if "user_id" in item then item["user_id"]
    else
      FourDigits(draw);
      "u" + DecimalString(draw)
  }

  lemma FourDigits(n: nat)
    requires 1000 <= n <= 9999
    ensures |DecimalString(n)| == 4
  {
    assert n / 10 / 10 / 10 == n / 1000;
    assert |DecimalString(n / 10 / 10 / 10)| == 1;
    assert |DecimalString(n / 10 / 10)| == 2;
    assert |DecimalString(n / 10)| == 3;
  }

  /** The ticket a complete record becomes. */
  function TicketOf(item: Item, draw: nat): (t: Ticket)
    requires Complete(item) && 1000 <= draw <= 9999
    ensures t.userId == UserIdOf(item, draw)
    ensures t.status == New && t.contentHash.None? && t.category.None?
    ensures t.description == item["description"] && t.urgency == item["urgency"]
  {
    NewTicket(UserIdOf(item, draw), item["description"], item["urgency"], New)
  }

  /** The number of complete records. */
  function CountComplete(items: seq<Item>): nat {
    if |items| == 0 then 0 else (if Complete(items[0]) then 1 else 0) + CountComplete(items[1..])
  }

  ghost predicate Draws(draws: seq<nat>) {
    forall i :: 0 <= i < |draws| ==> 1000 <= draws[i] <= 9999
  }

  /** The tickets the complete records become, in order. */
  function Rows(items: seq<Item>, draws: seq<nat>): (rows: seq<Ticket>)
    requires |draws| == |items| && Draws(draws)
    ensures |rows| == CountComplete(items)
    ensures forall k :: 0 <= k < |rows| ==>
      rows[k].status == New && rows[k].contentHash.None? && rows[k].category.None?
  {
    if |items| == 0 then []
    else (if Complete(items[0]) then [TicketOf(items[0], draws[0])] else []) + Rows(items[1..], draws[1..])
  }

  /** Each row comes from a complete record. */
  lemma {:induction false} RowsComeFromRecords(items: seq<Item>, draws: seq<nat>)
    requires |draws| == |items| && Draws(draws)
    ensures forall k :: 0 <= k < |Rows(items, draws)| ==>
      exists i :: 0 <= i < |items| && Complete(items[i]) && Rows(items, draws)[k] == TicketOf(items[i], draws[i])
  {
    if |items| > 0 {
      var head := if Complete(items[0]) then [TicketOf(items[0], draws[0])] else [];
      var tail := Rows(items[1..], draws[1..]);
      RowsComeFromRecords(items[1..], draws[1..]);
      var rows := Rows(items, draws);
      assert rows == head + tail;
      forall k | 0 <= k < |rows|
        ensures exists i :: 0 <= i < |items| && Complete(items[i]) && rows[k] == TicketOf(items[i], draws[i])
      {
        if k < |head| {
          assert rows[k] == TicketOf(items[0], draws[0]);
        } else {
          assert rows[k] == tail[k - |head|];
          var i :| 0 <= i < |items[1..]| && Complete(items[1..][i]) && tail[k - |head|] == TicketOf(items[1..][i], draws[1..][i]);
          assert items[1..][i] == items[i + 1] && draws[1..][i] == draws[i + 1];
        }
      }
    } else {
      assert Rows(items, draws) == [];
    }
  }

  /** Each complete record gives a row. */
  lemma {:induction false} RecordsBecomeRows(items: seq<Item>, draws: seq<nat>)
    requires |draws| == |items| && Draws(draws)
    ensures forall i :: 0 <= i < |items| && Complete(items[i]) ==> TicketOf(items[i], draws[i]) in Rows(items, draws)
  {
    if |items| > 0 {
      var head := if Complete(items[0]) then [TicketOf(items[0], draws[0])] else [];
      var tail := Rows(items[1..], draws[1..]);
      RecordsBecomeRows(items[1..], draws[1..]);
      var rows := Rows(items, draws);
      assert rows == head + tail;
      forall i | 0 <= i < |items| && Complete(items[i])
        ensures TicketOf(items[i], draws[i]) in rows
      {
        if i == 0 {
          assert rows[0] == TicketOf(items[0], draws[0]);
        } else {
          assert items[1..][i - 1] == items[i] && draws[1..][i - 1] == draws[i];
          assert TicketOf(items[i], draws[i]) in tail;
        }
      }
    }
  }

  /** The insertion loop of `main`: the session gains the rows of the complete
      records, appended in order after the existing tickets. */
  function InsertGenerated(store: Store, items: seq<Item>, draws: seq<nat>): (r: Store)
    requires |draws| == |items| && Draws(draws)
    ensures r == store + Rows(items, draws)
    decreases |items|
  {
    if |items| == 0 then store
    else
      var head := if Complete(items[0]) then [TicketOf(items[0], draws[0])] else [];
      var r := InsertGenerated(store + head, items[1..], draws[1..]);
      assert Rows(items, draws) == head + Rows(items[1..], draws[1..]);
      Associate(store, head, Rows(items[1..], draws[1..]));
      r
  }

  lemma Associate<T>(a: seq<T>, b: seq<T>, c: seq<T>)
    ensures a + b + c == a + (b + c)
  {
  }

  /** One run of the script: one batch; nothing is inserted when the batch
      comes back empty. */
  function GenerateAndInsert(store: Store, outcomes: seq<Attempt>, jitter: seq<real>, draws: seq<nat>): (r: Store)
    requires |outcomes| == MaxRetries && |jitter| == MaxRetries
    requires |draws| == |GenerateFrom(outcomes, jitter, 0).items| && Draws(draws)
    ensures GenerateFrom(outcomes, jitter, 0).items == [] ==> r == store
    ensures |r| == |store| + CountComplete(GenerateFrom(outcomes, jitter, 0).items)
    ensures r[..|store|] == store
  {
    var items := GenerateFrom(outcomes, jitter, 0).items;
    if items == [] then store else InsertGenerated(store, items, draws)
  }

  /** Every seeded ticket is picked up by the next batch run. */
  lemma SeededTicketsAreNew(store: Store, items: seq<Item>, draws: seq<nat>)
    requires |draws| == |items| && Draws(draws)
    ensures var r := InsertGenerated(store, items, draws);
      forall k :: |store| <= k < |r| ==> k in BatchTriage.NewTickets(r, 0)
  {
    var r := InsertGenerated(store, items, draws);
    forall k | |store| <= k < |r|
      ensures r[k].status == New
    {
      assert r[k] == Rows(items, draws)[k - |store|];
    }
  }
}
