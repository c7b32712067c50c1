/** The semantic cache of src/core/semantic_cache.py. The Chroma collection is a
    map from ticket id to the indexed document and its `category` metadata,
    plus the order in which ids were added. The embedding model and the cosine
    metric are one abstract function `dist(query, document)`; a query returns
    the `n` entries nearest to the query text, nearest first. */
module SemanticCache {
  import opened Wrappers

  datatype Record = Record(document: string, category: string)

  datatype Collection = Collection(records: map<string, Record>, order: seq<string>)

  /** The cosine distance between the embeddings of two texts. */
  type Distance = (string, string) -> real

  /** The default threshold of the shield lookup. */
  const DefaultThreshold: real := 0.5

  ghost predicate NoDup(s: seq<string>) {
    forall i, j :: 0 <= i < j < |s| ==> s[i] != s[j]
  }

  /** Every id is stored once, and `order` lists exactly the stored ids. */
  ghost predicate Valid(c: Collection) {
    && NoDup(c.order)
    && (forall id :: id in c.records <==> id in c.order)
  }

  const Empty: Collection := Collection(map[], [])

  lemma EmptyValid()
    ensures Valid(Empty)
  {
  }

  /** `collection.count()`. */
  function Count(c: Collection): nat {
    |c.order|
  }

  function Min(a: nat, b: nat): nat {
    if a <= b then a else b
  }

  // ---- nearest-neighbour query ----

  ghost predicate SortedBy(s: seq<string>, key: string -> real) {
    forall i, j :: 0 <= i < j < |s| ==> key(s[i]) <= key(s[j])
  }

  /** Places `x` into the sorted `s` before the first element with a larger key. */
  function InsertByKey(x: string, s: seq<string>, key: string -> real): (r: seq<string>)
    requires SortedBy(s, key)
    ensures SortedBy(r, key)
    ensures |r| == |s| + 1
    ensures forall y :: y in r <==> y == x || y in s
    ensures NoDup(s) && x !in s ==> NoDup(r)
  {
    if |s| == 0 then [x]
    else if key(x) <= key(s[0]) then [x] + s
    else
      var t := InsertByKey(x, s[1..], key);
      assert forall y :: y in s <==> y == s[0] || y in s[1..];
      HeadBelow(s, x, t, key);
      ConsSorted(s[0], t, key);
      assert NoDup(s) && x !in s ==> s[0] !in t;
      ConsNoDup(s[0], t);
      [s[0]] + t
  }

  /** The head of a sorted sequence bounds every later element, and `x` too. */
  lemma HeadBelow(s: seq<string>, x: string, t: seq<string>, key: string -> real)
    requires |s| > 0 && SortedBy(s, key) && key(s[0]) <= key(x)
    requires forall y :: y in t ==> y == x || y in s[1..]
    ensures forall y :: y in t ==> key(s[0]) <= key(y)
  {
    forall y | y in t
      ensures key(s[0]) <= key(y)
    {
      if y != x {
        var m :| 0 <= m < |s[1..]| && s[1..][m] == y;
        assert s[m + 1] == y;
      }
    }
  }

  lemma ConsSorted(h: string, t: seq<string>, key: string -> real)
    requires SortedBy(t, key) && forall y :: y in t ==> key(h) <= key(y)
    ensures SortedBy([h] + t, key)
  {
    forall i, j | 0 <= i < j < |[h] + t|
      ensures key(([h] + t)[i]) <= key(([h] + t)[j])
    {
      assert ([h] + t)[j] == t[j - 1];
      if i == 0 {
        assert t[j - 1] in t;
      } else {
        assert ([h] + t)[i] == t[i - 1];
      }
    }
  }

  lemma ConsNoDup(h: string, t: seq<string>)
    ensures NoDup(t) && h !in t ==> NoDup([h] + t)
  {
    if NoDup(t) && h !in t {
      forall i, j | 0 <= i < j < |[h] + t|
        ensures ([h] + t)[i] != ([h] + t)[j]
      {
        assert ([h] + t)[j] == t[j - 1];
        if i > 0 {
          assert ([h] + t)[i] == t[i - 1];
        }
      }
    }
  }

  /** Insertion sort of the ids by key. */
  function SortByKey(s: seq<string>, key: string -> real): (r: seq<string>)
    ensures SortedBy(r, key)
    ensures |r| == |s|
    ensures forall y :: y in r <==> y in s
    ensures NoDup(s) ==> NoDup(r)
  {
    if |s| == 0 then []
    else
      var init := s[..|s| - 1];
      assert forall y :: y in s <==> y == s[|s| - 1] || y in init;
      InsertByKey(s[|s| - 1], SortByKey(init, key), key)
  }

  /** Two keys that agree on the ids give the same order. */
  lemma {:induction false} SortByKeyCongruent(s: seq<string>, k1: string -> real, k2: string -> real)
    requires forall y :: y in s ==> k1(y) == k2(y)
    ensures SortByKey(s, k1) == SortByKey(s, k2)
  {
    if |s| > 0 {
      var init := s[..|s| - 1];
      SortByKeyCongruent(init, k1, k2);
      InsertByKeyCongruent(s[|s| - 1], SortByKey(init, k1), k1, k2);
    }
  }

  lemma {:induction false} InsertByKeyCongruent(x: string, s: seq<string>, k1: string -> real, k2: string -> real)
    requires SortedBy(s, k1) && SortedBy(s, k2)
    requires k1(x) == k2(x) && forall y :: y in s ==> k1(y) == k2(y)
    ensures InsertByKey(x, s, k1) == InsertByKey(x, s, k2)
  {
    if |s| > 0 && k1(x) > k1(s[0]) {
      InsertByKeyCongruent(x, s[1..], k1, k2);
    }
  }

  function DistanceKey(c: Collection, dist: Distance, text: string): string -> real {
    id => if id in c.records then dist(text, c.records[id].document) else 0.0
  }

  /** Every stored id, ordered by distance from `text`. */
  function ByDistance(c: Collection, dist: Distance, text: string): (ids: seq<string>)
    requires Valid(c)
    ensures |ids| == Count(c) && NoDup(ids)
    ensures forall y :: y in ids <==> y in c.records
    ensures SortedBy(ids, DistanceKey(c, dist, text))
  {
    SortByKey(c.order, DistanceKey(c, dist, text))
  }

  /** In a sorted sequence, nothing after the first `k` has a smaller key than
      the `k`-th. */
  lemma SortedPrefixNearest(s: seq<string>, key: string -> real, k: nat, y: string)
    requires SortedBy(s, key) && 0 < k <= |s|
    requires y in s && y !in s[..k]
    ensures key(s[k - 1]) <= key(y)
  {
    var m :| 0 <= m < |s| && s[m] == y;
    assert forall i :: 0 <= i < k ==> s[..k][i] == s[i];
    assert k <= m;
  }

  /** One row of a query result. */
  datatype Hit = Hit(id: string, document: string, category: string, distance: real)

  function HitIds(hits: seq<Hit>): (ids: seq<string>)
    ensures |ids| == |hits|
    ensures forall i :: 0 <= i < |hits| ==> ids[i] == hits[i].id
  {
    seq(|hits|, i requires 0 <= i < |hits| => hits[i].id)
  }

  /** The stored entries under `ids`, each with its distance from `text`. */
  function HitsOf(c: Collection, dist: Distance, text: string, ids: seq<string>): (hits: seq<Hit>)
    requires forall y :: y in ids ==> y in c.records
    ensures HitIds(hits) == ids
    ensures forall i :: 0 <= i < |hits| ==>
      && hits[i].document == c.records[ids[i]].document
      && hits[i].category == c.records[ids[i]].category
      && hits[i].distance == dist(text, hits[i].document)
  {
    var hits := seq(|ids|, i requires 0 <= i < |ids| =>
      Hit(ids[i], c.records[ids[i]].document, c.records[ids[i]].category, dist(text, c.records[ids[i]].document)));
    assert HitIds(hits) == ids;
    hits
  }

  /** The rows `collection.query` returns: the first `min(n, count)` ids by
      distance. */
  function QueryRows(c: Collection, dist: Distance, text: string, n: nat): (hits: seq<Hit>)
    requires Valid(c)
    ensures HitIds(hits) == ByDistance(c, dist, text)[..Min(n, Count(c))]
  {
    var ids := ByDistance(c, dist, text);
    var prefix := ids[..Min(n, Count(c))];
    assert forall y :: y in prefix ==> y in ids;
    HitsOf(c, dist, text, prefix)
  }

  lemma QueryRowsEntries(c: Collection, dist: Distance, text: string, n: nat)
    requires Valid(c)
    ensures var hits := QueryRows(c, dist, text, n);
      forall i :: 0 <= i < |hits| ==>
        && hits[i].id in c.records
        && hits[i].document == c.records[hits[i].id].document
        && hits[i].category == c.records[hits[i].id].category
        && hits[i].distance == dist(text, hits[i].document)
  {
    var ids := ByDistance(c, dist, text);
    var hits := QueryRows(c, dist, text, n);
    assert forall i :: 0 <= i < |hits| ==> hits[i].id == ids[i] && ids[i] in ids;
  }

  lemma QueryRowsSorted(c: Collection, dist: Distance, text: string, n: nat)
    requires Valid(c)
    ensures var hits := QueryRows(c, dist, text, n);
      forall i, j :: 0 <= i < j < |hits| ==> hits[i].distance <= hits[j].distance
  {
    var key := DistanceKey(c, dist, text);
    var ids := ByDistance(c, dist, text);
    var hits := QueryRows(c, dist, text, n);
    QueryRowsEntries(c, dist, text, n);
    assert forall i :: 0 <= i < |hits| ==> hits[i].id == ids[i] && hits[i].distance == key(ids[i]);
  }

  lemma NoDupPrefix(s: seq<string>, k: nat)
    requires NoDup(s) && k <= |s|
    ensures NoDup(s[..k])
  {
    assert forall i :: 0 <= i < k ==> s[..k][i] == s[i];
  }

  lemma QueryRowsNearest(c: Collection, dist: Distance, text: string, n: nat)
    requires Valid(c)
    ensures var hits := QueryRows(c, dist, text, n);
      && NoDup(HitIds(hits))
      && forall id :: id in c.records && id !in HitIds(hits) && |hits| > 0 ==>
        hits[|hits| - 1].distance <= dist(text, c.records[id].document)
  {
    var key := DistanceKey(c, dist, text);
    var ids := ByDistance(c, dist, text);
    var hits := QueryRows(c, dist, text, n);
    var k := Min(n, Count(c));
    assert HitIds(hits) == ids[..k];
    NoDupPrefix(ids, k);
    QueryRowsEntries(c, dist, text, n);
    forall id | id in c.records && id !in ids[..k] && k > 0
      ensures hits[k - 1].distance <= dist(text, c.records[id].document)
    {
      assert hits[k - 1].id == ids[k - 1];
      SortedPrefixNearest(ids, key, k, id);
    }
  }

  /** `collection.query(query_texts=[text], n_results=n)`: the `min(n, count)`
      entries nearest to `text`, nearest first, each with its own document and
      category; no entry left out is nearer than the last one returned. */
  function Query(c: Collection, dist: Distance, text: string, n: nat): (hits: seq<Hit>)
    requires Valid(c)
    ensures |hits| == Min(n, Count(c))
    ensures forall i :: 0 <= i < |hits| ==>
      && hits[i].id in c.records
      && hits[i].document == c.records[hits[i].id].document
      && hits[i].category == c.records[hits[i].id].category
      && hits[i].distance == dist(text, hits[i].document)
    ensures forall i, j :: 0 <= i < j < |hits| ==> hits[i].distance <= hits[j].distance
    ensures NoDup(HitIds(hits))
    ensures forall id :: id in c.records && id !in HitIds(hits) && |hits| > 0 ==>
      hits[|hits| - 1].distance <= dist(text, c.records[id].document)
  {
    QueryRowsEntries(c, dist, text, n);
    QueryRowsSorted(c, dist, text, n);
    QueryRowsNearest(c, dist, text, n);
    QueryRows(c, dist, text, n)
  }

  // ---- the operations of SemanticCache ----

  /** The decision `check_cache` takes over a raw query result: the nearest
      category when its distance is strictly below the threshold, and nothing
      when the result holds no distance at all. */
  function ShieldDecision(hits: seq<Hit>, threshold: real): (r: Option<string>)
    ensures |hits| == 0 ==> r.None?
    ensures |hits| > 0 ==> (r.Some? <==> hits[0].distance < threshold)
    ensures r.Some? ==> r.value == hits[0].category
  {
    if |hits| == 0 then None
    else if hits[0].distance < threshold then Some(hits[0].category)
    else None
  }

  /** `id` holds an entry no other entry is nearer to `text` than. */
  ghost predicate IsNearest(c: Collection, dist: Distance, text: string, id: string) {
    && id in c.records
    && forall other :: other in c.records ==>
      dist(text, c.records[id].document) <= dist(text, c.records[other].document)
  }

  /** `check_cache(description, threshold)`: a hit exactly when some entry lies
      strictly closer than `threshold`, and then the category of a nearest
      entry; an empty collection is a miss without a query. */
  function CheckCache(c: Collection, dist: Distance, text: string, threshold: real): (r: Option<string>)
    requires Valid(c)
    ensures Count(c) == 0 ==> r.None?
    ensures r.Some? <==> exists id :: id in c.records && dist(text, c.records[id].document) < threshold
    ensures r.Some? ==> exists id :: IsNearest(c, dist, text, id) && c.records[id].category == r.value
  {
    if Count(c) == 0 then None
    else
      var hits := Query(c, dist, text, 1);
      var r := ShieldDecision(hits, threshold);
      assert hits[0].id in c.records;
      assert forall id :: id in c.records ==> id == hits[0].id || id !in HitIds(hits);
      assert IsNearest(c, dist, text, hits[0].id);
      r
  }

  /** A few-shot example as the adapter receives it: a dict with the keys
      "description" and "category". */
  function ExampleOf(r: Record): (ex: map<string, string>)
    ensures "description" in ex && ex["description"] == r.document
    ensures "category" in ex && ex["category"] == r.category
  {
    map["description" := r.document, "category" := r.category]
  }

  /** The example is some entry's document paired with that entry's category. */
  ghost predicate PairsAnEntry(c: Collection, ex: map<string, string>) {
    exists id :: id in c.records && ex == ExampleOf(c.records[id])
  }

  /** The examples of the entries under `ids`, in order. */
  function ExamplesOf(c: Collection, ids: seq<string>): (r: seq<map<string, string>>)
    requires forall i :: 0 <= i < |ids| ==> ids[i] in c.records
    ensures |r| == |ids|
    ensures forall i :: 0 <= i < |r| ==> r[i] == ExampleOf(c.records[ids[i]])
  {
    seq(|ids|, i requires 0 <= i < |ids| => ExampleOf(c.records[ids[i]]))
  }

  /** `ids` names distinct entries, nearest to `text` first, and no entry left
      out of `ids` is nearer than the last one named. */
  ghost predicate NearestFirst(c: Collection, dist: Distance, text: string, ids: seq<string>) {
    && NoDup(ids)
    && (forall i :: 0 <= i < |ids| ==> ids[i] in c.records)
    && (forall i, j :: 0 <= i < j < |ids| ==>
          dist(text, c.records[ids[i]].document) <= dist(text, c.records[ids[j]].document))
    && (forall id :: id in c.records && id !in ids && |ids| > 0 ==>
          dist(text, c.records[ids[|ids| - 1]].document) <= dist(text, c.records[id].document))
  }

  /** The ids of a query result name the nearest entries, nearest first. */
  lemma QueryNearestFirst(c: Collection, dist: Distance, text: string, n: nat)
    requires Valid(c)
    ensures NearestFirst(c, dist, text, HitIds(Query(c, dist, text, n)))
  {
    var hits := Query(c, dist, text, n);
    var ids := HitIds(hits);
    forall i | 0 <= i < |ids|
      ensures ids[i] in c.records && dist(text, c.records[ids[i]].document) == hits[i].distance
    {
      assert ids[i] == hits[i].id;
    }
    assert forall i, j :: 0 <= i < j < |ids| ==>
      dist(text, c.records[ids[i]].document) <= dist(text, c.records[ids[j]].document);
  }

  /** The examples of nearest-first entries pair entries and run nearest first. */
  lemma ExamplesOfNearest(c: Collection, dist: Distance, text: string, ids: seq<string>)
    requires NearestFirst(c, dist, text, ids)
    ensures var r := ExamplesOf(c, ids);
      && (forall i :: 0 <= i < |r| ==> "description" in r[i] && "category" in r[i])
      && (forall i :: 0 <= i < |r| ==> PairsAnEntry(c, r[i]))
      && (forall i, j :: 0 <= i < j < |r| ==>
            dist(text, r[i]["description"]) <= dist(text, r[j]["description"]))
  {
    var r := ExamplesOf(c, ids);
    forall i | 0 <= i < |r|
      ensures PairsAnEntry(c, r[i]) && r[i]["description"] == c.records[ids[i]].document
    {
      assert ids[i] in c.records && r[i] == ExampleOf(c.records[ids[i]]);
    }
  }

  /** `get_similar_examples(description, limit)`: the `min(limit, count)`
      entries nearest to the description, nearest first, each rendered as an
      example, with no distance threshold at all. */
  function SimilarExamples(c: Collection, dist: Distance, text: string, limit: nat): (r: seq<map<string, string>>)
    requires Valid(c)
    ensures Count(c) == 0 ==> r == []
    ensures |r| == Min(limit, Count(c))
    ensures forall i :: 0 <= i < |r| ==> "description" in r[i] && "category" in r[i]
    ensures forall i :: 0 <= i < |r| ==> PairsAnEntry(c, r[i])
    ensures forall i, j :: 0 <= i < j < |r| ==>
      dist(text, r[i]["description"]) <= dist(text, r[j]["description"])
    ensures exists ids :: NearestFirst(c, dist, text, ids) && r == ExamplesOf(c, ids)
  {
    if Count(c) == 0 then
      assert NearestFirst(c, dist, text, []);
      ExamplesOfNearest(c, dist, text, []);
      ExamplesOf(c, [])
    else
      var hits := Query(c, dist, text, Min(limit, Count(c)));
      var ids := HitIds(hits);
      QueryNearestFirst(c, dist, text, Min(limit, Count(c)));
      ExamplesOfNearest(c, dist, text, ids);
      ExamplesOf(c, ids)
  }

  /** `add_to_cache(id, description, category)`: a fresh id gains exactly one
      entry and every other entry is kept; Chroma ignores an add under an id it
      already holds. */
  function AddToCache(c: Collection, id: string, description: string, category: string): (r: Collection)
    requires Valid(c)
    ensures Valid(r)
    ensures id !in c.records ==> r.records.Keys == c.records.Keys + {id} && Count(r) == Count(c) + 1
    ensures id !in c.records ==> r.records[id] == Record(description, category)
    ensures forall k :: k in c.records ==> k in r.records && r.records[k] == c.records[k]
    ensures id in c.records ==> r == c
  {
    if id in c.records then c
    else Collection(c.records[id := Record(description, category)], c.order + [id])
  }

  /** `update_ticket_category(id, category)`: on a stored id the document is kept
      and only the category changes; an unknown id, or a store error (`fails`),
      leaves the collection as it was and nothing is raised. */
  function UpdateCategory(c: Collection, id: string, category: string, fails: bool): (r: Collection)
    requires Valid(c)
    ensures Valid(r)
    ensures r.records.Keys == c.records.Keys && r.order == c.order
    ensures (fails || id !in c.records) ==> r == c
    ensures !fails && id in c.records ==>
      r.records[id].document == c.records[id].document && r.records[id].category == category
    ensures forall k :: k in c.records && k != id ==> r.records[k] == c.records[k]
  {
    if fails || id !in c.records then c
    else Collection(c.records[id := Record(c.records[id].document, category)], c.order)
  }

  // ---- properties relating the operations ----

  /** A correction does not move any entry: the same ids come back in the same
      order with the same documents and distances, and the corrected entry now
      reports the new category. */
  lemma QueryAfterUpdate(c: Collection, dist: Distance, text: string, n: nat, id: string, category: string)
    requires Valid(c) && id in c.records
    ensures var before, after := Query(c, dist, text, n), Query(UpdateCategory(c, id, category, false), dist, text, n);
      && HitIds(after) == HitIds(before)
      && forall i :: 0 <= i < |after| ==>
        && after[i].document == before[i].document
        && after[i].distance == before[i].distance
        && after[i].category == (if after[i].id == id then category else before[i].category)
  {
    var u := UpdateCategory(c, id, category, false);
    SortByKeyCongruent(c.order, DistanceKey(c, dist, text), DistanceKey(u, dist, text));
  }

  /** The shield boundary: an entry at exactly the threshold is a miss, one
      strictly below it is a hit. */
  lemma ShieldBoundary(dist: Distance, text: string, id: string, r: Record, threshold: real)
    ensures var c := AddToCache(Empty, id, r.document, r.category);
      && (dist(text, r.document) == threshold ==> CheckCache(c, dist, text, threshold) == None)
      && (dist(text, r.document) < threshold ==> CheckCache(c, dist, text, threshold) == Some(r.category))
  {
    var c := AddToCache(Empty, id, r.document, r.category);
    assert c.records.Keys == {id};
    if dist(text, r.document) < threshold {
      var v := CheckCache(c, dist, text, threshold).value;
      var w :| IsNearest(c, dist, text, w) && c.records[w].category == v;
      assert w == id;
    }
  }

  /** A collection holding the single entry `r`. */
  lemma SingleEntry(id: string, r: Record)
    ensures var c := AddToCache(Empty, id, r.document, r.category);
      Valid(c) && c.records == map[id := r] && c.order == [id] && Count(c) == 1
  {
    EmptyValid();
  }

  /** With one entry, the examples are that entry alone, whatever its distance. */
  lemma SingleEntryExamples(c: Collection, dist: Distance, text: string, limit: nat, id: string, r: Record)
    requires Valid(c) && c.records == map[id := r] && c.order == [id] && limit >= 1
    ensures SimilarExamples(c, dist, text, limit) == [ExampleOf(r)]
  {
    var ex := SimilarExamples(c, dist, text, limit);
    var w :| w in c.records && ex[0] == ExampleOf(c.records[w]);
    assert w == id;
  }

  lemma SingleEntryMiss(c: Collection, dist: Distance, text: string, threshold: real, id: string, r: Record)
    requires Valid(c) && c.records == map[id := r] && dist(text, r.document) >= threshold
    ensures CheckCache(c, dist, text, threshold) == None
  {
  }

  /** Few-shot retrieval is not shielded: with a single entry at distance 0.9 the
      examples still contain it while the default shield misses. */
  lemma FewShotWithoutThreshold(dist: Distance, text: string, id: string, r: Record)
    requires dist(text, r.document) == 0.9
    ensures var c := AddToCache(Empty, id, r.document, r.category);
      && SimilarExamples(c, dist, text, 3) == [ExampleOf(r)]
      && CheckCache(c, dist, text, DefaultThreshold) == None
  {
    SingleEntry(id, r);
    var c := AddToCache(Empty, id, r.document, r.category);
    SingleEntryExamples(c, dist, text, 3, id, r);
    SingleEntryMiss(c, dist, text, DefaultThreshold, id, r);
  }
}
