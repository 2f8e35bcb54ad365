/** The hero service: the id-sequence allocator on the reserved `"seq"`
    document and the record operations built on it, each a pure function
    (or, where the store's `find` is involved, a method) from a store to a
    result and the next store. Writes the source issues without awaiting
    them take effect at once. */
module HeroService {
  import opened Results
  import opened DocStore
  import Decimal
  import JsString

  /** Reserved id of the counter document. */
  const SeqId: string := "seq"

  /** The `type` stamped on every hero. */
  const HeroKind: string := "hero"

  /** The counter document written when none exists yet. */
  const InitialCounter: Doc := Doc(SeqId, Fields(None, None, Some(1)))

  /** A listing entry: the `{name, _id}` projection of a stored document. */
  datatype Hero = Hero(name: Option<string>, id: string)

  /** `deleteHero`'s argument: a bare id or a hero object. */
  datatype HeroOrId = ById(id: string) | ByHero(hero: Doc)

  /** The counter document, when present, carries a number. */
  predicate CounterWellFormed(s: Store) {
    SeqId in s.docs ==> s.docs[SeqId].value.Some?
  }

  /** The counter fields one allocation leaves behind, as a separate statement
      of the protocol's outcome: an existing counter is incremented with its
      other fields kept, and a missing one is created at 1 and then
      incremented by the retry, ending at 2. */
  function CounterAfterAllocation(s: Store): Fields
    requires CounterWellFormed(s)
  {
    if SeqId in s.docs then s.docs[SeqId].(value := Some(s.docs[SeqId].value.value + 1))
    else Fields(None, None, Some(2))
  }

  /** `handleError(operation, result)`: a failure is replaced by the fallback
      `result` (`None` when the caller gives none, i.e. `undefined`); a
      success passes through. Logging is not modelled. */
  function HandleError<T>(r: Result<T, StoreError>, fallback: Option<T>): (o: Option<T>)
    ensures r.Success? ==> o == Some(r.value)
    ensures r.Failure? ==> o == fallback
  {
    match r
    case Success(v) => Some(v)
    case Failure(_) => fallback
  }

  /** `getId()`: read the counter; if it exists, increment, write back and
      return it; if the read fails with 404, write a counter at 1 and retry;
      pass any other failure on. The retry happens at most once, visible in
      the calls made to the store. */
  function GetId(s: Store): (r: (Result<Doc, StoreError>, Store))
    requires CounterWellFormed(s)
    ensures r.1.fault == s.fault && r.1.indexes == s.indexes
    ensures s.fault.Some? ==>
      && r.0 == Failure(s.fault.value)
      && r.1.docs == s.docs
      && r.1.calls == s.calls + [GetCall(SeqId)]
    ensures s.fault.None? ==>
      && r.0 == Success(Doc(SeqId, CounterAfterAllocation(s)))
      && r.1.docs == s.docs[SeqId := CounterAfterAllocation(s)]
    ensures s.fault.None? && SeqId in s.docs ==>
      r.1.calls == s.calls + [GetCall(SeqId), PutCall(r.0.value)]
    ensures s.fault.None? && SeqId !in s.docs ==>
      r.1.calls == s.calls + [GetCall(SeqId), PutCall(InitialCounter), GetCall(SeqId), PutCall(r.0.value)]
    decreases if SeqId in s.docs || s.fault.Some? then 0 else 1
  {
    var (got, s1) := Get(s, SeqId);
    match got
    case Success(counter) =>
      var next := Doc(SeqId, counter.fields.(value := Some(counter.fields.value.value + 1)));
      (Success(next), Put(s1, next).1)
    case Failure(e) =>
      if e.status == 404 then GetId(Put(s1, InitialCounter).1)
      else (Failure(e), s1)
  }

  /** `addHero(hero)`: allocate a value, set `_id` to its decimal string and
      `type` to "hero", store the hero and return it. A failed allocation is
      passed on: no fallback applies here. */
  function AddHero(s: Store, hero: Doc): (r: (Result<Doc, StoreError>, Store))
    requires CounterWellFormed(s)
    ensures r.1.fault == s.fault && r.1.indexes == s.indexes
    ensures r.0.Failure? <==> s.fault.Some?
    ensures r.0.Failure? ==> r.0.error == s.fault.value && r.1.docs == s.docs
    ensures r.0.Success? ==>
      var added := r.0.value;
      && CounterAfterAllocation(s).value.Some?
      && added.id == Decimal.IntToString(CounterAfterAllocation(s).value.value)
      && added.id != SeqId
      && added.fields == hero.fields.(kind := Some(HeroKind))
      && r.1.docs == s.docs[SeqId := CounterAfterAllocation(s)][added.id := added.fields]
      && r.1.calls == GetId(s).1.calls + [PutCall(added)]
  {
    var (got, s1) := GetId(s);
    match got
    case Failure(e) => (Failure(e), s1)
    case Success(counter) =>
      var added := Doc(Decimal.IntToString(counter.fields.value.value), hero.fields.(kind := Some(HeroKind)));
      assert added.id[0] != 's';
      (Success(added), Put(s1, added).1)
  }

  /** `getHero(id)`: the stored document, or the `undefined` fallback on any
      failure, a missing id included. */
  function GetHero(s: Store, id: string): (r: (Option<Doc>, Store))
    ensures r.1 == Called(s, GetCall(id))
    ensures r.0.Some? <==> s.fault.None? && id in s.docs
    ensures r.0.Some? ==> r.0.value == Doc(id, s.docs[id])
  {
    var (got, s1) := Get(s, id);
    (HandleError(got, None), s1)
  }

  /** `updateHero(hero)`: write the hero in place; the store's acknowledgement,
      or the `undefined` fallback on failure. */
  function UpdateHero(s: Store, hero: Doc): (r: (Option<Ack>, Store))
    ensures r.1.calls == s.calls + [PutCall(hero)]
    ensures r.1.fault == s.fault && r.1.indexes == s.indexes
    ensures r.0.Some? <==> s.fault.None?
    ensures r.0.Some? ==> r.0.value == Ack(hero.id) && r.1.docs == s.docs[hero.id := hero.fields]
    ensures r.0.None? ==> r.1.docs == s.docs
  {
    var (put, s1) := Put(s, hero);
    (HandleError(put, None), s1)
  }

  /** The id `deleteHero` works on: the argument itself when it is a string,
      its `_id` otherwise. */
  function ResolveId(target: HeroOrId): string {
    match target
    case ById(id) => id
    case ByHero(hero) => hero.id
  }

  /** `deleteHero(hero | id)`: read the document, then remove it; the
      removal acknowledgement, or the `undefined` fallback when either step
      fails. */
  function DeleteHero(s: Store, target: HeroOrId): (r: (Option<Ack>, Store))
    ensures r.1.fault == s.fault && r.1.indexes == s.indexes
    ensures r.0.Some? <==> s.fault.None? && ResolveId(target) in s.docs
    ensures r.0.Some? ==> r.0.value == Ack(ResolveId(target))
    ensures r.1.docs == if s.fault.None? then s.docs - {ResolveId(target)} else s.docs
    ensures r.1.calls == s.calls + [GetCall(ResolveId(target))]
                        + (if r.0.Some? then [RemoveCall(ResolveId(target))] else [])
  {
    var id := ResolveId(target);
    var (got, s1) := Get(s, id);
    match got
    case Failure(e) => (HandleError<Ack>(Failure(e), None), s1)
    case Success(doc) =>
      var (removed, s2) := Remove(s1, doc);
      (HandleError(removed, None), s2)
  }

  /** The `{name, _id}` projection pushed for each listed document. */
  function Summary(d: Doc): Hero {
    Hero(d.fields.name, d.id)
  }

  /** The `forEach` filter shared by `getHeroes` and `searchHeroes`: drop the
      counter document, project the rest, keep the order. */
  function Summaries(docs: seq<Doc>): (heroes: seq<Hero>)
    ensures |heroes| <= |docs|
    ensures forall i :: 0 <= i < |heroes| ==> heroes[i].id != SeqId
    ensures forall h :: h in heroes <==> exists d :: d in docs && d.id != SeqId && Summary(d) == h
  {
    if |docs| == 0 then []
    else
      var rest := Summaries(docs[1..]);
      assert forall d :: d in docs[1..] ==> d in docs;
      if docs[0].id != SeqId then [Summary(docs[0])] + rest else rest
  }

  /** The filter works document by document, so it keeps the query's order:
      filtering a concatenation concatenates the filtered parts. */
  lemma {:induction false} SummariesAppend(a: seq<Doc>, b: seq<Doc>)
    ensures Summaries(a + b) == Summaries(a) + Summaries(b)
    decreases |a|
  {
    if |a| > 0 {
      assert (a + b)[1..] == a[1..] + b;
      SummariesAppend(a[1..], b);
    } else {
      assert a + b == b;
    }
  }

  /** Without the counter among them, every document is listed, in order. */
  lemma {:induction false} SummariesWithoutCounter(docs: seq<Doc>)
    requires forall i :: 0 <= i < |docs| ==> docs[i].id != SeqId
    ensures |Summaries(docs)| == |docs|
    ensures forall i :: 0 <= i < |docs| ==> Summaries(docs)[i] == Summary(docs[i])
    decreases |docs|
  {
    if |docs| > 0 {
      SummariesWithoutCounter(docs[1..]);
    }
  }

  predicate DistinctDocIds(docs: seq<Doc>) {
    forall i, j :: 0 <= i < j < |docs| ==> docs[i].id != docs[j].id
  }

  predicate DistinctHeroIds(heroes: seq<Hero>) {
    forall i, j :: 0 <= i < j < |heroes| ==> heroes[i].id != heroes[j].id
  }

  /** Documents with distinct ids give heroes with distinct ids. */
  lemma {:induction false} SummariesDistinct(docs: seq<Doc>)
    requires DistinctDocIds(docs)
    ensures DistinctHeroIds(Summaries(docs))
    decreases |docs|
  {
    if |docs| > 0 {
      var rest := Summaries(docs[1..]);
      assert DistinctDocIds(docs[1..]);
      SummariesDistinct(docs[1..]);
      if docs[0].id != SeqId {
        forall h | h in rest
          ensures h.id != docs[0].id
        {
          var d :| d in docs[1..] && d.id != SeqId && Summary(d) == h;
          var k :| 0 <= k < |docs[1..]| && docs[1..][k] == d;
          assert docs[k + 1] == d;
        }
        var heroes := Summaries(docs);
        assert heroes == [Summary(docs[0])] + rest;
        forall i, j | 0 <= i < j < |heroes|
          ensures heroes[i].id != heroes[j].id
        {
          if i == 0 {
            assert heroes[j] == rest[j - 1];
            assert rest[j - 1] in rest;
          } else {
            assert heroes[i] == rest[i - 1] && heroes[j] == rest[j - 1];
          }
        }
      }
    }
  }

  /** `heroes` lists, once each, exactly the non-counter documents of `docs`
      the selector picks, projected to `{name, _id}`. */
  ghost predicate Lists(
    docs: map<string, Fields>, sel: Selector, regexTest: (string, string) -> bool, heroes: seq<Hero>)
  {
    && (forall i :: 0 <= i < |heroes| ==>
          && heroes[i].id != SeqId
          && heroes[i].id in docs
          && Selects(sel, docs[heroes[i].id], regexTest)
          && heroes[i].name == docs[heroes[i].id].name)
    && (forall id :: id in docs && id != SeqId && Selects(sel, docs[id], regexTest) ==>
          exists i :: 0 <= i < |heroes| && heroes[i].id == id)
    && DistinctHeroIds(heroes)
  }

  /** The filter turns any query result into the listing of what it queried. */
  lemma SummariesOfQuery(
    docs: map<string, Fields>, sel: Selector, regexTest: (string, string) -> bool, found: seq<Doc>)
    requires QueryResult(docs, sel, regexTest, found)
    ensures Lists(docs, sel, regexTest, Summaries(found))
  {
    var heroes := Summaries(found);
    SummariesDistinct(found);
    forall i | 0 <= i < |heroes|
      ensures heroes[i].id in docs && Selects(sel, docs[heroes[i].id], regexTest)
      ensures heroes[i].name == docs[heroes[i].id].name
    {
      assert heroes[i] in heroes;
      var d :| d in found && d.id != SeqId && Summary(d) == heroes[i];
      var k :| 0 <= k < |found| && found[k] == d;
    }
    forall id | id in docs && id != SeqId && Selects(sel, docs[id], regexTest)
      ensures exists i :: 0 <= i < |heroes| && heroes[i].id == id
    {
      var k :| 0 <= k < |found| && found[k].id == id;
      assert found[k] in found;
      var h := Summary(found[k]);
      assert h in heroes;
      var i :| 0 <= i < |heroes| && heroes[i] == h;
    }
  }

  /** No regular expression: the listing selector has no name term. */
  function NoRegex(term: string, name: string): bool {
    false
  }

  const HeroSelector: Selector := Selector(HeroKind, None)

  /** `getHeroes()`: every hero document except the counter, projected to
      `{name, _id}`; a failed query is logged and yields `undefined`. */
  method GetHeroes(s: Store) returns (heroes: Option<seq<Hero>>, s': Store)
    ensures s' == Called(s, FindCall(HeroSelector))
    ensures heroes.None? <==> s.fault.Some?
    ensures heroes.Some? ==> Lists(s.docs, HeroSelector, NoRegex, heroes.value)
  {
    var found;
    found, s' := Find(s, HeroSelector, NoRegex);
    match found
    case Failure(_) =>
      heroes := None;
    case Success(docs) =>
      SummariesOfQuery(s.docs, HeroSelector, NoRegex, docs);
      heroes := Some(Summaries(docs));
  }

  /** The selector `searchHeroes` queries with. */
  function SearchSelector(term: string): Selector {
    Selector(HeroKind, Some(term))
  }

  /** `searchHeroes(term)`: a blank term yields `[]` without any call to the
      store; otherwise the hero documents whose name matches the term,
      except the counter, projected to `{name, _id}`, and `[]` on failure. */
  method SearchHeroes(s: Store, term: string, regexTest: (string, string) -> bool)
    returns (heroes: seq<Hero>, s': Store)
    ensures JsString.IsBlank(term) ==> heroes == [] && s' == s
    ensures !JsString.IsBlank(term) ==> s' == Called(s, FindCall(SearchSelector(term)))
    ensures !JsString.IsBlank(term) && s.fault.Some? ==> heroes == []
    ensures !JsString.IsBlank(term) && s.fault.None? ==>
      Lists(s.docs, SearchSelector(term), regexTest, heroes)
    ensures forall i :: 0 <= i < |heroes| ==> heroes[i].id != SeqId
  {
    if JsString.IsBlank(term) {
      return [], s;
    }
    var found;
    found, s' := Find(s, SearchSelector(term), regexTest);
    var listed: Result<seq<Hero>, StoreError>;
    match found {
      case Failure(e) =>
        listed := Failure(e);
      case Success(docs) =>
        SummariesOfQuery(s.docs, SearchSelector(term), regexTest, docs);
        listed := Success(Summaries(docs));
    }
    heroes := HandleError(listed, Some([])).value;
  }

  const TypeIndex: seq<string> := ["type"]
  const TypeAndNameIndex: seq<string> := ["type", "name"]

  /** `ensureIndexes()`: declare the `type` and `type`+`name` indexes; the
      two declarations are issued together and fail together. */
  function EnsureIndexes(s: Store): (r: (Result<seq<IndexResult>, StoreError>, Store))
    ensures r.1.docs == s.docs && r.1.fault == s.fault
    ensures r.1.calls == s.calls + [CreateIndexCall(TypeIndex), CreateIndexCall(TypeAndNameIndex)]
    ensures r.0.Success? <==> s.fault.None?
    ensures r.0.Success? ==> r.1.indexes == s.indexes + {TypeIndex, TypeAndNameIndex}
    ensures r.0.Success? ==>
      && |r.0.value| == 2
      && (r.0.value[0] == Exists <==> TypeIndex in s.indexes)
      && (r.0.value[1] == Exists <==> TypeAndNameIndex in s.indexes)
    ensures r.0.Failure? ==> r.0.error == s.fault.value && r.1.indexes == s.indexes
  {
    var (first, s1) := CreateIndex(s, TypeIndex);
    var (second, s2) := CreateIndex(s1, TypeAndNameIndex);
    match (first, second)
    case (Success(a), Success(b)) => (Success([a, b]), s2)
    case (Failure(e), _) => (Failure(e), s2)
    case (_, Failure(e)) => (Failure(e), s2)
  }
}
