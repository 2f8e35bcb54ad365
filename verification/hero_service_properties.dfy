/** Properties that relate several service calls: allocation sequences,
    round trips through the store, and the fresh-store behaviour of the
    counter. */
module HeroServiceProperties {
  import opened Results
  import opened DocStore
  import opened HeroService
  import Decimal

  /** The value the next allocation hands out. */
  function NextValue(s: Store): int
    requires CounterWellFormed(s)
  {
    CounterAfterAllocation(s).value.value
  }

  /** `n` allocations in a row, stopping at the first failure. */
  function Allocations(s: Store, n: nat): (r: (Result<seq<int>, StoreError>, Store))
    requires CounterWellFormed(s)
    ensures CounterWellFormed(r.1) && r.1.fault == s.fault
    ensures r.0.Failure? <==> n > 0 && s.fault.Some?
    ensures r.0.Success? ==> |r.0.value| == n
    ensures r.0.Success? ==> forall i :: 0 <= i < n ==> r.0.value[i] == NextValue(s) + i
    ensures r.0.Success? && n > 0 ==> NextValue(r.1) == NextValue(s) + n
    decreases n
  {
    if n == 0 then (Success([]), s)
    else
      var (got, s1) := GetId(s);
      match got
      case Failure(e) => (Failure(e), s1)
      case Success(counter) =>
        var (rest, s2) := Allocations(s1, n - 1);
        match rest
        case Failure(e) => (Failure(e), s2)
        case Success(values) => (Success([counter.fields.value.value] + values), s2)
  }

  /** Successive allocations against one store are strictly increasing, hence
      pairwise distinct. */
  lemma AllocationsStrictlyIncrease(s: Store, n: nat, i: nat, j: nat)
    requires CounterWellFormed(s)
    requires Allocations(s, n).0.Success?
    requires i < j < n
    ensures Allocations(s, n).0.value[i] < Allocations(s, n).0.value[j]
  {
  }

  /** An existing counter with value `v` makes the next allocation `v + 1`;
      a missing one makes it 2, never 1, because the retry increments the
      counter the 404 path has just written. */
  lemma GetIdValue(s: Store)
    requires CounterWellFormed(s) && s.fault.None?
    ensures GetId(s).0.Success?
    ensures SeqId in s.docs ==> GetId(s).0.value.fields.value == Some(s.docs[SeqId].value.value + 1)
    ensures SeqId !in s.docs ==> GetId(s).0.value.fields.value == Some(2)
    ensures SeqId in GetId(s).1.docs && GetId(s).1.docs[SeqId] == GetId(s).0.value.fields
    ensures forall id :: id != SeqId ==>
      (id in GetId(s).1.docs <==> id in s.docs)
      && (id in s.docs ==> GetId(s).1.docs[id] == s.docs[id])
  {
  }

  /** On a store without a counter the first hero gets id "2". */
  lemma FreshStoreFirstIdIsTwo(s: Store, hero: Doc)
    requires s.fault.None? && SeqId !in s.docs
    ensures AddHero(s, hero).0 == Success(Doc("2", hero.fields.(kind := Some(HeroKind))))
    ensures AddHero(s, hero).1.docs[SeqId].value == Some(2)
  {
  }

  /** `n` heroes added in a row, stopping at the first failure. */
  function AddHeroes(s: Store, heroes: seq<Doc>): (r: (Result<seq<Doc>, StoreError>, Store))
    requires CounterWellFormed(s)
    ensures CounterWellFormed(r.1) && r.1.fault == s.fault
    ensures r.0.Failure? <==> |heroes| > 0 && s.fault.Some?
    ensures r.0.Success? ==> Stamped(r.0.value, heroes) && NumberedFrom(r.0.value, NextValue(s))
    decreases |heroes|
  {
    if |heroes| == 0 then (Success([]), s)
    else
      var (got, s1) := AddHero(s, heroes[0]);
      if got.Failure? then (Failure(got.error), s1)
      else
        AddHeroStep(s, heroes[0]);
        var (rest, s2) := AddHeroes(s1, heroes[1..]);
        match rest
        case Failure(e) => (Failure(e), s2)
        case Success(others) =>
          ShiftedIds(NextValue(s), got.value, others, heroes);
          (Success([got.value] + others), s2)
  }

  /** The ids of `docs` render `first`, `first + 1`, ... in order. */
  predicate NumberedFrom(docs: seq<Doc>, first: int) {
    forall i :: 0 <= i < |docs| ==> docs[i].id == Decimal.IntToString(first + i)
  }

  /** `docs` are `heroes`, one for one, with `type` set to "hero". */
  predicate Stamped(docs: seq<Doc>, heroes: seq<Doc>) {
    && |docs| == |heroes|
    && forall i :: 0 <= i < |docs| ==> docs[i].fields == heroes[i].fields.(kind := Some(HeroKind))
  }

  /** Prepending the hero that took value `first` to the heroes that took
      the following values keeps the numbering. */
  lemma ShiftedIds(first: int, added: Doc, others: seq<Doc>, heroes: seq<Doc>)
    requires |heroes| > 0
    requires added.id == Decimal.IntToString(first)
    requires added.fields == heroes[0].fields.(kind := Some(HeroKind))
    requires NumberedFrom(others, first + 1) && Stamped(others, heroes[1..])
    ensures NumberedFrom([added] + others, first) && Stamped([added] + others, heroes)
  {
    var all := [added] + others;
    forall i | 0 <= i < |all|
      ensures all[i].id == Decimal.IntToString(first + i)
      ensures all[i].fields == heroes[i].fields.(kind := Some(HeroKind))
    {
      if i > 0 {
        var k := i - 1;
        assert all[i] == others[k] && heroes[i] == heroes[1..][k];
        assert others[k].id == Decimal.IntToString(first + 1 + k);
        assert first + 1 + k == first + i;
      }
    }
  }

  /** One successful `addHero` uses up exactly the value `NextValue` promised. */
  lemma AddHeroStep(s: Store, hero: Doc)
    requires CounterWellFormed(s)
    requires AddHero(s, hero).0.Success?
    ensures var (added, s1) := AddHero(s, hero);
      && added.value.id == Decimal.IntToString(NextValue(s))
      && added.value.fields == hero.fields.(kind := Some(HeroKind))
      && CounterWellFormed(s1) && s1.fault == s.fault
      && NextValue(s1) == NextValue(s) + 1
  {
  }

  /** Heroes added one after another never share an id. */
  lemma AddHeroesDistinctIds(s: Store, heroes: seq<Doc>)
    requires CounterWellFormed(s)
    requires AddHeroes(s, heroes).0.Success?
    ensures DistinctDocIds(AddHeroes(s, heroes).0.value)
  {
    NumberedDocsDistinct(AddHeroes(s, heroes).0.value, NextValue(s));
  }

  /** Documents numbered with consecutive values have pairwise distinct ids. */
  lemma NumberedDocsDistinct(docs: seq<Doc>, first: int)
    requires NumberedFrom(docs, first)
    ensures DistinctDocIds(docs)
  {
    forall i, j | 0 <= i < j < |docs|
      ensures docs[i].id != docs[j].id
    {
      assert docs[i].id == Decimal.IntToString(first + i);
      assert docs[j].id == Decimal.IntToString(first + j);
      Decimal.IntToStringInjective(first + i, first + j);
    }
  }

  /** Adding a hero and reading it back by the returned id yields the hero
      with only `_id` and `type` changed. */
  lemma AddThenGet(s: Store, hero: Doc)
    requires CounterWellFormed(s) && s.fault.None?
    ensures AddHero(s, hero).0.Success?
    ensures var (added, s1) := AddHero(s, hero);
      GetHero(s1, added.value.id).0 == Some(Doc(added.value.id, hero.fields.(kind := Some(HeroKind))))
  {
  }

  /** After a successful delete the id reads back as the `undefined` fallback. */
  lemma DeleteThenGet(s: Store, target: HeroOrId)
    requires DeleteHero(s, target).0.Some?
    ensures GetHero(DeleteHero(s, target).1, ResolveId(target)).0 == None
  {
  }

  /** Deleting any document but the counter leaves the next allocation where
      it was, and adding a hero moves it on by one, so ids keep increasing
      across these operations. */
  lemma NextValueAcrossOperations(s: Store, target: HeroOrId, hero: Doc)
    requires CounterWellFormed(s)
    requires ResolveId(target) != SeqId
    ensures CounterWellFormed(DeleteHero(s, target).1)
    ensures NextValue(DeleteHero(s, target).1) == NextValue(s)
    ensures AddHero(s, hero).0.Success? ==>
      CounterWellFormed(AddHero(s, hero).1) && NextValue(AddHero(s, hero).1) == NextValue(s) + 1
  {
  }

  /** Deleting the counter itself restarts the sequence: after one hero got
      "2", deleting "seq" lets the next hero get "2" again, and its write
      replaces the first hero. */
  lemma DeletingCounterRepeatsId(first: Doc, second: Doc)
    ensures var s0 := Store(map[], {}, None, []);
      var (a, s1) := AddHero(s0, first);
      var (deleted, s2) := DeleteHero(s1, ById(SeqId));
      var (b, s3) := AddHero(s2, second);
      && a.Success? && b.Success?
      && deleted == Some(Ack(SeqId))
      && a.value.id == "2" && b.value.id == "2"
      && s3.docs["2"] == second.fields.(kind := Some(HeroKind))
  {
  }

  /** Updating a hero and reading it back yields exactly the written document. */
  lemma UpdateThenGet(s: Store, hero: Doc)
    requires s.fault.None?
    ensures UpdateHero(s, hero).0 == Some(Ack(hero.id))
    ensures GetHero(UpdateHero(s, hero).1, hero.id).0 == Some(hero)
  {
  }

  /** `getHero` does not filter the counter: reading "seq" returns it. */
  lemma GetHeroExposesCounter(s: Store)
    requires s.fault.None? && SeqId in s.docs
    ensures GetHero(s, SeqId).0 == Some(Doc(SeqId, s.docs[SeqId]))
  {
  }

  /** Declaring the indexes twice succeeds both times; the second run finds
      both indexes present and changes nothing. */
  lemma EnsureIndexesIdempotent(s: Store)
    requires s.fault.None?
    ensures var (first, s1) := EnsureIndexes(s);
      var (second, s2) := EnsureIndexes(s1);
      && first.Success? && second.Success?
      && second.value == [Exists, Exists]
      && s2.indexes == s1.indexes && s2.docs == s1.docs
  {
  }

  /** From an empty store: adding "Spark" then "Glow" hands out "2" and "3";
      deleting "2" then reading it yields the fallback. */
  lemma FreshStoreScenario()
    ensures var s0 := Store(map[], {}, None, []);
      var (spark, s1) := AddHero(s0, Doc("", Fields(None, Some("Spark"), None)));
      var (glow, s2) := AddHero(s1, Doc("", Fields(None, Some("Glow"), None)));
      var (deleted, s3) := DeleteHero(s2, ById("2"));
      && spark == Success(Doc("2", Fields(Some(HeroKind), Some("Spark"), None)))
      && glow == Success(Doc("3", Fields(Some(HeroKind), Some("Glow"), None)))
      && deleted == Some(Ack("2"))
      && GetHero(s3, "2").0 == None
      && GetHero(s3, "3").0 == Some(Doc("3", Fields(Some(HeroKind), Some("Glow"), None)))
  {
  }
}
