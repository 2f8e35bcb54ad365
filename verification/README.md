# Hero service id allocator and record operations

This project models the data-access core of the Tour of Heroes service backed
by PouchDB (`src/app/hero.service.ts`). The service keeps heroes in a local
document store that has no auto-increment. It mints ids from a reserved
counter document with id `"seq"`, and it lists, searches, reads, updates and
deletes hero documents. Failures are replaced by fallback values in some
operations and passed on in others.

The store is an immutable value (`DocStore.Store`):

- a map from document id to fields: `type`, `name` and the counter's `value`, each optional;
- the set of declared indexes;
- an optional fault;
- a log of every primitive call made to it.

A healthy store answers `get` and `remove` of a missing id with status 404 and
succeeds otherwise. A store carrying a fault fails every primitive with that
fault, and its status is never 404. The call log makes two things observable:
that the blank-term search never touches the store, and that the 404 path
retries exactly once when its write of the new counter succeeds.

Modules:

- `Results`: `Option` (a value or `undefined`) and `Result` (a resolved or rejected promise).
- `Decimal`: `Number.prototype.toString` for integers, with its inverse.
- `JsString`: `String.prototype.trim` with ECMAScript's whitespace set, and the blank-term test.
- `DocStore`: the store and its primitives `get`, `put`, `remove`, `createIndex` and `find`.
- `HeroService`: `getId`, `addHero`, `getHero`, `updateHero`, `deleteHero`, `getHeroes`, `searchHeroes`, `ensureIndexes` and `handleError`.
- `HeroServiceProperties`: properties that span several calls.

Writes the source does not await (lines 48, 52 and 93) take effect at once.
Under that reading the 404 path writes a counter at 1, and the retry then
increments it to 2. So on a store without a counter the first hero gets id
`"2"`, and the value 1 is never handed out. A reader might expect the first
id to be `"1"`; `FreshStoreFirstIdIsTwo` and `FreshStoreScenario` state the
`"2"` the code hands out.

## Model

| member | source | states |
|---|---|---|
| `HeroService.GetId` | src/app/hero.service.ts:44-62 | A counter with value v becomes v+1 and is returned, and no other document changes. A missing counter is written at 1 and read again exactly once, and ends at 2. Any other failure rejects with that error after one read, and no document changes. Each case fixes the exact sequence of store calls. |
| `HeroServiceProperties.GetIdValue` | src/app/hero.service.ts:46-53 | On a healthy store allocation always succeeds. It returns v+1 for a counter at v and 2 for a missing counter. It writes that counter back, and every other document keeps its presence and fields. |
| `HeroServiceProperties.FreshStoreFirstIdIsTwo` | src/app/hero.service.ts:51-53 | On a store without a counter, the first hero added gets id "2" and the counter ends at 2. |
| `HeroServiceProperties.Allocations` | src/app/hero.service.ts:46-49 | n allocations in a row return the values NextValue, NextValue+1, … in order, and the next allocation moves on by n. They fail exactly when n > 0 and the store is faulted. |
| `HeroServiceProperties.AllocationsStrictlyIncrease` | src/app/hero.service.ts:46-49 | Values from successive allocations strictly increase. |
| `HeroService.AddHero` | src/app/hero.service.ts:89-95 | The hero is returned and stored with `_id` set to the decimal string of the allocated value and `type` set to "hero", and its other fields are kept. The id is never "seq". Apart from the counter, the hero is the only document that changes. A failed allocation is passed on as a rejection and nothing is written. |
| `HeroServiceProperties.AddHeroStep` | src/app/hero.service.ts:89-94 | A successful add uses exactly the value the counter promised and advances the counter by one. |
| `HeroServiceProperties.AddHeroes` | src/app/hero.service.ts:89-94 | Heroes added one after another get ids "NextValue", "NextValue+1", … and keep their fields with `type` "hero". |
| `HeroServiceProperties.AddHeroesDistinctIds` | src/app/hero.service.ts:91 | Heroes added one after another never share an id. |
| `HeroServiceProperties.NumberedDocsDistinct` | src/app/hero.service.ts:91 | Documents whose ids render consecutive integers have pairwise distinct ids. |
| `HeroServiceProperties.AddThenGet` | src/app/hero.service.ts:89-94 | Reading back the id `addHero` returned yields the input hero with only `_id` and `type` changed. |
| `HeroServiceProperties.NextValueAcrossOperations` | src/app/hero.service.ts:89-106 | Deleting any id other than "seq" leaves the next allocated value unchanged. Adding a hero raises it by exactly one. So ids keep increasing across these operations. |
| `HeroService.GetHero` | src/app/hero.service.ts:63-72 | Returns the stored document when the id exists and the store is healthy. Otherwise it returns the `undefined` fallback and never rejects. |
| `HeroServiceProperties.DeletingCounterRepeatsId` | src/app/hero.service.ts:44-53 | After one hero got "2", deleting "seq" makes the next hero get "2" again, and the second write replaces the first hero. |
| `HeroServiceProperties.UpdateThenGet` | src/app/hero.service.ts:74-81 | On a healthy store an update is acknowledged with the hero's id, and reading that id back yields exactly the written document. |
| `HeroServiceProperties.GetHeroExposesCounter` | src/app/hero.service.ts:66-69 | `getHero` does not filter the counter: reading "seq" returns the counter document. |
| `HeroService.UpdateHero` | src/app/hero.service.ts:74-81 | On a healthy store the hero overwrites the document under its id, and the result is the store's acknowledgement. On a faulted store the result is `undefined` and nothing changes. |
| `HeroService.DeleteHero` | src/app/hero.service.ts:100-114 | The id is the argument itself or the hero's `_id`. The store reads that id and removes it only if the read succeeds. The result is an acknowledgement exactly when the id existed on a healthy store, and `undefined` otherwise. Only that document disappears. |
| `HeroServiceProperties.DeleteThenGet` | src/app/hero.service.ts:104-106 | After a successful delete, reading the same id yields the `undefined` fallback. |
| `HeroService.HandleError` | src/app/hero.service.ts:184-196 | A failure becomes the supplied fallback, which is `undefined` when none is given. A success passes through unchanged. |
| `HeroService.Summaries` | src/app/hero.service.ts:31-34 | The filter never outputs the counter, and its output is no longer than its input. A hero is in the output exactly when it is the `{name, _id}` projection of an input document whose id is not "seq". |
| `HeroService.SummariesAppend` | src/app/hero.service.ts:31-34 | Filtering a concatenation gives the concatenation of the filtered parts, so the listing keeps the query's order. |
| `HeroService.SummariesWithoutCounter` | src/app/hero.service.ts:31-34 | When no document is the counter, each document is listed at its own position as its `{name, _id}` projection. |
| `HeroService.SummariesDistinct` | src/app/hero.service.ts:31-34 | Input documents with distinct ids give output heroes with distinct ids. |
| `HeroService.SummariesOfQuery` | src/app/hero.service.ts:28-36 | Filtering a complete query result yields the listing of the store: every selected non-counter document exactly once, with its name, and nothing else. |
| `HeroService.GetHeroes` | src/app/hero.service.ts:24-41 | Issues one `find` for `type == "hero"` and changes no document. It lists each hero document except "seq" exactly once, projected to `{name, _id}`. A failed query yields `undefined` instead of a list. |
| `HeroService.SearchHeroes` | src/app/hero.service.ts:116-151 | A blank term yields `[]` and leaves the store identical, with no call made. Any other term issues one `find` for `type == "hero"` and a name matching the term, and lists the matching hero documents except "seq". A failed query yields the fallback `[]`. The result never contains "seq". |
| `DocStore.Find` | src/app/hero.service.ts:28-30 | The query result lists every document the selector picks exactly once, and nothing else. |
| `HeroService.EnsureIndexes` | src/app/hero.service.ts:152-171 | Declares the `type` index and the `type`+`name` index, in one call each. Both are then present, and each reports whether it already existed. On a faulted store the declaration fails and no index is added. |
| `HeroServiceProperties.EnsureIndexesIdempotent` | src/app/hero.service.ts:166-171 | Declaring the indexes twice succeeds both times. The second run finds both present and changes nothing. |
| `HeroServiceProperties.FreshStoreScenario` | src/app/hero.service.ts:89-114 | From an empty store, adding "Spark" then "Glow" gives ids "2" and "3". Deleting "2" succeeds, "2" then reads as `undefined`, and "3" is still there. |
| `JsString.TrimStart` | src/app/hero.service.ts:117 | The result is a suffix of the input and starts with a non-whitespace character. Everything dropped is whitespace. |
| `JsString.TrimEnd` | src/app/hero.service.ts:117 | The result is a prefix of the input and ends with a non-whitespace character. Everything dropped is whitespace. |
| `JsString.BlankIffAllWhitespace` | src/app/hero.service.ts:117-120 | `!term.trim()` holds exactly when every character of the term is whitespace, including for the empty term. |
| `Decimal.NatToString` | src/app/hero.service.ts:91 | Renders a non-negative integer as a non-empty string of decimal digits with no leading zero. |
| `Decimal.IntToString` | src/app/hero.service.ts:91 | The rendering starts with a minus sign or a digit, so it is never "seq". |
| `Decimal.ParseIntToString` | src/app/hero.service.ts:91 | Reading back the decimal rendering of any integer yields that integer. |
| `Decimal.IntToStringInjective` | src/app/hero.service.ts:91 | Two integers render the same exactly when they are equal. |

## Left out

- Asynchrony: the unawaited `put` calls at lines 48, 52 and 93 take effect before the next store call. Racing allocations and a `get` that overtakes the `put` at line 52 are out of scope. So are the duplicate ids such races can cause.
- Failure model: a store is either healthy or fails every call with one fault. Mixed outcomes within one operation cannot be expressed. Two such cases matter:
  - A `get` that succeeds followed by a `put` that fails (line 48). The source then returns a value without persisting it.
  - A failed `put` of the new counter at line 52. The source then reads 404 again and retries without bound. The model's bound of one retry holds only because a healthy store's `put` always succeeds.
- `HeroService.AddHero`: returns a new document and leaves the argument alone. The source writes `_id` and `type` into the caller's hero object in place (lines 91-92).
- Revisions and conflicts: `put` inserts or overwrites, and `remove` ignores `_rev`. PouchDB would reject a `put` without the current revision, for example `addHero` writing over an existing document with the same id.
- `HeroService.GetId`: requires that a counter document, if present, carries a number. Without one the source increments `undefined` to `NaN` and would hand out the id "NaN". The service itself never writes such a counter; only `updateHero` on "seq" could.
- `HeroService.AddHero`: has the same requirement on the counter document as `GetId`.
- JavaScript numbers: counter values are unbounded integers. The model leaves out precision loss above 2^53 and the exponent notation `toString` uses from 1e21 up.
- Regular expressions: `RegExp(term, "i")` at line 124 is the parameter `regexTest(term, name)`. Case folding is not modelled. A term that is not a valid pattern makes `RegExp` throw before any store call; that is not modelled either.
- Query order: `find` returns documents in an order the engine chooses. The model walks the ids in an arbitrary order. The listing keeps that order, as `SummariesAppend` and `SummariesWithoutCounter` state.
- Logging: `messageService.add`, `console.error`, `console.warn` and the `warning` field of `find` results at lines 126-128 are side effects with no effect on results.
- Framework code: the rxjs wrappers (`from`, `of`, `pipe`, `map`, `tap`, `catchError`) are left out. So are the Angular decorator, the unused `HttpClient`, and the constructor's `isInstantiated` flag that opens the database and declares the indexes (lines 198-206).
