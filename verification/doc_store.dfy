/** The abstract document store the service talks to: PouchDB's `get`,
    `put`, `remove`, `find` and `createIndex`, as pure operations on an
    immutable value. Revisions, conflicts and persistence are not modelled.

    A store is either healthy, in which case every primitive succeeds except
    `get`/`remove` of a missing id (status 404), or it carries a `fault`, in
    which case every primitive fails with that fault. Every primitive appends
    what it was asked to `calls`, so a caller's use of the store is visible. */
module DocStore {
  import opened Results

  /** The fields of a stored document other than `_id`: the `type`
      discriminator, a hero `name` and the counter `value`, each possibly
      absent. */
  datatype Fields = Fields(kind: Option<string>, name: Option<string>, value: Option<int>)

  /** A document as `get` and `find` hand it out: its `_id` and its fields. */
  datatype Doc = Doc(id: string, fields: Fields)

  /** A rejected store call: an HTTP-like `status` and a `message`. */
  datatype StoreError = StoreError(status: int, message: string)

  const NotFound: StoreError := StoreError(404, "missing")

  /** A failure that is not a missing document. */
  type Fault = e: StoreError | e.status != 404 witness StoreError(500, "unknown_error")

  /** A `find` selector: `type` equals `kind` and, when `nameTerm` is present,
      `name` matches it as a regular expression. */
  datatype Selector = Selector(kind: string, nameTerm: Option<string>)

  /** What `put` and `remove` resolve with. */
  datatype Ack = Ack(id: string)

  /** What `createIndex` resolves with. */
  datatype IndexResult = Created | Exists

  datatype Call =
    | GetCall(id: string)
    | PutCall(doc: Doc)
    | RemoveCall(id: string)
    | FindCall(selector: Selector)
    | CreateIndexCall(fields: seq<string>)

  datatype Store = Store(
    docs: map<string, Fields>,
    indexes: set<seq<string>>,
    fault: Option<Fault>,
    calls: seq<Call>)

  /** The store after being asked `c`, before any effect of `c`. */
  function Called(s: Store, c: Call): (s': Store)
    ensures s'.docs == s.docs && s'.indexes == s.indexes && s'.fault == s.fault
    ensures s'.calls == s.calls + [c]
  {
    s.(calls := s.calls + [c])
  }

  function Get(s: Store, id: string): (r: (Result<Doc, StoreError>, Store))
    ensures r.1 == Called(s, GetCall(id))
    ensures r.0.Success? <==> s.fault.None? && id in s.docs
    ensures r.0.Success? ==> r.0.value == Doc(id, s.docs[id])
    ensures s.fault.Some? ==> r.0 == Failure(s.fault.value)
    ensures s.fault.None? && id !in s.docs ==> r.0 == Failure(NotFound)
  {
    var s' := Called(s, GetCall(id));
    if s.fault.Some? then (Failure(s.fault.value), s')
    else if id in s.docs then (Success(Doc(id, s.docs[id])), s')
    else (Failure(NotFound), s')
  }

  /** Inserts or overwrites the document under its id. */
  function Put(s: Store, d: Doc): (r: (Result<Ack, StoreError>, Store))
    ensures r.1.calls == s.calls + [PutCall(d)]
    ensures r.1.indexes == s.indexes && r.1.fault == s.fault
    ensures r.0.Success? <==> s.fault.None?
    ensures r.0.Success? ==> r.0.value == Ack(d.id) && r.1.docs == s.docs[d.id := d.fields]
    ensures r.0.Failure? ==> r.0.error == s.fault.value && r.1.docs == s.docs
  {
    var s' := Called(s, PutCall(d));
    if s.fault.Some? then (Failure(s.fault.value), s')
    else (Success(Ack(d.id)), s'.(docs := s.docs[d.id := d.fields]))
  }

  /** Deletes the document with the given document's id. */
  function Remove(s: Store, d: Doc): (r: (Result<Ack, StoreError>, Store))
    ensures r.1.calls == s.calls + [RemoveCall(d.id)]
    ensures r.1.indexes == s.indexes && r.1.fault == s.fault
    ensures r.0.Success? <==> s.fault.None? && d.id in s.docs
    ensures r.0.Success? ==> r.0.value == Ack(d.id)
    ensures r.1.docs == if r.0.Success? then s.docs - {d.id} else s.docs
  {
    var s' := Called(s, RemoveCall(d.id));
    if s.fault.Some? then (Failure(s.fault.value), s')
    else if d.id in s.docs then (Success(Ack(d.id)), s'.(docs := s.docs - {d.id}))
    else (Failure(NotFound), s')
  }

  /** Declares an index on `fields`; declaring an existing one changes nothing. */
  function CreateIndex(s: Store, fields: seq<string>): (r: (Result<IndexResult, StoreError>, Store))
    ensures r.1.calls == s.calls + [CreateIndexCall(fields)]
    ensures r.1.docs == s.docs && r.1.fault == s.fault
    ensures r.0.Success? <==> s.fault.None?
    ensures r.0.Success? ==> r.1.indexes == s.indexes + {fields}
    ensures r.0.Success? ==> (r.0.value == Exists <==> fields in s.indexes)
    ensures r.0.Failure? ==> r.1.indexes == s.indexes
  {
    var s' := Called(s, CreateIndexCall(fields));
    if s.fault.Some? then (Failure(s.fault.value), s')
    else if fields in s.indexes then (Success(Exists), s')
    else (Success(Created), s'.(indexes := s.indexes + {fields}))
  }

  /** Whether a document's fields satisfy a selector; `regexTest(term, name)`
      stands for `RegExp(term, "i").test(name)`. A missing `name` never matches. */
  predicate Selects(sel: Selector, f: Fields, regexTest: (string, string) -> bool) {
    && f.kind == Some(sel.kind)
    && (sel.nameTerm.Some? ==> f.name.Some? && regexTest(sel.nameTerm.value, f.name.value))
  }

  /** `found` lists every selected document of `docs` exactly once, and
      nothing else, in some order. */
  ghost predicate QueryResult(
    docs: map<string, Fields>, sel: Selector, regexTest: (string, string) -> bool, found: seq<Doc>)
  {
    && (forall i :: 0 <= i < |found| ==>
          found[i].id in docs && docs[found[i].id] == found[i].fields
          && Selects(sel, found[i].fields, regexTest))
    && (forall id :: id in docs && Selects(sel, docs[id], regexTest) ==>
          exists i :: 0 <= i < |found| && found[i].id == id)
    && (forall i, j :: 0 <= i < j < |found| ==> found[i].id != found[j].id)
  }

  /** `find({selector})`: the selected documents, in an order the engine
      chooses (here an arbitrary walk over the ids). */
  method Find(s: Store, sel: Selector, regexTest: (string, string) -> bool)
    returns (r: Result<seq<Doc>, StoreError>, s': Store)
    ensures s' == Called(s, FindCall(sel))
    ensures r.Failure? <==> s.fault.Some?
    ensures r.Failure? ==> r.error == s.fault.value
    ensures r.Success? ==> QueryResult(s.docs, sel, regexTest, r.value)
  {
    s' := Called(s, FindCall(sel));
    if s.fault.Some? {
      return Failure(s.fault.value), s';
    }
    var pending := s.docs.Keys;
    var found: seq<Doc> := [];
    while pending != {}
      invariant pending <= s.docs.Keys
      invariant forall i :: 0 <= i < |found| ==>
        found[i].id in s.docs && found[i].id !in pending
        && s.docs[found[i].id] == found[i].fields
        && Selects(sel, found[i].fields, regexTest)
      invariant forall id :: id in s.docs && id !in pending && Selects(sel, s.docs[id], regexTest) ==>
        exists i :: 0 <= i < |found| && found[i].id == id
      invariant forall i, j :: 0 <= i < j < |found| ==> found[i].id != found[j].id
      decreases pending
    {
      var id :| id in pending;
      if Selects(sel, s.docs[id], regexTest) {
        ghost var before := found;
        found := found + [Doc(id, s.docs[id])];
        forall other | other in s.docs && other !in pending - {id} && Selects(sel, s.docs[other], regexTest)
          ensures exists i :: 0 <= i < |found| && found[i].id == other
        {
          if other == id {
            assert found[|before|].id == other;
          } else {
            var i :| 0 <= i < |before| && before[i].id == other;
            assert found[i].id == other;
          }
        }
      }
      pending := pending - {id};
    }
    r := Success(found);
  }
}
