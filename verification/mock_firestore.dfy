/** The local document store of `src/integrations/firebase/mockFirestore.ts`. The
    browser storage it persists to is a map from collection name to the collection's
    documents, keyed by document id. The clock (`Date.now()`) and the random id
    generator are parameters. */
module MockFirestore {
  import opened Common
  import MockBigQuery

  /** A timestamp (`createTimestamp`) taken at `nowMs` milliseconds: whole seconds and
      the remaining milliseconds expressed in nanoseconds. */
  datatype Timestamp = Timestamp(seconds: int, nanoseconds: int)

  function CreateTimestamp(nowMs: nat): (t: Timestamp)
    ensures t.seconds * 1000 + t.nanoseconds / 1000000 == nowMs
    ensures 0 <= t.nanoseconds < 1000000000 && t.nanoseconds % 1000000 == 0
  {
    Timestamp(nowMs / 1000, (nowMs % 1000) * 1000000)
  }

  /** A document field: a JSON scalar or a timestamp object. */
  datatype Field = Scalar(v: MockBigQuery.Value) | Stamp(t: Timestamp)

  type Doc = map<string, Field>

  type Collection = map<string, Doc>

  /** All collections, keyed by name (the `mock_firestore_<name>` storage entries). */
  type Store = map<string, Collection>

  datatype DocRef = DocRef(id: string, path: string)

  /** `mockAddDoc`: stores the data with `createdAt` and `updatedAt` (overriding fields
      of those names) under the generated id, and returns the id and its path. */
  function AddDoc(store: Store, name: string, data: Doc, id: string, nowMs: nat): (r: (Store, DocRef))
    ensures var (s2, ref) := r;
            ref.id == id && ref.path == name + "/" + id
            && name in s2 && id in s2[name]
            && s2[name][id] == data["createdAt" := Stamp(CreateTimestamp(nowMs))]["updatedAt" := Stamp(CreateTimestamp(nowMs))]
            && (forall d :: d in GetOrEmpty(store, name) && d != id ==> d in s2[name] && s2[name][d] == store[name][d])
            && (forall d :: d in s2[name] ==> d in GetOrEmpty(store, name) || d == id)
            && (forall n :: n != name ==> (n in s2 <==> n in store) && (n in s2 ==> s2[n] == store[n]))
  {
    var doc := data["createdAt" := Stamp(CreateTimestamp(nowMs))]["updatedAt" := Stamp(CreateTimestamp(nowMs))];
    (store[name := GetOrEmpty(store, name)[id := doc]], DocRef(id, name + "/" + id))
  }

  datatype DocSnapshot = DocSnapshot(exists_: bool, data: Option<Doc>, id: string)

  /** `mockGetDoc`: reports whether the id is present, with its data or null. */
  function GetDoc(store: Store, name: string, id: string): (r: DocSnapshot)
    ensures r.id == id
    ensures r.exists_ <==> id in GetOrEmpty(store, name)
    ensures r.exists_ ==> r.data == Some(store[name][id])
    ensures !r.exists_ ==> r.data.None?
  {
    var c := GetOrEmpty(store, name);
    if id in c then DocSnapshot(true, Some(c[id]), id) else DocSnapshot(false, None, id)
  }

  datatype WhereClause = WhereClause(field: string, value: MockBigQuery.Value)

  /** Strict equality of a field with the value: a timestamp is an object and is
      never strictly equal to the clause's value. */
  predicate FieldEquals(doc: Doc, w: WhereClause)
  {
    w.field in doc && doc[w.field] == Scalar(w.value)
  }

  datatype Entry = Entry(id: string, data: Doc)

  /** `mockGetDocs`: every document of the collection, or those whose field strictly
      equals the clause's value. */
  function GetDocs(store: Store, name: string, w: Option<WhereClause>): (r: set<Entry>)
    ensures forall e :: e in r <==>
              e.id in GetOrEmpty(store, name) && e.data == GetOrEmpty(store, name)[e.id]
              && (w.Some? ==> FieldEquals(e.data, w.value))
  {
    var c := GetOrEmpty(store, name);
    set id | id in c && (w.None? || FieldEquals(c[id], w.value)) :: Entry(id, c[id])
  }

  function NotFound(id: string): string
  {
    "Document " + id + " not found"
  }

  /** `mockUpdateDoc`: a missing document fails; otherwise the updates are merged over
      the document, `updatedAt` is refreshed and every other document is kept. */
  function UpdateDoc(store: Store, name: string, id: string, updates: Doc, nowMs: nat): (r: Result<Store>)
    ensures r.Failure? <==> id !in GetOrEmpty(store, name)
    ensures r.Failure? ==> r.message == NotFound(id)
    ensures r.Success? ==>
              var s2 := r.value;
              name in s2 && id in s2[name]
              && s2[name].Keys == store[name].Keys
              && (forall f :: f in updates && f != "updatedAt" ==> f in s2[name][id] && s2[name][id][f] == updates[f])
              && (forall f :: f in store[name][id] && f !in updates && f != "updatedAt" ==>
                    f in s2[name][id] && s2[name][id][f] == store[name][id][f])
              && (forall f :: f in s2[name][id] ==> f in store[name][id] || f in updates || f == "updatedAt")
              && "updatedAt" in s2[name][id] && s2[name][id]["updatedAt"] == Stamp(CreateTimestamp(nowMs))
              && (forall d :: d in store[name] && d != id ==> s2[name][d] == store[name][d])
              && (forall n :: n != name ==> (n in s2 <==> n in store) && (n in s2 ==> s2[n] == store[n]))
  {
    var c := GetOrEmpty(store, name);
    if id !in c then Failure(NotFound(id))
    else Success(store[name := c[id := (c[id] + updates)["updatedAt" := Stamp(CreateTimestamp(nowMs))]]])
  }

  /** `mockDeleteDoc`: a missing document fails; otherwise exactly that id is removed. */
  function DeleteDoc(store: Store, name: string, id: string): (r: Result<Store>)
    ensures r.Failure? <==> id !in GetOrEmpty(store, name)
    ensures r.Failure? ==> r.message == NotFound(id)
    ensures r.Success? ==>
              name in r.value && r.value[name].Keys == store[name].Keys - {id}
              && (forall d :: d in r.value[name] ==> r.value[name][d] == store[name][d])
              && (forall n :: n != name ==> (n in r.value <==> n in store) && (n in r.value ==> r.value[n] == store[n]))
  {
    var c := GetOrEmpty(store, name);
    if id !in c then Failure(NotFound(id)) else Success(store[name := c - {id}])
  }

  /** `clearMockFirestore`: removes one collection, or all of them when the name is
      missing or empty. */
  function ClearMockFirestore(store: Store, name: Option<string>): (r: Store)
    ensures name.None? || name.value == "" ==> r == map[]
    ensures name.Some? && name.value != "" ==>
              name.value !in r && forall n :: n != name.value ==> (n in r <==> n in store) && (n in r ==> r[n] == store[n])
  {
    if name.None? || name.value == "" then map[] else store - {name.value}
  }

  /** A cleared collection is empty: no document of it exists, listing it gives nothing,
      and updating or deleting in it fails. A collection that was not named reads as before. */
  lemma ClearThenGet(store: Store, name: Option<string>, c: string, id: string, w: Option<WhereClause>)
    ensures var s2 := ClearMockFirestore(store, name);
            (name.None? || name.value == "" || c == name.value) ==>
              !GetDoc(s2, c, id).exists_ && GetDocs(s2, c, w) == {} && DeleteDoc(s2, c, id).Failure?
    ensures var s2 := ClearMockFirestore(store, name);
            name.Some? && name.value != "" && c != name.value ==>
              GetDoc(s2, c, id) == GetDoc(store, c, id) && GetDocs(s2, c, w) == GetDocs(store, c, w)
  {
  }

  /** A document added and read back exists and carries the added fields. */
  lemma AddThenGet(store: Store, name: string, data: Doc, id: string, nowMs: nat)
    ensures var s2 := AddDoc(store, name, data, id, nowMs).0;
            var snap := GetDoc(s2, name, id);
            snap.exists_
            && forall f :: f in data && f != "createdAt" && f != "updatedAt" ==>
                 f in snap.data.value && snap.data.value[f] == data[f]
  {
  }

  /** A deleted document reads as missing, and deleting it again fails. */
  lemma DeleteThenGet(store: Store, name: string, id: string)
    requires id in GetOrEmpty(store, name)
    ensures var s2 := DeleteDoc(store, name, id).value;
            !GetDoc(s2, name, id).exists_ && DeleteDoc(s2, name, id).Failure?
  {
  }

  /** Updating a document leaves the results of reading any other document unchanged. */
  lemma UpdateIsolated(store: Store, name: string, id: string, other: string, updates: Doc, nowMs: nat)
    requires id in GetOrEmpty(store, name) && other != id
    ensures GetDoc(UpdateDoc(store, name, id, updates, nowMs).value, name, other) == GetDoc(store, name, other)
  {
  }

  /** A timestamp field never matches a `where` clause, whatever its value. */
  lemma StampsNeverMatch(doc: Doc, field: string, v: MockBigQuery.Value)
    requires field in doc && doc[field].Stamp?
    ensures !FieldEquals(doc, WhereClause(field, v))
  {
  }
}
