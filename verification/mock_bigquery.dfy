/** The local table engine of `src/integrations/bigquery/mockBigQuery.ts`. The browser
    storage it persists to is a map from dataset id to the dataset's tables; every
    operation takes the store and returns the new store. Rows are maps from field name
    to a JSON scalar; a field a row lacks reads as `undefined`. */
module MockBigQuery {
  import opened Common

  /** A JSON scalar stored in a row. */
  datatype Value = Null | Str(s: string) | Num(n: real) | Bool(b: bool)

  type Row = map<string, Value>

  datatype Column = Column(name: string, kind: string)

  datatype Table = Table(rows: seq<Row>, schema: seq<Column>)

  type Dataset = map<string, Table>

  /** All datasets, keyed by dataset id (the `mock_bigquery_<id>` storage entries). */
  type Store = map<string, Dataset>

  function NotFound(ds: string, t: string): string
  {
    "Table " + t + " not found in dataset " + ds
  }

  /** `createDataset`: saves an empty dataset only when none is stored under the id. */
  function CreateDataset(store: Store, ds: string): (r: Store)
    ensures ds in r
    ensures ds in store ==> r == store
    ensures ds !in store ==> r == store[ds := map[]]
  {
    if ds in store then store else store[ds := map[]]
  }

  /** Creating a dataset twice is the same as creating it once. */
  lemma CreateDatasetIdempotent(store: Store, ds: string)
    ensures CreateDataset(CreateDataset(store, ds), ds) == CreateDataset(store, ds)
  {
  }

  /** `createTable`: the table is (re)created empty with the given schema, replacing
      any table of the same name; the dataset is created if needed. */
  function CreateTable(store: Store, ds: string, t: string, schema: seq<Column>): (r: Store)
    ensures ds in r && t in r[ds] && r[ds][t] == Table([], schema)
    ensures forall d :: d in store && d != ds ==> d in r && r[d] == store[d]
    ensures forall d :: d in r ==> d in store || d == ds
    ensures forall u :: u in GetOrEmpty(store, ds) && u != t ==> u in r[ds] && r[ds][u] == store[ds][u]
    ensures forall u :: u in r[ds] ==> u in GetOrEmpty(store, ds) || u == t
  {
    store[ds := GetOrEmpty(store, ds)[t := Table([], schema)]]
  }

  /** Re-creating a table that is already empty with the same schema changes nothing. */
  lemma CreateTableNoop(store: Store, ds: string, t: string, schema: seq<Column>)
    requires ds in store && t in store[ds] && store[ds][t] == Table([], schema)
    ensures CreateTable(store, ds, t, schema) == store
  {
    assert store[ds][t := Table([], schema)] == store[ds];
  }

  /** `row` with `_inserted_at` set, overriding any field of that name. */
  function Stamp(row: Row, now: string): (r: Row)
    ensures "_inserted_at" in r && r["_inserted_at"] == Str(now)
    ensures forall f :: f in row && f != "_inserted_at" ==> f in r && r[f] == row[f]
    ensures forall f :: f in r ==> f in row || f == "_inserted_at"
  {
    row["_inserted_at" := Str(now)]
  }

  /** Each row stamped with its own clock reading: the clock is read once per row,
      `clock(i)` being the reading taken for the `i`-th row. */
  function StampAll(rows: seq<Row>, clock: nat -> string): (r: seq<Row>)
    ensures |r| == |rows|
    ensures forall i :: 0 <= i < |rows| ==> r[i] == Stamp(rows[i], clock(i))
  {
    seq(|rows|, i requires 0 <= i < |rows| => Stamp(rows[i], clock(i)))
  }

  /** Whether the table exists. */
  predicate HasTable(store: Store, ds: string, t: string)
  {
    ds in store && t in store[ds]
  }

  /** `insertRows`: fails on a missing table; otherwise appends the rows in order, each
      stamped with its own clock reading, and reports how many were inserted. */
  function InsertRows(store: Store, ds: string, t: string, rows: seq<Row>, clock: nat -> string): (r: Result<(Store, nat)>)
    ensures r.Failure? <==> !HasTable(store, ds, t)
    ensures r.Failure? ==> r.message == NotFound(ds, t)
    ensures r.Success? ==>
              var (s2, count) := r.value;
              count == |rows|
              && HasTable(s2, ds, t)
              && s2[ds][t].schema == store[ds][t].schema
              && s2[ds][t].rows == store[ds][t].rows + StampAll(rows, clock)
              && s2.Keys == store.Keys && s2[ds].Keys == store[ds].Keys
              && (forall d :: d in store && d != ds ==> s2[d] == store[d])
              && (forall u :: u in store[ds] && u != t ==> s2[ds][u] == store[ds][u])
  {
    if !HasTable(store, ds, t) then Failure(NotFound(ds, t))
    else
      var table := store[ds][t];
      var table2 := table.(rows := table.rows + StampAll(rows, clock));
      Success((store[ds := store[ds][t := table2]], |rows|))
  }

  /** `getTableSchema`. */
  function GetTableSchema(store: Store, ds: string, t: string): (r: Result<seq<Column>>)
    ensures r.Failure? <==> !HasTable(store, ds, t)
    ensures r.Success? ==> r.value == store[ds][t].schema
  {
    if !HasTable(store, ds, t) then Failure(NotFound(ds, t)) else Success(store[ds][t].schema)
  }

  /** `truncateTable`: empties the rows and keeps the schema; a missing table fails. */
  function TruncateTable(store: Store, ds: string, t: string): (r: Result<Store>)
    ensures r.Failure? <==> !HasTable(store, ds, t)
    ensures r.Success? ==>
              HasTable(r.value, ds, t) && r.value[ds][t] == Table([], store[ds][t].schema)
              && r.value.Keys == store.Keys && r.value[ds].Keys == store[ds].Keys
              && (forall d :: d in store && d != ds ==> r.value[d] == store[d])
              && (forall u :: u in store[ds] && u != t ==> r.value[ds][u] == store[ds][u])
  {
    if !HasTable(store, ds, t) then Failure(NotFound(ds, t))
    else Success(store[ds := store[ds][t := store[ds][t].(rows := [])]])
  }

  /** `listTables`: the table names of a dataset (none for an unknown dataset). */
  function ListTables(store: Store, ds: string): (r: set<string>)
    ensures forall t :: t in r <==> HasTable(store, ds, t)
  {
    GetOrEmpty(store, ds).Keys
  }

  /** `clearMockBigQuery`: removes one dataset, or every dataset when the id is missing
      or empty (an empty id is falsy). */
  function ClearMockBigQuery(store: Store, ds: Option<string>): (r: Store)
    ensures ds.None? || ds.value == "" ==> r == map[]
    ensures ds.Some? && ds.value != "" ==>
              ds.value !in r && forall d :: d != ds.value ==> (d in r <==> d in store) && (d in r ==> r[d] == store[d])
  {
    if ds.None? || ds.value == "" then map[] else store - {ds.value}
  }

  // ---------------------------------------------------------------------------
  // JavaScript comparison of scalars
  // ---------------------------------------------------------------------------

  /** The value of a field of a row; None stands for an absent field (`undefined`). */
  function Lookup(row: Row, field: string): (v: Option<Value>)
    ensures v.Some? <==> field in row
  {
    if field in row then Some(row[field]) else None
  }

  /** Code-unit lexicographic order of strings, as JavaScript compares them. */
  predicate StrLess(a: string, b: string)
  {
    if |a| == 0 then |b| > 0
    else if |b| == 0 then false
    else if a[0] != b[0] then a[0] < b[0]
    else StrLess(a[1..], b[1..])
  }

  lemma {:induction false} StrLessIrreflexive(a: string)
    ensures !StrLess(a, a)
  {
    if |a| > 0 {
      StrLessIrreflexive(a[1..]);
    }
  }

  lemma {:induction false} StrLessTransitive(a: string, b: string, c: string)
    requires StrLess(a, b) && StrLess(b, c)
    ensures StrLess(a, c)
  {
    if |a| > 0 && |b| > 0 && |c| > 0 && a[0] == b[0] && b[0] == c[0] {
      StrLessTransitive(a[1..], b[1..], c[1..]);
    }
  }

  /** Two different strings are ordered one way or the other, never both. */
  lemma {:induction false} StrLessTotal(a: string, b: string)
    ensures a == b || StrLess(a, b) || StrLess(b, a)
    ensures !(StrLess(a, b) && StrLess(b, a))
  {
    if |a| > 0 && |b| > 0 && a[0] == b[0] {
      StrLessTotal(a[1..], b[1..]);
      if a[1..] == b[1..] {
        assert a == [a[0]] + a[1..] && b == [b[0]] + b[1..];
      }
    }
  }

  /** The numeric reading of a scalar: None is NaN. Strings read as numbers when
      they are digit strings (the empty string is 0). */
  function ToNumber(v: Option<Value>): Option<real>
  {
    match v
    case None => None
    case Some(Null) => Some(0.0)
    case Some(Bool(b)) => Some(if b then 1.0 else 0.0)
    case Some(Num(n)) => Some(n)
    case Some(Str(s)) => if AllDigits(s) then Some(DecimalValue(s) as real) else None
  }

  predicate BothStrings(a: Option<Value>, b: Option<Value>)
  {
    a.Some? && a.value.Str? && b.Some? && b.value.Str?
  }

  /** JavaScript `a < b`: strings by code units, everything else numerically, and any
      comparison with NaN false. */
  predicate JsLess(a: Option<Value>, b: Option<Value>)
  {
    if BothStrings(a, b) then StrLess(a.value.s, b.value.s)
    else ToNumber(a).Some? && ToNumber(b).Some? && ToNumber(a).value < ToNumber(b).value
  }

  /** JavaScript `a <= b`. */
  predicate JsLessEq(a: Option<Value>, b: Option<Value>)
  {
    if BothStrings(a, b) then !StrLess(b.value.s, a.value.s)
    else ToNumber(a).Some? && ToNumber(b).Some? && ToNumber(a).value <= ToNumber(b).value
  }

  // ---------------------------------------------------------------------------
  // WHERE
  // ---------------------------------------------------------------------------

  datatype Op = Eq | Gt | Lt | Ge | Le

  datatype Where = Where(field: string, op: Op, value: Value)

  /** One `where` test: `===` for '=', JavaScript relational comparison otherwise. */
  predicate Matches(row: Row, w: Where)
  {
    var v := Lookup(row, w.field);
    match w.op
    case Eq => v == Some(w.value)
    case Gt => JsLess(Some(w.value), v)
    case Lt => JsLess(v, Some(w.value))
    case Ge => JsLessEq(Some(w.value), v)
    case Le => JsLessEq(v, Some(w.value))
  }

  /** An equality test keeps exactly the rows holding that value in that field. */
  lemma EqualityWhere(row: Row, field: string, value: Value)
    ensures Matches(row, Where(field, Eq, value)) <==> field in row && row[field] == value
  {
  }

  /** A row without the field never passes a relational test against a number
      (`undefined` compares as NaN). */
  lemma MissingFieldFailsRelational(row: Row, field: string, op: Op, n: real)
    requires field !in row && op != Eq
    ensures !Matches(row, Where(field, op, Num(n)))
  {
  }

  /** The test of one `where` clause, as a row predicate. */
  function Matching(w: Where): Row -> bool
  {
    (row: Row) => Matches(row, w)
  }

  function ApplyWhere(rows: seq<Row>, w: Option<Where>): (r: seq<Row>)
    ensures w.None? ==> r == rows
    ensures w.Some? ==> r == Filter(rows, Matching(w.value))
    ensures w.Some? ==> forall x :: x in r <==> x in rows && Matches(x, w.value)
    ensures multiset(r) <= multiset(rows)
  {
    if w.None? then rows
    else
      FilterCounts(rows, Matching(w.value));
      Filter(rows, Matching(w.value))
  }

  // ---------------------------------------------------------------------------
  // ORDER BY
  // ---------------------------------------------------------------------------

  datatype Direction = Asc | Desc

  datatype OrderBy = OrderBy(field: string, direction: Direction)

  /** The sort comparator on two field values: equal values compare 0, `null` goes
      last in either direction, other values by `<`, reversed for DESC. */
  function Compare(dir: Direction, a: Option<Value>, b: Option<Value>): (c: int)
    ensures -1 <= c <= 1
    ensures c == 0 <==> a == b
  {
    if a == b then 0
    else if a == Some(Null) then 1
    else if b == Some(Null) then -1
    else
      var comparison := if JsLess(a, b) then -1 else 1;
      if dir.Desc? then -comparison else comparison
  }

  /** A null sorts after every other value, ascending or descending. */
  lemma NullsLast(dir: Direction, v: Option<Value>)
    requires v != Some(Null)
    ensures Compare(dir, v, Some(Null)) == -1 && Compare(dir, Some(Null), v) == 1
  {
  }

  /** The kinds of non-null values a column may hold. */
  datatype Kind = NumKind | StrKind | BoolKind

  /** The field value is present and is null or of the given kind. */
  predicate OfKind(v: Option<Value>, k: Kind)
  {
    v.Some? && (v.value.Null? || match k
      case NumKind => v.value.Num?
      case StrKind => v.value.Str?
      case BoolKind => v.value.Bool?)
  }

  /** On two distinct non-null values of one kind, exactly one is less than the other. */
  lemma JsLessTrichotomy(a: Option<Value>, b: Option<Value>, k: Kind)
    requires OfKind(a, k) && OfKind(b, k) && a != b && a != Some(Null) && b != Some(Null)
    ensures JsLess(a, b) != JsLess(b, a)
  {
    if k.StrKind? {
      StrLessTotal(a.value.s, b.value.s);
    }
  }

  lemma JsLessTransitive(a: Option<Value>, b: Option<Value>, c: Option<Value>, k: Kind)
    requires OfKind(a, k) && OfKind(b, k) && OfKind(c, k)
    requires a != Some(Null) && b != Some(Null) && c != Some(Null)
    requires JsLess(a, b) && JsLess(b, c)
    ensures JsLess(a, c)
  {
    if k.StrKind? {
      StrLessTransitive(a.value.s, b.value.s, c.value.s);
    }
  }

  /** On values of one kind the comparator is antisymmetric. */
  lemma CompareAntisymmetric(dir: Direction, a: Option<Value>, b: Option<Value>, k: Kind)
    requires OfKind(a, k) && OfKind(b, k)
    ensures Compare(dir, a, b) == -Compare(dir, b, a)
  {
    if a != b && a != Some(Null) && b != Some(Null) {
      JsLessTrichotomy(a, b, k);
    }
  }

  /** On values of one kind the comparator is transitive. */
  lemma CompareTransitive(dir: Direction, a: Option<Value>, b: Option<Value>, c: Option<Value>, k: Kind)
    requires OfKind(a, k) && OfKind(b, k) && OfKind(c, k)
    requires Compare(dir, a, b) <= 0 && Compare(dir, b, c) <= 0
    ensures Compare(dir, a, c) <= 0
  {
    if a != b && b != c && a != c && a != Some(Null) && b != Some(Null) && c != Some(Null) {
      JsLessTrichotomy(a, b, k);
      JsLessTrichotomy(b, c, k);
      JsLessTrichotomy(a, c, k);
      if dir.Asc? {
        JsLessTransitive(a, b, c, k);
      } else {
        JsLessTransitive(c, b, a, k);
      }
    }
  }

  function Cmp(o: OrderBy, x: Row, y: Row): int
  {
    Compare(o.direction, Lookup(x, o.field), Lookup(y, o.field))
  }

  /** Insert `x` before the first row that does not sort strictly before it. */
  function Insert(x: Row, s: seq<Row>, o: OrderBy): (r: seq<Row>)
    ensures multiset(r) == multiset(s) + multiset{x}
    ensures |r| == |s| + 1
  {
    if |s| == 0 then [x]
    else if Cmp(o, x, s[0]) <= 0 then [x] + s
    else
      var t := Insert(x, s[1..], o);
      assert s == [s[0]] + s[1..];
      [s[0]] + t
  }

  /** The rows sorted by the comparator: an insertion sort, stable like
      `Array.prototype.sort`. */
  function SortRows(s: seq<Row>, o: OrderBy): (r: seq<Row>)
    ensures multiset(r) == multiset(s)
    ensures |r| == |s|
  {
    if |s| == 0 then []
    else
      assert s == [s[0]] + s[1..];
      Insert(s[0], SortRows(s[1..], o), o)
  }

  ghost predicate SortedBy(s: seq<Row>, o: OrderBy)
  {
    forall i, j :: 0 <= i < j < |s| ==> Cmp(o, s[i], s[j]) <= 0
  }

  /** Every row holds the order field, as null or as a value of one kind. */
  ghost predicate UniformColumn(s: seq<Row>, field: string, k: Kind)
  {
    forall i :: 0 <= i < |s| ==> OfKind(Lookup(s[i], field), k)
  }

  /** `a` sorts no later than any row of `s`. */
  ghost predicate LeAll(o: OrderBy, a: Row, s: seq<Row>)
  {
    forall j :: 0 <= j < |s| ==> Cmp(o, a, s[j]) <= 0
  }

  lemma ConsSorted(o: OrderBy, a: Row, s: seq<Row>)
    requires LeAll(o, a, s) && SortedBy(s, o)
    ensures SortedBy([a] + s, o)
  {
    var r := [a] + s;
    forall i, j | 0 <= i < j < |r| ensures Cmp(o, r[i], r[j]) <= 0 {
      assert r[j] == s[j - 1];
      if i > 0 {
        assert r[i] == s[i - 1];
      }
    }
  }

  lemma InsertElements(x: Row, s: seq<Row>, o: OrderBy, y: Row)
    requires y in Insert(x, s, o)
    ensures y == x || y in s
  {
    assert y in multiset(Insert(x, s, o));
  }

  lemma HeadBound(o: OrderBy, x: Row, s: seq<Row>, k: Kind)
    requires |s| > 0 && Cmp(o, x, s[0]) <= 0 && SortedBy(s, o)
    requires UniformColumn(s, o.field, k) && OfKind(Lookup(x, o.field), k)
    ensures LeAll(o, x, s)
  {
    forall j | 0 <= j < |s| ensures Cmp(o, x, s[j]) <= 0 {
      if j > 0 {
        CompareTransitive(o.direction, Lookup(x, o.field), Lookup(s[0], o.field), Lookup(s[j], o.field), k);
      }
    }
  }

  lemma {:induction false} InsertSorted(x: Row, s: seq<Row>, o: OrderBy, k: Kind)
    requires SortedBy(s, o) && UniformColumn(s, o.field, k) && OfKind(Lookup(x, o.field), k)
    ensures SortedBy(Insert(x, s, o), o)
  {
    if |s| == 0 {
    } else if Cmp(o, x, s[0]) <= 0 {
      HeadBound(o, x, s, k);
      ConsSorted(o, x, s);
    } else {
      CompareAntisymmetric(o.direction, Lookup(x, o.field), Lookup(s[0], o.field), k);
      var rest := s[1..];
      assert SortedBy(rest, o);
      assert UniformColumn(rest, o.field, k);
      InsertSorted(x, rest, o, k);
      var t := Insert(x, rest, o);
      forall j | 0 <= j < |t| ensures Cmp(o, s[0], t[j]) <= 0 {
        InsertElements(x, rest, o, t[j]);
        if t[j] != x {
          var m :| 0 <= m < |rest| && rest[m] == t[j];
          assert s[m + 1] == t[j];
        }
      }
      ConsSorted(o, s[0], t);
    }
  }

  lemma {:induction false} UniformColumnPermutation(s: seq<Row>, t: seq<Row>, field: string, k: Kind)
    requires multiset(s) == multiset(t) && UniformColumn(s, field, k)
    ensures UniformColumn(t, field, k)
  {
    forall j | 0 <= j < |t| ensures OfKind(Lookup(t[j], field), k) {
      assert t[j] in multiset(s) by { assert t[j] in multiset(t); }
      var i :| 0 <= i < |s| && s[i] == t[j];
    }
  }

  /** On a column of one kind (nulls allowed), the sort orders the rows by the
      comparator. */
  lemma {:induction false} SortRowsSorted(s: seq<Row>, o: OrderBy, k: Kind)
    requires UniformColumn(s, o.field, k)
    ensures SortedBy(SortRows(s, o), o)
  {
    if |s| > 0 {
      assert UniformColumn(s[1..], o.field, k);
      SortRowsSorted(s[1..], o, k);
      UniformColumnPermutation(s[1..], SortRows(s[1..], o), o.field, k);
      InsertSorted(s[0], SortRows(s[1..], o), o, k);
    }
  }

  /** The sort is stable in the simplest sense: rows that all share one order-field
      value keep their original order. */
  lemma {:induction false} EqualKeysKeepOrder(s: seq<Row>, o: OrderBy, v: Option<Value>)
    requires forall i :: 0 <= i < |s| ==> Lookup(s[i], o.field) == v
    ensures SortRows(s, o) == s
  {
    if |s| > 0 {
      EqualKeysKeepOrder(s[1..], o, v);
      assert s == [s[0]] + s[1..];
    }
  }

  // ---------------------------------------------------------------------------
  // LIMIT and the whole query
  // ---------------------------------------------------------------------------

  /** Slicing from 0 to `n`: a negative end counts from the back. */
  function SliceFront<T>(s: seq<T>, n: int): (r: seq<T>)
    ensures n >= 0 ==> |r| == if n < |s| then n else |s|
    ensures n < 0 ==> |r| == if |s| + n > 0 then |s| + n else 0
    ensures r <= s
  {
    var end := if n >= 0 then (if n < |s| then n else |s|) else (if |s| + n > 0 then |s| + n else 0);
    s[..end]
  }

  /** How many of `n` rows a limit keeps: all without a truthy limit, min(limit, n) for a
      positive one, and all but the last |limit| for a negative one. */
  function Kept(n: nat, limit: Option<int>): (k: nat)
    ensures k <= n
    ensures limit.None? || limit.value == 0 ==> k == n
    ensures limit.Some? && limit.value > 0 ==> k == if limit.value < n then limit.value else n
    ensures limit.Some? && limit.value < 0 ==> k == if n + limit.value > 0 then n + limit.value else 0
  {
    if limit.None? || limit.value == 0 then n
    else if limit.value > 0 then (if limit.value < n then limit.value else n)
    else if n + limit.value > 0 then n + limit.value else 0
  }

  datatype Query = Query(where: Option<Where>, orderBy: Option<OrderBy>, limit: Option<int>)

  /** A truthy limit slices the rows from 0 to the limit: a prefix of the rows, no longer than a
      positive limit; a missing or zero limit keeps every row. */
  function Limit(s: seq<Row>, limit: Option<int>): (r: seq<Row>)
    ensures r <= s && multiset(r) <= multiset(s)
    ensures limit.None? || limit.value == 0 ==> r == s
    ensures |r| == Kept(|s|, limit)
  {
    var r := if limit.Some? && limit.value != 0 then SliceFront(s, limit.value) else s;
    PrefixSubMultiset(r, s);
    r
  }

  /** Filter, then sort, then apply a truthy limit. The result is a prefix of the sorted
      matches: all of them without a limit, the first min(limit, matches) with a positive
      limit, and all but the last |limit| with a negative one. */
  function RunQuery(rows: seq<Row>, q: Query): (r: seq<Row>)
    ensures multiset(r) <= multiset(rows)
    ensures q.where.Some? ==> forall x :: x in r ==> Matches(x, q.where.value)
    ensures q.limit.None? || q.limit.value == 0 ==> multiset(r) == multiset(ApplyWhere(rows, q.where))
    ensures |r| == Kept(|ApplyWhere(rows, q.where)|, q.limit)
    ensures q.where.None? && (q.limit.None? || q.limit.value == 0) ==> multiset(r) == multiset(rows)
    ensures q.orderBy.None? ==> r <= ApplyWhere(rows, q.where)
    ensures q.orderBy.None? && (q.limit.None? || q.limit.value == 0) ==> r == ApplyWhere(rows, q.where)
    ensures q.orderBy.Some? ==> r <= SortRows(ApplyWhere(rows, q.where), q.orderBy.value)
  {
    var filtered := ApplyWhere(rows, q.where);
    var sorted := if q.orderBy.Some? then SortRows(filtered, q.orderBy.value) else filtered;
    assert |sorted| == |filtered| && multiset(sorted) == multiset(filtered);
    var limited := Limit(sorted, q.limit);
    assert multiset(limited) <= multiset(filtered);
    assert forall x :: x in limited ==> x in multiset(limited);
    limited
  }

  lemma PrefixSubMultiset<T>(p: seq<T>, s: seq<T>)
    requires p <= s
    ensures multiset(p) <= multiset(s)
  {
    assert s == p + s[|p|..];
  }

  /** `queryTable`: fails on a missing table and never changes the store. */
  function QueryTable(store: Store, ds: string, t: string, q: Query): (r: Result<seq<Row>>)
    ensures r.Failure? <==> !HasTable(store, ds, t)
    ensures r.Failure? ==> r.message == NotFound(ds, t)
    ensures r.Success? ==> r.value == RunQuery(store[ds][t].rows, q)
  {
    if !HasTable(store, ds, t) then Failure(NotFound(ds, t)) else Success(RunQuery(store[ds][t].rows, q))
  }

  /** An ordered query over a column of one kind returns rows in comparator order. */
  lemma OrderedQuerySorted(rows: seq<Row>, q: Query, k: Kind)
    requires q.orderBy.Some? && UniformColumn(rows, q.orderBy.value.field, k)
    ensures SortedBy(RunQuery(rows, q), q.orderBy.value)
  {
    var o := q.orderBy.value;
    var filtered := ApplyWhere(rows, q.where);
    assert UniformColumn(filtered, o.field, k) by {
      forall j | 0 <= j < |filtered| ensures OfKind(Lookup(filtered[j], o.field), k) {
        assert filtered[j] in rows;
      }
    }
    SortRowsSorted(filtered, o, k);
  }

  /** A cleared dataset has no tables left: querying, reading the schema of or truncating
      any table of it fails as for a missing table. A dataset that was not named keeps
      every table and answers every query as before. */
  lemma ClearThenQuery(store: Store, ds: Option<string>, d: string, t: string, q: Query)
    ensures var s2 := ClearMockBigQuery(store, ds);
            (ds.None? || ds.value == "" || d == ds.value) ==>
              QueryTable(s2, d, t, q) == Failure(NotFound(d, t)) && ListTables(s2, d) == {}
              && GetTableSchema(s2, d, t).Failure? && TruncateTable(s2, d, t).Failure?
    ensures var s2 := ClearMockBigQuery(store, ds);
            ds.Some? && ds.value != "" && d != ds.value ==>
              QueryTable(s2, d, t, q) == QueryTable(store, d, t, q) && ListTables(s2, d) == ListTables(store, d)
  {
  }

  /** Rows inserted into a freshly created table come back from an unfiltered,
      unordered, unlimited query in insertion order, stamped. */
  lemma CreateInsertQuery(store: Store, ds: string, t: string, schema: seq<Column>, rows: seq<Row>, clock: nat -> string)
    ensures var s1 := CreateTable(store, ds, t, schema);
            var ins := InsertRows(s1, ds, t, rows, clock);
            ins.Success? && QueryTable(ins.value.0, ds, t, Query(None, None, None)) == Success(StampAll(rows, clock))
  {
    var s1 := CreateTable(store, ds, t, schema);
    var s2: Store := InsertRows(s1, ds, t, rows, clock).value.0;
    var none: seq<Row> := [];
    assert s2[ds][t].rows == none + StampAll(rows, clock) == StampAll(rows, clock);
  }

  /** Truncating and then querying gives no rows; the schema survives. */
  lemma TruncateEmpties(store: Store, ds: string, t: string, q: Query)
    requires HasTable(store, ds, t)
    ensures var s1 := TruncateTable(store, ds, t).value;
            QueryTable(s1, ds, t, q) == Success([])
            && GetTableSchema(s1, ds, t) == GetTableSchema(store, ds, t)
  {
  }
}
