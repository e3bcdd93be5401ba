/** `DataManager` of class_DataManager.py: the read side the web front end queries. `get_data`
    narrows the `results` table by a dict of equality filters and optionally orders it by one
    column; `get_data_gdacs` only orders. The database's `ORDER BY` is modelled by a stable
    insertion sort over a total preorder on column values. */
module DataManager {
  import opened Wrappers
  import opened PyText
  import opened Schema

  /** A value as a filter dict or a column holds it. */
  datatype Value = Null | Bool(b: bool) | Int(i: int) | Real(r: real) | Text(s: string) | Stamp(d: DateTime)

  /** The mapped columns of `Result`, as its use sites assign them. */
  const ResultColumns: seq<string> :=
    ["id", "content", "result", "source_type", "source_id", "date_time", "is_disaster", "probability", "disaster_type"]

  /** The mapped columns of `GDACS`. */
  const GdacsColumns: seq<string> := ["id", "content", "date_time", "location"]

  /** `isinstance(field.type, Boolean)`: `is_disaster` is the Boolean column of `Result`. */
  predicate IsBooleanColumn(key: string) {
    key == "is_disaster"
  }

  function OptionalText(t: Option<string>): Value {
    if t.Some? then Text(t.value) else Null
  }

  function OptionalStamp(d: Option<DateTime>): Value {
    if d.Some? then Stamp(d.value) else Null
  }

  /** `getattr(row, key)` for a column of `Result`; `Null` for any other name. */
  function ResultCell(r: ResultRow, key: string): Value {
    if key == "id" then Int(r.id)
    else if key == "content" then Text(r.content)
    else if key == "result" then OptionalText(r.result)
    else if key == "source_type" then Text(r.sourceType)
    else if key == "source_id" then Int(r.sourceId)
    else if key == "date_time" then OptionalStamp(r.dateTime)
    else if key == "is_disaster" then Bool(r.isDisaster)
    else if key == "probability" then Real(r.probability)
    else if key == "disaster_type" then Text(r.disasterType)
    else Null
  }

  /** `getattr(row, key)` for a column of `GDACS`; `Null` for any other name. */
  function GdacsCell(g: GdacsRow, key: string): Value {
    if key == "id" then Text(g.id)
    else if key == "content" then Text(g.content)
    else if key == "date_time" then Stamp(g.dateTime)
    else if key == "location" then Text(g.location)
    else Null
  }

  // ---------------------------------------------------------------------------
  // Filters

  /** SQL `column = value`: `NULL` equals nothing, Booleans are the integers 0 and 1, and
      numbers compare by value. */
  function Numeric(v: Value): Option<real> {
    match v
    case Bool(b) => Some(if b then 1.0 else 0.0)
    case Int(i) => Some(i as real)
    case Real(r) => Some(r)
    case _ => None
  }

  predicate SqlEquals(a: Value, b: Value) {
    if a.Null? || b.Null? then false
    else if Numeric(a).Some? && Numeric(b).Some? then Numeric(a).value == Numeric(b).value
    else a == b
  }

  /** A string given for a Boolean column becomes `True` exactly for `true`, `1` and `yes`
      in any case; every other value is compared as given. */
  function Coerce(key: string, value: Value): (v: Value)
    ensures IsBooleanColumn(key) && value.Text? ==> v == Bool(AsciiLower(value.s) in ["true", "1", "yes"])
    ensures !(IsBooleanColumn(key) && value.Text?) ==> v == value
  {
    if IsBooleanColumn(key) && value.Text? then Bool(AsciiLower(value.s) in ["true", "1", "yes"]) else value
  }

  /** Whether the filter item `key: value` narrows the query: the key names a column, the
      value is not `None` and is not the front end's `'all'`. */
  predicate Constrains(key: string, value: Value) {
    key in ResultColumns && !value.Null? && value != Text("all")
  }

  /** The condition one filter item adds to the query, if any. */
  function Condition(key: string, value: Value): (c: seq<(string, Value)>)
    ensures Constrains(key, value) ==> c == [(key, Coerce(key, value))]
    ensures !Constrains(key, value) ==> c == []
  {
    if key in ResultColumns && !value.Null? then
      if value == Text("all") then [] else [(key, Coerce(key, value))]
    else []
  }

  /** The conditions the first `n` filter items have added. */
  function Conditions(filters: seq<(string, Value)>, n: nat): seq<(string, Value)>
    requires n <= |filters|
  {
    if n == 0 then [] else Conditions(filters, n - 1) + Condition(filters[n - 1].0, filters[n - 1].1)
  }

  predicate Satisfies(r: ResultRow, conditions: seq<(string, Value)>) {
    forall i :: 0 <= i < |conditions| ==> SqlEquals(ResultCell(r, conditions[i].0), conditions[i].1)
  }

  /** A row meets the filter dict: it equals the (coerced) value of every item that narrows. */
  predicate MeetsFilters(r: ResultRow, filters: seq<(string, Value)>) {
    forall i :: 0 <= i < |filters| && Constrains(filters[i].0, filters[i].1) ==>
      SqlEquals(ResultCell(r, filters[i].0), Coerce(filters[i].0, filters[i].1))
  }

  /** The accumulated conditions hold of a row exactly when it meets the filter items seen so far. */
  lemma {:induction false} ConditionsMeaning(filters: seq<(string, Value)>, n: nat, r: ResultRow)
    requires n <= |filters|
    ensures Satisfies(r, Conditions(filters, n)) <==> MeetsFilters(r, filters[..n])
  {
    if n > 0 {
      ConditionsMeaning(filters, n - 1, r);
      var key, value := filters[n - 1].0, filters[n - 1].1;
      var prev, before := Conditions(filters, n - 1), filters[..n - 1];
      assert Conditions(filters, n) == prev + Condition(key, value);
      assert filters[..n] == before + [(key, value)];
      SatisfiesAppend(r, prev, key, value);
      MeetsFiltersAppend(r, before, key, value);
    }
  }

  /** One more filter item's condition holds exactly when the item is met. */
  lemma SatisfiesAppend(r: ResultRow, prev: seq<(string, Value)>, key: string, value: Value)
    ensures Satisfies(r, prev + Condition(key, value)) <==>
      Satisfies(r, prev) && (Constrains(key, value) ==> SqlEquals(ResultCell(r, key), Coerce(key, value)))
  {
    var all := prev + Condition(key, value);
    if Satisfies(r, all) {
      forall i | 0 <= i < |prev| ensures SqlEquals(ResultCell(r, prev[i].0), prev[i].1) {
        assert all[i] == prev[i];
      }
      if Constrains(key, value) {
        assert all[|prev|] == (key, Coerce(key, value));
      }
    }
  }

  lemma MeetsFiltersAppend(r: ResultRow, before: seq<(string, Value)>, key: string, value: Value)
    ensures MeetsFilters(r, before + [(key, value)]) <==>
      MeetsFilters(r, before) && (Constrains(key, value) ==> SqlEquals(ResultCell(r, key), Coerce(key, value)))
  {
    var upTo := before + [(key, value)];
    if MeetsFilters(r, upTo) {
      forall i | 0 <= i < |before| && Constrains(before[i].0, before[i].1)
        ensures SqlEquals(ResultCell(r, before[i].0), Coerce(before[i].0, before[i].1))
      {
        assert before[i] == upTo[i];
      }
      assert upTo[|before|] == (key, value);
    }
  }

  /** `query.filter(...)` applied: the rows meeting every condition, in table order. */
  function Matching(rows: seq<ResultRow>, conditions: seq<(string, Value)>): seq<ResultRow> {
    if rows == [] then []
    else (if Satisfies(rows[0], conditions) then [rows[0]] else []) + Matching(rows[1..], conditions)
  }

  /** The filtered query holds every row that meets the conditions, as often as the table
      does, and nothing else. */
  lemma {:induction false} MatchingMeaning(rows: seq<ResultRow>, conditions: seq<(string, Value)>, x: ResultRow)
    ensures multiset(Matching(rows, conditions))[x] == if Satisfies(x, conditions) then multiset(rows)[x] else 0
  {
    if rows != [] {
      MatchingMeaning(rows[1..], conditions, x);
      assert rows == [rows[0]] + rows[1..];
    }
  }

  // ---------------------------------------------------------------------------
  // Ordering

  /** What `ORDER BY` compares: `NULL` first, then numbers (Booleans and timestamps as
      numbers), then text by code point. */
  datatype Key = NullKey | NumKey(n: real) | TextKey(t: string)

  /** A timestamp as a number that grows with the calendar order of its fields. */
  function Chronological(d: DateTime): int {
    ((((d.year * 12 + d.month) * 31 + d.day) * 24 + d.hour) * 60 + d.minute) * 60 + d.second
  }

  function SortKey(v: Value): Key {
    match v
    case Null => NullKey
    case Bool(b) => NumKey(if b then 1.0 else 0.0)
    case Int(i) => NumKey(i as real)
    case Real(r) => NumKey(r)
    case Text(s) => TextKey(s)
    case Stamp(d) => NumKey(Chronological(d) as real)
  }

  function Rank(k: Key): nat {
    match k
    case NullKey => 0
    case NumKey(_) => 1
    case TextKey(_) => 2
  }

  /** Code-point lexicographic order, the `BINARY` collation. */
  predicate TextLe(a: string, b: string) {
    a == [] || (b != [] && (a[0] < b[0] || (a[0] == b[0] && TextLe(a[1..], b[1..]))))
  }

  lemma {:induction false} TextLeTotal(a: string, b: string)
    ensures TextLe(a, b) || TextLe(b, a)
  {
    if a != [] && b != [] && a[0] == b[0] {
      TextLeTotal(a[1..], b[1..]);
    }
  }

  lemma {:induction false} TextLeTransitive(a: string, b: string, c: string)
    requires TextLe(a, b) && TextLe(b, c)
    ensures TextLe(a, c)
  {
    if a != [] && b != [] && c != [] && a[0] == b[0] && b[0] == c[0] {
      TextLeTransitive(a[1..], b[1..], c[1..]);
    }
  }

  predicate KeyLe(a: Key, b: Key) {
    if Rank(a) != Rank(b) then Rank(a) < Rank(b)
    else match a
      case NullKey => true
      case NumKey(x) => x <= b.n
      case TextKey(s) => TextLe(s, b.t)
  }

  lemma KeyLeTotal(a: Key, b: Key)
    ensures KeyLe(a, b) || KeyLe(b, a)
  {
    if a.TextKey? && b.TextKey? {
      TextLeTotal(a.t, b.t);
    }
  }

  lemma KeyLeTransitive(a: Key, b: Key, c: Key)
    requires KeyLe(a, b) && KeyLe(b, c)
    ensures KeyLe(a, c)
  {
    if a.TextKey? && b.TextKey? && c.TextKey? {
      TextLeTransitive(a.t, b.t, c.t);
    }
  }

  /** `asc(column)` or `desc(column)` between two keys. */
  predicate InOrder(a: Key, b: Key, descending: bool) {
    if descending then KeyLe(b, a) else KeyLe(a, b)
  }

  predicate SortedBy<T>(xs: seq<T>, key: T -> Key, descending: bool) {
    forall i, j :: 0 <= i < j < |xs| ==> InOrder(key(xs[i]), key(xs[j]), descending)
  }

  /** `x` placed before the first element it may precede. */
  function Insert<T>(x: T, ys: seq<T>, key: T -> Key, descending: bool): (r: seq<T>)
    ensures multiset(r) == multiset(ys) + multiset{x}
  {
    if ys == [] || InOrder(key(x), key(ys[0]), descending) then [x] + ys
    else
      assert ys == [ys[0]] + ys[1..];
      [ys[0]] + Insert(x, ys[1..], key, descending)
  }

  /** `ORDER BY key` (descending or ascending), keeping the table order among equal keys. */
  function SortBy<T>(xs: seq<T>, key: T -> Key, descending: bool): (r: seq<T>)
    ensures multiset(r) == multiset(xs)
  {
    if xs == [] then []
    else
      assert xs == [xs[0]] + xs[1..];
      Insert(xs[0], SortBy(xs[1..], key, descending), key, descending)
  }

  /** An element that may precede every element of a sorted sequence may head it. */
  lemma PrependSorted<T>(y: T, zs: seq<T>, key: T -> Key, descending: bool)
    requires SortedBy(zs, key, descending)
    requires forall k :: 0 <= k < |zs| ==> InOrder(key(y), key(zs[k]), descending)
    ensures SortedBy([y] + zs, key, descending)
  {
    var r := [y] + zs;
    forall i, j | 0 <= i < j < |r| ensures InOrder(key(r[i]), key(r[j]), descending) {
      if i == 0 {
        assert r[j] == zs[j - 1];
      } else {
        assert r[i] == zs[i - 1] && r[j] == zs[j - 1];
      }
    }
  }

  lemma InOrderTransitive(a: Key, b: Key, c: Key, descending: bool)
    requires InOrder(a, b, descending) && InOrder(b, c, descending)
    ensures InOrder(a, c, descending)
  {
    if descending {
      KeyLeTransitive(c, b, a);
    } else {
      KeyLeTransitive(a, b, c);
    }
  }

  lemma {:induction false} InsertSorted<T>(x: T, ys: seq<T>, key: T -> Key, descending: bool)
    requires SortedBy(ys, key, descending)
    ensures SortedBy(Insert(x, ys, key, descending), key, descending)
  {
    if ys == [] {
    } else if InOrder(key(x), key(ys[0]), descending) {
      forall k | 0 <= k < |ys| ensures InOrder(key(x), key(ys[k]), descending) {
        if k > 0 {
          InOrderTransitive(key(x), key(ys[0]), key(ys[k]), descending);
        }
      }
      PrependSorted(x, ys, key, descending);
    } else {
      var tail := ys[1..];
      assert SortedBy(tail, key, descending) by {
        forall i, j | 0 <= i < j < |tail| ensures InOrder(key(tail[i]), key(tail[j]), descending) {
          assert tail[i] == ys[i + 1] && tail[j] == ys[j + 1];
        }
      }
      InsertSorted(x, tail, key, descending);
      var rest := Insert(x, tail, key, descending);
      KeyLeTotal(key(x), key(ys[0]));
      forall k | 0 <= k < |rest| ensures InOrder(key(ys[0]), key(rest[k]), descending) {
        assert rest[k] in multiset(rest);
        if rest[k] != x {
          assert rest[k] in multiset(tail);
          var m :| 0 <= m < |tail| && tail[m] == rest[k];
          assert tail[m] == ys[m + 1];
        }
      }
      PrependSorted(ys[0], rest, key, descending);
    }
  }

  lemma {:induction false} SortBySorted<T>(xs: seq<T>, key: T -> Key, descending: bool)
    ensures SortedBy(SortBy(xs, key, descending), key, descending)
  {
    if xs != [] {
      SortBySorted(xs[1..], key, descending);
      InsertSorted(xs[0], SortBy(xs[1..], key, descending), key, descending);
    }
  }

  // ---------------------------------------------------------------------------
  // The two queries

  /** `if order_by and hasattr(Model, order_by)`. */
  predicate Orders(orderBy: Option<string>, columns: seq<string>) {
    orderBy.Some? && orderBy.value != "" && orderBy.value in columns
  }

  function ResultKey(column: string): ResultRow -> Key {
    r => SortKey(ResultCell(r, column))
  }

  function GdacsKey(column: string): GdacsRow -> Key {
    g => SortKey(GdacsCell(g, column))
  }

  /** What `get_data` returns for the `results` table listed in rowid order; `failed` stands
      for the database raising, which the method reports as `None`. */
  function QueryResults(results: seq<ResultRow>, filters: seq<(string, Value)>, orderBy: Option<string>,
                        orderDesc: bool, failed: bool): Option<seq<ResultRow>>
  {
    if failed then None
    else
      var rows := Matching(results, Conditions(filters, |filters|));
      Some(if Orders(orderBy, ResultColumns) then SortBy(rows, ResultKey(orderBy.value), orderDesc) else rows)
  }

  /** `get_data`: the loop over the filter items adds one condition per narrowing item. */
  method GetData(results: seq<ResultRow>, filters: seq<(string, Value)>, orderBy: Option<string>,
                 orderDesc: bool, failed: bool) returns (r: Option<seq<ResultRow>>)
    ensures r == QueryResults(results, filters, orderBy, orderDesc, failed)
    ensures r.None? <==> failed
  {
    if failed {
      return None;
    }
    var conditions: seq<(string, Value)> := [];
    for i := 0 to |filters|
      invariant conditions == Conditions(filters, i)
    {
      var (key, value) := filters[i];
      if key in ResultColumns && !value.Null? {
        if value == Text("all") {
          continue;
        }
        var v := value;
        if IsBooleanColumn(key) && value.Text? {
          v := Bool(AsciiLower(value.s) in ["true", "1", "yes"]);
        }
        conditions := conditions + [(key, v)];
      }
    }
    var rows := Matching(results, conditions);
    if orderBy.Some? && orderBy.value != "" && orderBy.value in ResultColumns {
      rows := SortBy(rows, ResultKey(orderBy.value), orderDesc);
    }
    return Some(rows);
  }

  /** Unless the database fails, `get_data` returns every stored result meeting the filters
      (as often as it is stored) and no other, ordered by a valid `order_by` column. */
  lemma GetDataMeaning(results: seq<ResultRow>, filters: seq<(string, Value)>, orderBy: Option<string>,
                       orderDesc: bool, x: ResultRow)
    ensures QueryResults(results, filters, orderBy, orderDesc, false).Some?
    ensures multiset(QueryResults(results, filters, orderBy, orderDesc, false).value)[x]
      == if MeetsFilters(x, filters) then multiset(results)[x] else 0
    ensures Orders(orderBy, ResultColumns) ==>
      SortedBy(QueryResults(results, filters, orderBy, orderDesc, false).value, ResultKey(orderBy.value), orderDesc)
  {
    var conditions := Conditions(filters, |filters|);
    ConditionsMeaning(filters, |filters|, x);
    assert filters[..|filters|] == filters;
    MatchingMeaning(results, conditions, x);
    if Orders(orderBy, ResultColumns) {
      SortBySorted(Matching(results, conditions), ResultKey(orderBy.value), orderDesc);
    }
  }

  /** With no narrowing filter and no ordering, `get_data` returns the whole table. */
  lemma {:induction false} NoFiltersReturnsAll(results: seq<ResultRow>, filters: seq<(string, Value)>, orderDesc: bool)
    requires forall i :: 0 <= i < |filters| ==> !Constrains(filters[i].0, filters[i].1)
    ensures QueryResults(results, filters, None, orderDesc, false) == Some(results)
  {
    NoConditions(filters, |filters|);
    MatchingNothing(results);
  }

  lemma {:induction false} NoConditions(filters: seq<(string, Value)>, n: nat)
    requires n <= |filters|
    requires forall i :: 0 <= i < |filters| ==> !Constrains(filters[i].0, filters[i].1)
    ensures Conditions(filters, n) == []
  {
    if n > 0 {
      NoConditions(filters, n - 1);
      assert Condition(filters[n - 1].0, filters[n - 1].1) == [];
    }
  }

  lemma {:induction false} MatchingNothing(rows: seq<ResultRow>)
    ensures Matching(rows, []) == rows
  {
    if rows != [] {
      MatchingNothing(rows[1..]);
      assert rows == [rows[0]] + rows[1..];
    }
  }

  /** `get_data_gdacs`: the GDACS table (listed in rowid order), ordered by a valid column;
      `[]` when the database fails. */
  function GetDataGdacs(gdacs: seq<GdacsRow>, orderBy: Option<string>, orderDesc: bool, failed: bool): (r: seq<GdacsRow>)
    ensures failed ==> r == []
    ensures !failed ==> multiset(r) == multiset(gdacs)
    ensures !failed && !Orders(orderBy, GdacsColumns) ==> r == gdacs
  {
    if failed then []
    else if Orders(orderBy, GdacsColumns) then SortBy(gdacs, GdacsKey(orderBy.value), orderDesc)
    else gdacs
  }

  /** An ordered `get_data_gdacs` is sorted by the requested column. */
  lemma GetDataGdacsSorted(gdacs: seq<GdacsRow>, orderBy: Option<string>, orderDesc: bool)
    requires Orders(orderBy, GdacsColumns)
    ensures SortedBy(GetDataGdacs(gdacs, orderBy, orderDesc, false), GdacsKey(orderBy.value), orderDesc)
  {
    SortBySorted(gdacs, GdacsKey(orderBy.value), orderDesc);
  }
}
