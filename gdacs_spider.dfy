/** The data side of the GDACS crawler: date validation and the all-or-nothing,
    insert-if-absent storing of one downloaded GeoJSON feed. */
module GdacsSpider {
  import opened Wrappers
  import opened PyText
  import opened Schema
  import opened Dates

  /** The two `ValueError`s a feed date can raise: the pattern check's own one
      ("Date format is incorrect or missing") and `strptime`'s. */
  datatype DateError = FormatIncorrectOrMissing | NotADate

  /** `validate_and_parse_date`: a text must begin with `DDDD-DD-DDTDD:DD:DD`, and
      `strptime` then takes it only if nothing follows and the fields name a real date. */
  function ValidateAndParseDate(s: string): Result<DateTime, DateError> {
    if !IsoPrefix(s) then Err(FormatIncorrectOrMissing)
    else match StrptimeIso(s)
      case Some(d) => Ok(d)
      case None => Err(NotADate)
  }

  /** A text is refused as malformed exactly when it does not begin with the pattern, and
      accepted exactly when it is that pattern alone and names a real date, as itself. */
  lemma ValidateAndParseDateMeaning(s: string)
    ensures ValidateAndParseDate(s) == Err(FormatIncorrectOrMissing) <==> !IsoPrefix(s)
    ensures ValidateAndParseDate(s).Ok? <==> IsoPrefix(s) && |s| == 19 && ValidDateTime(IsoFields(s))
    ensures ValidateAndParseDate(s).Ok? ==> ValidateAndParseDate(s).value == IsoFields(s)
  {
  }

  /** An accepted text is the `YYYY-MM-DDTHH:MM:SS` text of the date it yields: together
      with `ValidateIsoText`, the accepted texts are exactly those of real dates. */
  lemma ValidatedIsIsoText(s: string, d: DateTime)
    requires ValidateAndParseDate(s) == Ok(d)
    ensures ValidDateTime(d) && IsoText(d) == s
  {
    IsoTextOfParsed(s);
  }

  /** Every real date written `YYYY-MM-DDTHH:MM:SS` is accepted, as itself. */
  lemma ValidateIsoText(d: DateTime)
    requires ValidDateTime(d)
    ensures ValidateAndParseDate(IsoText(d)) == Ok(d)
  {
    IsoRoundTrip(d);
  }

  /** The default `todate` of a feature is accepted: the Unix epoch. */
  lemma DefaultTodateIsEpoch()
    ensures ValidateAndParseDate(DefaultTodate) == Ok(DateTime(1970, 1, 1, 0, 0, 0))
  {
    EpochIsoText();
    ValidateIsoText(DateTime(1970, 1, 1, 0, 0, 0));
  }

  lemma EpochIsoText()
    ensures IsoText(DateTime(1970, 1, 1, 0, 0, 0)) == DefaultTodate
  {
    EpochFields();
    assert DefaultTodate == "1970" + "-" + "01" + "-" + "01" + "T" + "00" + ":" + "00" + ":" + "00";
  }

  lemma EpochFields()
    ensures Pad4(1970) == "1970" && Pad2(1) == "01" && Pad2(0) == "00"
  {
    assert Pad2(19) == "19";
    assert Pad2(70) == "70";
  }

  const DefaultTodate: string := "1970-01-01T00:00:00"
  const Unknown: string := "Unknown"

  /** A GeoJSON feature; `properties` is `None` when the key is absent. Property values
      are taken as text. */
  datatype Feature = Feature(properties: Option<map<string, string>>)

  /** A parsed GeoJSON document; `features` is `None` when the key is absent. */
  datatype Feed = Feed(features: Option<seq<Feature>>)

  /** `data.get('features', [])`. */
  function Features(data: Feed): seq<Feature> {
    if data.features.Some? then data.features.value else []
  }

  /** `feature.get('properties', {}).get(key, default)`. */
  function Property(f: Feature, key: string, default: string): string {
    if f.properties.Some? && key in f.properties.value then f.properties.value[key] else default
  }

  function EventId(f: Feature): string { Property(f, "eventid", Unknown) }
  function Description(f: Feature): string { Property(f, "description", Unknown) }
  function Country(f: Feature): string { Property(f, "country", Unknown) }
  function Todate(f: Feature): string { Property(f, "todate", EpochText()) }

  /** The `todate` default, behind a function so that the solver does not evaluate the
      date pattern on the literal wherever a feature's date is mentioned. */
  function EpochText(): string { DefaultTodate }

  /** A feature without properties becomes an `Unknown` event at the epoch. */
  lemma MissingPropertiesDefault(f: Feature)
    requires f.properties.None?
    ensures EventId(f) == "Unknown" && Description(f) == "Unknown" && Country(f) == "Unknown"
    ensures ValidateAndParseDate(Todate(f)) == Ok(DateTime(1970, 1, 1, 0, 0, 0))
  {
    DefaultTodateIsEpoch();
  }

  /** The row stored for a feature whose date parsed as `d`. */
  function RowOf(f: Feature, d: DateTime): (row: GdacsRow)
    ensures row.id == EventId(f) && row.content == Description(f)
    ensures row.dateTime == d && row.location == Country(f)
  {
    GdacsRow(EventId(f), Description(f), d, Country(f))
  }

  /** The outcome of validating each feature's `todate`, in feed order. */
  function Outcomes(fs: seq<Feature>): (rs: seq<Result<DateTime, DateError>>)
    ensures |rs| == |fs|
  {
    if fs == [] then [] else Outcomes(fs[..|fs| - 1]) + [ValidateAndParseDate(Todate(fs[|fs| - 1]))]
  }

  lemma {:induction false} OutcomeAt(fs: seq<Feature>, j: nat)
    requires j < |fs|
    ensures Outcomes(fs)[j] == ValidateAndParseDate(Todate(fs[j]))
  {
    if j < |fs| - 1 {
      OutcomeAt(fs[..|fs| - 1], j);
    }
  }

  /** Feature `j`'s date is accepted. */
  predicate DateOk(fs: seq<Feature>, j: int) {
    0 <= j < |fs| && Outcomes(fs)[j].Ok?
  }

  function ParsedDate(fs: seq<Feature>, j: int): DateTime
    requires DateOk(fs, j)
  {
    Outcomes(fs)[j].value
  }

  /** The event ids of the first `n` features. */
  function IdsUpTo(fs: seq<Feature>, n: nat): set<string>
    requires n <= |fs|
  {
    if n == 0 then {} else IdsUpTo(fs, n - 1) + {EventId(fs[n - 1])}
  }

  lemma {:induction false} IdsUpToMembers(fs: seq<Feature>, n: nat, k: string)
    requires n <= |fs|
    ensures k in IdsUpTo(fs, n) <==> exists j :: 0 <= j < n && EventId(fs[j]) == k
  {
    if n > 0 {
      IdsUpToMembers(fs, n - 1, k);
    }
  }

  /** Feature `j` is the first one carrying event id `k`. */
  predicate FirstWithId(fs: seq<Feature>, j: int, k: string) {
    0 <= j < |fs| && EventId(fs[j]) == k && forall l :: 0 <= l < j ==> EventId(fs[l]) != k
  }

  /** What the loop of `store_data` knows after the first `i` features, all of whose
      dates parsed: the table holds the old rows unchanged plus the first row of each
      new event id. */
  predicate Inserted(table0: map<string, GdacsRow>, fs: seq<Feature>, i: nat, table: map<string, GdacsRow>) {
    && i <= |fs|
    && (forall j :: 0 <= j < i ==> DateOk(fs, j))
    && table.Keys == table0.Keys + IdsUpTo(fs, i)
    && (forall k :: k in table0 ==> table[k] == table0[k])
    && (forall k :: k in table && k !in table0 ==> NewEntry(fs, i, k, table[k]))
    && (GdacsKeyed(table0) ==> GdacsKeyed(table))
  }

  /** Feature `i`, whose date is good: insert it unless its event id is present. */
  function InsertIfAbsent(table: map<string, GdacsRow>, fs: seq<Feature>, i: int): map<string, GdacsRow>
    requires DateOk(fs, i)
  {
    if EventId(fs[i]) in table then table else table[EventId(fs[i]) := RowOf(fs[i], ParsedDate(fs, i))]
  }

  lemma InsertStep(table0: map<string, GdacsRow>, fs: seq<Feature>, i: nat, table: map<string, GdacsRow>)
    requires i < |fs| && Inserted(table0, fs, i, table) && DateOk(fs, i)
    ensures Inserted(table0, fs, i + 1, InsertIfAbsent(table, fs, i))
  {
    InsertKeysStep(table0, fs, i, table);
    InsertEntriesStep(table0, fs, i, table);
  }

  lemma InsertKeysStep(table0: map<string, GdacsRow>, fs: seq<Feature>, i: nat, table: map<string, GdacsRow>)
    requires i < |fs| && DateOk(fs, i) && table.Keys == table0.Keys + IdsUpTo(fs, i)
    ensures InsertIfAbsent(table, fs, i).Keys == table0.Keys + IdsUpTo(fs, i + 1)
  {
  }

  lemma InsertEntriesStep(table0: map<string, GdacsRow>, fs: seq<Feature>, i: nat, table: map<string, GdacsRow>)
    requires i < |fs| && DateOk(fs, i) && table.Keys == table0.Keys + IdsUpTo(fs, i)
    requires forall k :: k in table && k !in table0 ==> NewEntry(fs, i, k, table[k])
    ensures forall k :: k in InsertIfAbsent(table, fs, i) && k !in table0 ==>
      NewEntry(fs, i + 1, k, InsertIfAbsent(table, fs, i)[k])
  {
    var eventid := EventId(fs[i]);
    var next := InsertIfAbsent(table, fs, i);
    if eventid !in table {
      forall l | 0 <= l < i ensures EventId(fs[l]) != eventid {
        IdsUpToMembers(fs, i, eventid);
      }
      assert FirstWithId(fs, i, eventid);
      assert NewEntry(fs, i + 1, eventid, next[eventid]);
    }
    forall k | k in next && k !in table0 ensures NewEntry(fs, i + 1, k, next[k]) {
      if k in table { NewEntryGrows(fs, i, k, table[k]); }
    }
  }

  /** The GDACS table after inserting-if-absent the first `n` features, all of whose
      dates are good. */
  function InsertUpTo(table0: map<string, GdacsRow>, fs: seq<Feature>, n: nat): map<string, GdacsRow>
    requires n <= |fs| && forall j :: 0 <= j < n ==> DateOk(fs, j)
  {
    if n == 0 then table0 else InsertIfAbsent(InsertUpTo(table0, fs, n - 1), fs, n - 1)
  }

  lemma InsertUpToStep(table0: map<string, GdacsRow>, fs: seq<Feature>, n: nat)
    requires 0 < n <= |fs| && forall j :: 0 <= j < n ==> DateOk(fs, j)
    requires Inserted(table0, fs, n - 1, InsertUpTo(table0, fs, n - 1))
    ensures Inserted(table0, fs, n, InsertUpTo(table0, fs, n))
  {
    InsertStep(table0, fs, n - 1, InsertUpTo(table0, fs, n - 1));
  }

  /** After the first `n` features the table holds every old row unchanged, the first
      row of each new event id and nothing else, and stays keyed by event id. */
  lemma {:induction false} InsertUpToMeaning(table0: map<string, GdacsRow>, fs: seq<Feature>, n: nat)
    requires n <= |fs| && forall j :: 0 <= j < n ==> DateOk(fs, j)
    ensures Inserted(table0, fs, n, InsertUpTo(table0, fs, n))
  {
    if n > 0 {
      InsertUpToMeaning(table0, fs, n - 1);
      InsertUpToStep(table0, fs, n);
    }
  }

  /** The feed's effect on the GDACS table alone: `Err` carries the first date error;
      otherwise the table after every insert-if-absent. */
  method InsertFeatures(table0: map<string, GdacsRow>, fs: seq<Feature>)
    returns (r: Result<map<string, GdacsRow>, DateError>)
    ensures r.Err? <==> exists i :: 0 <= i < |fs| && !DateOk(fs, i)
    ensures r.Err? ==> exists i :: FirstBadDate(fs, i) && Outcomes(fs)[i] == Err(r.error)
    ensures r.Ok? ==> (forall j :: 0 <= j < |fs| ==> DateOk(fs, j)) && r.value == InsertUpTo(table0, fs, |fs|)
  {
    var table := table0;
    var i := 0;
    while i < |fs|
      invariant 0 <= i <= |fs|
      invariant forall j :: 0 <= j < i ==> DateOk(fs, j)
      invariant table == InsertUpTo(table0, fs, i)
    {
      var todate := ValidateAndParseDate(Todate(fs[i]));
      OutcomeAt(fs, i);
      if todate.Err? {
        assert FirstBadDate(fs, i);
        return Err(todate.error);
      }
      table := InsertIfAbsent(table, fs, i);
      i := i + 1;
    }
    return Ok(table);
  }

  lemma NewEntryGrows(fs: seq<Feature>, n: nat, k: string, row: GdacsRow)
    requires n < |fs| && NewEntry(fs, n, k, row)
    ensures NewEntry(fs, n + 1, k, row)
  {
  }

  /** Feature `i` is the first whose date is rejected. */
  predicate FirstBadDate(fs: seq<Feature>, i: int) {
    0 <= i < |fs| && !DateOk(fs, i) && forall j :: 0 <= j < i ==> DateOk(fs, j)
  }

  /** `row` is what the first of the first `n` features with event id `k` inserts. */
  predicate NewEntry(fs: seq<Feature>, n: nat, k: string, row: GdacsRow) {
    exists j :: 0 <= j < n && FirstWithId(fs, j, k) && DateOk(fs, j) && row == RowOf(fs[j], ParsedDate(fs, j))
  }

  /** `store_data`: every feature's date is validated; a feature whose event id is
      already stored (or came earlier in this feed — the session flushes before each
      lookup) is skipped; the rest are inserted. One bad date rolls the whole feed back
      and is re-raised; nothing but the GDACS table changes. */
  method StoreData(s: Store, data: Feed) returns (s': Store, error: Option<DateError>)
    ensures s'.(gdacs := s.gdacs) == s
    ensures error.Some? <==> exists i :: 0 <= i < |Features(data)| && !DateOk(Features(data), i)
    ensures error.Some? ==> s' == s
    ensures error.Some? ==>
      exists i :: FirstBadDate(Features(data), i) && Outcomes(Features(data))[i] == Err(error.value)
    ensures error.None? ==> s'.gdacs.Keys == s.gdacs.Keys + IdsUpTo(Features(data), |Features(data)|)
    ensures error.None? ==> forall k :: k in s.gdacs ==> s'.gdacs[k] == s.gdacs[k]
    ensures error.None? ==> forall k :: k in s'.gdacs && k !in s.gdacs ==>
      NewEntry(Features(data), |Features(data)|, k, s'.gdacs[k])
    ensures GdacsKeyed(s.gdacs) ==> GdacsKeyed(s'.gdacs)
  {
    var r := InsertFeatures(s.gdacs, Features(data));
    if r.Ok? {
      InsertUpToMeaning(s.gdacs, Features(data), |Features(data)|);
    }
    if r.Err? {
      s', error := s, Some(r.error);
    } else {
      s', error := s.(gdacs := r.value), None;
    }
  }
}
