/** The shared store the pipeline stages read and write: one table per record type of
    class_datatypes.py, extended with the columns that the stages assign (`date_time`,
    `processed`, the classification columns of `results`, the GDACS table). */
module Schema {
  import opened Wrappers

  /** A Python `datetime` as the stages build it (seconds are 0 for forum posts). */
  datatype DateTime = DateTime(year: int, month: int, day: int, hour: int, minute: int, second: int)

  predicate IsLeapYear(y: int) {
    y % 4 == 0 && (y % 100 != 0 || y % 400 == 0)
  }

  function DaysInMonth(y: int, m: int): (n: int)
    requires 1 <= m <= 12
    ensures 28 <= n <= 31
  {
    if m == 2 then (if IsLeapYear(y) then 29 else 28)
    else if m == 4 || m == 6 || m == 9 || m == 11 then 30
    else 31
  }

  /** The values Python's `datetime` constructor accepts: years 1 to 9999, real
      calendar days, 24-hour clock, no leap seconds. */
  predicate ValidDateTime(d: DateTime) {
    && 1 <= d.year <= 9999
    && 1 <= d.month <= 12
    && 1 <= d.day <= DaysInMonth(d.year, d.month)
    && 0 <= d.hour <= 23
    && 0 <= d.minute <= 59
    && 0 <= d.second <= 59
  }

  /** A row of one of the six text tables. `Topics` and `TranslatedTopics` hold `Topic`
      rows, `Replies` and `TranslatedReplies` hold `Reply` rows, `UsersComments` and
      `TranslatedUsersComments` hold `Comment` rows; a translated row shares the id of
      the row it translates. */
  datatype Post =
    | Topic(id: int, content: string, dateTime: Option<DateTime>, processed: bool)
    | Reply(id: int, content: string, topicId: int, dateTime: Option<DateTime>, processed: bool)
    | Comment(id: int, content: string, dateTime: Option<DateTime>, processed: bool)

  /** A row of `results`: one classification of one source row. */
  datatype ResultRow = ResultRow(
    id: int,
    content: string,
    result: Option<string>,
    sourceType: string,
    sourceId: int,
    dateTime: Option<DateTime>,
    isDisaster: bool,
    probability: real,
    disasterType: string)

  /** A row of the GDACS table, keyed by the feed's event id. */
  datatype GdacsRow = GdacsRow(id: string, content: string, dateTime: DateTime, location: string)

  datatype Table =
    | Topics | Replies | UsersComments
    | TranslatedTopics | TranslatedReplies | TranslatedUsersComments

  /** The whole store. Each text table maps its primary key to its row, so a table holds
      at most one row per id; `results` is in rowid order. */
  datatype Store = Store(
    topics: map<int, Post>,
    replies: map<int, Post>,
    comments: map<int, Post>,
    translatedTopics: map<int, Post>,
    translatedReplies: map<int, Post>,
    translatedComments: map<int, Post>,
    results: seq<ResultRow>,
    gdacs: map<string, GdacsRow>)

  function Rows(s: Store, t: Table): map<int, Post> {
    match t
    case Topics => s.topics
    case Replies => s.replies
    case UsersComments => s.comments
    case TranslatedTopics => s.translatedTopics
    case TranslatedReplies => s.translatedReplies
    case TranslatedUsersComments => s.translatedComments
  }

  /** The store with table `t` replaced by `m` and everything else as it was. */
  function WithRows(s: Store, t: Table, m: map<int, Post>): (s': Store)
    ensures Rows(s', t) == m
    ensures forall u :: u != t ==> Rows(s', u) == Rows(s, u)
    ensures s'.results == s.results && s'.gdacs == s.gdacs
  {
    match t
    case Topics => s.(topics := m)
    case Replies => s.(replies := m)
    case UsersComments => s.(comments := m)
    case TranslatedTopics => s.(translatedTopics := m)
    case TranslatedReplies => s.(translatedReplies := m)
    case TranslatedUsersComments => s.(translatedComments := m)
  }

  predicate RowShape(t: Table, p: Post) {
    match t
    case Topics | TranslatedTopics => p.Topic?
    case Replies | TranslatedReplies => p.Reply?
    case UsersComments | TranslatedUsersComments => p.Comment?
  }

  /** `id` is the primary key: every row sits under its own id. */
  predicate WellKeyed(t: Table, m: map<int, Post>) {
    forall k :: k in m ==> m[k].id == k && RowShape(t, m[k])
  }

  /** `results.id` is an integer primary key assigned in insertion order. */
  predicate ResultIdsArePositions(rs: seq<ResultRow>) {
    forall i :: 0 <= i < |rs| ==> rs[i].id == i + 1
  }

  /** The event id is the primary key of the GDACS table. */
  predicate GdacsKeyed(g: map<string, GdacsRow>) {
    forall k :: k in g ==> g[k].id == k
  }

  /** `Replies.topic_id` references `topics.id`. */
  predicate RepliesReferenceTopics(s: Store) {
    forall k :: k in s.replies && s.replies[k].Reply? ==> s.replies[k].topicId in s.topics
  }

  /** `TranslatedReplies.topic_id` references `translated_topics.id`. */
  predicate TranslatedRepliesReferenceTopics(s: Store) {
    forall k :: k in s.translatedReplies && s.translatedReplies[k].Reply? ==>
      s.translatedReplies[k].topicId in s.translatedTopics
  }

  /** The table a `results.source_type` value names. The LLM stage writes table names
      (`topics`, `replies`, the comments table's name), the DistilBERT stage writes
      `topic`, `reply` and `comment`. */
  function SourceTable(sourceType: string, commentsTableName: string): Option<Table> {
    if sourceType == "topic" || sourceType == "topics" then Some(Topics)
    else if sourceType == "reply" || sourceType == "replies" then Some(Replies)
    else if sourceType == "comment" || sourceType == commentsTableName then Some(UsersComments)
    else None
  }

  /** `results.source_id` names a row of the table `results.source_type` names. */
  predicate ResultsReferenceSources(s: Store, commentsTableName: string) {
    forall i :: 0 <= i < |s.results| ==>
      var t := SourceTable(s.results[i].sourceType, commentsTableName);
      t.Some? && s.results[i].sourceId in Rows(s, t.value)
  }

  /** The declared keys and references of the whole store. */
  predicate Valid(s: Store, commentsTableName: string) {
    && (forall t :: WellKeyed(t, Rows(s, t)))
    && ResultIdsArePositions(s.results)
    && GdacsKeyed(s.gdacs)
    && RepliesReferenceTopics(s)
    && TranslatedRepliesReferenceTopics(s)
    && ResultsReferenceSources(s, commentsTableName)
  }

  /** `p` and `q` are the same row except perhaps for the `processed` flag. */
  predicate SameBesidesProcessed(p: Post, q: Post) {
    p.(processed := q.processed) == q
  }

  /** What a stage may do to a text table: keep every row and its data, and move
      `processed` only from false to true. */
  predicate ProcessedOnlyRises(before: map<int, Post>, after: map<int, Post>) {
    && after.Keys == before.Keys
    && forall k :: k in before ==>
         SameBesidesProcessed(before[k], after[k]) && (before[k].processed ==> after[k].processed)
  }

  /** A new topic row; `processed` takes its column default, false. */
  function NewTopic(id: int, content: string, dateTime: Option<DateTime>): (p: Post)
    ensures RowShape(Topics, p) && RowShape(TranslatedTopics, p)
    ensures p.id == id && p.content == content && p.dateTime == dateTime && !p.processed
  {
    Topic(id, content, dateTime, false)
  }

  /** A new reply row; `processed` takes its column default, false. */
  function NewReply(id: int, content: string, topicId: int, dateTime: Option<DateTime>): (p: Post)
    ensures RowShape(Replies, p) && RowShape(TranslatedReplies, p)
    ensures p.id == id && p.content == content && p.dateTime == dateTime && !p.processed
    ensures p.topicId == topicId
  {
    Reply(id, content, topicId, dateTime, false)
  }

  /** What a classification pass over one table writes: that table's rows and the
      `results` rows. */
  datatype Tally = Tally(rows: map<int, Post>, results: seq<ResultRow>)

  /** The store with a pass's writes to table `t` in place. */
  function Written(s: Store, t: Table, st: Tally): (s': Store)
    ensures Rows(s', t) == st.rows && s'.results == st.results
    ensures forall u :: u != t ==> Rows(s', u) == Rows(s, u)
    ensures s'.gdacs == s.gdacs
  {
    WithRows(s, t, st.rows).(results := st.results)
  }

  /** Raising `processed` flags in one table keeps every table well keyed and every
      reply's topic reference. */
  lemma RisingKeepsKeys(s: Store, s': Store, t: Table, commentsTableName: string)
    requires Valid(s, commentsTableName)
    requires forall u :: u != t ==> Rows(s', u) == Rows(s, u)
    requires ProcessedOnlyRises(Rows(s, t), Rows(s', t))
    ensures forall u :: WellKeyed(u, Rows(s', u))
    ensures RepliesReferenceTopics(s') && TranslatedRepliesReferenceTopics(s')
  {
    forall u ensures WellKeyed(u, Rows(s', u)) {
      if u == t {
        forall k | k in Rows(s', u) ensures Rows(s', u)[k].id == k && RowShape(u, Rows(s', u)[k]) {
          assert SameBesidesProcessed(Rows(s, u)[k], Rows(s', u)[k]);
        }
      }
    }
    assert Rows(s', Topics).Keys == s.topics.Keys && Rows(s', TranslatedTopics).Keys == s.translatedTopics.Keys;
    assert Rows(s', Replies) == s'.replies && Rows(s, Replies) == s.replies;
    assert Rows(s', TranslatedReplies) == s'.translatedReplies && Rows(s, TranslatedReplies) == s.translatedReplies;
    forall k | k in s'.replies && s'.replies[k].Reply? ensures s'.replies[k].topicId in s'.topics {
      if t == Replies {
        assert SameBesidesProcessed(s.replies[k], s'.replies[k]);
      }
    }
    forall k | k in s'.translatedReplies && s'.translatedReplies[k].Reply?
      ensures s'.translatedReplies[k].topicId in s'.translatedTopics
    {
      if t == TranslatedReplies {
        assert SameBesidesProcessed(s.translatedReplies[k], s'.translatedReplies[k]);
      }
    }
  }

  /** `order` is what `query(T).filter(T.processed == False).all()` returns on the rows `m`:
      each unprocessed row once. */
  predicate UnprocessedQuery(m: map<int, Post>, order: seq<int>) {
    && (forall i, j :: 0 <= i < j < |order| ==> order[i] != order[j])
    && (forall i :: 0 <= i < |order| ==> order[i] in m && !m[order[i]].processed)
    && (forall k :: k in m && !m[k].processed ==> k in order)
  }
}
