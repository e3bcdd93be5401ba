/** The LLM classification stage: parsing the model's `是否 类型 时间 地点` answer, and one
    pass of the polling loop, which classifies every unprocessed row of `topics`, `replies`
    and the comments table, adds one `results` row per classified item and marks it
    processed. The chat model itself is the parameter `ask`: the answer text of a question,
    or `None` when the call raises. */
module LlmStage {
  import opened Wrappers
  import opened PyText
  import opened Schema

  /** The four fields `parse_response` returns. */
  datatype Verdict = Verdict(isDisaster: bool, disasterType: string, time: string, location: string)

  const NotDisaster: Verdict := Verdict(false, "", "", "")

  /** The `k`-th token, or `""` when there are fewer. */
  function TokenOr(parts: seq<string>, k: nat): string {
    if k < |parts| then parts[k] else ""
  }

  /** `parse_response`. `None` is the `IndexError` of `parts[0]` on an answer without
      tokens. */
  function ParseResponse(response: string): Option<Verdict> {
    var parts := Split(response);
    if |parts| == 0 then None
    else if parts[0] == "否" then Some(NotDisaster)
    else if parts[0] == "是" then Some(Verdict(true, TokenOr(parts, 1), TokenOr(parts, 2), TokenOr(parts, 3)))
    else Some(NotDisaster)
  }

  /** Parsing fails exactly on an empty or all-whitespace answer. */
  lemma ParseFailsIffBlank(response: string)
    ensures ParseResponse(response).None? <==> IsBlank(response)
  {
    SplitEmptyIffBlank(response);
  }

  /** An answer written as space-separated words is read back by its words: `是` followed by
      type, time and location (each missing one read as `""`, any further word ignored) is
      a disaster, and any other first word is not. */
  lemma ParseOfAnswer(words: seq<string>)
    requires |words| > 0 && forall k :: 0 <= k < |words| ==> IsWord(words[k])
    ensures ParseResponse(JoinSpaces(words)) ==
      Some(if words[0] == "是"
           then Verdict(true, TokenOr(words, 1), TokenOr(words, 2), TokenOr(words, 3))
           else NotDisaster)
  {
    SplitJoinRoundTrip(words);
  }

  /** A `是` verdict is a disaster; every other verdict carries no extracted fields. */
  lemma VerdictShape(response: string)
    requires ParseResponse(response).Some?
    ensures ParseResponse(response).value.isDisaster <==> Split(response)[0] == "是"
    ensures !ParseResponse(response).value.isDisaster ==> ParseResponse(response).value == NotDisaster
  {
  }

  // ---------------------------------------------------------------------------
  // One pass over a table

  /** `self.chain.run` then `parse_response`; `None` when either raises. */
  function Classify(ask: string -> Option<string>, question: string): Option<Verdict> {
    match ask(question)
    case None => None
    case Some(response) => ParseResponse(response)
  }

  /** The `Result` a classified row gets: id, content and date from the row, the verdict's
      flag and type, probability 1.0, and the table's name as source type. */
  function ResultFor(p: Post, v: Verdict, tableName: string, rowId: int): (r: ResultRow)
    ensures r.sourceId == p.id && r.content == p.content && r.dateTime == p.dateTime
    ensures r.isDisaster == v.isDisaster && r.probability == 1.0 && r.disasterType == v.disasterType
    ensures r.sourceType == tableName && r.id == rowId && r.result.None?
  {
    ResultRow(rowId, p.content, None, tableName, p.id, p.dateTime, v.isDisaster, 1.0, v.disasterType)
  }

  /** The loop body for item `id`: a row found and classified gets its `Result` (the next
      `results` id) and is marked processed; otherwise nothing changes. */
  function ClassifyItem(st: Tally, tableName: string, ask: string -> Option<string>, id: int): Tally {
    if id !in st.rows then st
    else match Classify(ask, st.rows[id].content)
      case None => st
      case Some(v) =>
        Tally(st.rows[id := st.rows[id].(processed := true)],
              st.results + [ResultFor(st.rows[id], v, tableName, |st.results| + 1)])
  }

  /** The first `n` items of `order`, processed in turn. */
  function Classified(st0: Tally, tableName: string, ask: string -> Option<string>, order: seq<int>, n: nat): Tally
    requires n <= |order|
  {
    if n == 0 then st0 else ClassifyItem(Classified(st0, tableName, ask, order, n - 1), tableName, ask, order[n - 1])
  }

  /** A whole pass over table `t` in the order `order`. */
  function Processed(s: Store, t: Table, tableName: string, ask: string -> Option<string>, order: seq<int>): Store {
    Written(s, t, Classified(Tally(Rows(s, t), s.results), tableName, ask, order, |order|))
  }

  /** `process_and_save_results`: each item is looked up, classified and recorded; a failed
      item is skipped and the loop goes on. */
  method ProcessAndSaveResults(s0: Store, t: Table, tableName: string, ask: string -> Option<string>, order: seq<int>)
    returns (s: Store)
    ensures s == Processed(s0, t, tableName, ask, order)
  {
    var rows := Rows(s0, t);
    var results := s0.results;
    var i := 0;
    while i < |order|
      invariant 0 <= i <= |order|
      invariant Tally(rows, results) == Classified(Tally(Rows(s0, t), s0.results), tableName, ask, order, i)
    {
      var id := order[i];
      if id in rows {
        var original := rows[id];
        var response := ask(original.content);
        if response.Some? {
          var verdict := ParseResponse(response.value);
          if verdict.Some? {
            results := results + [ResultFor(original, verdict.value, tableName, |results| + 1)];
            rows := rows[id := original.(processed := true)];
          }
        }
      }
      i := i + 1;
    }
    s := Written(s0, t, Tally(rows, results));
  }

  // ---------------------------------------------------------------------------
  // What a pass over a table does

  /** Row `id` of `m` exists and its content classifies. */
  predicate Succeeds(m: map<int, Post>, ask: string -> Option<string>, id: int) {
    id in m && Classify(ask, m[id].content).Some?
  }

  /** The items among the first `n` of `order` that succeed, in order. */
  function Successes(m: map<int, Post>, ask: string -> Option<string>, order: seq<int>, n: nat): seq<int>
    requires n <= |order|
  {
    if n == 0 then []
    else Successes(m, ask, order, n - 1) + (if Succeeds(m, ask, order[n - 1]) then [order[n - 1]] else [])
  }

  /** A pass keeps every row and its data, `processed` only rises, and earlier results
      stay. */
  lemma {:induction false} ClassifiedFrame(st0: Tally, tableName: string, ask: string -> Option<string>, order: seq<int>, n: nat)
    requires n <= |order|
    ensures ProcessedOnlyRises(st0.rows, Classified(st0, tableName, ask, order, n).rows)
    ensures |st0.results| <= |Classified(st0, tableName, ask, order, n).results|
    ensures Classified(st0, tableName, ask, order, n).results[..|st0.results|] == st0.results
  {
    if n > 0 {
      ClassifiedFrame(st0, tableName, ask, order, n - 1);
    }
  }

  /** After the pass a row is processed exactly when it was before or it is one of the items
      and it classified. */
  lemma {:induction false} ClassifiedProcessed(st0: Tally, tableName: string, ask: string -> Option<string>, order: seq<int>, n: nat)
    requires n <= |order|
    ensures Classified(st0, tableName, ask, order, n).rows.Keys == st0.rows.Keys
    ensures forall k :: k in st0.rows ==>
      (Classified(st0, tableName, ask, order, n).rows[k].processed <==>
         st0.rows[k].processed || (k in order[..n] && Succeeds(st0.rows, ask, k)))
  {
    ClassifiedFrame(st0, tableName, ask, order, n);
    if n > 0 {
      ClassifiedProcessed(st0, tableName, ask, order, n - 1);
      ClassifiedFrame(st0, tableName, ask, order, n - 1);
      assert order[..n] == order[..n - 1] + [order[n - 1]];
    }
  }

  /** The pass appends exactly one `Result` per successful item, in item order, each with
      the next id, the row's id, content and date, and the verdict's flag and type. */
  lemma {:induction false} ClassifiedResults(st0: Tally, tableName: string, ask: string -> Option<string>, order: seq<int>, n: nat)
    requires n <= |order|
    ensures |Classified(st0, tableName, ask, order, n).results| == |st0.results| + |Successes(st0.rows, ask, order, n)|
    ensures forall j :: 0 <= j < |Successes(st0.rows, ask, order, n)| ==>
      var id := Successes(st0.rows, ask, order, n)[j];
      Succeeds(st0.rows, ask, id) &&
      Classified(st0, tableName, ask, order, n).results[|st0.results| + j] ==
        ResultFor(st0.rows[id], Classify(ask, st0.rows[id].content).value, tableName, |st0.results| + j + 1)
  {
    if n > 0 {
      ClassifiedResults(st0, tableName, ask, order, n - 1);
      ClassifiedFrame(st0, tableName, ask, order, n - 1);
    }
  }

  /** A pass over table `t` changes only that table's `processed` flags and appends to
      `results`: exactly the listed rows that classify become processed. */
  lemma ProcessedRows(s: Store, t: Table, tableName: string, ask: string -> Option<string>, order: seq<int>)
    ensures forall u :: u != t ==> Rows(Processed(s, t, tableName, ask, order), u) == Rows(s, u)
    ensures Processed(s, t, tableName, ask, order).gdacs == s.gdacs
    ensures ProcessedOnlyRises(Rows(s, t), Rows(Processed(s, t, tableName, ask, order), t))
    ensures forall k :: k in Rows(s, t) ==>
      (Rows(Processed(s, t, tableName, ask, order), t)[k].processed <==>
         Rows(s, t)[k].processed || (k in order && Succeeds(Rows(s, t), ask, k)))
  {
    var st0 := Tally(Rows(s, t), s.results);
    ClassifiedFrame(st0, tableName, ask, order, |order|);
    ClassifiedProcessed(st0, tableName, ask, order, |order|);
    assert order[..|order|] == order;
  }

  /** A pass over table `t` keeps the earlier results and adds one per successful item,
      in item order. */
  lemma ProcessedResults(s: Store, t: Table, tableName: string, ask: string -> Option<string>, order: seq<int>)
    ensures |Processed(s, t, tableName, ask, order).results| == |s.results| + |Successes(Rows(s, t), ask, order, |order|)|
    ensures Processed(s, t, tableName, ask, order).results[..|s.results|] == s.results
    ensures forall j :: 0 <= j < |Successes(Rows(s, t), ask, order, |order|)| ==>
      var id := Successes(Rows(s, t), ask, order, |order|)[j];
      Succeeds(Rows(s, t), ask, id) &&
      Processed(s, t, tableName, ask, order).results[|s.results| + j] ==
        ResultFor(Rows(s, t)[id], Classify(ask, Rows(s, t)[id].content).value, tableName, |s.results| + j + 1)
  {
    var st0 := Tally(Rows(s, t), s.results);
    ClassifiedFrame(st0, tableName, ask, order, |order|);
    ClassifiedResults(st0, tableName, ask, order, |order|);
  }

  /** A pass keeps the store's keys and references when its table's name designates that
      table as the source of a result. */
  lemma ProcessedKeepsValid(s: Store, t: Table, tableName: string, ask: string -> Option<string>, order: seq<int>, commentsTableName: string)
    requires Valid(s, commentsTableName) && SourceTable(tableName, commentsTableName) == Some(t)
    ensures Valid(Processed(s, t, tableName, ask, order), commentsTableName)
  {
    var s' := Processed(s, t, tableName, ask, order);
    ProcessedRows(s, t, tableName, ask, order);
    ProcessedResults(s, t, tableName, ask, order);
    RisingKeepsKeys(s, s', t, commentsTableName);
    var ids := Successes(Rows(s, t), ask, order, |order|);
    forall i | 0 <= i < |s'.results|
      ensures s'.results[i].id == i + 1
      ensures var u := SourceTable(s'.results[i].sourceType, commentsTableName);
              u.Some? && s'.results[i].sourceId in Rows(s', u.value)
    {
      if i < |s.results| {
        assert s'.results[i] == s'.results[..|s.results|][i];
        assert Rows(s', t).Keys == Rows(s, t).Keys;
      } else {
        var j := i - |s.results|;
        assert Succeeds(Rows(s, t), ask, ids[j]);
      }
    }
  }

  // ---------------------------------------------------------------------------
  // One iteration of the polling loop

  /** The three passes of one iteration, topics, replies and comments, each over the
      rows its query returned. */
  function Pass(s: Store, ask: string -> Option<string>, commentsTableName: string,
                topicOrder: seq<int>, replyOrder: seq<int>, commentOrder: seq<int>): Store
  {
    var s1 := Processed(s, Topics, "topics", ask, topicOrder);
    var s2 := Processed(s1, Replies, "replies", ask, replyOrder);
    Processed(s2, UsersComments, commentsTableName, ask, commentOrder)
  }

  /** One iteration of `predict_and_save`: the three queries' rows (in the order the database
      returns them) are processed table by table, then committed. */
  method PredictAndSave(s: Store, ask: string -> Option<string>, commentsTableName: string,
                        topicOrder: seq<int>, replyOrder: seq<int>, commentOrder: seq<int>)
    returns (s': Store)
    ensures s' == Pass(s, ask, commentsTableName, topicOrder, replyOrder, commentOrder)
  {
    var s1 := ProcessAndSaveResults(s, Topics, "topics", ask, topicOrder);
    var s2 := ProcessAndSaveResults(s1, Replies, "replies", ask, replyOrder);
    s' := ProcessAndSaveResults(s2, UsersComments, commentsTableName, ask, commentOrder);
  }

  /** After one iteration every row of the three tables is processed exactly when it was
      before or its content classifies; the translated tables and the GDACS table are as
      they were; and the store keeps its keys and references. */
  lemma PassMeaning(s: Store, ask: string -> Option<string>, commentsTableName: string,
                    topicOrder: seq<int>, replyOrder: seq<int>, commentOrder: seq<int>)
    requires UnprocessedQuery(s.topics, topicOrder)
    requires UnprocessedQuery(s.replies, replyOrder)
    requires UnprocessedQuery(s.comments, commentOrder)
    ensures var s' := Pass(s, ask, commentsTableName, topicOrder, replyOrder, commentOrder);
      && s'.topics.Keys == s.topics.Keys && s'.replies.Keys == s.replies.Keys && s'.comments.Keys == s.comments.Keys
      && (forall k :: k in s.topics ==> (s'.topics[k].processed <==> s.topics[k].processed || Succeeds(s.topics, ask, k)))
      && (forall k :: k in s.replies ==> (s'.replies[k].processed <==> s.replies[k].processed || Succeeds(s.replies, ask, k)))
      && (forall k :: k in s.comments ==> (s'.comments[k].processed <==> s.comments[k].processed || Succeeds(s.comments, ask, k)))
      && s'.translatedTopics == s.translatedTopics && s'.translatedReplies == s.translatedReplies
      && s'.translatedComments == s.translatedComments && s'.gdacs == s.gdacs
  {
    var s1 := Processed(s, Topics, "topics", ask, topicOrder);
    var s2 := Processed(s1, Replies, "replies", ask, replyOrder);
    ProcessedRows(s, Topics, "topics", ask, topicOrder);
    ProcessedRows(s1, Replies, "replies", ask, replyOrder);
    ProcessedRows(s2, UsersComments, commentsTableName, ask, commentOrder);
    assert Rows(s1, Replies) == Rows(s, Replies) && Rows(s2, UsersComments) == Rows(s, UsersComments);
  }

  /** One iteration keeps the store's keys and references, provided the comments table's
      name designates that table. */
  lemma PassKeepsValid(s: Store, ask: string -> Option<string>, commentsTableName: string,
                       topicOrder: seq<int>, replyOrder: seq<int>, commentOrder: seq<int>)
    requires Valid(s, commentsTableName) && SourceTable(commentsTableName, commentsTableName) == Some(UsersComments)
    ensures Valid(Pass(s, ask, commentsTableName, topicOrder, replyOrder, commentOrder), commentsTableName)
  {
    var s1 := Processed(s, Topics, "topics", ask, topicOrder);
    var s2 := Processed(s1, Replies, "replies", ask, replyOrder);
    ProcessedKeepsValid(s, Topics, "topics", ask, topicOrder, commentsTableName);
    ProcessedKeepsValid(s1, Replies, "replies", ask, replyOrder, commentsTableName);
    ProcessedKeepsValid(s2, UsersComments, commentsTableName, ask, commentOrder, commentsTableName);
  }
}
