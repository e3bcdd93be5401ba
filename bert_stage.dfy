/** The DistilBERT classification stage: interpreting the classifier's output, and one pass
    of the polling loop over the unprocessed translated topics, replies and comments. Each
    item whose original row exists is classified and gets its `results` row; any raised
    error rolls the whole pass back. Tokenising, the network and softmax/argmax are the
    parameter `predict`: the classifier's output for a text, or `None` when it raises. */
module BertStage {
  import opened Wrappers
  import opened Schema

  /** One row of the classifier's output: the softmax probabilities, the argmax index and
      the label the encoder gives that index. */
  datatype PredictionRow = PredictionRow(probabilities: seq<real>, index: nat, predictedLabel: string)

  /** The output for a batch: one row per text, `width` columns. */
  datatype Prediction = Prediction(width: nat, rows: seq<PredictionRow>)

  /** A tensor's rows all have its width. */
  type Tensor = p: Prediction | forall i :: 0 <= i < |p.rows| ==> |p.rows[i].probabilities| == p.width
    witness Prediction(0, [])

  /** The tuple `interpret_predictions` appends: text, flag, probability and label. */
  datatype Interpretation = Interpretation(text: string, isDisaster: bool, probability: real, predictedLabel: string)

  const DisasterThreshold: real := 0.8
  const NotADisasterLabel: string := "Not a Disaster"

  function Min(a: nat, b: nat): nat {
    if a < b then a else b
  }

  /** Item `i` of `interpret_predictions`. */
  function Interpret(p: Tensor, text: string, i: nat): Interpretation
    requires i < |p.rows|
  {
    var row := p.rows[i];
    if row.index < p.width then
      var probability := row.probabilities[row.index];
      Interpretation(text, probability > DisasterThreshold, probability, row.predictedLabel)
    else Interpretation(text, false, 0.0, NotADisasterLabel)
  }

  /** `interpret_predictions(predictions, items)`: `zip` pairs the items with the output
      rows up to the shorter of the two, and each pair is interpreted. Each tuple keeps its
      item's text. An in-range index gives its probability and label, and the flag exactly
      when the probability exceeds the threshold; an out-of-range one gives the fixed
      "not a disaster" tuple. Either way a flagged item's probability exceeds the
      threshold. */
  function Interpretations(p: Tensor, items: seq<string>): (r: seq<Interpretation>)
    ensures |r| == Min(|items|, |p.rows|)
    ensures forall i :: 0 <= i < |r| ==> r[i] == Interpret(p, items[i], i)
    ensures forall i :: 0 <= i < |r| ==> r[i].text == items[i]
    ensures forall i :: 0 <= i < |r| && p.rows[i].index < p.width ==>
      && r[i].probability == p.rows[i].probabilities[p.rows[i].index]
      && (r[i].isDisaster <==> r[i].probability > 0.8)
      && r[i].predictedLabel == p.rows[i].predictedLabel
    ensures forall i :: 0 <= i < |r| && p.rows[i].index >= p.width ==>
      r[i] == Interpretation(items[i], false, 0.0, "Not a Disaster")
    ensures forall i :: 0 <= i < |r| && r[i].isDisaster ==> r[i].probability > 0.8
    decreases |items|
  {
    if |items| == 0 || |p.rows| == 0 then []
    else
      var n := Min(|items|, |p.rows|);
      var init := Interpretations(p, items[..n - 1]);
      assert |init| == n - 1;
      init + [Interpret(p, items[n - 1], n - 1)]
  }

  /** The loop of `interpret_predictions`, appending one tuple per pair. */
  method InterpretPredictions(p: Tensor, items: seq<string>) returns (results: seq<Interpretation>)
    ensures results == Interpretations(p, items)
  {
    results := [];
    var i := 0;
    while i < |items| && i < |p.rows|
      invariant 0 <= i <= Min(|items|, |p.rows|)
      invariant |results| == i
      invariant forall j :: 0 <= j < i ==> results[j] == Interpret(p, items[j], j)
    {
      var row := p.rows[i];
      if row.index < p.width {
        var probability := row.probabilities[row.index];
        results := results + [Interpretation(items[i], probability > DisasterThreshold, probability, row.predictedLabel)];
      } else {
        results := results + [Interpretation(items[i], false, 0.0, NotADisasterLabel)];
      }
      i := i + 1;
    }
  }

  // ---------------------------------------------------------------------------
  // One table's loop

  /** The `Result` of a translated row: id and content from the original row, the date from
      the translated row, flag, probability and label from the interpretation. */
  function ResultFor(original: Post, translated: Post, x: Interpretation, sourceType: string, rowId: int): (r: ResultRow)
    ensures r.sourceId == original.id && r.content == original.content && r.dateTime == translated.dateTime
    ensures r.isDisaster == x.isDisaster && r.probability == x.probability && r.disasterType == x.predictedLabel
    ensures r.sourceType == sourceType && r.id == rowId && r.result.None?
  {
    ResultRow(rowId, original.content, None, sourceType, original.id, translated.dateTime, x.isDisaster, x.probability, x.predictedLabel)
  }

  /** The interpretations of one text's prediction: at most one, since one text is
      predicted at a time. */
  function Labels(predict: string -> Option<Tensor>, text: string): (r: Option<seq<Interpretation>>)
    ensures r.Some? ==> |r.value| <= 1
  {
    match predict(text)
    case None => None
    case Some(p) => Some(Interpretations(p, [text]))
  }

  /** The loop body for the translated item `id`: with an original row, its text is
      classified; each interpretation (there is at most one) adds a `Result` and marks the
      item processed. `None` is a raised prediction error. */
  function LabelItem(st: Tally, originals: map<int, Post>, sourceType: string,
                     predict: string -> Option<Tensor>, id: int): Option<Tally>
  {
    if id !in st.rows || id !in originals then Some(st)
    else match Labels(predict, st.rows[id].content)
      case None => None
      case Some(xs) =>
        if |xs| == 0 then Some(st)
        else Some(Tally(st.rows[id := st.rows[id].(processed := true)],
                        st.results + [ResultFor(originals[id], st.rows[id], xs[0], sourceType, |st.results| + 1)]))
  }

  /** The first `n` items of `order`, processed in turn; an error ends it. */
  function Labelled(st0: Tally, originals: map<int, Post>, sourceType: string,
                    predict: string -> Option<Tensor>, order: seq<int>, n: nat): Option<Tally>
    requires n <= |order|
  {
    if n == 0 then Some(st0)
    else match Labelled(st0, originals, sourceType, predict, order, n - 1)
      case None => None
      case Some(st) => LabelItem(st, originals, sourceType, predict, order[n - 1])
  }

  lemma {:induction false} LabelledNoneSticks(st0: Tally, originals: map<int, Post>, sourceType: string,
                                              predict: string -> Option<Tensor>, order: seq<int>, m: nat, n: nat)
    requires m <= n <= |order| && Labelled(st0, originals, sourceType, predict, order, m).None?
    ensures Labelled(st0, originals, sourceType, predict, order, n).None?
    decreases n
  {
    if n > m {
      LabelledNoneSticks(st0, originals, sourceType, predict, order, m, n - 1);
    }
  }

  /** One table's loop; `None` when a prediction raises. */
  method SaveTable(st0: Tally, originals: map<int, Post>, sourceType: string,
                   predict: string -> Option<Tensor>, order: seq<int>)
    returns (r: Option<Tally>)
    ensures r == Labelled(st0, originals, sourceType, predict, order, |order|)
  {
    var rows := st0.rows;
    var results := st0.results;
    var i := 0;
    while i < |order|
      invariant 0 <= i <= |order|
      invariant Labelled(st0, originals, sourceType, predict, order, i) == Some(Tally(rows, results))
    {
      var id := order[i];
      if id in rows && id in originals {
        var original := originals[id];
        var translated := rows[id];
        var prediction := predict(translated.content);
        if prediction.None? {
          LabelledNoneSticks(st0, originals, sourceType, predict, order, i + 1, |order|);
          return None;
        }
        var xs := InterpretPredictions(prediction.value, [translated.content]);
        if |xs| > 0 {
          results := results + [ResultFor(original, translated, xs[0], sourceType, |results| + 1)];
          rows := rows[id := translated.(processed := true)];
        }
      }
      i := i + 1;
    }
    r := Some(Tally(rows, results));
  }

  // ---------------------------------------------------------------------------
  // What one table's loop does

  /** Item `id` is a translated row with an original whose text is predicted and yields an
      interpretation. */
  predicate IsLabelled(m: map<int, Post>, originals: map<int, Post>, predict: string -> Option<Tensor>, id: int) {
    && id in m && id in originals
    && Labels(predict, m[id].content).Some?
    && |Labels(predict, m[id].content).value| == 1
  }

  /** Item `id` is a translated row with an original whose prediction raises. */
  predicate Raises(m: map<int, Post>, originals: map<int, Post>, predict: string -> Option<Tensor>, id: int) {
    id in m && id in originals && predict(m[id].content).None?
  }

  /** The labelled items among the first `n` of `order`, in order. */
  function LabelledIds(m: map<int, Post>, originals: map<int, Post>, predict: string -> Option<Tensor>, order: seq<int>, n: nat): seq<int>
    requires n <= |order|
  {
    if n == 0 then []
    else
      var tail := if IsLabelled(m, originals, predict, order[n - 1]) then [order[n - 1]] else [];
      LabelledIds(m, originals, predict, order, n - 1) + tail
  }

  /** The loop fails exactly when one of the items has an original and its prediction
      raises. */
  lemma {:induction false} LabelledFailsIffRaises(st0: Tally, originals: map<int, Post>, sourceType: string,
                                                  predict: string -> Option<Tensor>, order: seq<int>, n: nat)
    requires n <= |order|
    ensures Labelled(st0, originals, sourceType, predict, order, n).None? <==>
      exists j :: 0 <= j < n && Raises(st0.rows, originals, predict, order[j])
  {
    if n > 0 {
      LabelledFailsIffRaises(st0, originals, sourceType, predict, order, n - 1);
      if Labelled(st0, originals, sourceType, predict, order, n - 1).Some? {
        LabelledFrame(st0, originals, sourceType, predict, order, n - 1);
      }
    }
  }

  /** A loop that does not fail keeps every row and its data, raises `processed` only, and
      keeps the earlier results. */
  lemma {:induction false} LabelledFrame(st0: Tally, originals: map<int, Post>, sourceType: string,
                                         predict: string -> Option<Tensor>, order: seq<int>, n: nat)
    requires n <= |order| && Labelled(st0, originals, sourceType, predict, order, n).Some?
    ensures ProcessedOnlyRises(st0.rows, Labelled(st0, originals, sourceType, predict, order, n).value.rows)
    ensures |st0.results| <= |Labelled(st0, originals, sourceType, predict, order, n).value.results|
    ensures Labelled(st0, originals, sourceType, predict, order, n).value.results[..|st0.results|] == st0.results
  {
    if n > 0 {
      LabelledFrame(st0, originals, sourceType, predict, order, n - 1);
    }
  }

  /** After a loop that does not fail, a translated row is processed exactly when it was
      before or it is one of the items and it was labelled. */
  lemma {:induction false} LabelledProcessed(st0: Tally, originals: map<int, Post>, sourceType: string,
                                             predict: string -> Option<Tensor>, order: seq<int>, n: nat)
    requires n <= |order| && Labelled(st0, originals, sourceType, predict, order, n).Some?
    ensures Labelled(st0, originals, sourceType, predict, order, n).value.rows.Keys == st0.rows.Keys
    ensures forall k :: k in st0.rows ==>
      (Labelled(st0, originals, sourceType, predict, order, n).value.rows[k].processed <==>
         st0.rows[k].processed || (k in order[..n] && IsLabelled(st0.rows, originals, predict, k)))
  {
    LabelledFrame(st0, originals, sourceType, predict, order, n);
    if n > 0 {
      LabelledProcessed(st0, originals, sourceType, predict, order, n - 1);
      LabelledFrame(st0, originals, sourceType, predict, order, n - 1);
      assert order[..n] == order[..n - 1] + [order[n - 1]];
    }
  }

  /** A loop that does not fail appends exactly one `Result` per labelled item, in item
      order, with the original's id and content and the translated row's date. */
  lemma {:induction false} LabelledResults(st0: Tally, originals: map<int, Post>, sourceType: string,
                                           predict: string -> Option<Tensor>, order: seq<int>, n: nat)
    requires n <= |order| && Labelled(st0, originals, sourceType, predict, order, n).Some?
    ensures |Labelled(st0, originals, sourceType, predict, order, n).value.results| ==
      |st0.results| + |LabelledIds(st0.rows, originals, predict, order, n)|
    ensures forall j :: 0 <= j < |LabelledIds(st0.rows, originals, predict, order, n)| ==>
      var id := LabelledIds(st0.rows, originals, predict, order, n)[j];
      IsLabelled(st0.rows, originals, predict, id) &&
      Labelled(st0, originals, sourceType, predict, order, n).value.results[|st0.results| + j] ==
        ResultFor(originals[id], st0.rows[id], Labels(predict, st0.rows[id].content).value[0], sourceType, |st0.results| + j + 1)
  {
    if n > 0 {
      LabelledResults(st0, originals, sourceType, predict, order, n - 1);
      LabelledFrame(st0, originals, sourceType, predict, order, n - 1);
    }
  }

  // ---------------------------------------------------------------------------
  // The three tables of one iteration

  /** The loop over the translated table `t`, whose originals are in table `u`, written
      back into the store; `None` when a prediction raises. */
  function Labelling(s: Store, t: Table, u: Table, sourceType: string,
                     predict: string -> Option<Tensor>, order: seq<int>): Option<Store>
  {
    match Labelled(Tally(Rows(s, t), s.results), Rows(s, u), sourceType, predict, order, |order|)
    case None => None
    case Some(st) => Some(Written(s, t, st))
  }

  /** One iteration: translated topics, replies and comments in turn, each against its
      original table. One raised error rolls all three back. */
  function Pass(s: Store, predict: string -> Option<Tensor>,
                topicOrder: seq<int>, replyOrder: seq<int>, commentOrder: seq<int>): Option<Store>
  {
    match Labelling(s, TranslatedTopics, Topics, "topic", predict, topicOrder)
    case None => None
    case Some(s1) =>
      match Labelling(s1, TranslatedReplies, Replies, "reply", predict, replyOrder)
      case None => None
      case Some(s2) => Labelling(s2, TranslatedUsersComments, UsersComments, "comment", predict, commentOrder)
  }

  /** One iteration of `predict_and_save`: the three loops, then the commit, or the rollback
      of the whole iteration when a prediction raises. `topicOrder`, `replyOrder` and
      `commentOrder` are the rows the three queries returned, in their order. */
  method PredictAndSave(s: Store, predict: string -> Option<Tensor>,
                        topicOrder: seq<int>, replyOrder: seq<int>, commentOrder: seq<int>)
    returns (s': Store, rolledBack: bool)
    ensures rolledBack <==> Pass(s, predict, topicOrder, replyOrder, commentOrder).None?
    ensures rolledBack ==> s' == s
    ensures !rolledBack ==> Pass(s, predict, topicOrder, replyOrder, commentOrder) == Some(s')
  {
    s', rolledBack := s, true;
    var topics := SaveTable(Tally(s.translatedTopics, s.results), s.topics, "topic", predict, topicOrder);
    if topics.None? {
      return;
    }
    var s1 := Written(s, TranslatedTopics, topics.value);
    var replies := SaveTable(Tally(s1.translatedReplies, s1.results), s1.replies, "reply", predict, replyOrder);
    if replies.None? {
      return;
    }
    var s2 := Written(s1, TranslatedReplies, replies.value);
    var comments := SaveTable(Tally(s2.translatedComments, s2.results), s2.comments, "comment", predict, commentOrder);
    if comments.None? {
      return;
    }
    s', rolledBack := Written(s2, TranslatedUsersComments, comments.value), false;
  }

  /** A loop over table `t` that does not fail changes only `t`'s `processed` flags and
      appends to `results`: exactly the listed rows that were labelled become processed. */
  lemma LabellingRows(s: Store, t: Table, u: Table, sourceType: string,
                      predict: string -> Option<Tensor>, order: seq<int>)
    requires Labelling(s, t, u, sourceType, predict, order).Some?
    ensures forall v :: v != t ==> Rows(Labelling(s, t, u, sourceType, predict, order).value, v) == Rows(s, v)
    ensures Labelling(s, t, u, sourceType, predict, order).value.gdacs == s.gdacs
    ensures ProcessedOnlyRises(Rows(s, t), Rows(Labelling(s, t, u, sourceType, predict, order).value, t))
    ensures forall k :: k in Rows(s, t) ==>
      (Rows(Labelling(s, t, u, sourceType, predict, order).value, t)[k].processed <==>
         Rows(s, t)[k].processed || (k in order && IsLabelled(Rows(s, t), Rows(s, u), predict, k)))
  {
    var st0 := Tally(Rows(s, t), s.results);
    LabelledFrame(st0, Rows(s, u), sourceType, predict, order, |order|);
    LabelledProcessed(st0, Rows(s, u), sourceType, predict, order, |order|);
    assert order[..|order|] == order;
  }

  /** A loop over a translated table keeps the store's keys and references when its source
      type names the original table. */
  lemma LabellingKeepsValid(s: Store, t: Table, u: Table, sourceType: string,
                            predict: string -> Option<Tensor>, order: seq<int>, commentsTableName: string)
    requires Valid(s, commentsTableName) && t != u && SourceTable(sourceType, commentsTableName) == Some(u)
    requires Labelling(s, t, u, sourceType, predict, order).Some?
    ensures Valid(Labelling(s, t, u, sourceType, predict, order).value, commentsTableName)
  {
    var s' := Labelling(s, t, u, sourceType, predict, order).value;
    var st0 := Tally(Rows(s, t), s.results);
    LabellingRows(s, t, u, sourceType, predict, order);
    LabelledFrame(st0, Rows(s, u), sourceType, predict, order, |order|);
    LabelledResults(st0, Rows(s, u), sourceType, predict, order, |order|);
    RisingKeepsKeys(s, s', t, commentsTableName);
    var ids := LabelledIds(Rows(s, t), Rows(s, u), predict, order, |order|);
    forall i | 0 <= i < |s'.results|
      ensures s'.results[i].id == i + 1
      ensures var v := SourceTable(s'.results[i].sourceType, commentsTableName);
              v.Some? && s'.results[i].sourceId in Rows(s', v.value)
    {
      if i < |s.results| {
        assert s'.results[i] == s'.results[..|s.results|][i];
        assert Rows(s', t).Keys == Rows(s, t).Keys;
      } else {
        var j := i - |s.results|;
        assert IsLabelled(Rows(s, t), Rows(s, u), predict, ids[j]);
      }
    }
  }

  /** A loop over a translated table fails exactly when one of its listed rows with an
      original has a prediction that raises. */
  lemma LabellingFailsIffRaises(s: Store, t: Table, u: Table, sourceType: string,
                                predict: string -> Option<Tensor>, order: seq<int>)
    ensures Labelling(s, t, u, sourceType, predict, order).None? <==>
      exists j :: 0 <= j < |order| && Raises(Rows(s, t), Rows(s, u), predict, order[j])
  {
    LabelledFailsIffRaises(Tally(Rows(s, t), s.results), Rows(s, u), sourceType, predict, order, |order|);
  }

  /** An iteration rolls back exactly when some listed translated row with an original has
      a prediction that raises. */
  lemma PassRollsBackIffRaises(s: Store, predict: string -> Option<Tensor>,
                               topicOrder: seq<int>, replyOrder: seq<int>, commentOrder: seq<int>)
    ensures Pass(s, predict, topicOrder, replyOrder, commentOrder).None? <==>
      || (exists j :: 0 <= j < |topicOrder| && Raises(s.translatedTopics, s.topics, predict, topicOrder[j]))
      || (exists j :: 0 <= j < |replyOrder| && Raises(s.translatedReplies, s.replies, predict, replyOrder[j]))
      || (exists j :: 0 <= j < |commentOrder| && Raises(s.translatedComments, s.comments, predict, commentOrder[j]))
  {
    LabellingFailsIffRaises(s, TranslatedTopics, Topics, "topic", predict, topicOrder);
    var r1 := Labelling(s, TranslatedTopics, Topics, "topic", predict, topicOrder);
    if r1.Some? {
      var s1 := r1.value;
      LabellingRows(s, TranslatedTopics, Topics, "topic", predict, topicOrder);
      LabellingFailsIffRaises(s1, TranslatedReplies, Replies, "reply", predict, replyOrder);
      var r2 := Labelling(s1, TranslatedReplies, Replies, "reply", predict, replyOrder);
      if r2.Some? {
        var s2 := r2.value;
        LabellingRows(s1, TranslatedReplies, Replies, "reply", predict, replyOrder);
        LabellingFailsIffRaises(s2, TranslatedUsersComments, UsersComments, "comment", predict, commentOrder);
      }
    }
  }

  /** After an iteration that commits, every translated row is processed exactly when it was
      before or it has an original and was labelled; the original tables and the GDACS
      table are as they were. */
  lemma PassMeaning(s: Store, predict: string -> Option<Tensor>,
                    topicOrder: seq<int>, replyOrder: seq<int>, commentOrder: seq<int>)
    requires UnprocessedQuery(s.translatedTopics, topicOrder)
    requires UnprocessedQuery(s.translatedReplies, replyOrder)
    requires UnprocessedQuery(s.translatedComments, commentOrder)
    requires Pass(s, predict, topicOrder, replyOrder, commentOrder).Some?
    ensures var s' := Pass(s, predict, topicOrder, replyOrder, commentOrder).value;
      && s'.translatedTopics.Keys == s.translatedTopics.Keys
      && s'.translatedReplies.Keys == s.translatedReplies.Keys
      && s'.translatedComments.Keys == s.translatedComments.Keys
      && (forall k :: k in s.translatedTopics ==>
            (s'.translatedTopics[k].processed <==>
               s.translatedTopics[k].processed || IsLabelled(s.translatedTopics, s.topics, predict, k)))
      && (forall k :: k in s.translatedReplies ==>
            (s'.translatedReplies[k].processed <==>
               s.translatedReplies[k].processed || IsLabelled(s.translatedReplies, s.replies, predict, k)))
      && (forall k :: k in s.translatedComments ==>
            (s'.translatedComments[k].processed <==>
               s.translatedComments[k].processed || IsLabelled(s.translatedComments, s.comments, predict, k)))
      && s'.topics == s.topics && s'.replies == s.replies && s'.comments == s.comments && s'.gdacs == s.gdacs
  {
    var s1 := Labelling(s, TranslatedTopics, Topics, "topic", predict, topicOrder).value;
    var s2 := Labelling(s1, TranslatedReplies, Replies, "reply", predict, replyOrder).value;
    LabellingRows(s, TranslatedTopics, Topics, "topic", predict, topicOrder);
    LabellingRows(s1, TranslatedReplies, Replies, "reply", predict, replyOrder);
    LabellingRows(s2, TranslatedUsersComments, UsersComments, "comment", predict, commentOrder);
  }

  /** An iteration that commits keeps the store's keys and references. */
  lemma PassKeepsValid(s: Store, predict: string -> Option<Tensor>, commentsTableName: string,
                       topicOrder: seq<int>, replyOrder: seq<int>, commentOrder: seq<int>)
    requires Valid(s, commentsTableName)
    requires Pass(s, predict, topicOrder, replyOrder, commentOrder).Some?
    ensures Valid(Pass(s, predict, topicOrder, replyOrder, commentOrder).value, commentsTableName)
  {
    var s1 := Labelling(s, TranslatedTopics, Topics, "topic", predict, topicOrder).value;
    var s2 := Labelling(s1, TranslatedReplies, Replies, "reply", predict, replyOrder).value;
    LabellingKeepsValid(s, TranslatedTopics, Topics, "topic", predict, topicOrder, commentsTableName);
    LabellingKeepsValid(s1, TranslatedReplies, Replies, "reply", predict, replyOrder, commentsTableName);
    LabellingKeepsValid(s2, TranslatedUsersComments, UsersComments, "comment", predict, commentOrder, commentsTableName);
  }
}
