# SocialSiren core, modelled in Dafny

SocialSiren collects possible disaster reports and publishes what it finds. It has five parts:

- two crawlers: a forum spider for "tree-hole" posts, and the GDACS GeoJSON feed;
- two classification stages: an LLM chain, and a DistilBERT model over translated posts;
- a query layer for the web front end;
- two subscriber registries that send notification mail;
- small helpers: the translator's text preprocessing, a captcha generator, and the front end's login store.

This project models the data logic of these parts and proves what each promises.

## Shared modules

| module | what it holds |
|---|---|
| `Wrappers` | `Option` and `Result` |
| `PyText` | the Python string built-ins the code relies on, on `seq<char>`: `str.split()`, `" ".join`, `strip`, `int()`, `str(n)`, `lower()`, `replace`, `startswith` |
| `Schema` | the shared database as a value: one map from id to row per text table, the `results` table as a sequence in row-id order, and the GDACS table keyed by event id |
| `Dates` | the two `strptime` formats the crawlers use, with the formatting that inverts them |

The records of class_datatypes.py are extended with the columns the pipeline's code assigns: `date_time`, `processed`, the three user-comment tables, and the classification columns of `Result`.

## Stage modules

| module | source | what it models |
|---|---|---|
| `TreeholeSpider` | class_spider.py | the data side of `crawlFlowItems` |
| `GdacsSpider` | class_GDACSspider.py | `validate_and_parse_date` and `store_data` |
| `LlmStage` | class_ChatGPT.py | `parse_response`, `process_and_save_results`, one iteration of `predict_and_save` |
| `BertStage` | class_model.py | `interpret_predictions` and one iteration of `predict_and_save` |

`TreeholeSpider` covers badge ids, date normalisation, staging a topic and its replies, and one commit per flow item.

In the stage modules, each imperative loop is a `method` with loop invariants. It is proved equal to a recursive specification function, and lemmas about that function state the source's promises:

- which rows become processed;
- which `Result` rows are added and with what fields;
- that stored rows are never overwritten;
- that the store keeps its keys and references;
- that a failure rolls back everything.

## Service modules

| module | source | what it models |
|---|---|---|
| `Subscriptions` | both registries | the state values, the status answers, the unique e-mail table, the notification mails |
| `SubscriptionOrm` | class_SubscriptionSystem.py | the SQLAlchemy registry, a `class` with a `state` field |
| `SubscriptionSqlite` | SubscriptionSystem.py | the `sqlite3` registry, a `class` with a `state` field |
| `DataManager` | class_DataManager.py | `get_data` (equality filters, then ordering) and `get_data_gdacs` |
| `Translator` | class_translator.py | `preprocess_text` and `translate` |
| `Captcha` | class_CaptchaService.py | `generate_captcha_text` and `get_captcha`'s session write |
| `LoginStore` | frontend/src/store/index.js | the Vuex login store and `localStorage` |

## What becomes a parameter

Calls into code outside the model become parameters:

- the LLM chain, and the BERT tokenizer and model, as functions that may fail;
- `sent_tokenize` and the translation model;
- `random.choice`, as a function from draw number to index;
- the current year;
- the order in which an unordered query returns rows;
- whether the database raises;
- the comments table's name.

## Model

| member | source | states |
|---|---|---|
| PyText.SplitGivesWords | class_ChatGPT.py:43 | every part `str.split()` returns is a non-empty, whitespace-free word |
| PyText.SplitEmptyIffBlank | class_ChatGPT.py:43-44 | `split()` returns no parts exactly when the text is all whitespace, so `parts[0]` fails only then |
| PyText.SplitJoinRoundTrip | class_translator.py:21 | joining words with single spaces and splitting again gives the same words back |
| PyText.DecimalValue | class_spider.py:87 | the decimal text of a number has digit value equal to that number |
| PyText.PyIntOfDecimal | class_spider.py:87 | `int()` of a number's decimal text is that number |
| PyText.PyIntOfBlank | class_spider.py:87 | `int()` of an all-whitespace text raises |
| PyText.AsciiLower | class_DataManager.py:21 | ASCII-only lower-casing: each of `A`–`Z` becomes its small letter and every other character is kept, position by position |
| PyText.AsciiLowerIdempotent | class_DataManager.py:21 | lower-cased text holds no capital letter, and lower-casing it again changes nothing |
| Schema.RisingKeepsKeys | class_datatypes.py:11-28 | raising `processed` flags in one table keeps every table keyed by `id` and both reply tables referencing their topic tables |
| Dates.IsoTextOfParsed | class_GDACSspider.py:52 | a text that `%Y-%m-%dT%H:%M:%S` accepts names a valid date and is exactly that date written `YYYY-MM-DDTHH:MM:SS`; with Dates.IsoRoundTrip, the accepted texts are exactly those of real dates |
| Dates.StampTextOfParsed | class_spider.py:94 | a stamp that `%Y-%m-%d %H:%M` accepts names a valid date with seconds 0 and is exactly that date written `YYYY-MM-DD HH:MM`; with Dates.StampRoundTrip, the accepted stamps are exactly those of real dates |
| Dates.IsoRoundTrip | class_GDACSspider.py:52 | parsing the ISO text of a valid date gives that date back |
| Dates.StampRoundTrip | class_spider.py:94 | parsing the minute stamp of a valid date with zero seconds gives that date back |
| GdacsSpider.ValidatedIsIsoText | class_GDACSspider.py:48-54 | a date returned by `validate_and_parse_date` is valid and its `YYYY-MM-DDTHH:MM:SS` text is the input; with GdacsSpider.ValidateIsoText, the accepted texts are exactly those of real dates |
| GdacsSpider.ValidateIsoText | class_GDACSspider.py:48-54 | every valid date's ISO text is accepted and gives that date |
| GdacsSpider.DefaultTodateIsEpoch | class_GDACSspider.py:65 | the default `todate` parses to 1970-01-01 00:00:00 |
| GdacsSpider.MissingPropertiesDefault | class_GDACSspider.py:61-65 | a feature without properties gets `Unknown` for eventid, description and country, and the epoch as its date |
| GdacsSpider.IdsUpToMembers | class_GDACSspider.py:62 | an id is among the first `n` features' ids exactly when one of them has that eventid |
| GdacsSpider.InsertUpToMeaning | class_GDACSspider.py:60-76 | after the first `n` features, the table holds the old rows unchanged plus, for each new eventid, the row of the first feature carrying it |
| GdacsSpider.InsertFeatures | class_GDACSspider.py:60-77 | fails exactly when some feature's date is bad, with the first bad date's error; otherwise gives the insert-if-absent table |
| GdacsSpider.StoreData | class_GDACSspider.py:56-83 | a bad date anywhere leaves the store unchanged and reports the error; otherwise old rows are kept, exactly the new eventids are added with their rows, and eventids stay unique |
| TreeholeSpider.BoxIdOfDecimal | class_spider.py:87 | a badge of any first character followed by a number's digits gives that number |
| TreeholeSpider.BoxIdOfBlank | class_spider.py:87 | a badge with nothing but whitespace after its first character raises |
| TreeholeSpider.FirstStampMeaning | class_spider.py:89-90 | there is no stamp exactly when the pattern matches nowhere; otherwise the stamp is the match at the first position where it matches |
| TreeholeSpider.NoStampNoDate | class_spider.py:90-100 | a header with no match gets no date instead of an error |
| TreeholeSpider.FullStampDate | class_spider.py:93-94 | a `YYYY-MM-DD HH:MM` stamp of the 2000s gives its own date, whatever the current year |
| TreeholeSpider.ShortStampDate | class_spider.py:96-97 | an `MM-DD HH:MM` stamp gives that date in the current year |
| TreeholeSpider.EntryCount | class_spider.py:86 | entries are paired up to the shortest of the header, code and content lists |
| TreeholeSpider.StageSidebar | class_spider.py:86-114 | the loop over one sidebar stages exactly what the recursive staging function gives |
| TreeholeSpider.StageFailsIffBadId | class_spider.py:87 | staging fails exactly when some entry's badge is not an integer, and then with the bad-id error |
| TreeholeSpider.StagedTopic | class_spider.py:103-108 | the only pending topic is entry 0's, and only when its id is not stored yet |
| TreeholeSpider.StagedRepliesSound | class_spider.py:109-114 | every pending reply is a later entry's reply, pointing at entry 0's id and not yet stored |
| TreeholeSpider.StagedRepliesComplete | class_spider.py:109-114 | every later entry whose id is not stored has its reply pending |
| TreeholeSpider.AddRowsMeaning | class_spider.py:119-120 | committing fresh rows adds exactly their ids with those rows and keeps every stored row |
| TreeholeSpider.StagedCommitFails | class_spider.py:102-125 | a flow item's commit fails exactly when two of its pending replies share an id |
| TreeholeSpider.CrawlFlowItems | class_spider.py:72-125 | the loop over flow items gives exactly the per-item stage-and-commit fold, stopping at the first failure |
| TreeholeSpider.CrawlStopsAtFailure | class_spider.py:122-125 | after a failure no later flow item is written, and earlier commits stay |
| TreeholeSpider.CommitStagedTopics | class_spider.py:104-108 | a committed flow item overwrites no topic, stays keyed by id, and stores entry 0's topic |
| TreeholeSpider.CommitStagedReplies | class_spider.py:110-114 | a committed flow item overwrites no reply, and every new reply points at entry 0's id |
| TreeholeSpider.CommitStagedReferences | class_spider.py:112 | after a commit every reply still references a stored topic |
| TreeholeSpider.CommitStagedKeepsValid | class_spider.py:119-120 | a commit keeps the store valid, changes only topics and replies, and overwrites nothing |
| TreeholeSpider.CrawlKeepsValid | class_spider.py:72-125 | a crawl, whether it stops early or not, keeps the store valid, changes only topics and replies, and overwrites nothing |
| LlmStage.ParseFailsIffBlank | class_ChatGPT.py:43-44 | parsing fails exactly when the answer is blank |
| LlmStage.ParseOfAnswer | class_ChatGPT.py:43-51 | `否` gives not-a-disaster; `是` gives a disaster with tokens 2 to 4 (missing ones empty); any other first token gives not-a-disaster; later tokens are ignored |
| LlmStage.VerdictShape | class_ChatGPT.py:44-51 | a verdict is a disaster exactly when the first token is `是`, and otherwise has empty fields |
| LlmStage.ProcessAndSaveResults | class_ChatGPT.py:53-77 | the item loop gives exactly the recursive per-item fold |
| LlmStage.ClassifiedFrame | class_ChatGPT.py:74 | `processed` only rises, and earlier results are kept as a prefix |
| LlmStage.ClassifiedProcessed | class_ChatGPT.py:57-77 | a listed row becomes processed exactly when its classification succeeds; failures stay unprocessed and the loop goes on |
| LlmStage.ClassifiedResults | class_ChatGPT.py:64-73 | one `Result` is appended per success, in order, built from that row and its verdict |
| LlmStage.ProcessedRows | class_ChatGPT.py:53-77 | one table's pass changes no other table, and each row ends as it was or processed exactly on success |
| LlmStage.ProcessedResults | class_ChatGPT.py:64-73 | one table's pass appends exactly one `Result` per success, numbered after the existing ones |
| LlmStage.ProcessedKeepsValid | class_ChatGPT.py:53-77 | one table's pass keeps the store's keys and its results' source references valid |
| LlmStage.PredictAndSave | class_ChatGPT.py:85-96 | one iteration runs the topics, replies and comments passes in turn |
| LlmStage.PassMeaning | class_ChatGPT.py:87-96 | after an iteration, each row is processed exactly when it was before or its content classifies, and the translated and GDACS tables are unchanged |
| LlmStage.PassKeepsValid | class_ChatGPT.py:85-96 | an iteration keeps the store valid |
| BertStage.Interpretations | class_model.py:127-139 | one interpretation per item paired with a prediction row, in input order, keeping the item's text; in range: a disaster exactly when the probability exceeds 0.8, with that probability and label; out of range: `(text, 0, 0.0, "Not a Disaster")`; a flagged item always exceeds 0.8 |
| BertStage.InterpretPredictions | class_model.py:117-139 | the loop gives exactly the per-item interpretations |
| BertStage.Labels | class_model.py:51-53 | a prediction on one text gives at most one interpretation |
| BertStage.SaveTable | class_model.py:48-65 | the loop over one translated table gives exactly the recursive per-row fold |
| BertStage.LabelledFailsIffRaises | class_model.py:48-65 | the fold fails exactly when a listed row with an original has a prediction that raises |
| BertStage.LabelledFrame | class_model.py:65 | `processed` only rises, and earlier results are kept as a prefix |
| BertStage.LabelledProcessed | class_model.py:49-65 | a row becomes processed exactly when it has an original and was labelled |
| BertStage.LabelledResults | class_model.py:54-64 | one `Result` per interpretation, in order, including non-disasters |
| BertStage.PredictAndSave | class_model.py:40-113 | an iteration rolls back, leaving the store unchanged, exactly when one prediction raises; otherwise it commits the three passes |
| BertStage.LabellingRows | class_model.py:48-65 | one table's pass changes only that table's `processed` flags and the results |
| BertStage.LabellingKeepsValid | class_model.py:48-105 | one table's pass keeps the store valid |
| BertStage.LabellingFailsIffRaises | class_model.py:48-65 | one table's pass fails exactly when one of its listed rows raises |
| BertStage.PassRollsBackIffRaises | class_model.py:107-111 | an iteration rolls back exactly when some listed row of the three tables raises |
| BertStage.PassMeaning | class_model.py:42-107 | after a commit, each translated row is processed exactly when it was before or it has an original and was labelled; the original tables are unchanged |
| BertStage.PassKeepsValid | class_model.py:42-107 | a committed iteration keeps the store valid |
| Subscriptions.Without | SubscriptionSystem.py:49 | the delete keeps exactly the other addresses, and leaves the list unchanged when the address is absent |
| Subscriptions.WithoutMeaning | SubscriptionSystem.py:49-52 | the delete keeps addresses unique and removes one row when the address is stored, none otherwise |
| Subscriptions.AppendKeepsNoDuplicates | SubscriptionSystem.py:21 | inserting an address not yet stored keeps the column unique |
| Subscriptions.SendEmailsAsWritten | SubscriptionSystem.py:69-84 | one mail per address in list order; the `k`-th mail's `To` headers list the first `k` addresses |
| Subscriptions.SecondMailShowsFirstAddress | SubscriptionSystem.py:80-83 | with two subscribers, the second mail shows the first subscriber's address |
| Subscriptions.SendEmails | SubscriptionSystem.py:69-84 | one mail per address in list order, each with the sender, subject and body, addressed to its recipient alone, so with unique addresses no mail shows another subscriber |
| SubscriptionOrm.SubscriptionSystem.constructor | class_SubscriptionSystem.py:12-19 | starts `Idle` with the stored unique addresses, sending as the user name |
| SubscriptionOrm.SubscriptionSystem.AddSubscriber | class_SubscriptionSystem.py:22-40 | busy: the busy answer, nothing changes; new address: appended, success answer, `Idle`; existing address: nothing changes, already-exists answer, `Idle` |
| SubscriptionOrm.SubscriptionSystem.RemoveSubscriber | class_SubscriptionSystem.py:42-56 | busy: the busy answer, nothing changes; otherwise only that address is deleted, the answer is not-found or removed by whether it was stored, and the state is `Idle` |
| SubscriptionOrm.SubscriptionSystem.GetAllSubscribers | class_SubscriptionSystem.py:64-70 | returns exactly the stored addresses |
| SubscriptionOrm.SubscriptionSystem.NotifySubscribersAsWritten | class_SubscriptionSystem.py:58-62 | the call raises and leaves the state `SendingNotifications` |
| SubscriptionOrm.AddAfterNotifyIsBusy | class_SubscriptionSystem.py:22-24 | after a notification as written, every add answers busy |
| SubscriptionOrm.SubscriptionSystem.NotifySubscribers | class_SubscriptionSystem.py:58-62 | one mail per stored address, each to that address alone, ending `Idle` |
| SubscriptionOrm.AddAfterNotifySucceeds | class_SubscriptionSystem.py:22-33 | after a completed notification, adding a new address succeeds |
| SubscriptionSqlite.SubscriptionSystem.constructor | SubscriptionSystem.py:7-23 | starts `Idle` with the stored unique addresses, sending as the user name |
| SubscriptionSqlite.SubscriptionSystem.AddSubscriber | SubscriptionSystem.py:28-41 | busy: the busy answer, nothing changes; new address: appended, success answer, `Idle`; duplicate: nothing changes, already-exists answer, `Idle` |
| SubscriptionSqlite.SubscriptionSystem.RemoveSubscriber | SubscriptionSystem.py:43-55 | busy: the busy answer, nothing changes; absent: not-found answer, nothing changes, `Idle`; present: only it is deleted, removed answer, `Idle` |
| SubscriptionSqlite.SubscriptionSystem.GetAllSubscribers | SubscriptionSystem.py:63-67 | returns exactly the stored addresses |
| SubscriptionSqlite.SubscriptionSystem.NotifySubscribersAsWritten | SubscriptionSystem.py:57-84 | one mail per stored address in order, the `k`-th showing the first `k` addresses, ending `Idle` |
| SubscriptionSqlite.SubscriptionSystem.NotifySubscribers | SubscriptionSystem.py:57-61 | one mail per stored address, each to that address alone, no mail showing another subscriber, ending `Idle` |
| DataManager.ConditionsMeaning | class_DataManager.py:13-22 | a row satisfies the conditions built from the first `n` filters exactly when it meets those filters |
| DataManager.MatchingMeaning | class_DataManager.py:22 | filtering keeps each row as many times as it was stored when it satisfies the conditions, and drops it otherwise |
| DataManager.TextLeTotal | class_DataManager.py:25 | text ordering is total |
| DataManager.TextLeTransitive | class_DataManager.py:25 | text ordering is transitive |
| DataManager.KeyLeTotal | class_DataManager.py:25 | the SQL ordering of column values is total |
| DataManager.KeyLeTransitive | class_DataManager.py:25 | the SQL ordering of column values is transitive |
| DataManager.SortBy | class_DataManager.py:23-25 | ordering permutes the rows |
| DataManager.SortBySorted | class_DataManager.py:23-25 | ordering gives rows sorted ascending or descending as asked |
| DataManager.GetData | class_DataManager.py:9-31 | returns the filtered, optionally ordered rows, and `None` exactly when the database fails |
| DataManager.GetDataMeaning | class_DataManager.py:12-26 | without failure: every row meeting all filters is returned as often as stored, no other row is returned, and the rows are sorted when `order_by` names a column |
| DataManager.NoFiltersReturnsAll | class_DataManager.py:12-26 | filters that all impose nothing, with no ordering, return every result row in order |
| DataManager.GetDataGdacs | class_DataManager.py:33-47 | `[]` on failure; otherwise a permutation of all GDACS rows, unchanged when `order_by` names no column |
| DataManager.GetDataGdacsSorted | class_DataManager.py:38-42 | with a valid `order_by`, the GDACS rows come back sorted in the requested direction |
| Translator.PreprocessMeaning | class_translator.py:23-25 | each full-width comma becomes `, `, each ideographic stop becomes `. `, and every other character is kept in order |
| Translator.PreprocessLeavesNoFullWidth | class_translator.py:24 | the output has no full-width comma and no ideographic stop |
| Translator.PreprocessIdempotent | class_translator.py:24 | preprocessing twice is preprocessing once |
| Translator.PreprocessLength | class_translator.py:24 | the output is longer than the input by the number of replaced characters |
| Translator.Translations | class_translator.py:15-20 | one translation per sentence, in order, each of the preprocessed sentence |
| Translator.Translate | class_translator.py:12-21 | the result is the per-sentence translations joined by single spaces |
| Translator.TranslateWords | class_translator.py:21 | when each translation is one word, splitting the result gives the translations back |
| Captcha.DefaultAlphabet | class_CaptchaService.py:7 | the default alphabet has 32 characters without `I`, `O`, `0` or `1`, and the default length is 5 |
| Captcha.Choices | class_CaptchaService.py:15 | `n` draws succeed exactly when `n` is 0 or the alphabet is non-empty, giving `n` characters, each the one drawn |
| Captcha.GenerateCaptchaText | class_CaptchaService.py:13-15 | succeeds exactly when the length is not positive or the alphabet is non-empty; the text has the configured length and only alphabet characters |
| Captcha.EveryTextCanBeDrawn | class_CaptchaService.py:13-15 | every text of the configured length over the alphabet is produced by some draw |
| Captcha.GetCaptcha | class_CaptchaService.py:33-38 | the session's `captcha` key holds exactly the rendered text, and nothing else in the session changes |
| LoginStore.MutationsIdempotent | frontend/src/store/index.js:11-19 | every mutation is idempotent, and `login`/`logout` equal `setLogin(true)`/`setLogin(false)` |
| LoginStore.Store.constructor | frontend/src/store/index.js:5-9 | the store starts logged out |
| LoginStore.Store.Commit | frontend/src/store/index.js:10-20 | committing a mutation sets `isLoggedIn` as the mutation says |
| LoginStore.Store.LoginAction | frontend/src/store/index.js:22-24 | the login action leaves the store logged in |
| LoginStore.Store.LogoutAction | frontend/src/store/index.js:25-28 | the logout action removes `jwt` only, keeps every other stored key, and leaves the store logged out |
| LoginStore.LocalStorage.RemoveItem | frontend/src/store/index.js:26 | removing a key deletes it and keeps the others |

## Left out

- Concurrency is not modelled: threads and `db_lock` are left out, and each commit is one atomic step.
- I/O is not modelled:
  - Selenium page automation (login, refresh, clicks, waits);
  - GeoJSON download, file polling and renaming;
  - SMTP delivery and MIME construction beyond headers, subject and body;
  - PIL rendering in `generate_captcha_image`;
  - the Flask session, which is a plain map here.
- The classifiers and models are abstract functions: the LLM chain, the tokenizer, `model.predict`, softmax/argmax, the label encoder, and NLLB/NLTK.
- Floating point: BERT probabilities are `real`.
- Only one iteration of each `while True` polling loop is modelled. `time.sleep` and the clocks are left out; the current year is a parameter.
- The module-level demo in class_translator.py is not part of this model, nor is the `__main__` demo of SubscriptionSystem.py.
- Query order:
  - Without `ORDER BY`, SQL returns rows in an unspecified order, so the stages take the order of each query's rows as a parameter.
  - Ties under `ORDER BY` keep their stored order here; SQL leaves tie order open.
  - `AUTOINCREMENT` ids and `SELECT` order in the registries are represented by list order.
- Names and tables:
  - The comments table's name is a parameter; that class is not part of this model.
  - The LLM stage reads and marks the original tables, as its queries at class_ChatGPT.py:87-89 do, not the translated ones.
  - The LLM stage's `source_type` is the table name (`topics`), while the BERT stage writes `topic`/`reply`/`comment`; the model keeps both.
- DataManager.SqlEquals: SQLite type affinity is reduced to comparing numbers by value and other values as written; NULL equals nothing.
- DataManager.ConditionsMeaning: only `is_disaster` is taken to be the Boolean column of `Result`. `AsciiLower` lower-cases ASCII letters only and keeps the length. Python's `str.lower` also lower-cases other letters and can lengthen the text (`'İ'` becomes two characters). The membership test against the three accepted words comes out the same either way.
- DataManager.GetData: a filter key that names no column of `Result` is skipped. The model treats every such key as a non-column. In the source, a key that is an attribute but not a column (`metadata`, `__tablename__` and the like) passes `hasattr` and then raises at `field.type` (class_DataManager.py:20), so `get_data` returns `None`. The same holds for such an `order_by` at class_DataManager.py:23-25. These raising paths are not modelled. The database raising is the parameter `failed`. Ordering by a date compares its fields in order.
- LlmStage.PredictAndSave: database errors during the pass are not modelled; the stage's own per-item exceptions are.
- BertStage.PassRollsBackIffRaises: only a raising prediction rolls an iteration back, as for BertStage.PredictAndSave below.
- BertStage.PredictAndSave: only a raising prediction rolls an iteration back here. The queries at class_model.py:42-44 and the commit at class_model.py:107 can also raise, for instance on a locked SQLite database, since this stage does not take `db_lock`. They then roll back at class_model.py:110-111. These database errors are not modelled, so "exactly when a prediction raises" holds only for iterations whose database calls succeed.
- GdacsSpider.StoreData: the feed is taken to be a list of objects, GeoJSON property values are taken to be text, and numeric `eventid`s, which the feed uses, are represented by their text. Four raising paths are therefore not modelled; in the source each rolls back and re-raises at class_GDACSspider.py:79-83:
  - `"features": null` makes `data.get('features', [])` return `None` at class_GDACSspider.py:60, and the `for` raises `TypeError`;
  - a feature that is not an object raises `AttributeError` at `feature.get` (class_GDACSspider.py:61);
  - `"properties": null` raises `AttributeError` at class_GDACSspider.py:62;
  - a `null` or numeric `todate` raises `TypeError` in `re.match` (class_GDACSspider.py:51, reached from :66).
- BertStage.Labels: a prediction for one text has at most one row, so each translated item yields at most one `Result`. Prediction rows have the fixed width of the label set.
- TreeholeSpider.NormaliseDate: a `YYYY-MM-DD` stamp of the 1900s fails the `startswith('20')` test and gets the current year prefixed. The resulting text does not parse, so it yields no date, as in the source.
- PyText.PyInt: `int()` here accepts an optional sign and ASCII digits, with surrounding whitespace. Underscores and non-ASCII digits are not modelled; the badges never hold them.
- TreeholeSpider.FirstStampMeaning: the date regex's `\d` matches ASCII digits only here; Python's also matches other Unicode decimal digits. The same holds for the GDACS date pattern.
- Dates.IsoTextOfParsed: `strptime` is modelled on the fixed-width digit groups that the pattern and the stamp regex let through. Its one- and three-digit field forms are not modelled. The same holds for Dates.StampTextOfParsed.
- Captcha.DefaultAlphabet: does not state that the 32 characters are distinct.
- SubscriptionSqlite.SubscriptionSystem.RemoveSubscriber: database errors other than those shown are not modelled; in the source they would leave the state `RemovingSubscriber`.
- SubscriptionOrm.SubscriptionSystem.RemoveSubscriber: the same holds. A database error in the delete or the commit (class_SubscriptionSystem.py:48-49) escapes with the state left at `RemovingSubscriber`.
- SubscriptionOrm.SubscriptionSystem.AddSubscriber: only the `IntegrityError` of a duplicate address is modelled. Any other database error escapes with the state left at `AddingSubscriber`.
- SubscriptionSqlite.SubscriptionSystem.AddSubscriber: the same holds for `sqlite3` errors other than `IntegrityError`.
- SubscriptionOrm.SubscriptionSystem.AddSubscriber: the `Subscriber` table is not part of this model. Its `UNIQUE` e-mail column is inferred from the `IntegrityError` handler at class_SubscriptionSystem.py:34-38.

## Findings

| source | as written | input that shows it | evidently intended | confidence | as-written member | corrected member |
|---|---|---|---|---|---|---|
| SubscriptionSystem.py:80-83 | `msg['To'] = email` on the one reused message adds another `To` header, so the mail for the `k`-th subscriber lists all earlier subscribers | two subscribers `a`, `b`: the mail sent to `b` carries `To: a` and `To: b` | each mail addressed to its recipient alone | not executed | Subscriptions.SecondMailShowsFirstAddress | Subscriptions.SendEmails |
| class_SubscriptionSystem.py:58-62 | `notify_subscribers` calls `self.send_emails`, which this class does not define: `AttributeError` after the state was set to `SendingNotifications`, so every later add and remove answers busy | any call of `notify_subscribers`, then `add_subscriber("x@y")` | sending ends in `Idle` and later operations proceed | not executed | SubscriptionOrm.AddAfterNotifyIsBusy | SubscriptionOrm.AddAfterNotifySucceeds |
