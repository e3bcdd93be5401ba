/** The data side of the forum crawler: reading a post's id from its badge, finding and
    normalising the post's date, and storing each opened thread's sidebar — entry 0 as a
    topic, the later entries as its replies — by insert-if-absent, one commit per thread. */
module TreeholeSpider {
  import opened Wrappers
  import opened PyText
  import opened Schema
  import opened Dates

  // ---------------------------------------------------------------------------
  // Badge ids

  /** `int(text[1:])`: the badge threads `#` followed by the number. `None` stands for the
      `ValueError` that `int` raises, which is not caught inside the entry loop. */
  function ParseBoxId(text: string): Option<int> {
    PyInt(if |text| == 0 then "" else text[1..])
  }

  /** Whatever the first character, a badge ending in a number's decimal text is that number. */
  lemma BoxIdOfDecimal(c: char, n: nat)
    ensures ParseBoxId([c] + Decimal(n)) == Some(n)
  {
    assert ([c] + Decimal(n))[1..] == Decimal(n);
    PyIntOfDecimal(n);
  }

  /** An empty badge, or one with nothing but blanks after its first character, has no id. */
  lemma BoxIdOfBlank(text: string)
    requires |text| <= 1 || IsBlank(text[1..])
    ensures ParseBoxId(text) == None
  {
    var rest := if |text| == 0 then "" else text[1..];
    assert IsBlank(rest);
    PyIntOfBlank(rest);
  }

  // ---------------------------------------------------------------------------
  // The date in a header

  /** `re.search(r'(\d{4}-)?\d{2}-\d{2} \d{2}:\d{2}', s)` from position `i` on: the
      leftmost position where the pattern matches wins, and there the optional year
      group is tried first. */
  function StampFrom(s: string, i: nat): Option<string>
    requires i <= |s|
    decreases |s| - i
  {
    if LongStampAt(s, i) then Some(s[i..i + 16])
    else if ShortStampAt(s, i) then Some(s[i..i + 11])
    else if i == |s| then None
    else StampFrom(s, i + 1)
  }

  function FirstStamp(s: string): Option<string> {
    StampFrom(s, 0)
  }

  /** The pattern matches at position `i` with the text `t`. */
  predicate MatchAt(s: string, i: nat, t: string) {
    || (LongStampAt(s, i) && t == s[i..i + 16])
    || (!LongStampAt(s, i) && ShortStampAt(s, i) && t == s[i..i + 11])
  }

  /** The pattern matches at no position before `i`. */
  predicate NoMatchBefore(s: string, i: nat) {
    forall j :: 0 <= j < i ==> !LongStampAt(s, j) && !ShortStampAt(s, j)
  }

  lemma {:induction false} StampFromMeaning(s: string, i: nat)
    requires i <= |s| && NoMatchBefore(s, i)
    ensures StampFrom(s, i).None? <==> NoMatchBefore(s, |s| + 1)
    ensures StampFrom(s, i).Some? ==>
      exists k :: i <= k <= |s| && NoMatchBefore(s, k) && MatchAt(s, k, StampFrom(s, i).value)
    decreases |s| - i
  {
    if LongStampAt(s, i) || ShortStampAt(s, i) {
      assert MatchAt(s, i, StampFrom(s, i).value);
    } else if i == |s| {
      assert NoMatchBefore(s, |s| + 1) by {
        forall j | 0 <= j < |s| + 1 ensures !LongStampAt(s, j) && !ShortStampAt(s, j) {
          if j == i {
          }
        }
      }
    } else {
      assert NoMatchBefore(s, i + 1) by {
        forall j | 0 <= j < i + 1 ensures !LongStampAt(s, j) && !ShortStampAt(s, j) {
          if j == i {
          }
        }
      }
      StampFromMeaning(s, i + 1);
    }
  }

  /** The stamp found is the leftmost match; none is found exactly when the pattern
      matches nowhere. */
  lemma FirstStampMeaning(s: string)
    ensures FirstStamp(s).None? <==> NoMatchBefore(s, |s| + 1)
    ensures FirstStamp(s).Some? ==> exists k :: NoMatchBefore(s, k) && MatchAt(s, k, FirstStamp(s).value)
  {
    StampFromMeaning(s, 0);
  }

  const UnknownDateTime: string := "Unknown Date-Time"

  /** The date of a post: the header's first stamp (or the placeholder text when there is
      none), parsed as `YYYY-MM-DD HH:MM` when it starts with `20` and with the current year
      prefixed otherwise. A failed parse gives `None`, as the caught `ValueError` does. */
  function NormaliseDate(header: string, currentYear: nat): Option<DateTime> {
    var text := if FirstStamp(header).Some? then FirstStamp(header).value else UnknownDateTime;
    if StartsWith(text, "20") then StrptimeMinute(text)
    else StrptimeMinute(Decimal(currentYear) + "-" + text)
  }

  /** A header without a stamp gives no date. */
  lemma NoStampNoDate(header: string, currentYear: nat)
    requires NoMatchBefore(header, |header| + 1)
    ensures NormaliseDate(header, currentYear) == None
  {
    FirstStampMeaning(header);
    assert !StartsWith(UnknownDateTime, "20") by {
      assert UnknownDateTime[0] == 'U';
    }
  }

  /** A header that is a full stamp of a 21st-century date gives that date, whatever the
      current year. */
  lemma FullStampDate(d: DateTime, currentYear: nat)
    requires ValidDateTime(d) && d.second == 0 && 2000 <= d.year <= 2099
    ensures NormaliseDate(StampText(d), currentYear) == Some(d)
  {
    var s := StampText(d);
    StampRoundTrip(d);
    assert s[0..16] == s;
    assert FirstStamp(s) == Some(s);
    assert s[..2] == Pad2(d.year / 100) by {
      assert s[..4] == Pad4(d.year);
      assert Pad4(d.year)[..2] == Pad2(d.year / 100);
    }
    assert Pad2(d.year / 100) == "20" by {
      assert d.year / 100 == 20;
    }
  }

  /** `strftime('%m-%d %H:%M')`: a stamp without its year. */
  function ShortText(d: DateTime): (s: string)
    requires ValidDateTime(d)
    ensures |s| == 11
  {
    Pad2(d.month) + "-" + Pad2(d.day) + " " + Pad2(d.hour) + ":" + Pad2(d.minute)
  }

  /** The decimal text of a four-digit number is its zero-padded text. */
  lemma DecimalOfFourDigits(n: nat)
    requires 1000 <= n <= 9999
    ensures Decimal(n) == Pad4(n)
  {
    var a, b, c, e := n / 1000, n / 100 % 10, n / 10 % 10, n % 10;
    assert n / 10 / 10 / 10 == a && n / 10 / 10 % 10 == b;
    assert Decimal(n / 10 / 10) == [DigitChar(a), DigitChar(b)];
    assert Decimal(n) == [DigitChar(a), DigitChar(b), DigitChar(c), DigitChar(e)];
    assert n / 100 / 10 == a && n / 100 % 10 == b && n % 100 / 10 == c && n % 100 % 10 == e;
  }

  /** A header that is a stamp without a year gives that date in the current year. */
  lemma ShortStampDate(d: DateTime, currentYear: nat)
    requires ValidDateTime(d) && d.second == 0 && d.year == currentYear && 1000 <= currentYear
    ensures NormaliseDate(ShortText(d), currentYear) == Some(d)
  {
    var s := ShortText(d);
    assert !LongStampAt(s, 0);
    FieldOfPad(s, 0, 2, Pad2(d.month));
    FieldOfPad(s, 3, 2, Pad2(d.day));
    FieldOfPad(s, 6, 2, Pad2(d.hour));
    FieldOfPad(s, 9, 2, Pad2(d.minute));
    assert ShortStampAt(s, 0);
    assert s[0..11] == s;
    assert FirstStamp(s) == Some(s);
    assert s[0] == DigitChar(d.month / 10) && d.month / 10 <= 1;
    assert !StartsWith(s, "20");
    DecimalOfFourDigits(currentYear);
    assert Decimal(currentYear) + "-" + s == StampText(d);
    StampRoundTrip(d);
  }

  // ---------------------------------------------------------------------------
  // Staging one sidebar

  /** The three element lists of an opened thread: headers, id badges and contents. */
  datatype Sidebar = Sidebar(headers: seq<string>, codes: seq<string>, contents: seq<string>)

  /** `zip` stops at the shortest list. */
  function EntryCount(sb: Sidebar): (n: nat)
    ensures n <= |sb.headers| && n <= |sb.codes| && n <= |sb.contents|
    ensures n == |sb.headers| || n == |sb.codes| || n == |sb.contents|
  {
    var m := if |sb.headers| < |sb.codes| then |sb.headers| else |sb.codes|;
    if m < |sb.contents| then m else |sb.contents|
  }

  /** What the crawler threads off entry `i`: the badge's id (`None` when `int` raises), the
      normalised date and the content text. */
  datatype Entry = Entry(code: Option<int>, date: Option<DateTime>, content: string)

  function ReadEntry(sb: Sidebar, year: nat, i: nat): Entry
    requires i < EntryCount(sb)
  {
    Entry(ParseBoxId(sb.codes[i]), NormaliseDate(sb.headers[i], year), sb.contents[i])
  }

  /** The first `n` entries of a sidebar, as read. */
  function ReadEntries(sb: Sidebar, year: nat, n: nat): (es: seq<Entry>)
    requires n <= EntryCount(sb)
    ensures |es| == n
  {
    if n == 0 then [] else ReadEntries(sb, year, n - 1) + [ReadEntry(sb, year, n - 1)]
  }

  lemma {:induction false} ReadEntryAt(sb: Sidebar, year: nat, n: nat, i: nat)
    requires i < n <= EntryCount(sb)
    ensures ReadEntries(sb, year, n)[i] == ReadEntry(sb, year, i)
  {
    if i < n - 1 {
      ReadEntryAt(sb, year, n - 1, i);
    }
  }

  /** The rows added to the session and not yet committed. */
  datatype Pending = Pending(topics: seq<Post>, replies: seq<Post>)

  /** Why a thread's commit does not happen: a badge without a number, or two pending
      rows with the same primary key. */
  datatype CrawlError = BadBoxId | DuplicateKey

  /** Entry `i` of the entries `es`, given the rows pending so far. The existence checks run
      without autoflush, so they see the committed tables `s` only. A later entry's topic
      is entry 0's id, read again from entry 0's badge. */
  function StageEntry(s: Store, es: seq<Entry>, i: nat, p: Pending): Result<Pending, CrawlError>
    requires i < |es|
  {
    match es[i].code
    case None => Err(BadBoxId)
    case Some(code) =>
      if i == 0 then
        if code in s.topics then Ok(p) else Ok(p.(topics := p.topics + [NewTopic(code, es[0].content, es[0].date)]))
      else if code in s.replies then Ok(p)
      else match es[0].code
        case None => Err(BadBoxId)
        case Some(topicId) => Ok(p.(replies := p.replies + [NewReply(code, es[i].content, topicId, es[i].date)]))
  }

  /** The first `n` entries staged in order; the first error ends it. */
  function Stage(s: Store, es: seq<Entry>, n: nat): Result<Pending, CrawlError>
    requires n <= |es|
  {
    if n == 0 then Ok(Pending([], []))
    else match Stage(s, es, n - 1)
      case Err(e) => Err(e)
      case Ok(p) => StageEntry(s, es, n - 1, p)
  }

  /** A whole sidebar, staged. */
  function StageAll(s: Store, sb: Sidebar, year: nat): Result<Pending, CrawlError> {
    Stage(s, ReadEntries(sb, year, EntryCount(sb)), EntryCount(sb))
  }

  lemma {:induction false} StageErrSticks(s: Store, es: seq<Entry>, m: nat, n: nat)
    requires m <= n <= |es| && Stage(s, es, m).Err?
    ensures Stage(s, es, n) == Stage(s, es, m)
    decreases n
  {
    if n > m {
      StageErrSticks(s, es, m, n - 1);
    }
  }

  /** One pass of the entry loop: read entry `i` and add its row to the pending ones
      unless its id is stored. */
  method StageOne(s: Store, sb: Sidebar, year: nat, i: nat, ghost es: seq<Entry>, p: Pending)
    returns (r: Result<Pending, CrawlError>)
    requires i < |es| == EntryCount(sb) && es == ReadEntries(sb, year, |es|)
    ensures r == StageEntry(s, es, i, p)
  {
    ReadEntryAt(sb, year, |es|, i);
    ReadEntryAt(sb, year, |es|, 0);
    var code := ParseBoxId(sb.codes[i]);
    if code.None? {
      return Err(BadBoxId);
    }
    var dt := NormaliseDate(sb.headers[i], year);
    if i == 0 {
      if code.value in s.topics {
        return Ok(p);
      }
      return Ok(p.(topics := p.topics + [NewTopic(code.value, sb.contents[0], dt)]));
    }
    if code.value in s.replies {
      return Ok(p);
    }
    var topicId := ParseBoxId(sb.codes[0]);
    if topicId.None? {
      return Err(BadBoxId);
    }
    return Ok(p.(replies := p.replies + [NewReply(code.value, sb.contents[i], topicId.value, dt)]));
  }

  /** The loop over one sidebar's entries, before the commit. */
  method StageSidebar(s: Store, sb: Sidebar, year: nat) returns (r: Result<Pending, CrawlError>)
    ensures r == StageAll(s, sb, year)
  {
    var n := EntryCount(sb);
    ghost var es := ReadEntries(sb, year, n);
    var p := Pending([], []);
    var i := 0;
    while i < n
      invariant 0 <= i <= n
      invariant Stage(s, es, i) == Ok(p)
    {
      r := StageOne(s, sb, year, i, es, p);
      if r.Err? {
        StageErrSticks(s, es, i + 1, n);
        return;
      }
      p := r.value;
      i := i + 1;
    }
    return Ok(p);
  }

  /** Every badge among the first `n` entries carries a number. */
  predicate AllIdsParse(es: seq<Entry>, n: nat)
    requires n <= |es|
  {
    forall i :: 0 <= i < n ==> es[i].code.Some?
  }

  /** Staging fails exactly when some badge among the entries has no number. */
  lemma {:induction false} StageFailsIffBadId(s: Store, es: seq<Entry>, n: nat)
    requires n <= |es|
    ensures Stage(s, es, n).Err? <==> !AllIdsParse(es, n)
    ensures Stage(s, es, n).Err? ==> Stage(s, es, n).error == BadBoxId
  {
    if n > 0 {
      StageFailsIffBadId(s, es, n - 1);
    }
  }

  /** `r` is the reply row entry `i` contributes: entry `i` is not entry 0, its id is not
      stored yet, and its topic is entry 0's id. */
  predicate IsEntryReply(s: Store, es: seq<Entry>, i: nat, r: Post) {
    && 1 <= i < |es|
    && es[i].code.Some? && es[0].code.Some?
    && es[i].code.value !in s.replies
    && r == NewReply(es[i].code.value, es[i].content, es[0].code.value, es[i].date)
  }

  /** The only pending topic is entry 0's, and only when its id is not stored yet. */
  lemma {:induction false} StagedTopic(s: Store, es: seq<Entry>, n: nat)
    requires n <= |es| && Stage(s, es, n).Ok?
    ensures AllIdsParse(es, n)
    ensures Stage(s, es, n).value.topics ==
      if n >= 1 && es[0].code.value !in s.topics
      then [NewTopic(es[0].code.value, es[0].content, es[0].date)]
      else []
  {
    StageFailsIffBadId(s, es, n);
    if n > 0 {
      StagedTopic(s, es, n - 1);
    }
  }

  /** Each of `rs` is the reply row of one of the first `n` entries. */
  predicate RepliesOfEntries(s: Store, es: seq<Entry>, n: nat, rs: seq<Post>) {
    forall j :: 0 <= j < |rs| ==> ReplyOfSomeEntry(s, es, n, rs[j])
  }

  /** `r` is the reply row of one of the first `n` entries. */
  predicate ReplyOfSomeEntry(s: Store, es: seq<Entry>, n: nat, r: Post) {
    exists i: nat :: i < n && IsEntryReply(s, es, i, r)
  }

  /** Every pending reply is the row of a later entry whose id was not stored, naming
      entry 0's id as its topic. */
  lemma {:induction false} StagedRepliesSound(s: Store, es: seq<Entry>, n: nat)
    requires n <= |es| && Stage(s, es, n).Ok?
    ensures RepliesOfEntries(s, es, n, Stage(s, es, n).value.replies)
  {
    if n > 0 {
      StagedRepliesSound(s, es, n - 1);
      var p := Stage(s, es, n - 1).value;
      var q := Stage(s, es, n).value;
      forall j | 0 <= j < |q.replies|
        ensures ReplyOfSomeEntry(s, es, n, q.replies[j])
      {
        if j < |p.replies| {
          assert ReplyOfSomeEntry(s, es, n - 1, p.replies[j]);
          var i: nat :| i < n - 1 && IsEntryReply(s, es, i, p.replies[j]);
          assert q.replies[j] == p.replies[j];
          assert IsEntryReply(s, es, i, q.replies[j]);
        } else {
          assert IsEntryReply(s, es, n - 1, q.replies[j]);
        }
      }
    }
  }

  /** Every later entry whose id is not stored yet has its reply row pending. */
  lemma {:induction false} StagedRepliesComplete(s: Store, es: seq<Entry>, n: nat)
    requires n <= |es| && Stage(s, es, n).Ok?
    ensures AllIdsParse(es, n)
    ensures forall i :: 1 <= i < n && es[i].code.value !in s.replies ==>
      exists j :: 0 <= j < |Stage(s, es, n).value.replies| &&
        IsEntryReply(s, es, i, Stage(s, es, n).value.replies[j])
  {
    StageFailsIffBadId(s, es, n);
    if n > 0 {
      StagedRepliesComplete(s, es, n - 1);
      var p := Stage(s, es, n - 1).value;
      var q := Stage(s, es, n).value;
      forall i | 1 <= i < n && es[i].code.value !in s.replies
        ensures exists j :: 0 <= j < |q.replies| && IsEntryReply(s, es, i, q.replies[j])
      {
        if i < n - 1 {
          var j :| 0 <= j < |p.replies| && IsEntryReply(s, es, i, p.replies[j]);
          assert q.replies[j] == p.replies[j];
        } else {
          assert IsEntryReply(s, es, i, q.replies[|q.replies| - 1]);
        }
      }
    }
  }

  // ---------------------------------------------------------------------------
  // Committing

  /** The ids of `rows` are absent from `m` and pairwise distinct. */
  predicate FreshIds(m: map<int, Post>, rows: seq<Post>) {
    && (forall i :: 0 <= i < |rows| ==> rows[i].id !in m)
    && (forall i, j :: 0 <= i < j < |rows| ==> rows[i].id != rows[j].id)
  }

  function Ids(rows: seq<Post>): set<int> {
    if rows == [] then {} else Ids(rows[..|rows| - 1]) + {rows[|rows| - 1].id}
  }

  lemma {:induction false} IdsMembers(rows: seq<Post>, k: int)
    ensures k in Ids(rows) <==> exists i :: 0 <= i < |rows| && rows[i].id == k
  {
    if rows != [] {
      IdsMembers(rows[..|rows| - 1], k);
    }
  }

  /** The table after inserting each row under its id. */
  function AddRows(m: map<int, Post>, rows: seq<Post>): map<int, Post> {
    if rows == [] then m else AddRows(m, rows[..|rows| - 1])[rows[|rows| - 1].id := rows[|rows| - 1]]
  }

  /** Inserting fresh rows adds exactly their ids, stores each under its id and leaves
      every earlier row as it was. */
  lemma {:induction false} AddRowsMeaning(m: map<int, Post>, rows: seq<Post>)
    requires FreshIds(m, rows)
    ensures AddRows(m, rows).Keys == m.Keys + Ids(rows)
    ensures forall k :: k in m ==> AddRows(m, rows)[k] == m[k]
    ensures forall i :: 0 <= i < |rows| ==> rows[i].id in AddRows(m, rows) && AddRows(m, rows)[rows[i].id] == rows[i]
  {
    if rows != [] {
      var init := rows[..|rows| - 1];
      assert FreshIds(m, init);
      AddRowsMeaning(m, init);
      forall i | 0 <= i < |rows| ensures rows[i].id in AddRows(m, rows) && AddRows(m, rows)[rows[i].id] == rows[i] {
        if i < |init| {
          assert init[i] == rows[i];
        }
      }
    }
  }

  /** `db_session.commit()`: the pending rows are inserted; a primary key already present,
      or present twice among them, fails the whole flush. */
  function Commit(s: Store, p: Pending): Result<Store, CrawlError> {
    if FreshIds(s.topics, p.topics) && FreshIds(s.replies, p.replies)
    then Ok(s.(topics := AddRows(s.topics, p.topics), replies := AddRows(s.replies, p.replies)))
    else Err(DuplicateKey)
  }

  /** No pending row of staged entries has an id already stored in its table. */
  lemma StagedIdsUnstored(s: Store, es: seq<Entry>, n: nat)
    requires n <= |es| && Stage(s, es, n).Ok?
    ensures FreshIds(s.topics, Stage(s, es, n).value.topics)
    ensures forall i :: 0 <= i < |Stage(s, es, n).value.replies| ==> Stage(s, es, n).value.replies[i].id !in s.replies
  {
    StagedTopic(s, es, n);
    StagedRepliesSound(s, es, n);
    var q := Stage(s, es, n).value;
    forall i | 0 <= i < |q.replies| ensures q.replies[i].id !in s.replies {
      assert ReplyOfSomeEntry(s, es, n, q.replies[i]);
    }
  }

  /** Staged entries fail to commit exactly when two of their pending replies share an id. */
  lemma StagedCommitFails(s: Store, es: seq<Entry>, p: Pending)
    requires Stage(s, es, |es|) == Ok(p)
    ensures Commit(s, p).Err? <==> exists i, j :: 0 <= i < j < |p.replies| && p.replies[i].id == p.replies[j].id
  {
    StagedIdsUnstored(s, es, |es|);
  }

  // ---------------------------------------------------------------------------
  // The crawl over the opened threads

  /** The entries of each opened thread, as read. */
  function ReadSidebars(items: seq<Sidebar>, year: nat): (threads: seq<seq<Entry>>)
    ensures |threads| == |items|
  {
    if items == [] then []
    else ReadSidebars(items[..|items| - 1], year) + [ReadEntries(items[|items| - 1], year, EntryCount(items[|items| - 1]))]
  }

  lemma {:induction false} ReadSidebarAt(items: seq<Sidebar>, year: nat, i: nat)
    requires i < |items|
    ensures ReadSidebars(items, year)[i] == ReadEntries(items[i], year, EntryCount(items[i]))
  {
    if i < |items| - 1 {
      ReadSidebarAt(items[..|items| - 1], year, i);
    }
  }

  /** One thread: stage its entries, then commit. */
  function StageAndCommit(s: Store, es: seq<Entry>): Result<Store, CrawlError> {
    match Stage(s, es, |es|)
    case Err(e) => Err(e)
    case Ok(p) => Commit(s, p)
  }

  /** The first `n` threads, each staged and committed in turn; the first failure rolls
      back that thread's pending rows and ends the crawl. */
  function Crawled(s0: Store, threads: seq<seq<Entry>>, n: nat): (Store, Option<CrawlError>)
    requires n <= |threads|
  {
    if n == 0 then (s0, None)
    else
      var (s, e) := Crawled(s0, threads, n - 1);
      if e.Some? then (s, e)
      else match StageAndCommit(s, threads[n - 1])
        case Err(e') => (s, Some(e'))
        case Ok(s') => (s', None)
  }

  /** After a failure nothing more changes: the crawl ends with what earlier threads committed. */
  lemma {:induction false} CrawlStopsAtFailure(s0: Store, threads: seq<seq<Entry>>, m: nat, n: nat)
    requires m <= n <= |threads| && Crawled(s0, threads, m).1.Some?
    ensures Crawled(s0, threads, n) == Crawled(s0, threads, m)
    decreases n
  {
    if n > m {
      CrawlStopsAtFailure(s0, threads, m, n - 1);
      CrawledAfterFailure(s0, threads, n);
    }
  }

  /** A crawl that has failed before thread `n - 1` does not run it. */
  lemma CrawledAfterFailure(s0: Store, threads: seq<seq<Entry>>, n: nat)
    requires 0 < n <= |threads| && Crawled(s0, threads, n - 1).1.Some?
    ensures Crawled(s0, threads, n) == Crawled(s0, threads, n - 1)
  {
  }

  /** One more thread after a crawl that has not failed so far. */
  lemma CrawledNext(s0: Store, threads: seq<seq<Entry>>, i: nat, s: Store, r: Result<Store, CrawlError>)
    requires i < |threads| && Crawled(s0, threads, i) == (s, None)
    requires r == StageAndCommit(s, threads[i])
    ensures r.Err? ==> Crawled(s0, threads, i + 1) == (s, Some(r.error))
    ensures r.Ok? ==> Crawled(s0, threads, i + 1) == (r.value, None)
  {
  }

  /** `threads` holds each opened thread's entries, as read. */
  predicate ReadFrom(items: seq<Sidebar>, year: nat, threads: seq<seq<Entry>>)
    decreases |items|
  {
    && |threads| == |items|
    && (items != [] ==>
          threads[0] == ReadEntries(items[0], year, EntryCount(items[0]))
          && ReadFrom(items[1..], year, threads[1..]))
  }

  lemma {:induction false} ReadFromAt(items: seq<Sidebar>, year: nat, threads: seq<seq<Entry>>, i: nat)
    requires ReadFrom(items, year, threads) && i < |items|
    ensures threads[i] == ReadEntries(items[i], year, EntryCount(items[i]))
    decreases i
  {
    if i > 0 {
      ReadFromAt(items[1..], year, threads[1..], i - 1);
    }
  }

  lemma {:induction false} ReadSidebarsReadFrom(items: seq<Sidebar>, year: nat, threads: seq<seq<Entry>>)
    requires threads == ReadSidebars(items, year)
    ensures ReadFrom(items, year, threads)
    decreases |items|
  {
    if items != [] {
      ReadSidebarAt(items, year, 0);
      var rest := items[1..];
      forall j | 0 <= j < |rest| ensures threads[1..][j] == ReadSidebars(rest, year)[j] {
        ReadSidebarAt(items, year, j + 1);
        ReadSidebarAt(rest, year, j);
      }
      ReadSidebarsReadFrom(rest, year, threads[1..]);
    }
  }

  /** The body of the loop over flow items: one thread's entries, staged and committed. */
  method CrawlOne(s: Store, items: seq<Sidebar>, year: nat, i: nat, ghost threads: seq<seq<Entry>>)
    returns (r: Result<Store, CrawlError>)
    requires ReadFrom(items, year, threads) && i < |items|
    ensures r == StageAndCommit(s, threads[i])
  {
    ReadFromAt(items, year, threads, i);
    var staged := StageSidebar(s, items[i], year);
    if staged.Err? {
      return Err(staged.error);
    }
    r := Commit(s, staged.value);
  }

  /** The loop over flow items, given what each thread will read. */
  method CrawlThreads(s0: Store, items: seq<Sidebar>, year: nat, ghost threads: seq<seq<Entry>>)
    returns (s: Store, error: Option<CrawlError>)
    requires ReadFrom(items, year, threads)
    ensures (s, error) == Crawled(s0, threads, |items|)
  {
    s := s0;
    var i := 0;
    while i < |items|
      invariant 0 <= i <= |items|
      invariant Crawled(s0, threads, i) == (s, None)
    {
      var committed := CrawlOne(s, items, year, i, threads);
      CrawledNext(s0, threads, i, s, committed);
      if committed.Err? {
        CrawlStopsAtFailure(s0, threads, i + 1, |items|);
        return s, Some(committed.error);
      }
      s := committed.value;
      i := i + 1;
    }
    error := None;
  }

  /** `crawlFlowItems` without the browser: each thread's sidebar is staged and committed
      on its own. */
  method CrawlFlowItems(s0: Store, items: seq<Sidebar>, year: nat) returns (s: Store, error: Option<CrawlError>)
    ensures (s, error) == Crawled(s0, ReadSidebars(items, year), |items|)
  {
    ReadSidebarsReadFrom(items, year, ReadSidebars(items, year));
    s, error := CrawlThreads(s0, items, year, ReadSidebars(items, year));
  }

  /** Every row of `before` is in `after`, unchanged. */
  predicate NoOverwrite(before: map<int, Post>, after: map<int, Post>) {
    forall k :: k in before ==> k in after && after[k] == before[k]
  }

  /** Committing staged entries stores the pending topic under its id and keeps every
      stored topic. */
  lemma CommitStagedTopics(s: Store, es: seq<Entry>, p: Pending, s': Store)
    requires WellKeyed(Topics, s.topics)
    requires Stage(s, es, |es|) == Ok(p) && Commit(s, p) == Ok(s')
    ensures WellKeyed(Topics, s'.topics) && NoOverwrite(s.topics, s'.topics)
    ensures |es| >= 1 ==> es[0].code.Some? && es[0].code.value in s'.topics
  {
    StagedTopic(s, es, |es|);
    AddRowsMeaning(s.topics, p.topics);
    var t := s'.topics;
    assert t == AddRows(s.topics, p.topics);
    forall k | k in t ensures t[k].id == k && RowShape(Topics, t[k]) {
      if k !in s.topics {
        IdsMembers(p.topics, k);
        var j :| 0 <= j < |p.topics| && p.topics[j].id == k;
        assert p.topics[j] == NewTopic(es[0].code.value, es[0].content, es[0].date);
      }
    }
    if |es| >= 1 && es[0].code.value !in s.topics {
      assert p.topics[0].id == es[0].code.value;
    }
  }

  /** Committing staged entries stores each pending reply under its id, keeps every stored
      reply, and leaves each new reply pointing at entry 0's topic. */
  lemma CommitStagedReplies(s: Store, es: seq<Entry>, p: Pending, s': Store)
    requires WellKeyed(Replies, s.replies)
    requires Stage(s, es, |es|) == Ok(p) && Commit(s, p) == Ok(s')
    ensures WellKeyed(Replies, s'.replies) && NoOverwrite(s.replies, s'.replies)
    ensures forall k :: k in s'.replies && k !in s.replies ==>
      |es| >= 1 && es[0].code.Some? && s'.replies[k].topicId == es[0].code.value
  {
    StagedRepliesSound(s, es, |es|);
    AddRowsMeaning(s.replies, p.replies);
    forall k | k in s'.replies && k !in s.replies
      ensures s'.replies[k].id == k && RowShape(Replies, s'.replies[k])
      ensures |es| >= 1 && es[0].code.Some? && s'.replies[k].topicId == es[0].code.value
    {
      IdsMembers(p.replies, k);
      var j :| 0 <= j < |p.replies| && p.replies[j].id == k;
      var e :| 0 <= e < |es| && IsEntryReply(s, es, e, p.replies[j]);
    }
  }

  /** Every reply of the committed store names a stored topic. */
  lemma CommitStagedReferences(s: Store, es: seq<Entry>, p: Pending, s': Store)
    requires WellKeyed(Topics, s.topics) && WellKeyed(Replies, s.replies) && RepliesReferenceTopics(s)
    requires Stage(s, es, |es|) == Ok(p) && Commit(s, p) == Ok(s')
    ensures RepliesReferenceTopics(s')
  {
    CommitStagedTopics(s, es, p, s');
    CommitStagedReplies(s, es, p, s');
    forall k | k in s'.replies && s'.replies[k].Reply? ensures s'.replies[k].topicId in s'.topics {
      if k in s.replies {
        assert s'.replies[k] == s.replies[k];
      }
    }
  }

  /** Committing staged entries keeps every stored row, adds only topics and replies, and
      keeps the store's keys and references. */
  lemma CommitStagedKeepsValid(s: Store, es: seq<Entry>, p: Pending, s': Store, commentsTableName: string)
    requires Valid(s, commentsTableName)
    requires Stage(s, es, |es|) == Ok(p) && Commit(s, p) == Ok(s')
    ensures Valid(s', commentsTableName)
    ensures s'.(topics := s.topics, replies := s.replies) == s
    ensures NoOverwrite(s.topics, s'.topics) && NoOverwrite(s.replies, s'.replies)
  {
    assert WellKeyed(Topics, Rows(s, Topics)) && WellKeyed(Replies, Rows(s, Replies));
    CommitStagedTopics(s, es, p, s');
    CommitStagedReplies(s, es, p, s');
    CommitStagedReferences(s, es, p, s');
    GrowingKeepsKeysAndSources(s, s', commentsTableName);
  }

  /** A store whose topics and replies only gained rows, the rest unchanged, still has
      well-keyed tables and results that name stored rows. */
  lemma GrowingKeepsKeysAndSources(s: Store, s': Store, commentsTableName: string)
    requires Valid(s, commentsTableName)
    requires s'.(topics := s.topics, replies := s.replies) == s
    requires NoOverwrite(s.topics, s'.topics) && NoOverwrite(s.replies, s'.replies)
    requires WellKeyed(Topics, s'.topics) && WellKeyed(Replies, s'.replies)
    ensures forall t :: WellKeyed(t, Rows(s', t))
    ensures ResultsReferenceSources(s', commentsTableName)
  {
    forall t ensures WellKeyed(t, Rows(s', t)) {
      if t != Topics && t != Replies {
        assert Rows(s', t) == Rows(s, t);
      }
    }
    forall i | 0 <= i < |s'.results|
      ensures var t := SourceTable(s'.results[i].sourceType, commentsTableName);
        t.Some? && s'.results[i].sourceId in Rows(s', t.value)
    {
      var t := SourceTable(s.results[i].sourceType, commentsTableName);
      assert t.Some? && s.results[i].sourceId in Rows(s, t.value);
    }
  }

  /** A crawl never overwrites a stored topic or reply, changes no other table, and keeps
      the store's keys and references — whether it ends early or not. */
  lemma {:induction false} CrawlKeepsValid(s0: Store, threads: seq<seq<Entry>>, n: nat, commentsTableName: string)
    requires n <= |threads| && Valid(s0, commentsTableName)
    ensures var s := Crawled(s0, threads, n).0;
      && Valid(s, commentsTableName)
      && s.(topics := s0.topics, replies := s0.replies) == s0
      && NoOverwrite(s0.topics, s.topics) && NoOverwrite(s0.replies, s.replies)
  {
    if n > 0 {
      CrawlKeepsValid(s0, threads, n - 1, commentsTableName);
      var (s, e) := Crawled(s0, threads, n - 1);
      var es := threads[n - 1];
      if e.None? && StageAndCommit(s, es).Ok? {
        CommitStagedKeepsValid(s, es, Stage(s, es, |es|).value, StageAndCommit(s, es).value, commentsTableName);
      }
    }
  }
}
