/** The analytics: the bounded search log `trackAnalytics` keeps, the
    overview counts, the keyword table of the search trends and the public
    statistics with their year range. */
module Reports {
  import opened Base
  import opened JsStrings
  import opened Sequences
  import opened Sorting
  import opened Catalog

  // ---------------------------------------------------------------------
  // The search log.

  const SearchLogLimit: nat := 1000

  /** Push the entry; when the log grows past the limit, keep its last
      `SearchLogLimit` entries. */
  function RecordSearch(log: seq<SearchEntry>, e: SearchEntry): (r: seq<SearchEntry>)
    ensures |r| == Min(|log| + 1, SearchLogLimit)
    ensures r[|r| - 1] == e
    ensures r == (log + [e])[|log| + 1 - |r|..]
  {
    var pushed := log + [e];
    if |pushed| > SearchLogLimit then Last(pushed, SearchLogLimit) else pushed
  }

  /** Below the limit nothing is dropped: the log grows by exactly the new entry. */
  lemma RecordSearchBelowLimit(log: seq<SearchEntry>, e: SearchEntry)
    requires |log| < SearchLogLimit
    ensures RecordSearch(log, e) == log + [e]
  {
  }

  /** At the limit the oldest entry goes: the log shifts by one. */
  lemma RecordSearchAtLimit(log: seq<SearchEntry>, e: SearchEntry)
    requires |log| == SearchLogLimit
    ensures RecordSearch(log, e) == log[1..] + [e]
  {
    assert (log + [e])[1..] == log[1..] + [e];
  }

  // ---------------------------------------------------------------------
  // `GET /api/analytics/overview`.

  datatype Overview = Overview(
    totalDocuments: nat, totalCollections: nat, totalViews: nat, totalDownloads: nat,
    monthlyUploads: nat, pendingRequests: nat)

  /** Created after the moment one month before now (ISO-8601 times compared as text). */
  function CreatedAfter(monthAgo: string): Document -> bool { (d: Document) => StrLess(monthAgo, d.createdAt) }

  function Pending(): ResearchRequest -> bool { (r: ResearchRequest) => r.status == "pending" }

  function OverviewOf(db: Db, monthAgo: string): (o: Overview)
    ensures o.totalDocuments == |db.documents| && o.totalCollections == |db.collections|
    ensures o.totalViews == db.analytics.totalViews && o.totalDownloads == db.analytics.totalDownloads
    ensures o.monthlyUploads <= o.totalDocuments
    ensures o.pendingRequests <= |db.researchRequests|
    ensures o.monthlyUploads == o.totalDocuments <==>
              forall i :: 0 <= i < |db.documents| ==> StrLess(monthAgo, db.documents[i].createdAt)
    ensures o.monthlyUploads == 0 <==>
              forall i :: 0 <= i < |db.documents| ==> !StrLess(monthAgo, db.documents[i].createdAt)
    ensures o.pendingRequests == 0 <==>
              forall i :: 0 <= i < |db.researchRequests| ==> db.researchRequests[i].status != "pending"
  {
    FilterKeepsAll(db.documents, CreatedAfter(monthAgo));
    MonthlyNone(db.documents, monthAgo);
    PendingNone(db.researchRequests);
    Overview(|db.documents|, |db.collections|, db.analytics.totalViews, db.analytics.totalDownloads,
             Count(db.documents, CreatedAfter(monthAgo)), Count(db.researchRequests, Pending()))
  }

  /** No upload counts for the month exactly when none is newer than the
      month-ago moment. */
  lemma MonthlyNone(docs: seq<Document>, monthAgo: string)
    ensures Count(docs, CreatedAfter(monthAgo)) == 0 <==>
              forall i :: 0 <= i < |docs| ==> !StrLess(monthAgo, docs[i].createdAt)
  {
    if forall i :: 0 <= i < |docs| ==> !StrLess(monthAgo, docs[i].createdAt) {
      FilterNone(docs, CreatedAfter(monthAgo));
    } else {
      var i :| 0 <= i < |docs| && StrLess(monthAgo, docs[i].createdAt);
      assert docs[i] in Filter(docs, CreatedAfter(monthAgo));
    }
  }

  /** No request is pending exactly when none has the status `pending`. */
  lemma PendingNone(rs: seq<ResearchRequest>)
    ensures Count(rs, Pending()) == 0 <==> forall i :: 0 <= i < |rs| ==> rs[i].status != "pending"
  {
    if forall i :: 0 <= i < |rs| ==> rs[i].status != "pending" {
      FilterNone(rs, Pending());
    } else {
      var i :| 0 <= i < |rs| && rs[i].status == "pending";
      assert rs[i] in Filter(rs, Pending());
    }
  }

  /** A new document counts as a monthly upload exactly when it was created
      after the month-ago moment. */
  lemma UploadCountsMonthly(db: Db, d: Document, monthAgo: string)
    ensures var db' := db.(documents := db.documents + [d]);
            OverviewOf(db', monthAgo).monthlyUploads
              == OverviewOf(db, monthAgo).monthlyUploads + (if StrLess(monthAgo, d.createdAt) then 1 else 0)
  {
    CountAppend(db.documents, d, CreatedAfter(monthAgo));
  }

  /** A submitted request is one more pending request. */
  lemma SubmitAddsPending(db: Db, id: string, b: RequestBody, now: string, monthAgo: string)
    ensures var db' := db.(researchRequests := db.researchRequests + [NewRequest(id, b, now)]);
            OverviewOf(db', monthAgo).pendingRequests == OverviewOf(db, monthAgo).pendingRequests + 1
  {
    CountAppend(db.researchRequests, NewRequest(id, b, now), Pending());
  }

  /** Moving a pending request to another status is one pending request fewer. */
  lemma ResolveRemovesPending(db: Db, i: nat, status: string, now: string, monthAgo: string)
    requires i < |db.researchRequests| && db.researchRequests[i].status == "pending" && status != "pending"
    ensures var rs := db.researchRequests[i := db.researchRequests[i].(status := status, updatedAt := now)];
            OverviewOf(db.(researchRequests := rs), monthAgo).pendingRequests
              == OverviewOf(db, monthAgo).pendingRequests - 1
  {
    var rs := db.researchRequests;
    var rs' := rs[i := rs[i].(status := status, updatedAt := now)];
    assert rs == rs[..i] + [rs[i]] + rs[i + 1..];
    assert rs' == rs[..i] + [rs'[i]] + rs[i + 1..];
    CountConcat(rs[..i] + [rs[i]], rs[i + 1..], Pending());
    CountConcat(rs[..i] + [rs'[i]], rs[i + 1..], Pending());
    CountAppend(rs[..i], rs[i], Pending());
    CountAppend(rs[..i], rs'[i], Pending());
  }

  lemma {:induction false} CountConcat<T>(s: seq<T>, t: seq<T>, p: T -> bool)
    ensures Count(s + t, p) == Count(s, p) + Count(t, p)
    decreases |t|
  {
    if t != [] {
      var t0 := t[..|t| - 1];
      var x := t[|t| - 1];
      assert t == t0 + [x];
      assert s + t == (s + t0) + [x];
      CountConcat(s, t0, p);
      CountAppend(s + t0, x, p);
      CountAppend(t0, x, p);
    } else {
      assert s + t == s;
    }
  }

  // ---------------------------------------------------------------------
  // `GET /api/analytics/search-trends`: how often each lower-cased query
  // occurs in the log, most frequent first. Empty queries are not counted.

  datatype KeywordCount = KeywordCount(keyword: string, count: nat)

  function Keyword(e: SearchEntry): string { Lower(e.query) }

  /** The lowered queries of the log, in log order. */
  function Keywords(log: seq<SearchEntry>): (ws: seq<string>)
    ensures |ws| == |log|
    ensures forall i :: 0 <= i < |log| ==> ws[i] == Keyword(log[i])
  {
    seq(|log|, i requires 0 <= i < |log| => Keyword(log[i]))
  }

  /** The number of times `k` occurs among the keywords. */
  function Occurrences(ws: seq<string>, k: string): (n: nat)
    ensures n <= |ws|
  {
    if ws == [] then 0
    else Occurrences(ws[..|ws| - 1], k) + (if ws[|ws| - 1] == k then 1 else 0)
  }

  lemma OccurrencesSnoc(p: seq<string>, w: string)
    ensures forall k :: Occurrences(p + [w], k) == Occurrences(p, k) + (if w == k then 1 else 0)
  {
    assert (p + [w])[..|p|] == p;
  }

  /** A keyword that does not occur has no occurrences. */
  lemma {:induction false} OccurrencesNone(ws: seq<string>, k: string)
    requires k !in ws
    ensures Occurrences(ws, k) == 0
    decreases |ws|
  {
    if ws != [] {
      var p := ws[..|ws| - 1];
      assert ws == p + [ws[|ws| - 1]];
      assert k !in p;
      OccurrencesNone(p, k);
    }
  }

  /** `b.count - a.count`: a larger count comes first. */
  function ByCountDescending(): (KeywordCount, KeywordCount) -> bool
  {
    (a: KeywordCount, b: KeywordCount) => b.count < a.count
  }

  lemma ByCountDescendingIsStrictWeak()
    ensures StrictWeakOrder(ByCountDescending())
  {
  }

  /** One keyword counted into the table: when not empty, it is counted
      once more, or added with count 1 at the end of the order. */
  function Bump(t: (map<string, nat>, seq<string>), w: string): (map<string, nat>, seq<string>)
  {
    if w == "" then t
    else if w in t.0 then (t.0[w := t.0[w] + 1], t.1)
    else (t.0[w := 1], t.1 + [w])
  }

  /** The count table after the given keywords, with its keys in the order
      they were first seen (the order `Object.entries` lists them in). */
  ghost function Tally(ws: seq<string>): (map<string, nat>, seq<string>)
  {
    if ws == [] then (map[], [])
    else Bump(Tally(ws[..|ws| - 1]), ws[|ws| - 1])
  }

  /** The keys are listed in the order their first occurrences come in:
      wherever a later-listed key occurs, every earlier-listed key has
      already occurred. */
  ghost predicate FirstSeenOrder(ws: seq<string>, order: seq<string>)
  {
    forall a, b, j :: 0 <= a < b < |order| && 0 <= j < |ws| && ws[j] == order[b] ==> order[a] in ws[..j]
  }

  /** What the table holds: exactly the non-empty keywords, each with its
      number of occurrences, each listed once, in first-seen order. */
  ghost predicate TallyOf(ws: seq<string>, counts: map<string, nat>, order: seq<string>)
  {
    && Distinct(order)
    && FirstSeenOrder(ws, order)
    && (forall k :: k in order <==> k in counts)
    && (forall k :: k in counts ==> k != "" && k in ws)
    && (forall j :: 0 <= j < |ws| && ws[j] != "" ==> ws[j] in counts)
    && (forall k :: k in counts ==> counts[k] == Occurrences(ws, k))
  }

  /** Counting one more keyword keeps the keys listed once each. */
  lemma BumpKeys(counts: map<string, nat>, order: seq<string>, w: string)
    requires Distinct(order) && forall k :: k in order <==> k in counts
    ensures var (c, o) := Bump((counts, order), w);
            Distinct(o) && (forall k :: k in o <==> k in c) && c.Keys == counts.Keys + (if w == "" then {} else {w})
  {
    var (c, o) := Bump((counts, order), w);
    if w != "" && w !in counts {
      forall a, b | 0 <= a < b < |o| ensures o[a] != o[b] {
        if b == |order| { assert order[a] in order; }
      }
    }
  }

  /** Counting one more keyword keeps every key a keyword, and every
      non-empty keyword a key. */
  lemma BumpWitness(p: seq<string>, w: string, counts: map<string, nat>, c: map<string, nat>)
    requires forall k :: k in counts ==> k != "" && k in p
    requires forall j :: 0 <= j < |p| && p[j] != "" ==> p[j] in counts
    requires c.Keys == counts.Keys + (if w == "" then {} else {w})
    ensures forall k :: k in c ==> k != "" && k in p + [w]
    ensures forall j :: 0 <= j < |p + [w]| && (p + [w])[j] != "" ==> (p + [w])[j] in c
  {
    var ws := p + [w];
    forall j | 0 <= j < |ws| && ws[j] != "" ensures ws[j] in c {
      if j < |p| { assert ws[j] == p[j]; }
    }
  }

  /** Counting one more keyword `w` keeps every count exact, given that a
      keyword without a key has not occurred yet. */
  lemma BumpCounts(p: seq<string>, w: string, counts: map<string, nat>, order: seq<string>)
    requires "" !in counts && forall k :: k in counts ==> counts[k] == Occurrences(p, k)
    requires w != "" && w !in counts ==> Occurrences(p, w) == 0
    ensures var c := Bump((counts, order), w).0;
            forall k :: k in c ==> c[k] == Occurrences(p + [w], k)
  {
    OccurrencesSnoc(p, w);
  }

  /** Counting one more keyword into a correct table gives a correct table. */
  lemma TallyStep(p: seq<string>, w: string, counts: map<string, nat>, order: seq<string>)
    requires TallyOf(p, counts, order)
    ensures var (c, o) := Bump((counts, order), w); TallyOf(p + [w], c, o)
  {
    var (c, o) := Bump((counts, order), w);
    BumpKeys(counts, order, w);
    BumpWitness(p, w, counts, c);
    if w != "" && w !in counts {
      assert w !in p;
      OccurrencesNone(p, w);
    }
    BumpCounts(p, w, counts, order);
    BumpOrder(p, w, counts, order);
  }

  /** Counting one more keyword keeps the keys in first-seen order: a new
      key goes last, and every listed key has occurred before `w`. */
  lemma BumpOrder(p: seq<string>, w: string, counts: map<string, nat>, order: seq<string>)
    requires TallyOf(p, counts, order)
    ensures FirstSeenOrder(p + [w], Bump((counts, order), w).1)
  {
    var o := Bump((counts, order), w).1;
    var ws := p + [w];
    forall a, b, j | 0 <= a < b < |o| && 0 <= j < |ws| && ws[j] == o[b]
      ensures o[a] in ws[..j]
    {
      assert o[a] == order[a];
      if j < |p| {
        assert ws[..j] == p[..j] && ws[j] == p[j];
      } else {
        assert ws[..j] == p;
        assert order[a] in counts;
      }
    }
  }

  /** The tally holds exactly the non-empty keywords, each with its number
      of occurrences, each listed once. */
  lemma {:induction false} TallyCorrect(ws: seq<string>)
    ensures TallyOf(ws, Tally(ws).0, Tally(ws).1)
    decreases |ws|
  {
    if ws != [] {
      var p := ws[..|ws| - 1];
      assert ws == p + [ws[|ws| - 1]];
      TallyCorrect(p);
      TallyStep(p, ws[|ws| - 1], Tally(p).0, Tally(p).1);
    }
  }

  /** The `forEach` loop fills the count table: after each query the table
      is the tally of the keywords so far. */
  method CountKeywords(log: seq<SearchEntry>) returns (counts: map<string, nat>, order: seq<string>)
    ensures (counts, order) == Tally(Keywords(log))
    ensures TallyOf(Keywords(log), counts, order)
  {
    counts := map[];
    order := [];
    ghost var ws := Keywords(log);
    var i := 0;
    while i < |log|
      invariant 0 <= i <= |log|
      invariant (counts, order) == Tally(ws[..i])
    {
      var keyword := Keyword(log[i]);
      assert ws[..i + 1][..i] == ws[..i] && ws[i] == keyword;
      if keyword != "" {
        if keyword in counts {
          counts := counts[keyword := counts[keyword] + 1];
        } else {
          counts := counts[keyword := 1];
          order := order + [keyword];
        }
      }
      i := i + 1;
    }
    assert ws[..i] == ws;
    TallyCorrect(ws);
  }

  function Entry(counts: map<string, nat>): string -> KeywordCount
  {
    (k: string) => KeywordCount(k, if k in counts then counts[k] else 0)
  }

  function Rows(order: seq<string>, counts: map<string, nat>): (r: seq<KeywordCount>)
    ensures |r| == |order|
    ensures forall i :: 0 <= i < |r| ==> r[i] == Entry(counts)(order[i])
  {
    seq(|order|, i requires 0 <= i < |order| => Entry(counts)(order[i]))
  }

  /** The keyword table sorted by count. Each row carries a keyword of the
      log and its number of occurrences, every keyword has exactly one row,
      and rows with equal counts stay in first-seen order. */
  method SearchTrends(log: seq<SearchEntry>) returns (rows: seq<KeywordCount>)
    ensures forall i :: 0 <= i < |rows| ==> rows[i].keyword != "" && rows[i].keyword in Keywords(log)
    ensures forall i :: 0 <= i < |rows| ==> rows[i].count == Occurrences(Keywords(log), rows[i].keyword)
    ensures forall j :: 0 <= j < |log| && Keyword(log[j]) != "" ==>
              exists i :: 0 <= i < |rows| && rows[i].keyword == Keyword(log[j])
    ensures forall i, j :: 0 <= i < j < |rows| ==> rows[i].keyword != rows[j].keyword
    ensures SortedBy(rows, ByCountDescending())
    ensures forall i, j, k ::
              0 <= i < j < |rows| && rows[i].count == rows[j].count &&
              0 <= k < |Keywords(log)| && Keywords(log)[k] == rows[j].keyword
              ==> rows[i].keyword in Keywords(log)[..k]
  {
    var counts, order := CountKeywords(log);
    var table := Rows(order, counts);
    rows := SortBy(table, ByCountDescending());
    ByCountDescendingIsStrictWeak();
    SortBySorted(table, ByCountDescending());
    SortByMembers(table, ByCountDescending());
    forall i | 0 <= i < |rows|
      ensures rows[i].keyword != "" && rows[i].keyword in Keywords(log)
      ensures rows[i].count == Occurrences(Keywords(log), rows[i].keyword)
    {
      RowCounts(order, counts, table, rows[i]);
    }
    forall j | 0 <= j < |log| && Keyword(log[j]) != ""
      ensures exists i :: 0 <= i < |rows| && rows[i].keyword == Keyword(log[j])
    {
      assert Keywords(log)[j] == Keyword(log[j]);
      RowFor(order, counts, table, rows, Keyword(log[j]));
    }
    forall a, b | 0 <= a < b < |rows| ensures rows[a].keyword != rows[b].keyword {
      DistinctRows(order, counts, table, rows, a, b);
    }
    forall i, j, k | 0 <= i < j < |rows| && rows[i].count == rows[j].count &&
                     0 <= k < |Keywords(log)| && Keywords(log)[k] == rows[j].keyword
      ensures rows[i].keyword in Keywords(log)[..k]
    {
      TiesFirstSeen(Keywords(log), counts, order, rows, i, j);
    }
  }

  /** Rows with equal counts come out of the stable sort in the order their
      keywords were first seen. */
  lemma TiesFirstSeen(ws: seq<string>, counts: map<string, nat>, order: seq<string>,
                      rows: seq<KeywordCount>, i: int, j: int)
    requires FirstSeenOrder(ws, order)
    requires rows == SortBy(Rows(order, counts), ByCountDescending())
    requires 0 <= i < j < |rows| && rows[i].count == rows[j].count
    ensures forall k :: 0 <= k < |ws| && ws[k] == rows[j].keyword ==> rows[i].keyword in ws[..k]
  {
    var a, b := TiesInTable(counts, order, rows, i, j);
  }

  /** The stable sort keeps two rows with equal counts in table order. */
  lemma TiesInTable(counts: map<string, nat>, order: seq<string>, rows: seq<KeywordCount>, i: int, j: int)
      returns (a: int, b: int)
    requires rows == SortBy(Rows(order, counts), ByCountDescending())
    requires 0 <= i < j < |rows| && rows[i].count == rows[j].count
    ensures 0 <= a < b < |order| && order[a] == rows[i].keyword && order[b] == rows[j].keyword
  {
    ByCountDescendingIsStrictWeak();
    a, b := StableTies(Rows(order, counts), ByCountDescending(), i, j);
    RowKeyword(order, counts, a);
    RowKeyword(order, counts, b);
  }

  lemma RowKeyword(order: seq<string>, counts: map<string, nat>, m: int)
    requires 0 <= m < |order|
    ensures Rows(order, counts)[m].keyword == order[m]
  {
    assert Rows(order, counts)[m] == Entry(counts)(order[m]);
  }

  /** A row of the table carries a key and that key's count. */
  lemma RowCounts(order: seq<string>, counts: map<string, nat>, table: seq<KeywordCount>, row: KeywordCount)
    requires table == Rows(order, counts) && row in table
    requires forall k :: k in order <==> k in counts
    ensures row.keyword in counts && row.count == counts[row.keyword]
  {
    var m :| 0 <= m < |table| && table[m] == row;
    assert order[m] in counts;
  }

  /** A key of the table has a row in any list holding every table row. */
  lemma RowFor(order: seq<string>, counts: map<string, nat>, table: seq<KeywordCount>,
               rows: seq<KeywordCount>, k: string)
    requires table == Rows(order, counts) && k in order
    requires forall i :: 0 <= i < |table| ==> table[i] in rows
    ensures exists i :: 0 <= i < |rows| && rows[i].keyword == k
  {
    var m :| 0 <= m < |order| && order[m] == k;
    assert table[m] in rows;
    var i :| 0 <= i < |rows| && rows[i] == table[m];
    assert rows[i].keyword == k;
  }

  /** Two positions of the sorted table hold different keywords. */
  lemma DistinctRows(order: seq<string>, counts: map<string, nat>, table: seq<KeywordCount>,
                     rows: seq<KeywordCount>, a: int, b: int)
    requires Distinct(order) && table == Rows(order, counts)
    requires multiset(rows) == multiset(table)
    requires 0 <= a < b < |rows|
    ensures rows[a].keyword != rows[b].keyword
  {
    if rows[a].keyword == rows[b].keyword {
      assert rows[a] in multiset(table) && rows[b] in multiset(table);
      var i :| 0 <= i < |table| && table[i] == rows[a];
      var j :| 0 <= j < |table| && table[j] == rows[b];
      assert order[i] == order[j];
      assert i == j;
      assert rows[a] == rows[b];
      // The same row twice in `rows` means it occurs twice in `table`.
      RowOnce(order, counts, table, i);
      MultisetTwice(rows, a, b);
      assert false;
    }
  }

  /** A row of the table built from distinct keys occurs in it only once. */
  lemma RowOnce(order: seq<string>, counts: map<string, nat>, table: seq<KeywordCount>, i: int)
    requires Distinct(order) && table == Rows(order, counts) && 0 <= i < |table|
    ensures multiset(table)[table[i]] == 1
  {
    var x := table[i];
    assert table == table[..i] + [x] + table[i + 1..];
    assert x !in table[..i] by {
      forall k | 0 <= k < i ensures table[k] != x { assert order[k] != order[i]; }
    }
    assert x !in table[i + 1..] by {
      forall k | i + 1 <= k < |table| ensures table[k] != x { assert order[k] != order[i]; }
    }
    assert multiset(table) == multiset(table[..i]) + multiset{x} + multiset(table[i + 1..]);
  }

  // ---------------------------------------------------------------------
  // `GET /api/analytics/stats`.

  datatype Stats = Stats(totalDocuments: nat, totalPhotographs: nat, totalManuscripts: nat, yearsCovered: int)

  /** The floor of the year range before any document is seen. */
  const EarliestYear: int := 1700

  function HasImage(d: Document): bool
  {
    exists i :: 0 <= i < |d.files| && d.files[i].kind == "image"
  }

  function Photograph(): Document -> bool { (d: Document) => d.published && HasImage(d) }
  function Manuscript(): Document -> bool { (d: Document) => d.published && "Manuscripts" in d.subjects }
  function PublishedDoc(): Document -> bool { (d: Document) => d.published }

  /** `parseInt(doc.date.from.substring(0, 4))` for a document whose start
      date is set; None when unset or not a number. */
  function YearOf(d: Document): Option<int>
  {
    if d.date.from == "" then None
    else ParseInt(d.date.from[..Min(4, |d.date.from|)])
  }

  /** No year, or a year within `[lo, hi]`. */
  predicate InRange(year: Option<int>, lo: int, hi: int) { year.None? || lo <= year.value <= hi }

  /** The year of every document, in store order. */
  function Years(docs: seq<Document>): (ys: seq<Option<int>>)
    ensures |ys| == |docs|
    ensures forall i :: 0 <= i < |docs| ==> ys[i] == YearOf(docs[i])
  {
    seq(|docs|, i requires 0 <= i < |docs| => YearOf(docs[i]))
  }

  /** The year range of the statistics, over the documents' years: the
      loop starts it at [currentYear, 1700] and widens it by every year
      there is, published or not (NaN compares false and is skipped). Each
      end is either its starting value or one of the years. */
  method YearRange(years: seq<Option<int>>, currentYear: int) returns (minYear: int, maxYear: int)
    ensures minYear <= currentYear && EarliestYear <= maxYear
    ensures forall i :: 0 <= i < |years| ==> InRange(years[i], minYear, maxYear)
    ensures minYear == currentYear || exists i :: 0 <= i < |years| && years[i] == Some(minYear)
    ensures maxYear == EarliestYear || exists i :: 0 <= i < |years| && years[i] == Some(maxYear)
  {
    minYear := currentYear;
    maxYear := EarliestYear;
    ghost var minAt, maxAt := -1, -1;
    var i := 0;
    while i < |years|
      invariant 0 <= i <= |years|
      invariant minYear <= currentYear && EarliestYear <= maxYear
      invariant forall k :: 0 <= k < i ==> InRange(years[k], minYear, maxYear)
      invariant -1 <= minAt < i && -1 <= maxAt < i
      invariant minAt == -1 ==> minYear == currentYear
      invariant minAt >= 0 ==> years[minAt] == Some(minYear)
      invariant maxAt == -1 ==> maxYear == EarliestYear
      invariant maxAt >= 0 ==> years[maxAt] == Some(maxYear)
    {
      var year := years[i];
      if year.Some? {
        if year.value < minYear {
          minYear, minAt := year.value, i;
        }
        if year.value > maxYear {
          maxYear, maxAt := year.value, i;
        }
      }
      i := i + 1;
    }
  }

  /** `GET /api/analytics/stats`: the published, photograph and manuscript
      counts, and the width of the year range. With no dated document the
      width is `1700 - currentYear`. */
  method ComputeStats(docs: seq<Document>, currentYear: int) returns (s: Stats, minYear: int, maxYear: int)
    ensures s.totalDocuments == Count(docs, PublishedDoc())
    ensures s.totalPhotographs == Count(docs, Photograph())
    ensures s.totalManuscripts == Count(docs, Manuscript())
    ensures s.yearsCovered == maxYear - minYear
    ensures minYear <= currentYear && EarliestYear <= maxYear
    ensures forall i :: 0 <= i < |docs| ==> InRange(YearOf(docs[i]), minYear, maxYear)
    ensures minYear == currentYear || exists i :: 0 <= i < |docs| && YearOf(docs[i]) == Some(minYear)
    ensures maxYear == EarliestYear || exists i :: 0 <= i < |docs| && YearOf(docs[i]) == Some(maxYear)
    ensures (forall i :: 0 <= i < |docs| ==> YearOf(docs[i]).None?) ==> s.yearsCovered == EarliestYear - currentYear
  {
    var years := Years(docs);
    minYear, maxYear := YearRange(years, currentYear);
    s := Stats(Count(docs, PublishedDoc()), Count(docs, Photograph()), Count(docs, Manuscript()),
               maxYear - minYear);
  }
}
