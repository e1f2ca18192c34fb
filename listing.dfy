/** The public read routes: the document listing (`GET /api/documents`)
    with its filter, sort and page steps, the news page, the collection
    list and detail view, the published gallery and the public
    notification feed. */
module Listing {
  import opened Base
  import opened JsStrings
  import opened Sequences
  import opened Sorting
  import opened Catalog

  // ---------------------------------------------------------------------
  // The query string of `GET /api/documents`. A text parameter that is
  // absent is ""; `limit` and `offset` hold what `parseInt` made of them,
  // None standing for NaN.

  datatype ListQuery = ListQuery(
    search: string, collection: string, language: string, dateFrom: string, dateTo: string,
    limit: Option<int>, offset: Option<int>, sort: string, order: string)

  datatype ListResult = ListResult(documents: seq<Document>, total: nat, offset: int, limit: int)

  /** `title`, `description` or one of the subjects contains the (already
      lower-cased) term, compared in lower case. */
  predicate MatchesSearch(term: string, d: Document)
  {
    || Includes(Lower(d.title), term)
    || Includes(Lower(d.description), term)
    || exists i :: 0 <= i < |d.subjects| && Includes(Lower(d.subjects[i]), term)
  }

  function Published(): Document -> bool { (d: Document) => d.published }
  function SearchFor(term: string): Document -> bool { (d: Document) => MatchesSearch(term, d) }
  function InCollection(c: string): Document -> bool { (d: Document) => d.collection == c }
  function InLanguage(l: string): Document -> bool { (d: Document) => l in d.language }
  function FromOnOrAfter(x: string): Document -> bool { (d: Document) => !StrLess(d.date.from, x) }
  function ToOnOrBefore(x: string): Document -> bool { (d: Document) => !StrLess(x, d.date.to) }

  /** The filter steps in the order the handler applies them; each optional
      one only when its parameter is non-empty. */
  function Candidates(docs: seq<Document>, q: ListQuery): seq<Document>
  {
    var s0 := Filter(docs, Published());
    var s1 := if q.search != "" then Filter(s0, SearchFor(Lower(q.search))) else s0;
    var s2 := if q.collection != "" then Filter(s1, InCollection(q.collection)) else s1;
    var s3 := if q.language != "" then Filter(s2, InLanguage(q.language)) else s2;
    var s4 := if q.dateFrom != "" then Filter(s3, FromOnOrAfter(q.dateFrom)) else s3;
    if q.dateTo != "" then Filter(s4, ToOnOrBefore(q.dateTo)) else s4
  }

  /** What a listed document satisfies: published, and every filter the
      query supplies. */
  predicate MatchesQuery(q: ListQuery, d: Document)
  {
    && d.published
    && (q.search == "" || MatchesSearch(Lower(q.search), d))
    && (q.collection == "" || d.collection == q.collection)
    && (q.language == "" || q.language in d.language)
    && (q.dateFrom == "" || !StrLess(d.date.from, q.dateFrom))
    && (q.dateTo == "" || !StrLess(q.dateTo, d.date.to))
  }

  function QueryFilter(q: ListQuery): Document -> bool { (d: Document) => MatchesQuery(q, d) }

  lemma {:induction false} FilterExtensional<T>(s: seq<T>, p: T -> bool, p': T -> bool)
    requires forall x :: p(x) == p'(x)
    ensures Filter(s, p) == Filter(s, p')
    decreases |s|
  {
    if s != [] { FilterExtensional(s[1..], p, p'); }
  }

  /** One optional filter step applied to an already filtered list. */
  lemma FilterStep<T>(s: seq<T>, p: T -> bool, active: bool, f: T -> bool, pf: T -> bool)
    requires forall x :: pf(x) == (p(x) && (!active || f(x)))
    ensures (if active then Filter(Filter(s, p), f) else Filter(s, p)) == Filter(s, pf)
  {
    if active {
      FilterFuse(s, p, f, pf);
    } else {
      FilterExtensional(s, p, pf);
    }
  }

  /** The chain of filters is the single filter by `MatchesQuery`. */
  lemma CandidatesMatch(docs: seq<Document>, q: ListQuery)
    ensures Candidates(docs, q) == Filter(docs, QueryFilter(q))
  {
    var p0 := Published();
    var p1 := (d: Document) => p0(d) && (q.search == "" || MatchesSearch(Lower(q.search), d));
    var p2 := (d: Document) => p1(d) && (q.collection == "" || d.collection == q.collection);
    var p3 := (d: Document) => p2(d) && (q.language == "" || q.language in d.language);
    var p4 := (d: Document) => p3(d) && (q.dateFrom == "" || !StrLess(d.date.from, q.dateFrom));
    var p5 := (d: Document) => p4(d) && (q.dateTo == "" || !StrLess(q.dateTo, d.date.to));
    FilterStep(docs, p0, q.search != "", SearchFor(Lower(q.search)), p1);
    FilterStep(docs, p1, q.collection != "", InCollection(q.collection), p2);
    FilterStep(docs, p2, q.language != "", InLanguage(q.language), p3);
    FilterStep(docs, p3, q.dateFrom != "", FromOnOrAfter(q.dateFrom), p4);
    FilterStep(docs, p4, q.dateTo != "", ToOnOrBefore(q.dateTo), p5);
    FilterExtensional(docs, p5, QueryFilter(q));
  }

  // ---------------------------------------------------------------------
  // The sort step: `a[field] < b[field]` under JavaScript's rules. A text
  // field compares as text, an array as its comma-joined text, an object as
  // the text "[object Object]", numbers and booleans as numbers, and a field
  // a document does not have (`undefined`) compares as neither smaller nor
  // larger than anything.

  datatype SortKey = Text(s: string) | Number(n: int) | Undefined

  function Flag(b: bool): int { if b then 1 else 0 }

  function FieldKey(field: string, d: Document): SortKey
  {
    if field == "id" then Text(d.id)
    else if field == "referenceNumber" then Text(d.referenceNumber)
    else if field == "title" then Text(d.title)
    else if field == "description" then Text(d.description)
    else if field == "creator" then Text(d.creator)
    else if field == "date" then Text("[object Object]")
    else if field == "language" then Text(Join(d.language, ","))
    else if field == "physicalDescription" then Text(d.physicalDescription)
    else if field == "subjects" then Text(Join(d.subjects, ","))
    else if field == "collection" then Text(d.collection)
    else if field == "location" then Text(d.location)
    else if field == "accessRestrictions" then Text(d.accessRestrictions)
    else if field == "copyrightStatus" then Text(d.copyrightStatus)
    else if field == "coverImage" then Text(d.coverImage)
    else if field == "files" then Text(Join(seq(|d.files|, _ => "[object Object]"), ","))
    else if field == "views" then Number(d.views)
    else if field == "downloads" then Number(d.downloads)
    else if field == "featured" then Number(Flag(d.featured))
    else if field == "published" then Number(Flag(d.published))
    else if field == "createdAt" then Text(d.createdAt)
    else if field == "updatedAt" then Text(d.updatedAt)
    else if field == "createdBy" then Text(d.createdBy)
    else Undefined
  }

  predicate KeyLess(a: SortKey, b: SortKey)
  {
    match (a, b)
    case (Text(x), Text(y)) => StrLess(x, y)
    case (Number(x), Number(y)) => x < y
    case _ => false
  }

  /** `sort || 'createdAt'`. */
  function SortField(sort: string): string { OrStr(sort, "createdAt") }

  /** The comparator puts `a` first when its key is smaller (ascending) or
      larger (any other `order`). */
  predicate DocBefore(field: string, ascending: bool, a: Document, b: Document)
  {
    if ascending then KeyLess(FieldKey(field, a), FieldKey(field, b))
    else KeyLess(FieldKey(field, b), FieldKey(field, a))
  }

  function DocOrder(field: string, ascending: bool): (Document, Document) -> bool
  {
    (a: Document, b: Document) => DocBefore(field, ascending, a, b)
  }

  const NumberFields: set<string> := {"views", "downloads", "featured", "published"}

  /** The kind of key a field gives depends on the field alone. */
  lemma KeyKind(field: string, d: Document)
    ensures FieldKey(field, d).Number? <==> field in NumberFields
    ensures FieldKey(field, d).Text? <==> field in DocumentFields && field !in NumberFields
  {
  }

  /** One field gives keys of one kind for every document. */
  lemma SameKind(field: string, a: Document, b: Document)
    ensures FieldKey(field, a).Text? == FieldKey(field, b).Text?
    ensures FieldKey(field, a).Number? == FieldKey(field, b).Number?
  {
    KeyKind(field, a);
    KeyKind(field, b);
  }

  lemma KeyLessStrict(field: string, a: Document, b: Document, c: Document)
    ensures KeyLess(FieldKey(field, a), FieldKey(field, b)) ==> !KeyLess(FieldKey(field, b), FieldKey(field, a))
    ensures !KeyLess(FieldKey(field, a), FieldKey(field, b)) && !KeyLess(FieldKey(field, b), FieldKey(field, c))
            ==> !KeyLess(FieldKey(field, a), FieldKey(field, c))
  {
    SameKind(field, a, b);
    SameKind(field, b, c);
    var ka, kb, kc := FieldKey(field, a), FieldKey(field, b), FieldKey(field, c);
    if ka.Text? {
      StrLessAsymmetric(ka.s, kb.s);
      if !StrLess(ka.s, kb.s) && !StrLess(kb.s, kc.s) {
        NotLessTransitive(ka.s, kb.s, kc.s);
      }
    }
  }

  /** Every sort field and direction gives a strict weak order. */
  lemma DocOrderIsStrictWeak(field: string, ascending: bool)
    ensures StrictWeakOrder(DocOrder(field, ascending))
  {
    var lt := DocOrder(field, ascending);
    forall a, b ensures lt(a, b) ==> !lt(b, a) {
      KeyLessStrict(field, a, b, a);
    }
    forall a, b, c | !lt(a, b) && !lt(b, c) ensures !lt(a, c) {
      if ascending { KeyLessStrict(field, a, b, c); } else { KeyLessStrict(field, c, b, a); }
    }
  }

  /** The filtered documents, sorted. */
  function Ordered(docs: seq<Document>, q: ListQuery): seq<Document>
  {
    SortBy(Candidates(docs, q), DocOrder(SortField(q.sort), q.order == "asc"))
  }

  /** Every sorted document is a stored document that matches the query. */
  lemma OrderedMatches(docs: seq<Document>, q: ListQuery)
    ensures forall i :: 0 <= i < |Ordered(docs, q)| ==> Ordered(docs, q)[i] in docs && MatchesQuery(q, Ordered(docs, q)[i])
  {
    CandidatesMatch(docs, q);
    SortByMembers(Candidates(docs, q), DocOrder(SortField(q.sort), q.order == "asc"));
  }

  /** `GET /api/documents`: the page `slice(offset, offset + limit)` of the
      sorted list, `parseInt(offset) || 0` and `parseInt(limit) || 20`. */
  function ListDocuments(docs: seq<Document>, q: ListQuery): (r: ListResult)
    ensures r.total == Count(docs, QueryFilter(q))
    ensures forall i :: 0 <= i < |r.documents| ==> r.documents[i] in docs && MatchesQuery(q, r.documents[i])
    ensures r.offset == IntOr(q.offset, 0) && r.limit == IntOr(q.limit, 20)
    ensures 0 <= r.offset && 0 < r.limit ==> |r.documents| <= r.limit
  {
    var sorted := Ordered(docs, q);
    var start := IntOr(q.offset, 0);
    var limit := IntOr(q.limit, 20);
    CandidatesMatch(docs, q);
    OrderedMatches(docs, q);
    ListResult(Page(sorted, start, limit), |sorted|, start, limit)
  }

  /** The sorted list is a permutation of the filtered list, ordered on the
      requested field in the requested direction, and tied documents keep
      the order the store holds them in. */
  lemma ListingOrder(docs: seq<Document>, q: ListQuery, x: Document)
    ensures var lt := DocOrder(SortField(q.sort), q.order == "asc");
            && multiset(Ordered(docs, q)) == multiset(Filter(docs, QueryFilter(q)))
            && SortedBy(Ordered(docs, q), lt)
            && Filter(Ordered(docs, q), TiedWith(lt, x)) == Filter(Filter(docs, QueryFilter(q)), TiedWith(lt, x))
  {
    var lt := DocOrder(SortField(q.sort), q.order == "asc");
    CandidatesMatch(docs, q);
    DocOrderIsStrictWeak(SortField(q.sort), q.order == "asc");
    SortBySorted(Candidates(docs, q), lt);
    SortByStable(Candidates(docs, q), lt, x);
  }

  /** A document is in the sorted list exactly when it is in the store and
      matches every filter. */
  lemma ListingMembers(docs: seq<Document>, q: ListQuery, d: Document)
    ensures d in Ordered(docs, q) <==> d in docs && MatchesQuery(q, d)
  {
    CandidatesMatch(docs, q);
    var f := Filter(docs, QueryFilter(q));
    assert d in Ordered(docs, q) <==> d in multiset(f);
    if d in docs && MatchesQuery(q, d) {
      var k :| 0 <= k < |docs| && docs[k] == d;
      assert d in f;
    }
    if d in f {
      var k :| 0 <= k < |f| && f[k] == d;
    }
  }

  /** For a non-negative offset and a positive limit, the page is the
      window `[offset, offset + limit)` of the sorted list, cut at its end. */
  lemma ListingPage(docs: seq<Document>, q: ListQuery)
    requires var r := ListDocuments(docs, q); 0 <= r.offset && 0 < r.limit
    ensures var r := ListDocuments(docs, q);
            var n := |Ordered(docs, q)|;
            && r.total == n
            && r.documents == Ordered(docs, q)[Min(r.offset, n)..Min(r.offset + r.limit, n)]
  {
  }

  /** `limit=-k` is not rejected: `slice(0, -k)` lists all but the last k
      matching documents. */
  lemma NegativeLimit(docs: seq<Document>, q: ListQuery, k: int)
    requires q.offset.None? && q.limit == Some(-k) && 0 < k <= |Ordered(docs, q)|
    ensures ListDocuments(docs, q).documents == Ordered(docs, q)[..|Ordered(docs, q)| - k]
  {
  }

  /** The fields a document has. */
  const DocumentFields: set<string> := {
    "id", "referenceNumber", "title", "description", "creator", "date", "language",
    "physicalDescription", "subjects", "collection", "location", "accessRestrictions",
    "copyrightStatus", "coverImage", "files", "views", "downloads", "featured", "published",
    "createdAt", "updatedAt", "createdBy"}

  /** On a field no document has, no document comes before another. */
  lemma UnknownFieldTies(field: string, ascending: bool, s: seq<Document>)
    requires field !in DocumentFields
    ensures SortedBy(s, DocOrder(field, ascending))
  {
    forall i, j | 0 <= i < j < |s| ensures !DocOrder(field, ascending)(s[j], s[i]) {
      assert FieldKey(field, s[j]).Undefined? && FieldKey(field, s[i]).Undefined?;
    }
  }

  /** Sorting on a field documents do not have leaves the filtered list in
      store order. */
  lemma UnknownSortField(docs: seq<Document>, q: ListQuery)
    requires SortField(q.sort) !in DocumentFields
    ensures Ordered(docs, q) == Filter(docs, QueryFilter(q))
  {
    CandidatesMatch(docs, q);
    UnknownFieldTies(SortField(q.sort), q.order == "asc", Candidates(docs, q));
    SortByKeepsSorted(Candidates(docs, q), DocOrder(SortField(q.sort), q.order == "asc"));
  }

  /** A document whose title contains the search text as typed is kept by
      the search step, which lowers both sides. */
  lemma SearchFindsTitle(d: Document, q: ListQuery)
    requires Includes(d.title, q.search)
    ensures MatchesSearch(Lower(q.search), d)
  {
    LowerIncludes(d.title, q.search);
  }

  /** With no filter supplied, the listing holds exactly the published documents. */
  lemma NoFilterListsPublished(docs: seq<Document>, q: ListQuery)
    requires q.search == "" && q.collection == "" && q.language == "" && q.dateFrom == "" && q.dateTo == ""
    ensures ListDocuments(docs, q).total == Count(docs, Published())
  {
    FilterExtensional(docs, QueryFilter(q), Published());
  }

  // ---------------------------------------------------------------------
  // `GET /api/news`: items published up to now, `offset`/`limit` paging
  // with a default page of 10, and a `total` that counts every stored item.
  // Times are ISO-8601 texts, compared as text.

  datatype NewsPage = NewsPage(news: seq<NewsItem>, total: nat)

  function VisibleAt(now: string): NewsItem -> bool { (n: NewsItem) => !StrLess(now, n.publishedAt) }

  function ListNews(news: seq<NewsItem>, limit: Option<int>, offset: Option<int>, now: string): (r: NewsPage)
    ensures r.total == |news|
    ensures forall i :: 0 <= i < |r.news| ==> r.news[i] in news && !StrLess(now, r.news[i].publishedAt)
    ensures var visible, start, n := Filter(news, VisibleAt(now)), IntOr(offset, 0), IntOr(limit, 10);
            0 <= start && 0 < n ==> r.news == visible[Min(start, |visible|)..Min(start + n, |visible|)]
  {
    var visible := Filter(news, VisibleAt(now));
    var start := IntOr(offset, 0);
    var n := IntOr(limit, 10);
    NewsPage(Page(visible, start, n), |news|)
  }

  /** As for documents, `limit=-k` is not rejected: with no offset the page
      is every visible item but the last k. */
  lemma NewsNegativeLimit(news: seq<NewsItem>, k: int, now: string)
    requires 0 < k
    ensures var visible := Filter(news, VisibleAt(now));
            ListNews(news, Some(-k), None, now).news == visible[..Max(|visible| - k, 0)]
  {
  }

  /** `total` counts items not yet due, so it can exceed what paging can
      ever reach. */
  lemma NewsTotalCountsHidden(news: seq<NewsItem>, now: string)
    requires exists i :: 0 <= i < |news| && StrLess(now, news[i].publishedAt)
    ensures ListNews(news, None, None, now).total > Count(news, VisibleAt(now))
  {
    var i :| 0 <= i < |news| && StrLess(now, news[i].publishedAt);
    FilterKeepsAll(news, VisibleAt(now));
    assert !VisibleAt(now)(news[i]);
  }

  // ---------------------------------------------------------------------
  // Collections, gallery and the public notification feed.

  function Featured(): Collection -> bool { (c: Collection) => c.featured }

  /** `GET /api/collections`: all collections, or the featured ones when
      `featured=true`. */
  function ListCollections(cols: seq<Collection>, featured: string): (r: seq<Collection>)
    ensures featured != "true" ==> r == cols
    ensures featured == "true" ==> r == Filter(cols, Featured())
    ensures featured == "true" ==> forall i :: 0 <= i < |cols| ==> (cols[i] in r <==> cols[i].featured)
    ensures forall i :: 0 <= i < |r| ==> r[i] in cols && (featured == "true" ==> r[i].featured)
  {
    if featured == "true" then Filter(cols, Featured()) else cols
  }

  datatype CollectionView = CollectionView(collection: Collection, documents: seq<Document>)

  function MemberOf(id: string): Document -> bool { (d: Document) => d.collection == id && d.published }

  /** `GET /api/collections/:id`: the collection with its published
      documents, or not found. */
  function CollectionDetail(cols: seq<Collection>, docs: seq<Document>, id: string): (r: Option<CollectionView>)
    ensures r.None? <==> !HasKey(cols, CollectionId, id)
    ensures r.Some? ==> r.value.collection.id == id && Find(cols, CollectionId, id) == Some(r.value.collection)
    ensures r.Some? ==> r.value.documents == Filter(docs, MemberOf(id))
    ensures r.Some? ==> forall i :: 0 <= i < |docs| ==>
              (docs[i] in r.value.documents <==> docs[i].collection == id && docs[i].published)
  {
    match Find(cols, CollectionId, id)
    case None => None
    case Some(c) => Some(CollectionView(c, Filter(docs, MemberOf(c.id))))
  }

  function GalleryPublished(): GalleryItem -> bool { (g: GalleryItem) => g.published }

  /** `GET /api/gallery`. */
  function PublicGallery(gallery: seq<GalleryItem>): (r: seq<GalleryItem>)
    ensures r == Filter(gallery, GalleryPublished())
    ensures forall i :: 0 <= i < |gallery| ==> (gallery[i] in r <==> gallery[i].published)
    ensures forall i :: 0 <= i < |r| ==> r[i] in gallery && r[i].published
  {
    Filter(gallery, GalleryPublished())
  }

  function NotificationPublished(): Notification -> bool { (n: Notification) => n.published }

  /** Newest first: `new Date(b.createdAt) - new Date(a.createdAt)`, with
      ISO-8601 times compared as text. */
  function NewestFirst(): (Notification, Notification) -> bool
  {
    (a: Notification, b: Notification) => StrLess(b.createdAt, a.createdAt)
  }

  lemma NewestFirstIsStrictWeak()
    ensures StrictWeakOrder(NewestFirst())
  {
    var lt := NewestFirst();
    forall a, b ensures lt(a, b) ==> !lt(b, a) { StrLessAsymmetric(b.createdAt, a.createdAt); }
    forall a, b, c | !lt(a, b) && !lt(b, c) ensures !lt(a, c) {
      NotLessTransitive(c.createdAt, b.createdAt, a.createdAt);
    }
  }

  /** `GET /api/notifications`: the loop collects the published
      notifications in store order, then they are sorted newest first. */
  method PublicNotifications(all: seq<Notification>) returns (r: seq<Notification>)
    ensures multiset(r) == multiset(Filter(all, NotificationPublished()))
    ensures forall i :: 0 <= i < |r| ==> r[i].published && r[i] in all
    ensures forall i :: 0 <= i < |all| && all[i].published ==> all[i] in r
    ensures SortedBy(r, NewestFirst())
    ensures forall x :: Filter(r, TiedWith(NewestFirst(), x))
                        == Filter(Filter(all, NotificationPublished()), TiedWith(NewestFirst(), x))
  {
    var published: seq<Notification> := [];
    var i := 0;
    while i < |all|
      invariant 0 <= i <= |all|
      invariant published == Filter(all[..i], NotificationPublished())
    {
      FilterAppend(all[..i], all[i], NotificationPublished());
      assert all[..i + 1] == all[..i] + [all[i]];
      if all[i].published {
        published := published + [all[i]];
      }
      i := i + 1;
    }
    assert all[..i] == all;
    r := SortBy(published, NewestFirst());
    FeedOrder(all, published);
    NewestFirstIsStrictWeak();
    forall x ensures Filter(r, TiedWith(NewestFirst(), x)) == Filter(published, TiedWith(NewestFirst(), x)) {
      SortByStable(published, NewestFirst(), x);
    }
  }

  /** The published notifications, sorted newest first: a permutation of
      them, in order. */
  lemma FeedOrder(all: seq<Notification>, published: seq<Notification>)
    requires published == Filter(all, NotificationPublished())
    ensures var r := SortBy(published, NewestFirst());
            && multiset(r) == multiset(published)
            && (forall i :: 0 <= i < |r| ==> r[i].published && r[i] in all)
            && (forall i :: 0 <= i < |all| && all[i].published ==> all[i] in r)
            && SortedBy(r, NewestFirst())
  {
    var r := SortBy(published, NewestFirst());
    NewestFirstIsStrictWeak();
    SortBySorted(published, NewestFirst());
    SortByMembers(published, NewestFirst());
    forall k | 0 <= k < |r| ensures r[k].published && r[k] in all {
      assert r[k] in published;
    }
    forall k | 0 <= k < |all| && all[k].published ensures all[k] in r {
      assert all[k] in published;
    }
  }

  /** `GET /api/notifications/admin`: every notification, newest first, for
      a signed-in caller; an empty list for anyone else. */
  function AdminNotifications(all: seq<Notification>, signedIn: bool): (r: seq<Notification>)
    ensures !signedIn ==> r == []
    ensures signedIn ==> multiset(r) == multiset(all) && SortedBy(r, NewestFirst())
    ensures signedIn ==> forall x :: Filter(r, TiedWith(NewestFirst(), x)) == Filter(all, TiedWith(NewestFirst(), x))
  {
    if signedIn then
      NewestFirstIsStrictWeak();
      SortBySorted(all, NewestFirst());
      forall x ensures Filter(SortBy(all, NewestFirst()), TiedWith(NewestFirst(), x)) == Filter(all, TiedWith(NewestFirst(), x)) {
        SortByStable(all, NewestFirst(), x);
      }
      SortBy(all, NewestFirst())
    else []
  }
}
