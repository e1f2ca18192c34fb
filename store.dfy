/** The catalog store and the route handlers that change it. Each handler
    reads the whole store, changes it in place and writes it back; the model
    keeps the store in a `Store` object and gives each handler one method
    that makes the same change. Ids the handlers would draw from
    `generateId`, the current time and the caller's user id are parameters. */
module Archive {
  import opened Base
  import opened JsStrings
  import opened Sequences
  import opened Catalog
  import opened Reports

  // ---------------------------------------------------------------------
  // The newsletter address check `/^[^\s@]+@[^\s@]+\.[^\s@]+$/`.

  predicate EmailChar(c: char) { c != '@' && !RegexSpace(c) }

  /** A non-empty part, `@`, a non-empty part, `.`, a non-empty part, none
      of them holding `@` or white space (the middle part may hold dots). */
  predicate ValidEmail(s: string)
  {
    exists at, dot | 0 < at < |s| && at + 1 < dot < |s| - 1 ::
      s[at] == '@' && s[dot] == '.' && forall j | 0 <= j < |s| && j != at :: EmailChar(s[j])
  }

  /** An accepted address has exactly one `@`, with text on both sides,
      and no white space. */
  lemma ValidEmailShape(s: string)
    requires ValidEmail(s)
    ensures exists at :: 0 < at < |s| - 1 && s[at] == '@' && (forall j :: 0 <= j < |s| && j != at ==> s[j] != '@')
    ensures forall j :: 0 <= j < |s| ==> !RegexSpace(s[j])
  {
    var at, dot :| 0 < at < |s| && at + 1 < dot < |s| - 1 && s[at] == '@' && s[dot] == '.' &&
                   forall j | 0 <= j < |s| && j != at :: EmailChar(s[j]);
    assert forall j :: 0 <= j < |s| && j != at ==> s[j] != '@';
  }

  datatype Subscription = InvalidEmail | AlreadySubscribed | Subscribed

  // ---------------------------------------------------------------------

  /** One gallery item per uploaded file, in upload order. */
  function NewGalleryItems(ids: seq<string>, files: seq<UploadedFile>, form: GalleryForm, now: string, userId: string)
    : (items: seq<GalleryItem>)
    requires |ids| == |files|
    ensures |items| == |files|
    ensures forall k :: 0 <= k < |items| ==> items[k].id == ids[k] && items[k].uploadedAt == now
    ensures forall k :: 0 <= k < |items| ==> items[k] == NewGalleryItem(ids[k], files[k], form, now, userId)
  {
    seq(|files|, k requires 0 <= k < |files| => NewGalleryItem(ids[k], files[k], form, now, userId))
  }

  /** The store's invariant as a property of its value. (Contact messages
      are left out: a message body may carry an id of its own.) */
  ghost predicate ValidDb(db: Db)
  {
    && UniqueKeys(db.documents, DocumentId)
    && UniqueKeys(db.collections, CollectionId)
    && UniqueKeys(db.news, NewsId)
    && UniqueKeys(db.gallery, GalleryId)
    && UniqueKeys(db.researchRequests, RequestId)
    && UniqueKeys(db.notifications, NotificationId)
    && UniqueKeys(db.subscribers, SubscriberEmail)
    && |db.analytics.searchQueries| <= SearchLogLimit
  }

  class Store {
    var documents: seq<Document>
    var collections: seq<Collection>
    var news: seq<NewsItem>
    var gallery: seq<GalleryItem>
    var researchRequests: seq<ResearchRequest>
    var contactMessages: seq<ContactMessage>
    var notifications: seq<Notification>
    var subscribers: seq<Subscriber>
    var analytics: Analytics
    var settings: Settings

    /** The store as the value `readDatabase` would return. */
    function State(): Db
      reads this
    {
      Db(documents, collections, news, gallery, researchRequests, contactMessages, notifications,
         subscribers, analytics, settings)
    }

    /** Ids are unique in every collection whose records get their id from
        `generateId`, no address is subscribed twice, and the search log is
        within its bound. */
    ghost predicate Valid()
      reads this
    {
      ValidDb(State())
    }

    constructor(db: Db)
      ensures State() == db
    {
      documents, collections, news, gallery := db.documents, db.collections, db.news, db.gallery;
      researchRequests, contactMessages, notifications := db.researchRequests, db.contactMessages, db.notifications;
      subscribers, analytics, settings := db.subscribers, db.analytics, db.settings;
    }

    // -------------------------------------------------------------------
    // Analytics

    /** `trackAnalytics(type, data)`: a view or a download bumps its total;
        a search is logged with the time, the log trimmed to its bound. A
        search without `data` fails inside the handler and changes nothing,
        as does any other type. */
    method TrackAnalytics(kind: string, data: Option<string>, now: string)
      modifies this
      ensures kind == "view" ==>
                State() == old(State()).(analytics := old(analytics).(totalViews := old(analytics).totalViews + 1))
      ensures kind == "download" ==>
                State() == old(State()).(analytics := old(analytics).(totalDownloads := old(analytics).totalDownloads + 1))
      ensures kind == "search" && data.Some? ==>
                State() == old(State()).(analytics := old(analytics).(searchQueries :=
                  RecordSearch(old(analytics).searchQueries, SearchEntry(data.value, now))))
      ensures kind !in {"view", "download"} && (kind != "search" || data.None?) ==> State() == old(State())
      ensures old(Valid()) ==> Valid()
    {
      if kind == "view" {
        analytics := analytics.(totalViews := analytics.totalViews + 1);
      } else if kind == "download" {
        analytics := analytics.(totalDownloads := analytics.totalDownloads + 1);
      } else if kind == "search" && data.Some? {
        analytics := analytics.(searchQueries := RecordSearch(analytics.searchQueries, SearchEntry(data.value, now)));
      }
    }

    // -------------------------------------------------------------------
    // Documents

    /** `GET /api/documents/:id`: a published document is returned with one
        more view, and the total of views grows by one; a missing or
        unpublished one is not found and nothing changes. */
    method ViewDocument(id: string, now: string) returns (r: Option<Document>)
      modifies this
      ensures var i := FirstIndex(old(documents), DocumentId, id);
              if i < 0 || !old(documents)[i].published then
                r.None? && State() == old(State())
              else
                var d := Viewed(old(documents)[i]);
                && r == Some(d)
                && State() == old(State()).(documents := old(documents)[i := d],
                                            analytics := old(analytics).(totalViews := old(analytics).totalViews + 1))
      ensures old(Valid()) ==> Valid()
    {
      var i := FirstIndex(documents, DocumentId, id);
      if i < 0 || !documents[i].published {
        r := None;
      } else {
        var d := Viewed(documents[i]);
        ghost var wasValid := Valid();
        if wasValid { ReplaceSameKey(documents, i, d, DocumentId); }
        documents := documents[i := d];
        assert wasValid ==> Valid();
        TrackAnalytics("view", None, now);
        r := Some(d);
      }
    }

    /** `POST /api/documents`: the new record goes at the end. */
    method CreateDocument(id: string, b: DocumentBody, now: string, userId: string) returns (d: Document)
      modifies this
      ensures d == NewDocument(id, b, now, userId)
      ensures State() == old(State()).(documents := old(documents) + [d])
      ensures old(Valid()) && !HasKey(old(documents), DocumentId, id) ==> Valid() && Find(documents, DocumentId, id) == Some(d)
    {
      d := NewDocument(id, b, now, userId);
      if Valid() && !HasKey(documents, DocumentId, id) { AppendFresh(documents, d, DocumentId); }
      documents := documents + [d];
    }

    /** `PUT /api/documents/:id`: the body merged over the first record with
        that id, or not found and nothing changes. */
    method UpdateDocument(id: string, p: DocumentPatch, now: string) returns (r: Option<Document>)
      modifies this
      ensures var i := FirstIndex(old(documents), DocumentId, id);
              if i < 0 then r.None? && State() == old(State())
              else
                && r == Some(MergeDocument(old(documents)[i], p, id, now))
                && State() == old(State()).(documents := old(documents)[i := r.value])
      ensures old(Valid()) ==> Valid()
    {
      var i := FirstIndex(documents, DocumentId, id);
      if i < 0 {
        return None;
      }
      var d := MergeDocument(documents[i], p, id, now);
      if Valid() { ReplaceSameKey(documents, i, d, DocumentId); }
      documents := documents[i := d];
      r := Some(d);
    }

    /** `DELETE /api/documents/:id`. */
    method DeleteDocument(id: string) returns (found: bool)
      modifies this
      ensures found == HasKey(old(documents), DocumentId, id)
      ensures State() == old(State()).(documents := DeleteFirst(old(documents), DocumentId, id))
      ensures old(Valid()) ==> Valid() && !HasKey(documents, DocumentId, id)
    {
      DeleteFacts(documents, DocumentId, id);
      if Valid() { DeleteUnique(documents, DocumentId, id); }
      var i := FirstIndex(documents, DocumentId, id);
      found := i >= 0;
      documents := DeleteFirst(documents, DocumentId, id);
    }

    /** `POST /api/documents/:id/download`: any stored document, published
        or not, gets one more download, and so does the total. */
    method DownloadDocument(id: string, now: string) returns (found: bool)
      modifies this
      ensures var i := FirstIndex(old(documents), DocumentId, id);
              if i < 0 then !found && State() == old(State())
              else
                var d := Downloaded(old(documents)[i]);
                && found
                && State() == old(State()).(documents := old(documents)[i := d],
                                            analytics := old(analytics).(totalDownloads := old(analytics).totalDownloads + 1))
      ensures old(Valid()) ==> Valid()
    {
      var i := FirstIndex(documents, DocumentId, id);
      found := i >= 0;
      if found {
        var d := Downloaded(documents[i]);
        if Valid() { ReplaceSameKey(documents, i, d, DocumentId); }
        documents := documents[i := d];
        TrackAnalytics("download", None, now);
      }
    }

    // -------------------------------------------------------------------
    // Newsletter

    /** `POST /api/newsletter/subscribe`: a malformed address is refused, an
        address already on the list is refused, any other is appended as an
        active subscriber. The duplicate check keeps addresses unique. */
    method Subscribe(id: string, email: string, now: string) returns (r: Subscription)
      modifies this
      ensures !ValidEmail(email) ==> r == InvalidEmail && State() == old(State())
      ensures ValidEmail(email) && HasKey(old(subscribers), SubscriberEmail, email) ==>
                r == AlreadySubscribed && State() == old(State())
      ensures ValidEmail(email) && !HasKey(old(subscribers), SubscriberEmail, email) ==>
                r == Subscribed && State() == old(State()).(subscribers := old(subscribers) + [Subscriber(id, email, now, true)])
      ensures old(Valid()) ==> Valid()
    {
      if !ValidEmail(email) {
        return InvalidEmail;
      }
      var existing := Find(subscribers, SubscriberEmail, email);
      if existing.Some? {
        return AlreadySubscribed;
      }
      var s := Subscriber(id, email, now, true);
      if Valid() { AppendFresh(subscribers, s, SubscriberEmail); }
      subscribers := subscribers + [s];
      r := Subscribed;
    }

    // -------------------------------------------------------------------
    // Collections

    method CreateCollection(id: string, b: CollectionBody, now: string) returns (c: Collection)
      modifies this
      ensures c == NewCollection(id, b, now)
      ensures State() == old(State()).(collections := old(collections) + [c])
      ensures old(Valid()) && !HasKey(old(collections), CollectionId, id) ==> Valid()
    {
      c := NewCollection(id, b, now);
      if Valid() && !HasKey(collections, CollectionId, id) { AppendFresh(collections, c, CollectionId); }
      collections := collections + [c];
    }

    method UpdateCollection(id: string, p: CollectionPatch) returns (r: Option<Collection>)
      modifies this
      ensures var i := FirstIndex(old(collections), CollectionId, id);
              if i < 0 then r.None? && State() == old(State())
              else
                && r == Some(MergeCollection(old(collections)[i], p, id))
                && State() == old(State()).(collections := old(collections)[i := r.value])
      ensures old(Valid()) ==> Valid()
    {
      var i := FirstIndex(collections, CollectionId, id);
      if i < 0 {
        return None;
      }
      var c := MergeCollection(collections[i], p, id);
      if Valid() { ReplaceSameKey(collections, i, c, CollectionId); }
      collections := collections[i := c];
      r := Some(c);
    }

    method DeleteCollection(id: string) returns (found: bool)
      modifies this
      ensures found == HasKey(old(collections), CollectionId, id)
      ensures State() == old(State()).(collections := DeleteFirst(old(collections), CollectionId, id))
      ensures old(Valid()) ==> Valid()
    {
      DeleteFacts(collections, CollectionId, id);
      if Valid() { DeleteUnique(collections, CollectionId, id); }
      var i := FirstIndex(collections, CollectionId, id);
      found := i >= 0;
      collections := DeleteFirst(collections, CollectionId, id);
    }

    // -------------------------------------------------------------------
    // News

    /** `GET /api/news/:id`: any stored item, whatever its publication time. */
    function NewsDetail(id: string): (r: Option<NewsItem>)
      reads this
      ensures r.Some? <==> HasKey(news, NewsId, id)
      ensures r.Some? ==> r.value in news && r.value.id == id
    {
      Find(news, NewsId, id)
    }

    method CreateNews(id: string, b: NewsBody, now: string) returns (n: NewsItem)
      modifies this
      ensures n == NewNewsItem(id, b, now)
      ensures State() == old(State()).(news := old(news) + [n])
      ensures old(Valid()) && !HasKey(old(news), NewsId, id) ==> Valid()
    {
      n := NewNewsItem(id, b, now);
      if Valid() && !HasKey(news, NewsId, id) { AppendFresh(news, n, NewsId); }
      news := news + [n];
    }

    method UpdateNews(id: string, p: NewsPatch) returns (r: Option<NewsItem>)
      modifies this
      ensures var i := FirstIndex(old(news), NewsId, id);
              if i < 0 then r.None? && State() == old(State())
              else
                && r == Some(MergeNews(old(news)[i], p, id))
                && State() == old(State()).(news := old(news)[i := r.value])
      ensures old(Valid()) ==> Valid()
    {
      var i := FirstIndex(news, NewsId, id);
      if i < 0 {
        return None;
      }
      var n := MergeNews(news[i], p, id);
      if Valid() { ReplaceSameKey(news, i, n, NewsId); }
      news := news[i := n];
      r := Some(n);
    }

    method DeleteNews(id: string) returns (found: bool)
      modifies this
      ensures found == HasKey(old(news), NewsId, id)
      ensures State() == old(State()).(news := DeleteFirst(old(news), NewsId, id))
      ensures old(Valid()) ==> Valid()
    {
      DeleteFacts(news, NewsId, id);
      if Valid() { DeleteUnique(news, NewsId, id); }
      var i := FirstIndex(news, NewsId, id);
      found := i >= 0;
      news := DeleteFirst(news, NewsId, id);
    }

    // -------------------------------------------------------------------
    // Contact messages

    method SubmitContact(id: string, b: ContactBody, now: string) returns (m: ContactMessage)
      modifies this
      ensures m == NewMessage(id, b, now)
      ensures State() == old(State()).(contactMessages := old(contactMessages) + [m])
      ensures old(Valid()) ==> Valid()
    {
      m := NewMessage(id, b, now);
      contactMessages := contactMessages + [m];
    }

    /** `PUT /api/contact-messages/:id/read`: the first message with the id
        is marked read. */
    method MarkMessageRead(id: string) returns (found: bool)
      modifies this
      ensures var i := FirstIndex(old(contactMessages), MessageId, id);
              if i < 0 then !found && State() == old(State())
              else
                && found
                && State() == old(State()).(contactMessages := old(contactMessages)[i := old(contactMessages)[i].(read := true)])
      ensures old(Valid()) ==> Valid()
    {
      var i := FirstIndex(contactMessages, MessageId, id);
      if i < 0 {
        return false;
      }
      contactMessages := contactMessages[i := contactMessages[i].(read := true)];
      found := true;
    }

    method DeleteMessage(id: string) returns (found: bool)
      modifies this
      ensures found == HasKey(old(contactMessages), MessageId, id)
      ensures State() == old(State()).(contactMessages := DeleteFirst(old(contactMessages), MessageId, id))
      ensures old(Valid()) ==> Valid()
    {
      DeleteFacts(contactMessages, MessageId, id);
      var i := FirstIndex(contactMessages, MessageId, id);
      found := i >= 0;
      contactMessages := DeleteFirst(contactMessages, MessageId, id);
    }

    // -------------------------------------------------------------------
    // Gallery

    /** `POST /api/gallery`: one item per uploaded file, all appended. */
    method UploadGallery(ids: seq<string>, files: seq<UploadedFile>, form: GalleryForm, now: string, userId: string)
      returns (items: seq<GalleryItem>)
      requires |ids| == |files|
      modifies this
      ensures items == NewGalleryItems(ids, files, form, now, userId)
      ensures State() == old(State()).(gallery := old(gallery) + items)
      ensures old(Valid()) && Distinct(ids) && (forall k :: 0 <= k < |ids| ==> !HasKey(old(gallery), GalleryId, ids[k]))
              ==> Valid()
    {
      items := NewGalleryItems(ids, files, form, now, userId);
      if Valid() && Distinct(ids) && (forall k :: 0 <= k < |ids| ==> !HasKey(gallery, GalleryId, ids[k])) {
        AppendAllFresh(gallery, items, GalleryId);
      }
      gallery := gallery + items;
    }

    /** `PUT /api/gallery/:id`. */
    method EditGallery(id: string, e: GalleryEdit, now: string) returns (r: Option<GalleryItem>)
      modifies this
      ensures var i := FirstIndex(old(gallery), GalleryId, id);
              if i < 0 then r.None? && State() == old(State())
              else
                && r == Some(EditGalleryItem(old(gallery)[i], e, now))
                && State() == old(State()).(gallery := old(gallery)[i := r.value])
      ensures old(Valid()) ==> Valid()
    {
      var i := FirstIndex(gallery, GalleryId, id);
      if i < 0 {
        return None;
      }
      var g := EditGalleryItem(gallery[i], e, now);
      if Valid() { ReplaceSameKey(gallery, i, g, GalleryId); }
      gallery := gallery[i := g];
      r := Some(g);
    }

    method DeleteGallery(id: string) returns (found: bool)
      modifies this
      ensures found == HasKey(old(gallery), GalleryId, id)
      ensures State() == old(State()).(gallery := DeleteFirst(old(gallery), GalleryId, id))
      ensures old(Valid()) ==> Valid()
    {
      DeleteFacts(gallery, GalleryId, id);
      if Valid() { DeleteUnique(gallery, GalleryId, id); }
      var i := FirstIndex(gallery, GalleryId, id);
      found := i >= 0;
      gallery := DeleteFirst(gallery, GalleryId, id);
    }

    // -------------------------------------------------------------------
    // Research requests

    method SubmitRequest(id: string, b: RequestBody, now: string) returns (r: ResearchRequest)
      modifies this
      ensures r == NewRequest(id, b, now)
      ensures State() == old(State()).(researchRequests := old(researchRequests) + [r])
      ensures old(Valid()) && !HasKey(old(researchRequests), RequestId, id) ==> Valid()
    {
      r := NewRequest(id, b, now);
      if Valid() && !HasKey(researchRequests, RequestId, id) { AppendFresh(researchRequests, r, RequestId); }
      researchRequests := researchRequests + [r];
    }

    /** `PUT /api/research-requests/:id/status`: whatever text the body
        carries becomes the status; no transition is checked. */
    method SetRequestStatus(id: string, status: string, now: string) returns (r: Option<ResearchRequest>)
      modifies this
      ensures var i := FirstIndex(old(researchRequests), RequestId, id);
              if i < 0 then r.None? && State() == old(State())
              else
                && r == Some(old(researchRequests)[i].(status := status, updatedAt := now))
                && State() == old(State()).(researchRequests := old(researchRequests)[i := r.value])
      ensures old(Valid()) ==> Valid()
    {
      var i := FirstIndex(researchRequests, RequestId, id);
      if i < 0 {
        return None;
      }
      var q := researchRequests[i].(status := status, updatedAt := now);
      if Valid() { ReplaceSameKey(researchRequests, i, q, RequestId); }
      researchRequests := researchRequests[i := q];
      r := Some(q);
    }

    // -------------------------------------------------------------------
    // Notifications (the handlers registered first, which are the ones
    // that answer)

    /** The hand-written search loop: the first position holding the id, or -1. */
    method FindNotification(id: string) returns (index: int)
      ensures index == FirstIndex(notifications, NotificationId, id)
    {
      index := -1;
      var i := 0;
      while i < |notifications|
        invariant 0 <= i <= |notifications|
        invariant forall k :: 0 <= k < i ==> notifications[k].id != id
      {
        if notifications[i].id == id {
          index := i;
          break;
        }
        i := i + 1;
      }
    }

    method CreateNotification(id: string, b: NotificationBody, now: string, userId: string) returns (n: Notification)
      modifies this
      ensures n == NewNotification(id, b, now, userId)
      ensures State() == old(State()).(notifications := old(notifications) + [n])
      ensures old(Valid()) && !HasKey(old(notifications), NotificationId, id) ==> Valid()
    {
      n := NewNotification(id, b, now, userId);
      if Valid() && !HasKey(notifications, NotificationId, id) { AppendFresh(notifications, n, NotificationId); }
      notifications := notifications + [n];
    }

    /** `PUT /api/notifications/:id`: the record is rebuilt from the body,
        keeping its id, creation time and creator. */
    method UpdateNotification(id: string, b: NotificationBody, now: string) returns (r: Option<Notification>)
      modifies this
      ensures var i := FirstIndex(old(notifications), NotificationId, id);
              if i < 0 then r.None? && State() == old(State())
              else
                && r == Some(ReplaceNotification(old(notifications)[i], b, now))
                && State() == old(State()).(notifications := old(notifications)[i := r.value])
      ensures old(Valid()) ==> Valid()
    {
      var i := FindNotification(id);
      if i == -1 {
        return None;
      }
      var n := ReplaceNotification(notifications[i], b, now);
      if Valid() { ReplaceSameKey(notifications, i, n, NotificationId); }
      notifications := notifications[i := n];
      r := Some(n);
    }

    method DeleteNotification(id: string) returns (found: bool)
      modifies this
      ensures found == HasKey(old(notifications), NotificationId, id)
      ensures State() == old(State()).(notifications := DeleteFirst(old(notifications), NotificationId, id))
      ensures old(Valid()) ==> Valid()
    {
      DeleteFacts(notifications, NotificationId, id);
      if Valid() { DeleteUnique(notifications, NotificationId, id); }
      var i := FindNotification(id);
      found := i != -1;
      notifications := DeleteFirst(notifications, NotificationId, id);
    }

    // -------------------------------------------------------------------
    // Settings

    /** `PUT /api/settings`: `{ ...settings, ...body }`. */
    method UpdateSettings(p: SettingsPatch) returns (s: Settings)
      modifies this
      ensures s == MergeSettings(old(settings), p)
      ensures State() == old(State()).(settings := s)
      ensures old(Valid()) ==> Valid()
    {
      s := MergeSettings(settings, p);
      settings := s;
    }
  }
}
