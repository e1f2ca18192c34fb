/** The records of the catalog store and the way the route handlers build
    and update them: one datatype per stored entity, one per request body,
    and the functions that turn a body into a new record or merge it into an
    existing one (object spread `{ ...old, ...body, id }`).

    A request body is a record of the fields the handler reads. A field the
    handler defaults with `||` is a plain value, the empty string standing
    for an omitted field (both are falsy, so both take the default). A field
    that an object spread may or may not carry is an `Option`. */
module Catalog {
  import opened Base

  // ---------------------------------------------------------------------
  // Documents

  datatype DateRange = DateRange(from: string, to: string)

  datatype FileRef = FileRef(kind: string, url: string, thumbnail: string, originalName: string, size: nat)

  datatype Document = Document(
    id: string,
    referenceNumber: string,
    title: string,
    description: string,
    creator: string,
    date: DateRange,
    language: seq<string>,
    physicalDescription: string,
    subjects: seq<string>,
    collection: string,
    location: string,
    accessRestrictions: string,
    copyrightStatus: string,
    coverImage: string,
    files: seq<FileRef>,
    views: nat,
    downloads: nat,
    featured: bool,
    published: bool,
    createdAt: string,
    updatedAt: string,
    createdBy: string)

  function DocumentId(d: Document): string { d.id }

  /** A recorded view: the view counter goes up by one and no other field
      of the record moves. */
  function Viewed(d: Document): (r: Document)
    ensures r.views == d.views + 1 && r.(views := d.views) == d
  {
    d.(views := d.views + 1)
  }

  /** A recorded download: the download counter goes up by one and no other
      field of the record moves. */
  function Downloaded(d: Document): (r: Document)
    ensures r.downloads == d.downloads + 1 && r.(downloads := d.downloads) == d
  {
    d.(downloads := d.downloads + 1)
  }

  /** The body of `POST /api/documents`. */
  datatype DocumentBody = DocumentBody(
    referenceNumber: string,
    title: string,
    description: string,
    creator: string,
    date: Option<DateRange>,
    language: seq<string>,
    physicalDescription: string,
    subjects: seq<string>,
    collection: string,
    location: string,
    accessRestrictions: string,
    copyrightStatus: string,
    coverImage: string,
    files: seq<FileRef>,
    featured: bool,
    published: bool)

  /** The record `POST /api/documents` appends: counters at zero, the
      creation time in both timestamps, the caller as creator, and the
      handler's defaults for omitted fields. */
  function NewDocument(id: string, b: DocumentBody, now: string, userId: string): (d: Document)
    ensures d.id == id && d.createdBy == userId
    ensures d.views == 0 && d.downloads == 0
    ensures d.published == b.published && d.featured == b.featured
    ensures d.createdAt == now && d.updatedAt == now
    ensures d.accessRestrictions == OrStr(b.accessRestrictions, "Public")
    ensures d.copyrightStatus == OrStr(b.copyrightStatus, "Unknown")
    ensures d.accessRestrictions != "" && d.copyrightStatus != ""
    ensures d.date == (if b.date.Some? then b.date.value else DateRange("", ""))
    ensures d.referenceNumber == b.referenceNumber && d.title == b.title && d.description == b.description
    ensures d.creator == b.creator && d.language == b.language && d.physicalDescription == b.physicalDescription
    ensures d.subjects == b.subjects && d.collection == b.collection && d.location == b.location
    ensures d.coverImage == b.coverImage && d.files == b.files
  {
    Document(
      id := id,
      referenceNumber := b.referenceNumber,
      title := b.title,
      description := b.description,
      creator := b.creator,
      date := b.date.GetOr(DateRange("", "")),
      language := b.language,
      physicalDescription := b.physicalDescription,
      subjects := b.subjects,
      collection := b.collection,
      location := b.location,
      accessRestrictions := OrStr(b.accessRestrictions, "Public"),
      copyrightStatus := OrStr(b.copyrightStatus, "Unknown"),
      coverImage := b.coverImage,
      files := b.files,
      views := 0,
      downloads := 0,
      featured := b.featured,
      published := b.published,
      createdAt := now,
      updatedAt := now,
      createdBy := userId)
  }

  /** The body of `PUT /api/documents/:id`: any field may be present, the
      counters included. */
  datatype DocumentPatch = DocumentPatch(
    id: Option<string>,
    referenceNumber: Option<string>,
    title: Option<string>,
    description: Option<string>,
    creator: Option<string>,
    date: Option<DateRange>,
    language: Option<seq<string>>,
    physicalDescription: Option<string>,
    subjects: Option<seq<string>>,
    collection: Option<string>,
    location: Option<string>,
    accessRestrictions: Option<string>,
    copyrightStatus: Option<string>,
    coverImage: Option<string>,
    files: Option<seq<FileRef>>,
    views: Option<nat>,
    downloads: Option<nat>,
    featured: Option<bool>,
    published: Option<bool>,
    createdAt: Option<string>,
    updatedAt: Option<string>,
    createdBy: Option<string>)

  const NoDocumentChanges := DocumentPatch(None, None, None, None, None, None, None, None, None, None, None,
                                           None, None, None, None, None, None, None, None, None, None, None)

  /** `{ ...d, ...p, id, updatedAt: now }`: the path id and the time win
      over the body, the body wins over the stored record, and an empty body
      changes nothing but those two. */
  function MergeDocument(d: Document, p: DocumentPatch, id: string, now: string): (r: Document)
    ensures r.id == id && r.updatedAt == now
    ensures p == NoDocumentChanges ==> r == d.(id := id, updatedAt := now)
    ensures Overlays(p.referenceNumber, d.referenceNumber, r.referenceNumber)
    ensures Overlays(p.title, d.title, r.title)
    ensures Overlays(p.description, d.description, r.description)
    ensures Overlays(p.creator, d.creator, r.creator)
    ensures Overlays(p.date, d.date, r.date)
    ensures Overlays(p.language, d.language, r.language)
    ensures Overlays(p.physicalDescription, d.physicalDescription, r.physicalDescription)
    ensures Overlays(p.subjects, d.subjects, r.subjects)
    ensures Overlays(p.collection, d.collection, r.collection)
    ensures Overlays(p.location, d.location, r.location)
    ensures Overlays(p.accessRestrictions, d.accessRestrictions, r.accessRestrictions)
    ensures Overlays(p.copyrightStatus, d.copyrightStatus, r.copyrightStatus)
    ensures Overlays(p.coverImage, d.coverImage, r.coverImage)
    ensures Overlays(p.files, d.files, r.files)
    ensures Overlays(p.views, d.views, r.views)
    ensures Overlays(p.downloads, d.downloads, r.downloads)
    ensures Overlays(p.featured, d.featured, r.featured)
    ensures Overlays(p.published, d.published, r.published)
    ensures Overlays(p.createdAt, d.createdAt, r.createdAt)
    ensures Overlays(p.createdBy, d.createdBy, r.createdBy)
  {
    Document(
      id := id,
      referenceNumber := p.referenceNumber.GetOr(d.referenceNumber),
      title := p.title.GetOr(d.title),
      description := p.description.GetOr(d.description),
      creator := p.creator.GetOr(d.creator),
      date := p.date.GetOr(d.date),
      language := p.language.GetOr(d.language),
      physicalDescription := p.physicalDescription.GetOr(d.physicalDescription),
      subjects := p.subjects.GetOr(d.subjects),
      collection := p.collection.GetOr(d.collection),
      location := p.location.GetOr(d.location),
      accessRestrictions := p.accessRestrictions.GetOr(d.accessRestrictions),
      copyrightStatus := p.copyrightStatus.GetOr(d.copyrightStatus),
      coverImage := p.coverImage.GetOr(d.coverImage),
      files := p.files.GetOr(d.files),
      views := p.views.GetOr(d.views),
      downloads := p.downloads.GetOr(d.downloads),
      featured := p.featured.GetOr(d.featured),
      published := p.published.GetOr(d.published),
      createdAt := p.createdAt.GetOr(d.createdAt),
      updatedAt := now,
      createdBy := p.createdBy.GetOr(d.createdBy))
  }

  /** The body `q` sent after `p`: wherever `q` names a field it wins. */
  function ThenDocument(p: DocumentPatch, q: DocumentPatch): DocumentPatch
  {
    DocumentPatch(
      if q.id.Some? then q.id else p.id,
      if q.referenceNumber.Some? then q.referenceNumber else p.referenceNumber,
      if q.title.Some? then q.title else p.title,
      if q.description.Some? then q.description else p.description,
      if q.creator.Some? then q.creator else p.creator,
      if q.date.Some? then q.date else p.date,
      if q.language.Some? then q.language else p.language,
      if q.physicalDescription.Some? then q.physicalDescription else p.physicalDescription,
      if q.subjects.Some? then q.subjects else p.subjects,
      if q.collection.Some? then q.collection else p.collection,
      if q.location.Some? then q.location else p.location,
      if q.accessRestrictions.Some? then q.accessRestrictions else p.accessRestrictions,
      if q.copyrightStatus.Some? then q.copyrightStatus else p.copyrightStatus,
      if q.coverImage.Some? then q.coverImage else p.coverImage,
      if q.files.Some? then q.files else p.files,
      if q.views.Some? then q.views else p.views,
      if q.downloads.Some? then q.downloads else p.downloads,
      if q.featured.Some? then q.featured else p.featured,
      if q.published.Some? then q.published else p.published,
      if q.createdAt.Some? then q.createdAt else p.createdAt,
      if q.updatedAt.Some? then q.updatedAt else p.updatedAt,
      if q.createdBy.Some? then q.createdBy else p.createdBy)
  }

  /** Two merges in a row are one merge with the later body laid over the
      earlier one. */
  lemma MergeTwice(d: Document, p: DocumentPatch, q: DocumentPatch, id: string, t1: string, t2: string)
    ensures MergeDocument(MergeDocument(d, p, id, t1), q, id, t2) == MergeDocument(d, ThenDocument(p, q), id, t2)
  {
  }

  // ---------------------------------------------------------------------
  // Collections

  datatype Collection = Collection(
    id: string,
    name: string,
    description: string,
    dateRange: string,
    featured: bool,
    itemCount: int,
    coverImage: string,
    createdAt: string)

  function CollectionId(c: Collection): string { c.id }

  /** The body of `POST /api/collections`. */
  datatype CollectionBody = CollectionBody(
    name: string, description: string, dateRange: string, featured: bool, itemCount: int, coverImage: string)

  function NewCollection(id: string, b: CollectionBody, now: string): (c: Collection)
    ensures c.id == id && c.createdAt == now
    ensures c.name == b.name && c.featured == b.featured && c.itemCount == b.itemCount
    ensures c.description == b.description && c.dateRange == b.dateRange && c.coverImage == b.coverImage
  {
    Collection(id, b.name, b.description, b.dateRange, b.featured, b.itemCount, b.coverImage, now)
  }

  /** The body of `PUT /api/collections/:id`. */
  datatype CollectionPatch = CollectionPatch(
    id: Option<string>, name: Option<string>, description: Option<string>, dateRange: Option<string>,
    featured: Option<bool>, itemCount: Option<int>, coverImage: Option<string>, createdAt: Option<string>)

  /** `{ ...c, ...p, id }`: no update timestamp for collections. */
  function MergeCollection(c: Collection, p: CollectionPatch, id: string): (r: Collection)
    ensures r.id == id
    ensures p == CollectionPatch(None, None, None, None, None, None, None, None) ==> r == c.(id := id)
    ensures Overlays(p.name, c.name, r.name)
    ensures Overlays(p.description, c.description, r.description)
    ensures Overlays(p.dateRange, c.dateRange, r.dateRange)
    ensures Overlays(p.featured, c.featured, r.featured)
    ensures Overlays(p.itemCount, c.itemCount, r.itemCount)
    ensures Overlays(p.coverImage, c.coverImage, r.coverImage)
    ensures Overlays(p.createdAt, c.createdAt, r.createdAt)
  {
    Collection(id, p.name.GetOr(c.name), p.description.GetOr(c.description), p.dateRange.GetOr(c.dateRange),
               p.featured.GetOr(c.featured), p.itemCount.GetOr(c.itemCount), p.coverImage.GetOr(c.coverImage),
               p.createdAt.GetOr(c.createdAt))
  }

  // ---------------------------------------------------------------------
  // News

  datatype NewsItem = NewsItem(
    id: string, title: string, excerpt: string, content: string, image: string,
    publishedAt: string, featured: bool, author: string)

  function NewsId(n: NewsItem): string { n.id }

  /** The body of `POST /api/news`. */
  datatype NewsBody = NewsBody(
    title: string, excerpt: string, content: string, image: string, publishedAt: string, featured: bool, author: string)

  function NewNewsItem(id: string, b: NewsBody, now: string): (n: NewsItem)
    ensures n.id == id
    ensures n.publishedAt == (if b.publishedAt == "" then now else b.publishedAt)
    ensures n.author == OrStr(b.author, "Archives Team") && n.author != ""
    ensures n.title == b.title && n.excerpt == b.excerpt && n.content == b.content
    ensures n.image == b.image && n.featured == b.featured
  {
    NewsItem(id, b.title, b.excerpt, b.content, b.image, OrStr(b.publishedAt, now), b.featured,
             OrStr(b.author, "Archives Team"))
  }

  /** The body of `PUT /api/news/:id`. */
  datatype NewsPatch = NewsPatch(
    id: Option<string>, title: Option<string>, excerpt: Option<string>, content: Option<string>,
    image: Option<string>, publishedAt: Option<string>, featured: Option<bool>, author: Option<string>)

  /** `{ ...n, ...p, id }`. */
  function MergeNews(n: NewsItem, p: NewsPatch, id: string): (r: NewsItem)
    ensures r.id == id
    ensures p == NewsPatch(None, None, None, None, None, None, None, None) ==> r == n.(id := id)
    ensures Overlays(p.title, n.title, r.title)
    ensures Overlays(p.excerpt, n.excerpt, r.excerpt)
    ensures Overlays(p.content, n.content, r.content)
    ensures Overlays(p.image, n.image, r.image)
    ensures Overlays(p.publishedAt, n.publishedAt, r.publishedAt)
    ensures Overlays(p.featured, n.featured, r.featured)
    ensures Overlays(p.author, n.author, r.author)
  {
    NewsItem(id, p.title.GetOr(n.title), p.excerpt.GetOr(n.excerpt), p.content.GetOr(n.content),
             p.image.GetOr(n.image), p.publishedAt.GetOr(n.publishedAt), p.featured.GetOr(n.featured),
             p.author.GetOr(n.author))
  }

  // ---------------------------------------------------------------------
  // Gallery

  datatype GalleryItem = GalleryItem(
    id: string, title: string, description: string, url: string, thumbnail: string,
    published: bool, uploadedAt: string, uploadedBy: string, updatedAt: Option<string>)

  function GalleryId(g: GalleryItem): string { g.id }

  /** A file the upload middleware stored: its client-side name and the
      name it was given on disk. */
  datatype UploadedFile = UploadedFile(originalName: string, filename: string)

  /** The form fields of `POST /api/gallery`; `published` arrives as text. */
  datatype GalleryForm = GalleryForm(title: string, description: string, published: string)

  function NewGalleryItem(id: string, f: UploadedFile, form: GalleryForm, now: string, userId: string): (g: GalleryItem)
    ensures g.id == id && g.uploadedBy == userId && g.uploadedAt == now
    ensures g.published <==> form.published == "true"
    ensures g.title == OrStr(form.title, f.originalName)
    ensures g.url == g.thumbnail == "/uploads/documents/" + f.filename
    ensures g.description == form.description && g.updatedAt == None
  {
    GalleryItem(id, OrStr(form.title, f.originalName), form.description,
                "/uploads/documents/" + f.filename, "/uploads/documents/" + f.filename,
                form.published == "true", now, userId, None)
  }

  /** The body of `PUT /api/gallery/:id`: the three fields it overwrites. */
  datatype GalleryEdit = GalleryEdit(title: string, description: string, published: bool)

  /** `{ ...g, title, description, published, updatedAt: now }`. */
  function EditGalleryItem(g: GalleryItem, e: GalleryEdit, now: string): (r: GalleryItem)
    ensures r.id == g.id && r.url == g.url && r.thumbnail == g.thumbnail
    ensures r.uploadedAt == g.uploadedAt && r.uploadedBy == g.uploadedBy
    ensures r.updatedAt == Some(now)
    ensures r.title == e.title && r.description == e.description && r.published == e.published
    ensures r.(title := g.title, description := g.description, published := g.published, updatedAt := g.updatedAt) == g
  {
    g.(title := e.title, description := e.description, published := e.published, updatedAt := Some(now))
  }

  // ---------------------------------------------------------------------
  // Research requests

  datatype ResearchRequest = ResearchRequest(
    id: string, researcherName: string, email: string, phone: string, affiliation: string,
    researchTopic: string, specificRequirements: string, timeframe: string, status: string,
    submittedAt: string, updatedAt: string, messages: seq<string>)

  function RequestId(r: ResearchRequest): string { r.id }

  /** The body of `POST /api/research-requests`. */
  datatype RequestBody = RequestBody(
    researcherName: string, email: string, phone: string, affiliation: string,
    researchTopic: string, specificRequirements: string, timeframe: string)

  function NewRequest(id: string, b: RequestBody, now: string): (r: ResearchRequest)
    ensures r.id == id && r.status == "pending" && r.messages == []
    ensures r.submittedAt == now && r.updatedAt == now
    ensures r.researcherName == b.researcherName && r.email == b.email && r.phone == b.phone
    ensures r.affiliation == b.affiliation && r.researchTopic == b.researchTopic
    ensures r.specificRequirements == b.specificRequirements && r.timeframe == b.timeframe
  {
    ResearchRequest(id, b.researcherName, b.email, b.phone, b.affiliation, b.researchTopic,
                    b.specificRequirements, b.timeframe, "pending", now, now, [])
  }

  // ---------------------------------------------------------------------
  // Contact messages

  datatype ContactMessage = ContactMessage(
    id: string, name: string, email: string, phone: string, subject: string, message: string,
    createdAt: string, read: bool)

  function MessageId(m: ContactMessage): string { m.id }

  /** The body of `POST /api/contact`, spread into the stored message. It may
      carry an `id` of its own. */
  datatype ContactBody = ContactBody(
    id: Option<string>, name: string, email: string, phone: string, subject: string, message: string)

  /** `{ id, ...body, createdAt: now, read: false }`: the body is spread
      after the generated id, so an `id` in the body replaces it. */
  function NewMessage(id: string, b: ContactBody, now: string): (m: ContactMessage)
    ensures m.id == (if b.id.Some? then b.id.value else id)
    ensures !m.read && m.createdAt == now
    ensures m.name == b.name && m.email == b.email && m.phone == b.phone
    ensures m.subject == b.subject && m.message == b.message
  {
    ContactMessage(b.id.GetOr(id), b.name, b.email, b.phone, b.subject, b.message, now, false)
  }

  // ---------------------------------------------------------------------
  // Notifications

  datatype Notification = Notification(
    id: string, kind: string, title: string, message: string, link: string, linkText: string,
    published: bool, createdAt: string, createdBy: string, updatedAt: Option<string>)

  function NotificationId(n: Notification): string { n.id }

  /** The body of `POST` and `PUT /api/notifications`; `published` may be
      absent, and the two handlers read an absent value differently. */
  datatype NotificationBody = NotificationBody(
    kind: string, title: string, message: string, link: string, linkText: string, published: Option<bool>)

  /** The created notification is published unless the body says `false`. */
  function NewNotification(id: string, b: NotificationBody, now: string, userId: string): (n: Notification)
    ensures n.id == id && n.createdAt == now && n.createdBy == userId
    ensures n.published <==> b.published != Some(false)
    ensures n.kind == OrStr(b.kind, "info") && n.linkText == OrStr(b.linkText, "View")
    ensures n.kind != "" && n.linkText != ""
    ensures n.title == b.title && n.message == b.message && n.link == b.link && n.updatedAt == None
  {
    Notification(id, OrStr(b.kind, "info"), b.title, b.message, b.link, OrStr(b.linkText, "View"),
                 b.published != Some(false), now, userId, None)
  }

  /** The record the first `PUT /api/notifications/:id` handler writes: built
      from the body, except the id, creation time and creator, which come
      from the stored record. An absent `published` is stored as not
      published. */
  function ReplaceNotification(n: Notification, b: NotificationBody, now: string): (r: Notification)
    ensures r.id == n.id && r.createdAt == n.createdAt && r.createdBy == n.createdBy
    ensures r.kind == b.kind && r.title == b.title && r.message == b.message
    ensures r.published <==> b.published == Some(true)
    ensures r.updatedAt == Some(now)
    ensures r.link == b.link && r.linkText == OrStr(b.linkText, "View") && r.linkText != ""
  {
    Notification(n.id, b.kind, b.title, b.message, b.link, OrStr(b.linkText, "View"),
                 b.published == Some(true), n.createdAt, n.createdBy, Some(now))
  }

  // ---------------------------------------------------------------------
  // Newsletter subscribers, analytics and settings

  datatype Subscriber = Subscriber(id: string, email: string, subscribedAt: string, active: bool)

  function SubscriberEmail(s: Subscriber): string { s.email }

  datatype SearchEntry = SearchEntry(query: string, timestamp: string)

  datatype Analytics = Analytics(totalViews: nat, totalDownloads: nat, searchQueries: seq<SearchEntry>)

  datatype Settings = Settings(
    archiveName: string, tagline: string, address: string, phone: string, email: string,
    hours: string, featuredCollections: seq<string>)

  /** The body of `PUT /api/settings`. */
  datatype SettingsPatch = SettingsPatch(
    archiveName: Option<string>, tagline: Option<string>, address: Option<string>, phone: Option<string>,
    email: Option<string>, hours: Option<string>, featuredCollections: Option<seq<string>>)

  /** `{ ...s, ...p }`. */
  function MergeSettings(s: Settings, p: SettingsPatch): (r: Settings)
    ensures p == SettingsPatch(None, None, None, None, None, None, None) ==> r == s
    ensures Overlays(p.archiveName, s.archiveName, r.archiveName)
    ensures Overlays(p.tagline, s.tagline, r.tagline)
    ensures Overlays(p.address, s.address, r.address)
    ensures Overlays(p.phone, s.phone, r.phone)
    ensures Overlays(p.email, s.email, r.email)
    ensures Overlays(p.hours, s.hours, r.hours)
    ensures Overlays(p.featuredCollections, s.featuredCollections, r.featuredCollections)
  {
    Settings(p.archiveName.GetOr(s.archiveName), p.tagline.GetOr(s.tagline), p.address.GetOr(s.address),
             p.phone.GetOr(s.phone), p.email.GetOr(s.email), p.hours.GetOr(s.hours),
             p.featuredCollections.GetOr(s.featuredCollections))
  }

  // ---------------------------------------------------------------------
  // The whole store as one value: what `readDatabase` returns.

  datatype Db = Db(
    documents: seq<Document>,
    collections: seq<Collection>,
    news: seq<NewsItem>,
    gallery: seq<GalleryItem>,
    researchRequests: seq<ResearchRequest>,
    contactMessages: seq<ContactMessage>,
    notifications: seq<Notification>,
    subscribers: seq<Subscriber>,
    analytics: Analytics,
    settings: Settings)
}
