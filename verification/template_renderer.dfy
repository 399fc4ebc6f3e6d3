/** `TemplateRenderer`: finding an invitation by slug within a set of statuses,
    resolving its view, the (inert) template validation, and the pure functions
    from a loaded invitation to the page payload: the nested DTO and the flat
    field map. */
module TemplateRenderer {
  import opened Wrappers
  import opened Php
  import opened Tables
  import opened Schema
  import opened Ordering
  import opened AssetUrl
  import opened InvitationModel

  // ---------------------------------------------------------------------------
  // Status scoping

  /** The three public entry points of the renderer. */
  datatype Entry = RenderBySlug | RenderPublicBySlug | RenderPreviewBySlug

  /** The statuses an entry point accepts. */
  function Statuses(e: Entry): (r: set<Status>)
    ensures Published in r && Archived !in r
    ensures Draft in r <==> e != RenderPublicBySlug
  {
    match e
    case RenderPublicBySlug => {Published}
    case _ => {Draft, Published}
  }

  /** Whether an entry point reads the payload cache unless told otherwise. */
  function CachesByDefault(e: Entry): (r: bool)
    ensures r <==> e != RenderPreviewBySlug
  {
    !e.RenderPreviewBySlug?
  }

  function SlugStatusMatch(slug: string, statuses: set<Status>): Invitation -> bool {
    (i: Invitation) => i.slug == slug && i.status in statuses
  }

  /** `where('slug')->whereIn('status')->first()`, failing with not-found. */
  function LoadBySlugAndStatuses(s: Store, slug: string, statuses: set<Status>): (r: Result<nat>)
    requires s.invitations.Valid()
    ensures r.Ok? ==> r.value in s.invitations.rows
                      && s.invitations.rows[r.value].slug == slug
                      && s.invitations.rows[r.value].status in statuses
    ensures r.Err? <==> forall id :: id in s.invitations.rows ==>
                          !(s.invitations.rows[id].slug == slug && s.invitations.rows[id].status in statuses)
    ensures r.Err? ==> r.error == NotFound
  {
    match First(s.invitations, SlugStatusMatch(slug, statuses))
    case Some(id) => Ok(id)
    case None => Err(NotFound)
  }

  /** An archived invitation is never rendered, through any entry point. */
  lemma ArchivedNeverFound(s: Store, slug: string, e: Entry, id: nat)
    requires s.invitations.Valid() && id in s.invitations.rows
    requires s.invitations.rows[id].status == Archived
    ensures LoadBySlugAndStatuses(s, slug, Statuses(e)) != Ok(id)
  {
  }

  /** The public page renders only published invitations; a draft is visible
      through the preview and `renderBySlug` only. */
  lemma PublicOnlyPublished(s: Store, slug: string)
    requires s.invitations.Valid()
    ensures var r := LoadBySlugAndStatuses(s, slug, Statuses(RenderPublicBySlug));
            r.Ok? ==> s.invitations.rows[r.value].status == Published
  {
  }

  /** Slugs are unique in the invitations table. */
  predicate UniqueSlugs(s: Store) {
    forall a, b ::
      (a in s.invitations.rows && b in s.invitations.rows
       && s.invitations.rows[a].slug == s.invitations.rows[b].slug) ==> a == b
  }

  /** With unique slugs, whatever the public page finds the preview finds too,
      and a preview miss is a public miss. */
  lemma PublicFoundPreviewFindsSame(s: Store, slug: string)
    requires s.invitations.Valid() && UniqueSlugs(s)
    ensures var pub := LoadBySlugAndStatuses(s, slug, Statuses(RenderPublicBySlug));
            var pre := LoadBySlugAndStatuses(s, slug, Statuses(RenderPreviewBySlug));
            (pub.Ok? ==> pre == pub) && (pre.Err? ==> pub.Err?)
  {
    var pub := LoadBySlugAndStatuses(s, slug, Statuses(RenderPublicBySlug));
    var pre := LoadBySlugAndStatuses(s, slug, Statuses(RenderPreviewBySlug));
    if pub.Ok? {
      assert s.invitations.rows[pub.value].status in Statuses(RenderPreviewBySlug);
      assert pre.Ok?;
      assert s.invitations.rows[pre.value].slug == s.invitations.rows[pub.value].slug;
    }
  }

  // ---------------------------------------------------------------------------
  // View resolution

  const VIEW_PREFIX: string := "templates."

  /** `$invitation->template?->code`. */
  function TemplateCode(agg: Loaded): Option<string> {
    if agg.template.Some? then agg.template.value.code else None
  }

  /** `resolveView`: the view name for a template code, or a 404 when the code
      is missing or falsy. */
  function ResolveView(code: Option<string>): (r: Result<string>)
    ensures r.Ok? <==> code.Some? && TruthyString(code.value)
    ensures r.Ok? ==> |r.value| > |VIEW_PREFIX| && r.value[..|VIEW_PREFIX|] == VIEW_PREFIX
    ensures r.Err? ==> r.error == NotFound
  {
    if code.Some? && TruthyString(code.value) then Ok(VIEW_PREFIX + code.value) else Err(NotFound)
  }

  /** The template code a view name was resolved from. */
  function CodeOfView(view: string): (code: string)
    requires |view| >= |VIEW_PREFIX|
    ensures |code| == |view| - |VIEW_PREFIX|
  {
    view[|VIEW_PREFIX|..]
  }

  /** A resolved view name gives back its template code, so two templates
      never share a view. */
  lemma ResolveViewRoundTrip(code: Option<string>)
    requires ResolveView(code).Ok?
    ensures CodeOfView(ResolveView(code).value) == code.value
  {
    assert (VIEW_PREFIX + code.value)[|VIEW_PREFIX|..] == code.value;
  }

  // ---------------------------------------------------------------------------
  // Template validation

  const TEMPLATE_ONE: string := "template-1"

  /** The `requires` lists of `$templateRules`. */
  const TEMPLATE_RULES: map<string, seq<string>> := map[
    TEMPLATE_ONE := ["couple", "people", "eventSection", "events", "galleryItems",
                     "map", "rsvp", "giftSection", "giftAccounts", "music"]]

  /** The relations that are collections: `data_get` finds them loaded, never null. */
  const TO_MANY: set<string> := {"people", "events", "galleryItems", "giftAccounts"}

  /** `is_null(data_get($invitation, $rel))` for a relation name. */
  predicate RelationIsNull(agg: Loaded, rel: string) {
    if rel == "couple" then agg.couple.None?
    else if rel == "eventSection" then agg.eventSection.None?
    else if rel == "map" then agg.mapSection.None?
    else if rel == "rsvp" then agg.rsvp.None?
    else if rel == "giftSection" then agg.giftSection.None?
    else if rel == "music" then agg.music.None?
    else rel !in TO_MANY
  }

  /** The required relations that are null, in rule order. */
  function NullRelations(agg: Loaded, rels: seq<string>): (r: seq<string>)
    ensures forall x :: x in r <==> x in rels && RelationIsNull(agg, x)
  {
    if |rels| == 0 then []
    else (if RelationIsNull(agg, rels[0]) then [rels[0]] else []) + NullRelations(agg, rels[1..])
  }

  lemma {:induction false} NoNullRelations(agg: Loaded, rels: seq<string>)
    requires forall i :: 0 <= i < |rels| ==> !RelationIsNull(agg, rels[i])
    ensures NullRelations(agg, rels) == []
  {
    if |rels| > 0 {
      NoNullRelations(agg, rels[1..]);
    }
  }

  /** The `$missing` list `validateForTemplate` builds. Nothing reads it, so
      validation neither aborts nor writes. */
  function MissingRelations(agg: Loaded): (r: seq<string>)
    ensures (TemplateCode(agg).None? || !TruthyString(TemplateCode(agg).value)
             || TemplateCode(agg).value !in TEMPLATE_RULES) ==> r == []
    ensures forall x :: x in r ==> TemplateCode(agg).Some? && TemplateCode(agg).value in TEMPLATE_RULES
                                   && x in TEMPLATE_RULES[TemplateCode(agg).value]
    ensures forall x :: x in r ==> x !in TO_MANY
    ensures TemplateCode(agg) == Some(TEMPLATE_ONE) ==>
              forall x :: x in TEMPLATE_RULES[TEMPLATE_ONE] ==> (x in r <==> RelationIsNull(agg, x))
  {
    var code := TemplateCode(agg);
    if code.None? || !TruthyString(code.value) || code.value !in TEMPLATE_RULES then []
    else NullRelations(agg, TEMPLATE_RULES[code.value])
  }

  /** The seven 1:1 children are loaded. */
  predicate ChildrenLoaded(agg: Loaded) {
    agg.couple.Some? && agg.eventSection.Some? && agg.mapSection.Some? && agg.rsvp.Some?
    && agg.giftSection.Some? && agg.wishSection.Some? && agg.music.Some?
  }

  /** With its 1:1 children loaded, an invitation misses nothing its template requires. */
  lemma NothingMissingWhenLoaded(agg: Loaded)
    requires ChildrenLoaded(agg)
    ensures MissingRelations(agg) == []
  {
    var code := TemplateCode(agg);
    if code.Some? && TruthyString(code.value) && code.value in TEMPLATE_RULES {
      NoNullRelations(agg, TEMPLATE_RULES[code.value]);
    }
  }

  /** An invitation loaded after `ensureDefaults` has all its 1:1 children. */
  lemma DefaultsAreLoaded(s: Store, id: nat)
    requires s.Valid() && id in s.invitations.rows
    ensures ChildrenLoaded(Load(EnsureDefaults(s, id), id))
  {
    var r := EnsureDefaults(s, id);
    assert HasDefaults(r, id);
    LoadLooksUp(r, id);
  }

  // ---------------------------------------------------------------------------
  // The DTO

  datatype Meta = Meta(
    id: nat, slug: string, title: Option<string>, timezone: string, locale: string,
    status: string, template: Option<string>)

  datatype CoupleView = CoupleView(
    tagline: Option<string>, name1: Option<string>, name2: Option<string>,
    dateDisplay: Option<string>, image: Option<string>)

  datatype PersonView = PersonView(
    name: Option<string>, title: Option<string>, father: Option<string>,
    mother: Option<string>, instagram: Option<string>, photo: Option<string>)

  datatype EventSectionView = EventSectionView(title: Option<string>, defaultLocationUrl: Option<string>)

  datatype EventView = EventView(
    title: Option<string>, dateDisplay: Option<string>, timeDisplay: Option<string>,
    date: Option<string>, startTime: Option<string>, endTime: Option<string>,
    locationText: Option<string>, locationUrl: Option<string>, sortOrder: int)

  datatype GalleryView = GalleryView(sortOrder: int, image: Option<string>)

  datatype MapView = MapView(
    title: Option<string>, address: Option<string>, embedSrc: Option<string>, locationUrl: Option<string>)

  datatype RsvpView = RsvpView(
    title: Option<string>, subtitle: Option<string>, message: Option<string>, hosts: Option<string>)

  datatype GiftView = GiftView(
    bank: Option<string>, number: Option<string>, holder: Option<string>, qr: Option<string>, sortOrder: int)

  datatype GiftsView = GiftsView(title: Option<string>, subtitle: Option<string>, accounts: seq<GiftView>)

  datatype WishView = WishView(
    name: Option<string>, address: Option<string>, message: Option<string>, sortOrder: int)

  datatype GuestbookView = GuestbookView(
    name: string, address: Option<string>, message: string, attendance: string, createdAt: Option<string>)

  datatype WishesView = WishesView(title: Option<string>, samples: seq<WishView>, guestbook: seq<GuestbookView>)

  datatype MusicView = MusicView(url: Option<string>, autoplay: bool, loop: bool)

  datatype Dto = Dto(
    meta: Meta,
    couple: CoupleView,
    bride: PersonView,
    groom: PersonView,
    eventSection: EventSectionView,
    events: seq<EventView>,
    gallery: seq<GalleryView>,
    mapView: MapView,
    rsvp: RsvpView,
    gifts: GiftsView,
    wishes: WishesView,
    music: MusicView)

  /** How many guestbook entries the page shows. */
  const GUESTBOOK_LIMIT: nat := 20

  function StatusName(st: Status): string {
    match st
    case Draft => "draft"
    case Published => "published"
    case Archived => "archived"
  }

  /** `$model?->asset?->publicUrl()` for a nullable asset foreign key. */
  function AssetUrlOf(assets: map<nat, Asset>, ref: Option<nat>, diskUrl: (string, string) -> string): Option<string> {
    if ref.Some? && ref.value in assets then PublicUrl(assets[ref.value], diskUrl) else None
  }

  const NO_PERSON: PersonView := PersonView(None, None, None, None, None, None)

  function PersonViewOf(assets: map<nat, Asset>, p: Option<Person>, diskUrl: (string, string) -> string): (r: PersonView)
    ensures p.None? ==> r == NO_PERSON
    ensures p.Some? ==> r.name == p.value.name && r.instagram == p.value.instagram
  {
    match p
    case None => NO_PERSON
    case Some(q) =>
      PersonView(q.name, q.title, q.fatherName, q.motherName, q.instagram, AssetUrlOf(assets, q.photoAssetId, diskUrl))
  }

  function EventViewOf(e: Event): EventView {
    EventView(e.title, e.dateDisplay, e.timeDisplay, e.date, e.startTime, e.endTime,
              e.locationText, e.locationUrl, e.sortOrder)
  }

  function GalleryViewOf(assets: map<nat, Asset>, diskUrl: (string, string) -> string): GalleryItem -> GalleryView {
    (g: GalleryItem) => GalleryView(g.sortOrder, AssetUrlOf(assets, Some(g.imageAssetId), diskUrl))
  }

  function GiftViewOf(assets: map<nat, Asset>, diskUrl: (string, string) -> string): GiftAccount -> GiftView {
    (a: GiftAccount) => GiftView(a.bankName, a.accountNumber, a.accountHolder,
                                 AssetUrlOf(assets, a.qrAssetId, diskUrl), a.sortOrder)
  }

  function WishViewOf(w: WishSample): WishView {
    WishView(w.name, w.address, w.message, w.sortOrder)
  }

  function GuestbookViewOf(g: GuestbookEntry): GuestbookView {
    GuestbookView(g.guestName, g.guestAddress, g.message, g.attendance, g.createdAt)
  }

  function EventViewOrder(v: EventView): int { v.sortOrder }
  function GalleryViewOrder(v: GalleryView): int { v.sortOrder }
  function GiftViewOrder(v: GiftView): int { v.sortOrder }
  function WishViewOrder(v: WishView): int { v.sortOrder }

  /** `->sortBy('sort_order')->map($view)->values()`: the views of all the
      elements, ordered on the key they carry; when the elements arrive already
      ordered (as the relations load them) the order is kept as loaded. */
  function SortedViews<T(!new), V>(xs: seq<T>, key: T -> int, view: T -> V, vkey: V -> int): (r: seq<V>)
    requires KeepsKey(view, key, vkey)
    ensures SortedBy(r, vkey)
    ensures multiset(r) == multiset(MapSeq(xs, view))
    ensures SortedBy(xs, key) ==> r == MapSeq(xs, view)
  {
    MapSortBy(xs, key, view, vkey);
    var r := MapSeq(SortBy(xs, key), view);
    if SortedBy(xs, key) then SortBySorted(xs, key); r else r
  }

  /** The event views, sorted by `sort_order`. */
  function EventViews(events: seq<Event>): (r: seq<EventView>)
    ensures SortedBy(r, EventViewOrder)
    ensures multiset(r) == multiset(MapSeq(events, EventViewOf))
    ensures SortedBy(events, EventOrder) ==> r == MapSeq(events, EventViewOf)
  {
    assert KeepsKey(EventViewOf, EventOrder, EventViewOrder);
    SortedViews(events, EventOrder, EventViewOf, EventViewOrder)
  }

  function GalleryViews(agg: Loaded, diskUrl: (string, string) -> string): (r: seq<GalleryView>)
    ensures SortedBy(r, GalleryViewOrder)
    ensures multiset(r) == multiset(MapSeq(agg.gallery, GalleryViewOf(agg.assets, diskUrl)))
    ensures SortedBy(agg.gallery, GalleryOrder) ==> r == MapSeq(agg.gallery, GalleryViewOf(agg.assets, diskUrl))
  {
    assert KeepsKey(GalleryViewOf(agg.assets, diskUrl), GalleryOrder, GalleryViewOrder);
    SortedViews(agg.gallery, GalleryOrder, GalleryViewOf(agg.assets, diskUrl), GalleryViewOrder)
  }

  function GiftViews(agg: Loaded, diskUrl: (string, string) -> string): (r: seq<GiftView>)
    ensures SortedBy(r, GiftViewOrder)
    ensures multiset(r) == multiset(MapSeq(agg.giftAccounts, GiftViewOf(agg.assets, diskUrl)))
    ensures SortedBy(agg.giftAccounts, GiftOrder) ==> r == MapSeq(agg.giftAccounts, GiftViewOf(agg.assets, diskUrl))
  {
    assert KeepsKey(GiftViewOf(agg.assets, diskUrl), GiftOrder, GiftViewOrder);
    SortedViews(agg.giftAccounts, GiftOrder, GiftViewOf(agg.assets, diskUrl), GiftViewOrder)
  }

  function WishViews(samples: seq<WishSample>): (r: seq<WishView>)
    ensures SortedBy(r, WishViewOrder)
    ensures multiset(r) == multiset(MapSeq(samples, WishViewOf))
    ensures SortedBy(samples, WishOrder) ==> r == MapSeq(samples, WishViewOf)
  {
    assert KeepsKey(WishViewOf, WishOrder, WishViewOrder);
    SortedViews(samples, WishOrder, WishViewOf, WishViewOrder)
  }

  /** `->take(20)->map(...)`: at most twenty entries, in their loaded order. */
  function GuestbookViews(entries: seq<GuestbookEntry>): (r: seq<GuestbookView>)
    ensures |r| <= GUESTBOOK_LIMIT && |r| <= |entries|
    ensures |entries| <= GUESTBOOK_LIMIT ==> |r| == |entries|
    ensures |entries| > GUESTBOOK_LIMIT ==> |r| == GUESTBOOK_LIMIT
    ensures forall i :: 0 <= i < |r| ==> r[i] == GuestbookViewOf(entries[i])
  {
    MapSeq(Take(entries, GUESTBOOK_LIMIT), GuestbookViewOf)
  }

  /** The music block: a missing row reads as autoplaying, looping music with no URL. */
  function MusicViewOf(agg: Loaded, diskUrl: (string, string) -> string): (r: MusicView)
    ensures agg.music.None? ==> r == MusicView(None, true, true)
    ensures agg.music.Some? ==> r.autoplay == agg.music.value.autoplay && r.loop == agg.music.value.loopAudio
  {
    match agg.music
    case None => MusicView(None, true, true)
    case Some(m) => MusicView(AssetUrlOf(agg.assets, m.audioAssetId, diskUrl), m.autoplay, m.loopAudio)
  }

  function CoupleViewOf(agg: Loaded, diskUrl: (string, string) -> string): CoupleView {
    match agg.couple
    case None => CoupleView(None, None, None, None, None)
    case Some(c) => CoupleView(c.tagline, c.name1, c.name2, c.dateDisplay, AssetUrlOf(agg.assets, c.imageAssetId, diskUrl))
  }

  function EventSectionViewOf(agg: Loaded): EventSectionView {
    match agg.eventSection
    case None => EventSectionView(None, None)
    case Some(e) => EventSectionView(e.title, e.defaultLocationUrl)
  }

  function MapViewOf(agg: Loaded): MapView {
    match agg.mapSection
    case None => MapView(None, None, None, None)
    case Some(m) => MapView(m.title, m.address, m.embedSrc, m.locationUrl)
  }

  function RsvpViewOf(agg: Loaded): RsvpView {
    match agg.rsvp
    case None => RsvpView(None, None, None, None)
    case Some(r) => RsvpView(r.title, r.subtitle, r.message, r.hosts)
  }

  /** `$bride ??= $invitation->people->firstWhere('role', ...)`. */
  function OrFirst(given: Option<Person>, agg: Loaded, role: Role): Option<Person> {
    if given.Some? then given else FirstWithRole(agg.people, role)
  }

  /** `buildDto`. */
  function BuildDto(agg: Loaded, bride: Option<Person>, groom: Option<Person>, diskUrl: (string, string) -> string): (r: Dto)
    ensures r.meta.id == agg.id && r.meta.slug == agg.invitation.slug && r.meta.template == TemplateCode(agg)
    ensures SortedBy(r.events, EventViewOrder) && multiset(r.events) == multiset(MapSeq(agg.events, EventViewOf))
    ensures SortedBy(r.gallery, GalleryViewOrder)
            && multiset(r.gallery) == multiset(MapSeq(agg.gallery, GalleryViewOf(agg.assets, diskUrl)))
    ensures SortedBy(r.gifts.accounts, GiftViewOrder)
            && multiset(r.gifts.accounts) == multiset(MapSeq(agg.giftAccounts, GiftViewOf(agg.assets, diskUrl)))
    ensures SortedBy(r.wishes.samples, WishViewOrder)
            && multiset(r.wishes.samples) == multiset(MapSeq(agg.wishSamples, WishViewOf))
    ensures |r.wishes.guestbook| <= GUESTBOOK_LIMIT && |r.wishes.guestbook| <= |agg.guestbook|
            && forall i :: 0 <= i < |r.wishes.guestbook| ==> r.wishes.guestbook[i] == GuestbookViewOf(agg.guestbook[i])
    ensures agg.music.None? ==> r.music.autoplay && r.music.loop && r.music.url.None?
    ensures agg.music.Some? ==> r.music.autoplay == agg.music.value.autoplay && r.music.loop == agg.music.value.loopAudio
    ensures bride.None? && FirstWithRole(agg.people, Bride).None? ==> r.bride == NO_PERSON
    ensures groom.None? && FirstWithRole(agg.people, Groom).None? ==> r.groom == NO_PERSON
  {
    var b := OrFirst(bride, agg, Bride);
    var g := OrFirst(groom, agg, Groom);
    var meta := Meta(agg.id, agg.invitation.slug, agg.invitation.title, agg.invitation.timezone,
                     agg.invitation.locale, StatusName(agg.invitation.status), TemplateCode(agg));
    var events := EventViews(agg.events);
    var gallery := GalleryViews(agg, diskUrl);
    var accounts := GiftViews(agg, diskUrl);
    var samples := WishViews(agg.wishSamples);
    var guestbook := GuestbookViews(agg.guestbook);
    var music := MusicViewOf(agg, diskUrl);
    var gifts := GiftsView(Col(agg.giftSection, (x: GiftSection) => x.title),
                           Col(agg.giftSection, (x: GiftSection) => x.subtitle), accounts);
    var wishes := WishesView(Col(agg.wishSection, (x: WishSection) => x.title), samples, guestbook);
    Dto(meta, CoupleViewOf(agg, diskUrl), PersonViewOf(agg.assets, b, diskUrl), PersonViewOf(agg.assets, g, diskUrl),
        EventSectionViewOf(agg), events, gallery, MapViewOf(agg), RsvpViewOf(agg), gifts, wishes, music)
  }

  /** The re-sort in `buildDto` keeps the order the relations were loaded in,
      and the guestbook shows the newest twenty entries, newest first. */
  lemma DtoKeepsLoadedOrder(s: Store, id: nat, diskUrl: (string, string) -> string)
    requires s.Valid() && id in s.invitations.rows
    ensures var agg := Load(s, id);
            var dto := BuildDto(agg, None, None, diskUrl);
            && dto.events == MapSeq(agg.events, EventViewOf)
            && dto.gallery == MapSeq(agg.gallery, GalleryViewOf(agg.assets, diskUrl))
            && dto.gifts.accounts == MapSeq(agg.giftAccounts, GiftViewOf(agg.assets, diskUrl))
            && dto.wishes.samples == MapSeq(agg.wishSamples, WishViewOf)
    ensures var gb := Owned(s.guestbook, GuestbookOwner, id);
            var dto := BuildDto(Load(s, id), None, None, diskUrl);
            forall i :: 0 <= i < |dto.wishes.guestbook| ==> dto.wishes.guestbook[i] == GuestbookViewOf(gb[|gb| - 1 - i])
  {
  }

  // ---------------------------------------------------------------------------
  // The field map

  /** The flat field map, one field per key: `couple_tagline`, `couple_name_1`,
      ..., `music_url`. */
  datatype Fields = Fields(
    coupleTagline: Option<string>, coupleName1: Option<string>, coupleName2: Option<string>,
    weddingDate: Option<string>, coupleImage: Option<string>,
    brideName: Option<string>, brideTitle: Option<string>, brideFather: Option<string>,
    brideMother: Option<string>, brideIg: Option<string>, bridePhoto: Option<string>,
    groomName: Option<string>, groomTitle: Option<string>, groomFather: Option<string>,
    groomMother: Option<string>, groomIg: Option<string>, groomPhoto: Option<string>,
    eventSectionTitle: Option<string>, eventLocationUrl: Option<string>,
    mapTitle: Option<string>, mapAddress: Option<string>, mapEmbedSrc: Option<string>, mapLocationUrl: Option<string>,
    rsvpTitle: Option<string>, rsvpSubtitle: Option<string>, rsvpMessage: Option<string>, rsvpHosts: Option<string>,
    giftTitle: Option<string>, giftSubtitle: Option<string>,
    wishTitle: Option<string>,
    musicUrl: Option<string>)

  /** A text column of a nullable row: `$row?->column`. */
  function Col<T>(row: Option<T>, column: T -> Option<string>): Option<string> {
    if row.Some? then column(row.value) else None
  }

  /** `buildFieldMap`, read straight off the loaded rows: every value it shares
      with `buildDto` is the DTO's value. */
  function BuildFieldMap(agg: Loaded, bride: Option<Person>, groom: Option<Person>, diskUrl: (string, string) -> string)
    : (r: Fields)
    ensures var d := BuildDto(agg, bride, groom, diskUrl);
            && r.coupleTagline == d.couple.tagline && r.coupleName1 == d.couple.name1
            && r.coupleName2 == d.couple.name2 && r.weddingDate == d.couple.dateDisplay
            && r.coupleImage == d.couple.image
            && r.brideName == d.bride.name && r.brideTitle == d.bride.title
            && r.brideFather == d.bride.father && r.brideMother == d.bride.mother
            && r.brideIg == d.bride.instagram && r.bridePhoto == d.bride.photo
            && r.groomName == d.groom.name && r.groomTitle == d.groom.title
            && r.groomFather == d.groom.father && r.groomMother == d.groom.mother
            && r.groomIg == d.groom.instagram && r.groomPhoto == d.groom.photo
            && r.eventSectionTitle == d.eventSection.title
            && r.eventLocationUrl == d.eventSection.defaultLocationUrl
            && r.mapTitle == d.mapView.title && r.mapAddress == d.mapView.address
            && r.mapEmbedSrc == d.mapView.embedSrc && r.mapLocationUrl == d.mapView.locationUrl
            && r.rsvpTitle == d.rsvp.title && r.rsvpSubtitle == d.rsvp.subtitle
            && r.rsvpMessage == d.rsvp.message && r.rsvpHosts == d.rsvp.hosts
            && r.giftTitle == d.gifts.title && r.giftSubtitle == d.gifts.subtitle
            && r.wishTitle == d.wishes.title && r.musicUrl == d.music.url
  {
    var b := OrFirst(bride, agg, Bride);
    var g := OrFirst(groom, agg, Groom);
    var c := agg.couple;
    Fields(
      Col(c, (x: Couple) => x.tagline),
      Col(c, (x: Couple) => x.name1),
      Col(c, (x: Couple) => x.name2),
      Col(c, (x: Couple) => x.dateDisplay),
      if c.Some? then AssetUrlOf(agg.assets, c.value.imageAssetId, diskUrl) else None,
      Col(b, (p: Person) => p.name),
      Col(b, (p: Person) => p.title),
      Col(b, (p: Person) => p.fatherName),
      Col(b, (p: Person) => p.motherName),
      Col(b, (p: Person) => p.instagram),
      if b.Some? then AssetUrlOf(agg.assets, b.value.photoAssetId, diskUrl) else None,
      Col(g, (p: Person) => p.name),
      Col(g, (p: Person) => p.title),
      Col(g, (p: Person) => p.fatherName),
      Col(g, (p: Person) => p.motherName),
      Col(g, (p: Person) => p.instagram),
      if g.Some? then AssetUrlOf(agg.assets, g.value.photoAssetId, diskUrl) else None,
      Col(agg.eventSection, (e: EventSection) => e.title),
      Col(agg.eventSection, (e: EventSection) => e.defaultLocationUrl),
      Col(agg.mapSection, (m: MapSection) => m.title),
      Col(agg.mapSection, (m: MapSection) => m.address),
      Col(agg.mapSection, (m: MapSection) => m.embedSrc),
      Col(agg.mapSection, (m: MapSection) => m.locationUrl),
      Col(agg.rsvp, (x: RsvpSection) => x.title),
      Col(agg.rsvp, (x: RsvpSection) => x.subtitle),
      Col(agg.rsvp, (x: RsvpSection) => x.message),
      Col(agg.rsvp, (x: RsvpSection) => x.hosts),
      Col(agg.giftSection, (x: GiftSection) => x.title),
      Col(agg.giftSection, (x: GiftSection) => x.subtitle),
      Col(agg.wishSection, (x: WishSection) => x.title),
      if agg.music.Some? then AssetUrlOf(agg.assets, agg.music.value.audioAssetId, diskUrl) else None)
  }
}
