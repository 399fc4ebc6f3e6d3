/** The rows of an invitation aggregate and the store that holds them. Enum
    domains and column defaults follow the initial migration. */
module Schema {
  import opened Wrappers
  import opened Tables

  datatype Status = Draft | Published | Archived

  datatype Kind = Image | Audio | Video | OtherKind

  datatype Category =
    | SectionImage | GalleryImage | Background | Separator | Frame | MusicCategory | OtherCategory

  datatype Role = Bride | Groom

  /** Storage modes are compared as strings by the code, so they are kept as strings. */
  const STORAGE_URL: string := "url"
  const STORAGE_LOCAL: string := "local"
  const DISK_PUBLIC: string := "public"

  datatype Template = Template(code: Option<string>, name: string)

  datatype Invitation = Invitation(
    templateId: nat,
    slug: string,
    title: Option<string>,
    timezone: string,
    locale: string,
    status: Status,
    userId: Option<nat>)

  /** One piece of media: an external `url`, or a `path` on a storage `disk`. */
  datatype Asset = Asset(
    invitation: nat,
    kind: Kind,
    category: Category,
    storage: string,
    url: Option<string>,
    disk: Option<string>,
    path: Option<string>,
    altText: Option<string>)

  /** 1:1 rows, keyed by the invitation id. */
  datatype Couple = Couple(
    tagline: Option<string>,
    name1: Option<string>,
    name2: Option<string>,
    dateDisplay: Option<string>,
    imageAssetId: Option<nat>)

  datatype EventSection = EventSection(title: Option<string>, defaultLocationUrl: Option<string>)

  datatype MapSection = MapSection(
    title: Option<string>, address: Option<string>, embedSrc: Option<string>, locationUrl: Option<string>)

  datatype RsvpSection = RsvpSection(
    title: Option<string>, subtitle: Option<string>, message: Option<string>, hosts: Option<string>)

  datatype GiftSection = GiftSection(title: Option<string>, subtitle: Option<string>)

  datatype WishSection = WishSection(title: Option<string>)

  /** `autoplay` and `loop_audio` default to true in the migration. */
  datatype Music = Music(audioAssetId: Option<nat>, autoplay: bool, loopAudio: bool)

  /** 1:N rows, each naming its invitation. */
  datatype Person = Person(
    invitation: nat,
    role: Role,
    name: Option<string>,
    title: Option<string>,
    fatherName: Option<string>,
    motherName: Option<string>,
    instagram: Option<string>,
    photoAssetId: Option<nat>)

  /** Dates and times are kept in their formatted form. */
  datatype Event = Event(
    invitation: nat,
    sortOrder: int,
    title: Option<string>,
    dateDisplay: Option<string>,
    timeDisplay: Option<string>,
    date: Option<string>,
    startTime: Option<string>,
    endTime: Option<string>,
    locationText: Option<string>,
    locationUrl: Option<string>)

  /** `image_asset_id` is NOT NULL in the migration. */
  datatype GalleryItem = GalleryItem(invitation: nat, sortOrder: int, imageAssetId: nat)

  datatype GiftAccount = GiftAccount(
    invitation: nat,
    sortOrder: int,
    bankName: Option<string>,
    accountNumber: Option<string>,
    accountHolder: Option<string>,
    qrAssetId: Option<nat>)

  datatype WishSample = WishSample(
    invitation: nat, sortOrder: int, name: Option<string>, address: Option<string>, message: Option<string>)

  /** `attendance` is a NOT NULL enum (unknown, yes, no, maybe) defaulting to "unknown". */
  datatype GuestbookEntry = GuestbookEntry(
    invitation: nat,
    guestName: string,
    guestAddress: Option<string>,
    message: string,
    attendance: string,
    ipAddress: Option<string>,
    userAgent: string,
    createdAt: Option<string>)

  datatype RsvpResponse = RsvpResponse(
    invitation: nat,
    guestName: string,
    phone: Option<string>,
    attendance: string,
    pax: int,
    note: Option<string>,
    ipAddress: Option<string>,
    userAgent: string)

  /** The whole database the core touches. */
  datatype Store = Store(
    templates: map<nat, Template>,
    invitations: Table<Invitation>,
    assets: Table<Asset>,
    couples: map<nat, Couple>,
    people: Table<Person>,
    eventSections: map<nat, EventSection>,
    events: Table<Event>,
    gallery: Table<GalleryItem>,
    maps: map<nat, MapSection>,
    rsvps: map<nat, RsvpSection>,
    giftSections: map<nat, GiftSection>,
    giftAccounts: Table<GiftAccount>,
    wishSections: map<nat, WishSection>,
    wishSamples: Table<WishSample>,
    guestbook: Table<GuestbookEntry>,
    rsvpResponses: Table<RsvpResponse>,
    music: map<nat, Music>)
  {
    /** Every auto-increment table is well formed. */
    predicate Valid() {
      && invitations.Valid()
      && assets.Valid()
      && people.Valid()
      && events.Valid()
      && gallery.Valid()
      && giftAccounts.Valid()
      && wishSamples.Valid()
      && guestbook.Valid()
      && rsvpResponses.Valid()
    }
  }

  /** The column defaults of a freshly inserted 1:1 row (`firstOrCreate([])`). */
  const EMPTY_COUPLE: Couple := Couple(None, None, None, None, None)
  const EMPTY_EVENT_SECTION: EventSection := EventSection(None, None)
  const EMPTY_MAP: MapSection := MapSection(None, None, None, None)
  const EMPTY_RSVP: RsvpSection := RsvpSection(None, None, None, None)
  const EMPTY_GIFT_SECTION: GiftSection := GiftSection(None, None)
  const EMPTY_WISH_SECTION: WishSection := WishSection(None)
  const EMPTY_MUSIC: Music := Music(None, true, true)

  /** A person row as `firstOrCreate(['role' => ...])` inserts it. */
  function NewPerson(inv: nat, role: Role): Person {
    Person(inv, role, None, None, None, None, None, None)
  }
}
