/** `renderInvitation` and the `render*BySlug` entry points. The invitation is
    loaded with its relations first; `ensureDefaults` then writes the missing
    children, but `loadMissing` does not reload relations that are already
    loaded, so the payload is built from the snapshot taken before the defaults
    were written. Whether a view exists is a parameter. */
module RenderFlow {
  import opened Wrappers
  import opened Tables
  import opened Schema
  import opened Growth
  import opened InvitationModel
  import opened TemplateRenderer
  import opened PayloadCache

  datatype Page = Page(view: string, payload: Payload)

  /** The store and cache after a request, and the page or the 404. */
  datatype Rendered = Rendered(store: Store, cache: Cache, page: Result<Page>)

  /** `renderInvitation` on an invitation loaded from `s`. */
  function RenderInvitation(s: Store, cache: Cache, id: nat, useCache: bool,
                            viewExists: string -> bool, diskUrl: (string, string) -> string): (r: Rendered)
    requires s.Valid() && id in s.invitations.rows
    ensures r.store.Valid() && HasDefaults(r.store, id)
    ensures r.store == EnsureDefaults(s, id)
    ensures var view := ResolveView(TemplateCode(Load(s, id)));
            r.page.Ok? <==> view.Ok? && viewExists(view.value)
    ensures r.page.Ok? ==> r.page.value.view == VIEW_PREFIX + TemplateCode(Load(s, id)).value
    ensures r.page.Err? ==> r.page.error == NotFound && r.cache == cache
    ensures !useCache ==> r.cache == cache
    ensures r.page.Ok? && (!useCache || CacheKey(id) !in cache) ==>
              r.page.value.payload == BuildPayload(Load(s, id), diskUrl)
    ensures r.page.Ok? ==> r.page.value.payload.invitation == Load(s, id)
  {
    var agg := Load(s, id);
    var stored := EnsureDefaults(s, id);
    var view := ResolveView(TemplateCode(agg));
    if view.Err? || !viewExists(view.value) then Rendered(stored, cache, Err(NotFound))
    else if useCache then
      var (c, p) := CachedPayload(cache, agg, diskUrl);
      Rendered(stored, c, Ok(Page(view.value, p)))
    else Rendered(stored, cache, Ok(Page(view.value, BuildPayload(agg, diskUrl))))
  }

  /** `renderBySlugWithStatuses` for one of the three entry points. A slug that
      no invitation with an accepted status carries is a 404 that writes nothing. */
  function RenderEntry(s: Store, cache: Cache, slug: string, e: Entry, useCache: bool,
                       viewExists: string -> bool, diskUrl: (string, string) -> string): (r: Rendered)
    requires s.Valid()
    ensures LoadBySlugAndStatuses(s, slug, Statuses(e)).Err? ==> r == Rendered(s, cache, Err(NotFound))
    ensures r.page.Ok? ==> var inv := r.page.value.payload.invitation;
                           inv.id in s.invitations.rows && inv.invitation == s.invitations.rows[inv.id]
                           && inv.invitation.slug == slug && inv.invitation.status in Statuses(e)
  {
    match LoadBySlugAndStatuses(s, slug, Statuses(e))
    case Err(_) => Rendered(s, cache, Err(NotFound))
    case Ok(id) =>
      var r := RenderInvitation(s, cache, id, useCache, viewExists, diskUrl);
      assert r.page.Ok? ==> r.page.value.payload.invitation.id == id
                            && r.page.value.payload.invitation.invitation == s.invitations.rows[id];
      r
  }

  /** The public page shows only published invitations. */
  lemma PublicPageIsPublished(s: Store, cache: Cache, slug: string, useCache: bool,
                              viewExists: string -> bool, diskUrl: (string, string) -> string)
    requires s.Valid()
    ensures var r := RenderEntry(s, cache, slug, RenderPublicBySlug, useCache, viewExists, diskUrl);
            r.page.Ok? ==> r.page.value.payload.invitation.invitation.status == Published
  {
  }

  /** The public page and `renderBySlug` use the cache; the preview does not. */
  function RenderDefault(s: Store, cache: Cache, slug: string, e: Entry,
                         viewExists: string -> bool, diskUrl: (string, string) -> string): (r: Rendered)
    requires s.Valid()
    ensures e == RenderPreviewBySlug ==> r.cache == cache
    ensures LoadBySlugAndStatuses(s, slug, Statuses(e)).Err? ==> r.store == s && r.page == Err(NotFound)
    ensures e == RenderPublicBySlug && r.page.Ok? ==> r.page.value.payload.invitation.invitation.status == Published
  {
    if e == RenderPublicBySlug then
      PublicPageIsPublished(s, cache, slug, true, viewExists, diskUrl);
      RenderEntry(s, cache, slug, e, true, viewExists, diskUrl)
    else
      RenderEntry(s, cache, slug, e, CachesByDefault(e), viewExists, diskUrl)
  }

  /** The defaults are written even when the view then turns out to be missing. */
  lemma DefaultsWrittenBeforeViewCheck(s: Store, cache: Cache, id: nat, useCache: bool,
                                       viewExists: string -> bool, diskUrl: (string, string) -> string)
    requires s.Valid() && id in s.invitations.rows
    requires ResolveView(TemplateCode(Load(s, id))).Err?
    ensures var r := RenderInvitation(s, cache, id, useCache, viewExists, diskUrl);
            r.page == Err(NotFound) && HasDefaults(r.store, id)
  {
  }

  // ---------------------------------------------------------------------------
  // The pre-defaults snapshot

  /** A table that only gained rows with fresh keys still finds the same first match. */
  lemma FirstKeptByGrowth<T>(t: Table<T>, u: Table<T>, m: T -> bool, p: nat)
    requires t.Valid() && u.Valid() && First(t, m) == Some(p)
    requires forall k :: k in t.rows ==> k in u.rows && u.rows[k] == t.rows[k]
    requires forall k :: k in u.rows && k !in t.rows ==> k >= t.next
    ensures First(u, m) == Some(p)
  {
    var q := First(u, m);
    assert q.Some?;
    assert q.value in t.rows;
  }

  /** When the old rows had no match, the first match is one of the added rows. */
  lemma FirstOfAddedPerson(t: Table<Person>, u: Table<Person>, id: nat, role: Role)
    requires t.Valid() && u.Valid() && First(t, PersonMatch(id, role)).None?
    requires forall k :: k in t.rows ==> k in u.rows && u.rows[k] == t.rows[k]
    requires forall k :: k in u.rows && k !in t.rows ==> u.rows[k] == NewPerson(id, u.rows[k].role)
    requires RoleIds(u, id, role) != {}
    ensures First(u, PersonMatch(id, role)).Some?
    ensures u.rows[First(u, PersonMatch(id, role)).value] == NewPerson(id, role)
  {
    var q :| q in RoleIds(u, id, role);
    assert PersonMatch(id, role)(u.rows[q]);
  }

  /** `ensureDefaults` keeps the person `firstWhere` finds for a role, or adds
      an empty one when there was none. */
  lemma DefaultsKeepRolePerson(s: Store, id: nat, role: Role)
    requires s.Valid() && id in s.invitations.rows
    ensures var r := EnsureDefaults(s, id);
            var before := FirstWithRole(Owned(s.people, PersonOwner, id), role);
            var after := FirstWithRole(Owned(r.people, PersonOwner, id), role);
            (before.Some? ==> after == before) && (before.None? ==> after == Some(NewPerson(id, role)))
  {
    var r := EnsureDefaults(s, id);
    var m := PersonMatch(id, role);
    if First(s.people, m).Some? {
      var p := First(s.people, m).value;
      RoleHelperFindsFirstPerson(s, id, role, p);
      FirstKeptByGrowth(s.people, r.people, m, p);
      RoleHelperFindsFirstPerson(r, id, role, p);
    } else {
      RoleHelperFindsNothing(s, id, role);
      EnsureDefaultsRoles(s, id, role);
      FirstOfAddedPerson(s.people, r.people, id, role);
      RoleHelperFindsFirstPerson(r, id, role, First(r.people, m).value);
    }
  }

  /** Two loaded invitations whose DTO blocks read the same. */
  predicate SameViews(a: Loaded, b: Loaded, diskUrl: (string, string) -> string) {
    && a.id == b.id && a.invitation == b.invitation && a.template == b.template
    && a.events == b.events && a.gallery == b.gallery && a.giftAccounts == b.giftAccounts
    && a.wishSamples == b.wishSamples && a.guestbook == b.guestbook && a.assets == b.assets
    && CoupleViewOf(a, diskUrl) == CoupleViewOf(b, diskUrl)
    && EventSectionViewOf(a) == EventSectionViewOf(b)
    && MapViewOf(a) == MapViewOf(b) && RsvpViewOf(a) == RsvpViewOf(b)
    && Col(a.giftSection, (x: GiftSection) => x.title) == Col(b.giftSection, (x: GiftSection) => x.title)
    && Col(a.giftSection, (x: GiftSection) => x.subtitle) == Col(b.giftSection, (x: GiftSection) => x.subtitle)
    && Col(a.wishSection, (x: WishSection) => x.title) == Col(b.wishSection, (x: WishSection) => x.title)
    && MusicViewOf(a, diskUrl) == MusicViewOf(b, diskUrl)
    && PersonViewOf(a.assets, BrideOf(a), diskUrl) == PersonViewOf(b.assets, BrideOf(b), diskUrl)
    && PersonViewOf(a.assets, GroomOf(a), diskUrl) == PersonViewOf(b.assets, GroomOf(b), diskUrl)
  }

  lemma SameViewsSameDto(a: Loaded, b: Loaded, diskUrl: (string, string) -> string)
    requires SameViews(a, b, diskUrl)
    ensures BuildDto(a, None, None, diskUrl) == BuildDto(b, None, None, diskUrl)
  {
  }

  /** The loaded relations `ensureDefaults` does not write are the same before and after it. */
  lemma DefaultsKeepLoadedLists(s: Store, id: nat)
    requires s.Valid() && id in s.invitations.rows
    ensures var a := Load(s, id);
            var b := Load(EnsureDefaults(s, id), id);
            && a.id == b.id && a.invitation == b.invitation && a.template == b.template
            && a.events == b.events && a.gallery == b.gallery && a.giftAccounts == b.giftAccounts
            && a.wishSamples == b.wishSamples && a.guestbook == b.guestbook && a.assets == b.assets
  {
    var r := EnsureDefaults(s, id);
    assert r.templates == s.templates && r.invitations == s.invitations && r.events == s.events;
    assert r.gallery == s.gallery && r.giftAccounts == s.giftAccounts && r.wishSamples == s.wishSamples;
    assert r.guestbook == s.guestbook && r.assets == s.assets;
  }

  /** The 1:1 blocks of the DTO read the same before and after `ensureDefaults`:
      a default row has only null columns, which read like a missing row. */
  lemma DefaultsKeepSectionViews(s: Store, id: nat, diskUrl: (string, string) -> string)
    requires s.Valid() && id in s.invitations.rows
    ensures var a := Load(s, id);
            var b := Load(EnsureDefaults(s, id), id);
            && CoupleViewOf(a, diskUrl) == CoupleViewOf(b, diskUrl)
            && EventSectionViewOf(a) == EventSectionViewOf(b)
            && MapViewOf(a) == MapViewOf(b) && RsvpViewOf(a) == RsvpViewOf(b)
            && Col(a.giftSection, (x: GiftSection) => x.title) == Col(b.giftSection, (x: GiftSection) => x.title)
            && Col(a.giftSection, (x: GiftSection) => x.subtitle) == Col(b.giftSection, (x: GiftSection) => x.subtitle)
            && Col(a.wishSection, (x: WishSection) => x.title) == Col(b.wishSection, (x: WishSection) => x.title)
            && MusicViewOf(a, diskUrl) == MusicViewOf(b, diskUrl)
  {
    LoadLooksUp(s, id);
    LoadLooksUp(EnsureDefaults(s, id), id);
  }

  /** Building the DTO from the snapshot taken before `ensureDefaults` gives
      the same DTO as a fresh load after it. */
  lemma SnapshotDtoMatchesFreshLoad(s: Store, id: nat, diskUrl: (string, string) -> string)
    requires s.Valid() && id in s.invitations.rows
    ensures BuildDto(Load(s, id), None, None, diskUrl)
            == BuildDto(Load(EnsureDefaults(s, id), id), None, None, diskUrl)
  {
    var r := EnsureDefaults(s, id);
    var a := Load(s, id);
    var b := Load(r, id);
    DefaultsKeepLoadedLists(s, id);
    DefaultsKeepSectionViews(s, id, diskUrl);
    LoadLooksUp(s, id);
    LoadLooksUp(r, id);
    DefaultsKeepRolePerson(s, id, Bride);
    DefaultsKeepRolePerson(s, id, Groom);
    SameViewsSameDto(a, b, diskUrl);
  }
}
