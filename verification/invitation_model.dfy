/** The invitation aggregate: the `created` hook and `ensureDefaults` that give
    every invitation its 1:1 children and its two people, the relation
    orderings the aggregate is loaded with, and `bride()` / `groom()`. */
module InvitationModel {
  import opened Wrappers
  import opened Tables
  import opened Schema
  import opened Growth
  import opened Ordering
  import SyncInvitationAssets

  // ---------------------------------------------------------------------------
  // Default children

  /** `firstOrCreate([])` on a 1:1 relation keyed by the invitation id. */
  function EnsureRow<T>(m: map<nat, T>, inv: nat, default: T): (r: map<nat, T>)
    ensures inv in r && r.Keys == m.Keys + {inv}
    ensures forall k :: k in m ==> r[k] == m[k]
    ensures inv !in m ==> r[inv] == default
  {
    if inv in m then m else m[inv := default]
  }

  /** The people of one invitation with one role. */
  function RoleIds(t: Table<Person>, inv: nat, role: Role): set<nat> {
    set id | id in t.rows && PersonMatch(inv, role)(t.rows[id])
  }

  /** All seven 1:1 children exist, and so do a bride and a groom. */
  predicate HasDefaults(s: Store, inv: nat) {
    && inv in s.couples && inv in s.eventSections && inv in s.maps && inv in s.rsvps
    && inv in s.giftSections && inv in s.wishSections && inv in s.music
    && RoleIds(s.people, inv, Bride) != {} && RoleIds(s.people, inv, Groom) != {}
  }

  /** The seven `firstOrCreate([])` calls on the 1:1 relations. */
  function EnsureSections(s: Store, inv: nat): (r: Store)
    ensures r == s.(couples := r.couples, eventSections := r.eventSections, maps := r.maps, rsvps := r.rsvps,
                    giftSections := r.giftSections, wishSections := r.wishSections, music := r.music)
  {
    s.(couples := EnsureRow(s.couples, inv, EMPTY_COUPLE),
       eventSections := EnsureRow(s.eventSections, inv, EMPTY_EVENT_SECTION),
       maps := EnsureRow(s.maps, inv, EMPTY_MAP),
       rsvps := EnsureRow(s.rsvps, inv, EMPTY_RSVP),
       giftSections := EnsureRow(s.giftSections, inv, EMPTY_GIFT_SECTION),
       wishSections := EnsureRow(s.wishSections, inv, EMPTY_WISH_SECTION),
       music := EnsureRow(s.music, inv, EMPTY_MUSIC))
  }

  /** `firstOrCreate(['role' => ...])` adds a person only when the role has
      none, and then exactly one; every other (invitation, role) is untouched. */
  lemma EnsurePersonRoles(s: Store, inv: nat, role: Role, inv2: nat, role2: Role)
    requires s.Valid()
    ensures var (r, id) := SyncInvitationAssets.EnsurePerson(s, inv, role);
            RoleIds(r.people, inv2, role2)
            == if (inv2, role2) == (inv, role) && RoleIds(s.people, inv, role) == {}
               then {id} else RoleIds(s.people, inv2, role2)
  {
    var (r, id) := SyncInvitationAssets.EnsurePerson(s, inv, role);
    if First(s.people, PersonMatch(inv, role)).None? {
      assert r.people.rows[id] == NewPerson(inv, role);
      assert RoleIds(s.people, inv, role) == {};
      if (inv2, role2) == (inv, role) {
        assert RoleIds(r.people, inv2, role2) == RoleIds(s.people, inv2, role2) + {id};
      } else {
        assert RoleIds(r.people, inv2, role2) == RoleIds(s.people, inv2, role2);
      }
    } else {
      var f := First(s.people, PersonMatch(inv, role)).value;
      assert f in RoleIds(s.people, inv, role);
    }
  }

  /** The two `firstOrCreate(['role' => ...])` calls for the bride and the groom. */
  function EnsureCouplePeople(s: Store, inv: nat): (r: Store)
    requires s.Valid()
    ensures r.Valid() && r == s.(people := r.people)
    ensures forall id :: id in s.people.rows ==> id in r.people.rows && r.people.rows[id] == s.people.rows[id]
    ensures forall id :: id in r.people.rows && id !in s.people.rows ==> r.people.rows[id] == NewPerson(inv, r.people.rows[id].role)
    ensures forall id :: id in r.people.rows && id !in s.people.rows ==> id >= s.people.next
  {
    var s2 := SyncInvitationAssets.EnsurePerson(s, inv, Bride).0;
    var r := SyncInvitationAssets.EnsurePerson(s2, inv, Groom).0;
    EnsurePersonKeeps(s, inv, Bride);
    EnsurePersonKeeps(s2, inv, Groom);
    r
  }

  /** One `firstOrCreate(['role' => ...])` keeps every person row and adds only
      rows of its invitation. */
  lemma EnsurePersonKeeps(s: Store, inv: nat, role: Role)
    requires s.Valid()
    ensures var r := SyncInvitationAssets.EnsurePerson(s, inv, role).0;
            && r.Valid() && r == s.(people := r.people)
            && (forall id :: id in s.people.rows ==> id in r.people.rows && r.people.rows[id] == s.people.rows[id])
            && (forall id :: id in r.people.rows && id !in s.people.rows ==> r.people.rows[id] == NewPerson(inv, r.people.rows[id].role))
            && (forall id :: id in r.people.rows && id !in s.people.rows ==> id >= s.people.next)
            && r.people.next >= s.people.next
  {
  }

  /** After the two calls a role keeps the people it had, or has exactly one
      when it had none. */
  lemma CouplePeopleRoles(s: Store, inv: nat, role: Role)
    requires s.Valid()
    ensures var r := EnsureCouplePeople(s, inv);
            if RoleIds(s.people, inv, role) == {} then |RoleIds(r.people, inv, role)| == 1
            else RoleIds(r.people, inv, role) == RoleIds(s.people, inv, role)
  {
    var (s2, b) := SyncInvitationAssets.EnsurePerson(s, inv, Bride);
    var (r, g) := SyncInvitationAssets.EnsurePerson(s2, inv, Groom);
    assert r == EnsureCouplePeople(s, inv);
    EnsurePersonRoles(s, inv, Bride, inv, role);
    EnsurePersonRoles(s2, inv, Groom, inv, role);
    if role == Bride {
      assert RoleIds(s2.people, inv, role) != {} ==> RoleIds(r.people, inv, role) == RoleIds(s2.people, inv, role);
      if RoleIds(s.people, inv, role) == {} {
        assert RoleIds(r.people, inv, role) == {b};
      }
    } else {
      assert RoleIds(s2.people, inv, role) == RoleIds(s.people, inv, role);
      if RoleIds(s.people, inv, role) == {} {
        assert RoleIds(r.people, inv, role) == {g};
      }
    }
  }

  /** `ensureDefaults` and the `created` hook: the seven 1:1 children and the
      bride and groom exist afterwards. Existing rows are never overwritten,
      and new people belong to this invitation. */
  function EnsureDefaults(s: Store, inv: nat): (r: Store)
    requires s.Valid()
    ensures r.Valid() && HasDefaults(r, inv)
    ensures r == s.(couples := r.couples, eventSections := r.eventSections, maps := r.maps, rsvps := r.rsvps,
                    giftSections := r.giftSections, wishSections := r.wishSections, music := r.music,
                    people := r.people)
    ensures forall k :: k in s.couples ==> k in r.couples && r.couples[k] == s.couples[k]
    ensures forall k :: k in s.music ==> k in r.music && r.music[k] == s.music[k]
    ensures inv !in s.couples ==> r.couples[inv] == EMPTY_COUPLE
    ensures inv !in s.music ==> r.music[inv] == EMPTY_MUSIC
    ensures forall id :: id in r.people.rows && id !in s.people.rows ==> r.people.rows[id] == NewPerson(inv, r.people.rows[id].role)
    ensures forall id :: id in r.people.rows && id !in s.people.rows ==> id >= s.people.next
  {
    var s1 := EnsureSections(s, inv);
    var r := EnsureCouplePeople(s1, inv);
    CouplePeopleRoles(s1, inv, Bride);
    CouplePeopleRoles(s1, inv, Groom);
    r
  }

  /** A role of the invitation keeps its people through `ensureDefaults`, or
      gets exactly one when it had none. */
  lemma EnsureDefaultsRoles(s: Store, inv: nat, role: Role)
    requires s.Valid()
    ensures var r := EnsureDefaults(s, inv);
            if RoleIds(s.people, inv, role) == {} then |RoleIds(r.people, inv, role)| == 1
            else RoleIds(r.people, inv, role) == RoleIds(s.people, inv, role)
  {
    var s1 := EnsureSections(s, inv);
    assert s1.people == s.people;
    CouplePeopleRoles(s1, inv, role);
  }

  /** On an invitation that already has its defaults, `ensureDefaults` changes nothing. */
  lemma EnsureDefaultsNoop(s: Store, inv: nat)
    requires s.Valid() && HasDefaults(s, inv)
    ensures EnsureDefaults(s, inv) == s
  {
    var s1 := EnsureSections(s, inv);
    assert s1 == s;
    var b :| b in RoleIds(s.people, inv, Bride);
    assert First(s.people, PersonMatch(inv, Bride)).Some?;
    var g :| g in RoleIds(s.people, inv, Groom);
    assert First(s.people, PersonMatch(inv, Groom)).Some?;
  }

  /** `ensureDefaults` is idempotent. */
  lemma EnsureDefaultsIdempotent(s: Store, inv: nat)
    requires s.Valid()
    ensures EnsureDefaults(EnsureDefaults(s, inv), inv) == EnsureDefaults(s, inv)
  {
    EnsureDefaultsNoop(EnsureDefaults(s, inv), inv);
  }

  /** Every child row names an existing invitation (the foreign keys). */
  predicate ChildrenOwned(s: Store) {
    && (forall k :: k in s.couples ==> k in s.invitations.rows)
    && (forall k :: k in s.eventSections ==> k in s.invitations.rows)
    && (forall k :: k in s.maps ==> k in s.invitations.rows)
    && (forall k :: k in s.rsvps ==> k in s.invitations.rows)
    && (forall k :: k in s.giftSections ==> k in s.invitations.rows)
    && (forall k :: k in s.wishSections ==> k in s.invitations.rows)
    && (forall k :: k in s.music ==> k in s.invitations.rows)
    && (forall id :: id in s.people.rows ==> s.people.rows[id].invitation in s.invitations.rows)
  }

  /** `ensureDefaults` on an existing invitation keeps every foreign key valid. */
  lemma EnsureDefaultsOwned(s: Store, inv: nat)
    requires s.Valid() && ChildrenOwned(s) && inv in s.invitations.rows
    ensures ChildrenOwned(EnsureDefaults(s, inv))
  {
    var r := EnsureDefaults(s, inv);
    assert r.invitations == s.invitations;
    forall id | id in r.people.rows
      ensures r.people.rows[id].invitation in r.invitations.rows
    {
      if id in s.people.rows {
        assert r.people.rows[id] == s.people.rows[id];
      }
    }
  }

  /** `Invitation::create($data)` followed by its `created` hook: the new
      invitation gets empty 1:1 children and exactly one bride and one groom. */
  function CreateInvitation(s: Store, row: Invitation): (r: (Store, nat))
    requires s.Valid() && ChildrenOwned(s)
    ensures r.0.Valid() && ChildrenOwned(r.0)
    ensures r.1 !in s.invitations.rows && r.1 in r.0.invitations.rows && r.0.invitations.rows[r.1] == row
    ensures r.0.invitations.rows.Keys == s.invitations.rows.Keys + {r.1}
    ensures forall id :: id in s.invitations.rows ==> r.0.invitations.rows[id] == s.invitations.rows[id] && id < r.1
    ensures HasDefaults(r.0, r.1)
    ensures r.0.couples[r.1] == EMPTY_COUPLE && r.0.music[r.1] == EMPTY_MUSIC
    ensures |RoleIds(r.0.people, r.1, Bride)| == 1 && |RoleIds(r.0.people, r.1, Groom)| == 1
  {
    var (t, id) := s.invitations.Insert(row);
    var s1 := s.(invitations := t);
    assert forall role: Role :: RoleIds(s1.people, id, role) == {};
    var r := EnsureDefaults(s1, id);
    EnsureDefaultsOwned(s1, id);
    EnsureDefaultsRoles(s1, id, Bride);
    EnsureDefaultsRoles(s1, id, Groom);
    (r, id)
  }

  // ---------------------------------------------------------------------------
  // The loaded aggregate

  /** An invitation with its relations loaded, as the renderer sees it. */
  datatype Loaded = Loaded(
    id: nat,
    invitation: Invitation,
    template: Option<Template>,
    couple: Option<Couple>,
    people: seq<Person>,
    eventSection: Option<EventSection>,
    events: seq<Event>,
    gallery: seq<GalleryItem>,
    mapSection: Option<MapSection>,
    rsvp: Option<RsvpSection>,
    giftSection: Option<GiftSection>,
    giftAccounts: seq<GiftAccount>,
    wishSection: Option<WishSection>,
    wishSamples: seq<WishSample>,
    guestbook: seq<GuestbookEntry>,
    rsvpResponses: seq<RsvpResponse>,
    music: Option<Music>,
    assets: map<nat, Asset>)

  /** A `hasOne` / `belongsTo` read: the row, or null. */
  function Lookup<T>(m: map<nat, T>, k: nat): (r: Option<T>)
    ensures r.Some? <==> k in m
    ensures r.Some? ==> r.value == m[k]
  {
    if k in m then Some(m[k]) else None
  }

  function OwnerIs<T>(owner: T -> nat, inv: nat): T -> bool {
    (x: T) => owner(x) == inv
  }

  /** The keys of a `hasMany` relation, ascending. */
  function OwnedKeys<T>(t: Table<T>, owner: T -> nat, inv: nat): seq<nat> {
    KeysWhere(t.rows, OwnerIs(owner, inv), 1, t.next)
  }

  /** The rows of a `hasMany` relation in primary-key order. */
  function Owned<T>(t: Table<T>, owner: T -> nat, inv: nat): (r: seq<T>)
    ensures |r| == |OwnedKeys(t, owner, inv)|
    ensures forall i :: 0 <= i < |r| ==> owner(r[i]) == inv && r[i] == t.rows[OwnedKeys(t, owner, inv)[i]]
  {
    RowsAt(t.rows, OwnedKeys(t, owner, inv))
  }

  function PersonOwner(p: Person): nat { p.invitation }
  function EventOwner(e: Event): nat { e.invitation }
  function GalleryOwner(g: GalleryItem): nat { g.invitation }
  function GiftOwner(g: GiftAccount): nat { g.invitation }
  function WishOwner(w: WishSample): nat { w.invitation }
  function GuestbookOwner(g: GuestbookEntry): nat { g.invitation }
  function RsvpOwner(g: RsvpResponse): nat { g.invitation }

  function EventOrder(e: Event): int { e.sortOrder }
  function GalleryOrder(g: GalleryItem): int { g.sortOrder }
  function GiftOrder(g: GiftAccount): int { g.sortOrder }
  function WishOrder(w: WishSample): int { w.sortOrder }

  /** The relations as the model declares them: events, gallery items, gift
      accounts and wish samples ascending by `sort_order`; guestbook entries
      and RSVP responses newest first; people in key order. */
  function Load(s: Store, id: nat): (r: Loaded)
    requires s.Valid() && id in s.invitations.rows
    ensures r.id == id && r.invitation == s.invitations.rows[id]
    ensures SortedBy(r.events, EventOrder) && multiset(r.events) == multiset(Owned(s.events, EventOwner, id))
    ensures SortedBy(r.gallery, GalleryOrder)
            && multiset(r.gallery) == multiset(Owned(s.gallery, GalleryOwner, id))
    ensures SortedBy(r.giftAccounts, GiftOrder)
            && multiset(r.giftAccounts) == multiset(Owned(s.giftAccounts, GiftOwner, id))
    ensures SortedBy(r.wishSamples, WishOrder)
            && multiset(r.wishSamples) == multiset(Owned(s.wishSamples, WishOwner, id))
    ensures r.guestbook == Reverse(Owned(s.guestbook, GuestbookOwner, id))
    ensures r.rsvpResponses == Reverse(Owned(s.rsvpResponses, RsvpOwner, id))
    ensures forall i :: 0 <= i < |r.people| ==> r.people[i].invitation == id
  {
    Loaded(
      id,
      s.invitations.rows[id],
      Lookup(s.templates, s.invitations.rows[id].templateId),
      Lookup(s.couples, id),
      Owned(s.people, PersonOwner, id),
      Lookup(s.eventSections, id),
      SortBy(Owned(s.events, EventOwner, id), EventOrder),
      SortBy(Owned(s.gallery, GalleryOwner, id), GalleryOrder),
      Lookup(s.maps, id),
      Lookup(s.rsvps, id),
      Lookup(s.giftSections, id),
      SortBy(Owned(s.giftAccounts, GiftOwner, id), GiftOrder),
      Lookup(s.wishSections, id),
      SortBy(Owned(s.wishSamples, WishOwner, id), WishOrder),
      Reverse(Owned(s.guestbook, GuestbookOwner, id)),
      Reverse(Owned(s.rsvpResponses, RsvpOwner, id)),
      Lookup(s.music, id),
      s.assets.rows)
  }

  /** The 1:1 children and the people of a loaded invitation are the stored rows. */
  lemma LoadLooksUp(s: Store, id: nat)
    requires s.Valid() && id in s.invitations.rows
    ensures var agg := Load(s, id);
            && agg.couple == Lookup(s.couples, id) && agg.eventSection == Lookup(s.eventSections, id)
            && agg.mapSection == Lookup(s.maps, id) && agg.rsvp == Lookup(s.rsvps, id)
            && agg.giftSection == Lookup(s.giftSections, id) && agg.wishSection == Lookup(s.wishSections, id)
            && agg.music == Lookup(s.music, id) && agg.people == Owned(s.people, PersonOwner, id)
            && agg.assets == s.assets.rows
  {
  }

  /** The position of the first person with the role. */
  function FirstRoleIndex(people: seq<Person>, role: Role): (r: Option<nat>)
    ensures r.None? <==> forall i :: 0 <= i < |people| ==> people[i].role != role
    ensures r.Some? ==> r.value < |people| && people[r.value].role == role
                        && forall j :: 0 <= j < r.value ==> people[j].role != role
  {
    if |people| == 0 then None
    else if people[0].role == role then Some(0)
    else match FirstRoleIndex(people[1..], role)
      case Some(i) => Some(i + 1)
      case None => None
  }

  /** `$people->firstWhere('role', $role)`. */
  function FirstWithRole(people: seq<Person>, role: Role): (r: Option<Person>)
    ensures r.None? <==> forall i :: 0 <= i < |people| ==> people[i].role != role
    ensures r.Some? ==> r.value.role == role
  {
    match FirstRoleIndex(people, role)
    case Some(i) => Some(people[i])
    case None => None
  }

  function BrideOf(agg: Loaded): Option<Person> { FirstWithRole(agg.people, Bride) }
  function GroomOf(agg: Loaded): Option<Person> { FirstWithRole(agg.people, Groom) }

  lemma FirstWithRoleAt(people: seq<Person>, role: Role, i: nat)
    requires i < |people| && people[i].role == role
    requires forall j :: 0 <= j < i ==> people[j].role != role
    ensures FirstWithRole(people, role) == Some(people[i])
  {
    var k := FirstRoleIndex(people, role).value;
    assert k == i;
  }

  /** `bride()` / `groom()` find the person the reconciler's
      `firstOrCreate(['role' => ...])` finds: the lowest-keyed person of the
      invitation with that role. */
  lemma RoleHelperFindsFirstPerson(s: Store, id: nat, role: Role, p: nat)
    requires s.Valid() && First(s.people, PersonMatch(id, role)) == Some(p)
    ensures FirstWithRole(Owned(s.people, PersonOwner, id), role) == Some(s.people.rows[p])
  {
    var ks: seq<nat> := OwnedKeys(s.people, PersonOwner, id);
    var ps := Owned(s.people, PersonOwner, id);
    assert PersonMatch(id, role)(s.people.rows[p]);
    assert PersonOwner(s.people.rows[p]) == id;
    assert OwnerIs(PersonOwner, id)(s.people.rows[p]);
    assert p in ks;
    var i :| 0 <= i < |ks| && ks[i] == p;
    forall j | 0 <= j < i ensures ps[j].role != role {
      assert ks[j] < p && ks[j] in s.people.rows;
      assert !PersonMatch(id, role)(s.people.rows[ks[j]]);
      assert ps[j] == s.people.rows[ks[j]] && ps[j].invitation == id;
    }
    FirstWithRoleAt(ps, role, i);
  }

  /** ... and both find nothing when the invitation has no person with the role. */
  lemma RoleHelperFindsNothing(s: Store, id: nat, role: Role)
    requires s.Valid() && First(s.people, PersonMatch(id, role)).None?
    ensures FirstWithRole(Owned(s.people, PersonOwner, id), role).None?
  {
    var ks: seq<nat> := OwnedKeys(s.people, PersonOwner, id);
    var ps := Owned(s.people, PersonOwner, id);
    forall i | 0 <= i < |ps| ensures ps[i].role != role {
      assert ks[i] in s.people.rows;
      assert !PersonMatch(id, role)(s.people.rows[ks[i]]);
    }
  }
}
