/** The asset reconciler the admin pages and the wizard run after saving an
    invitation: it turns the upload fields of the submitted form state into
    asset rows and points the couple, bride, groom, gallery, gift and music
    rows at them. Every step is written with the INSERTs and UPDATEs of
    `StoreUpdates`, in the order the code issues them. */
module SyncInvitationAssets {
  import opened Wrappers
  import opened Php
  import opened Decimal
  import opened Tables
  import opened Schema
  import opened StoreUpdates
  import opened Growth

  /** The upload and person fields of the form state that are not columns of
      the invitation row. */
  const TRANSIENT_KEYS: set<string> := {
    "couple_image",
    "bride_name", "bride_title", "bride_father_name", "bride_mother_name",
    "bride_instagram_handle", "bride_photo",
    "groom_name", "groom_title", "groom_father_name", "groom_mother_name",
    "groom_instagram_handle", "groom_photo",
    "music_audio"
  }

  /** The invitation columns of a form state: the transient keys removed,
      everything else kept as it was. */
  function StripInvitationFormData(d: map<string, Value>): (r: map<string, Value>)
    ensures forall k :: k in r <==> k in d && k !in TRANSIENT_KEYS
    ensures forall k :: k in r ==> r[k] == d[k]
  {
    d - TRANSIENT_KEYS
  }

  lemma StripIsIdempotent(d: map<string, Value>)
    ensures StripInvitationFormData(StripInvitationFormData(d)) == StripInvitationFormData(d)
  {
  }

  lemma TransientKeysAreFourteen()
    ensures |TRANSIENT_KEYS| == 14
  {
  }

  /** `$data[...] ?? null` used as a stored path: the reconciler only tests it
      for truthiness, so any string other than "" and "0" is a path. */
  function UploadedPath(v: Value): (r: Option<string>)
    ensures r.Some? <==> v.VStr? && TruthyString(v.s)
    ensures r.Some? ==> r.value == v.s
  {
    if v.VStr? && TruthyString(v.s) then Some(v.s) else None
  }

  /** `$row[key] ?? null` for one repeater row. */
  function RowField(row: Value, key: string): Value {
    if row.VRecord? then Get(row.fields, key) else VNull
  }

  /** The primary key a repeater row names: `whereKey` can only find a positive integer. */
  function RowKey(v: Value): (r: Option<nat>)
    ensures r.Some? ==> v == VInt(r.value) && r.value >= 1
  {
    if v.VInt? && v.i >= 1 then Some(v.i as nat) else None
  }

  /** The repeater rows of a form state, in submission order. */
  function RowsOf(v: Value): seq<Value> {
    if v.VList? then v.items else []
  }

  // ---------------------------------------------------------------------------
  // Find-or-create primitives

  /** The asset `updateOrCreate` would find. */
  function FindAsset(s: Store, inv: nat, cat: Category, kind: Kind, path: string): Option<nat>
    requires s.Valid()
  {
    First(s.assets, AssetMatch(inv, cat, kind, path))
  }

  /** The row `updateOrCreate` inserts for a key it did not find. */
  function NewLocalAsset(inv: nat, cat: Category, kind: Kind, path: string, alt: string): Asset {
    Asset(inv, kind, cat, STORAGE_LOCAL, None, Some(DISK_PUBLIC), Some(path), Some(alt))
  }

  /** The find-or-insert half of `updateOrCreate`. */
  function EnsureAsset(s: Store, inv: nat, cat: Category, kind: Kind, path: string, alt: string): (r: (Store, nat))
    requires s.Valid()
  {
    match FindAsset(s, inv, cat, kind, path)
    case Some(id) => (s, id)
    case None => Create(s, InsertAsset(NewLocalAsset(inv, cat, kind, path, alt)))
  }

  lemma EnsureAssetAnchors(s: Store, inv: nat, cat: Category, kind: Kind, path: string, alt: string)
    requires s.Valid()
    ensures Grows(s, EnsureAsset(s, inv, cat, kind, path, alt).0)
    ensures Anchored(EnsureAsset(s, inv, cat, kind, path, alt).0.assets, AssetMatch(inv, cat, kind, path),
                     EnsureAsset(s, inv, cat, kind, path, alt).1)
  {
    CreateGrows(s, InsertAsset(NewLocalAsset(inv, cat, kind, path, alt)));
    if FindAsset(s, inv, cat, kind, path).Some? {
      FirstIsAnchored(s.assets, AssetMatch(inv, cat, kind, path));
    }
  }

  /** `$record->assets()->updateOrCreate([category, kind, disk, path], [storage, alt_text])`:
      the lowest-keyed asset of this invitation with that key is reused, or a
      local asset is inserted; either way it ends local with the given alt text. */
  function UpsertAsset(s: Store, inv: nat, cat: Category, kind: Kind, path: string, alt: string): (r: (Store, nat))
    requires s.Valid()
    ensures r.0.Valid() && Grows(s, r.0)
    ensures r.0 == s.(assets := r.0.assets)
    ensures Anchored(r.0.assets, AssetMatch(inv, cat, kind, path), r.1)
    ensures r.0.assets.rows[r.1].storage == STORAGE_LOCAL && r.0.assets.rows[r.1].altText == Some(alt)
    ensures forall id :: id in s.assets.rows && id != r.1 ==> r.0.assets.rows[id] == s.assets.rows[id]
    ensures FindAsset(s, inv, cat, kind, path) == Some(r.1) ==>
              r.0.assets.rows.Keys == s.assets.rows.Keys
              && r.0.assets.rows[r.1] == s.assets.rows[r.1].(storage := STORAGE_LOCAL, altText := Some(alt))
    ensures FindAsset(s, inv, cat, kind, path).None? ==>
              r.1 == s.assets.next && r.0.assets.rows.Keys == s.assets.rows.Keys + {r.1}
              && r.0.assets.rows[r.1] == NewLocalAsset(inv, cat, kind, path, alt)
  {
    var (s1, id) := EnsureAsset(s, inv, cat, kind, path, alt);
    EnsureAssetAnchors(s, inv, cat, kind, path, alt);
    ApplyGrows(s1, SetAssetLocal(id, alt));
    GrowsTrans(s, s1, Apply(s1, SetAssetLocal(id, alt)));
    (Apply(s1, SetAssetLocal(id, alt)), id)
  }

  /** `$record->couple()->firstOrCreate([])`. */
  function EnsureCouple(s: Store, inv: nat): (r: Store)
    requires s.Valid()
    ensures r.Valid() && Grows(s, r) && inv in r.couples
    ensures r == s.(couples := r.couples)
    ensures inv in s.couples ==> r == s
    ensures inv !in s.couples ==> r.couples == s.couples[inv := EMPTY_COUPLE]
  {
    if inv in s.couples then s else Create(s, InsertCouple(inv)).0
  }

  /** `$record->music()->firstOrCreate([])`. */
  function EnsureMusic(s: Store, inv: nat): (r: Store)
    requires s.Valid()
    ensures r.Valid() && Grows(s, r) && inv in r.music
    ensures r == s.(music := r.music)
    ensures inv in s.music ==> r == s
    ensures inv !in s.music ==> r.music == s.music[inv := EMPTY_MUSIC]
  {
    if inv in s.music then s else Create(s, InsertMusic(inv)).0
  }

  /** `$record->people()->firstOrCreate(['role' => $role])`. */
  function EnsurePerson(s: Store, inv: nat, role: Role): (r: (Store, nat))
    requires s.Valid()
    ensures r.0.Valid() && Grows(s, r.0)
    ensures r.0 == s.(people := r.0.people)
    ensures Anchored(r.0.people, PersonMatch(inv, role), r.1)
    ensures First(s.people, PersonMatch(inv, role)).Some? ==> r.0 == s
    ensures First(s.people, PersonMatch(inv, role)).None? ==>
              r.1 == s.people.next && r.0.people.rows.Keys == s.people.rows.Keys + {r.1}
              && r.0.people.rows[r.1] == NewPerson(inv, role)
              && forall id :: id in s.people.rows ==> r.0.people.rows[id] == s.people.rows[id]
  {
    CreateGrows(s, InsertPerson(NewPerson(inv, role)));
    if First(s.people, PersonMatch(inv, role)).Some? then
      FirstIsAnchored(s.people, PersonMatch(inv, role));
      (s, First(s.people, PersonMatch(inv, role)).value)
    else
      Create(s, InsertPerson(NewPerson(inv, role)))
  }

  /** The gallery item of this invitation a row's id names, if any:
      `$record->galleryItems()->whereKey($id)->first()`. */
  function FindGalleryItem(s: Store, inv: nat, key: Option<nat>): (r: Option<nat>)
    ensures r.Some? <==> key.Some? && key.value in s.gallery.rows && s.gallery.rows[key.value].invitation == inv
    ensures r.Some? ==> r == key
  {
    if key.Some? && key.value in s.gallery.rows && s.gallery.rows[key.value].invitation == inv then key else None
  }

  function FindGiftAccount(s: Store, inv: nat, key: Option<nat>): (r: Option<nat>)
    ensures r.Some? <==> key.Some? && key.value in s.giftAccounts.rows && s.giftAccounts.rows[key.value].invitation == inv
    ensures r.Some? ==> r == key
  {
    if key.Some? && key.value in s.giftAccounts.rows && s.giftAccounts.rows[key.value].invitation == inv then key else None
  }

  /** The found gallery item, or `galleryItems()->create([sort_order, image_asset_id])`. */
  function EnsureGalleryItem(s: Store, inv: nat, key: Option<nat>, sortOrder: int, asset: nat): (r: (Store, nat))
    requires s.Valid()
  {
    match FindGalleryItem(s, inv, key)
    case Some(id) => (s, id)
    case None => Create(s, InsertGalleryItem(GalleryItem(inv, sortOrder, asset)))
  }

  /** The found gift account, or `giftAccounts()->create(['sort_order' => ...])`. */
  function EnsureGiftAccount(s: Store, inv: nat, key: Option<nat>, sortOrder: int): (r: (Store, nat))
    requires s.Valid()
  {
    match FindGiftAccount(s, inv, key)
    case Some(id) => (s, id)
    case None => Create(s, InsertGiftAccount(GiftAccount(inv, sortOrder, None, None, None, None)))
  }

  // ---------------------------------------------------------------------------
  // What every step keeps

  /** The rows the reconciler may write that belong to other invitations. */
  datatype Foreign = Foreign(
    assets: map<nat, Asset>,
    people: map<nat, Person>,
    gallery: map<nat, GalleryItem>,
    giftAccounts: map<nat, GiftAccount>,
    couples: map<nat, Couple>,
    music: map<nat, Music>)

  function ForeignRows<T>(t: Table<T>, owner: T -> nat, inv: nat): (m: map<nat, T>)
    ensures forall id :: id in m <==> id in t.rows && owner(t.rows[id]) != inv
    ensures forall id :: id in m ==> m[id] == t.rows[id]
  {
    map id | id in t.rows && owner(t.rows[id]) != inv :: t.rows[id]
  }

  /** Everything of `s` that belongs to an invitation other than `inv`. */
  function ForeignTo(s: Store, inv: nat): Foreign {
    Foreign(
      ForeignRows(s.assets, (a: Asset) => a.invitation, inv),
      ForeignRows(s.people, (p: Person) => p.invitation, inv),
      ForeignRows(s.gallery, (g: GalleryItem) => g.invitation, inv),
      ForeignRows(s.giftAccounts, (g: GiftAccount) => g.invitation, inv),
      s.couples - {inv},
      s.music - {inv})
  }

  /** `r` grew from `s` without touching, or adding, rows of other invitations. */
  ghost predicate Confined(s: Store, r: Store, inv: nat) {
    Grows(s, r) && ForeignTo(r, inv) == ForeignTo(s, inv)
  }

  lemma ConfinedRefl(s: Store, inv: nat)
    ensures Confined(s, s, inv)
  {
    GrowsRefl(s);
  }

  lemma ConfinedTrans(a: Store, b: Store, c: Store, inv: nat)
    requires Confined(a, b, inv) && Confined(b, c, inv)
    ensures Confined(a, c, inv)
  {
    GrowsTrans(a, b, c);
  }

  /** What `Confined` says about single rows. */
  lemma ConfinedRows(s: Store, r: Store, inv: nat)
    requires Confined(s, r, inv)
    ensures forall id :: id in s.assets.rows && s.assets.rows[id].invitation != inv ==> r.assets.rows[id] == s.assets.rows[id]
    ensures forall id :: id in r.assets.rows && id !in s.assets.rows ==> r.assets.rows[id].invitation == inv
    ensures forall id :: id in s.gallery.rows && s.gallery.rows[id].invitation != inv ==> r.gallery.rows[id] == s.gallery.rows[id]
    ensures forall id :: id in r.gallery.rows && id !in s.gallery.rows ==> r.gallery.rows[id].invitation == inv
  {
    var fs, fr := ForeignTo(s, inv), ForeignTo(r, inv);
    forall id | id in r.assets.rows && id !in s.assets.rows ensures r.assets.rows[id].invitation == inv {
      assert id !in fs.assets;
    }
    forall id | id in r.gallery.rows && id !in s.gallery.rows ensures r.gallery.rows[id].invitation == inv {
      assert id !in fs.gallery;
    }
    forall id | id in s.assets.rows && s.assets.rows[id].invitation != inv ensures r.assets.rows[id] == s.assets.rows[id] {
      assert id in fs.assets;
    }
    forall id | id in s.gallery.rows && s.gallery.rows[id].invitation != inv ensures r.gallery.rows[id] == s.gallery.rows[id] {
      assert id in fs.gallery;
    }
  }

  /** No two assets share an `updateOrCreate` key. */
  predicate UniqueAssetKeys(t: Table<Asset>) {
    forall i, j :: i in t.rows && j in t.rows && i != j ==> AssetKey(t.rows[i]) != AssetKey(t.rows[j])
  }

  /** The foreign key `fk` names the `updateOrCreate` row for this file, and
      that row is local with the given alt text. */
  ghost predicate Linked(r: Store, fk: Option<nat>, inv: nat, cat: Category, kind: Kind, path: string, alt: string) {
    && fk.Some?
    && Anchored(r.assets, AssetMatch(inv, cat, kind, path), fk.value)
    && r.assets.rows[fk.value].storage == STORAGE_LOCAL
    && r.assets.rows[fk.value].altText == Some(alt)
  }

  /** A link survives steps that only grow the store and leave assets alone. */
  lemma LinkedKept(s: Store, r: Store, fk: Option<nat>, inv: nat, cat: Category, kind: Kind, path: string, alt: string)
    requires s.Valid() && Linked(s, fk, inv, cat, kind, path, alt) && Grows(s, r) && r.assets == s.assets
    ensures Linked(r, fk, inv, cat, kind, path, alt)
  {
  }

  lemma UpsertAssetConfined(s: Store, inv: nat, cat: Category, kind: Kind, path: string, alt: string)
    requires s.Valid()
    ensures Confined(s, UpsertAsset(s, inv, cat, kind, path, alt).0, inv)
  {
    var (r, id) := UpsertAsset(s, inv, cat, kind, path, alt);
    assert r.people == s.people && r.gallery == s.gallery && r.giftAccounts == s.giftAccounts;
    assert r.couples == s.couples && r.music == s.music;
    assert r.assets.rows[id].invitation == inv;
  }

  lemma UpsertAssetKeepsUnique(s: Store, inv: nat, cat: Category, kind: Kind, path: string, alt: string)
    requires s.Valid()
    ensures UniqueAssetKeys(s.assets) ==> UniqueAssetKeys(UpsertAsset(s, inv, cat, kind, path, alt).0.assets)
  {
    var (r, id) := UpsertAsset(s, inv, cat, kind, path, alt);
    if !UniqueAssetKeys(s.assets) {
    } else if FindAsset(s, inv, cat, kind, path).None? {
      forall j | j in s.assets.rows
        ensures AssetKey(r.assets.rows[j]) != AssetKey(r.assets.rows[id])
      {
        assert !AssetMatch(inv, cat, kind, path)(s.assets.rows[j]);
      }
    } else {
      forall i, j | i in r.assets.rows && j in r.assets.rows && i != j
        ensures AssetKey(r.assets.rows[i]) != AssetKey(r.assets.rows[j])
      {
        assert AssetKey(r.assets.rows[i]) == AssetKey(s.assets.rows[i]);
        assert AssetKey(r.assets.rows[j]) == AssetKey(s.assets.rows[j]);
      }
    }
  }

  /** The row a write addresses, if it exists, belongs to `inv`. */
  ghost predicate WriteOwnedBy(x: Store, w: Write, inv: nat) {
    match w
    case SetAssetLocal(id, _) => id in x.assets.rows ==> x.assets.rows[id].invitation == inv
    case SetCoupleImage(k, _) => k == inv
    case SetPersonText(id, _) => id in x.people.rows ==> x.people.rows[id].invitation == inv
    case SetPersonPhoto(id, _) => id in x.people.rows ==> x.people.rows[id].invitation == inv
    case SetGalleryItem(id, _, _) => id in x.gallery.rows ==> x.gallery.rows[id].invitation == inv
    case SetGiftQr(id, _) => id in x.giftAccounts.rows ==> x.giftAccounts.rows[id].invitation == inv
    case SetMusicAudio(k, _) => k == inv
  }

  lemma ApplyConfinedAsset(x: Store, w: Write, inv: nat)
    requires w.SetAssetLocal? && WriteOwnedBy(x, w, inv)
    ensures ForeignTo(Apply(x, w), inv) == ForeignTo(x, inv)
  {
    assert ForeignTo(Apply(x, w), inv).assets == ForeignTo(x, inv).assets;
  }

  lemma ApplyConfinedPerson(x: Store, w: Write, inv: nat)
    requires (w.SetPersonText? || w.SetPersonPhoto?) && WriteOwnedBy(x, w, inv)
    ensures ForeignTo(Apply(x, w), inv) == ForeignTo(x, inv)
  {
    assert ForeignTo(Apply(x, w), inv).people == ForeignTo(x, inv).people;
  }

  lemma ApplyConfinedGallery(x: Store, w: Write, inv: nat)
    requires w.SetGalleryItem? && WriteOwnedBy(x, w, inv)
    ensures ForeignTo(Apply(x, w), inv) == ForeignTo(x, inv)
  {
    assert ForeignTo(Apply(x, w), inv).gallery == ForeignTo(x, inv).gallery;
  }

  lemma ApplyConfinedGift(x: Store, w: Write, inv: nat)
    requires w.SetGiftQr? && WriteOwnedBy(x, w, inv)
    ensures ForeignTo(Apply(x, w), inv) == ForeignTo(x, inv)
  {
    assert ForeignTo(Apply(x, w), inv).giftAccounts == ForeignTo(x, inv).giftAccounts;
  }

  lemma ApplyConfinedOneToOne(x: Store, w: Write, inv: nat)
    requires (w.SetCoupleImage? || w.SetMusicAudio?) && WriteOwnedBy(x, w, inv)
    ensures ForeignTo(Apply(x, w), inv) == ForeignTo(x, inv)
  {
    assert ForeignTo(Apply(x, w), inv).couples == ForeignTo(x, inv).couples;
    assert ForeignTo(Apply(x, w), inv).music == ForeignTo(x, inv).music;
  }

  lemma ApplyConfined(x: Store, w: Write, inv: nat)
    requires WriteOwnedBy(x, w, inv)
    ensures Confined(x, Apply(x, w), inv)
  {
    ApplyGrows(x, w);
    match w
    case SetAssetLocal(_, _) => ApplyConfinedAsset(x, w, inv);
    case SetCoupleImage(_, _) => ApplyConfinedOneToOne(x, w, inv);
    case SetPersonText(_, _) => ApplyConfinedPerson(x, w, inv);
    case SetPersonPhoto(_, _) => ApplyConfinedPerson(x, w, inv);
    case SetGalleryItem(_, _, _) => ApplyConfinedGallery(x, w, inv);
    case SetGiftQr(_, _) => ApplyConfinedGift(x, w, inv);
    case SetMusicAudio(_, _) => ApplyConfinedOneToOne(x, w, inv);
  }

  lemma CreateConfined(x: Store, c: Creation, inv: nat)
    requires x.Valid()
    requires match c
             case InsertAsset(a) => a.invitation == inv
             case InsertPerson(p) => p.invitation == inv
             case InsertGalleryItem(g) => g.invitation == inv
             case InsertGiftAccount(g) => g.invitation == inv
             case InsertCouple(k) => k == inv
             case InsertMusic(k) => k == inv
    ensures Confined(x, Create(x, c).0, inv)
  {
    CreateGrows(x, c);
  }

  // ---------------------------------------------------------------------------
  // The steps of syncInvitationAssets

  /** `syncCoupleImage`: a truthy `couple_image` is upserted as a section image
      and linked from the couple row, which is created when missing. */
  function SyncCoupleImage(s: Store, inv: nat, d: map<string, Value>): (r: Store)
    requires s.Valid()
    ensures r.Valid() && Confined(s, r, inv)
    ensures r == s.(assets := r.assets, couples := r.couples)
    ensures UniqueAssetKeys(s.assets) ==> UniqueAssetKeys(r.assets)
    ensures UploadedPath(Get(d, "couple_image")).None? ==> r == s
    ensures UploadedPath(Get(d, "couple_image")).Some? ==>
              && inv in r.couples
              && Linked(r, r.couples[inv].imageAssetId, inv, SectionImage, Image,
                        UploadedPath(Get(d, "couple_image")).value, "Couple Image")
              && (inv in s.couples ==> r.couples[inv] == s.couples[inv].(imageAssetId := r.couples[inv].imageAssetId))
              && (inv !in s.couples ==> r.couples[inv] == EMPTY_COUPLE.(imageAssetId := r.couples[inv].imageAssetId))
  {
    match UploadedPath(Get(d, "couple_image"))
    case None => ConfinedRefl(s, inv); s
    case Some(p) =>
      var (s1, a) := UpsertAsset(s, inv, SectionImage, Image, p, "Couple Image");
      var s2 := EnsureCouple(s1, inv);
      var r := Apply(s2, SetCoupleImage(inv, a));
      UpsertAssetConfined(s, inv, SectionImage, Image, p, "Couple Image");
      UpsertAssetKeepsUnique(s, inv, SectionImage, Image, p, "Couple Image");
      CreateConfined(s1, InsertCouple(inv), inv);
      GrowsRefl(s1);
      ApplyConfined(s2, SetCoupleImage(inv, a), inv);
      ConfinedTrans(s1, s2, r, inv);
      ConfinedTrans(s, s1, r, inv);
      AssetAnchoredGrows(s1, r, inv, SectionImage, Image, p, a);
      r
  }

  /** The form key of a person field: `bride_name`, `groom_photo`, ... */
  function PersonKeyName(role: Role, field: string): string {
    (if role == Bride then "bride_" else "groom_") + field
  }

  /** `ucfirst($role)`. */
  function RoleLabel(role: Role): string {
    if role == Bride then "Bride" else "Groom"
  }

  /** The five text columns as `syncPerson` writes them; an absent key is null. */
  function PersonTextOf(d: map<string, Value>, role: Role): (t: PersonText)
    ensures PersonKeyName(role, "name") !in d ==> t.name.None?
    ensures PersonKeyName(role, "title") !in d ==> t.title.None?
    ensures PersonKeyName(role, "father_name") !in d ==> t.fatherName.None?
    ensures PersonKeyName(role, "mother_name") !in d ==> t.motherName.None?
    ensures PersonKeyName(role, "instagram_handle") !in d ==> t.instagram.None?
  {
    PersonText(
      ColumnText(Get(d, PersonKeyName(role, "name"))),
      ColumnText(Get(d, PersonKeyName(role, "title"))),
      ColumnText(Get(d, PersonKeyName(role, "father_name"))),
      ColumnText(Get(d, PersonKeyName(role, "mother_name"))),
      ColumnText(Get(d, PersonKeyName(role, "instagram_handle"))))
  }

  lemma EnsurePersonConfined(s: Store, inv: nat, role: Role)
    requires s.Valid()
    ensures Confined(s, EnsurePerson(s, inv, role).0, inv)
  {
    if First(s.people, PersonMatch(inv, role)).Some? {
      ConfinedRefl(s, inv);
    } else {
      CreateConfined(s, InsertPerson(NewPerson(inv, role)), inv);
    }
  }

  /** A person row with the five text columns replaced. */
  function WithText(p: Person, t: PersonText): Person {
    p.(name := t.name, title := t.title, fatherName := t.fatherName, motherName := t.motherName, instagram := t.instagram)
  }

  /** Upserts a photo and links it from person `pid`; nothing else of the
      person table changes. */
  function LinkPersonPhoto(s: Store, inv: nat, role: Role, pid: nat, path: string): (r: Store)
    requires s.Valid() && pid in s.people.rows && s.people.rows[pid].invitation == inv
    ensures r.Valid() && Confined(s, r, inv)
    ensures r == s.(assets := r.assets, people := r.people)
    ensures UniqueAssetKeys(s.assets) ==> UniqueAssetKeys(r.assets)
    ensures r.people.rows.Keys == s.people.rows.Keys
    ensures forall id :: id in s.people.rows && id != pid ==> r.people.rows[id] == s.people.rows[id]
    ensures r.people.rows[pid] == s.people.rows[pid].(photoAssetId := r.people.rows[pid].photoAssetId)
    ensures Linked(r, r.people.rows[pid].photoAssetId, inv, SectionImage, Image, path, RoleLabel(role) + " Photo")
  {
    var (s1, a) := UpsertAsset(s, inv, SectionImage, Image, path, RoleLabel(role) + " Photo");
    PersonPhotoLinked(s, inv, role, pid, path);
    Apply(s1, SetPersonPhoto(pid, a))
  }

  lemma PersonPhotoLinked(s: Store, inv: nat, role: Role, pid: nat, path: string)
    requires s.Valid() && pid in s.people.rows && s.people.rows[pid].invitation == inv
    ensures var (s1, a) := UpsertAsset(s, inv, SectionImage, Image, path, RoleLabel(role) + " Photo");
            var r := Apply(s1, SetPersonPhoto(pid, a));
            && r.Valid() && Confined(s, r, inv)
            && r == s.(assets := r.assets, people := r.people)
            && (UniqueAssetKeys(s.assets) ==> UniqueAssetKeys(r.assets))
            && r.people.rows.Keys == s.people.rows.Keys
            && (forall id :: id in s.people.rows && id != pid ==> r.people.rows[id] == s.people.rows[id])
            && r.people.rows[pid] == s.people.rows[pid].(photoAssetId := Some(a))
            && Linked(r, Some(a), inv, SectionImage, Image, path, RoleLabel(role) + " Photo")
  {
    var (s1, a) := UpsertAsset(s, inv, SectionImage, Image, path, RoleLabel(role) + " Photo");
    var r := Apply(s1, SetPersonPhoto(pid, a));
    UpsertAssetConfined(s, inv, SectionImage, Image, path, RoleLabel(role) + " Photo");
    UpsertAssetKeepsUnique(s, inv, SectionImage, Image, path, RoleLabel(role) + " Photo");
    PersonPhotoShape(s, s1, pid, a);
    ApplyConfined(s1, SetPersonPhoto(pid, a), inv);
    ConfinedTrans(s, s1, r, inv);
    AssetAnchoredGrows(s1, r, inv, SectionImage, Image, path, a);
  }

  /** Linking a photo after an asset upsert touches only the assets and the
      one person row. */
  lemma PersonPhotoShape(s: Store, s1: Store, pid: nat, a: nat)
    requires s1 == s.(assets := s1.assets) && pid in s.people.rows
    ensures var r := Apply(s1, SetPersonPhoto(pid, a));
            && r == s.(assets := r.assets, people := r.people)
            && r.people.rows.Keys == s.people.rows.Keys
            && (forall id :: id in s.people.rows && id != pid ==> r.people.rows[id] == s.people.rows[id])
            && r.people.rows[pid] == s.people.rows[pid].(photoAssetId := Some(a))
            && r.assets == s1.assets
  {
  }

  /** The first half of `syncPerson`: find or create the person with the role
      and overwrite its five text columns. */
  function WritePersonText(s: Store, inv: nat, d: map<string, Value>, role: Role): (r: (Store, nat))
    requires s.Valid()
    ensures r.0.Valid() && Confined(s, r.0, inv) && r.0.assets == s.assets
    ensures r.0 == s.(people := r.0.people)
    ensures Anchored(r.0.people, PersonMatch(inv, role), r.1)
    ensures r.0.people.rows[r.1] ==
              WithText(if r.1 in s.people.rows then s.people.rows[r.1] else NewPerson(inv, role), PersonTextOf(d, role))
    ensures forall id :: id in s.people.rows && id != r.1 ==> r.0.people.rows[id] == s.people.rows[id]
  {
    var (s1, pid) := EnsurePerson(s, inv, role);
    var s2 := Apply(s1, SetPersonText(pid, PersonTextOf(d, role)));
    EnsurePersonConfined(s, inv, role);
    ApplyConfined(s1, SetPersonText(pid, PersonTextOf(d, role)), inv);
    ConfinedTrans(s, s1, s2, inv);
    PersonAnchoredGrows(s1, s2, inv, role, pid);
    (s2, pid)
  }

  /** `syncPerson`: the first person with the role (created when missing) gets
      the five text columns from the data, and a truthy photo path is upserted
      and linked; without one the photo link is left as it was. */
  function SyncPerson(s: Store, inv: nat, d: map<string, Value>, role: Role): (r: Store)
    requires s.Valid()
    ensures r.Valid() && Confined(s, r, inv)
    ensures r == s.(assets := r.assets, people := r.people)
    ensures UniqueAssetKeys(s.assets) ==> UniqueAssetKeys(r.assets)
    ensures First(r.people, PersonMatch(inv, role)).Some?
    ensures var pid := First(r.people, PersonMatch(inv, role)).value;
            var before := if pid in s.people.rows then s.people.rows[pid] else NewPerson(inv, role);
            var photo := UploadedPath(Get(d, PersonKeyName(role, "photo")));
            && r.people.rows[pid] == WithText(before, PersonTextOf(d, role)).(photoAssetId := r.people.rows[pid].photoAssetId)
            && (photo.None? ==> r.people.rows[pid].photoAssetId == before.photoAssetId && r.assets == s.assets)
            && (photo.Some? ==> Linked(r, r.people.rows[pid].photoAssetId, inv, SectionImage, Image,
                                       photo.value, RoleLabel(role) + " Photo"))
            && (forall id :: id in s.people.rows && id != pid ==> r.people.rows[id] == s.people.rows[id])
  {
    var (s2, pid) := WritePersonText(s, inv, d, role);
    var photo := UploadedPath(Get(d, PersonKeyName(role, "photo")));
    var r := if photo.Some? then LinkPersonPhoto(s2, inv, role, pid, photo.value) else s2;
    ConfinedRefl(s2, inv);
    ConfinedTrans(s, s2, r, inv);
    PersonAnchoredGrows(s2, r, inv, role, pid);
    AnchoredIsFirst(r.people, PersonMatch(inv, role), pid);
    r
  }

  // ---------------------------------------------------------------------------
  // Gallery

  /** `'Gallery ' . ($index + 1)`. */
  function GalleryAlt(index: nat): string {
    "Gallery " + NatToString(index + 1)
  }

  /** The item a gallery row's writes land on: the item of this invitation its
      id names, else the one `create` inserts next. */
  function GalleryTarget(s: Store, inv: nat, key: Option<nat>): nat {
    match FindGalleryItem(s, inv, key)
    case Some(id) => id
    case None => s.gallery.next
  }

  /** Find or create the gallery item, then set its position and image. */
  function PlaceGalleryItem(s: Store, inv: nat, key: Option<nat>, index: nat, asset: nat): (r: Store)
    requires s.Valid()
    ensures r.Valid() && Confined(s, r, inv)
    ensures r == s.(gallery := r.gallery)
    ensures var g := GalleryTarget(s, inv, key);
            && g in r.gallery.rows
            && r.gallery.rows[g] == GalleryItem(inv, index + 1, asset)
            && (FindGalleryItem(s, inv, key).Some? ==> r.gallery.rows.Keys == s.gallery.rows.Keys)
            && (FindGalleryItem(s, inv, key).None? ==> g !in s.gallery.rows && r.gallery.rows.Keys == s.gallery.rows.Keys + {g})
            && (forall id :: id in s.gallery.rows && id != g ==> r.gallery.rows[id] == s.gallery.rows[id])
  {
    var (s1, g) := EnsureGalleryItem(s, inv, key, index + 1, asset);
    var r := Apply(s1, SetGalleryItem(g, index + 1, asset));
    EnsureGalleryConfined(s, inv, key, index, asset);
    ApplyConfined(s1, SetGalleryItem(g, index + 1, asset), inv);
    ConfinedTrans(s, s1, r, inv);
    r
  }

  lemma EnsureGalleryConfined(s: Store, inv: nat, key: Option<nat>, index: nat, asset: nat)
    requires s.Valid()
    ensures Confined(s, EnsureGalleryItem(s, inv, key, index + 1, asset).0, inv)
  {
    if FindGalleryItem(s, inv, key).Some? {
      ConfinedRefl(s, inv);
    } else {
      CreateConfined(s, InsertGalleryItem(GalleryItem(inv, index + 1, asset)), inv);
    }
  }

  /** One gallery row with a truthy image: upsert the image, find or create
      the item, then set its position and image. */
  function LinkGalleryItem(s: Store, inv: nat, key: Option<nat>, index: nat, path: string): (r: Store)
    requires s.Valid()
    ensures r.Valid() && Confined(s, r, inv)
    ensures r == s.(assets := r.assets, gallery := r.gallery)
    ensures UniqueAssetKeys(s.assets) ==> UniqueAssetKeys(r.assets)
    ensures var g := GalleryTarget(s, inv, key);
            && g in r.gallery.rows
            && r.gallery.rows[g].invitation == inv
            && r.gallery.rows[g].sortOrder == index + 1
            && Linked(r, Some(r.gallery.rows[g].imageAssetId), inv, GalleryImage, Image, path, GalleryAlt(index))
            && (FindGalleryItem(s, inv, key).Some? ==> r.gallery.rows.Keys == s.gallery.rows.Keys)
            && (FindGalleryItem(s, inv, key).None? ==> g !in s.gallery.rows && r.gallery.rows.Keys == s.gallery.rows.Keys + {g})
            && (forall id :: id in s.gallery.rows && id != g ==> r.gallery.rows[id] == s.gallery.rows[id])
  {
    var (s1, a) := UpsertAsset(s, inv, GalleryImage, Image, path, GalleryAlt(index));
    var r := PlaceGalleryItem(s1, inv, key, index, a);
    UpsertAssetConfined(s, inv, GalleryImage, Image, path, GalleryAlt(index));
    UpsertAssetKeepsUnique(s, inv, GalleryImage, Image, path, GalleryAlt(index));
    ConfinedTrans(s, s1, r, inv);
    r
  }

  /** One iteration of the gallery loop: rows without a truthy image are skipped. */
  function SyncGalleryRow(s: Store, inv: nat, row: Value, index: nat): (r: Store)
    requires s.Valid()
    ensures r.Valid() && Confined(s, r, inv)
    ensures r == s.(assets := r.assets, gallery := r.gallery)
    ensures UniqueAssetKeys(s.assets) ==> UniqueAssetKeys(r.assets)
    ensures UploadedPath(RowField(row, "image")).None? ==> r == s
  {
    match UploadedPath(RowField(row, "image"))
    case None => ConfinedRefl(s, inv); s
    case Some(p) => LinkGalleryItem(s, inv, RowKey(RowField(row, "id")), index, p)
  }

  /** Some row from `i` on has a truthy image and names item `id`. */
  ghost predicate MentionsGalleryItem(rows: seq<Value>, i: nat, id: nat) {
    exists k :: i <= k < |rows| && UploadedPath(RowField(rows[k], "image")).Some? && RowKey(RowField(rows[k], "id")) == Some(id)
  }

  /** The gallery loop from row `i` on. Items no processed row names keep
      every column; nothing is deleted. */
  function SyncGalleryFrom(s: Store, inv: nat, rows: seq<Value>, i: nat): (r: Store)
    requires s.Valid() && i <= |rows|
    ensures r.Valid() && Confined(s, r, inv)
    ensures r == s.(assets := r.assets, gallery := r.gallery)
    ensures UniqueAssetKeys(s.assets) ==> UniqueAssetKeys(r.assets)
    ensures forall id :: id in s.gallery.rows && !MentionsGalleryItem(rows, i, id) ==> r.gallery.rows[id] == s.gallery.rows[id]
    decreases |rows| - i
  {
    if i == |rows| then
      ConfinedRefl(s, inv);
      s
    else
      var s1 := SyncGalleryRow(s, inv, rows[i], i);
      var r := SyncGalleryFrom(s1, inv, rows, i + 1);
      ConfinedTrans(s, s1, r, inv);
      GalleryRowFrame(s, inv, rows, i);
      r
  }

  lemma GalleryRowFrame(s: Store, inv: nat, rows: seq<Value>, i: nat)
    requires s.Valid() && i < |rows|
    ensures forall id :: id in s.gallery.rows && !MentionsGalleryItem(rows, i, id) ==>
              !MentionsGalleryItem(rows, i + 1, id)
              && SyncGalleryRow(s, inv, rows[i], i).gallery.rows[id] == s.gallery.rows[id]
  {
    forall id | id in s.gallery.rows && !MentionsGalleryItem(rows, i, id)
      ensures !MentionsGalleryItem(rows, i + 1, id)
      ensures SyncGalleryRow(s, inv, rows[i], i).gallery.rows[id] == s.gallery.rows[id]
    {
      var path := UploadedPath(RowField(rows[i], "image"));
      if path.Some? {
        var key := RowKey(RowField(rows[i], "id"));
        if FindGalleryItem(s, inv, key).Some? && id == GalleryTarget(s, inv, key) {
          assert MentionsGalleryItem(rows, i, id);
        }
      }
    }
  }

  /** `syncGallery`: the `galleryItems` rows in submission order. */
  function SyncGallery(s: Store, inv: nat, d: map<string, Value>): (r: Store)
    requires s.Valid()
    ensures r.Valid() && Confined(s, r, inv)
    ensures r == s.(assets := r.assets, gallery := r.gallery)
    ensures UniqueAssetKeys(s.assets) ==> UniqueAssetKeys(r.assets)
    ensures forall id :: id in s.gallery.rows && !MentionsGalleryItem(RowsOf(Get(d, "galleryItems")), 0, id) ==>
              r.gallery.rows[id] == s.gallery.rows[id]
  {
    SyncGalleryFrom(s, inv, RowsOf(Get(d, "galleryItems")), 0)
  }

  // ---------------------------------------------------------------------------
  // Gift accounts

  function GiftTarget(s: Store, inv: nat, key: Option<nat>): nat {
    match FindGiftAccount(s, inv, key)
    case Some(id) => id
    case None => s.giftAccounts.next
  }

  /** The account row `create(['sort_order' => $index + 1])` inserts. */
  function NewGiftAccountRow(inv: nat, index: nat): GiftAccount {
    GiftAccount(inv, index + 1, None, None, None, None)
  }

  /** Upsert the QR image and link it from account `g`. */
  function SetGiftQrAsset(s: Store, inv: nat, g: nat, path: string): (r: Store)
    requires s.Valid() && g in s.giftAccounts.rows && s.giftAccounts.rows[g].invitation == inv
    ensures r.Valid() && Confined(s, r, inv)
    ensures r == s.(assets := r.assets, giftAccounts := r.giftAccounts)
    ensures UniqueAssetKeys(s.assets) ==> UniqueAssetKeys(r.assets)
    ensures r.giftAccounts.rows.Keys == s.giftAccounts.rows.Keys
    ensures r.giftAccounts.rows[g] == s.giftAccounts.rows[g].(qrAssetId := r.giftAccounts.rows[g].qrAssetId)
    ensures Linked(r, r.giftAccounts.rows[g].qrAssetId, inv, OtherCategory, Image, path, "Gift QR")
    ensures forall id :: id in s.giftAccounts.rows && id != g ==> r.giftAccounts.rows[id] == s.giftAccounts.rows[id]
  {
    var (s1, a) := UpsertAsset(s, inv, OtherCategory, Image, path, "Gift QR");
    GiftQrLinked(s, inv, g, path);
    Apply(s1, SetGiftQr(g, a))
  }

  lemma GiftQrLinked(s: Store, inv: nat, g: nat, path: string)
    requires s.Valid() && g in s.giftAccounts.rows && s.giftAccounts.rows[g].invitation == inv
    ensures var (s1, a) := UpsertAsset(s, inv, OtherCategory, Image, path, "Gift QR");
            var r := Apply(s1, SetGiftQr(g, a));
            && r.Valid() && Confined(s, r, inv)
            && r == s.(assets := r.assets, giftAccounts := r.giftAccounts)
            && (UniqueAssetKeys(s.assets) ==> UniqueAssetKeys(r.assets))
            && r.giftAccounts.rows.Keys == s.giftAccounts.rows.Keys
            && r.giftAccounts.rows[g] == s.giftAccounts.rows[g].(qrAssetId := Some(a))
            && (forall id :: id in s.giftAccounts.rows && id != g ==> r.giftAccounts.rows[id] == s.giftAccounts.rows[id])
            && Linked(r, Some(a), inv, OtherCategory, Image, path, "Gift QR")
  {
    var (s1, a) := UpsertAsset(s, inv, OtherCategory, Image, path, "Gift QR");
    var r := Apply(s1, SetGiftQr(g, a));
    UpsertAssetConfined(s, inv, OtherCategory, Image, path, "Gift QR");
    UpsertAssetKeepsUnique(s, inv, OtherCategory, Image, path, "Gift QR");
    GiftQrShape(s, s1, g, a);
    ApplyConfined(s1, SetGiftQr(g, a), inv);
    ConfinedTrans(s, s1, r, inv);
    AssetAnchoredGrows(s1, r, inv, OtherCategory, Image, path, a);
  }

  /** Linking a QR image after an asset upsert touches only the assets and
      the one account row. */
  lemma GiftQrShape(s: Store, s1: Store, g: nat, a: nat)
    requires s1 == s.(assets := s1.assets) && g in s.giftAccounts.rows
    ensures var r := Apply(s1, SetGiftQr(g, a));
            && r == s.(assets := r.assets, giftAccounts := r.giftAccounts)
            && r.giftAccounts.rows.Keys == s.giftAccounts.rows.Keys
            && r.giftAccounts.rows[g] == s.giftAccounts.rows[g].(qrAssetId := Some(a))
            && (forall id :: id in s.giftAccounts.rows && id != g ==> r.giftAccounts.rows[id] == s.giftAccounts.rows[id])
            && r.assets == s1.assets
  {
  }

  /** One gift row with a truthy QR: find or create the account, upsert the
      QR image, link it. A found account keeps its position and bank fields. */
  function LinkGiftQr(s: Store, inv: nat, key: Option<nat>, index: nat, path: string): (r: Store)
    requires s.Valid()
    ensures r.Valid() && Confined(s, r, inv)
    ensures r == s.(assets := r.assets, giftAccounts := r.giftAccounts)
    ensures UniqueAssetKeys(s.assets) ==> UniqueAssetKeys(r.assets)
    ensures var g := GiftTarget(s, inv, key);
            var before := if FindGiftAccount(s, inv, key).Some? then s.giftAccounts.rows[g] else NewGiftAccountRow(inv, index);
            && g in r.giftAccounts.rows
            && r.giftAccounts.rows[g] == before.(qrAssetId := r.giftAccounts.rows[g].qrAssetId)
            && Linked(r, r.giftAccounts.rows[g].qrAssetId, inv, OtherCategory, Image, path, "Gift QR")
            && (FindGiftAccount(s, inv, key).Some? ==> r.giftAccounts.rows.Keys == s.giftAccounts.rows.Keys)
            && (FindGiftAccount(s, inv, key).None? ==>
                  g !in s.giftAccounts.rows && r.giftAccounts.rows.Keys == s.giftAccounts.rows.Keys + {g})
            && (forall id :: id in s.giftAccounts.rows && id != g ==> r.giftAccounts.rows[id] == s.giftAccounts.rows[id])
  {
    var (s1, g) := EnsureGiftAccount(s, inv, key, index + 1);
    var r := SetGiftQrAsset(s1, inv, g, path);
    EnsureGiftConfined(s, inv, key, index);
    ConfinedTrans(s, s1, r, inv);
    r
  }

  lemma EnsureGiftConfined(s: Store, inv: nat, key: Option<nat>, index: nat)
    requires s.Valid()
    ensures Confined(s, EnsureGiftAccount(s, inv, key, index + 1).0, inv)
  {
    if FindGiftAccount(s, inv, key).Some? {
      ConfinedRefl(s, inv);
    } else {
      CreateConfined(s, InsertGiftAccount(NewGiftAccountRow(inv, index)), inv);
    }
  }

  function SyncGiftRow(s: Store, inv: nat, row: Value, index: nat): (r: Store)
    requires s.Valid()
    ensures r.Valid() && Confined(s, r, inv)
    ensures r == s.(assets := r.assets, giftAccounts := r.giftAccounts)
    ensures UniqueAssetKeys(s.assets) ==> UniqueAssetKeys(r.assets)
    ensures UploadedPath(RowField(row, "qr_image")).None? ==> r == s
  {
    match UploadedPath(RowField(row, "qr_image"))
    case None => ConfinedRefl(s, inv); s
    case Some(p) => LinkGiftQr(s, inv, RowKey(RowField(row, "id")), index, p)
  }

  ghost predicate MentionsGiftAccount(rows: seq<Value>, i: nat, id: nat) {
    exists k :: i <= k < |rows| && UploadedPath(RowField(rows[k], "qr_image")).Some? && RowKey(RowField(rows[k], "id")) == Some(id)
  }

  function SyncGiftsFrom(s: Store, inv: nat, rows: seq<Value>, i: nat): (r: Store)
    requires s.Valid() && i <= |rows|
    ensures r.Valid() && Confined(s, r, inv)
    ensures r == s.(assets := r.assets, giftAccounts := r.giftAccounts)
    ensures UniqueAssetKeys(s.assets) ==> UniqueAssetKeys(r.assets)
    ensures forall id :: id in s.giftAccounts.rows && !MentionsGiftAccount(rows, i, id) ==>
              r.giftAccounts.rows[id] == s.giftAccounts.rows[id]
    decreases |rows| - i
  {
    if i == |rows| then
      ConfinedRefl(s, inv);
      s
    else
      var s1 := SyncGiftRow(s, inv, rows[i], i);
      var r := SyncGiftsFrom(s1, inv, rows, i + 1);
      ConfinedTrans(s, s1, r, inv);
      GiftRowFrame(s, inv, rows, i);
      r
  }

  lemma GiftRowFrame(s: Store, inv: nat, rows: seq<Value>, i: nat)
    requires s.Valid() && i < |rows|
    ensures forall id :: id in s.giftAccounts.rows && !MentionsGiftAccount(rows, i, id) ==>
              !MentionsGiftAccount(rows, i + 1, id)
              && SyncGiftRow(s, inv, rows[i], i).giftAccounts.rows[id] == s.giftAccounts.rows[id]
  {
    forall id | id in s.giftAccounts.rows && !MentionsGiftAccount(rows, i, id)
      ensures !MentionsGiftAccount(rows, i + 1, id)
      ensures SyncGiftRow(s, inv, rows[i], i).giftAccounts.rows[id] == s.giftAccounts.rows[id]
    {
      var path := UploadedPath(RowField(rows[i], "qr_image"));
      if path.Some? {
        var key := RowKey(RowField(rows[i], "id"));
        if FindGiftAccount(s, inv, key).Some? && id == GiftTarget(s, inv, key) {
          assert MentionsGiftAccount(rows, i, id);
        }
      }
    }
  }

  /** `syncGiftAccounts`: the `giftAccounts` rows in submission order. */
  function SyncGiftAccounts(s: Store, inv: nat, d: map<string, Value>): (r: Store)
    requires s.Valid()
    ensures r.Valid() && Confined(s, r, inv)
    ensures r == s.(assets := r.assets, giftAccounts := r.giftAccounts)
    ensures UniqueAssetKeys(s.assets) ==> UniqueAssetKeys(r.assets)
    ensures forall id :: id in s.giftAccounts.rows && !MentionsGiftAccount(RowsOf(Get(d, "giftAccounts")), 0, id) ==>
              r.giftAccounts.rows[id] == s.giftAccounts.rows[id]
  {
    SyncGiftsFrom(s, inv, RowsOf(Get(d, "giftAccounts")), 0)
  }

  // ---------------------------------------------------------------------------
  // Music and the whole reconciliation

  /** `syncMusic`: a truthy `music_audio` is upserted as a music asset and
      linked from the music row, created when missing; the playback flags stay. */
  function SyncMusic(s: Store, inv: nat, d: map<string, Value>): (r: Store)
    requires s.Valid()
    ensures r.Valid() && Confined(s, r, inv)
    ensures r == s.(assets := r.assets, music := r.music)
    ensures UniqueAssetKeys(s.assets) ==> UniqueAssetKeys(r.assets)
    ensures UploadedPath(Get(d, "music_audio")).None? ==> r == s
    ensures UploadedPath(Get(d, "music_audio")).Some? ==>
              && inv in r.music
              && Linked(r, r.music[inv].audioAssetId, inv, MusicCategory, Audio,
                        UploadedPath(Get(d, "music_audio")).value, "Invitation Music")
              && (inv in s.music ==> r.music[inv] == s.music[inv].(audioAssetId := r.music[inv].audioAssetId))
              && (inv !in s.music ==> r.music[inv] == EMPTY_MUSIC.(audioAssetId := r.music[inv].audioAssetId))
  {
    match UploadedPath(Get(d, "music_audio"))
    case None => ConfinedRefl(s, inv); s
    case Some(p) =>
      var (s1, a) := UpsertAsset(s, inv, MusicCategory, Audio, p, "Invitation Music");
      var s2 := EnsureMusic(s1, inv);
      var r := Apply(s2, SetMusicAudio(inv, a));
      UpsertAssetConfined(s, inv, MusicCategory, Audio, p, "Invitation Music");
      UpsertAssetKeepsUnique(s, inv, MusicCategory, Audio, p, "Invitation Music");
      CreateConfined(s1, InsertMusic(inv), inv);
      GrowsRefl(s1);
      ApplyConfined(s2, SetMusicAudio(inv, a), inv);
      ConfinedTrans(s1, s2, r, inv);
      ConfinedTrans(s, s1, r, inv);
      AssetAnchoredGrows(s1, r, inv, MusicCategory, Audio, p, a);
      r
  }

  /** `syncInvitationAssets`: couple image, bride, groom, gallery, gift
      accounts and music, in that order. Only rows of this invitation change,
      nothing is deleted, and no two assets end up sharing a key. */
  function SyncAll(s: Store, inv: nat, d: map<string, Value>): (r: Store)
    requires s.Valid()
    ensures r.Valid() && Confined(s, r, inv)
    ensures r == s.(assets := r.assets, couples := r.couples, people := r.people, gallery := r.gallery,
                    giftAccounts := r.giftAccounts, music := r.music)
    ensures UniqueAssetKeys(s.assets) ==> UniqueAssetKeys(r.assets)
  {
    var s1 := SyncCoupleImage(s, inv, d);
    var s2 := SyncPerson(s1, inv, d, Bride);
    var s3 := SyncPerson(s2, inv, d, Groom);
    var s4 := SyncGallery(s3, inv, d);
    var s5 := SyncGiftAccounts(s4, inv, d);
    var r := SyncMusic(s5, inv, d);
    ConfinedTrans(s, s1, s2, inv);
    ConfinedTrans(s, s2, s3, inv);
    ConfinedTrans(s, s3, s4, inv);
    ConfinedTrans(s, s4, s5, inv);
    ConfinedTrans(s, s5, r, inv);
    r
  }
}
