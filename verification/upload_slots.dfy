/** The upload widgets of the invitation edit form: what happens when a file
    field changes (`afterStateUpdated`), how it is filled from a saved record
    (`afterStateHydrated`), and the `Arr::except` mutators that keep the upload
    field out of the relationship's row. */
module UploadSlots {
  import opened Wrappers
  import opened Php
  import opened Tables
  import opened Schema
  import SyncInvitationAssets

  /** The four upload fields that link to an asset. */
  datatype Slot = CoupleSlot | GallerySlot | GiftQrSlot | MusicSlot

  /** The form field holding the uploaded file. */
  function UploadKey(slot: Slot): string {
    match slot
    case CoupleSlot => "couple_image"
    case GallerySlot => "image"
    case GiftQrSlot => "qr_image"
    case MusicSlot => "music_audio"
  }

  /** The column a new asset is created with. */
  function SlotKind(slot: Slot): Kind {
    if slot == MusicSlot then Audio else Image
  }

  function SlotCategory(slot: Slot): Category {
    match slot
    case CoupleSlot => SectionImage
    case GallerySlot => GalleryImage
    case GiftQrSlot => OtherCategory
    case MusicSlot => MusicCategory
  }

  function SlotAlt(slot: Slot): string {
    match slot
    case CoupleSlot => "Couple Image"
    case GallerySlot => "Gallery Image"
    case GiftQrSlot => "Gift QR"
    case MusicSlot => "Invitation Music"
  }

  /** Clearing the field clears the link, except for gallery items, whose
      `image_asset_id` is required and is left as it was. */
  predicate ClearsOnBlank(slot: Slot) {
    slot != GallerySlot
  }

  /** A value that is not a PHP array. */
  type Scalar = v: Value | !v.VList? && !v.VRecord? witness VNull

  /** The state of a file-upload field: a single non-array value, or an array
      state given by its values in the widget's order (its keys are not read),
      which `reset` reads from the front. */
  datatype UploadState = Single(v: Scalar) | Files(entries: seq<Value>)

  /** `blank($state)`. */
  predicate BlankState(st: UploadState) {
    match st
    case Single(v) => Blank(v)
    case Files(fs) => |fs| == 0
  }

  /** `is_array($state) ? (reset($state) ?: null) : $state`, then the
      `!$path || !is_string($path)` guard: the stored path, if there is one. */
  function StatePath(st: UploadState): (r: Option<string>)
    ensures st.Single? ==> (r.Some? <==> st.v.VStr? && TruthyString(st.v.s))
    ensures st.Files? ==> (r.Some? <==> |st.entries| > 0 && st.entries[0].VStr? && TruthyString(st.entries[0].s))
    ensures r.Some? ==> TruthyString(r.value)
  {
    var v := match st
      case Single(v) => v
      case Files(fs) => if |fs| > 0 && Truthy(fs[0]) then fs[0] else VNull;
    if v.VStr? && TruthyString(v.s) then Some(v.s) else None
  }

  /** The `firstOrCreate` key of the form closures: this invitation, storage
      "local", disk "public", this path. Kind, category and alt text are not
      part of it. */
  function LocalMatch(inv: nat, path: string): Asset -> bool {
    (a: Asset) => a.invitation == inv && a.storage == STORAGE_LOCAL && a.disk == Some(DISK_PUBLIC) && a.path == Some(path)
  }

  /** The asset `firstOrCreate` inserts for a slot when none matches. */
  function SlotAsset(slot: Slot, inv: nat, path: string): (a: Asset)
    ensures LocalMatch(inv, path)(a)
  {
    Asset(inv, SlotKind(slot), SlotCategory(slot), STORAGE_LOCAL, None, Some(DISK_PUBLIC), Some(path), Some(SlotAlt(slot)))
  }

  /** `Asset::firstOrCreate([...], [...])`: the first match, untouched, or a
      new row with the slot's defaults. */
  function FirstOrCreateAsset(s: Store, slot: Slot, inv: nat, path: string): (r: (Store, nat))
    requires s.Valid()
    ensures r.0.Valid() && r.0 == s.(assets := r.0.assets)
    ensures r.1 in r.0.assets.rows && LocalMatch(inv, path)(r.0.assets.rows[r.1])
    ensures First(r.0.assets, LocalMatch(inv, path)) == Some(r.1)
    ensures First(s.assets, LocalMatch(inv, path)).Some? ==> r.0 == s
    ensures First(s.assets, LocalMatch(inv, path)).None? ==>
              && r.1 == s.assets.next
              && r.0.assets.rows == s.assets.rows[r.1 := SlotAsset(slot, inv, path)]
  {
    match First(s.assets, LocalMatch(inv, path))
    case Some(id) => (s, id)
    case None =>
      var (t, id) := s.assets.Insert(SlotAsset(slot, inv, path));
      var r := s.(assets := t);
      assert First(r.assets, LocalMatch(inv, path)) == Some(id);
      (r, id)
  }

  /** The `afterStateUpdated` closure of a slot. `record` is the id of the
      persisted invitation, if the form has one; `link` is the hidden foreign
      key field. Returns the store and the new value of that field. */
  function AfterUpload(s: Store, slot: Slot, record: Option<nat>, st: UploadState, link: Option<nat>): (r: (Store, Option<nat>))
    requires s.Valid()
    ensures r.0.Valid() && r.0 == s.(assets := r.0.assets)
    ensures BlankState(st) ==> r == (s, if ClearsOnBlank(slot) then None else link)
    ensures !BlankState(st) && (StatePath(st).None? || record.None? || record == Some(0)) ==> r == (s, link)
    ensures !BlankState(st) && StatePath(st).Some? && record.Some? && record.value != 0 ==>
              var path := StatePath(st).value;
              && r.1.Some?
              && r.1.value in r.0.assets.rows
              && LocalMatch(record.value, path)(r.0.assets.rows[r.1.value])
              && (First(s.assets, LocalMatch(record.value, path)).Some? ==> r.0 == s)
              && (First(s.assets, LocalMatch(record.value, path)).None? ==>
                    r.0.assets.rows == s.assets.rows[r.1.value := SlotAsset(slot, record.value, path)]
                    && r.1.value !in s.assets.rows)
  {
    if BlankState(st) then (s, if ClearsOnBlank(slot) then None else link)
    else match StatePath(st)
      case None => (s, link)
      case Some(path) =>
        if record.None? || record.value == 0 then (s, link)
        else
          var (r, id) := FirstOrCreateAsset(s, slot, record.value, path);
          (r, Some(id))
  }

  /** Uploading the same file again links the same asset and creates nothing. */
  lemma AfterUploadIsIdempotent(s: Store, slot: Slot, record: Option<nat>, st: UploadState, link: Option<nat>)
    requires s.Valid()
    ensures var (s1, l1) := AfterUpload(s, slot, record, st, link);
            AfterUpload(s1, slot, record, st, l1) == (s1, l1)
  {
  }

  /** The `afterStateHydrated` closure: the field shows the linked asset's
      path only when that asset is local, on the public disk, with a path. */
  function Hydrate(s: Store, link: Option<nat>, st: UploadState): (r: UploadState)
    ensures r != st ==>
              && link.Some? && link.value in s.assets.rows
              && s.assets.rows[link.value].storage == STORAGE_LOCAL
              && s.assets.rows[link.value].disk == Some(DISK_PUBLIC)
              && s.assets.rows[link.value].path.Some?
              && r == Single(VStr(s.assets.rows[link.value].path.value))
  {
    if link.None? || link.value == 0 || link.value !in s.assets.rows then st
    else
      var a := s.assets.rows[link.value];
      if a.storage == STORAGE_LOCAL && a.disk == Some(DISK_PUBLIC) && a.path.Some? && TruthyString(a.path.value)
      then Single(VStr(a.path.value))
      else st
  }

  /** No two local assets on the public disk of one invitation share a path. */
  predicate UniqueLocalPaths(t: Table<Asset>) {
    forall i, j :: i in t.rows && j in t.rows && i != j
      && t.rows[i].storage == STORAGE_LOCAL && t.rows[j].storage == STORAGE_LOCAL
      && t.rows[i].disk == Some(DISK_PUBLIC) && t.rows[j].disk == Some(DISK_PUBLIC)
      && t.rows[i].invitation == t.rows[j].invitation
      ==> t.rows[i].path != t.rows[j].path
  }

  /** Hydrating a field from a local upload of this invitation and submitting
      it unchanged links back to the same asset and creates nothing. */
  lemma HydrateRoundTrip(s: Store, slot: Slot, inv: nat, link: nat, st: UploadState)
    requires s.Valid() && UniqueLocalPaths(s.assets) && inv != 0
    requires link in s.assets.rows && s.assets.rows[link].invitation == inv
    requires s.assets.rows[link].storage == STORAGE_LOCAL && s.assets.rows[link].disk == Some(DISK_PUBLIC)
    requires s.assets.rows[link].path.Some? && TruthyString(s.assets.rows[link].path.value)
    requires Trim(s.assets.rows[link].path.value) != ""
    ensures AfterUpload(s, slot, Some(inv), Hydrate(s, Some(link), st), Some(link)) == (s, Some(link))
  {
    var path := s.assets.rows[link].path.value;
    assert Hydrate(s, Some(link), st) == Single(VStr(path));
    assert !BlankState(Single(VStr(path)));
    var f := First(s.assets, LocalMatch(inv, path));
    assert LocalMatch(inv, path)(s.assets.rows[link]);
    assert f.Some?;
    assert f.value == link;
  }

  /** The `Arr::except($data, [key])` mutator of a slot's relationship: the row
      written for the relationship never holds the upload field, and every
      other field is passed on. */
  function RelationshipData(slot: Slot, d: map<string, Value>): (r: map<string, Value>)
    ensures UploadKey(slot) !in r
    ensures r.Keys == d.Keys - {UploadKey(slot)}
    ensures forall k :: k in r ==> r[k] == d[k]
  {
    d - {UploadKey(slot)}
  }

  /** `required(fn (Get $get) => blank($get('id')))`: a gallery row that names
      no item must carry an upload. */
  predicate GalleryRowAccepted(row: Value, image: UploadState) {
    Blank(SyncInvitationAssets.RowField(row, "id")) ==> !BlankState(image)
  }

  /** The hook run once for each change of the field, in order. */
  function AfterUploads(s: Store, slot: Slot, record: Option<nat>, sts: seq<UploadState>, link: Option<nat>): (r: (Store, Option<nat>))
    requires s.Valid()
    ensures r.0.Valid() && r.0 == s.(assets := r.0.assets)
    decreases |sts|
  {
    if |sts| == 0 then (s, link)
    else
      var (s1, l1) := AfterUpload(s, slot, record, sts[0], link);
      AfterUploads(s1, slot, record, sts[1..], l1)
  }

  /** Without a saved record no upload writes anything or sets a link: the
      field's link is kept, or cleared by a blank state (never on the gallery
      slot). */
  lemma {:induction false} UploadsWithoutRecordKeepLink(s: Store, slot: Slot, sts: seq<UploadState>, link: Option<nat>)
    requires s.Valid()
    ensures var r := AfterUploads(s, slot, None, sts, link);
            && r.0 == s
            && (r.1.Some? ==> r.1 == link)
            && (slot == GallerySlot ==> r.1 == link)
    decreases |sts|
  {
    if |sts| > 0 {
      var (s1, l1) := AfterUpload(s, slot, None, sts[0], link);
      UploadsWithoutRecordKeepLink(s1, slot, sts[1..], l1);
    }
  }

  /** The gallery row's rules as written: the image rule above and the
      `required()` hidden `image_asset_id`, which holds the link. */
  predicate GalleryRowValidAsWritten(row: Value, image: UploadState, assetLink: Option<nat>) {
    GalleryRowAccepted(row, image) && assetLink.Some?
  }

  /** As written, a new gallery row never passes on a form without a saved
      record (the create page): its `image_asset_id` starts empty, and only
      the image's upload hook sets it, which returns early without a record.
      However the file is changed, the store is untouched and the row is
      refused, whatever its image. */
  lemma NewGalleryRowRefusedOnCreate(s: Store, row: Value, sts: seq<UploadState>)
    requires s.Valid()
    ensures var (s1, link) := AfterUploads(s, GallerySlot, None, sts, None);
            && s1 == s
            && forall image :: !GalleryRowValidAsWritten(row, image, link)
  {
    UploadsWithoutRecordKeepLink(s, GallerySlot, sts, None);
  }

  /** A new row with an upload passes the image rule alone, and is refused
      by the rules as written while its link is empty. */
  lemma FreshRowPassesImageRule(row: Value, image: UploadState)
    requires Blank(SyncInvitationAssets.RowField(row, "id")) && !BlankState(image)
    ensures GalleryRowAccepted(row, image)
    ensures !GalleryRowValidAsWritten(row, image, None)
  {
  }
}
