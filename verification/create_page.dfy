/** The create page (`CreateInvitation`): the raw form state is kept before
    the upload keys are stripped, the invitation is created from what remains,
    and the reconciler runs afterwards, on the new record, from the raw state. */
module CreatePage {
  import opened Wrappers
  import opened Php
  import opened Tables
  import opened Schema
  import opened InvitationModel
  import opened SyncInvitationAssets
  import opened SyncIdempotence
  import opened PayloadCache
  import opened InvitationRow
  import opened EditPage
  import opened UploadSlots

  /** `create()`: `mutateFormDataBeforeCreate`, `Invitation::create` with its
      `created` and `saved` hooks, then `afterCreate`. Returns the new id. */
  function CreateSave(s: Store, cache: Cache, state: map<string, Value>): (r: Result<(Outcome, nat)>)
    requires s.Valid() && ChildrenOwned(s)
    ensures r.Ok? <==> InsertInvitation(s, StripInvitationFormData(state)).Ok?
    ensures r.Err? ==> r.error == Rejected
    ensures r.Ok? ==> var (o, id) := r.value;
                      var (x, xid) := InsertInvitation(s, StripInvitationFormData(state)).value;
                      && id == xid && id !in s.invitations.rows && id in o.store.invitations.rows
                      && o.store.invitations.rows[id] == NewInvitationRow(StripInvitationFormData(state)).value
                      && o.store.Valid() && Confined(x, o.store, id)
                      && o.store == SyncAll(x, id, state)
                      && CacheKey(id) !in o.cache
  {
    match InsertInvitation(s, StripInvitationFormData(state))
    case Err(e) => Err(e)
    case Ok((x, id)) =>
      var r := SyncAll(x, id, state);
      Ok((Outcome(r, OnModelEvent(cache, id, Saved)), id))
  }

  /** The number of rows from `i` on that carry a truthy image. Its ensures is
      only the bound the counting needs; `FreshGalleryCount` says what it counts. */
  function ImageRows(rows: seq<Value>, i: nat): (n: nat)
    requires i <= |rows|
    ensures n <= |rows| - i
    decreases |rows| - i
  {
    if i == |rows| then 0
    else (if UploadedPath(RowField(rows[i], "image")).Some? then 1 else 0) + ImageRows(rows, i + 1)
  }

  /** No row from `i` on carries an id. */
  predicate NoRowIds(rows: seq<Value>, i: nat) {
    forall k :: i <= k < |rows| ==> RowKey(RowField(rows[k], "id")).None?
  }

  /** One gallery row without an id: with a truthy image it adds one new item
      of the invitation at its position plus one; without one nothing changes. */
  lemma FreshGalleryRow(x: Store, inv: nat, row: Value, i: nat)
    requires x.Valid() && RowKey(RowField(row, "id")).None?
    ensures var x1 := SyncGalleryRow(x, inv, row, i);
            && (UploadedPath(RowField(row, "image")).None? ==> x1 == x)
            && (UploadedPath(RowField(row, "image")).Some? ==>
                  var g := GalleryTarget(x, inv, None);
                  && g !in x.gallery.rows && x1.gallery.rows.Keys == x.gallery.rows.Keys + {g}
                  && x1.gallery.rows[g].invitation == inv && x1.gallery.rows[g].sortOrder == i + 1)
  {
  }

  /** Adding one fresh key to the old keys removes it from what is new. */
  lemma NewKeysStep(a: set<nat>, x: set<nat>, x1: set<nat>, g: nat)
    requires x1 == x + {g} && g !in x && x1 <= a
    ensures |a - x| == |a - x1| + 1
  {
    assert a - x == (a - x1) + {g};
  }

  /** Gallery rows without ids add one item per row with a truthy image. */
  lemma {:induction false} FreshGalleryCount(x: Store, inv: nat, rows: seq<Value>, i: nat)
    requires x.Valid() && i <= |rows| && NoRowIds(rows, i)
    ensures var r := SyncGalleryFrom(x, inv, rows, i);
            && x.gallery.rows.Keys <= r.gallery.rows.Keys
            && |r.gallery.rows.Keys - x.gallery.rows.Keys| == ImageRows(rows, i)
    decreases |rows| - i
  {
    if i < |rows| {
      var x1 := SyncGalleryRow(x, inv, rows[i], i);
      var r := SyncGalleryFrom(x1, inv, rows, i + 1);
      assert r == SyncGalleryFrom(x, inv, rows, i);
      FreshGalleryRow(x, inv, rows[i], i);
      FreshGalleryCount(x1, inv, rows, i + 1);
      if UploadedPath(RowField(rows[i], "image")).Some? {
        NewKeysStep(r.gallery.rows.Keys, x.gallery.rows.Keys, x1.gallery.rows.Keys, GalleryTarget(x, inv, None));
      }
    }
  }

  /** Each gallery row without an id and with a truthy image has a new item of
      the invitation at its position plus one. */
  lemma {:induction false} FreshGalleryPositions(x: Store, inv: nat, rows: seq<Value>, i: nat)
    requires x.Valid() && i <= |rows| && NoRowIds(rows, i)
    ensures var r := SyncGalleryFrom(x, inv, rows, i);
            forall k :: i <= k < |rows| && UploadedPath(RowField(rows[k], "image")).Some? ==>
              exists g :: g in r.gallery.rows && g !in x.gallery.rows
                          && r.gallery.rows[g].invitation == inv && r.gallery.rows[g].sortOrder == k + 1
    decreases |rows| - i
  {
    if i < |rows| {
      var x1 := SyncGalleryRow(x, inv, rows[i], i);
      var r := SyncGalleryFrom(x1, inv, rows, i + 1);
      assert r == SyncGalleryFrom(x, inv, rows, i);
      FreshGalleryRow(x, inv, rows[i], i);
      FreshGalleryPositions(x1, inv, rows, i + 1);
      assert x.gallery.rows.Keys <= x1.gallery.rows.Keys;
      if UploadedPath(RowField(rows[i], "image")).Some? {
        var g := GalleryTarget(x, inv, None);
        assert !MentionsGalleryItem(rows, i + 1, g);
        assert r.gallery.rows[g] == x1.gallery.rows[g];
      }
    }
  }

  /** Creating an invitation whose gallery rows carry no ids adds exactly one
      gallery item per row with a truthy image, each of the new invitation and
      at its row's position plus one. */
  lemma CreateAddsGalleryItems(s: Store, cache: Cache, state: map<string, Value>)
    requires s.Valid() && ChildrenOwned(s) && CreateSave(s, cache, state).Ok?
    requires NoRowIds(RowsOf(Get(state, "galleryItems")), 0)
    ensures var (o, id) := CreateSave(s, cache, state).value;
            var rows := RowsOf(Get(state, "galleryItems"));
            && s.gallery.rows.Keys <= o.store.gallery.rows.Keys
            && |o.store.gallery.rows.Keys - s.gallery.rows.Keys| == ImageRows(rows, 0)
            && forall k :: 0 <= k < |rows| && UploadedPath(RowField(rows[k], "image")).Some? ==>
                 exists g :: g in o.store.gallery.rows && g !in s.gallery.rows
                             && o.store.gallery.rows[g].invitation == id && o.store.gallery.rows[g].sortOrder == k + 1
  {
    var (x, id) := InsertInvitation(s, StripInvitationFormData(state)).value;
    assert x.gallery == s.gallery;
    var x3 := AfterGroom(x, id, state);
    assert x3.gallery == x.gallery;
    FreshGalleryCount(x3, id, RowsOf(Get(state, "galleryItems")), 0);
    FreshGalleryPositions(x3, id, RowsOf(Get(state, "galleryItems")), 0);
    SyncAllStages(x, id, state);
    assert SyncAll(x, id, state).gallery == AfterGallery(x, id, state).gallery;
  }

  /** A row that passes the image rule `required(fn (Get $get) => blank($get('id')))`
      has no id only if it carries an upload; for a string image other than
      "0" that upload is a path the reconciler acts on. */
  lemma AcceptedFreshRowHasPath(row: Value)
    requires Blank(RowField(row, "id"))
    requires RowField(row, "image").VStr? && RowField(row, "image").s != "0"
    requires GalleryRowAccepted(row, Single(RowField(row, "image")))
    ensures RowKey(RowField(row, "id")).None?
    ensures UploadedPath(RowField(row, "image")).Some?
  {
  }

  /** When every row from `i` on carries a path, each of them counts. */
  lemma {:induction false} ImageRowsAll(rows: seq<Value>, i: nat)
    requires i <= |rows|
    requires forall k :: i <= k < |rows| ==> UploadedPath(RowField(rows[k], "image")).Some?
    ensures ImageRows(rows, i) == |rows| - i
    decreases |rows| - i
  {
    if i < |rows| {
      ImageRowsAll(rows, i + 1);
    }
  }

  /** New rows that pass the image rule: each names no item and carries a
      string image. The hidden `image_asset_id` rule is not part of it; see
      `UploadSlots.NewGalleryRowRefusedOnCreate`. */
  predicate AcceptedFreshRows(rows: seq<Value>) {
    forall k :: 0 <= k < |rows| ==>
      && Blank(RowField(rows[k], "id")) && RowField(rows[k], "image").VStr?
      && GalleryRowAccepted(rows[k], Single(RowField(rows[k], "image")))
  }

  /** New rows that pass the image rule name no item. */
  lemma AcceptedRowsNoIds(rows: seq<Value>)
    requires AcceptedFreshRows(rows)
    ensures NoRowIds(rows, 0)
  {
    forall k | 0 <= k < |rows| ensures RowKey(RowField(rows[k], "id")).None? {
      assert Blank(RowField(rows[k], "id"));
    }
  }

  /** In new rows that pass the image rule every image other than "0" is a path. */
  lemma AcceptedRowsHavePaths(rows: seq<Value>)
    requires AcceptedFreshRows(rows)
    ensures forall k :: 0 <= k < |rows| && RowField(rows[k], "image") != VStr("0") ==>
              UploadedPath(RowField(rows[k], "image")).Some?
  {
    forall k | 0 <= k < |rows| && RowField(rows[k], "image") != VStr("0")
      ensures UploadedPath(RowField(rows[k], "image")).Some?
    {
      AcceptedFreshRowHasPath(rows[k]);
    }
  }

  /** What the reconciler's count and positions say about new rows that pass the image rule. */
  lemma AcceptedItems(rows: seq<Value>, before: set<nat>, after: map<nat, GalleryItem>, id: nat)
    requires AcceptedFreshRows(rows)
    requires before <= after.Keys && |after.Keys - before| == ImageRows(rows, 0)
    requires forall k :: 0 <= k < |rows| && UploadedPath(RowField(rows[k], "image")).Some? ==>
               exists g :: g in after && g !in before && after[g].invitation == id && after[g].sortOrder == k + 1
    ensures forall k :: 0 <= k < |rows| && RowField(rows[k], "image") != VStr("0") ==>
              exists g :: g in after && g !in before && after[g].invitation == id && after[g].sortOrder == k + 1
    ensures (forall k :: 0 <= k < |rows| ==> RowField(rows[k], "image") != VStr("0")) ==>
              |after.Keys - before| == |rows|
  {
    AcceptedRowsHavePaths(rows);
    if forall k :: 0 <= k < |rows| ==> RowField(rows[k], "image") != VStr("0") {
      ImageRowsAll(rows, 0);
    }
  }

  /** Creating an invitation from new gallery rows that pass the image rule: every row whose image is a string other than "0"
      becomes a new item of the invitation at its position plus one, and when
      no image is "0" the gallery grows by exactly one item per row. */
  lemma CreateAddsAcceptedRows(s: Store, cache: Cache, state: map<string, Value>)
    requires s.Valid() && ChildrenOwned(s) && CreateSave(s, cache, state).Ok?
    requires AcceptedFreshRows(RowsOf(Get(state, "galleryItems")))
    ensures var (o, id) := CreateSave(s, cache, state).value;
            var rows := RowsOf(Get(state, "galleryItems"));
            && (forall k :: 0 <= k < |rows| && RowField(rows[k], "image") != VStr("0") ==>
                  exists g :: g in o.store.gallery.rows && g !in s.gallery.rows
                              && o.store.gallery.rows[g].invitation == id && o.store.gallery.rows[g].sortOrder == k + 1)
            && ((forall k :: 0 <= k < |rows| ==> RowField(rows[k], "image") != VStr("0")) ==>
                  |o.store.gallery.rows.Keys - s.gallery.rows.Keys| == |rows|)
  {
    var rows := RowsOf(Get(state, "galleryItems"));
    var (o, id) := CreateSave(s, cache, state).value;
    AcceptedRowsNoIds(rows);
    CreateAddsGalleryItems(s, cache, state);
    AcceptedItems(rows, s.gallery.rows.Keys, o.store.gallery.rows, id);
  }
}
