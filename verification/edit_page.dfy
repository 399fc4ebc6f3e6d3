/** The edit page (`EditInvitation`): saving strips the upload keys from the
    row's data, updates the row (whose `saved` hook forgets the cached
    payload), and then reconciles assets from the whole form state. A form
    filled from the database and saved unchanged creates no gallery item or
    gift account, keeps the people's text, and saving it again changes nothing. */
module EditPage {
  import opened Wrappers
  import opened Php
  import opened Tables
  import opened Schema
  import opened Growth
  import opened InvitationModel
  import opened SyncInvitationAssets
  import opened SyncIdempotence
  import opened PayloadCache
  import opened FormFill
  import opened InvitationRow

  /** The database and the cache after a request. */
  datatype Outcome = Outcome(store: Store, cache: Cache)

  /** `save()`: `mutateFormDataBeforeSave`, the row update with its `saved`
      hook, then `afterSave`. A refused row update ends the request before the
      reconciler runs. */
  function EditSave(s: Store, cache: Cache, inv: nat, state: map<string, Value>): (r: Result<Outcome>)
    requires s.Valid() && inv in s.invitations.rows
    ensures r.Ok? <==> UpdateInvitation(s, inv, StripInvitationFormData(state)).Ok?
    ensures r.Err? ==> r.error == Rejected
    ensures r.Ok? ==> var x := UpdateInvitation(s, inv, StripInvitationFormData(state)).value;
                      && r.value.store.Valid() && Confined(s, r.value.store, inv)
                      && r.value.store.invitations == x.invitations
                      && Takes(s.invitations.rows[inv], StripInvitationFormData(state), r.value.store.invitations.rows[inv])
                      && r.value.store == SyncAll(x, inv, state)
                      && (UniqueAssetKeys(s.assets) ==> UniqueAssetKeys(r.value.store.assets))
    ensures r.Ok? ==> CacheKey(inv) !in r.value.cache
                      && forall other :: other != inv && CacheKey(other) in cache ==>
                           CacheKey(other) in r.value.cache && r.value.cache[CacheKey(other)] == cache[CacheKey(other)]
  {
    match UpdateInvitation(s, inv, StripInvitationFormData(state))
    case Err(e) => Err(e)
    case Ok(x) =>
      var r := SyncAll(x, inv, state);
      assert Confined(s, x, inv) by { ConfinedRefl(s, inv); }
      ConfinedTrans(s, x, r, inv);
      Ok(Outcome(r, OnModelEvent(cache, inv, Saved)))
  }

  /** The keys the reconciler reads from the form state never reach the row. */
  lemma UploadKeysNeverReachRow(s: Store, inv: nat, state: map<string, Value>, k: string, v: Value)
    requires s.Valid() && inv in s.invitations.rows && k in TRANSIENT_KEYS
    ensures UpdateInvitation(s, inv, StripInvitationFormData(state[k := v]))
         == UpdateInvitation(s, inv, StripInvitationFormData(state))
  {
    assert StripInvitationFormData(state[k := v]) == StripInvitationFormData(state);
  }

  // ---------------------------------------------------------------------------
  // Rows that name existing items create nothing

  /** A gallery loop over rows that all name existing items of the invitation
      adds no item. */
  lemma {:induction false} ResolvedGalleryAddsNothing(x: Store, inv: nat, rows: seq<Value>, i: nat)
    requires x.Valid() && i <= |rows| && GalleryResolves(x, inv, rows, i)
    ensures SyncGalleryFrom(x, inv, rows, i).gallery.rows.Keys == x.gallery.rows.Keys
    decreases |rows| - i
  {
    if i < |rows| {
      var x1 := SyncGalleryRow(x, inv, rows[i], i);
      assert x1.gallery.rows.Keys == x.gallery.rows.Keys by {
        if UploadedPath(RowField(rows[i], "image")).Some? {
          assert FindGalleryItem(x, inv, RowKey(RowField(rows[i], "id"))).Some?;
        }
      }
      assert GalleryResolves(x, inv, rows, i + 1);
      GalleryResolvesGrows(x, x1, inv, rows, i + 1);
      ResolvedGalleryAddsNothing(x1, inv, rows, i + 1);
    }
  }

  /** The same for the gift-account loop. */
  lemma {:induction false} ResolvedGiftsAddNothing(x: Store, inv: nat, rows: seq<Value>, i: nat)
    requires x.Valid() && i <= |rows| && GiftsResolve(x, inv, rows, i)
    ensures SyncGiftsFrom(x, inv, rows, i).giftAccounts.rows.Keys == x.giftAccounts.rows.Keys
    decreases |rows| - i
  {
    if i < |rows| {
      var x1 := SyncGiftRow(x, inv, rows[i], i);
      assert x1.giftAccounts.rows.Keys == x.giftAccounts.rows.Keys by {
        if UploadedPath(RowField(rows[i], "qr_image")).Some? {
          assert FindGiftAccount(x, inv, RowKey(RowField(rows[i], "id"))).Some?;
        }
      }
      assert GiftsResolve(x, inv, rows, i + 1);
      GiftsResolveGrows(x, x1, inv, rows, i + 1);
      ResolvedGiftsAddNothing(x1, inv, rows, i + 1);
    }
  }

  /** Resolution reads only the gallery and gift tables. */
  lemma ResolvesOnSameRows(x: Store, y: Store, inv: nat, d: map<string, Value>)
    requires RowsResolve(x, inv, d) && y.gallery == x.gallery && y.giftAccounts == x.giftAccounts
    ensures RowsResolve(y, inv, d)
  {
    var g := RowsOf(Get(d, "galleryItems"));
    var a := RowsOf(Get(d, "giftAccounts"));
    forall k | 0 <= k < |g| && UploadedPath(RowField(g[k], "image")).Some?
      ensures FindGalleryItem(y, inv, RowKey(RowField(g[k], "id"))).Some?
    {
      assert FindGalleryItem(x, inv, RowKey(RowField(g[k], "id"))).Some?;
    }
    forall k | 0 <= k < |a| && UploadedPath(RowField(a[k], "qr_image")).Some?
      ensures FindGiftAccount(y, inv, RowKey(RowField(a[k], "id"))).Some?
    {
      assert FindGiftAccount(x, inv, RowKey(RowField(a[k], "id"))).Some?;
    }
  }

  /** A reconciliation whose gallery and gift rows all resolve adds no
      gallery item and no gift account. */
  lemma ResolvedSyncAddsNoRows(x: Store, inv: nat, d: map<string, Value>)
    requires x.Valid() && RowsResolve(x, inv, d)
    ensures SyncAll(x, inv, d).gallery.rows.Keys == x.gallery.rows.Keys
    ensures SyncAll(x, inv, d).giftAccounts.rows.Keys == x.giftAccounts.rows.Keys
  {
    var x3 := AfterGroom(x, inv, d);
    assert x3.gallery == x.gallery && x3.giftAccounts == x.giftAccounts;
    ResolvesOnSameRows(x, x3, inv, d);
    var x4 := AfterGallery(x, inv, d);
    ResolvedGalleryAddsNothing(x3, inv, RowsOf(Get(d, "galleryItems")), 0);
    assert Grows(x3, x4);
    GiftsResolveGrows(x3, x4, inv, RowsOf(Get(d, "giftAccounts")), 0);
    var x5 := AfterGifts(x, inv, d);
    ResolvedGiftsAddNothing(x4, inv, RowsOf(Get(d, "giftAccounts")), 0);
    SyncAllStages(x, inv, d);
  }

  /** Every gallery and gift row the edit fill produces names an existing row,
      also after the invitation row itself has been updated. */
  lemma EditFillResolves(s: Store, x: Store, inv: nat, d: map<string, Value>)
    requires s.Valid() && x.gallery == s.gallery && x.giftAccounts == s.giftAccounts
    ensures RowsResolve(x, inv, EditFill(s, inv, d))
  {
    var f := EditFill(s, inv, d);
    CommonFillResolves(s, inv, SetIfLocal(d, "couple_image", s.assets.rows, CoupleImageLink(s, inv)));
    assert RowsResolve(s, inv, f);
    ResolvesOnSameRows(s, x, inv, f);
  }

  /** Filling the form and saving it unchanged creates no gallery item and no
      gift account: every filled row carries the id of an existing one. */
  lemma UnchangedSaveAddsNoRows(s: Store, cache: Cache, inv: nat, d: map<string, Value>)
    requires s.Valid() && inv in s.invitations.rows
    requires EditSave(s, cache, inv, EditFill(s, inv, d)).Ok?
    ensures var r := EditSave(s, cache, inv, EditFill(s, inv, d)).value.store;
            r.gallery.rows.Keys == s.gallery.rows.Keys && r.giftAccounts.rows.Keys == s.giftAccounts.rows.Keys
  {
    var f := EditFill(s, inv, d);
    var x := UpdateInvitation(s, inv, StripInvitationFormData(f)).value;
    EditFillResolves(s, x, inv, d);
    ResolvedSyncAddsNoRows(x, inv, f);
  }

  /** Saving the filled form a second time leaves the database as the first
      save left it. */
  lemma UnchangedSaveTwice(s: Store, cache: Cache, cache2: Cache, inv: nat, d: map<string, Value>)
    requires s.Valid() && inv in s.invitations.rows
    requires EditSave(s, cache, inv, EditFill(s, inv, d)).Ok?
    ensures var r1 := EditSave(s, cache, inv, EditFill(s, inv, d)).value.store;
            var r2 := EditSave(r1, cache2, inv, EditFill(s, inv, d));
            r2.Ok? && r2.value.store == r1
  {
    var f := EditFill(s, inv, d);
    var data := StripInvitationFormData(f);
    var x := UpdateInvitation(s, inv, data).value;
    var r1 := SyncAll(x, inv, f);
    assert r1.invitations == x.invitations;
    UpdateIsIdempotent(s, inv, data);
    assert UpdateInvitation(x, inv, data) == Ok(x);
    assert UpdateInvitation(r1, inv, data) == Ok(r1) by {
      assert x.invitations.rows[inv := x.invitations.rows[inv]] == x.invitations.rows;
    }
    EditFillResolves(s, x, inv, d);
    SyncIsIdempotent(x, inv, f);
  }

  // ---------------------------------------------------------------------------
  // People keep their text

  /** One person step of the reconciler keeps the first person of `role` where
      it is: the step for `role` writes the form's text into it, the step for
      the other role leaves it alone. */
  lemma PersonStep(x: Store, inv: nat, d: map<string, Value>, role: Role, step: Role, pid: nat)
    requires x.Valid() && First(x.people, PersonMatch(inv, role)) == Some(pid)
    ensures var y := SyncPerson(x, inv, d, step);
            && First(y.people, PersonMatch(inv, role)) == Some(pid)
            && (step == role ==> Columns(y.people.rows[pid]) == PersonTextOf(d, role))
            && (step != role ==> y.people.rows[pid] == x.people.rows[pid])
  {
    var y := SyncPerson(x, inv, d, step);
    FirstIsAnchored(x.people, PersonMatch(inv, role));
    PersonAnchoredGrows(x, y, inv, role, pid);
    AnchoredIsFirst(y.people, PersonMatch(inv, role), pid);
    if step != role {
      var q := First(y.people, PersonMatch(inv, step)).value;
      assert PersonKey(y.people.rows[pid]) == PersonKey(x.people.rows[pid]);
      assert q != pid;
    }
  }

  /** The people text a save writes is the text of the form. */
  lemma SyncWritesPersonText(x: Store, inv: nat, d: map<string, Value>, role: Role, pid: nat)
    requires x.Valid() && First(x.people, PersonMatch(inv, role)) == Some(pid)
    ensures First(SyncAll(x, inv, d).people, PersonMatch(inv, role)) == Some(pid)
    ensures Columns(SyncAll(x, inv, d).people.rows[pid]) == PersonTextOf(d, role)
  {
    var x1 := AfterCouple(x, inv, d);
    assert x1.people == x.people;
    var x2 := AfterBride(x, inv, d);
    PersonStep(x1, inv, d, role, Bride, pid);
    var x3 := AfterGroom(x, inv, d);
    PersonStep(x2, inv, d, role, Groom, pid);
    SyncAllStages(x, inv, d);
    var r := SyncAll(x, inv, d);
    assert r.people == x3.people;
  }

  /** Saving the filled form keeps the first bride's and groom's text columns. */
  lemma UnchangedSaveKeepsPersonText(s: Store, cache: Cache, inv: nat, d: map<string, Value>, role: Role, pid: nat)
    requires s.Valid() && inv in s.invitations.rows && First(s.people, PersonMatch(inv, role)) == Some(pid)
    requires EditSave(s, cache, inv, EditFill(s, inv, d)).Ok?
    ensures var r := EditSave(s, cache, inv, EditFill(s, inv, d)).value.store;
            pid in r.people.rows && Columns(r.people.rows[pid]) == Columns(s.people.rows[pid])
  {
    var e := SetIfLocal(d, "couple_image", s.assets.rows, CoupleImageLink(s, inv));
    var f := EditFill(s, inv, d);
    var x := UpdateInvitation(s, inv, StripInvitationFormData(f)).value;
    assert x.people == s.people;
    SyncWritesPersonText(x, inv, f, role, pid);
    FilledTextRoundTrip(s, inv, e, role, pid);
  }
}
