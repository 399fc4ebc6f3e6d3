/** Running the asset reconciler a second time with the same form state
    changes nothing, provided every gallery and gift row that carries a file
    also names an existing row of the invitation.

    The proof records, for each step of the first run, the UPDATEs it issued
    (its log). Two facts are shown step by step: the first run's result already
    satisfies its whole log (replaying it is a no-op), and the second run, whose
    lookups find exactly the rows the first run found or created, issues
    exactly that log and no INSERT. */
module SyncIdempotence {
  import opened Wrappers
  import opened Php
  import opened Tables
  import opened Schema
  import opened StoreUpdates
  import opened Growth
  import opened SyncInvitationAssets

  lemma LoggedEmpty(x: Store)
    ensures Logged(x, [])
  {
  }

  lemma ConcatAssoc(a: seq<Write>, b: seq<Write>, c: seq<Write>)
    ensures a + b + c == a + (b + c)
  {
  }

  /** Replaying `a` then `b` on `y` from a state that has grown from `x`. */
  lemma ReplayConcat(y: Store, a: seq<Write>, b: seq<Write>)
    ensures ApplyAll(ApplyAll(y, a), b) == ApplyAll(y, a + b)
  {
    ApplyAllConcat(y, a, b);
  }

  // ---------------------------------------------------------------------------
  // updateOrCreate

  ghost function UpsertLog(x: Store, inv: nat, cat: Category, kind: Kind, path: string, alt: string): seq<Write>
    requires x.Valid()
  {
    [SetAssetLocal(UpsertAsset(x, inv, cat, kind, path, alt).1, alt)]
  }

  lemma UpsertLogged(x: Store, log: seq<Write>, inv: nat, cat: Category, kind: Kind, path: string, alt: string)
    requires x.Valid() && Logged(x, log)
    ensures Logged(UpsertAsset(x, inv, cat, kind, path, alt).0, log + UpsertLog(x, inv, cat, kind, path, alt))
  {
    var (x1, a) := EnsureAsset(x, inv, cat, kind, path, alt);
    if FindAsset(x, inv, cat, kind, path).None? {
      LoggedCreate(x, log, InsertAsset(NewLocalAsset(inv, cat, kind, path, alt)));
    }
    LoggedWrite(x1, log, SetAssetLocal(a, alt));
  }

  /** A second `updateOrCreate` of the same key finds the row the first one
      found or inserted, and only updates it. */
  lemma UpsertReplays(x: Store, y: Store, inv: nat, cat: Category, kind: Kind, path: string, alt: string)
    requires x.Valid() && y.Valid() && Grows(UpsertAsset(x, inv, cat, kind, path, alt).0, y)
    ensures UpsertAsset(y, inv, cat, kind, path, alt)
            == (ApplyAll(y, UpsertLog(x, inv, cat, kind, path, alt)), UpsertAsset(x, inv, cat, kind, path, alt).1)
  {
    var (x1, a) := UpsertAsset(x, inv, cat, kind, path, alt);
    AssetAnchoredGrows(x1, y, inv, cat, kind, path, a);
    AnchoredIsFirst(y.assets, AssetMatch(inv, cat, kind, path), a);
    ApplyAllOne(y, SetAssetLocal(a, alt));
  }

  // ---------------------------------------------------------------------------
  // Couple image

  ghost function CoupleLog(x: Store, inv: nat, d: map<string, Value>): seq<Write>
    requires x.Valid()
  {
    match UploadedPath(Get(d, "couple_image"))
    case None => []
    case Some(p) =>
      var a := UpsertAsset(x, inv, SectionImage, Image, p, "Couple Image").1;
      [SetAssetLocal(a, "Couple Image"), SetCoupleImage(inv, a)]
  }

  lemma CoupleLogged(x: Store, log: seq<Write>, inv: nat, d: map<string, Value>)
    requires x.Valid() && Logged(x, log)
    ensures Logged(SyncCoupleImage(x, inv, d), log + CoupleLog(x, inv, d))
  {
    match UploadedPath(Get(d, "couple_image"))
    case None =>
      assert log + [] == log;
    case Some(p) =>
      var (x1, a) := UpsertAsset(x, inv, SectionImage, Image, p, "Couple Image");
      UpsertLogged(x, log, inv, SectionImage, Image, p, "Couple Image");
      var log1 := log + [SetAssetLocal(a, "Couple Image")];
      if inv !in x1.couples {
        LoggedCreate(x1, log1, InsertCouple(inv));
      }
      var x2 := EnsureCouple(x1, inv);
      LoggedWrite(x2, log1, SetCoupleImage(inv, a));
      assert log1 + [SetCoupleImage(inv, a)] == log + CoupleLog(x, inv, d);
  }

  lemma CoupleReplays(x: Store, y: Store, inv: nat, d: map<string, Value>)
    requires x.Valid() && y.Valid() && Grows(SyncCoupleImage(x, inv, d), y)
    ensures SyncCoupleImage(y, inv, d) == ApplyAll(y, CoupleLog(x, inv, d))
  {
    match UploadedPath(Get(d, "couple_image"))
    case None =>
    case Some(p) =>
      var (x1, a) := UpsertAsset(x, inv, SectionImage, Image, p, "Couple Image");
      var x2 := EnsureCouple(x1, inv);
      var r := SyncCoupleImage(x, inv, d);
      ApplyGrows(x2, SetCoupleImage(inv, a));
      GrowsTrans(x1, x2, r);
      GrowsTrans(x1, r, y);
      UpsertReplays(x, y, inv, SectionImage, Image, p, "Couple Image");
      ApplyAllOne(y, SetAssetLocal(a, "Couple Image"));
      ApplyAllTwo(y, SetAssetLocal(a, "Couple Image"), SetCoupleImage(inv, a));
  }

  // ---------------------------------------------------------------------------
  // People

  ghost function PhotoLog(x: Store, inv: nat, role: Role, pid: nat, path: string): seq<Write>
    requires x.Valid()
  {
    var a := UpsertAsset(x, inv, SectionImage, Image, path, RoleLabel(role) + " Photo").1;
    [SetAssetLocal(a, RoleLabel(role) + " Photo"), SetPersonPhoto(pid, a)]
  }

  ghost function PersonLog(x: Store, inv: nat, d: map<string, Value>, role: Role): seq<Write>
    requires x.Valid()
  {
    var (x2, pid) := WritePersonText(x, inv, d, role);
    [SetPersonText(pid, PersonTextOf(d, role))]
      + match UploadedPath(Get(d, PersonKeyName(role, "photo")))
        case None => []
        case Some(p) => PhotoLog(x2, inv, role, pid, p)
  }

  lemma WritePersonTextLogged(x: Store, log: seq<Write>, inv: nat, d: map<string, Value>, role: Role)
    requires x.Valid() && Logged(x, log)
    ensures Logged(WritePersonText(x, inv, d, role).0,
                   log + [SetPersonText(WritePersonText(x, inv, d, role).1, PersonTextOf(d, role))])
  {
    var (x1, pid) := EnsurePerson(x, inv, role);
    if First(x.people, PersonMatch(inv, role)).None? {
      LoggedCreate(x, log, InsertPerson(NewPerson(inv, role)));
    }
    LoggedWrite(x1, log, SetPersonText(pid, PersonTextOf(d, role)));
  }

  lemma WritePersonTextReplays(x: Store, y: Store, inv: nat, d: map<string, Value>, role: Role)
    requires x.Valid() && y.Valid() && Grows(WritePersonText(x, inv, d, role).0, y)
    ensures WritePersonText(y, inv, d, role)
            == (ApplyAll(y, [SetPersonText(WritePersonText(x, inv, d, role).1, PersonTextOf(d, role))]),
                WritePersonText(x, inv, d, role).1)
  {
    var (x2, pid) := WritePersonText(x, inv, d, role);
    PersonAnchoredGrows(x2, y, inv, role, pid);
    AnchoredIsFirst(y.people, PersonMatch(inv, role), pid);
    ApplyAllOne(y, SetPersonText(pid, PersonTextOf(d, role)));
  }

  lemma LinkPhotoLogged(x: Store, log: seq<Write>, inv: nat, role: Role, pid: nat, path: string)
    requires x.Valid() && pid in x.people.rows && x.people.rows[pid].invitation == inv && Logged(x, log)
    ensures Logged(LinkPersonPhoto(x, inv, role, pid, path), log + PhotoLog(x, inv, role, pid, path))
  {
    var caption := RoleLabel(role) + " Photo";
    var (x1, a) := UpsertAsset(x, inv, SectionImage, Image, path, caption);
    UpsertLogged(x, log, inv, SectionImage, Image, path, caption);
    LoggedWrite(x1, log + [SetAssetLocal(a, caption)], SetPersonPhoto(pid, a));
    assert log + [SetAssetLocal(a, caption)] + [SetPersonPhoto(pid, a)] == log + PhotoLog(x, inv, role, pid, path);
  }

  lemma LinkPhotoReplays(x: Store, y: Store, inv: nat, role: Role, pid: nat, path: string)
    requires x.Valid() && pid in x.people.rows && x.people.rows[pid].invitation == inv
    requires y.Valid() && Grows(LinkPersonPhoto(x, inv, role, pid, path), y)
    ensures pid in y.people.rows && y.people.rows[pid].invitation == inv
    ensures LinkPersonPhoto(y, inv, role, pid, path) == ApplyAll(y, PhotoLog(x, inv, role, pid, path))
  {
    var caption := RoleLabel(role) + " Photo";
    var (x1, a) := UpsertAsset(x, inv, SectionImage, Image, path, caption);
    var r := LinkPersonPhoto(x, inv, role, pid, path);
    ApplyGrows(x1, SetPersonPhoto(pid, a));
    GrowsTrans(x1, r, y);
    GrowsTrans(x, r, y);
    assert PersonKey(y.people.rows[pid]) == PersonKey(x.people.rows[pid]);
    UpsertReplays(x, y, inv, SectionImage, Image, path, caption);
    ApplyAllOne(y, SetAssetLocal(a, caption));
    ApplyAllTwo(y, SetAssetLocal(a, caption), SetPersonPhoto(pid, a));
  }

  /** The log of `syncPerson` when the data carries no photo, and when it does. */
  lemma PersonLogShape(x: Store, inv: nat, d: map<string, Value>, role: Role)
    requires x.Valid()
    ensures var (x2, pid) := WritePersonText(x, inv, d, role);
            var photo := UploadedPath(Get(d, PersonKeyName(role, "photo")));
            && (photo.None? ==> PersonLog(x, inv, d, role) == [SetPersonText(pid, PersonTextOf(d, role))])
            && (photo.Some? ==> PersonLog(x, inv, d, role)
                                == [SetPersonText(pid, PersonTextOf(d, role))] + PhotoLog(x2, inv, role, pid, photo.value))
  {
  }

  lemma SyncPersonShape(x: Store, inv: nat, d: map<string, Value>, role: Role)
    requires x.Valid()
    ensures var (x2, pid) := WritePersonText(x, inv, d, role);
            var photo := UploadedPath(Get(d, PersonKeyName(role, "photo")));
            && (photo.None? ==> SyncPerson(x, inv, d, role) == x2)
            && (photo.Some? ==> SyncPerson(x, inv, d, role) == LinkPersonPhoto(x2, inv, role, pid, photo.value))
  {
  }

  lemma PersonLogged(x: Store, log: seq<Write>, inv: nat, d: map<string, Value>, role: Role)
    requires x.Valid() && Logged(x, log)
    ensures Logged(SyncPerson(x, inv, d, role), log + PersonLog(x, inv, d, role))
  {
    var (x2, pid) := WritePersonText(x, inv, d, role);
    var w := SetPersonText(pid, PersonTextOf(d, role));
    var photo := UploadedPath(Get(d, PersonKeyName(role, "photo")));
    WritePersonTextLogged(x, log, inv, d, role);
    PersonLogShape(x, inv, d, role);
    SyncPersonShape(x, inv, d, role);
    if photo.Some? {
      LinkPhotoLogged(x2, log + [w], inv, role, pid, photo.value);
      ConcatAssoc(log, [w], PhotoLog(x2, inv, role, pid, photo.value));
    }
  }

  lemma PersonReplays(x: Store, y: Store, inv: nat, d: map<string, Value>, role: Role)
    requires x.Valid() && y.Valid() && Grows(SyncPerson(x, inv, d, role), y)
    ensures SyncPerson(y, inv, d, role) == ApplyAll(y, PersonLog(x, inv, d, role))
  {
    var (x2, pid) := WritePersonText(x, inv, d, role);
    var r := SyncPerson(x, inv, d, role);
    var w := SetPersonText(pid, PersonTextOf(d, role));
    var photo := UploadedPath(Get(d, PersonKeyName(role, "photo")));
    PersonLogShape(x, inv, d, role);
    SyncPersonShape(x, inv, d, role);
    SyncPersonShape(y, inv, d, role);
    if photo.None? {
      GrowsRefl(x2);
    }
    GrowsTrans(x2, r, y);
    WritePersonTextReplays(x, y, inv, d, role);
    if photo.Some? {
      var y2 := ApplyAll(y, [w]);
      ApplyAllGrows(y, [w]);
      GrowsTrans(r, y, y2);
      LinkPhotoReplays(x2, y2, inv, role, pid, photo.value);
      ReplayConcat(y, [w], PhotoLog(x2, inv, role, pid, photo.value));
    }
  }

  // ---------------------------------------------------------------------------
  // Gallery

  /** Every processed gallery row with a truthy image names an existing item of
      the invitation, as it does once the edit form has been filled from the
      database. */
  ghost predicate GalleryResolves(x: Store, inv: nat, rows: seq<Value>, i: nat) {
    forall k :: i <= k < |rows| && UploadedPath(RowField(rows[k], "image")).Some? ==>
      FindGalleryItem(x, inv, RowKey(RowField(rows[k], "id"))).Some?
  }

  lemma GalleryResolvesGrows(x: Store, y: Store, inv: nat, rows: seq<Value>, i: nat)
    requires Grows(x, y) && GalleryResolves(x, inv, rows, i)
    ensures GalleryResolves(y, inv, rows, i)
  {
    forall k | i <= k < |rows| && UploadedPath(RowField(rows[k], "image")).Some?
      ensures FindGalleryItem(y, inv, RowKey(RowField(rows[k], "id"))).Some?
    {
      var key := RowKey(RowField(rows[k], "id"));
      assert FindGalleryItem(x, inv, key).Some?;
      assert y.gallery.rows[key.value].invitation == x.gallery.rows[key.value].invitation;
    }
  }

  lemma PlaceLogged(x: Store, log: seq<Write>, inv: nat, key: Option<nat>, index: nat, asset: nat)
    requires x.Valid() && Logged(x, log)
    ensures Logged(PlaceGalleryItem(x, inv, key, index, asset),
                   log + [SetGalleryItem(GalleryTarget(x, inv, key), index + 1, asset)])
  {
    var (x1, g) := EnsureGalleryItem(x, inv, key, index + 1, asset);
    if FindGalleryItem(x, inv, key).None? {
      LoggedCreate(x, log, InsertGalleryItem(GalleryItem(inv, index + 1, asset)));
    }
    LoggedWrite(x1, log, SetGalleryItem(g, index + 1, asset));
  }

  lemma PlaceReplays(x: Store, y: Store, inv: nat, key: Option<nat>, index: nat, asset: nat)
    requires x.Valid() && y.Valid() && Grows(x, y) && FindGalleryItem(x, inv, key).Some?
    ensures PlaceGalleryItem(y, inv, key, index, asset)
            == ApplyAll(y, [SetGalleryItem(GalleryTarget(x, inv, key), index + 1, asset)])
  {
    assert y.gallery.rows[key.value].invitation == x.gallery.rows[key.value].invitation;
    ApplyAllOne(y, SetGalleryItem(key.value, index + 1, asset));
  }

  ghost function LinkGalleryLog(x: Store, inv: nat, key: Option<nat>, index: nat, path: string): seq<Write>
    requires x.Valid()
  {
    var (x1, a) := UpsertAsset(x, inv, GalleryImage, Image, path, GalleryAlt(index));
    [SetAssetLocal(a, GalleryAlt(index)), SetGalleryItem(GalleryTarget(x1, inv, key), index + 1, a)]
  }

  lemma LinkGalleryShape(x: Store, inv: nat, key: Option<nat>, index: nat, path: string)
    requires x.Valid()
    ensures var (x1, a) := UpsertAsset(x, inv, GalleryImage, Image, path, GalleryAlt(index));
            && LinkGalleryItem(x, inv, key, index, path) == PlaceGalleryItem(x1, inv, key, index, a)
            && LinkGalleryLog(x, inv, key, index, path)
               == [SetAssetLocal(a, GalleryAlt(index))] + [SetGalleryItem(GalleryTarget(x1, inv, key), index + 1, a)]
  {
  }

  lemma LinkGalleryLogged(x: Store, log: seq<Write>, inv: nat, key: Option<nat>, index: nat, path: string)
    requires x.Valid() && Logged(x, log)
    ensures Logged(LinkGalleryItem(x, inv, key, index, path), log + LinkGalleryLog(x, inv, key, index, path))
  {
    var (x1, a) := UpsertAsset(x, inv, GalleryImage, Image, path, GalleryAlt(index));
    var w1 := SetAssetLocal(a, GalleryAlt(index));
    UpsertLogged(x, log, inv, GalleryImage, Image, path, GalleryAlt(index));
    LinkGalleryShape(x, inv, key, index, path);
    PlaceLogged(x1, log + [w1], inv, key, index, a);
    ConcatAssoc(log, [w1], [SetGalleryItem(GalleryTarget(x1, inv, key), index + 1, a)]);
  }

  lemma LinkGalleryReplays(x: Store, y: Store, inv: nat, key: Option<nat>, index: nat, path: string)
    requires x.Valid() && y.Valid() && Grows(LinkGalleryItem(x, inv, key, index, path), y)
    requires FindGalleryItem(x, inv, key).Some?
    ensures LinkGalleryItem(y, inv, key, index, path) == ApplyAll(y, LinkGalleryLog(x, inv, key, index, path))
  {
    var (x1, a) := UpsertAsset(x, inv, GalleryImage, Image, path, GalleryAlt(index));
    var w1 := SetAssetLocal(a, GalleryAlt(index));
    var r := LinkGalleryItem(x, inv, key, index, path);
    LinkGalleryShape(x, inv, key, index, path);
    LinkGalleryShape(y, inv, key, index, path);
    GrowsTrans(x1, r, y);
    UpsertReplays(x, y, inv, GalleryImage, Image, path, GalleryAlt(index));
    var y1 := ApplyAll(y, [w1]);
    ApplyAllGrows(y, [w1]);
    GrowsTrans(x1, y, y1);
    PlaceReplays(x1, y1, inv, key, index, a);
    ReplayConcat(y, [w1], [SetGalleryItem(GalleryTarget(x1, inv, key), index + 1, a)]);
  }

  ghost function GalleryRowLog(x: Store, inv: nat, row: Value, index: nat): seq<Write>
    requires x.Valid()
  {
    match UploadedPath(RowField(row, "image"))
    case None => []
    case Some(p) => LinkGalleryLog(x, inv, RowKey(RowField(row, "id")), index, p)
  }

  /** The gallery loop's log from row `i` on, against the state the loop is in. */
  ghost function GalleryLogFrom(x: Store, inv: nat, rows: seq<Value>, i: nat): seq<Write>
    requires x.Valid() && i <= |rows|
    decreases |rows| - i
  {
    if i == |rows| then []
    else GalleryRowLog(x, inv, rows[i], i) + GalleryLogFrom(SyncGalleryRow(x, inv, rows[i], i), inv, rows, i + 1)
  }

  lemma GalleryRowLogged(x: Store, log: seq<Write>, inv: nat, row: Value, index: nat)
    requires x.Valid() && Logged(x, log)
    ensures Logged(SyncGalleryRow(x, inv, row, index), log + GalleryRowLog(x, inv, row, index))
  {
    match UploadedPath(RowField(row, "image"))
    case None => assert log + [] == log;
    case Some(p) => LinkGalleryLogged(x, log, inv, RowKey(RowField(row, "id")), index, p);
  }

  lemma GalleryRowReplays(x: Store, y: Store, inv: nat, row: Value, index: nat)
    requires x.Valid() && y.Valid() && Grows(SyncGalleryRow(x, inv, row, index), y)
    requires UploadedPath(RowField(row, "image")).Some? ==> FindGalleryItem(x, inv, RowKey(RowField(row, "id"))).Some?
    ensures SyncGalleryRow(y, inv, row, index) == ApplyAll(y, GalleryRowLog(x, inv, row, index))
  {
    match UploadedPath(RowField(row, "image"))
    case None =>
    case Some(p) => LinkGalleryReplays(x, y, inv, RowKey(RowField(row, "id")), index, p);
  }

  lemma {:induction false} GalleryFromLogged(x: Store, log: seq<Write>, inv: nat, rows: seq<Value>, i: nat)
    requires x.Valid() && i <= |rows| && Logged(x, log)
    ensures Logged(SyncGalleryFrom(x, inv, rows, i), log + GalleryLogFrom(x, inv, rows, i))
    decreases |rows| - i
  {
    if i == |rows| {
      assert log + [] == log;
    } else {
      var x1 := SyncGalleryRow(x, inv, rows[i], i);
      var a := GalleryRowLog(x, inv, rows[i], i);
      GalleryRowLogged(x, log, inv, rows[i], i);
      GalleryFromLogged(x1, log + a, inv, rows, i + 1);
      ConcatAssoc(log, a, GalleryLogFrom(x1, inv, rows, i + 1));
    }
  }

  /** One row of the loop: the second run's row replays the first run's
      log for it, and the rest of the loop starts from grown states. */
  lemma GalleryStep(x: Store, y: Store, inv: nat, rows: seq<Value>, i: nat)
    requires x.Valid() && y.Valid() && i < |rows| && Grows(SyncGalleryFrom(x, inv, rows, i), y)
    requires GalleryResolves(x, inv, rows, i)
    ensures var x1 := SyncGalleryRow(x, inv, rows[i], i);
            var y1 := ApplyAll(y, GalleryRowLog(x, inv, rows[i], i));
            && y1.Valid() && SyncGalleryRow(y, inv, rows[i], i) == y1
            && Grows(SyncGalleryFrom(x1, inv, rows, i + 1), y1) && GalleryResolves(x1, inv, rows, i + 1)
  {
    var x1 := SyncGalleryRow(x, inv, rows[i], i);
    var r := SyncGalleryFrom(x, inv, rows, i);
    var a := GalleryRowLog(x, inv, rows[i], i);
    assert r == SyncGalleryFrom(x1, inv, rows, i + 1);
    GrowsTrans(x1, r, y);
    GalleryRowReplays(x, y, inv, rows[i], i);
    var y1 := ApplyAll(y, a);
    ApplyAllGrows(y, a);
    GrowsTrans(r, y, y1);
    GalleryResolvesGrows(x, x1, inv, rows, i + 1);
  }

  lemma {:induction false} GalleryFromReplays(x: Store, y: Store, inv: nat, rows: seq<Value>, i: nat)
    requires x.Valid() && y.Valid() && i <= |rows| && Grows(SyncGalleryFrom(x, inv, rows, i), y)
    requires GalleryResolves(x, inv, rows, i)
    ensures SyncGalleryFrom(y, inv, rows, i) == ApplyAll(y, GalleryLogFrom(x, inv, rows, i))
    decreases |rows| - i
  {
    if i < |rows| {
      var x1 := SyncGalleryRow(x, inv, rows[i], i);
      var a := GalleryRowLog(x, inv, rows[i], i);
      var y1 := ApplyAll(y, a);
      GalleryStep(x, y, inv, rows, i);
      GalleryFromReplays(x1, y1, inv, rows, i + 1);
      ReplayConcat(y, a, GalleryLogFrom(x1, inv, rows, i + 1));
      assert SyncGalleryFrom(y, inv, rows, i) == SyncGalleryFrom(y1, inv, rows, i + 1);
    }
  }

  // ---------------------------------------------------------------------------
  // Gift accounts

  ghost predicate GiftsResolve(x: Store, inv: nat, rows: seq<Value>, i: nat) {
    forall k :: i <= k < |rows| && UploadedPath(RowField(rows[k], "qr_image")).Some? ==>
      FindGiftAccount(x, inv, RowKey(RowField(rows[k], "id"))).Some?
  }

  lemma GiftsResolveGrows(x: Store, y: Store, inv: nat, rows: seq<Value>, i: nat)
    requires Grows(x, y) && GiftsResolve(x, inv, rows, i)
    ensures GiftsResolve(y, inv, rows, i)
  {
    forall k | i <= k < |rows| && UploadedPath(RowField(rows[k], "qr_image")).Some?
      ensures FindGiftAccount(y, inv, RowKey(RowField(rows[k], "id"))).Some?
    {
      var key := RowKey(RowField(rows[k], "id"));
      assert FindGiftAccount(x, inv, key).Some?;
      assert y.giftAccounts.rows[key.value].invitation == x.giftAccounts.rows[key.value].invitation;
    }
  }

  ghost function QrLog(x: Store, inv: nat, g: nat, path: string): seq<Write>
    requires x.Valid()
  {
    var a := UpsertAsset(x, inv, OtherCategory, Image, path, "Gift QR").1;
    [SetAssetLocal(a, "Gift QR"), SetGiftQr(g, a)]
  }

  lemma QrLogged(x: Store, log: seq<Write>, inv: nat, g: nat, path: string)
    requires x.Valid() && g in x.giftAccounts.rows && x.giftAccounts.rows[g].invitation == inv && Logged(x, log)
    ensures Logged(SetGiftQrAsset(x, inv, g, path), log + QrLog(x, inv, g, path))
  {
    var (x1, a) := UpsertAsset(x, inv, OtherCategory, Image, path, "Gift QR");
    UpsertLogged(x, log, inv, OtherCategory, Image, path, "Gift QR");
    LoggedWrite(x1, log + [SetAssetLocal(a, "Gift QR")], SetGiftQr(g, a));
    assert log + [SetAssetLocal(a, "Gift QR")] + [SetGiftQr(g, a)] == log + QrLog(x, inv, g, path);
  }

  lemma QrReplays(x: Store, y: Store, inv: nat, g: nat, path: string)
    requires x.Valid() && g in x.giftAccounts.rows && x.giftAccounts.rows[g].invitation == inv
    requires y.Valid() && Grows(SetGiftQrAsset(x, inv, g, path), y)
    ensures g in y.giftAccounts.rows && y.giftAccounts.rows[g].invitation == inv
    ensures SetGiftQrAsset(y, inv, g, path) == ApplyAll(y, QrLog(x, inv, g, path))
  {
    var (x1, a) := UpsertAsset(x, inv, OtherCategory, Image, path, "Gift QR");
    var r := SetGiftQrAsset(x, inv, g, path);
    ApplyGrows(x1, SetGiftQr(g, a));
    GrowsTrans(x1, r, y);
    GrowsTrans(x, r, y);
    assert y.giftAccounts.rows[g].invitation == x.giftAccounts.rows[g].invitation;
    UpsertReplays(x, y, inv, OtherCategory, Image, path, "Gift QR");
    ApplyAllOne(y, SetAssetLocal(a, "Gift QR"));
    ApplyAllTwo(y, SetAssetLocal(a, "Gift QR"), SetGiftQr(g, a));
  }

  ghost function LinkGiftLog(x: Store, inv: nat, key: Option<nat>, index: nat, path: string): seq<Write>
    requires x.Valid()
  {
    var (x1, g) := EnsureGiftAccount(x, inv, key, index + 1);
    QrLog(x1, inv, g, path)
  }

  lemma EnsureGiftShape(x: Store, inv: nat, key: Option<nat>, index: nat)
    requires x.Valid()
    ensures var (x1, g) := EnsureGiftAccount(x, inv, key, index + 1);
            && x1.Valid() && g in x1.giftAccounts.rows && x1.giftAccounts.rows[g].invitation == inv
            && g == GiftTarget(x, inv, key)
  {
  }

  lemma LinkGiftLogged(x: Store, log: seq<Write>, inv: nat, key: Option<nat>, index: nat, path: string)
    requires x.Valid() && Logged(x, log)
    ensures Logged(LinkGiftQr(x, inv, key, index, path), log + LinkGiftLog(x, inv, key, index, path))
  {
    var (x1, g) := EnsureGiftAccount(x, inv, key, index + 1);
    EnsureGiftShape(x, inv, key, index);
    if FindGiftAccount(x, inv, key).None? {
      LoggedCreate(x, log, InsertGiftAccount(NewGiftAccountRow(inv, index)));
    }
    QrLogged(x1, log, inv, g, path);
  }

  lemma LinkGiftReplays(x: Store, y: Store, inv: nat, key: Option<nat>, index: nat, path: string)
    requires x.Valid() && y.Valid() && Grows(LinkGiftQr(x, inv, key, index, path), y)
    requires FindGiftAccount(x, inv, key).Some?
    ensures LinkGiftQr(y, inv, key, index, path) == ApplyAll(y, LinkGiftLog(x, inv, key, index, path))
  {
    var g := key.value;
    QrReplays(x, y, inv, g, path);
  }

  ghost function GiftRowLog(x: Store, inv: nat, row: Value, index: nat): seq<Write>
    requires x.Valid()
  {
    match UploadedPath(RowField(row, "qr_image"))
    case None => []
    case Some(p) => LinkGiftLog(x, inv, RowKey(RowField(row, "id")), index, p)
  }

  ghost function GiftLogFrom(x: Store, inv: nat, rows: seq<Value>, i: nat): seq<Write>
    requires x.Valid() && i <= |rows|
    decreases |rows| - i
  {
    if i == |rows| then []
    else GiftRowLog(x, inv, rows[i], i) + GiftLogFrom(SyncGiftRow(x, inv, rows[i], i), inv, rows, i + 1)
  }

  lemma GiftRowLogged(x: Store, log: seq<Write>, inv: nat, row: Value, index: nat)
    requires x.Valid() && Logged(x, log)
    ensures Logged(SyncGiftRow(x, inv, row, index), log + GiftRowLog(x, inv, row, index))
  {
    match UploadedPath(RowField(row, "qr_image"))
    case None => assert log + [] == log;
    case Some(p) => LinkGiftLogged(x, log, inv, RowKey(RowField(row, "id")), index, p);
  }

  lemma GiftRowReplays(x: Store, y: Store, inv: nat, row: Value, index: nat)
    requires x.Valid() && y.Valid() && Grows(SyncGiftRow(x, inv, row, index), y)
    requires UploadedPath(RowField(row, "qr_image")).Some? ==> FindGiftAccount(x, inv, RowKey(RowField(row, "id"))).Some?
    ensures SyncGiftRow(y, inv, row, index) == ApplyAll(y, GiftRowLog(x, inv, row, index))
  {
    match UploadedPath(RowField(row, "qr_image"))
    case None =>
    case Some(p) => LinkGiftReplays(x, y, inv, RowKey(RowField(row, "id")), index, p);
  }

  lemma {:induction false} GiftsFromLogged(x: Store, log: seq<Write>, inv: nat, rows: seq<Value>, i: nat)
    requires x.Valid() && i <= |rows| && Logged(x, log)
    ensures Logged(SyncGiftsFrom(x, inv, rows, i), log + GiftLogFrom(x, inv, rows, i))
    decreases |rows| - i
  {
    if i == |rows| {
      assert log + [] == log;
    } else {
      var x1 := SyncGiftRow(x, inv, rows[i], i);
      var a := GiftRowLog(x, inv, rows[i], i);
      GiftRowLogged(x, log, inv, rows[i], i);
      GiftsFromLogged(x1, log + a, inv, rows, i + 1);
      ConcatAssoc(log, a, GiftLogFrom(x1, inv, rows, i + 1));
    }
  }

  /** One row of the loop: the second run's row replays the first run's
      log for it, and the rest of the loop starts from grown states. */
  lemma GiftsStep(x: Store, y: Store, inv: nat, rows: seq<Value>, i: nat)
    requires x.Valid() && y.Valid() && i < |rows| && Grows(SyncGiftsFrom(x, inv, rows, i), y)
    requires GiftsResolve(x, inv, rows, i)
    ensures var x1 := SyncGiftRow(x, inv, rows[i], i);
            var y1 := ApplyAll(y, GiftRowLog(x, inv, rows[i], i));
            && y1.Valid() && SyncGiftRow(y, inv, rows[i], i) == y1
            && Grows(SyncGiftsFrom(x1, inv, rows, i + 1), y1) && GiftsResolve(x1, inv, rows, i + 1)
  {
    var x1 := SyncGiftRow(x, inv, rows[i], i);
    var r := SyncGiftsFrom(x, inv, rows, i);
    var a := GiftRowLog(x, inv, rows[i], i);
    assert r == SyncGiftsFrom(x1, inv, rows, i + 1);
    GrowsTrans(x1, r, y);
    GiftRowReplays(x, y, inv, rows[i], i);
    var y1 := ApplyAll(y, a);
    ApplyAllGrows(y, a);
    GrowsTrans(r, y, y1);
    GiftsResolveGrows(x, x1, inv, rows, i + 1);
  }

  lemma {:induction false} GiftsFromReplays(x: Store, y: Store, inv: nat, rows: seq<Value>, i: nat)
    requires x.Valid() && y.Valid() && i <= |rows| && Grows(SyncGiftsFrom(x, inv, rows, i), y)
    requires GiftsResolve(x, inv, rows, i)
    ensures SyncGiftsFrom(y, inv, rows, i) == ApplyAll(y, GiftLogFrom(x, inv, rows, i))
    decreases |rows| - i
  {
    if i < |rows| {
      var x1 := SyncGiftRow(x, inv, rows[i], i);
      var a := GiftRowLog(x, inv, rows[i], i);
      var y1 := ApplyAll(y, a);
      GiftsStep(x, y, inv, rows, i);
      GiftsFromReplays(x1, y1, inv, rows, i + 1);
      ReplayConcat(y, a, GiftLogFrom(x1, inv, rows, i + 1));
      assert SyncGiftsFrom(y, inv, rows, i) == SyncGiftsFrom(y1, inv, rows, i + 1);
    }
  }

  // ---------------------------------------------------------------------------
  // Music

  ghost function MusicLog(x: Store, inv: nat, d: map<string, Value>): seq<Write>
    requires x.Valid()
  {
    match UploadedPath(Get(d, "music_audio"))
    case None => []
    case Some(p) =>
      var a := UpsertAsset(x, inv, MusicCategory, Audio, p, "Invitation Music").1;
      [SetAssetLocal(a, "Invitation Music"), SetMusicAudio(inv, a)]
  }

  lemma MusicLogged(x: Store, log: seq<Write>, inv: nat, d: map<string, Value>)
    requires x.Valid() && Logged(x, log)
    ensures Logged(SyncMusic(x, inv, d), log + MusicLog(x, inv, d))
  {
    match UploadedPath(Get(d, "music_audio"))
    case None =>
      assert log + [] == log;
    case Some(p) =>
      var (x1, a) := UpsertAsset(x, inv, MusicCategory, Audio, p, "Invitation Music");
      UpsertLogged(x, log, inv, MusicCategory, Audio, p, "Invitation Music");
      var log1 := log + [SetAssetLocal(a, "Invitation Music")];
      if inv !in x1.music {
        LoggedCreate(x1, log1, InsertMusic(inv));
      }
      var x2 := EnsureMusic(x1, inv);
      LoggedWrite(x2, log1, SetMusicAudio(inv, a));
      assert log1 + [SetMusicAudio(inv, a)] == log + MusicLog(x, inv, d);
  }

  lemma MusicReplays(x: Store, y: Store, inv: nat, d: map<string, Value>)
    requires x.Valid() && y.Valid() && Grows(SyncMusic(x, inv, d), y)
    ensures SyncMusic(y, inv, d) == ApplyAll(y, MusicLog(x, inv, d))
  {
    match UploadedPath(Get(d, "music_audio"))
    case None =>
    case Some(p) =>
      var (x1, a) := UpsertAsset(x, inv, MusicCategory, Audio, p, "Invitation Music");
      var x2 := EnsureMusic(x1, inv);
      var r := SyncMusic(x, inv, d);
      ApplyGrows(x2, SetMusicAudio(inv, a));
      GrowsTrans(x1, x2, r);
      GrowsTrans(x1, r, y);
      UpsertReplays(x, y, inv, MusicCategory, Audio, p, "Invitation Music");
      ApplyAllOne(y, SetAssetLocal(a, "Invitation Music"));
      ApplyAllTwo(y, SetAssetLocal(a, "Invitation Music"), SetMusicAudio(inv, a));
  }

  // ---------------------------------------------------------------------------
  // The whole reconciliation

  /** Every gallery and gift row of the form state that carries a file names
      an existing row of the invitation. */
  ghost predicate RowsResolve(s: Store, inv: nat, d: map<string, Value>) {
    && GalleryResolves(s, inv, RowsOf(Get(d, "galleryItems")), 0)
    && GiftsResolve(s, inv, RowsOf(Get(d, "giftAccounts")), 0)
  }

  /** The states one reconciliation run passes through: after the couple
      image, the bride, the groom, the gallery and the gift accounts. */
  function AfterCouple(s: Store, inv: nat, d: map<string, Value>): (r: Store)
    requires s.Valid()
    ensures r.Valid() && Grows(s, r)
  {
    SyncCoupleImage(s, inv, d)
  }

  function AfterBride(s: Store, inv: nat, d: map<string, Value>): (r: Store)
    requires s.Valid()
    ensures r.Valid() && Grows(AfterCouple(s, inv, d), r)
  {
    SyncPerson(AfterCouple(s, inv, d), inv, d, Bride)
  }

  function AfterGroom(s: Store, inv: nat, d: map<string, Value>): (r: Store)
    requires s.Valid()
    ensures r.Valid() && Grows(AfterBride(s, inv, d), r)
  {
    SyncPerson(AfterBride(s, inv, d), inv, d, Groom)
  }

  function AfterGallery(s: Store, inv: nat, d: map<string, Value>): (r: Store)
    requires s.Valid()
    ensures r.Valid() && Grows(AfterGroom(s, inv, d), r)
  {
    SyncGallery(AfterGroom(s, inv, d), inv, d)
  }

  function AfterGifts(s: Store, inv: nat, d: map<string, Value>): (r: Store)
    requires s.Valid()
    ensures r.Valid() && Grows(AfterGallery(s, inv, d), r)
  {
    SyncGiftAccounts(AfterGallery(s, inv, d), inv, d)
  }

  lemma SyncAllStages(s: Store, inv: nat, d: map<string, Value>)
    requires s.Valid()
    ensures SyncAll(s, inv, d) == SyncMusic(AfterGifts(s, inv, d), inv, d)
  {
  }

  /** Every intermediate state of a run has grown into its result. */
  lemma StagesGrowToEnd(s: Store, inv: nat, d: map<string, Value>)
    requires s.Valid()
    ensures var r := SyncAll(s, inv, d);
            && Grows(s, r) && Grows(AfterCouple(s, inv, d), r) && Grows(AfterBride(s, inv, d), r)
            && Grows(AfterGroom(s, inv, d), r) && Grows(AfterGallery(s, inv, d), r) && Grows(AfterGifts(s, inv, d), r)
  {
    var r := SyncAll(s, inv, d);
    var s5 := AfterGifts(s, inv, d);
    SyncAllStages(s, inv, d);
    assert Grows(s5, r);
    GrowsTrans(AfterGallery(s, inv, d), s5, r);
    GrowsTrans(AfterGroom(s, inv, d), AfterGallery(s, inv, d), r);
    GrowsTrans(AfterBride(s, inv, d), AfterGroom(s, inv, d), r);
    GrowsTrans(AfterCouple(s, inv, d), AfterBride(s, inv, d), r);
  }

  /** The UPDATEs the couple, bride and groom stages of a run issue. */
  ghost function PeopleLog(s: Store, inv: nat, d: map<string, Value>): seq<Write>
    requires s.Valid()
  {
    CoupleLog(s, inv, d)
      + PersonLog(AfterCouple(s, inv, d), inv, d, Bride)
      + PersonLog(AfterBride(s, inv, d), inv, d, Groom)
  }

  /** ... followed by those of the gallery and gift loops. */
  ghost function RowsLog(s: Store, inv: nat, d: map<string, Value>): seq<Write>
    requires s.Valid()
  {
    PeopleLog(s, inv, d)
      + GalleryLogFrom(AfterGroom(s, inv, d), inv, RowsOf(Get(d, "galleryItems")), 0)
      + GiftLogFrom(AfterGallery(s, inv, d), inv, RowsOf(Get(d, "giftAccounts")), 0)
  }

  /** The UPDATEs one run issues, stage by stage. */
  ghost function SyncLog(s: Store, inv: nat, d: map<string, Value>): seq<Write>
    requires s.Valid()
  {
    RowsLog(s, inv, d) + MusicLog(AfterGifts(s, inv, d), inv, d)
  }

  lemma PeopleLogged(s: Store, inv: nat, d: map<string, Value>)
    requires s.Valid()
    ensures Logged(AfterGroom(s, inv, d), PeopleLog(s, inv, d))
  {
    var l1 := CoupleLog(s, inv, d);
    var l2 := PersonLog(AfterCouple(s, inv, d), inv, d, Bride);
    LoggedEmpty(s);
    CoupleLogged(s, [], inv, d);
    assert [] + l1 == l1;
    PersonLogged(AfterCouple(s, inv, d), l1, inv, d, Bride);
    PersonLogged(AfterBride(s, inv, d), l1 + l2, inv, d, Groom);
  }

  lemma RowsLogged(s: Store, inv: nat, d: map<string, Value>)
    requires s.Valid()
    ensures Logged(AfterGifts(s, inv, d), RowsLog(s, inv, d))
  {
    var l := PeopleLog(s, inv, d);
    var l4 := GalleryLogFrom(AfterGroom(s, inv, d), inv, RowsOf(Get(d, "galleryItems")), 0);
    PeopleLogged(s, inv, d);
    GalleryFromLogged(AfterGroom(s, inv, d), l, inv, RowsOf(Get(d, "galleryItems")), 0);
    GiftsFromLogged(AfterGallery(s, inv, d), l + l4, inv, RowsOf(Get(d, "giftAccounts")), 0);
  }

  /** The result of one run satisfies every UPDATE the run issued. */
  lemma SyncLogged(s: Store, inv: nat, d: map<string, Value>)
    requires s.Valid()
    ensures Logged(SyncAll(s, inv, d), SyncLog(s, inv, d))
  {
    RowsLogged(s, inv, d);
    MusicLogged(AfterGifts(s, inv, d), RowsLog(s, inv, d), inv, d);
    SyncAllStages(s, inv, d);
  }

  /** Carries growth from the end of the first run across one more stage of
      the second run. */
  lemma ReplayStep(a: Store, end: Store, y: Store, y1: Store)
    requires Grows(a, end) && Grows(end, y) && Grows(y, y1)
    ensures Grows(a, y1)
  {
    GrowsTrans(a, end, y);
    GrowsTrans(a, y, y1);
  }

  /** The first three stages of the second run replay the first run's. */
  lemma PeopleReplay(s: Store, y: Store, inv: nat, d: map<string, Value>)
    requires s.Valid() && y.Valid() && Grows(SyncAll(s, inv, d), y)
    ensures AfterGroom(y, inv, d) == ApplyAll(y, PeopleLog(s, inv, d))
  {
    var r := SyncAll(s, inv, d);
    var l1 := CoupleLog(s, inv, d);
    var l2 := PersonLog(AfterCouple(s, inv, d), inv, d, Bride);
    var l3 := PersonLog(AfterBride(s, inv, d), inv, d, Groom);
    StagesGrowToEnd(s, inv, d);
    GrowsTrans(AfterCouple(s, inv, d), r, y);
    CoupleReplays(s, y, inv, d);
    ReplayStep(AfterBride(s, inv, d), r, y, AfterCouple(y, inv, d));
    PersonReplays(AfterCouple(s, inv, d), AfterCouple(y, inv, d), inv, d, Bride);
    ReplayConcat(y, l1, l2);
    GrowsTrans(y, AfterCouple(y, inv, d), AfterBride(y, inv, d));
    ReplayStep(AfterGroom(s, inv, d), r, y, AfterBride(y, inv, d));
    PersonReplays(AfterBride(s, inv, d), AfterBride(y, inv, d), inv, d, Groom);
    ReplayConcat(y, l1 + l2, l3);
  }

  /** Before the gallery loop of the second run: the people stages have been
      replayed, and the first run's gallery loop has grown into that state. */
  lemma GalleryReady(s: Store, y: Store, inv: nat, d: map<string, Value>)
    requires s.Valid() && y.Valid() && Grows(SyncAll(s, inv, d), y) && RowsResolve(s, inv, d)
    ensures var gallery := RowsOf(Get(d, "galleryItems"));
            var s3 := AfterGroom(s, inv, d);
            var y3 := AfterGroom(y, inv, d);
            && y3 == ApplyAll(y, PeopleLog(s, inv, d))
            && Grows(SyncGalleryFrom(s3, inv, gallery, 0), y3)
            && GalleryResolves(s3, inv, gallery, 0)
  {
    var r := SyncAll(s, inv, d);
    var s3 := AfterGroom(s, inv, d);
    var y3 := AfterGroom(y, inv, d);
    PeopleReplay(s, y, inv, d);
    StagesGrowToEnd(s, inv, d);
    ApplyAllGrows(y, PeopleLog(s, inv, d));
    ReplayStep(AfterGallery(s, inv, d), r, y, y3);
    GrowsTrans(s, s3, r);
    GalleryResolvesGrows(s, s3, inv, RowsOf(Get(d, "galleryItems")), 0);
  }

  lemma GalleryReplay(s: Store, y: Store, inv: nat, d: map<string, Value>)
    requires s.Valid() && y.Valid() && Grows(SyncAll(s, inv, d), y) && RowsResolve(s, inv, d)
    ensures AfterGallery(y, inv, d)
            == ApplyAll(y, PeopleLog(s, inv, d)
                           + GalleryLogFrom(AfterGroom(s, inv, d), inv, RowsOf(Get(d, "galleryItems")), 0))
  {
    var gallery := RowsOf(Get(d, "galleryItems"));
    var s3 := AfterGroom(s, inv, d);
    var y3 := AfterGroom(y, inv, d);
    GalleryReady(s, y, inv, d);
    GalleryFromReplays(s3, y3, inv, gallery, 0);
    ReplayConcat(y, PeopleLog(s, inv, d), GalleryLogFrom(s3, inv, gallery, 0));
  }

  /** Before the gift loop of the second run: the people stages and the
      gallery loop have been replayed, and the first run's gift loop has grown
      into that state. */
  lemma GiftsReady(s: Store, y: Store, inv: nat, d: map<string, Value>)
    requires s.Valid() && y.Valid() && Grows(SyncAll(s, inv, d), y) && RowsResolve(s, inv, d)
    ensures var gifts := RowsOf(Get(d, "giftAccounts"));
            var s4 := AfterGallery(s, inv, d);
            var y4 := AfterGallery(y, inv, d);
            && y4 == ApplyAll(y, PeopleLog(s, inv, d)
                                 + GalleryLogFrom(AfterGroom(s, inv, d), inv, RowsOf(Get(d, "galleryItems")), 0))
            && Grows(SyncGiftsFrom(s4, inv, gifts, 0), y4)
            && GiftsResolve(s4, inv, gifts, 0)
  {
    var r := SyncAll(s, inv, d);
    var s4 := AfterGallery(s, inv, d);
    var y4 := AfterGallery(y, inv, d);
    var l := PeopleLog(s, inv, d) + GalleryLogFrom(AfterGroom(s, inv, d), inv, RowsOf(Get(d, "galleryItems")), 0);
    GalleryReplay(s, y, inv, d);
    StagesGrowToEnd(s, inv, d);
    ApplyAllGrows(y, l);
    ReplayStep(AfterGifts(s, inv, d), r, y, y4);
    GrowsTrans(s, s4, r);
    GiftsResolveGrows(s, s4, inv, RowsOf(Get(d, "giftAccounts")), 0);
  }

  lemma RowsReplay(s: Store, y: Store, inv: nat, d: map<string, Value>)
    requires s.Valid() && y.Valid() && Grows(SyncAll(s, inv, d), y) && RowsResolve(s, inv, d)
    ensures AfterGifts(y, inv, d) == ApplyAll(y, RowsLog(s, inv, d))
  {
    var gifts := RowsOf(Get(d, "giftAccounts"));
    var s4 := AfterGallery(s, inv, d);
    var y4 := AfterGallery(y, inv, d);
    var l := PeopleLog(s, inv, d) + GalleryLogFrom(AfterGroom(s, inv, d), inv, RowsOf(Get(d, "galleryItems")), 0);
    GiftsReady(s, y, inv, d);
    GiftsFromReplays(s4, y4, inv, gifts, 0);
    ReplayConcat(y, l, GiftLogFrom(s4, inv, gifts, 0));
  }

  /** A run from any state grown from the first run's result issues the same
      UPDATEs and inserts nothing. */
  lemma SyncReplays(s: Store, y: Store, inv: nat, d: map<string, Value>)
    requires s.Valid() && y.Valid() && RowsResolve(s, inv, d)
    requires Grows(SyncAll(s, inv, d), y)
    ensures SyncAll(y, inv, d) == ApplyAll(y, SyncLog(s, inv, d))
  {
    var r := SyncAll(s, inv, d);
    var y5 := AfterGifts(y, inv, d);
    RowsReplay(s, y, inv, d);
    SyncAllStages(s, inv, d);
    SyncAllStages(y, inv, d);
    ApplyAllGrows(y, RowsLog(s, inv, d));
    GrowsTrans(r, y, y5);
    MusicReplays(AfterGifts(s, inv, d), y5, inv, d);
    ReplayConcat(y, RowsLog(s, inv, d), MusicLog(AfterGifts(s, inv, d), inv, d));
  }

  /** Saving the same form state twice leaves the store exactly as saving it
      once, when every gallery and gift row with a file names an existing row
      of the invitation: no asset, gallery item or gift account is created
      twice, and every link and position is already in place. */
  lemma SyncIsIdempotent(s: Store, inv: nat, d: map<string, Value>)
    requires s.Valid() && RowsResolve(s, inv, d)
    ensures SyncAll(SyncAll(s, inv, d), inv, d) == SyncAll(s, inv, d)
  {
    var r := SyncAll(s, inv, d);
    SyncLogged(s, inv, d);
    GrowsRefl(r);
    SyncReplays(s, r, inv, d);
  }
}
