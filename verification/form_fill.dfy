/** The form fill of the edit page (`mutateFormDataBeforeFill`) and of the
    wizard (`fillFormFromRecord`): the stored people, uploads, gallery items and
    gift accounts of an invitation written into the form state the reconciler
    later reads back. The framework's own hydration between fill and save is
    not modelled: the state a save submits is the filled state as the user
    left it. */
module FormFill {
  import opened Wrappers
  import opened Php
  import opened Tables
  import opened Schema
  import opened StoreUpdates
  import opened Growth
  import opened Ordering
  import opened InvitationModel
  import opened SyncInvitationAssets

  /** A nullable column as a form value: the string, or null. */
  function OptValue(o: Option<string>): (v: Value)
    ensures ColumnText(v) == o
  {
    if o.Some? then VStr(o.value) else VNull
  }

  /** `$asset?->storage === 'local' ? $asset?->path : ...`: the stored path of a
      linked local asset; nothing when the link is empty, dangling or not local. */
  function LocalPath(assets: map<nat, Asset>, link: Option<nat>): (r: Option<Value>)
    ensures r.Some? <==> link.Some? && link.value in assets && assets[link.value].storage == STORAGE_LOCAL
    ensures r.Some? ==> r.value == OptValue(assets[link.value].path)
  {
    if link.Some? && link.value in assets && assets[link.value].storage == STORAGE_LOCAL
    then Some(OptValue(assets[link.value].path))
    else None
  }

  /** `if (... === 'local') { $data[$key] = ...; }`. */
  function SetIfLocal(d: map<string, Value>, key: string, assets: map<nat, Asset>, link: Option<nat>): (r: map<string, Value>)
    ensures SameOutside(d, r, {key})
  {
    match LocalPath(assets, link)
    case Some(v) => d[key := v]
    case None => d
  }

  function CoupleImageLink(s: Store, inv: nat): Option<nat> {
    if inv in s.couples then s.couples[inv].imageAssetId else None
  }

  function MusicAudioLink(s: Store, inv: nat): Option<nat> {
    if inv in s.music then s.music[inv].audioAssetId else None
  }

  /** `$record->people->firstWhere('role', ...)` over the people in key order. */
  function PersonOf(s: Store, inv: nat, role: Role): Option<Person> {
    FirstWithRole(Owned(s.people, PersonOwner, inv), role)
  }

  /** The five text columns of a person. */
  function Columns(p: Person): PersonText {
    PersonText(p.name, p.title, p.fatherName, p.motherName, p.instagram)
  }

  const NO_TEXT: PersonText := PersonText(None, None, None, None, None)

  /** `$bride?->name` and the other four: all null without a person. */
  function FilledText(p: Option<Person>): PersonText {
    if p.Some? then Columns(p.value) else NO_TEXT
  }

  function PhotoLink(p: Option<Person>): Option<nat> {
    if p.Some? then p.value.photoAssetId else None
  }

  /** The five text keys of a role. */
  function TextKeys(role: Role): set<string> {
    if role == Bride then {"bride_name", "bride_title", "bride_father_name", "bride_mother_name", "bride_instagram_handle"}
    else {"groom_name", "groom_title", "groom_father_name", "groom_mother_name", "groom_instagram_handle"}
  }

  function PhotoKey(role: Role): string {
    if role == Bride then "bride_photo" else "groom_photo"
  }

  /** The six form keys of a role. */
  function RoleKeys(role: Role): set<string> {
    TextKeys(role) + {PhotoKey(role)}
  }

  /** The keys `PersonKeyName` builds, spelled out. */
  lemma PersonKeyNames(role: Role)
    ensures role == Bride ==>
              && PersonKeyName(role, "name") == "bride_name" && PersonKeyName(role, "title") == "bride_title"
              && PersonKeyName(role, "father_name") == "bride_father_name"
              && PersonKeyName(role, "mother_name") == "bride_mother_name"
              && PersonKeyName(role, "instagram_handle") == "bride_instagram_handle"
              && PersonKeyName(role, "photo") == "bride_photo"
    ensures role == Groom ==>
              && PersonKeyName(role, "name") == "groom_name" && PersonKeyName(role, "title") == "groom_title"
              && PersonKeyName(role, "father_name") == "groom_father_name"
              && PersonKeyName(role, "mother_name") == "groom_mother_name"
              && PersonKeyName(role, "instagram_handle") == "groom_instagram_handle"
              && PersonKeyName(role, "photo") == "groom_photo"
  {
  }

  /** The two roles' keys and the music and repeater keys never overlap. */
  lemma KeySetsDisjoint()
    ensures TextKeys(Bride) !! RoleKeys(Groom)
    ensures TextKeys(Bride) !! {"music_audio", "galleryItems", "giftAccounts"}
    ensures TextKeys(Groom) !! {"music_audio", "galleryItems", "giftAccounts"}
  {
  }

  /** `r` and `d` agree on every key outside `w`. */
  ghost predicate SameOutside(d: map<string, Value>, r: map<string, Value>, w: set<string>) {
    forall k :: k !in w ==> (k in r <==> k in d) && (k in r ==> r[k] == d[k])
  }

  lemma SameOutsideTrans(a: map<string, Value>, b: map<string, Value>, c: map<string, Value>, w1: set<string>, w2: set<string>)
    requires SameOutside(a, b, w1) && SameOutside(b, c, w2)
    ensures SameOutside(a, c, w1 + w2)
  {
  }

  /** Writes outside a role's text keys do not change what the reconciler reads for it. */
  lemma TextUnaffected(d: map<string, Value>, r: map<string, Value>, w: set<string>, role: Role)
    requires SameOutside(d, r, w) && TextKeys(role) !! w
    ensures PersonTextOf(r, role) == PersonTextOf(d, role)
  {
    PersonKeyNames(role);
  }

  function WriteTextRaw(d: map<string, Value>, role: Role, t: PersonText): map<string, Value> {
    d[PersonKeyName(role, "name") := OptValue(t.name)]
     [PersonKeyName(role, "title") := OptValue(t.title)]
     [PersonKeyName(role, "father_name") := OptValue(t.fatherName)]
     [PersonKeyName(role, "mother_name") := OptValue(t.motherName)]
     [PersonKeyName(role, "instagram_handle") := OptValue(t.instagram)]
  }

  lemma WriteTextReads(d: map<string, Value>, role: Role, t: PersonText)
    ensures PersonTextOf(WriteTextRaw(d, role, t), role) == t
    ensures SameOutside(d, WriteTextRaw(d, role, t), TextKeys(role))
  {
    PersonKeyNames(role);
  }

  /** `$data['bride_name'] = ...` and the other four text keys of a role. */
  function WriteText(d: map<string, Value>, role: Role, t: PersonText): (r: map<string, Value>)
    ensures PersonTextOf(r, role) == t
    ensures SameOutside(d, r, TextKeys(role))
  {
    WriteTextReads(d, role, t);
    WriteTextRaw(d, role, t)
  }

  /** The five text keys and, for a local photo, the photo key of one role. */
  function FillPerson(s: Store, inv: nat, d: map<string, Value>, role: Role): (r: map<string, Value>)
    ensures PersonTextOf(r, role) == FilledText(PersonOf(s, inv, role))
    ensures SameOutside(d, r, RoleKeys(role))
  {
    var p := PersonOf(s, inv, role);
    var d1 := WriteText(d, role, FilledText(p));
    var r := SetIfLocal(d1, PhotoKey(role), s.assets.rows, PhotoLink(p));
    assert SameOutside(d1, r, {PhotoKey(role)});
    TextUnaffected(d1, r, {PhotoKey(role)}, role);
    SameOutsideTrans(d, d1, r, TextKeys(role), {PhotoKey(role)});
    r
  }

  // ---------------------------------------------------------------------------
  // The repeaters

  /** The gallery item a key names, and a placeholder for a key that names none. */
  function GalleryRowOf(rows: map<nat, GalleryItem>): nat -> GalleryItem {
    (k: nat) => if k in rows then rows[k] else GalleryItem(0, 0, 0)
  }

  function GalleryKeyOrder(rows: map<nat, GalleryItem>): nat -> int {
    (k: nat) => GalleryOrder(GalleryRowOf(rows)(k))
  }

  function GiftRowOf(rows: map<nat, GiftAccount>): nat -> GiftAccount {
    (k: nat) => if k in rows then rows[k] else GiftAccount(0, 0, None, None, None, None)
  }

  function GiftKeyOrder(rows: map<nat, GiftAccount>): nat -> int {
    (k: nat) => GiftOrder(GiftRowOf(rows)(k))
  }

  /** The keys of a `hasMany` relation, reordered on `key`. */
  function SortedOwnedKeys<T>(t: Table<T>, owner: T -> nat, inv: nat, key: nat -> int): (ks: seq<nat>)
    ensures |ks| == |OwnedKeys(t, owner, inv)|
    ensures forall i :: 0 <= i < |ks| ==> ks[i] >= 1 && ks[i] in t.rows && owner(t.rows[ks[i]]) == inv
  {
    var owned := OwnedKeys(t, owner, inv);
    var ks := SortBy(owned, key);
    forall i | 0 <= i < |ks| ensures ks[i] >= 1 && ks[i] in t.rows && owner(t.rows[ks[i]]) == inv {
      assert ks[i] in multiset(owned);
    }
    ks
  }

  /** Every row of the relation appears among the reordered keys. */
  lemma SortedOwnedKeysCover<T>(t: Table<T>, owner: T -> nat, inv: nat, key: nat -> int, k: nat)
    requires t.Valid() && k in t.rows && owner(t.rows[k]) == inv
    ensures k in SortedOwnedKeys(t, owner, inv, key)
  {
    var owned := OwnedKeys(t, owner, inv);
    assert OwnerIs(owner, inv)(t.rows[k]);
    assert k in owned;
    assert k in multiset(SortBy(owned, key));
  }

  /** The keys of the invitation's gallery items in the relation's order. */
  function GalleryKeys(s: Store, inv: nat): (ks: seq<nat>)
    ensures |ks| == |OwnedKeys(s.gallery, GalleryOwner, inv)|
    ensures forall i :: 0 <= i < |ks| ==>
              ks[i] >= 1 && ks[i] in s.gallery.rows && s.gallery.rows[ks[i]].invitation == inv
  {
    SortedOwnedKeys(s.gallery, GalleryOwner, inv, GalleryKeyOrder(s.gallery.rows))
  }

  function GiftKeys(s: Store, inv: nat): (ks: seq<nat>)
    ensures |ks| == |OwnedKeys(s.giftAccounts, GiftOwner, inv)|
    ensures forall i :: 0 <= i < |ks| ==>
              ks[i] >= 1 && ks[i] in s.giftAccounts.rows && s.giftAccounts.rows[ks[i]].invitation == inv
  {
    SortedOwnedKeys(s.giftAccounts, GiftOwner, inv, GiftKeyOrder(s.giftAccounts.rows))
  }

  /** `['id' => $item->id, 'image' => <local path or null>]`. */
  function GalleryRowValue(s: Store, k: nat): Value {
    if k in s.gallery.rows then
      VRecord(map["id" := VInt(k),
                  "image" := LocalPath(s.assets.rows, Some(s.gallery.rows[k].imageAssetId)).GetOr(VNull)])
    else VNull
  }

  /** `['id' => ..., 'bank_name' => ..., 'account_number' => ...,
      'account_holder' => ..., 'qr_image' => <local path or null>]`. */
  function GiftRowValue(s: Store, k: nat): Value {
    if k in s.giftAccounts.rows then
      var g := s.giftAccounts.rows[k];
      VRecord(map["id" := VInt(k),
                  "bank_name" := OptValue(g.bankName),
                  "account_number" := OptValue(g.accountNumber),
                  "account_holder" := OptValue(g.accountHolder),
                  "qr_image" := LocalPath(s.assets.rows, g.qrAssetId).GetOr(VNull)])
    else VNull
  }

  function GalleryRows(s: Store, inv: nat): (r: seq<Value>)
    ensures |r| == |GalleryKeys(s, inv)|
    ensures forall i :: 0 <= i < |r| ==> r[i] == GalleryRowValue(s, GalleryKeys(s, inv)[i])
  {
    MapSeq(GalleryKeys(s, inv), k => GalleryRowValue(s, k))
  }

  function GiftRows(s: Store, inv: nat): (r: seq<Value>)
    ensures |r| == |GiftKeys(s, inv)|
    ensures forall i :: 0 <= i < |r| ==> r[i] == GiftRowValue(s, GiftKeys(s, inv)[i])
  {
    MapSeq(GiftKeys(s, inv), k => GiftRowValue(s, k))
  }

  /** The keys the shared part of both fills writes. */
  const FILLED_KEYS: set<string> := RoleKeys(Bride) + RoleKeys(Groom) + {"music_audio", "galleryItems", "giftAccounts"}

  /** `$data['galleryItems'] = ...; $data['giftAccounts'] = ...`. */
  function SetRepeaters(d: map<string, Value>, gallery: seq<Value>, gifts: seq<Value>): (r: map<string, Value>)
    ensures Get(r, "galleryItems") == VList(gallery) && Get(r, "giftAccounts") == VList(gifts)
    ensures SameOutside(d, r, {"galleryItems", "giftAccounts"})
  {
    d["galleryItems" := VList(gallery)]["giftAccounts" := VList(gifts)]
  }

  /** The bride's and the groom's keys. */
  function FillPeople(s: Store, inv: nat, d: map<string, Value>): (r: map<string, Value>)
    ensures SameOutside(d, r, RoleKeys(Bride) + RoleKeys(Groom))
    ensures PersonTextOf(r, Bride) == FilledText(PersonOf(s, inv, Bride))
    ensures PersonTextOf(r, Groom) == FilledText(PersonOf(s, inv, Groom))
  {
    var d1 := FillPerson(s, inv, d, Bride);
    var r := FillPerson(s, inv, d1, Groom);
    KeySetsDisjoint();
    TextUnaffected(d1, r, RoleKeys(Groom), Bride);
    SameOutsideTrans(d, d1, r, RoleKeys(Bride), RoleKeys(Groom));
    r
  }

  /** The music key and the two repeaters. */
  function FillRest(s: Store, inv: nat, d: map<string, Value>): (r: map<string, Value>)
    ensures SameOutside(d, r, {"music_audio", "galleryItems", "giftAccounts"})
    ensures Get(r, "galleryItems") == VList(GalleryRows(s, inv)) && Get(r, "giftAccounts") == VList(GiftRows(s, inv))
    ensures PersonTextOf(r, Bride) == PersonTextOf(d, Bride) && PersonTextOf(r, Groom) == PersonTextOf(d, Groom)
  {
    var d1 := SetIfLocal(d, "music_audio", s.assets.rows, MusicAudioLink(s, inv));
    var r := SetRepeaters(d1, GalleryRows(s, inv), GiftRows(s, inv));
    var w := {"music_audio", "galleryItems", "giftAccounts"};
    SameOutsideTrans(d, d1, r, {"music_audio"}, {"galleryItems", "giftAccounts"});
    assert {"music_audio"} + {"galleryItems", "giftAccounts"} == w;
    KeySetsDisjoint();
    TextUnaffected(d, r, w, Bride);
    TextUnaffected(d, r, w, Groom);
    r
  }

  /** Everything both fills do after the couple image: bride, groom, music,
      gallery rows and gift account rows. */
  function CommonFill(s: Store, inv: nat, d: map<string, Value>): (r: map<string, Value>)
    ensures SameOutside(d, r, FILLED_KEYS)
    ensures Get(r, "galleryItems") == VList(GalleryRows(s, inv)) && Get(r, "giftAccounts") == VList(GiftRows(s, inv))
    ensures PersonTextOf(r, Bride) == FilledText(PersonOf(s, inv, Bride))
    ensures PersonTextOf(r, Groom) == FilledText(PersonOf(s, inv, Groom))
  {
    var d1 := FillPeople(s, inv, d);
    var r := FillRest(s, inv, d1);
    SameOutsideTrans(d, d1, r, RoleKeys(Bride) + RoleKeys(Groom), {"music_audio", "galleryItems", "giftAccounts"});
    r
  }

  /** The edit page's fill: a local couple image goes to the top-level
      `couple_image` key the reconciler reads. */
  function EditFill(s: Store, inv: nat, d: map<string, Value>): map<string, Value> {
    CommonFill(s, inv, SetIfLocal(d, "couple_image", s.assets.rows, CoupleImageLink(s, inv)))
  }

  /** `data_set($data, 'couple.couple_image', $path)`: the nested key is set,
      and a `couple` entry that is not an array is replaced by one. */
  function DataSetNested(d: map<string, Value>, outer: string, inner: string, v: Value): (r: map<string, Value>)
    ensures outer in r && r[outer].VRecord? && inner in r[outer].fields && r[outer].fields[inner] == v
    ensures forall k :: k != outer ==> (k in r <==> k in d) && (k in r ==> r[k] == d[k])
    ensures outer in d && d[outer].VRecord? ==>
              forall k :: k != inner && k in d[outer].fields ==> k in r[outer].fields && r[outer].fields[k] == d[outer].fields[k]
  {
    var inside := if outer in d && d[outer].VRecord? then d[outer].fields else map[];
    d[outer := VRecord(inside[inner := v])]
  }

  /** The wizard's fill: starts from the invitation's attributes and puts a
      local couple image under `couple.couple_image`. */
  function WizardFill(s: Store, inv: nat, attrs: map<string, Value>): map<string, Value> {
    var d := match LocalPath(s.assets.rows, CoupleImageLink(s, inv))
             case Some(v) => DataSetNested(attrs, "couple", "couple_image", v)
             case None => attrs;
    CommonFill(s, inv, d)
  }

  // ---------------------------------------------------------------------------
  // What a fill promises the reconciler

  /** Each filled gallery row names an item of the invitation, and the rows come
      in the order the relation loads the items. */
  lemma {:induction false} GalleryFillFollowsLoad(s: Store, inv: nat)
    requires s.Valid() && inv in s.invitations.rows
    ensures MapSeq(GalleryKeys(s, inv), GalleryRowOf(s.gallery.rows)) == Load(s, inv).gallery
  {
    var rows := s.gallery.rows;
    var owned := OwnedKeys(s.gallery, GalleryOwner, inv);
    assert KeepsKey(GalleryRowOf(rows), GalleryKeyOrder(rows), GalleryOrder);
    MapSortBy(owned, GalleryKeyOrder(rows), GalleryRowOf(rows), GalleryOrder);
    assert MapSeq(owned, GalleryRowOf(rows)) == Owned(s.gallery, GalleryOwner, inv);
  }

  lemma {:induction false} GiftFillFollowsLoad(s: Store, inv: nat)
    requires s.Valid() && inv in s.invitations.rows
    ensures MapSeq(GiftKeys(s, inv), GiftRowOf(s.giftAccounts.rows)) == Load(s, inv).giftAccounts
  {
    var rows := s.giftAccounts.rows;
    var owned := OwnedKeys(s.giftAccounts, GiftOwner, inv);
    assert KeepsKey(GiftRowOf(rows), GiftKeyOrder(rows), GiftOrder);
    MapSortBy(owned, GiftKeyOrder(rows), GiftRowOf(rows), GiftOrder);
    assert MapSeq(owned, GiftRowOf(rows)) == Owned(s.giftAccounts, GiftOwner, inv);
  }

  /** A filled gallery row's id is what the reconciler's `whereKey` looks up. */
  lemma GalleryRowsName(s: Store, inv: nat, i: nat)
    requires s.Valid() && i < |GalleryRows(s, inv)|
    ensures var k := GalleryKeys(s, inv)[i];
            RowKey(RowField(GalleryRows(s, inv)[i], "id")) == Some(k)
            && FindGalleryItem(s, inv, Some(k)) == Some(k)
  {
  }

  lemma GiftRowsName(s: Store, inv: nat, i: nat)
    requires s.Valid() && i < |GiftRows(s, inv)|
    ensures var k := GiftKeys(s, inv)[i];
            RowKey(RowField(GiftRows(s, inv)[i], "id")) == Some(k)
            && FindGiftAccount(s, inv, Some(k)) == Some(k)
  {
  }

  /** Saving a filled form never takes the create branch of a gallery or gift
      row: every row that carries a file names an existing row of the invitation. */
  lemma CommonFillResolves(s: Store, inv: nat, d: map<string, Value>)
    requires s.Valid()
    ensures var f := CommonFill(s, inv, d);
            && (forall k :: 0 <= k < |RowsOf(Get(f, "galleryItems"))| ==>
                  FindGalleryItem(s, inv, RowKey(RowField(RowsOf(Get(f, "galleryItems"))[k], "id"))).Some?)
            && (forall k :: 0 <= k < |RowsOf(Get(f, "giftAccounts"))| ==>
                  FindGiftAccount(s, inv, RowKey(RowField(RowsOf(Get(f, "giftAccounts"))[k], "id"))).Some?)
  {
    var f := CommonFill(s, inv, d);
    assert RowsOf(Get(f, "galleryItems")) == GalleryRows(s, inv);
    assert RowsOf(Get(f, "giftAccounts")) == GiftRows(s, inv);
    forall k | 0 <= k < |GalleryRows(s, inv)|
      ensures FindGalleryItem(s, inv, RowKey(RowField(GalleryRows(s, inv)[k], "id"))).Some?
    {
      GalleryRowsName(s, inv, k);
    }
    forall k | 0 <= k < |GiftRows(s, inv)|
      ensures FindGiftAccount(s, inv, RowKey(RowField(GiftRows(s, inv)[k], "id"))).Some?
    {
      GiftRowsName(s, inv, k);
    }
  }

  /** The filled person text is what the reconciler writes back: the person it
      updates keeps its five text columns. */
  lemma FilledTextRoundTrip(s: Store, inv: nat, d: map<string, Value>, role: Role, pid: nat)
    requires s.Valid() && First(s.people, PersonMatch(inv, role)) == Some(pid)
    ensures WithText(s.people.rows[pid], PersonTextOf(CommonFill(s, inv, d), role)) == s.people.rows[pid]
  {
    RoleHelperFindsFirstPerson(s, inv, role, pid);
  }

  /** Without a person of the role, the filled text is all null. */
  lemma FilledTextWhenMissing(s: Store, inv: nat, d: map<string, Value>, role: Role)
    requires s.Valid() && First(s.people, PersonMatch(inv, role)).None?
    ensures PersonTextOf(CommonFill(s, inv, d), role) == NO_TEXT
  {
    RoleHelperFindsNothing(s, inv, role);
  }

  /** Neither fill's shared part writes the couple keys. */
  lemma CoupleKeysNotFilled()
    ensures "couple_image" !in FILLED_KEYS && "couple" !in FILLED_KEYS
  {
  }

  /** A local couple image is filled where the reconciler looks for it, so
      saving the untouched form links the same path again. */
  lemma EditFillCoupleImage(s: Store, inv: nat, d: map<string, Value>)
    requires LocalPath(s.assets.rows, CoupleImageLink(s, inv)).Some?
    ensures Get(EditFill(s, inv, d), "couple_image") == LocalPath(s.assets.rows, CoupleImageLink(s, inv)).value
  {
    CoupleKeysNotFilled();
    var e := SetIfLocal(d, "couple_image", s.assets.rows, CoupleImageLink(s, inv));
    assert SameOutside(e, CommonFill(s, inv, e), FILLED_KEYS);
  }

  /** The edit fill leaves `couple_image` alone unless the stored image is local. */
  lemma EditFillNoLocalCoupleImage(s: Store, inv: nat, d: map<string, Value>)
    requires LocalPath(s.assets.rows, CoupleImageLink(s, inv)).None?
    ensures Get(EditFill(s, inv, d), "couple_image") == Get(d, "couple_image")
  {
    CoupleKeysNotFilled();
    assert SameOutside(d, CommonFill(s, inv, d), FILLED_KEYS);
  }

  /** The wizard's fill never writes the top-level key the reconciler reads:
      whatever the stored couple image, `couple_image` is what the attributes had. */
  lemma WizardFillLeavesTopLevelCoupleImage(s: Store, inv: nat, attrs: map<string, Value>)
    ensures Get(WizardFill(s, inv, attrs), "couple_image") == Get(attrs, "couple_image")
  {
    CoupleKeysNotFilled();
    var e := match LocalPath(s.assets.rows, CoupleImageLink(s, inv))
             case Some(v) => DataSetNested(attrs, "couple", "couple_image", v)
             case None => attrs;
    assert Get(e, "couple_image") == Get(attrs, "couple_image");
    assert SameOutside(e, CommonFill(s, inv, e), FILLED_KEYS);
  }

  /** ... and keeps the stored path under `couple.couple_image` instead. */
  lemma WizardFillNestsCoupleImage(s: Store, inv: nat, attrs: map<string, Value>)
    requires LocalPath(s.assets.rows, CoupleImageLink(s, inv)).Some?
    ensures var f := WizardFill(s, inv, attrs);
            && "couple" in f && f["couple"].VRecord? && "couple_image" in f["couple"].fields
            && f["couple"].fields["couple_image"] == LocalPath(s.assets.rows, CoupleImageLink(s, inv)).value
  {
    CoupleKeysNotFilled();
    var e := DataSetNested(attrs, "couple", "couple_image", LocalPath(s.assets.rows, CoupleImageLink(s, inv)).value);
    assert SameOutside(e, CommonFill(s, inv, e), FILLED_KEYS);
  }

  /** So saving an untouched wizard form never touches the couple image. */
  lemma WizardSaveSkipsCoupleImage(s: Store, inv: nat, attrs: map<string, Value>)
    requires s.Valid() && "couple_image" !in attrs
    ensures SyncCoupleImage(s, inv, WizardFill(s, inv, attrs)) == s
  {
    WizardFillLeavesTopLevelCoupleImage(s, inv, attrs);
  }

  /** Apart from the two repeaters, every key either fill adds is stripped
      before the invitation row is saved. */
  lemma FilledKeysAreTransient()
    ensures FILLED_KEYS + {"couple_image"} == TRANSIENT_KEYS + {"galleryItems", "giftAccounts"}
    ensures "galleryItems" !in TRANSIENT_KEYS && "giftAccounts" !in TRANSIENT_KEYS
  {
  }

  /** What stripping keeps of a state that differs from `d` only in
      transient keys and the two repeaters. */
  lemma StripKeepsPageData(d: map<string, Value>, f: map<string, Value>)
    requires SameOutside(d, f, TRANSIENT_KEYS + {"galleryItems", "giftAccounts"})
    requires "galleryItems" in f && "giftAccounts" in f
    ensures var saved := StripInvitationFormData(f);
            && (forall k :: k in saved <==> k in StripInvitationFormData(d) || k == "galleryItems" || k == "giftAccounts")
            && (forall k :: k in saved && k != "galleryItems" && k != "giftAccounts" ==> saved[k] == d[k])
  {
    FilledKeysAreTransient();
  }

  /** The row save of a filled edit form sees the page's own data, plus the
      two repeaters. */
  lemma EditFillStripped(s: Store, inv: nat, d: map<string, Value>)
    ensures var saved := StripInvitationFormData(EditFill(s, inv, d));
            && (forall k :: k in saved <==> k in StripInvitationFormData(d) || k == "galleryItems" || k == "giftAccounts")
            && (forall k :: k in saved && k != "galleryItems" && k != "giftAccounts" ==> saved[k] == d[k])
  {
    FilledKeysAreTransient();
    var e := SetIfLocal(d, "couple_image", s.assets.rows, CoupleImageLink(s, inv));
    var f := CommonFill(s, inv, e);
    SameOutsideTrans(d, e, f, {"couple_image"}, FILLED_KEYS);
    assert "galleryItems" in f && "giftAccounts" in f;
    StripKeepsPageData(d, f);
  }
}
