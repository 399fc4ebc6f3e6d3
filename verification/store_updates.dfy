/** The row-level operations the asset reconciler issues: INSERTs ("creations")
    and column UPDATEs ("writes"), with the algebra that makes reconciliation
    repeatable: a later write to the same columns hides an earlier one, writes
    to different columns commute, and inserting a fresh row commutes with
    writes to rows that already exist. */
module StoreUpdates {
  import opened Wrappers
  import opened Tables
  import opened Schema

  /** The five text columns `syncPerson` always overwrites. */
  datatype PersonText = PersonText(
    name: Option<string>,
    title: Option<string>,
    fatherName: Option<string>,
    motherName: Option<string>,
    instagram: Option<string>)

  /** One `->update([...])` on an existing row. */
  datatype Write =
    | SetAssetLocal(asset: nat, altText: string)          // storage := "local", alt_text
    | SetCoupleImage(invitation: nat, asset: nat)         // couple_image_asset_id
    | SetPersonText(person: nat, text: PersonText)        // name, title, father, mother, instagram
    | SetPersonPhoto(person: nat, asset: nat)             // photo_asset_id
    | SetGalleryItem(item: nat, sortOrder: int, asset: nat) // sort_order, image_asset_id
    | SetGiftQr(account: nat, asset: nat)                 // qr_asset_id
    | SetMusicAudio(invitation: nat, asset: nat)          // audio_asset_id

  /** The row a write addresses exists. */
  predicate TargetIn(w: Write, s: Store) {
    match w
    case SetAssetLocal(id, _) => id in s.assets.rows
    case SetCoupleImage(inv, _) => inv in s.couples
    case SetPersonText(id, _) => id in s.people.rows
    case SetPersonPhoto(id, _) => id in s.people.rows
    case SetGalleryItem(id, _, _) => id in s.gallery.rows
    case SetGiftQr(id, _) => id in s.giftAccounts.rows
    case SetMusicAudio(inv, _) => inv in s.music
  }

  /** The columns a write overwrites, as (column group, row key). */
  function Cells(w: Write): (int, nat) {
    match w
    case SetAssetLocal(id, _) => (0, id)
    case SetCoupleImage(inv, _) => (1, inv)
    case SetPersonText(id, _) => (2, id)
    case SetPersonPhoto(id, _) => (3, id)
    case SetGalleryItem(id, _, _) => (4, id)
    case SetGiftQr(id, _) => (5, id)
    case SetMusicAudio(inv, _) => (6, inv)
  }

  // Each UPDATE touches one table; an UPDATE of a missing row changes nothing.

  function UpdateAsset(t: Table<Asset>, id: nat, alt: string): Table<Asset> {
    if id in t.rows then Table(t.rows[id := t.rows[id].(storage := STORAGE_LOCAL, altText := Some(alt))], t.next) else t
  }

  function UpdateCouple(m: map<nat, Couple>, inv: nat, a: nat): map<nat, Couple> {
    if inv in m then m[inv := m[inv].(imageAssetId := Some(a))] else m
  }

  function UpdatePersonText(t: Table<Person>, id: nat, x: PersonText): Table<Person> {
    if id in t.rows then
      Table(t.rows[id := t.rows[id].(name := x.name, title := x.title, fatherName := x.fatherName,
                                     motherName := x.motherName, instagram := x.instagram)], t.next)
    else t
  }

  function UpdatePersonPhoto(t: Table<Person>, id: nat, a: nat): Table<Person> {
    if id in t.rows then Table(t.rows[id := t.rows[id].(photoAssetId := Some(a))], t.next) else t
  }

  function UpdateGalleryItem(t: Table<GalleryItem>, id: nat, so: int, a: nat): Table<GalleryItem> {
    if id in t.rows then Table(t.rows[id := t.rows[id].(sortOrder := so, imageAssetId := a)], t.next) else t
  }

  function UpdateGiftQr(t: Table<GiftAccount>, id: nat, a: nat): Table<GiftAccount> {
    if id in t.rows then Table(t.rows[id := t.rows[id].(qrAssetId := Some(a))], t.next) else t
  }

  function UpdateMusic(m: map<nat, Music>, inv: nat, a: nat): map<nat, Music> {
    if inv in m then m[inv := m[inv].(audioAssetId := Some(a))] else m
  }

  /** Performs an UPDATE. */
  function Apply(s: Store, w: Write): (r: Store)
    ensures !TargetIn(w, s) ==> r == s
    ensures s.Valid() ==> r.Valid()
  {
    match w
    case SetAssetLocal(id, alt) => s.(assets := UpdateAsset(s.assets, id, alt))
    case SetCoupleImage(inv, a) => s.(couples := UpdateCouple(s.couples, inv, a))
    case SetPersonText(id, x) => s.(people := UpdatePersonText(s.people, id, x))
    case SetPersonPhoto(id, a) => s.(people := UpdatePersonPhoto(s.people, id, a))
    case SetGalleryItem(id, so, a) => s.(gallery := UpdateGalleryItem(s.gallery, id, so, a))
    case SetGiftQr(id, a) => s.(giftAccounts := UpdateGiftQr(s.giftAccounts, id, a))
    case SetMusicAudio(inv, a) => s.(music := UpdateMusic(s.music, inv, a))
  }

  function ApplyAll(s: Store, ws: seq<Write>): (r: Store)
    ensures s.Valid() ==> r.Valid()
    decreases |ws|
  {
    if ws == [] then s else ApplyAll(Apply(s, ws[0]), ws[1..])
  }

  lemma OverwriteAssetLocal(x: Store, w: Write, v: Write)
    requires w.SetAssetLocal? && v.SetAssetLocal? && w.asset == v.asset
    ensures Apply(Apply(x, w), v) == Apply(x, v)
  {
    assert Apply(Apply(x, w), v).assets == Apply(x, v).assets;
  }

  lemma OverwriteCoupleImage(x: Store, w: Write, v: Write)
    requires w.SetCoupleImage? && v.SetCoupleImage? && w.invitation == v.invitation
    ensures Apply(Apply(x, w), v) == Apply(x, v)
  {
    assert Apply(Apply(x, w), v).couples == Apply(x, v).couples;
  }

  lemma OverwritePersonText(x: Store, w: Write, v: Write)
    requires w.SetPersonText? && v.SetPersonText? && w.person == v.person
    ensures Apply(Apply(x, w), v) == Apply(x, v)
  {
    assert Apply(Apply(x, w), v).people == Apply(x, v).people;
  }

  lemma OverwritePersonPhoto(x: Store, w: Write, v: Write)
    requires w.SetPersonPhoto? && v.SetPersonPhoto? && w.person == v.person
    ensures Apply(Apply(x, w), v) == Apply(x, v)
  {
    assert Apply(Apply(x, w), v).people == Apply(x, v).people;
  }

  lemma OverwriteGalleryItem(x: Store, w: Write, v: Write)
    requires w.SetGalleryItem? && v.SetGalleryItem? && w.item == v.item
    ensures Apply(Apply(x, w), v) == Apply(x, v)
  {
    assert Apply(Apply(x, w), v).gallery == Apply(x, v).gallery;
  }

  lemma OverwriteGiftQr(x: Store, w: Write, v: Write)
    requires w.SetGiftQr? && v.SetGiftQr? && w.account == v.account
    ensures Apply(Apply(x, w), v) == Apply(x, v)
  {
    assert Apply(Apply(x, w), v).giftAccounts == Apply(x, v).giftAccounts;
  }

  lemma OverwriteMusicAudio(x: Store, w: Write, v: Write)
    requires w.SetMusicAudio? && v.SetMusicAudio? && w.invitation == v.invitation
    ensures Apply(Apply(x, w), v) == Apply(x, v)
  {
    assert Apply(Apply(x, w), v).music == Apply(x, v).music;
  }

  /** A later write to the same columns hides the earlier one. */
  lemma Overwrite(x: Store, w: Write, v: Write)
    requires Cells(w) == Cells(v)
    ensures Apply(Apply(x, w), v) == Apply(x, v)
  {
    match v
    case SetAssetLocal(_, _) => OverwriteAssetLocal(x, w, v);
    case SetCoupleImage(_, _) => OverwriteCoupleImage(x, w, v);
    case SetPersonText(_, _) => OverwritePersonText(x, w, v);
    case SetPersonPhoto(_, _) => OverwritePersonPhoto(x, w, v);
    case SetGalleryItem(_, _, _) => OverwriteGalleryItem(x, w, v);
    case SetGiftQr(_, _) => OverwriteGiftQr(x, w, v);
    case SetMusicAudio(_, _) => OverwriteMusicAudio(x, w, v);
  }

  /** The table a write addresses. */
  function TableOf(w: Write): int {
    match w
    case SetAssetLocal(_, _) => 0
    case SetCoupleImage(_, _) => 1
    case SetPersonText(_, _) => 2
    case SetPersonPhoto(_, _) => 2
    case SetGalleryItem(_, _, _) => 3
    case SetGiftQr(_, _) => 4
    case SetMusicAudio(_, _) => 5
  }

  lemma CommuteAcrossTables(x: Store, w: Write, v: Write)
    requires TableOf(w) != TableOf(v)
    ensures Apply(Apply(x, w), v) == Apply(Apply(x, v), w)
  {
  }

  lemma CommutePeople(x: Store, w: Write, v: Write)
    requires TableOf(w) == TableOf(v) == 2 && Cells(w) != Cells(v)
    ensures Apply(Apply(x, w), v) == Apply(Apply(x, v), w)
  {
    var a, b := Apply(Apply(x, w), v), Apply(Apply(x, v), w);
    assert a.people.rows == b.people.rows;
  }

  lemma CommuteAssets(x: Store, w: Write, v: Write)
    requires w.SetAssetLocal? && v.SetAssetLocal? && w.asset != v.asset
    ensures Apply(Apply(x, w), v) == Apply(Apply(x, v), w)
  {
    var a, b := Apply(Apply(x, w), v), Apply(Apply(x, v), w);
    assert a.assets.rows == b.assets.rows;
  }

  lemma CommuteCouples(x: Store, w: Write, v: Write)
    requires w.SetCoupleImage? && v.SetCoupleImage? && w.invitation != v.invitation
    ensures Apply(Apply(x, w), v) == Apply(Apply(x, v), w)
  {
    var a, b := Apply(Apply(x, w), v), Apply(Apply(x, v), w);
    assert a.couples == b.couples;
  }

  lemma CommuteGallery(x: Store, w: Write, v: Write)
    requires w.SetGalleryItem? && v.SetGalleryItem? && w.item != v.item
    ensures Apply(Apply(x, w), v) == Apply(Apply(x, v), w)
  {
    var a, b := Apply(Apply(x, w), v), Apply(Apply(x, v), w);
    assert a.gallery.rows == b.gallery.rows;
  }

  lemma CommuteGifts(x: Store, w: Write, v: Write)
    requires w.SetGiftQr? && v.SetGiftQr? && w.account != v.account
    ensures Apply(Apply(x, w), v) == Apply(Apply(x, v), w)
  {
    var a, b := Apply(Apply(x, w), v), Apply(Apply(x, v), w);
    assert a.giftAccounts.rows == b.giftAccounts.rows;
  }

  lemma CommuteMusic(x: Store, w: Write, v: Write)
    requires w.SetMusicAudio? && v.SetMusicAudio? && w.invitation != v.invitation
    ensures Apply(Apply(x, w), v) == Apply(Apply(x, v), w)
  {
    var a, b := Apply(Apply(x, w), v), Apply(Apply(x, v), w);
    assert a.music == b.music;
  }

  /** Writes to different columns commute. */
  lemma Commute(x: Store, w: Write, v: Write)
    requires Cells(w) != Cells(v)
    ensures Apply(Apply(x, w), v) == Apply(Apply(x, v), w)
  {
    if TableOf(w) != TableOf(v) {
      CommuteAcrossTables(x, w, v);
    } else if TableOf(w) == 2 {
      CommutePeople(x, w, v);
    } else {
      match w
      case SetAssetLocal(_, _) => CommuteAssets(x, w, v);
      case SetCoupleImage(_, _) => CommuteCouples(x, w, v);
      case SetGalleryItem(_, _, _) => CommuteGallery(x, w, v);
      case SetGiftQr(_, _) => CommuteGifts(x, w, v);
      case SetMusicAudio(_, _) => CommuteMusic(x, w, v);
    }
  }

  lemma ApplyAllCons(x: Store, w: Write, ws: seq<Write>)
    ensures ApplyAll(x, [w] + ws) == ApplyAll(Apply(x, w), ws)
  {
    assert ([w] + ws)[1..] == ws;
  }

  lemma {:induction false} ApplyAllConcat(x: Store, a: seq<Write>, b: seq<Write>)
    ensures ApplyAll(x, a + b) == ApplyAll(ApplyAll(x, a), b)
    decreases |a|
  {
    if a != [] {
      var y := Apply(x, a[0]);
      assert (a + b)[0] == a[0];
      assert (a + b)[1..] == a[1..] + b;
      ApplyAllConcat(y, a[1..], b);
    } else {
      assert a + b == b;
    }
  }

  lemma ApplyAllOne(x: Store, w: Write)
    ensures ApplyAll(x, [w]) == Apply(x, w)
  {
    assert [w][1..] == [];
  }

  lemma ApplyAllTwo(x: Store, w: Write, v: Write)
    ensures ApplyAll(x, [w, v]) == Apply(Apply(x, w), v)
  {
    assert [w, v][1..] == [v];
    ApplyAllOne(Apply(x, w), v);
  }

  /** Repeating a write after other writes is the same as writing it only last. */
  lemma {:induction false} Absorb(x: Store, w: Write, between: seq<Write>)
    ensures ApplyAll(x, [w] + between + [w]) == ApplyAll(x, between + [w])
    decreases |between|
  {
    if between == [] {
      Overwrite(x, w, w);
      assert [w] + [w] == [w, w];
      ApplyAllTwo(x, w, w);
      ApplyAllOne(x, w);
    } else {
      var v := between[0];
      var rest := between[1..];
      assert [w] + between + [w] == [w, v] + (rest + [w]);
      assert between + [w] == [v] + (rest + [w]);
      ApplyAllConcat(x, [w, v], rest + [w]);
      ApplyAllConcat(x, [v], rest + [w]);
      ApplyAllTwo(x, w, v);
      ApplyAllOne(x, v);
      if Cells(w) == Cells(v) {
        Overwrite(x, w, v);
      } else {
        Commute(x, w, v);
        var y := Apply(x, v);
        Absorb(y, w, rest);
        ApplyAllConcat(y, [w], rest + [w]);
        ApplyAllOne(y, w);
        assert [w] + rest + [w] == [w] + (rest + [w]);
      }
    }
  }

  /** Writes never add or remove rows, so a write's target stays present. */
  lemma ApplyKeepsTargets(x: Store, w: Write, v: Write)
    ensures TargetIn(v, Apply(x, w)) <==> TargetIn(v, x)
  {
  }

  /** `log` has already been performed on `x`: its targets exist and replaying
      it changes nothing. */
  ghost predicate Logged(x: Store, log: seq<Write>) {
    && (forall i :: 0 <= i < |log| ==> TargetIn(log[i], x))
    && ApplyAll(x, log) == x
  }

  /** Performing one more write keeps the log faithful. */
  lemma LoggedWrite(x: Store, log: seq<Write>, w: Write)
    requires Logged(x, log) && TargetIn(w, x)
    ensures Logged(Apply(x, w), log + [w])
  {
    var y := Apply(x, w);
    forall i | 0 <= i < |log + [w]| ensures TargetIn((log + [w])[i], y) {
      if i < |log| {
        ApplyKeepsTargets(x, w, log[i]);
      } else {
        ApplyKeepsTargets(x, w, w);
      }
    }
    ApplyAllConcat(x, log, [w]);
    ApplyAllOne(x, w);
    calc {
      ApplyAll(y, log + [w]);
      { ApplyAllConcat(x, [w], log + [w]);
        assert [w] + log + [w] == [w] + (log + [w]); }
      ApplyAll(x, [w] + log + [w]);
      { Absorb(x, w, log); }
      ApplyAll(x, log + [w]);
    }
  }

  // ---------------------------------------------------------------------------
  // Creations

  /** One INSERT the reconciler may issue. Tables with an auto-increment key
      give the new row the next key; 1:1 rows are keyed by the invitation. */
  datatype Creation =
    | InsertAsset(asset: Asset)
    | InsertPerson(person: Person)
    | InsertGalleryItem(item: GalleryItem)
    | InsertGiftAccount(account: GiftAccount)
    | InsertCouple(invitation: nat)
    | InsertMusic(invitation: nat)

  /** An INSERT of a 1:1 row needs the row to be absent. */
  predicate Fresh(c: Creation, s: Store) {
    match c
    case InsertCouple(inv) => inv !in s.couples
    case InsertMusic(inv) => inv !in s.music
    case _ => true
  }

  /** Performs an INSERT; returns the store and the key of the new row. */
  function Create(s: Store, c: Creation): (r: (Store, nat))
    requires s.Valid()
    ensures r.0.Valid()
  {
    match c
    case InsertAsset(a) => var (t, id) := s.assets.Insert(a); (s.(assets := t), id)
    case InsertPerson(p) => var (t, id) := s.people.Insert(p); (s.(people := t), id)
    case InsertGalleryItem(g) => var (t, id) := s.gallery.Insert(g); (s.(gallery := t), id)
    case InsertGiftAccount(g) => var (t, id) := s.giftAccounts.Insert(g); (s.(giftAccounts := t), id)
    case InsertCouple(inv) => (s.(couples := s.couples[inv := EMPTY_COUPLE]), inv)
    case InsertMusic(inv) => (s.(music := s.music[inv := EMPTY_MUSIC]), inv)
  }

  lemma ApplyKeepsValid(x: Store, w: Write)
    requires x.Valid()
    ensures Apply(x, w).Valid()
  {
  }

  lemma ApplyKeepsFresh(x: Store, w: Write, c: Creation)
    ensures Fresh(c, Apply(x, w)) <==> Fresh(c, x)
  {
  }

  lemma CreateCommutesAsset(x: Store, c: Creation, w: Write)
    requires x.Valid() && Fresh(c, x) && TargetIn(w, x) && c.InsertAsset?
    ensures Apply(Create(x, c).0, w) == Create(Apply(x, w), c).0
  {
    if w.SetAssetLocal? {
      assert Apply(Create(x, c).0, w).assets.rows == Create(Apply(x, w), c).0.assets.rows;
    }
  }

  lemma CreateCommutesPerson(x: Store, c: Creation, w: Write)
    requires x.Valid() && Fresh(c, x) && TargetIn(w, x) && c.InsertPerson?
    ensures Apply(Create(x, c).0, w) == Create(Apply(x, w), c).0
  {
    if w.SetPersonText? || w.SetPersonPhoto? {
      assert Apply(Create(x, c).0, w).people.rows == Create(Apply(x, w), c).0.people.rows;
    }
  }

  lemma CreateCommutesGalleryItem(x: Store, c: Creation, w: Write)
    requires x.Valid() && Fresh(c, x) && TargetIn(w, x) && c.InsertGalleryItem?
    ensures Apply(Create(x, c).0, w) == Create(Apply(x, w), c).0
  {
    if w.SetGalleryItem? {
      assert Apply(Create(x, c).0, w).gallery.rows == Create(Apply(x, w), c).0.gallery.rows;
    }
  }

  lemma CreateCommutesGiftAccount(x: Store, c: Creation, w: Write)
    requires x.Valid() && Fresh(c, x) && TargetIn(w, x) && c.InsertGiftAccount?
    ensures Apply(Create(x, c).0, w) == Create(Apply(x, w), c).0
  {
    if w.SetGiftQr? {
      assert Apply(Create(x, c).0, w).giftAccounts.rows == Create(Apply(x, w), c).0.giftAccounts.rows;
    }
  }

  lemma CreateCommutesCouple(x: Store, c: Creation, w: Write)
    requires x.Valid() && Fresh(c, x) && TargetIn(w, x) && c.InsertCouple?
    ensures Apply(Create(x, c).0, w) == Create(Apply(x, w), c).0
  {
    if w.SetCoupleImage? {
      assert Apply(Create(x, c).0, w).couples == Create(Apply(x, w), c).0.couples;
    }
  }

  lemma CreateCommutesMusic(x: Store, c: Creation, w: Write)
    requires x.Valid() && Fresh(c, x) && TargetIn(w, x) && c.InsertMusic?
    ensures Apply(Create(x, c).0, w) == Create(Apply(x, w), c).0
  {
    if w.SetMusicAudio? {
      assert Apply(Create(x, c).0, w).music == Create(Apply(x, w), c).0.music;
    }
  }

  /** An INSERT of a fresh row commutes with an UPDATE of an existing row. */
  lemma CreateCommutes(x: Store, c: Creation, w: Write)
    requires x.Valid() && Fresh(c, x) && TargetIn(w, x)
    ensures Apply(x, w).Valid()
    ensures Apply(Create(x, c).0, w) == Create(Apply(x, w), c).0
    ensures Create(Apply(x, w), c).1 == Create(x, c).1
  {
    match c
    case InsertAsset(_) => CreateCommutesAsset(x, c, w);
    case InsertPerson(_) => CreateCommutesPerson(x, c, w);
    case InsertGalleryItem(_) => CreateCommutesGalleryItem(x, c, w);
    case InsertGiftAccount(_) => CreateCommutesGiftAccount(x, c, w);
    case InsertCouple(_) => CreateCommutesCouple(x, c, w);
    case InsertMusic(_) => CreateCommutesMusic(x, c, w);
  }

  lemma CreateKeepsTargets(x: Store, c: Creation, w: Write)
    requires x.Valid() && TargetIn(w, x)
    ensures TargetIn(w, Create(x, c).0)
  {
  }

  lemma {:induction false} CreateCommutesAll(x: Store, c: Creation, log: seq<Write>)
    requires x.Valid() && Fresh(c, x)
    requires forall i :: 0 <= i < |log| ==> TargetIn(log[i], x)
    ensures ApplyAll(Create(x, c).0, log) == Create(ApplyAll(x, log), c).0
    decreases |log|
  {
    if log != [] {
      var w := log[0];
      CreateCommutes(x, c, w);
      var y := Apply(x, w);
      ApplyKeepsFresh(x, w, c);
      forall i | 0 <= i < |log[1..]| ensures TargetIn(log[1..][i], y) {
        ApplyKeepsTargets(x, w, log[i + 1]);
      }
      CreateCommutesAll(y, c, log[1..]);
    }
  }

  /** Performing a fresh INSERT keeps the log faithful. */
  lemma LoggedCreate(x: Store, log: seq<Write>, c: Creation)
    requires x.Valid() && Fresh(c, x) && Logged(x, log)
    ensures Logged(Create(x, c).0, log)
  {
    CreateCommutesAll(x, c, log);
    forall i | 0 <= i < |log| ensures TargetIn(log[i], Create(x, c).0) {
      CreateKeepsTargets(x, c, log[i]);
    }
  }
}
