/** How the reconciler's store evolves: rows are only added (with keys above
    every existing key) and the columns its lookups match on never change. A
    lookup that found the lowest matching row keeps finding it as the store
    grows, which is why a second reconciliation resolves the same rows. */
module Growth {
  import opened Wrappers
  import opened Tables
  import opened Schema
  import opened StoreUpdates

  /** The columns `updateOrCreate` matches an asset on. */
  function AssetKey(a: Asset): (nat, Category, Kind, Option<string>, Option<string>) {
    (a.invitation, a.category, a.kind, a.disk, a.path)
  }

  function PersonKey(p: Person): (nat, Role) {
    (p.invitation, p.role)
  }

  /** `b` holds every row of `a` with the same key columns, and every row `b`
      adds has a key `a` had not handed out yet. */
  ghost predicate TableGrows<T, K>(a: Table<T>, b: Table<T>, key: T -> K) {
    && b.next >= a.next
    && (forall id :: id in a.rows ==> id in b.rows && key(b.rows[id]) == key(a.rows[id]))
    && (forall id :: id in b.rows && id !in a.rows ==> id >= a.next)
  }

  ghost predicate Grows(a: Store, b: Store) {
    && TableGrows(a.assets, b.assets, AssetKey)
    && TableGrows(a.people, b.people, PersonKey)
    && TableGrows(a.gallery, b.gallery, (g: GalleryItem) => g.invitation)
    && TableGrows(a.giftAccounts, b.giftAccounts, (g: GiftAccount) => g.invitation)
    && a.couples.Keys <= b.couples.Keys
    && a.music.Keys <= b.music.Keys
  }

  lemma GrowsRefl(a: Store)
    ensures Grows(a, a)
  {
  }

  lemma GrowsTrans(a: Store, b: Store, c: Store)
    requires Grows(a, b) && Grows(b, c)
    ensures Grows(a, c)
  {
  }

  lemma ApplyGrows(x: Store, w: Write)
    ensures Grows(x, Apply(x, w))
  {
  }

  lemma {:induction false} ApplyAllGrows(x: Store, ws: seq<Write>)
    ensures Grows(x, ApplyAll(x, ws))
    decreases |ws|
  {
    if ws == [] {
      GrowsRefl(x);
    } else {
      ApplyGrows(x, ws[0]);
      ApplyAllGrows(Apply(x, ws[0]), ws[1..]);
      GrowsTrans(x, Apply(x, ws[0]), ApplyAll(x, ws));
    }
  }

  lemma CreateGrows(x: Store, c: Creation)
    requires x.Valid()
    ensures Grows(x, Create(x, c).0)
  {
  }

  // ---------------------------------------------------------------------------
  // Lookups

  /** The `updateOrCreate` key for a file on the public disk. */
  function AssetMatch(inv: nat, cat: Category, kind: Kind, path: string): Asset -> bool {
    (a: Asset) => AssetKey(a) == (inv, cat, kind, Some(DISK_PUBLIC), Some(path))
  }

  function PersonMatch(inv: nat, role: Role): Person -> bool {
    (p: Person) => PersonKey(p) == (inv, role)
  }

  /** `id` is the lowest-keyed row of `t` satisfying `p`, the row `first()` returns. */
  ghost predicate Anchored<T>(t: Table<T>, p: T -> bool, id: nat) {
    && id in t.rows && p(t.rows[id])
    && forall j :: j in t.rows && j < id ==> !p(t.rows[j])
  }

  lemma AnchoredIsFirst<T>(t: Table<T>, p: T -> bool, id: nat)
    requires t.Valid() && Anchored(t, p, id)
    ensures First(t, p) == Some(id)
  {
  }

  lemma FirstIsAnchored<T>(t: Table<T>, p: T -> bool)
    requires t.Valid() && First(t, p).Some?
    ensures Anchored(t, p, First(t, p).value)
  {
  }

  /** A first match stays the first match when the table grows, as long as the
      predicate reads only key columns. */
  lemma AnchoredGrows<T, K>(a: Table<T>, b: Table<T>, key: T -> K, p: T -> bool, id: nat)
    requires a.Valid() && Anchored(a, p, id) && TableGrows(a, b, key)
    requires forall r, r' :: key(r) == key(r') ==> p(r) == p(r')
    ensures Anchored(b, p, id)
  {
    forall j | j in b.rows && j < id ensures !p(b.rows[j]) {
      assert j in a.rows;
      assert key(b.rows[j]) == key(a.rows[j]);
    }
    assert key(b.rows[id]) == key(a.rows[id]);
  }

  lemma AssetAnchoredGrows(a: Store, b: Store, inv: nat, cat: Category, kind: Kind, path: string, id: nat)
    requires a.Valid() && Grows(a, b) && Anchored(a.assets, AssetMatch(inv, cat, kind, path), id)
    ensures Anchored(b.assets, AssetMatch(inv, cat, kind, path), id)
  {
    AnchoredGrows(a.assets, b.assets, AssetKey, AssetMatch(inv, cat, kind, path), id);
  }

  lemma PersonAnchoredGrows(a: Store, b: Store, inv: nat, role: Role, id: nat)
    requires a.Valid() && Grows(a, b) && Anchored(a.people, PersonMatch(inv, role), id)
    ensures Anchored(b.people, PersonMatch(inv, role), id)
  {
    AnchoredGrows(a.people, b.people, PersonKey, PersonMatch(inv, role), id);
  }
}
