/** The self-service wizard (`InvitationWizard`). On mount a signed-in user
    gets their latest invitation; `save` strips the upload keys, adds the
    user's id, updates that invitation or creates a new one, and reconciles
    assets from the raw state. `user_id` is not fillable, so the create
    branch as written loses it; `WizardSave` is the save with the owner kept. */
module Wizard {
  import opened Wrappers
  import opened Php
  import opened Tables
  import opened Schema
  import opened InvitationModel
  import opened SyncInvitationAssets
  import opened PayloadCache
  import opened InvitationRow
  import opened EditPage

  /** `auth()->user()->invitations()->latest()->first()`: the user's newest
      invitation, newest being the highest id. */
  function LatestOwned(s: Store, user: nat): (r: Option<nat>)
    requires s.invitations.Valid()
    ensures r.Some? ==> r.value in s.invitations.rows && s.invitations.rows[r.value].userId == Some(user)
    ensures r.Some? ==> forall id :: id in s.invitations.rows && s.invitations.rows[id].userId == Some(user) ==> id <= r.value
    ensures r.None? <==> forall id :: id in s.invitations.rows ==> s.invitations.rows[id].userId != Some(user)
  {
    var ks := KeysWhere(s.invitations.rows, (i: Invitation) => i.userId == Some(user), 1, s.invitations.next);
    if |ks| == 0 then None else Some(ks[|ks| - 1])
  }

  /** `mount`: the given record, else the signed-in user's latest invitation. */
  function Mount(s: Store, record: Option<nat>, auth: Option<nat>): (r: Option<nat>)
    requires s.invitations.Valid()
    ensures record.Some? ==> r == record
    ensures record.None? && auth.None? ==> r.None?
    ensures record.None? && auth.Some? ==> r == LatestOwned(s, auth.value)
  {
    if record.Some? then record
    else if auth.Some? then LatestOwned(s, auth.value)
    else None
  }

  /** `$this->record->user_id` is truthy. */
  predicate HasOwner(row: Invitation) {
    row.userId.Some? && row.userId.value != 0
  }

  /** `if ($authUserId && empty($data['user_id'])) $data['user_id'] = $authUserId`. */
  function WithOwner(data: map<string, Value>, auth: Option<nat>): (r: map<string, Value>)
    ensures auth.Some? && !Truthy(Get(data, "user_id")) ==> r == data["user_id" := VInt(auth.value)]
    ensures auth.None? || Truthy(Get(data, "user_id")) ==> r == data
  {
    if auth.Some? && !Truthy(Get(data, "user_id")) then data["user_id" := VInt(auth.value)] else data
  }

  /** The row an existing record is saved from: an owner-less record takes
      the signed-in user. */
  function Owned(row: Invitation, auth: Option<nat>): (r: Invitation)
    ensures r == row.(userId := r.userId)
    ensures auth.Some? && !HasOwner(row) ==> r.userId == auth
    ensures auth.None? || HasOwner(row) ==> r == row
  {
    if auth.Some? && !HasOwner(row) then row.(userId := auth) else row
  }

  /** The `user_id` the wizard adds to the data never reaches the row, and
      the row's owner does not change how the row fills. */
  lemma WithOwnerFillsAlike(row: Invitation, u: Option<nat>, data: map<string, Value>, auth: Option<nat>)
    ensures FillInvitation(row.(userId := u), WithOwner(data, auth)).Ok? == FillInvitation(row, data).Ok?
    ensures FillInvitation(row, data).Ok? ==>
              FillInvitation(row.(userId := u), WithOwner(data, auth)).value == FillInvitation(row, data).value.(userId := u)
  {
    if auth.Some? && !Truthy(Get(data, "user_id")) {
      FillDropsUserId(row.(userId := u), data, VInt(auth.value));
    }
  }

  /** Saving a record whose owner was set first fails exactly when saving it
      without the owner does, and differs from it only in the owner. */
  lemma OwnedUpdate(s: Store, id: nat, u: Option<nat>, data: map<string, Value>, auth: Option<nat>)
    requires s.Valid() && id in s.invitations.rows
    ensures var s1 := s.(invitations := s.invitations.Put(id, s.invitations.rows[id].(userId := u)));
            var a := UpdateInvitation(s1, id, WithOwner(data, auth));
            var b := UpdateInvitation(s, id, data);
            && (a.Ok? <==> b.Ok?)
            && (a.Ok? ==> a.value.Valid() && a.value.invitations.rows.Keys == s.invitations.rows.Keys
                          && a.value.invitations.rows[id] == b.value.invitations.rows[id].(userId := u))
  {
    var row := s.invitations.rows[id];
    var s1 := s.(invitations := s.invitations.Put(id, row.(userId := u)));
    WithOwnerFillsAlike(row, u, data, auth);
    var fa := FillInvitation(row.(userId := u), WithOwner(data, auth));
    var fb := FillInvitation(row, data);
    if fb.Ok? {
      forall k | k in s.invitations.rows && k != id
        ensures s1.invitations.rows[k] == s.invitations.rows[k]
      {
      }
      assert SlugFree(s1, fa.value.slug, Some(id)) <==> SlugFree(s, fb.value.slug, Some(id));
    }
  }

  /** The existing record's branch: the owner, then `fill($data)` and `save()`. */
  function SaveRecord(s: Store, cache: Cache, id: nat, auth: Option<nat>, state: map<string, Value>): (r: Result<Outcome>)
    requires s.Valid() && id in s.invitations.rows
    ensures r.Ok? <==> UpdateInvitation(s, id, StripInvitationFormData(state)).Ok?
    ensures r.Ok? ==> && r.value.store.Valid()
                      && r.value.store.invitations.rows.Keys == s.invitations.rows.Keys
                      && r.value.store.invitations.rows[id]
                           == UpdateInvitation(s, id, StripInvitationFormData(state)).value.invitations.rows[id]
                                .(userId := Owned(s.invitations.rows[id], auth).userId)
                      && CacheKey(id) !in r.value.cache
    ensures r.Err? ==> r.error == Rejected
  {
    var plain := StripInvitationFormData(state);
    var owned := Owned(s.invitations.rows[id], auth);
    var s1 := s.(invitations := s.invitations.Put(id, s.invitations.rows[id].(userId := owned.userId)));
    OwnedUpdate(s, id, owned.userId, plain, auth);
    match UpdateInvitation(s1, id, WithOwner(plain, auth))
    case Err(e) => Err(e)
    case Ok(x) =>
      var r := SyncAll(x, id, state);
      assert r.invitations == x.invitations;
      Ok(Outcome(r, OnModelEvent(cache, id, Saved)))
  }

  /** The create branch of `save()` as written: `user_id` goes to
      `Invitation::create`, which drops it. */
  function CreateAsWritten(s: Store, cache: Cache, auth: Option<nat>, state: map<string, Value>)
    : (r: Result<(Outcome, nat)>)
    requires s.Valid() && ChildrenOwned(s)
    ensures r.Ok? <==> InsertInvitation(s, WithOwner(StripInvitationFormData(state), auth)).Ok?
    ensures r.Ok? ==> var (o, id) := r.value;
              && id !in s.invitations.rows && o.store.invitations.rows.Keys == s.invitations.rows.Keys + {id}
              && o.store.invitations.rows[id].userId.None?
              && (forall k :: k in s.invitations.rows ==> o.store.invitations.rows[k] == s.invitations.rows[k] && k < id)
              && CacheKey(id) !in o.cache
    ensures r.Err? ==> r.error == Rejected
  {
    match InsertInvitation(s, WithOwner(StripInvitationFormData(state), auth))
    case Err(e) => Err(e)
    case Ok((x, id)) =>
      var r := SyncAll(x, id, state);
      assert r.invitations == x.invitations;
      Ok((Outcome(r, OnModelEvent(cache, id, Saved)), id))
  }

  /** `save()` as written: the existing record's branch, or the create branch
      that loses the owner. */
  function WizardSaveAsWritten(s: Store, cache: Cache, record: Option<nat>, auth: Option<nat>, state: map<string, Value>)
    : (r: Result<(Outcome, nat)>)
    requires s.Valid() && ChildrenOwned(s) && (record.Some? ==> record.value in s.invitations.rows)
    ensures record.Some? ==> (r.Ok? <==> SaveRecord(s, cache, record.value, auth, state).Ok?)
    ensures record.Some? && r.Ok? ==> r.value == (SaveRecord(s, cache, record.value, auth, state).value, record.value)
    ensures record.None? ==> r == CreateAsWritten(s, cache, auth, state)
    ensures r.Err? ==> r.error == Rejected
  {
    match record
    case Some(id) =>
      (match SaveRecord(s, cache, id, auth, state)
       case Err(e) => Err(e)
       case Ok(o) => Ok((o, id)))
    case None => CreateAsWritten(s, cache, auth, state)
  }

  /** The owner the create branch should record: the signed-in user, as the
      record branch assigns it. */
  function OwnNew(x: Store, id: nat, auth: Option<nat>): (r: Store)
    requires x.Valid() && id in x.invitations.rows
    ensures r.Valid() && r == x.(invitations := r.invitations)
    ensures r.invitations.rows.Keys == x.invitations.rows.Keys
    ensures r.invitations.rows[id] == x.invitations.rows[id].(userId := if auth.Some? then auth else x.invitations.rows[id].userId)
    ensures forall k :: k in x.invitations.rows && k != id ==> r.invitations.rows[k] == x.invitations.rows[k]
  {
    if auth.Some? then x.(invitations := x.invitations.Put(id, x.invitations.rows[id].(userId := auth))) else x
  }

  /** The create branch of `save()` with the owner kept. */
  function CreateOwned(s: Store, cache: Cache, auth: Option<nat>, state: map<string, Value>)
    : (r: Result<(Outcome, nat)>)
    requires s.Valid() && ChildrenOwned(s)
    ensures r.Ok? <==> InsertInvitation(s, WithOwner(StripInvitationFormData(state), auth)).Ok?
    ensures r.Ok? ==> var (o, id) := r.value;
              && id !in s.invitations.rows && o.store.invitations.rows.Keys == s.invitations.rows.Keys + {id}
              && (auth.Some? ==> o.store.invitations.rows[id].userId == auth)
              && (forall k :: k in s.invitations.rows ==> o.store.invitations.rows[k] == s.invitations.rows[k] && k < id)
              && CacheKey(id) !in o.cache
    ensures r.Err? ==> r.error == Rejected
  {
    match InsertInvitation(s, WithOwner(StripInvitationFormData(state), auth))
    case Err(e) => Err(e)
    case Ok((x, id)) =>
      var y := OwnNew(x, id, auth);
      var r := SyncAll(y, id, state);
      assert r.invitations == y.invitations;
      Ok((Outcome(r, OnModelEvent(cache, id, Saved)), id))
  }

  /** `save()` with the owner kept on create: the existing record's branch is
      the one as written, and only the create branch changes. */
  function WizardSave(s: Store, cache: Cache, record: Option<nat>, auth: Option<nat>, state: map<string, Value>)
    : (r: Result<(Outcome, nat)>)
    requires s.Valid() && ChildrenOwned(s) && (record.Some? ==> record.value in s.invitations.rows)
    ensures record.Some? ==> r == WizardSaveAsWritten(s, cache, record, auth, state)
    ensures record.None? ==> r == CreateOwned(s, cache, auth, state)
    ensures r.Err? ==> r.error == Rejected
  {
    match record
    case Some(_) => WizardSaveAsWritten(s, cache, record, auth, state)
    case None => CreateOwned(s, cache, auth, state)
  }

  /** As written: a signed-in user without invitations who saves the wizard
      gets an invitation the next mount does not find, so the wizard opens
      empty again and the next save creates another invitation. */
  lemma WizardCreateLosesOwner(s: Store, cache: Cache, user: nat, state: map<string, Value>)
    requires s.Valid() && ChildrenOwned(s) && LatestOwned(s, user).None?
    requires WizardSaveAsWritten(s, cache, None, Some(user), state).Ok?
    ensures var r := WizardSaveAsWritten(s, cache, None, Some(user), state).value;
            r.0.store.invitations.rows[r.1].userId.None? && Mount(r.0.store, None, Some(user)).None?
  {
    var r := WizardSaveAsWritten(s, cache, None, Some(user), state).value;
    var t := r.0.store.invitations;
    forall k | k in t.rows ensures t.rows[k].userId != Some(user) {
      if k != r.1 {
        assert k in s.invitations.rows;
      }
    }
  }

  /** With the owner kept, the next mount reopens the invitation just created. */
  lemma WizardCreateReopens(s: Store, cache: Cache, user: nat, state: map<string, Value>)
    requires s.Valid() && ChildrenOwned(s)
    requires WizardSave(s, cache, None, Some(user), state).Ok?
    ensures var r := WizardSave(s, cache, None, Some(user), state).value;
            r.0.store.invitations.rows[r.1].userId == Some(user) && Mount(r.0.store, None, Some(user)) == Some(r.1)
  {
    var r := WizardSave(s, cache, None, Some(user), state).value;
    var t := r.0.store.invitations;
    var m := LatestOwned(r.0.store, user);
    assert r.1 in t.rows && t.rows[r.1].userId == Some(user);
    assert m.Some? && r.1 <= m.value;
    assert m.value in s.invitations.rows.Keys + {r.1};
  }
}
