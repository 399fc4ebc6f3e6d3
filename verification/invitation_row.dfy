/** The invitation row and Eloquent's mass assignment. `fill($data)` and
    `Invitation::create($data)` copy only the `$fillable` keys into their
    columns; every other key, `user_id` included, is dropped. A value a column
    cannot hold, or a slug another invitation already uses, makes the database
    refuse the write. */
module InvitationRow {
  import opened Wrappers
  import opened Php
  import opened Decimal
  import opened Tables
  import opened Schema
  import opened InvitationModel
  import opened TemplateRenderer

  /** `Invitation::$fillable`. */
  const FILLABLE: set<string> := {"template_id", "slug", "title", "timezone", "locale", "status"}

  /** The migration's defaults for the columns that have one. */
  const DEFAULT_TIMEZONE: string := "Asia/Jakarta"
  const DEFAULT_LOCALE: string := "id_ID"

  /** The `status` enum column takes exactly its three names. */
  function StatusOf(v: Value): (r: Option<Status>)
    ensures r.Some? <==> v in {VStr("draft"), VStr("published"), VStr("archived")}
    ensures r.Some? ==> v == VStr(StatusName(r.value))
    ensures forall st :: v == VStr(StatusName(st)) ==> r == Some(st)
  {
    if v == VStr("draft") then Some(Draft)
    else if v == VStr("published") then Some(Published)
    else if v == VStr("archived") then Some(Archived)
    else None
  }

  /** The `template_id` column: an integer, or a run of digits as a select
      widget submits it. */
  function TemplateIdOf(v: Value): (r: Option<nat>)
    ensures forall n: nat :: v == VInt(n) ==> r == Some(n)
    ensures (v.VInt? && v.i < 0) || v.VNull? || v.VBool? || v.VList? || v.VRecord? ==> r.None?
    ensures v.VStr? ==> (r.Some? <==> |v.s| >= 1 && AllDigits(v.s))
  {
    match v
    case VInt(i) => if i >= 0 then Some(i) else None
    case VStr(s) => if |s| >= 1 && AllDigits(s) then Some(DigitsValue(s)) else None
    case _ => None
  }

  /** A submitted numeral names the template it spells. */
  lemma TemplateIdReadsNumerals(n: nat)
    ensures TemplateIdOf(VStr(NatToString(n))) == Some(n)
  {
    DigitsValueOfNatToString(n);
  }

  /** A NOT NULL string column takes strings only. */
  function StringOf(v: Value): (r: Option<string>)
    ensures r.Some? <==> v.VStr?
    ensures r.Some? ==> v == VStr(r.value)
  {
    if v.VStr? then Some(v.s) else None
  }

  /** The value a nullable column holds, as a form value. */
  function NullableValue(o: Option<string>): (v: Value)
    ensures o.None? <==> v == VNull
  {
    match o
    case Some(x) => VStr(x)
    case None => VNull
  }

  /** A nullable string column takes strings and null. */
  function NullableStringOf(v: Value): (r: Option<Option<string>>)
    ensures r.Some? <==> v.VStr? || v.VNull?
    ensures r.Some? ==> NullableValue(r.value) == v
  {
    match v
    case VStr(x) => Some(Some(x))
    case VNull => Some(None)
    case _ => None
  }

  /** Every fillable key present in `d` holds a value its column accepts. */
  predicate Assignable(d: map<string, Value>) {
    && ("template_id" in d ==> TemplateIdOf(d["template_id"]).Some?)
    && ("slug" in d ==> d["slug"].VStr?)
    && ("title" in d ==> d["title"].VStr? || d["title"].VNull?)
    && ("timezone" in d ==> d["timezone"].VStr?)
    && ("locale" in d ==> d["locale"].VStr?)
    && ("status" in d ==> StatusOf(d["status"]).Some?)
  }

  /** `r` holds what `d` assigns and keeps `row`'s value for every column `d`
      does not mention; `user_id` is never assigned. */
  predicate Takes(row: Invitation, d: map<string, Value>, r: Invitation) {
    && ("template_id" in d ==> TemplateIdOf(d["template_id"]) == Some(r.templateId))
    && ("template_id" !in d ==> r.templateId == row.templateId)
    && ("slug" in d ==> d["slug"] == VStr(r.slug))
    && ("slug" !in d ==> r.slug == row.slug)
    && ("title" in d ==> d["title"] == NullableValue(r.title))
    && ("title" !in d ==> r.title == row.title)
    && ("timezone" in d ==> d["timezone"] == VStr(r.timezone))
    && ("timezone" !in d ==> r.timezone == row.timezone)
    && ("locale" in d ==> d["locale"] == VStr(r.locale))
    && ("locale" !in d ==> r.locale == row.locale)
    && ("status" in d ==> d["status"] == VStr(StatusName(r.status)))
    && ("status" !in d ==> r.status == row.status)
    && r.userId == row.userId
  }

  /** One column: the key's value read by `read`, or the current value when the key is absent. */
  function Assign<T>(d: map<string, Value>, key: string, read: Value -> Option<T>, current: T): (r: Option<T>)
    ensures key !in d ==> r == Some(current)
    ensures key in d ==> r == read(d[key])
  {
    if key in d then read(d[key]) else Some(current)
  }

  /** `$invitation->fill($data)`. */
  function FillInvitation(row: Invitation, d: map<string, Value>): (r: Result<Invitation>)
    ensures r.Ok? <==> Assignable(d)
    ensures r.Ok? ==> Takes(row, d, r.value)
    ensures r.Err? ==> r.error == Rejected
  {
    var templateId := Assign(d, "template_id", TemplateIdOf, row.templateId);
    var slug := Assign(d, "slug", StringOf, row.slug);
    var title := Assign(d, "title", NullableStringOf, row.title);
    var timezone := Assign(d, "timezone", StringOf, row.timezone);
    var locale := Assign(d, "locale", StringOf, row.locale);
    var status := Assign(d, "status", StatusOf, row.status);
    if templateId.Some? && slug.Some? && title.Some? && timezone.Some? && locale.Some? && status.Some? then
      Ok(Invitation(templateId.value, slug.value, title.value, timezone.value, locale.value, status.value, row.userId))
    else
      Err(Rejected)
  }

  /** Only the fillable keys matter: two data arrays that agree on them fill a
      row alike. */
  lemma FillSeesOnlyFillable(row: Invitation, d: map<string, Value>, e: map<string, Value>)
    requires forall k :: k in FILLABLE ==> (k in d <==> k in e) && (k in d ==> d[k] == e[k])
    ensures FillInvitation(row, d) == FillInvitation(row, e)
  {
    assert "template_id" in FILLABLE && "slug" in FILLABLE && "title" in FILLABLE;
    assert "timezone" in FILLABLE && "locale" in FILLABLE && "status" in FILLABLE;
  }

  /** A submitted `user_id` never reaches the row. */
  lemma FillDropsUserId(row: Invitation, d: map<string, Value>, v: Value)
    ensures FillInvitation(row, d["user_id" := v]) == FillInvitation(row, d)
  {
    FillSeesOnlyFillable(row, d["user_id" := v], d);
  }

  /** Filling a row twice with the same data changes nothing the second time. */
  lemma FillIsIdempotent(row: Invitation, d: map<string, Value>)
    requires FillInvitation(row, d).Ok?
    ensures FillInvitation(FillInvitation(row, d).value, d) == FillInvitation(row, d)
  {
    var r := FillInvitation(row, d).value;
    var r2 := FillInvitation(r, d);
    assert r2.Ok?;
    assert Takes(r, d, r2.value);
  }

  /** The row `create` starts from: the columns without a default are placeholders
      that `NewInvitationRow` requires `data` to overwrite. */
  const UNFILLED: Invitation := Invitation(0, "", None, DEFAULT_TIMEZONE, DEFAULT_LOCALE, Draft, None)

  /** `Invitation::create($data)` before the INSERT: `template_id` and `slug`
      have no default, so a row without them is refused; the others fall back
      to their defaults, and `user_id` stays null. */
  function NewInvitationRow(d: map<string, Value>): (r: Result<Invitation>)
    ensures r.Ok? <==> "template_id" in d && "slug" in d && Assignable(d)
    ensures r.Ok? ==> Takes(UNFILLED, d, r.value) && r.value.userId.None?
    ensures r.Ok? && "title" !in d ==> r.value.title.None?
    ensures r.Ok? && "timezone" !in d ==> r.value.timezone == DEFAULT_TIMEZONE
    ensures r.Ok? && "locale" !in d ==> r.value.locale == DEFAULT_LOCALE
    ensures r.Ok? && "status" !in d ==> r.value.status == Draft
    ensures r.Err? ==> r.error == Rejected
  {
    if "template_id" in d && "slug" in d then FillInvitation(UNFILLED, d) else Err(Rejected)
  }

  // ---------------------------------------------------------------------------
  // Writing the row

  /** No invitation other than `except` uses `slug` (the unique index). */
  predicate SlugFree(s: Store, slug: string, except: Option<nat>) {
    forall id :: id in s.invitations.rows && Some(id) != except ==> s.invitations.rows[id].slug != slug
  }

  /** `$invitation->save()` of a filled row: refused when the slug is taken. */
  function UpdateInvitation(s: Store, inv: nat, d: map<string, Value>): (r: Result<Store>)
    requires s.Valid() && inv in s.invitations.rows
    ensures r.Ok? <==> FillInvitation(s.invitations.rows[inv], d).Ok?
                       && SlugFree(s, FillInvitation(s.invitations.rows[inv], d).value.slug, Some(inv))
    ensures r.Ok? ==> r.value.Valid() && r.value == s.(invitations := r.value.invitations)
    ensures r.Ok? ==> r.value.invitations.rows.Keys == s.invitations.rows.Keys
    ensures r.Ok? ==> Takes(s.invitations.rows[inv], d, r.value.invitations.rows[inv])
    ensures r.Ok? ==> forall id :: id in s.invitations.rows && id != inv ==>
                        r.value.invitations.rows[id] == s.invitations.rows[id]
    ensures r.Ok? && UniqueSlugs(s) ==> UniqueSlugs(r.value)
    ensures r.Err? ==> r.error == Rejected
  {
    match FillInvitation(s.invitations.rows[inv], d)
    case Err(e) => Err(e)
    case Ok(row) =>
      if SlugFree(s, row.slug, Some(inv)) then Ok(s.(invitations := s.invitations.Put(inv, row)))
      else Err(Rejected)
  }

  /** Saving the same data a second time leaves the store as the first save did. */
  lemma UpdateIsIdempotent(s: Store, inv: nat, d: map<string, Value>)
    requires s.Valid() && inv in s.invitations.rows && UpdateInvitation(s, inv, d).Ok?
    ensures UpdateInvitation(UpdateInvitation(s, inv, d).value, inv, d) == UpdateInvitation(s, inv, d)
  {
    var s1 := UpdateInvitation(s, inv, d).value;
    var row := s.invitations.rows[inv];
    FillIsIdempotent(row, d);
    var row1 := FillInvitation(row, d).value;
    assert s1.invitations.rows[inv] == row1;
    assert FillInvitation(row1, d) == Ok(row1);
    assert s1.invitations.rows[inv := row1] == s1.invitations.rows;
  }

  /** Adding a row whose slug no other row uses keeps slugs unique. */
  lemma FreshSlugKeepsUnique(s: Store, s1: Store, id: nat)
    requires id !in s.invitations.rows && id in s1.invitations.rows
    requires s1.invitations.rows.Keys == s.invitations.rows.Keys + {id}
    requires forall k :: k in s.invitations.rows ==> s1.invitations.rows[k] == s.invitations.rows[k]
    requires SlugFree(s, s1.invitations.rows[id].slug, None)
    ensures UniqueSlugs(s) ==> UniqueSlugs(s1)
  {
  }

  /** `Invitation::create($data)` with its `created` hook: refused when the row
      cannot be built or its slug is taken. */
  function InsertInvitation(s: Store, d: map<string, Value>): (r: Result<(Store, nat)>)
    requires s.Valid() && ChildrenOwned(s)
    ensures r.Ok? <==> NewInvitationRow(d).Ok? && SlugFree(s, NewInvitationRow(d).value.slug, None)
    ensures r.Ok? ==> var (s1, id) := r.value;
                      && s1.Valid() && ChildrenOwned(s1) && HasDefaults(s1, id)
                      && id !in s.invitations.rows && id in s1.invitations.rows
                      && s1.invitations.rows[id] == NewInvitationRow(d).value
                      && s1.invitations.rows.Keys == s.invitations.rows.Keys + {id}
                      && (forall k :: k in s.invitations.rows ==> s1.invitations.rows[k] == s.invitations.rows[k] && k < id)
                      && (UniqueSlugs(s) ==> UniqueSlugs(s1))
    ensures r.Err? ==> r.error == Rejected
  {
    match NewInvitationRow(d)
    case Err(e) => Err(e)
    case Ok(row) =>
      if SlugFree(s, row.slug, None) then
        var (s1, id) := CreateInvitation(s, row);
        FreshSlugKeepsUnique(s, s1, id);
        Ok((s1, id))
      else Err(Rejected)
  }
}
