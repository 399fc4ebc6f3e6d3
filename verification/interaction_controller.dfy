/** The guest-facing writes (`InvitationInteractionController`): an RSVP and a
    guestbook message, each posted to a published invitation's slug. The form
    request validates first; then the invitation is looked up; then one row is
    inserted, which the database may still refuse when a value does not fit
    its column. */
module InteractionController {
  import opened Wrappers
  import opened Php
  import opened Decimal
  import opened Tables
  import opened Schema
  import opened TemplateRenderer
  import opened GuestRequests

  /** `findPublishedInvitation`: the invitation with this slug and status
      "published", or not-found. */
  function FindPublished(s: Store, slug: string): (r: Result<nat>)
    requires s.invitations.Valid()
    ensures r.Ok? ==> r.value in s.invitations.rows
                      && s.invitations.rows[r.value].slug == slug
                      && s.invitations.rows[r.value].status == Published
    ensures r.Err? <==> forall id :: id in s.invitations.rows ==>
                          !(s.invitations.rows[id].slug == slug && s.invitations.rows[id].status == Published)
    ensures r.Err? ==> r.error == NotFound
  {
    LoadBySlugAndStatuses(s, slug, {Published})
  }

  /** The longest run of digits a string starts with. */
  function LeadingDigits(s: string): (r: string)
    ensures AllDigits(r) && r <= s
    ensures |r| < |s| ==> !IsDigit(s[|r|])
    ensures AllDigits(s) ==> r == s
  {
    if |s| > 0 && IsDigit(s[0]) then [s[0]] + LeadingDigits(s[1..]) else ""
  }

  /** `(int) $v`: a string counts its leading digits, an array is 1 unless empty. */
  function PhpInt(v: Value): (n: int)
    ensures v.VInt? ==> n == v.i
    ensures v.VStr? && AllDigits(v.s) ==> n == DigitsValue(v.s)
  {
    match v
    case VNull => 0
    case VBool(b) => if b then 1 else 0
    case VInt(i) => i
    case VStr(s) => DigitsValue(LeadingDigits(s))
    case VList(xs) => if |xs| > 0 then 1 else 0
    case VRecord(m) => if |m| > 0 then 1 else 0
  }

  /** `substr($s, 0, $n)`. */
  function Prefix(s: string, n: nat): (r: string)
    ensures |r| <= n && r <= s
    ensures |s| <= n ==> r == s
  {
    if |s| <= n then s else s[..n]
  }

  /** `substr((string) $request->userAgent(), 0, 1000)`: a missing header is "". */
  function StoredUserAgent(ua: Option<string>): (r: string)
    ensures |r| <= 1000 && r <= ua.GetOr("")
    ensures |ua.GetOr("")| <= 1000 ==> r == ua.GetOr("")
  {
    Prefix(ua.GetOr(""), 1000)
  }

  /** A nullable string column given a raw input value: null stays null, a
      scalar is stored as its string form, an array is refused. */
  function NullableColumn(v: Value): (r: Result<Option<string>>)
    ensures r.Ok? && r.value.None? <==> v.VNull?
    ensures r.Err? <==> v.VList? || v.VRecord?
    ensures v.VStr? ==> r == Ok(Some(v.s))
  {
    match v
    case VNull => Ok(None)
    case VList(_) => Err(Rejected)
    case VRecord(_) => Err(Rejected)
    case _ => Ok(Some(PhpString(v)))
  }

  /** `$request->input($key, $default)`: the default only when the key is absent. */
  function InputOr(req: map<string, Value>, key: string, default: Value): (v: Value)
    ensures key in req ==> v == req[key]
    ensures key !in req ==> v == default
  {
    if key in req then req[key] else default
  }

  /** The values the `attendance` enum of `invitation_rsvp_responses` takes. */
  const RSVP_ATTENDANCE: set<string> := {"yes", "no", "maybe"}

  /** The values the `attendance` enum of `invitation_guestbook_entries` takes. */
  const GUESTBOOK_ATTENDANCE: set<string> := {"unknown", "yes", "no", "maybe"}

  /** The largest value an unsigned small integer column holds. */
  const MAX_UNSIGNED_SMALL: int := 65535

  // RSVP

  /** The row `storeRsvp` inserts, or the database's refusal of it. */
  function RsvpRow(inv: nat, req: map<string, Value>, ip: Option<string>, ua: Option<string>): (r: Result<RsvpResponse>)
    ensures r.Ok? ==> && r.value.invitation == inv
                      && r.value.guestName == PhpString(Get(req, "guest_name"))
                      && r.value.attendance in RSVP_ATTENDANCE
                      && 0 <= r.value.pax <= MAX_UNSIGNED_SMALL
                      && r.value.ipAddress == ip
                      && r.value.userAgent == StoredUserAgent(ua)
    ensures "attendance" !in req ==> (r.Ok? ==> r.value.attendance == "yes")
    ensures "pax" !in req ==> (r.Ok? ==> r.value.pax == 1)
    ensures r.Ok? <==> && NullableColumn(Get(req, "phone")).Ok?
                       && InputOr(req, "attendance", VStr("yes")).VStr?
                       && InputOr(req, "attendance", VStr("yes")).s in RSVP_ATTENDANCE
                       && 0 <= PhpInt(InputOr(req, "pax", VInt(1))) <= MAX_UNSIGNED_SMALL
                       && NullableColumn(Get(req, "note")).Ok?
    ensures r.Err? ==> r.error == Rejected
  {
    var attendance := InputOr(req, "attendance", VStr("yes"));
    var pax := PhpInt(InputOr(req, "pax", VInt(1)));
    match (NullableColumn(Get(req, "phone")), NullableColumn(Get(req, "note")))
    case (Ok(phone), Ok(note)) =>
      if attendance.VStr? && attendance.s in RSVP_ATTENDANCE && 0 <= pax <= MAX_UNSIGNED_SMALL then
        Ok(RsvpResponse(inv, PhpString(Get(req, "guest_name")), phone, attendance.s, pax, note, ip, StoredUserAgent(ua)))
      else Err(Rejected)
    case _ => Err(Rejected)
  }

  /** `storeRsvp`: validate, find the published invitation, insert the row.
      Nothing is written unless all three succeed. */
  function StoreRsvp(s: Store, slug: string, req: map<string, Value>, ip: Option<string>, ua: Option<string>): (r: Result<(Store, nat)>)
    requires s.Valid()
    ensures (r.Err? && r.error == Invalid) <==> !Passes(req, RSVP_RULES)
    ensures Passes(req, RSVP_RULES) ==> ((r.Err? && r.error == NotFound) <==> FindPublished(s, slug).Err?)
    ensures r.Ok? ==> var (x, id) := r.value;
                      && x == s.(rsvpResponses := x.rsvpResponses) && x.Valid()
                      && id !in s.rsvpResponses.rows
                      && x.rsvpResponses.rows.Keys == s.rsvpResponses.rows.Keys + {id}
                      && (forall j :: j in s.rsvpResponses.rows ==> x.rsvpResponses.rows[j] == s.rsvpResponses.rows[j])
                      && x.rsvpResponses.rows[id].invitation == FindPublished(s, slug).value
  {
    if !Passes(req, RSVP_RULES) then Err(Invalid)
    else match FindPublished(s, slug)
      case Err(e) => Err(e)
      case Ok(inv) =>
        match RsvpRow(inv, req, ip, ua)
        case Err(e) => Err(e)
        case Ok(row) =>
          var (t, id) := s.rsvpResponses.Insert(row);
          Ok((s.(rsvpResponses := t), id))
  }

  /** The database never refuses an RSVP that passed validation: the row keeps
      the guest's name, attendance word and party size as submitted. */
  lemma ValidRsvpIsStored(s: Store, slug: string, req: map<string, Value>, ip: Option<string>, ua: Option<string>)
    requires s.Valid() && Passes(req, RSVP_RULES) && FindPublished(s, slug).Ok?
    ensures var r := StoreRsvp(s, slug, req, ip, ua);
            && r.Ok?
            && var row := r.value.0.rsvpResponses.rows[r.value.1];
            && Get(req, "guest_name") == VStr(row.guestName)
            && Get(req, "attendance") == VStr(row.attendance)
            && 1 <= row.pax <= 10 && row.pax == PhpInt(Get(req, "pax"))
            && |row.userAgent| <= 1000
  {
    RsvpRulesMeaning(req);
    var inv := FindPublished(s, slug).value;
    assert RsvpRow(inv, req, ip, ua).Ok?;
  }

  // Guestbook

  /** `$request->string('guest_address')->toString() ?: null`: a falsy string,
      "" or "0", is stored as null. */
  function StoredAddress(v: Value): (r: Option<string>)
    ensures r.None? <==> !TruthyString(PhpString(v))
    ensures r.Some? ==> r.value == PhpString(v)
  {
    var a := PhpString(v);
    if TruthyString(a) then Some(a) else None
  }

  /** The guestbook row with a given attendance value. */
  function GuestbookEntryOf(inv: nat, req: map<string, Value>, attendance: string, ip: Option<string>, ua: Option<string>, now: string): GuestbookEntry {
    GuestbookEntry(inv, PhpString(Get(req, "guest_name")), StoredAddress(Get(req, "guest_address")),
                   PhpString(Get(req, "message")), attendance, ip, StoredUserAgent(ua), Some(now))
  }

  /** The row `storeGuestbook` inserts as written: `attendance` is passed
      through as given, so a missing one is an explicit null, which the NOT
      NULL enum column refuses. */
  function GuestbookRowAsWritten(inv: nat, req: map<string, Value>, ip: Option<string>, ua: Option<string>, now: string): (r: Result<GuestbookEntry>)
    ensures Get(req, "attendance").VNull? ==> r == Err(Rejected)
    ensures r.Ok? <==> Get(req, "attendance").VStr? && Get(req, "attendance").s in GUESTBOOK_ATTENDANCE
    ensures r.Ok? ==> r.value.attendance == Get(req, "attendance").s
  {
    var a := Get(req, "attendance");
    if a.VStr? && a.s in GUESTBOOK_ATTENDANCE then Ok(GuestbookEntryOf(inv, req, a.s, ip, ua, now))
    else Err(Rejected)
  }

  /** The attendance the guestbook evidently means to store: the submitted word,
      or the column's default "unknown" when none was given. */
  function GuestbookAttendance(v: Value): (r: Option<string>)
    ensures r.Some? ==> r.value in GUESTBOOK_ATTENDANCE
    ensures (v.VNull? || (v.VStr? && Trim(v.s) == "")) ==> r == Some("unknown")
    ensures v.VStr? && v.s in GUESTBOOK_ATTENDANCE ==> r == Some(v.s)
  {
    if v.VNull? || (v.VStr? && Trim(v.s) == "") then Some("unknown")
    else if v.VStr? && v.s in GUESTBOOK_ATTENDANCE then Some(v.s)
    else None
  }

  /** The guestbook row with a missing attendance stored as "unknown". */
  function GuestbookRow(inv: nat, req: map<string, Value>, ip: Option<string>, ua: Option<string>, now: string): (r: Result<GuestbookEntry>)
    ensures r.Ok? <==> GuestbookAttendance(Get(req, "attendance")).Some?
    ensures r.Ok? ==> r == Ok(GuestbookEntryOf(inv, req, GuestbookAttendance(Get(req, "attendance")).value, ip, ua, now))
    ensures r.Err? ==> r.error == Rejected
  {
    match GuestbookAttendance(Get(req, "attendance"))
    case Some(a) => Ok(GuestbookEntryOf(inv, req, a, ip, ua, now))
    case None => Err(Rejected)
  }

  /** Insert a guestbook row, or pass on its refusal. */
  function InsertGuestbook(s: Store, row: Result<GuestbookEntry>): (r: Result<(Store, nat)>)
    requires s.Valid()
    ensures r.Ok? <==> row.Ok?
    ensures r.Err? ==> r.error == row.error
    ensures r.Ok? ==> var (x, id) := r.value;
                      && x == s.(guestbook := x.guestbook) && x.Valid()
                      && id !in s.guestbook.rows && id in x.guestbook.rows && x.guestbook.rows[id] == row.value
                      && x.guestbook.rows.Keys == s.guestbook.rows.Keys + {id}
                      && (forall j :: j in s.guestbook.rows ==> x.guestbook.rows[j] == s.guestbook.rows[j])
  {
    match row
    case Err(e) => Err(e)
    case Ok(entry) =>
      var (t, id) := s.guestbook.Insert(entry);
      Ok((s.(guestbook := t), id))
  }

  /** `storeGuestbook` as written. */
  function StoreGuestbookAsWritten(s: Store, slug: string, req: map<string, Value>, ip: Option<string>, ua: Option<string>, now: string): (r: Result<(Store, nat)>)
    requires s.Valid()
    ensures (r.Err? && r.error == Invalid) <==> !Passes(req, GUESTBOOK_RULES)
    ensures Passes(req, GUESTBOOK_RULES) ==> ((r.Err? && r.error == NotFound) <==> FindPublished(s, slug).Err?)
    ensures r.Ok? ==> r == InsertGuestbook(s, GuestbookRowAsWritten(FindPublished(s, slug).value, req, ip, ua, now))
  {
    if !Passes(req, GUESTBOOK_RULES) then Err(Invalid)
    else match FindPublished(s, slug)
      case Err(e) => Err(e)
      case Ok(inv) => InsertGuestbook(s, GuestbookRowAsWritten(inv, req, ip, ua, now))
  }

  /** `storeGuestbook` with a missing attendance stored as "unknown". */
  function StoreGuestbook(s: Store, slug: string, req: map<string, Value>, ip: Option<string>, ua: Option<string>, now: string): (r: Result<(Store, nat)>)
    requires s.Valid()
    ensures (r.Err? && r.error == Invalid) <==> !Passes(req, GUESTBOOK_RULES)
    ensures Passes(req, GUESTBOOK_RULES) ==> ((r.Err? && r.error == NotFound) <==> FindPublished(s, slug).Err?)
    ensures r.Ok? ==> r == InsertGuestbook(s, GuestbookRow(FindPublished(s, slug).value, req, ip, ua, now))
  {
    if !Passes(req, GUESTBOOK_RULES) then Err(Invalid)
    else match FindPublished(s, slug)
      case Err(e) => Err(e)
      case Ok(inv) => InsertGuestbook(s, GuestbookRow(inv, req, ip, ua, now))
  }

  /** As written, a guestbook message that passes validation but names no
      attendance is refused by the database. */
  lemma GuestbookWithoutAttendanceRefused(s: Store, slug: string, req: map<string, Value>, ip: Option<string>, ua: Option<string>, now: string)
    requires s.Valid() && Passes(req, GUESTBOOK_RULES) && FindPublished(s, slug).Ok?
    requires "attendance" !in req
    ensures StoreGuestbookAsWritten(s, slug, req, ip, ua, now) == Err(Rejected)
  {
  }

  /** The plainest guestbook message, a name and a message and nothing else,
      passes validation, is refused as written, and is stored with the default. */
  lemma NameAndMessageOnly(s: Store, slug: string, req: map<string, Value>, ip: Option<string>, ua: Option<string>, now: string)
    requires s.Valid() && FindPublished(s, slug).Ok?
    requires RequiredText(Get(req, "guest_name"), 150) && RequiredText(Get(req, "message"), 2000)
    requires "guest_address" !in req && "attendance" !in req && "website" !in req
    ensures Passes(req, GUESTBOOK_RULES)
    ensures StoreGuestbookAsWritten(s, slug, req, ip, ua, now) == Err(Rejected)
    ensures StoreGuestbook(s, slug, req, ip, ua, now).Ok?
  {
    GuestbookRulesMeaning(req);
  }

  /** With the default, every guestbook message that passes validation is
      stored on the published invitation: the address is null exactly when
      the submitted one is falsy, the attendance is the submitted word or
      "unknown", and the user agent is cut to 1000 characters. */
  lemma ValidGuestbookIsStored(s: Store, slug: string, req: map<string, Value>, ip: Option<string>, ua: Option<string>, now: string)
    requires s.Valid() && Passes(req, GUESTBOOK_RULES) && FindPublished(s, slug).Ok?
    ensures var r := StoreGuestbook(s, slug, req, ip, ua, now);
            && r.Ok?
            && var row := r.value.0.guestbook.rows[r.value.1];
            && row.invitation == FindPublished(s, slug).value
            && Get(req, "guest_name") == VStr(row.guestName) && Get(req, "message") == VStr(row.message)
            && (row.guestAddress.None? <==> !TruthyString(PhpString(Get(req, "guest_address"))))
            && (row.attendance == "unknown" || Get(req, "attendance") == VStr(row.attendance))
            && row.attendance in GUESTBOOK_ATTENDANCE
            && |row.userAgent| <= 1000
  {
    GuestbookRulesMeaning(req);
  }

  /** When the message names an attendance word, the default changes nothing. */
  lemma GuestbookAgreesWhenAttendanceGiven(s: Store, slug: string, req: map<string, Value>, ip: Option<string>, ua: Option<string>, now: string)
    requires s.Valid() && "attendance" in req && req["attendance"].VStr? && req["attendance"].s in ATTENDANCE
    ensures StoreGuestbook(s, slug, req, ip, ua, now) == StoreGuestbookAsWritten(s, slug, req, ip, ua, now)
  {
    NotBlankString(req["attendance"].s);
  }
}
