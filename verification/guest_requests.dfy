/** The two form requests a guest submits on a published invitation
    (`StoreRsvpRequest`, `StoreGuestbookRequest`) and the part of Laravel's
    validator their rules use: which rules run on a field, and what each
    rule accepts. */
module GuestRequests {
  import opened Php
  import opened Decimal

  /** The rule strings the two requests use. */
  datatype Rule =
    | Required            // `required`
    | Nullable            // `nullable`
    | IsString            // `string`
    | IsInteger           // `integer`
    | Min(n: int)         // `min:n`
    | Max(n: int)         // `max:n`
    | In(words: set<string>)  // `in:a,b,...`

  /** `(string) $v` for an integer. */
  function IntToString(i: int): (r: string)
    ensures |r| >= 1 && (IsDigit(r[0]) || r[0] == '-')
  {
    if i >= 0 then NatToString(i) else "-" + NatToString(-i)
  }

  /** `(string) $v`: null and false are "", true is "1", an array is "Array". */
  function PhpString(v: Value): (r: string)
    ensures v.VStr? ==> r == v.s
    ensures v.VNull? ==> r == ""
    ensures v.VInt? ==> |r| >= 1 && (IsDigit(r[0]) || r[0] == '-')
  {
    match v
    case VNull => ""
    case VBool(b) => if b then "1" else ""
    case VInt(i) => IntToString(i)
    case VStr(s) => s
    case VList(_) => "Array"
    case VRecord(_) => "Array"
  }

  /** `is_numeric`, for the forms a form field takes: an integer, or a string
      of decimal digits. */
  predicate Numeric(v: Value) {
    v.VInt? || (v.VStr? && |v.s| >= 1 && AllDigits(v.s))
  }

  function NumericValue(v: Value): int
    requires Numeric(v)
  {
    if v.VInt? then v.i else DigitsValue(v.s)
  }

  /** `filter_var($v, FILTER_VALIDATE_INT) !== false`: an integer, or a digit
      string without a leading zero. */
  predicate IntegerLike(v: Value) {
    v.VInt? || (v.VStr? && IsCanonical(v.s))
  }

  /** The validator's `getSize`: the number itself when the field carries a
      numeric rule and the value is numeric, the element count of an array,
      the character count of anything else. */
  function Size(v: Value, rules: seq<Rule>): (n: int)
    ensures v.VStr? && IsInteger !in rules ==> n == |v.s|
    ensures IsInteger in rules && Numeric(v) ==> n == NumericValue(v)
  {
    if IsInteger in rules && Numeric(v) then NumericValue(v)
    else match v
      case VList(xs) => |xs|
      case VRecord(m) => |m|
      case _ => |PhpString(v)|
  }

  /** Whether a rule runs at all on the field. `required` always runs; any other
      rule is skipped when the field is absent, when it is a string of only
      whitespace, or when it is null and the field is `nullable`. */
  predicate Validatable(m: map<string, Value>, key: string, rules: seq<Rule>, r: Rule) {
    r.Required? ||
    (&& key in m
     && !(m[key].VStr? && Trim(m[key].s) == "")
     && !(m[key].VNull? && Nullable in rules))
  }

  /** What one rule accepts. */
  predicate Accepts(v: Value, rules: seq<Rule>, r: Rule) {
    match r
    case Required => !Blank(v)
    case Nullable => true
    case IsString => v.VStr?
    case IsInteger => IntegerLike(v)
    case Min(n) => Size(v, rules) >= n
    case Max(n) => Size(v, rules) <= n
    case In(ws) => !v.VList? && !v.VRecord? && PhpString(v) in ws
  }

  /** One rule either does not run on the field or accepts its value. */
  predicate RuleOk(m: map<string, Value>, key: string, rules: seq<Rule>, r: Rule) {
    Validatable(m, key, rules, r) ==> Accepts(Get(m, key), rules, r)
  }

  /** Every rule of the field passes. */
  predicate FieldPasses(m: map<string, Value>, key: string, rules: seq<Rule>) {
    forall i :: 0 <= i < |rules| ==> RuleOk(m, key, rules, rules[i])
  }

  /** A request passes a rule set when every listed field passes its rules. */
  predicate Passes(m: map<string, Value>, rules: map<string, seq<Rule>>) {
    forall key :: key in rules ==> FieldPasses(m, key, rules[key])
  }

  const ATTENDANCE: set<string> := {"yes", "no", "maybe"}

  /** `StoreRsvpRequest::rules()`. */
  const RSVP_RULES: map<string, seq<Rule>> := map[
    "guest_name" := [Required, IsString, Max(150)],
    "phone" := [Nullable, IsString, Max(50)],
    "attendance" := [Required, In(ATTENDANCE)],
    "pax" := [Required, IsInteger, Min(1), Max(10)],
    "note" := [Nullable, IsString, Max(1000)],
    "website" := [Nullable, IsString, Max(0)]]

  /** `StoreGuestbookRequest::rules()`. */
  const GUESTBOOK_RULES: map<string, seq<Rule>> := map[
    "guest_name" := [Required, IsString, Max(150)],
    "guest_address" := [Nullable, IsString, Max(150)],
    "message" := [Required, IsString, Max(2000)],
    "attendance" := [Nullable, In(ATTENDANCE)],
    "website" := [Nullable, IsString, Max(0)]]

  // The same requirements in plain terms, one per kind of field.

  /** A string that is not only whitespace, of at most `n` characters. */
  predicate RequiredText(v: Value, n: nat) {
    v.VStr? && Trim(v.s) != "" && |v.s| <= n
  }

  /** Null, a string of only whitespace, or a string of at most `n` characters. */
  predicate OptionalText(v: Value, n: nat) {
    v.VNull? || (v.VStr? && (Trim(v.s) == "" || |v.s| <= n))
  }

  /** One of the three attendance words. */
  predicate AttendanceWord(v: Value) {
    v.VStr? && v.s in ATTENDANCE
  }

  /** A whole number from 1 to 10, as an integer or as its digits. */
  predicate PartySize(v: Value) {
    || (v.VInt? && 1 <= v.i <= 10)
    || (v.VStr? && IsCanonical(v.s) && 1 <= DigitsValue(v.s) <= 10)
  }

  /** What an RSVP must look like to be accepted; the honeypot `website`
      must be empty. */
  predicate RsvpShape(m: map<string, Value>) {
    && RequiredText(Get(m, "guest_name"), 150)
    && OptionalText(Get(m, "phone"), 50)
    && AttendanceWord(Get(m, "attendance"))
    && PartySize(Get(m, "pax"))
    && OptionalText(Get(m, "note"), 1000)
    && OptionalText(Get(m, "website"), 0)
  }

  /** What a guestbook message must look like to be accepted. */
  predicate GuestbookShape(m: map<string, Value>) {
    && RequiredText(Get(m, "guest_name"), 150)
    && OptionalText(Get(m, "guest_address"), 150)
    && RequiredText(Get(m, "message"), 2000)
    && (Get(m, "attendance").VNull? || AttendanceWord(Get(m, "attendance"))
        || (Get(m, "attendance").VStr? && Trim(Get(m, "attendance").s) == ""))
    && OptionalText(Get(m, "website"), 0)
  }

  // Field by field, the rules mean the plain requirements.

  lemma Unroll2(m: map<string, Value>, key: string, a: Rule, b: Rule)
    ensures FieldPasses(m, key, [a, b]) <==> RuleOk(m, key, [a, b], a) && RuleOk(m, key, [a, b], b)
  {
    var rules := [a, b];
    assert rules[0] == a && rules[1] == b;
  }

  lemma Unroll3(m: map<string, Value>, key: string, a: Rule, b: Rule, c: Rule)
    ensures FieldPasses(m, key, [a, b, c]) <==>
            RuleOk(m, key, [a, b, c], a) && RuleOk(m, key, [a, b, c], b) && RuleOk(m, key, [a, b, c], c)
  {
    var rules := [a, b, c];
    assert rules[0] == a && rules[1] == b && rules[2] == c;
  }

  lemma Unroll4(m: map<string, Value>, key: string, a: Rule, b: Rule, c: Rule, d: Rule)
    ensures var rules := [a, b, c, d];
            FieldPasses(m, key, rules) <==>
            RuleOk(m, key, rules, a) && RuleOk(m, key, rules, b) && RuleOk(m, key, rules, c) && RuleOk(m, key, rules, d)
  {
    var rules := [a, b, c, d];
    assert rules[0] == a && rules[1] == b && rules[2] == c && rules[3] == d;
  }

  /** A string whose first character is not whitespace is not blank. */
  lemma NotBlankString(s: string)
    requires |s| > 0 && !IsTrimChar(s[0])
    ensures Trim(s) != ""
  {
  }

  lemma RequiredTextRules(m: map<string, Value>, key: string, n: nat)
    ensures FieldPasses(m, key, [Required, IsString, Max(n)]) <==> RequiredText(Get(m, key), n)
  {
    Unroll3(m, key, Required, IsString, Max(n));
  }

  lemma OptionalTextRules(m: map<string, Value>, key: string, n: nat)
    ensures FieldPasses(m, key, [Nullable, IsString, Max(n)]) <==> OptionalText(Get(m, key), n)
  {
    Unroll3(m, key, Nullable, IsString, Max(n));
  }

  /** No attendance word is the string form of a number or a boolean. */
  lemma ScalarsAreNotWords(v: Value)
    requires v.VInt? || v.VBool? || v.VNull?
    ensures PhpString(v) !in ATTENDANCE
  {
    var s := PhpString(v);
    if v.VInt? {
      assert IsDigit(s[0]) || s[0] == '-';
      assert "yes"[0] == 'y' && "no"[0] == 'n' && "maybe"[0] == 'm';
    }
  }

  /** An attendance word is not blank. */
  lemma WordsNotBlank(v: Value)
    requires AttendanceWord(v)
    ensures !Blank(v) && Trim(v.s) != ""
  {
    NotBlankString(v.s);
  }

  lemma RequiredWordRules(m: map<string, Value>, key: string)
    ensures FieldPasses(m, key, [Required, In(ATTENDANCE)]) <==> AttendanceWord(Get(m, key))
  {
    var rules := [Required, In(ATTENDANCE)];
    var v := Get(m, key);
    Unroll2(m, key, Required, In(ATTENDANCE));
    if v.VInt? || v.VBool? || v.VNull? {
      ScalarsAreNotWords(v);
    }
    if AttendanceWord(v) {
      WordsNotBlank(v);
    }
  }

  lemma OptionalWordRules(m: map<string, Value>, key: string)
    ensures FieldPasses(m, key, [Nullable, In(ATTENDANCE)]) <==>
            (Get(m, key).VNull? || AttendanceWord(Get(m, key)) || (Get(m, key).VStr? && Trim(Get(m, key).s) == ""))
  {
    var v := Get(m, key);
    Unroll2(m, key, Nullable, In(ATTENDANCE));
    if v.VInt? || v.VBool? {
      ScalarsAreNotWords(v);
    }
  }

  lemma PartySizeRules(m: map<string, Value>, key: string)
    ensures FieldPasses(m, key, [Required, IsInteger, Min(1), Max(10)]) <==> PartySize(Get(m, key))
  {
    var v := Get(m, key);
    Unroll4(m, key, Required, IsInteger, Min(1), Max(10));
    if v.VStr? && IsCanonical(v.s) {
      NotBlankString(v.s);
    }
  }

  /** `StoreRsvpRequest` field by field. */
  lemma RsvpFields(m: map<string, Value>)
    ensures Passes(m, RSVP_RULES) <==>
            && FieldPasses(m, "guest_name", [Required, IsString, Max(150)])
            && FieldPasses(m, "phone", [Nullable, IsString, Max(50)])
            && FieldPasses(m, "attendance", [Required, In(ATTENDANCE)])
            && FieldPasses(m, "pax", [Required, IsInteger, Min(1), Max(10)])
            && FieldPasses(m, "note", [Nullable, IsString, Max(1000)])
            && FieldPasses(m, "website", [Nullable, IsString, Max(0)])
  {
    assert RSVP_RULES.Keys == {"guest_name", "phone", "attendance", "pax", "note", "website"};
  }

  /** `StoreGuestbookRequest` field by field. */
  lemma GuestbookFields(m: map<string, Value>)
    ensures Passes(m, GUESTBOOK_RULES) <==>
            && FieldPasses(m, "guest_name", [Required, IsString, Max(150)])
            && FieldPasses(m, "guest_address", [Nullable, IsString, Max(150)])
            && FieldPasses(m, "message", [Required, IsString, Max(2000)])
            && FieldPasses(m, "attendance", [Nullable, In(ATTENDANCE)])
            && FieldPasses(m, "website", [Nullable, IsString, Max(0)])
  {
    assert GUESTBOOK_RULES.Keys == {"guest_name", "guest_address", "message", "attendance", "website"};
  }

  /** An RSVP passes `StoreRsvpRequest` exactly when it has the plain shape. */
  lemma RsvpRulesMeaning(m: map<string, Value>)
    ensures Passes(m, RSVP_RULES) <==> RsvpShape(m)
  {
    RsvpFields(m);
    RequiredTextRules(m, "guest_name", 150);
    OptionalTextRules(m, "phone", 50);
    RequiredWordRules(m, "attendance");
    PartySizeRules(m, "pax");
    OptionalTextRules(m, "note", 1000);
    OptionalTextRules(m, "website", 0);
  }

  /** A guestbook message passes `StoreGuestbookRequest` exactly when it has
      the plain shape. */
  lemma GuestbookRulesMeaning(m: map<string, Value>)
    ensures Passes(m, GUESTBOOK_RULES) <==> GuestbookShape(m)
  {
    GuestbookFields(m);
    RequiredTextRules(m, "guest_name", 150);
    OptionalTextRules(m, "guest_address", 150);
    RequiredTextRules(m, "message", 2000);
    OptionalWordRules(m, "attendance");
    OptionalTextRules(m, "website", 0);
  }

  /** A filled-in honeypot always fails validation, for either request. */
  lemma HoneypotRejects(m: map<string, Value>)
    requires "website" in m && m["website"].VStr? && Trim(m["website"].s) != ""
    ensures !Passes(m, RSVP_RULES) && !Passes(m, GUESTBOOK_RULES)
  {
    RsvpRulesMeaning(m);
    GuestbookRulesMeaning(m);
    assert |m["website"].s| > 0;
  }
}
