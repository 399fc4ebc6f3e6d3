/** The PHP values a form submission or a request carries, and PHP's tests on them. */
module Php {
  import opened Wrappers
  import opened Decimal

  /** A PHP value as it appears in submitted form state. A PHP list (an upload
      widget's state, the rows of a repeater) is a `VList`; an array with string
      keys (one repeater row, a nested section) is a `VRecord`. */
  datatype Value =
    | VNull
    | VBool(b: bool)
    | VInt(i: int)
    | VStr(s: string)
    | VList(items: seq<Value>)
    | VRecord(fields: map<string, Value>)

  /** `(bool) $s` for a string: only "" and "0" are false. */
  predicate TruthyString(s: string) {
    s != "" && s != "0"
  }

  /** `(bool) $v`, PHP's truthiness. */
  predicate Truthy(v: Value) {
    match v
    case VNull => false
    case VBool(b) => b
    case VInt(i) => i != 0
    case VStr(s) => TruthyString(s)
    case VList(xs) => |xs| > 0
    case VRecord(m) => |m| > 0
  }

  /** `$array[$key] ?? null`: an absent key reads as null. */
  function Get(m: map<string, Value>, key: string): (v: Value)
    ensures key !in m ==> v == VNull
    ensures key in m ==> v == m[key]
  {
    if key in m then m[key] else VNull
  }

  /** The characters PHP's `trim` strips by default. */
  predicate IsTrimChar(c: char) {
    c == ' ' || c == '\t' || c == '\n' || c == '\r' || c == '\0' || c as int == 11
  }

  function TrimLeft(s: string): (r: string)
    ensures |r| <= |s| && r == s[|s| - |r|..]
    ensures forall i :: 0 <= i < |s| - |r| ==> IsTrimChar(s[i])
    ensures |r| > 0 ==> !IsTrimChar(r[0])
    decreases |s|
  {
    if |s| > 0 && IsTrimChar(s[0]) then TrimLeft(s[1..]) else s
  }

  function TrimRight(s: string): (r: string)
    ensures |r| <= |s| && r == s[..|r|]
    ensures forall i :: |r| <= i < |s| ==> IsTrimChar(s[i])
    ensures |r| > 0 ==> !IsTrimChar(r[|r| - 1])
    decreases |s|
  {
    if |s| > 0 && IsTrimChar(s[|s| - 1]) then TrimRight(s[..|s| - 1]) else s
  }

  /** PHP's `trim`: the slice left after stripping trim characters at both ends. */
  function Trim(s: string): (r: string)
    ensures |r| <= |s|
    ensures |r| > 0 ==> !IsTrimChar(r[0]) && !IsTrimChar(r[|r| - 1])
    ensures r == "" <==> forall i :: 0 <= i < |s| ==> IsTrimChar(s[i])
  {
    TrimBothEnds(s);
    TrimRight(TrimLeft(s))
  }

  lemma TrimBothEnds(s: string)
    ensures TrimRight(TrimLeft(s)) == "" <==> forall i :: 0 <= i < |s| ==> IsTrimChar(s[i])
  {
    var l := TrimLeft(s);
    var k := |s| - |l|;
    if TrimRight(l) == "" {
      assert l == "";
    }
  }

  /** Laravel's `blank()`: null, a string of only whitespace, or an empty array.
      Booleans and numbers are never blank. */
  predicate Blank(v: Value) {
    match v
    case VNull => true
    case VBool(_) => false
    case VInt(_) => false
    case VStr(s) => Trim(s) == ""
    case VList(xs) => |xs| == 0
    case VRecord(m) => |m| == 0
  }

  /** `(string) $i` for an int: its decimal digits, after a minus sign when
      it is negative. */
  function IntText(i: int): (r: string)
    ensures |r| >= 1
    ensures i >= 0 ==> AllDigits(r) && DigitsValue(r) == i
    ensures i < 0 ==> r[0] == '-' && AllDigits(r[1..]) && DigitsValue(r[1..]) == -i
  {
    if i >= 0 then
      DigitsValueOfNatToString(i);
      NatToString(i)
    else
      DigitsValueOfNatToString(-i);
      assert ("-" + NatToString(-i))[1..] == NatToString(-i);
      "-" + NatToString(-i)
  }

  /** Distinct ints have distinct texts. */
  lemma IntTextInjective(a: int, b: int)
    requires IntText(a) == IntText(b)
    ensures a == b
  {
    if a >= 0 && b >= 0 {
      NatToStringInjective(a, b);
    } else if a < 0 && b < 0 {
      assert IntText(a)[1..] == NatToString(-a);
      assert IntText(b)[1..] == NatToString(-b);
      NatToStringInjective(-a, -b);
    }
  }

  /** What a nullable string column holds after Eloquent writes `v` to it: a
      string as it is, an int as its decimal text, a bool as "1" or "0"
      (the connection binds a bool as an int), null as null. An array is no
      column value; it reads as null here. */
  function ColumnText(v: Value): (r: Option<string>)
    ensures r.None? <==> v.VNull? || v.VList? || v.VRecord?
    ensures v.VStr? ==> r == Some(v.s)
    ensures v.VInt? ==> r.Some? && (v.i >= 0 ==> AllDigits(r.value) && DigitsValue(r.value) == v.i)
    ensures v.VBool? ==> r == Some(if v.b then "1" else "0")
  {
    match v
    case VStr(s) => Some(s)
    case VInt(i) => Some(IntText(i))
    case VBool(b) => Some(if b then "1" else "0")
    case _ => None
  }
}
