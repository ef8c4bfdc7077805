/**
 * Values, strict validation, canonical printing and decoding (json.rs).
 *
 * Numbers are integers; a token with a fraction or an exponent has no value here.
 */
module Json {
  import opened Prelude
  import opened Utf16
  import opened JsonGrammar

  datatype Value =
    | Null
    | Bool(b: bool)
    | Number(n: int)
    | Str(s: string)
    | Array(items: seq<Value>)
    | Object(members: map<string, Value>)

  const MAX_SAFE_INTEGER: int := 9_007_199_254_740_991
  const MAX_DEPTH: nat := 128

  // ---- strict validation ----

  predicate StrictAt(v: Value, depth: nat) {
    && depth <= MAX_DEPTH
    && match v
       case Number(n) => -MAX_SAFE_INTEGER <= n <= MAX_SAFE_INTEGER
       case Array(items) => forall i | 0 <= i < |items| :: StrictAt(items[i], depth + 1)
       case Object(ms) => forall k | k in ms :: StrictAt(ms[k], depth + 1)
       case _ => true
  }

  predicate Strict(v: Value) { StrictAt(v, 0) }

  // ---- numbers ----

  function Digit(d: nat): (c: char)
    requires d < 10
    ensures IsDigit(c) && (c == '0' <==> d == 0)
  {
    ('0' as int + d) as char
  }

  function NatText(n: nat): (s: string)
    ensures s != "" && AllDigits(s)
    ensures s[0] == '0' ==> s == "0"
    ensures NatValue(s) == n
  {
    if n < 10 then [Digit(n)] else
      var s := NatText(n / 10) + [Digit(n % 10)];
      assert s[..|s| - 1] == NatText(n / 10);
      s
  }

  function IntText(n: int): string {
    if n < 0 then "-" + NatText(-n) else NatText(n)
  }

  predicate AllDigits(s: string) { forall i | 0 <= i < |s| :: IsDigit(s[i]) }

  function NatValue(s: string): (n: nat)
    requires AllDigits(s)
  {
    if s == "" then 0
    else 10 * NatValue(s[..|s| - 1]) + (s[|s| - 1] as int - '0' as int)
  }

  /** The integer a number token denotes; none for a fraction, an exponent or minus zero. */
  function IntegerOf(lexeme: string): Option<int> {
    if lexeme != "" && AllDigits(lexeme) then Some(NatValue(lexeme))
    else if |lexeme| >= 2 && lexeme[0] == '-' && AllDigits(lexeme[1..]) && lexeme != "-0" then
      Some(0 - NatValue(lexeme[1..]))
    else None
  }

  // ---- strings ----

  function HexDigit(d: nat): (c: char)
    requires d < 16
    ensures IsHex(c) && HexValue(c) == d
  {
    if d < 10 then ('0' as int + d) as char else ('a' as int + d - 10) as char
  }

  /** serde_json's escaping: the short escapes, four hex digits for other controls, else verbatim. */
  function EscapeChar(c: char): (t: string)
    ensures t != ""
  {
    if c == '"' then "\\\""
    else if c == '\\' then "\\\\"
    else if c as int == 8 then "\\b"
    else if c as int == 12 then "\\f"
    else if c == '\n' then "\\n"
    else if c == '\r' then "\\r"
    else if c == '\t' then "\\t"
    else if c < ' ' then "\\u00" + [HexDigit(c as int / 16), HexDigit(c as int % 16)]
    else [c]
  }

  function Escape(s: string): string {
    if s == "" then "" else EscapeChar(s[0]) + Escape(s[1..])
  }

  function Quote(s: string): string {
    "\"" + Escape(s) + "\""
  }

  // ---- canonical text ----

  ghost function Canonical(v: Value): (t: string)
    decreases v, 1, 0
  {
    match v
    case Null => "null"
    case Bool(b) => if b then "true" else "false"
    case Number(n) => IntText(n)
    case Str(s) => Quote(s)
    case Array(items) => "[" + CanonicalItems(v, 0) + "]"
    case Object(ms) => "{" + CanonicalMembers(v, SortedKeys(ms.Keys)) + "}"
  }

  /** The items from index `i` on, separated by commas. */
  ghost function CanonicalItems(v: Value, i: nat): string
    requires v.Array? && i <= |v.items|
    decreases v, 0, |v.items| - i
  {
    if i == |v.items| then ""
    else Canonical(v.items[i]) + (if i + 1 == |v.items| then "" else "," + CanonicalItems(v, i + 1))
  }

  /** The members named by `keys`, in that order. */
  ghost function CanonicalMembers(v: Value, keys: seq<string>): string
    requires v.Object? && forall k :: k in keys ==> k in v.members
    decreases v, 0, |keys|
  {
    if keys == [] then ""
    else
      Quote(keys[0]) + ":" + Canonical(v.members[keys[0]])
      + (if |keys| == 1 then "" else "," + CanonicalMembers(v, keys[1..]))
  }

  // ---- the value of a syntax tree ----

  /** serde_json builds the map member by member, so a later member replaces an earlier one. */
  function ValueOf(r: Raw): Option<Value>
    decreases r, 1, 0
  {
    match r
    case RNull => Some(Null)
    case RBool(b) => Some(Bool(b))
    case RNumber(lexeme) =>
      (match IntegerOf(lexeme)
       case None => None
       case Some(n) => Some(Number(n)))
    case RString(s) => Some(Str(s))
    case RArray(items) =>
      (match ValuesOf(r, |items|)
       case None => None
       case Some(vs) => Some(Array(vs)))
    case RObject(ms) =>
      (match MembersOf(r, |ms|)
       case None => None
       case Some(m) => Some(Object(m)))
  }

  /** The values of the first `n` items. */
  function ValuesOf(r: Raw, n: nat): (vs: Option<seq<Value>>)
    requires r.RArray? && n <= |r.items|
    ensures vs.Some? ==> |vs.value| == n
    decreases r, 0, n
  {
    if n == 0 then Some([])
    else match ValuesOf(r, n - 1)
      case None => None
      case Some(vs) =>
        match ValueOf(r.items[n - 1])
        case None => None
        case Some(v) => Some(vs + [v])
  }

  /** The map built from the first `n` members. */
  function MembersOf(r: Raw, n: nat): Option<map<string, Value>>
    requires r.RObject? && n <= |r.members|
    decreases r, 0, n
  {
    if n == 0 then Some(map[])
    else match MembersOf(r, n - 1)
      case None => None
      case Some(m) =>
        match ValueOf(r.members[n - 1].1)
        case None => None
        case Some(v) => Some(m[r.members[n - 1].0 := v])
  }

  /** `strict_json_decode`: scan for duplicate names, decode, validate, compare with the canonical text. */
  ghost function StrictDecode(text: string): Option<Value> {
    match ParseDocument(text)
    case None => None
    case Some(raw) =>
      if !UniqueKeys(raw) then None
      else match ValueOf(raw)
        case None => None
        case Some(v) => if Strict(v) && Canonical(v) == text then Some(v) else None
  }
}
