/**
 * The grammar of RFC 8259 (sections 2 to 7) as recursive functions from a text to a syntax
 * tree and the unread rest.  Trees keep repeated member names, because the duplicate-key
 * scanner in json.rs has to see them.
 */
module JsonGrammar {
  import opened Prelude

  datatype Raw =
    | RNull
    | RBool(b: bool)
    | RNumber(lexeme: string)
    | RString(s: string)
    | RArray(items: seq<Raw>)
    | RObject(members: seq<(string, Raw)>)

  // ---- characters ----

  predicate IsSpace(c: char) { c == ' ' || c == '\n' || c == '\r' || c == '\t' }

  predicate IsDigit(c: char) { '0' <= c <= '9' }

  predicate IsHex(c: char) { '0' <= c <= '9' || 'a' <= c <= 'f' || 'A' <= c <= 'F' }

  function HexValue(c: char): (n: nat)
    requires IsHex(c)
    ensures n < 16
  {
    if c <= '9' then c as int - '0' as int
    else if c <= 'F' then c as int - 'A' as int + 10
    else c as int - 'a' as int + 10
  }

  function SkipSpace(s: string): (r: string)
    ensures r == "" || !IsSpace(r[0])
    ensures |r| <= |s|
  {
    if s != "" && IsSpace(s[0]) then SkipSpace(s[1..]) else s
  }

  function SkipDigits(s: string): (r: string)
    ensures r == "" || !IsDigit(r[0])
    ensures |r| <= |s|
  {
    if s != "" && IsDigit(s[0]) then SkipDigits(s[1..]) else s
  }

  predicate At(s: string, c: char) { s != "" && s[0] == c }

  predicate AtDigit(s: string) { s != "" && IsDigit(s[0]) }

  // ---- numbers (RFC 8259 section 6) ----

  /** The rest after the digits before the point. */
  function SkipInteger(s: string): (r: Option<string>)
    ensures r.Some? ==> |r.value| < |s|
  {
    var t := if At(s, '-') then s[1..] else s;
    if At(t, '0') then Some(t[1..])
    else if AtDigit(t) then Some(SkipDigits(t[1..]))
    else None
  }

  function SkipFraction(s: string): (r: Option<string>)
    ensures r.Some? ==> |r.value| <= |s|
  {
    if !At(s, '.') then Some(s)
    else if AtDigit(s[1..]) then Some(SkipDigits(s[1..]))
    else None
  }

  function SkipExponent(s: string): (r: Option<string>)
    ensures r.Some? ==> |r.value| <= |s|
  {
    if !At(s, 'e') && !At(s, 'E') then Some(s)
    else
      var t := s[1..];
      var u := if At(t, '+') || At(t, '-') then t[1..] else t;
      if AtDigit(u) then Some(SkipDigits(u)) else None
  }

  function SkipNumber(s: string): (r: Option<string>)
    ensures r.Some? ==> |r.value| < |s|
  {
    match SkipInteger(s)
    case None => None
    case Some(t) =>
      match SkipFraction(t)
      case None => None
      case Some(u) => SkipExponent(u)
  }

  // ---- strings (RFC 8259 section 7) ----

  predicate AtHex4(s: string) {
    |s| >= 4 && IsHex(s[0]) && IsHex(s[1]) && IsHex(s[2]) && IsHex(s[3])
  }

  function Hex4(s: string): (n: nat)
    requires AtHex4(s)
    ensures n < 0x10000
  {
    HexValue(s[0]) * 0x1000 + HexValue(s[1]) * 0x100 + HexValue(s[2]) * 0x10 + HexValue(s[3])
  }

  /** One escape at the head of `s`: the character it denotes and how many characters it takes. */
  function ReadEscape(s: string): (r: Option<(char, nat)>)
    requires At(s, '\\')
    ensures r.Some? ==> 2 <= r.value.1 <= |s|
  {
    if |s| < 2 then None
    else match s[1]
      case '"' => Some(('"', 2))
      case '\\' => Some(('\\', 2))
      case '/' => Some(('/', 2))
      case 'b' => Some((8 as char, 2))
      case 'f' => Some((12 as char, 2))
      case 'n' => Some(('\n', 2))
      case 'r' => Some(('\r', 2))
      case 't' => Some(('\t', 2))
      case 'u' => ReadUnicodeEscape(s)
      case _ => None
  }

  /** A four-digit escape, or a surrogate pair of them; a lone surrogate denotes no character. */
  function ReadUnicodeEscape(s: string): (r: Option<(char, nat)>)
    requires |s| >= 2
    ensures r.Some? ==> 6 <= r.value.1 <= |s|
  {
    if !AtHex4(s[2..]) then None
    else
      var hi := Hex4(s[2..]);
      if hi < 0xD800 || 0xE000 <= hi then Some((hi as char, 6))
      else if 0xDC00 <= hi || |s| < 8 || s[6] != '\\' || s[7] != 'u' || !AtHex4(s[8..]) then None
      else
        var lo := Hex4(s[8..]);
        if lo < 0xDC00 || 0xE000 <= lo then None
        else Some(((0x10000 + (hi - 0xD800) * 0x400 + (lo - 0xDC00)) as char, 12))
  }

  /** The characters up to the closing quote, decoded, and the rest after that quote. */
  function ReadChars(s: string): (r: Option<(string, string)>)
    ensures r.Some? ==> |r.value.1| < |s|
    decreases |s|
  {
    if s == "" then None
    else if s[0] == '"' then Some(("", s[1..]))
    else if s[0] == '\\' then
      match ReadEscape(s)
      case None => None
      case Some((c, n)) => Prepend(c, ReadChars(s[n..]))
    else if s[0] < ' ' then None
    else Prepend(s[0], ReadChars(s[1..]))
  }

  function Prepend(c: char, r: Option<(string, string)>): Option<(string, string)> {
    match r
    case None => None
    case Some((t, rest)) => Some(([c] + t, rest))
  }

  // ---- values (RFC 8259 sections 2 to 5) ----

  type Parsed<T> = Option<(T, string)>

  ghost predicate Shorter<T>(r: Parsed<T>, s: string) {
    r.Some? ==> |r.value.1| < |s|
  }

  function Literal(s: string, word: string, v: Raw): (r: Parsed<Raw>)
    requires word != ""
    ensures Shorter(r, s)
  {
    if word <= s then Some((v, s[|word|..])) else None
  }

  function ParseValue(s: string): (r: Parsed<Raw>)
    ensures Shorter(r, s)
    decreases |s|, 3
  {
    var t := SkipSpace(s);
    if t == "" then None
    else if t[0] == '{' then ParseObject(t)
    else if t[0] == '[' then ParseArray(t)
    else if t[0] == '"' then
      (match ReadChars(t[1..])
       case None => None
       case Some((x, rest)) => Some((RString(x), rest)))
    else if t[0] == 't' then Literal(t, "true", RBool(true))
    else if t[0] == 'f' then Literal(t, "false", RBool(false))
    else if t[0] == 'n' then Literal(t, "null", RNull)
    else if t[0] == '-' || IsDigit(t[0]) then
      (match SkipNumber(t)
       case None => None
       case Some(rest) => Some((RNumber(t[..|t| - |rest|]), rest)))
    else None
  }

  function ParseObject(s: string): (r: Parsed<Raw>)
    requires s != ""
    ensures Shorter(r, s)
    decreases |s|, 2
  {
    var t := SkipSpace(s[1..]);
    if At(t, '}') then Some((RObject([]), t[1..]))
    else match ParseMembers(t)
      case None => None
      case Some((ms, rest)) => Some((RObject(ms), rest))
  }

  /** At least one member, up to and including the closing brace. */
  function ParseMembers(s: string): (r: Parsed<seq<(string, Raw)>>)
    ensures Shorter(r, s)
    decreases |s|, 1
  {
    match ParseMember(s)
    case None => None
    case Some((m, rest)) =>
      var t := SkipSpace(rest);
      if At(t, '}') then Some(([m], t[1..]))
      else if At(t, ',') then ConsTo(m, ParseMembers(t[1..]))
      else None
  }

  function ParseMember(s: string): (r: Parsed<(string, Raw)>)
    ensures Shorter(r, s)
    decreases |s|, 0
  {
    var t := SkipSpace(s);
    if !At(t, '"') then None
    else match ReadChars(t[1..])
      case None => None
      case Some((name, rest)) =>
        var u := SkipSpace(rest);
        if !At(u, ':') then None
        else match ParseValue(u[1..])
          case None => None
          case Some((v, rest')) => Some(((name, v), rest'))
  }

  function ParseArray(s: string): (r: Parsed<Raw>)
    requires s != ""
    ensures Shorter(r, s)
    decreases |s|, 2
  {
    var t := SkipSpace(s[1..]);
    if At(t, ']') then Some((RArray([]), t[1..]))
    else match ParseItems(t)
      case None => None
      case Some((vs, rest)) => Some((RArray(vs), rest))
  }

  /** At least one item, up to and including the closing bracket. */
  function ParseItems(s: string): (r: Parsed<seq<Raw>>)
    ensures Shorter(r, s)
    decreases |s|, 4
  {
    match ParseValue(s)
    case None => None
    case Some((v, rest)) =>
      var t := SkipSpace(rest);
      if At(t, ']') then Some(([v], t[1..]))
      else if At(t, ',') then ConsTo(v, ParseItems(t[1..]))
      else None
  }

  function ConsTo<T>(x: T, r: Parsed<seq<T>>): Parsed<seq<T>> {
    match r
    case None => None
    case Some((xs, rest)) => Some(([x] + xs, rest))
  }

  /** A whole text: one value with nothing but white space around it. */
  function ParseDocument(text: string): Option<Raw> {
    match ParseValue(text)
    case None => None
    case Some((v, rest)) => if SkipSpace(rest) == "" then Some(v) else None
  }

  // ---- duplicate names ----

  predicate UniqueKeys(v: Raw) {
    match v
    case RArray(items) => forall i | 0 <= i < |items| :: UniqueKeys(items[i])
    case RObject(ms) => DistinctNames(ms) && forall i | 0 <= i < |ms| :: UniqueKeys(ms[i].1)
    case _ => true
  }

  predicate DistinctNames(ms: seq<(string, Raw)>) {
    forall i, j | 0 <= i < j < |ms| :: ms[i].0 != ms[j].0
  }
}
