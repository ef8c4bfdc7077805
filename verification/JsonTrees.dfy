/**
 * The grammar of RFC 8259 stated by itself: derivation trees that write out white space, escapes and
 * number forms, the text each tree yields and the value it means.  The reading functions accept exactly
 * the yields of these trees, with their meanings.
 */
module JsonTrees {
  import opened Prelude
  import opened JsonGrammar
  import opened Json
  import opened JsonRoundTrip

  // ---- trees ----

  /** One character of a string: itself, a short escape, four hex digits, or two such for a surrogate pair. */
  datatype Piece = Plain(c: char) | Short(letter: char) | Code(hex: string) | Pair(high: string, low: string)

  datatype Exponent = Exponent(e: char, sign: Option<char>, digits: string)

  datatype Numeral = Numeral(minus: bool, whole: string, frac: Option<string>, exp: Option<Exponent>)

  datatype Tree =
    | TNull | TTrue | TFalse
    | TNumber(n: Numeral)
    | TString(pieces: seq<Piece>)
    | TEmptyArray(space: string)
    | TArray(elements: Elements)
    | TEmptyObject(space: string)
    | TObject(members: Members)

  /** A value with the white space around it. */
  datatype Element = Element(before: string, tree: Tree, after: string)

  datatype Elements = Last(e: Element) | More(e: Element, rest: Elements)

  datatype Member = Member(before: string, name: seq<Piece>, gap: string, e: Element)

  datatype Members = LastMember(m: Member) | MoreMembers(m: Member, rest: Members)

  // ---- yields ----

  function PieceText(p: Piece): (t: string)
    ensures t != "" || p.Code? || p.Pair?
  {
    match p
    case Plain(c) => [c]
    case Short(letter) => ['\\', letter]
    case Code(hex) => "\\u" + hex
    case Pair(high, low) => "\\u" + high + "\\u" + low
  }

  function PiecesText(ps: seq<Piece>): string {
    if ps == [] then "" else PieceText(ps[0]) + PiecesText(ps[1..])
  }

  function ExponentText(x: Exponent): string {
    [x.e] + (if x.sign.Some? then [x.sign.value] + x.digits else x.digits)
  }

  function FracText(n: Numeral): string {
    if n.frac.Some? then "." + n.frac.value else ""
  }

  function ExpText(n: Numeral): string {
    if n.exp.Some? then ExponentText(n.exp.value) else ""
  }

  function NumeralText(n: Numeral): string {
    (if n.minus then "-" else "") + n.whole + FracText(n) + ExpText(n)
  }

  function Text(t: Tree): string {
    match t
    case TNull => "null"
    case TTrue => "true"
    case TFalse => "false"
    case TNumber(n) => NumeralText(n)
    case TString(ps) => "\"" + PiecesText(ps) + "\""
    case TEmptyArray(space) => "[" + space + "]"
    case TArray(es) => "[" + ElementsText(es) + "]"
    case TEmptyObject(space) => "{" + space + "}"
    case TObject(ms) => "{" + MembersText(ms) + "}"
  }

  function ElementText(e: Element): string {
    e.before + Text(e.tree) + e.after
  }

  function ElementsText(es: Elements): string {
    match es
    case Last(e) => ElementText(e)
    case More(e, rest) => ElementText(e) + "," + ElementsText(rest)
  }

  function MemberText(m: Member): string
    decreases m, 1
  {
    m.before + MemberTail(m)
  }

  function MemberTail(m: Member): string
    decreases m, 0
  {
    "\"" + PiecesText(m.name) + "\"" + m.gap + ":" + ElementText(m.e)
  }

  function MembersText(ms: Members): string {
    match ms
    case LastMember(m) => MemberText(m)
    case MoreMembers(m, rest) => MemberText(m) + "," + MembersText(rest)
  }

  // ---- what the grammar demands of each form ----

  /** Tabs, line feeds, carriage returns and blanks. */
  predicate AllSpace(s: string) { forall i | 0 <= i < |s| :: s[i] as int in {0x09, 0x0A, 0x0D, 0x20} }

  predicate FourHex(s: string) { |s| == 4 && AtHex4(s) }

  /** Section 7: unescaped characters, the short escapes, and code units that denote a character. */
  predicate PieceOk(p: Piece) {
    match p
    case Plain(c) => c >= ' ' && c != '"' && c != '\\'
    case Short(letter) => letter in {'"', '\\', '/', 'b', 'f', 'n', 'r', 't'}
    case Code(hex) => FourHex(hex) && !(0xD800 <= Hex4(hex) < 0xE000)
    case Pair(high, low) =>
      FourHex(high) && FourHex(low) && 0xD800 <= Hex4(high) < 0xDC00 && 0xDC00 <= Hex4(low) < 0xE000
  }

  predicate PiecesOk(ps: seq<Piece>) { forall i | 0 <= i < |ps| :: PieceOk(ps[i]) }

  predicate Digits(s: string) { s != "" && AllDigits(s) }

  /** Section 6: no leading zero, digits after a point, digits after an exponent sign. */
  predicate NumeralOk(n: Numeral) {
    && Digits(n.whole) && (n.whole[0] == '0' ==> |n.whole| == 1)
    && (n.frac.Some? ==> Digits(n.frac.value))
    && (n.exp.Some? ==> ExponentOk(n.exp.value))
  }

  predicate ExponentOk(x: Exponent) {
    (x.e == 'e' || x.e == 'E') && (x.sign.Some? ==> x.sign.value == '+' || x.sign.value == '-') && Digits(x.digits)
  }

  predicate TreeOk(t: Tree) {
    match t
    case TNumber(n) => NumeralOk(n)
    case TString(ps) => PiecesOk(ps)
    case TEmptyArray(space) => AllSpace(space)
    case TArray(es) => ElementsOk(es)
    case TEmptyObject(space) => AllSpace(space)
    case TObject(ms) => MembersOk(ms)
    case _ => true
  }

  predicate ElementOk(e: Element) {
    AllSpace(e.before) && TreeOk(e.tree) && AllSpace(e.after)
  }

  predicate ElementsOk(es: Elements) {
    match es
    case Last(e) => ElementOk(e)
    case More(e, rest) => ElementOk(e) && ElementsOk(rest)
  }

  predicate MemberOk(m: Member) {
    AllSpace(m.before) && PiecesOk(m.name) && AllSpace(m.gap) && ElementOk(m.e)
  }

  predicate MembersOk(ms: Members) {
    match ms
    case LastMember(m) => MemberOk(m)
    case MoreMembers(m, rest) => MemberOk(m) && MembersOk(rest)
  }

  // ---- meanings ----

  function ShortChar(letter: char): char {
    match letter
    case 'b' => 8 as char
    case 'f' => 12 as char
    case 'n' => '\n'
    case 'r' => '\r'
    case 't' => '\t'
    case _ => letter
  }

  function PieceChar(p: Piece): char
    requires PieceOk(p)
  {
    match p
    case Plain(c) => c
    case Short(letter) => ShortChar(letter)
    case Code(hex) => Hex4(hex) as char
    case Pair(high, low) => (0x10000 + (Hex4(high) - 0xD800) * 0x400 + (Hex4(low) - 0xDC00)) as char
  }

  function Chars(ps: seq<Piece>): string
    requires PiecesOk(ps)
  {
    if ps == [] then "" else [PieceChar(ps[0])] + Chars(ps[1..])
  }

  function Meaning(t: Tree): Raw
    requires TreeOk(t)
  {
    match t
    case TNull => RNull
    case TTrue => RBool(true)
    case TFalse => RBool(false)
    case TNumber(n) => RNumber(NumeralText(n))
    case TString(ps) => RString(Chars(ps))
    case TEmptyArray(_) => RArray([])
    case TArray(es) => RArray(Meanings(es))
    case TEmptyObject(_) => RObject([])
    case TObject(ms) => RObject(MemberMeanings(ms))
  }

  function ElementMeaning(e: Element): Raw
    requires ElementOk(e)
  {
    Meaning(e.tree)
  }

  function Meanings(es: Elements): seq<Raw>
    requires ElementsOk(es)
  {
    match es
    case Last(e) => [ElementMeaning(e)]
    case More(e, rest) => [ElementMeaning(e)] + Meanings(rest)
  }

  function MemberMeaning(m: Member): (string, Raw)
    requires MemberOk(m)
  {
    (Chars(m.name), ElementMeaning(m.e))
  }

  function MemberMeanings(ms: Members): seq<(string, Raw)>
    requires MembersOk(ms)
  {
    match ms
    case LastMember(m) => [MemberMeaning(m)]
    case MoreMembers(m, rest) => [MemberMeaning(m)] + MemberMeanings(rest)
  }

  // ---- the readers read every yield ----

  lemma {:induction false} SpaceSkipped(w: string, s: string)
    requires AllSpace(w)
    ensures SkipSpace(w + s) == SkipSpace(s)
  {
    if w == "" {
      assert w + s == s;
    } else {
      assert (w + s)[1..] == w[1..] + s;
      SpaceSkipped(w[1..], s);
    }
  }

  lemma SkipsTo(w: string, s: string)
    requires AllSpace(w) && s != "" && !IsSpace(s[0])
    ensures SkipSpace(w + s) == s
  {
    SpaceSkipped(w, s);
  }

  lemma CodeReads(hex: string, tail: string)
    requires PieceOk(Code(hex))
    ensures ReadChars("\\u" + hex + tail) == Prepend(Hex4(hex) as char, ReadChars(tail))
  {
    var s := "\\u" + hex + tail;
    assert s[2..] == hex + tail && s[2..][..4] == hex;
    assert AtHex4(s[2..]) && Hex4(s[2..]) == Hex4(hex);
    assert ReadEscape(s) == Some((Hex4(hex) as char, 6));
    assert s[6..] == tail;
  }

  lemma PairReads(high: string, low: string, tail: string)
    requires PieceOk(Pair(high, low))
    ensures ReadChars("\\u" + high + "\\u" + low + tail) == Prepend(PieceChar(Pair(high, low)), ReadChars(tail))
  {
    var s := "\\u" + high + "\\u" + low + tail;
    assert s[2..] == high + ("\\u" + low + tail) && s[8..] == low + tail;
    assert AtHex4(s[2..]) && Hex4(s[2..]) == Hex4(high);
    assert AtHex4(s[8..]) && Hex4(s[8..]) == Hex4(low);
    assert s[6] == '\\' && s[7] == 'u';
    assert ReadEscape(s) == Some((PieceChar(Pair(high, low)), 12));
    assert s[12..] == tail;
  }

  lemma PieceReads(p: Piece, tail: string)
    requires PieceOk(p)
    ensures ReadChars(PieceText(p) + tail) == Prepend(PieceChar(p), ReadChars(tail))
  {
    match p
    case Plain(c) => assert ([c] + tail)[1..] == tail;
    case Short(letter) => ShortEscapeReads(letter, ShortChar(letter), tail);
    case Code(hex) => CodeReads(hex, tail);
    case Pair(high, low) => PairReads(high, low, tail);
  }

  lemma {:induction false} PiecesRead(ps: seq<Piece>, rest: string)
    requires PiecesOk(ps)
    ensures ReadChars(PiecesText(ps) + "\"" + rest) == Some((Chars(ps), rest))
  {
    if ps == [] {
      assert ("" + "\"" + rest)[1..] == rest;
    } else {
      var tail := PiecesText(ps[1..]) + "\"" + rest;
      assert PiecesText(ps) + "\"" + rest == PieceText(ps[0]) + tail;
      PieceReads(ps[0], tail);
      PiecesRead(ps[1..], rest);
    }
  }

  lemma IntegerReads(n: Numeral, rest: string)
    requires NumeralOk(n) && !AtDigit(rest)
    ensures SkipInteger((if n.minus then "-" else "") + n.whole + rest) == Some(rest)
  {
    DigitsScan(n.whole, rest);
    if n.minus {
      var s := "-" + n.whole + rest;
      assert s[0] == '-' && s[1..] == n.whole + rest;
    } else {
      assert "" + n.whole + rest == n.whole + rest;
    }
  }

  lemma FractionReads(digits: string, rest: string)
    requires Digits(digits) && !AtDigit(rest)
    ensures SkipFraction("." + digits + rest) == Some(rest)
  {
    var s := "." + digits + rest;
    assert s[1..] == digits + rest && AtDigit(s[1..]);
    SkipDigitsAppend(digits, rest);
  }

  lemma ExponentReads(x: Exponent, rest: string)
    requires ExponentOk(x) && !AtDigit(rest)
    ensures SkipExponent(ExponentText(x) + rest) == Some(rest)
  {
    var s, u := ExponentText(x) + rest, x.digits + rest;
    SkipDigitsAppend(x.digits, rest);
    assert u[0] == x.digits[0] && AtDigit(u);
    if x.sign.None? {
      assert s[1..] == u;
    } else {
      var t := [x.sign.value] + u;
      assert s[1..] == t && t[1..] == u;
    }
  }

  lemma ExpPart(n: Numeral, rest: string)
    requires NumeralOk(n) && Delimited(rest)
    ensures SkipExponent(ExpText(n) + rest) == Some(rest)
    ensures !AtDigit(ExpText(n) + rest) && !At(ExpText(n) + rest, '.')
  {
    if n.exp.Some? {
      ExponentReads(n.exp.value, rest);
      assert (ExponentText(n.exp.value) + rest)[0] == n.exp.value.e;
    } else {
      assert "" + rest == rest;
    }
  }

  lemma FracPart(n: Numeral, exp: string)
    requires NumeralOk(n) && !AtDigit(exp) && !At(exp, '.')
    ensures SkipFraction(FracText(n) + exp) == Some(exp) && !AtDigit(FracText(n) + exp)
  {
    if n.frac.Some? {
      FractionReads(n.frac.value, exp);
    } else {
      assert "" + exp == exp;
    }
  }

  lemma NumeralReads(n: Numeral, rest: string)
    requires NumeralOk(n) && Delimited(rest)
    ensures SkipNumber(NumeralText(n) + rest) == Some(rest)
  {
    var exp := ExpText(n) + rest;
    var frac := FracText(n) + exp;
    ThreeParts((if n.minus then "-" else "") + n.whole, FracText(n), ExpText(n), rest);
    assert NumeralText(n) + rest == (if n.minus then "-" else "") + n.whole + frac;
    ExpPart(n, rest);
    FracPart(n, exp);
    IntegerReads(n, frac);
  }

  lemma TreeStart(t: Tree)
    requires TreeOk(t)
    ensures Text(t) != "" && !IsSpace(Text(t)[0]) && Text(t)[0] !in {'}', ']', ',', ':'}
  {
    if t.TNumber? {
      if t.n.minus { assert NumeralText(t.n)[0] == '-'; } else { assert NumeralText(t.n)[0] == t.n.whole[0]; }
    }
  }

  /** White space and structural characters end a number. */
  lemma AfterIsDelimited(w: string, rest: string)
    requires AllSpace(w) && (rest == "" || rest[0] in {'}', ']', ','})
    ensures Delimited(w + rest)
  {
    if w != "" { assert (w + rest)[0] == w[0]; } else { assert w + rest == rest; }
  }

  lemma LeadingSpace(w: string, s: string)
    requires AllSpace(w)
    ensures ParseValue(w + s) == ParseValue(s) && ParseMember(w + s) == ParseMember(s)
    ensures ParseItems(w + s) == ParseItems(s) && ParseMembers(w + s) == ParseMembers(s)
  {
    SpaceSkipped(w, s);
  }

  lemma {:induction false} SkippedAway(s: string) returns (w: string)
    ensures AllSpace(w) && s == w + SkipSpace(s)
  {
    w := "";
    if s != "" && IsSpace(s[0]) {
      var v := SkippedAway(s[1..]);
      w := [s[0]] + v;
      assert s == [s[0]] + s[1..];
    }
  }

  lemma SkipLeading(s: string)
    ensures ParseItems(SkipSpace(s)) == ParseItems(s) && ParseMembers(SkipSpace(s)) == ParseMembers(s)
  {
    var w := SkippedAway(s);
    LeadingSpace(w, SkipSpace(s));
  }

  lemma NumberTreeReads(n: Numeral, rest: string)
    requires NumeralOk(n) && Delimited(rest)
    ensures ParseValue(NumeralText(n) + rest) == Some((RNumber(NumeralText(n)), rest))
  {
    NumeralReads(n, rest);
    TreeStart(TNumber(n));
    assert NumeralText(n)[0] == if n.minus then '-' else n.whole[0];
    NumberTokenReads(NumeralText(n), rest);
  }

  lemma StringTreeReads(ps: seq<Piece>, rest: string)
    requires PiecesOk(ps)
    ensures ParseValue("\"" + PiecesText(ps) + "\"" + rest) == Some((RString(Chars(ps)), rest))
  {
    var s := "\"" + PiecesText(ps) + "\"" + rest;
    assert s[0] == '"' && s[1..] == PiecesText(ps) + "\"" + rest;
    PiecesRead(ps, rest);
    assert SkipSpace(s) == s;
  }

  lemma EmptyArrayReads(space: string, rest: string)
    requires AllSpace(space)
    ensures ParseValue("[" + space + "]" + rest) == Some((RArray([]), rest))
  {
    var s := "[" + space + "]" + rest;
    assert s[1..] == space + ("]" + rest) && ("]" + rest)[1..] == rest;
    SkipsTo(space, "]" + rest);
    assert SkipSpace(s) == s && ParseArray(s) == Some((RArray([]), rest));
  }

  lemma EmptyObjectReads(space: string, rest: string)
    requires AllSpace(space)
    ensures ParseValue("{" + space + "}" + rest) == Some((RObject([]), rest))
  {
    var s := "{" + space + "}" + rest;
    assert s[1..] == space + ("}" + rest) && ("}" + rest)[1..] == rest;
    SkipsTo(space, "}" + rest);
    assert SkipSpace(s) == s && ParseObject(s) == Some((RObject([]), rest));
  }

  lemma SpacedArrayReads(t: string, vs: seq<Raw>, rest: string)
    requires SkipSpace(t) != "" && SkipSpace(t)[0] != ']' && ParseItems(t) == Some((vs, rest))
    ensures ParseValue("[" + t) == Some((RArray(vs), rest))
  {
    var s := "[" + t;
    assert s[0] == '[' && s[1..] == t && SkipSpace(s) == s;
    SkipLeading(t);
    assert ParseArray(s) == Some((RArray(vs), rest));
  }

  lemma SpacedObjectReads(t: string, ms: seq<(string, Raw)>, rest: string)
    requires SkipSpace(t) != "" && SkipSpace(t)[0] != '}' && ParseMembers(t) == Some((ms, rest))
    ensures ParseValue("{" + t) == Some((RObject(ms), rest))
  {
    var s := "{" + t;
    assert s[0] == '{' && s[1..] == t && SkipSpace(s) == s;
    SkipLeading(t);
    assert ParseObject(s) == Some((RObject(ms), rest));
  }

  lemma ElementStart(e: Element, rest: string)
    requires ElementOk(e)
    ensures SkipSpace(ElementText(e) + rest) == Text(e.tree) + (e.after + rest)
    ensures Text(e.tree) != "" && Text(e.tree)[0] !in {'}', ']', ',', ':'}
  {
    TreeStart(e.tree);
    var t := Text(e.tree) + (e.after + rest);
    assert ElementText(e) + rest == e.before + t && t[0] == Text(e.tree)[0];
    SkipsTo(e.before, t);
  }

  lemma ElementsStart(es: Elements, rest: string)
    requires ElementsOk(es)
    ensures var t := SkipSpace(ElementsText(es) + rest); t != "" && t[0] !in {'}', ']', ',', ':'}
  {
    match es
    case Last(e) => ElementStart(e, rest);
    case More(e, more) =>
      assert ElementsText(es) + rest == ElementText(e) + ("," + ElementsText(more) + rest);
      ElementStart(e, "," + ElementsText(more) + rest);
  }

  lemma MemberStart(m: Member, rest: string)
    requires MemberOk(m)
    ensures At(SkipSpace(MemberText(m) + rest), '"')
  {
    var t := MemberTail(m) + rest;
    assert t[0] == '"';
    Gather(m.before, MemberTail(m), rest);
    SkipsTo(m.before, t);
  }

  lemma MembersTreeStart(ms: Members, rest: string)
    requires MembersOk(ms)
    ensures At(SkipSpace(MembersText(ms) + rest), '"')
  {
    match ms
    case LastMember(m) => MemberStart(m, rest);
    case MoreMembers(m, more) =>
      MemberStart(m, "," + MembersText(more) + rest);
      assert MembersText(ms) + rest == MemberText(m) + ("," + MembersText(more) + rest);
  }

  /** Every yield reads as its meaning, whatever follows that cannot extend it. */
  lemma {:induction false} TreeReads(t: Tree, rest: string)
    requires TreeOk(t) && Delimited(rest)
    ensures ParseValue(Text(t) + rest) == Some((Meaning(t), rest))
    decreases t, 0
  {
    match t
    case TNull => LiteralReads("null", rest);
    case TTrue => LiteralReads("true", rest);
    case TFalse => LiteralReads("false", rest);
    case TNumber(n) => NumberTreeReads(n, rest);
    case TString(ps) => StringTreeReads(ps, rest);
    case TEmptyArray(space) => EmptyArrayReads(space, rest);
    case TEmptyObject(space) => EmptyObjectReads(space, rest);
    case TArray(es) => ArrayTreeReads(es, rest);
    case TObject(ms) => ObjectTreeReads(ms, rest);
  }

  lemma Enclosed(open: string, inner: string, close: string, rest: string)
    ensures open + inner + close + rest == open + (inner + close + rest)
  {
  }

  lemma {:induction false} ArrayTreeReads(es: Elements, rest: string)
    requires ElementsOk(es)
    ensures ParseValue("[" + ElementsText(es) + "]" + rest) == Some((RArray(Meanings(es)), rest))
    decreases es, 1
  {
    ElementsRead(es, rest);
    Gather(ElementsText(es), "]", rest);
    ElementsStart(es, "]" + rest);
    SpacedArrayReads(ElementsText(es) + "]" + rest, Meanings(es), rest);
    Enclosed("[", ElementsText(es), "]", rest);
  }

  lemma {:induction false} ObjectTreeReads(ms: Members, rest: string)
    requires MembersOk(ms)
    ensures ParseValue("{" + MembersText(ms) + "}" + rest) == Some((RObject(MemberMeanings(ms)), rest))
    decreases ms, 1
  {
    MembersRead(ms, rest);
    Gather(MembersText(ms), "}", rest);
    MembersTreeStart(ms, "}" + rest);
    SpacedObjectReads(MembersText(ms) + "}" + rest, MemberMeanings(ms), rest);
    Enclosed("{", MembersText(ms), "}", rest);
  }

  lemma {:induction false} ElementReads(e: Element, rest: string)
    requires ElementOk(e) && (rest == "" || rest[0] in {'}', ']', ','})
    ensures ParseValue(ElementText(e) + rest) == Some((ElementMeaning(e), e.after + rest))
    decreases e, 0
  {
    AfterIsDelimited(e.after, rest);
    TreeReads(e.tree, e.after + rest);
    assert ElementText(e) + rest == e.before + (Text(e.tree) + (e.after + rest));
    LeadingSpace(e.before, Text(e.tree) + (e.after + rest));
  }

  lemma Regroup(a: string, b: string, close: string, rest: string)
    ensures a + "," + b + close + rest == a + ("," + (b + close + rest))
  {
  }

  lemma ItemsLast(s: string, v: Raw, w: string, rest: string)
    requires AllSpace(w) && ParseValue(s) == Some((v, w + ("]" + rest)))
    ensures ParseItems(s) == Some(([v], rest))
  {
    SkipsTo(w, "]" + rest);
    assert ("]" + rest)[1..] == rest;
  }

  lemma ItemsMore(s: string, v: Raw, w: string, t: string, vs: seq<Raw>, rest: string)
    requires AllSpace(w) && ParseValue(s) == Some((v, w + ("," + t))) && ParseItems(t) == Some((vs, rest))
    ensures ParseItems(s) == Some(([v] + vs, rest))
  {
    SkipsTo(w, "," + t);
    assert ("," + t)[1..] == t;
  }

  lemma {:induction false} ElementsRead(es: Elements, rest: string)
    requires ElementsOk(es)
    ensures ParseItems(ElementsText(es) + "]" + rest) == Some((Meanings(es), rest))
    decreases es, 0
  {
    match es
    case Last(e) =>
      ElementReads(e, "]" + rest);
      assert ElementsText(es) + "]" + rest == ElementText(e) + ("]" + rest);
      ItemsLast(ElementsText(es) + "]" + rest, ElementMeaning(e), e.after, rest);
    case More(e, more) =>
      var t := ElementsText(more) + "]" + rest;
      ElementReads(e, "," + t);
      ElementsRead(more, rest);
      Regroup(ElementText(e), ElementsText(more), "]", rest);
      ItemsMore(ElementsText(es) + "]" + rest, ElementMeaning(e), e.after, t, Meanings(more), rest);
  }

  lemma MemberAssembled(m: Member, t: string)
    ensures m.before + ("\"" + (PiecesText(m.name) + "\"" + (m.gap + (":" + (ElementText(m.e) + t))))) == MemberText(m) + t
  {
    MemberPieces(m.before, PiecesText(m.name), m.gap, ElementText(m.e), t);
  }

  lemma MemberPieces(w: string, name: string, gap: string, value: string, t: string)
    ensures w + ("\"" + (name + "\"" + (gap + (":" + (value + t))))) == w + ("\"" + name + "\"" + gap + ":" + value) + t
  {
  }

  lemma MemberStep(name: string, text: string, gap: string, value: string, v: Raw, rest: string)
    requires AllSpace(gap) && ReadChars(text) == Some((name, gap + (":" + value)))
    requires ParseValue(value) == Some((v, rest))
    ensures ParseMember("\"" + text) == Some(((name, v), rest))
  {
    var s := "\"" + text;
    assert SkipSpace(s) == s && s[1..] == text;
    SkipsTo(gap, ":" + value);
    assert (":" + value)[1..] == value;
  }

  lemma {:induction false} MemberReadsAs(m: Member, rest: string)
    requires MemberOk(m) && (rest == "" || rest[0] in {'}', ']', ','})
    ensures ParseMember(MemberText(m) + rest) == Some((MemberMeaning(m), m.e.after + rest)) && AllSpace(m.e.after)
    decreases m, 0
  {
    assert ElementOk(m.e);
    var value := ElementText(m.e) + rest;
    var text := PiecesText(m.name) + "\"" + (m.gap + (":" + value));
    PiecesRead(m.name, m.gap + (":" + value));
    ElementReads(m.e, rest);
    MemberStep(Chars(m.name), text, m.gap, value, ElementMeaning(m.e), m.e.after + rest);
    LeadingSpace(m.before, "\"" + text);
    MemberAssembled(m, rest);
  }

  lemma MembersLast(s: string, m: (string, Raw), w: string, rest: string)
    requires AllSpace(w) && ParseMember(s) == Some((m, w + ("}" + rest)))
    ensures ParseMembers(s) == Some(([m], rest))
  {
    SkipsTo(w, "}" + rest);
    assert ("}" + rest)[1..] == rest;
  }

  lemma MembersMore(s: string, m: (string, Raw), w: string, t: string, ms: seq<(string, Raw)>, rest: string)
    requires AllSpace(w) && ParseMember(s) == Some((m, w + ("," + t))) && ParseMembers(t) == Some((ms, rest))
    ensures ParseMembers(s) == Some(([m] + ms, rest))
  {
    SkipsTo(w, "," + t);
    assert ("," + t)[1..] == t;
  }

  lemma {:induction false} MembersRead(ms: Members, rest: string)
    requires MembersOk(ms)
    ensures ParseMembers(MembersText(ms) + "}" + rest) == Some((MemberMeanings(ms), rest))
    decreases ms, 0
  {
    match ms
    case LastMember(m) =>
      MemberReadsAs(m, "}" + rest);
      assert MembersText(ms) + "}" + rest == MemberText(m) + ("}" + rest);
      MembersLast(MembersText(ms) + "}" + rest, MemberMeaning(m), m.e.after, rest);
    case MoreMembers(m, more) =>
      var t := MembersText(more) + "}" + rest;
      MemberReadsAs(m, "," + t);
      MembersRead(more, rest);
      Regroup(MemberText(m), MembersText(more), "}", rest);
      MembersMore(MembersText(ms) + "}" + rest, MemberMeaning(m), m.e.after, t, MemberMeanings(more), rest);
  }

  // ---- whatever is read is a yield ----

  lemma {:induction false} DigitsTaken(s: string) returns (d: string)
    ensures AllDigits(d) && s == d + SkipDigits(s)
  {
    d := "";
    if s != "" && IsDigit(s[0]) {
      var e := DigitsTaken(s[1..]);
      d := [s[0]] + e;
      assert s == [s[0]] + s[1..];
    }
  }

  /** At least one digit. */
  lemma DigitRun(s: string) returns (d: string)
    requires AtDigit(s)
    ensures Digits(d) && s == d + SkipDigits(s[1..]) && SkipDigits(s) == SkipDigits(s[1..]) && d[0] == s[0]
  {
    d := DigitsTaken(s);
    assert |SkipDigits(s[1..])| < |s|;
  }

  lemma IntegerTaken(s: string) returns (minus: bool, whole: string)
    requires SkipInteger(s).Some?
    ensures Digits(whole) && (whole[0] == '0' ==> |whole| == 1)
    ensures s == (if minus then "-" else "") + whole + SkipInteger(s).value
  {
    minus := At(s, '-');
    var t := if minus then s[1..] else s;
    assert s == (if minus then "-" else "") + t;
    if At(t, '0') {
      whole := "0";
      assert t == "0" + t[1..];
    } else {
      whole := DigitRun(t);
    }
  }

  lemma FractionTaken(s: string) returns (frac: Option<string>)
    requires SkipFraction(s).Some?
    ensures frac.Some? ==> Digits(frac.value)
    ensures s == (if frac.Some? then "." + frac.value else "") + SkipFraction(s).value
  {
    frac := None;
    if At(s, '.') {
      var d := DigitRun(s[1..]);
      frac := Some(d);
      assert s == "." + s[1..];
    }
  }

  lemma ExponentForm(x: Exponent, rest: string)
    ensures ExponentText(x) + rest
            == [x.e] + (if x.sign.Some? then [x.sign.value] + (x.digits + rest) else x.digits + rest)
  {
  }

  lemma ExponentTaken(s: string) returns (exp: Option<Exponent>)
    requires SkipExponent(s).Some?
    ensures exp.Some? ==> ExponentOk(exp.value)
    ensures s == (if exp.Some? then ExponentText(exp.value) else "") + SkipExponent(s).value
  {
    exp := None;
    if At(s, 'e') || At(s, 'E') {
      var t := s[1..];
      assert s == [s[0]] + t;
      if At(t, '+') || At(t, '-') {
        var d := DigitRun(t[1..]);
        assert t == [t[0]] + t[1..];
        exp := Some(Exponent(s[0], Some(t[0]), d));
      } else {
        var d := DigitRun(t);
        exp := Some(Exponent(s[0], None, d));
      }
      ExponentForm(exp.value, SkipExponent(s).value);
    }
  }

  lemma NumeralTaken(s: string) returns (n: Numeral)
    requires SkipNumber(s).Some?
    ensures NumeralOk(n) && s == NumeralText(n) + SkipNumber(s).value
  {
    var minus, whole := IntegerTaken(s);
    var t := SkipInteger(s).value;
    var frac := FractionTaken(t);
    var u := SkipFraction(t).value;
    var exp := ExponentTaken(u);
    n := Numeral(minus, whole, frac, exp);
    ThreeParts((if minus then "-" else "") + whole, FracText(n), ExpText(n), SkipExponent(u).value);
  }

  lemma ThreeParts(a: string, b: string, c: string, rest: string)
    ensures a + (b + (c + rest)) == a + b + c + rest
  {
  }

  lemma EscapeTaken(s: string) returns (p: Piece)
    requires At(s, '\\') && ReadEscape(s).Some?
    ensures PieceOk(p) && PieceChar(p) == ReadEscape(s).value.0 && PieceText(p) == s[..ReadEscape(s).value.1]
  {
    if s[1] != 'u' {
      p := Short(s[1]);
    } else if ReadEscape(s).value.1 == 6 {
      p := Code(s[2..6]);
      assert Hex4(s[2..6]) == Hex4(s[2..]);
    } else {
      p := Pair(s[2..6], s[8..12]);
      assert Hex4(s[2..6]) == Hex4(s[2..]) && Hex4(s[8..12]) == Hex4(s[8..]);
    }
  }

  lemma ConsPiece(p: Piece, ps: seq<Piece>)
    requires PieceOk(p) && PiecesOk(ps)
    ensures PiecesOk([p] + ps) && PiecesText([p] + ps) == PieceText(p) + PiecesText(ps) && Chars([p] + ps) == [PieceChar(p)] + Chars(ps)
  {
    assert ([p] + ps)[1..] == ps;
  }

  lemma {:induction false} CharsTaken(s: string) returns (ps: seq<Piece>)
    requires ReadChars(s).Some?
    ensures PiecesOk(ps) && Chars(ps) == ReadChars(s).value.0 && s == PiecesText(ps) + "\"" + ReadChars(s).value.1
    decreases |s|
  {
    if s[0] == '"' {
      ps := [];
      assert s == "" + "\"" + s[1..];
    } else {
      var p, n;
      if s[0] == '\\' {
        p := EscapeTaken(s);
        n := ReadEscape(s).value.1;
      } else {
        p, n := Plain(s[0]), 1;
      }
      assert s == PieceText(p) + s[n..];
      var more := CharsTaken(s[n..]);
      ps := [p] + more;
      ConsPiece(p, more);
    }
  }

  /** White space in front of the first element. */
  function Spaced(w: string, es: Elements): Elements {
    match es
    case Last(e) => Last(e.(before := w + e.before))
    case More(e, rest) => More(e.(before := w + e.before), rest)
  }

  lemma SpacedSame(w: string, es: Elements)
    requires AllSpace(w) && ElementsOk(es)
    ensures ElementsOk(Spaced(w, es)) && ElementsText(Spaced(w, es)) == w + ElementsText(es)
    ensures Meanings(Spaced(w, es)) == Meanings(es)
  {
    var e := es.e;
    assert ElementText(e.(before := w + e.before)) == w + ElementText(e);
    assert ElementOk(e.(before := w + e.before));
  }

  function SpacedMembers(w: string, ms: Members): Members {
    match ms
    case LastMember(m) => LastMember(m.(before := w + m.before))
    case MoreMembers(m, rest) => MoreMembers(m.(before := w + m.before), rest)
  }

  lemma SpacedMember(w: string, m: Member)
    requires AllSpace(w) && MemberOk(m)
    ensures var n := m.(before := w + m.before);
            MemberOk(n) && MemberText(n) == w + MemberText(m) && MemberMeaning(n) == MemberMeaning(m)
  {
    assert MemberTail(m.(before := w + m.before)) == MemberTail(m);
  }

  lemma SpacedMembersSame(w: string, ms: Members)
    requires AllSpace(w) && MembersOk(ms)
    ensures MembersOk(SpacedMembers(w, ms)) && MembersText(SpacedMembers(w, ms)) == w + MembersText(ms)
    ensures MemberMeanings(SpacedMembers(w, ms)) == MemberMeanings(ms)
  {
    SpacedMember(w, ms.m);
    if ms.MoreMembers? { Gather(w, MemberText(ms.m), "," + MembersText(ms.rest)); }
  }

  lemma Wrap(open: string, w: string, inner: string, close: string, rest: string)
    ensures open + (w + (inner + close + rest)) == open + (w + inner) + close + rest
  {
  }

  lemma Gather(a: string, b: string, c: string)
    ensures a + (b + c) == a + b + c
  {
  }

  /** The tree behind a value that was read, and the white space in front of it. */
  ghost predicate Derives(s: string, w: string, t: Tree, v: Raw, rest: string) {
    AllSpace(w) && TreeOk(t) && Meaning(t) == v && s == w + Text(t) + rest
  }

  lemma {:induction false} ValueTaken(s: string) returns (w: string, t: Tree)
    requires ParseValue(s).Some?
    ensures Derives(s, w, t, ParseValue(s).value.0, ParseValue(s).value.1)
    decreases |s|, 3
  {
    w := SkippedAway(s);
    var u := SkipSpace(s);
    assert SkipSpace(u) == u;
    t := TokenTaken(u);
    Gather(w, Text(t), ParseValue(s).value.1);
  }

  lemma LiteralTaken(s: string, word: string)
    requires word <= s
    ensures s == word + s[|word|..]
  {
  }

  lemma {:induction false} TokenTaken(s: string) returns (t: Tree)
    requires SkipSpace(s) == s && ParseValue(s).Some?
    ensures TreeOk(t) && Meaning(t) == ParseValue(s).value.0 && s == Text(t) + ParseValue(s).value.1
    decreases |s|, 2
  {
    if s[0] == '{' {
      t := ObjectTaken(s);
    } else if s[0] == '[' {
      t := ArrayTaken(s);
    } else if s[0] == '"' {
      var ps := CharsTaken(s[1..]);
      t := TString(ps);
      assert s == "\"" + s[1..];
    } else if s[0] == 't' {
      t := TTrue;
      LiteralTaken(s, "true");
    } else if s[0] == 'f' {
      t := TFalse;
      LiteralTaken(s, "false");
    } else if s[0] == 'n' {
      t := TNull;
      LiteralTaken(s, "null");
    } else {
      var n := NumeralTaken(s);
      t := TNumber(n);
      assert s[..|s| - |SkipNumber(s).value|] == NumeralText(n);
    }
  }

  lemma {:induction false} ArrayTaken(s: string) returns (t: Tree)
    requires At(s, '[') && ParseArray(s).Some?
    ensures TreeOk(t) && Meaning(t) == ParseArray(s).value.0 && s == Text(t) + ParseArray(s).value.1
    decreases |s|, 1
  {
    var w := SkippedAway(s[1..]);
    var u := SkipSpace(s[1..]);
    assert s == "[" + (w + u);
    if At(u, ']') {
      t := TEmptyArray(w);
      assert u == "]" + u[1..];
    } else {
      var es := ItemsTaken(u);
      SpacedSame(w, es);
      t := TArray(Spaced(w, es));
      Wrap("[", w, ElementsText(es), "]", ParseArray(s).value.1);
    }
  }

  lemma {:induction false} ItemsTaken(s: string) returns (es: Elements)
    requires ParseItems(s).Some?
    ensures ElementsOk(es) && Meanings(es) == ParseItems(s).value.0 && s == ElementsText(es) + "]" + ParseItems(s).value.1
    decreases |s|, 4
  {
    var w, tree := ValueTaken(s);
    var (v, rest) := ParseValue(s).value;
    var after := SkippedAway(rest);
    var t := SkipSpace(rest);
    var e := Element(w, tree, after);
    assert ElementOk(e) && s == ElementText(e) + t;
    assert t == [t[0]] + t[1..];
    if At(t, ']') {
      es := Last(e);
    } else {
      var more := ItemsTaken(t[1..]);
      es := More(e, more);
      Regroup(ElementText(e), ElementsText(more), "]", ParseItems(s).value.1);
    }
  }

  lemma {:induction false} ObjectTaken(s: string) returns (t: Tree)
    requires At(s, '{') && ParseObject(s).Some?
    ensures TreeOk(t) && Meaning(t) == ParseObject(s).value.0 && s == Text(t) + ParseObject(s).value.1
    decreases |s|, 1
  {
    var w := SkippedAway(s[1..]);
    var u := SkipSpace(s[1..]);
    assert s == "{" + (w + u);
    if At(u, '}') {
      t := TEmptyObject(w);
      assert u == "}" + u[1..];
    } else {
      var ms := MembersTaken(u);
      SpacedMembersSame(w, ms);
      t := TObject(SpacedMembers(w, ms));
      Wrap("{", w, MembersText(ms), "}", ParseObject(s).value.1);
    }
  }

  lemma {:induction false} MembersTaken(s: string) returns (ms: Members)
    requires ParseMembers(s).Some?
    ensures MembersOk(ms) && MemberMeanings(ms) == ParseMembers(s).value.0
    ensures s == MembersText(ms) + "}" + ParseMembers(s).value.1
    decreases |s|, 5
  {
    var (entry, rest) := ParseMember(s).value;
    var after := SkippedAway(rest);
    var t := SkipSpace(rest);
    var m := MemberTaken(s, after, t);
    assert t == [t[0]] + t[1..];
    if At(t, '}') {
      ms := LastMember(m);
    } else {
      var more := MembersTaken(t[1..]);
      ms := MoreMembers(m, more);
      Regroup(MemberText(m), MembersText(more), "}", ParseMembers(s).value.1);
    }
  }

  lemma {:induction false} MemberTaken(s: string, after: string, t: string) returns (m: Member)
    requires ParseMember(s).Some? && AllSpace(after) && ParseMember(s).value.1 == after + t
    ensures MemberOk(m) && MemberMeaning(m) == ParseMember(s).value.0 && s == MemberText(m) + t
    decreases |s|, 4
  {
    var w := SkippedAway(s);
    var quoted := SkipSpace(s);
    var ps := CharsTaken(quoted[1..]);
    var rest := ReadChars(quoted[1..]).value.1;
    var gap := SkippedAway(rest);
    var colon := SkipSpace(rest);
    var before, tree := ValueTaken(colon[1..]);
    m := Member(w, ps, gap, Element(before, tree, after));
    assert ElementOk(m.e);
    Gather(before + Text(tree), after, t);
    assert colon[1..] == ElementText(m.e) + t;
    assert quoted == "\"" + quoted[1..] && colon == ":" + colon[1..];
    MemberAssembled(m, t);
  }

  // ---- the grammar and its readers agree ----

  lemma DocumentTaken(text: string) returns (e: Element)
    requires ParseDocument(text).Some?
    ensures ElementOk(e) && ElementText(e) == text && ElementMeaning(e) == ParseDocument(text).value
  {
    var w, t := ValueTaken(text);
    var rest := ParseValue(text).value.1;
    var after := SkippedAway(rest);
    assert after == rest;
    e := Element(w, t, after);
  }

  lemma ElementIsDocument(e: Element)
    requires ElementOk(e)
    ensures ParseDocument(ElementText(e)) == Some(ElementMeaning(e))
  {
    ElementReads(e, "");
    assert ElementText(e) + "" == ElementText(e) && e.after + "" == e.after;
    SpaceSkipped(e.after, "");
  }

  /** Exactly the texts of the grammar are documents, and each has one meaning. */
  lemma {:induction false} DocumentIff(text: string, v: Raw)
    ensures ParseDocument(text) == Some(v) <==> exists e :: ElementOk(e) && ElementText(e) == text && ElementMeaning(e) == v
  {
    if ParseDocument(text) == Some(v) {
      var e := DocumentTaken(text);
    }
    if e :| ElementOk(e) && ElementText(e) == text && ElementMeaning(e) == v {
      ElementIsDocument(e);
    }
  }

  /** A text is a document that repeats no member name exactly when some tree with distinct names yields it. */
  lemma {:induction false} UniqueDocumentIff(text: string)
    ensures ParseDocument(text).Some? && UniqueKeys(ParseDocument(text).value)
            <==> exists e :: ElementOk(e) && ElementText(e) == text && UniqueKeys(ElementMeaning(e))
  {
    if ParseDocument(text).Some? {
      var e := DocumentTaken(text);
    }
    if e :| ElementOk(e) && ElementText(e) == text && UniqueKeys(ElementMeaning(e)) {
      ElementIsDocument(e);
    }
  }

  /** No text has two meanings. */
  lemma Unambiguous(e: Element, f: Element)
    requires ElementOk(e) && ElementOk(f) && ElementText(e) == ElementText(f)
    ensures ElementMeaning(e) == ElementMeaning(f)
  {
    ElementIsDocument(e);
    ElementIsDocument(f);
  }
}
