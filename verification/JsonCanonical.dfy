/**
 * Canonical text by its form: the yield of the derivation tree without white space, with the shortest
 * escapes, plain integers and ascending member names.  Each value has exactly one such text.
 */
module JsonCanonical {
  import opened Prelude
  import opened Utf16
  import opened JsonGrammar
  import opened Json
  import T = JsonTrees

  // ---- the form ----

  predicate LowerHex(c: char) { '0' <= c <= '9' || 'a' <= c <= 'f' }

  /** An unescaped character, one of seven short escapes, or lower-case digits for another control. */
  predicate Least(p: T.Piece) {
    T.PieceOk(p) &&
    match p
    case Plain(_) => true
    case Short(letter) => letter != '/'
    case Code(hex) =>
      && hex[0] == '0' && hex[1] == '0' && LowerHex(hex[2]) && LowerHex(hex[3])
      && Hex4(hex) < 0x20 && Hex4(hex) !in {8, 9, 10, 12, 13}
    case Pair(_, _) => false
  }

  predicate AllLeast(ps: seq<T.Piece>) { forall i | 0 <= i < |ps| :: Least(ps[i]) }

  /** An integer without leading zeros, and no minus zero. */
  predicate PlainInteger(n: T.Numeral) {
    T.NumeralOk(n) && n.frac.None? && n.exp.None? && !(n.minus && n.whole == "0")
  }

  /** No white space anywhere, and the names of an object ascend in the order of UTF-16 code units. */
  ghost predicate Neat(t: T.Tree) {
    match t
    case TNumber(n) => PlainInteger(n)
    case TString(ps) => AllLeast(ps)
    case TEmptyArray(space) => space == ""
    case TArray(es) => NeatElements(es)
    case TEmptyObject(space) => space == ""
    case TObject(ms) => NeatMembers(ms) && StrictlySorted(Names(ms))
    case _ => true
  }

  ghost predicate NeatElement(e: T.Element) {
    e.before == "" && Neat(e.tree) && e.after == ""
  }

  ghost predicate NeatElements(es: T.Elements) {
    match es
    case Last(e) => NeatElement(e)
    case More(e, rest) => NeatElement(e) && NeatElements(rest)
  }

  ghost predicate NeatMember(m: T.Member) {
    m.before == "" && AllLeast(m.name) && m.gap == "" && NeatElement(m.e)
  }

  ghost predicate NeatMembers(ms: T.Members) {
    match ms
    case LastMember(m) => NeatMember(m)
    case MoreMembers(m, rest) => NeatMember(m) && NeatMembers(rest)
  }

  function NameOf(m: T.Member): string {
    if T.PiecesOk(m.name) then T.Chars(m.name) else ""
  }

  function Fields(ms: T.Members): (fs: seq<T.Member>)
    ensures fs != []
  {
    match ms
    case LastMember(m) => [m]
    case MoreMembers(m, rest) => [m] + Fields(rest)
  }

  function Names(ms: T.Members): (names: seq<string>)
    ensures |names| == |Fields(ms)| && forall i :: 0 <= i < |names| ==> names[i] == NameOf(Fields(ms)[i])
  {
    seq(|Fields(ms)|, i requires 0 <= i < |Fields(ms)| => NameOf(Fields(ms)[i]))
  }

  lemma {:induction false} NeatIsOk(t: T.Tree)
    requires Neat(t)
    ensures T.TreeOk(t)
  {
    match t
    case TArray(es) => NeatElementsOk(es);
    case TObject(ms) => NeatMembersOk(ms);
    case _ =>
  }

  lemma {:induction false} NeatElementsOk(es: T.Elements)
    requires NeatElements(es)
    ensures T.ElementsOk(es)
  {
    match es
    case Last(e) => NeatIsOk(e.tree);
    case More(e, rest) => NeatIsOk(e.tree); NeatElementsOk(rest);
  }

  lemma {:induction false} NeatMembersOk(ms: T.Members)
    requires NeatMembers(ms)
    ensures T.MembersOk(ms)
  {
    match ms
    case LastMember(m) => NeatMemberOk(m);
    case MoreMembers(m, rest) => NeatMemberOk(m); NeatMembersOk(rest);
  }

  lemma {:induction false} NeatMemberOk(m: T.Member)
    requires NeatMember(m)
    ensures T.MemberOk(m)
  {
    NeatIsOk(m.e.tree);
  }

  // ---- what a neat tree denotes ----

  function Trees(es: T.Elements): (ts: seq<T.Tree>) {
    match es
    case Last(e) => [e.tree]
    case More(e, rest) => [e.tree] + Trees(rest)
  }

  function Signed(n: T.Numeral): int
    requires T.NumeralOk(n)
  {
    if n.minus then 0 - NatValue(n.whole) else NatValue(n.whole)
  }

  /** Items by position, members by name. */
  ghost predicate Denotes(t: T.Tree, v: Value)
    decreases v
  {
    match v
    case Null => t.TNull?
    case Bool(b) => if b then t.TTrue? else t.TFalse?
    case Number(n) => t.TNumber? && PlainInteger(t.n) && Signed(t.n) == n
    case Str(s) => t.TString? && AllLeast(t.pieces) && T.Chars(t.pieces) == s
    case Array(items) =>
      if items == [] then t.TEmptyArray?
      else t.TArray? && |Trees(t.elements)| == |items|
           && forall i :: 0 <= i < |items| ==> Denotes(Trees(t.elements)[i], items[i])
    case Object(members) =>
      if members == map[] then t.TEmptyObject?
      else t.TObject? && (forall k :: k in members <==> k in Names(t.members))
           && forall i :: 0 <= i < |Fields(t.members)| ==>
                var f := Fields(t.members)[i]; NameOf(f) in members && Denotes(f.e.tree, members[NameOf(f)])
  }

  // ---- every value has a neat tree ----

  function PieceOf(c: char): T.Piece {
    if c == '"' || c == '\\' then T.Short(c)
    else if c as int == 8 then T.Short('b')
    else if c as int == 12 then T.Short('f')
    else if c == '\n' then T.Short('n')
    else if c == '\r' then T.Short('r')
    else if c == '\t' then T.Short('t')
    else if c < ' ' then T.Code(['0', '0', HexDigit(c as int / 16), HexDigit(c as int % 16)])
    else T.Plain(c)
  }

  lemma PieceOfRight(c: char)
    ensures Least(PieceOf(c)) && T.PieceChar(PieceOf(c)) == c && T.PieceText(PieceOf(c)) == EscapeChar(c)
  {
    var p := PieceOf(c);
    if p.Code? {
      assert T.FourHex(p.hex) && Hex4(p.hex) == c as int;
      assert "\\u" + p.hex == "\\u00" + [HexDigit(c as int / 16), HexDigit(c as int % 16)];
    }
  }

  function PiecesOf(s: string): (ps: seq<T.Piece>) {
    if s == "" then [] else [PieceOf(s[0])] + PiecesOf(s[1..])
  }

  lemma {:induction false} PiecesOfRight(s: string)
    ensures AllLeast(PiecesOf(s)) && T.Chars(PiecesOf(s)) == s && T.PiecesText(PiecesOf(s)) == Escape(s)
  {
    if s != "" {
      PieceOfRight(s[0]);
      PiecesOfRight(s[1..]);
      assert PiecesOf(s)[1..] == PiecesOf(s[1..]) && s == [s[0]] + s[1..];
    }
  }

  function NumeralOf(n: int): T.Numeral {
    T.Numeral(n < 0, NatText(if n < 0 then 0 - n else n), None, None)
  }

  lemma NumeralOfRight(n: int)
    ensures PlainInteger(NumeralOf(n)) && Signed(NumeralOf(n)) == n && T.NumeralText(NumeralOf(n)) == IntText(n)
  {
    if n < 0 { assert NatValue("0") == 0; }
  }

  function Bare(t: T.Tree): T.Element {
    T.Element("", t, "")
  }

  ghost function TreeOf(v: Value): T.Tree
    decreases v, 1, 0
  {
    match v
    case Null => T.TNull
    case Bool(b) => if b then T.TTrue else T.TFalse
    case Number(n) => T.TNumber(NumeralOf(n))
    case Str(s) => T.TString(PiecesOf(s))
    case Array(items) => if items == [] then T.TEmptyArray("") else T.TArray(ElementsOf(v, 0))
    case Object(members) =>
      var keys := SortedKeys(members.Keys);
      if keys == [] then T.TEmptyObject("") else T.TObject(MembersOf(v, keys))
  }

  ghost function ElementsOf(v: Value, i: nat): T.Elements
    requires v.Array? && i < |v.items|
    decreases v, 0, |v.items| - i
  {
    var e := Bare(TreeOf(v.items[i]));
    if i + 1 == |v.items| then T.Last(e) else T.More(e, ElementsOf(v, i + 1))
  }

  ghost function MembersOf(v: Value, keys: seq<string>): T.Members
    requires v.Object? && keys != [] && forall k :: k in keys ==> k in v.members
    decreases v, 0, |keys|
  {
    var m := T.Member("", PiecesOf(keys[0]), "", Bare(TreeOf(v.members[keys[0]])));
    if |keys| == 1 then T.LastMember(m) else T.MoreMembers(m, MembersOf(v, keys[1..]))
  }

  ghost predicate Right(v: Value) {
    Neat(TreeOf(v)) && Denotes(TreeOf(v), v) && T.Text(TreeOf(v)) == Canonical(v)
  }

  lemma {:induction false} TreeOfRight(v: Value)
    ensures Right(v)
    decreases v, 1, 0
  {
    match v
    case Number(n) => NumeralOfRight(n);
    case Str(s) => PiecesOfRight(s);
    case Array(items) => if items != [] { ArrayRight(v); }
    case Object(members) => ObjectRight(v);
    case _ =>
  }

  lemma BareRight(v: Value)
    requires Right(v)
    ensures NeatElement(Bare(TreeOf(v))) && T.ElementText(Bare(TreeOf(v))) == Canonical(v)
  {
    BareText(TreeOf(v));
  }

  lemma BareText(t: T.Tree)
    ensures T.ElementText(Bare(t)) == T.Text(t) && (Neat(t) ==> NeatElement(Bare(t)))
  {
  }

  ghost predicate AllDenote(ts: seq<T.Tree>, vs: seq<Value>) {
    |ts| == |vs| && forall j :: 0 <= j < |ts| ==> Denotes(ts[j], vs[j])
  }

  lemma OneMoreDenotes(t: T.Tree, ts: seq<T.Tree>, v: Value, vs: seq<Value>)
    requires Denotes(t, v) && AllDenote(ts, vs)
    ensures AllDenote([t] + ts, [v] + vs)
  {
  }

  ghost predicate ElementsRightAt(v: Value, i: nat)
    requires v.Array? && i < |v.items|
  {
    var es := ElementsOf(v, i);
    NeatElements(es) && AllDenote(Trees(es), v.items[i..]) && T.ElementsText(es) == CanonicalItems(v, i)
  }

  lemma LastElementRight(v: Value, i: nat)
    requires v.Array? && i + 1 == |v.items| && Right(v.items[i])
    ensures ElementsRightAt(v, i)
  {
    BareRight(v.items[i]);
    assert v.items[i..] == [v.items[i]];
    assert Trees(ElementsOf(v, i)) == [TreeOf(v.items[i])];
  }

  lemma MoreElementsRight(v: Value, i: nat)
    requires v.Array? && i + 1 < |v.items| && Right(v.items[i]) && ElementsRightAt(v, i + 1)
    ensures ElementsRightAt(v, i)
  {
    var x := v.items[i];
    BareRight(x);
    MoreElementsText(v, i);
    MoreElements(Bare(TreeOf(x)), ElementsOf(v, i + 1), x, v.items[i + 1..]);
    assert v.items[i..] == [x] + v.items[i + 1..];
  }

  lemma MoreElements(e: T.Element, rest: T.Elements, x: Value, xs: seq<Value>)
    requires NeatElement(e) && NeatElements(rest) && Denotes(e.tree, x) && AllDenote(Trees(rest), xs)
    ensures NeatElements(T.More(e, rest)) && AllDenote(Trees(T.More(e, rest)), [x] + xs)
    ensures T.ElementsText(T.More(e, rest)) == T.ElementText(e) + "," + T.ElementsText(rest)
  {
    OneMoreDenotes(e.tree, Trees(rest), x, xs);
  }

  lemma MoreElementsText(v: Value, i: nat)
    requires v.Array? && i + 1 < |v.items|
    ensures ElementsOf(v, i) == T.More(Bare(TreeOf(v.items[i])), ElementsOf(v, i + 1))
    ensures CanonicalItems(v, i) == Canonical(v.items[i]) + "," + CanonicalItems(v, i + 1)
  {
  }

  lemma {:induction false} ElementsRight(v: Value, i: nat)
    requires v.Array? && i < |v.items|
    ensures ElementsRightAt(v, i)
    decreases v, 0, |v.items| - i
  {
    TreeOfRight(v.items[i]);
    if i + 1 < |v.items| {
      ElementsRight(v, i + 1);
      MoreElementsRight(v, i);
    } else {
      LastElementRight(v, i);
    }
  }

  lemma {:induction false} ArrayRight(v: Value)
    requires v.Array? && v.items != []
    ensures Right(v)
    decreases v, 0, |v.items| + 1
  {
    ElementsRight(v, 0);
    assert v.items[0..] == v.items;
  }

  ghost predicate FieldsDenote(fs: seq<T.Member>, members: map<string, Value>) {
    forall i :: 0 <= i < |fs| ==> NameOf(fs[i]) in members && Denotes(fs[i].e.tree, members[NameOf(fs[i])])
  }

  ghost predicate MembersRightAt(v: Value, keys: seq<string>)
    requires v.Object? && keys != [] && forall k :: k in keys ==> k in v.members
  {
    var ms := MembersOf(v, keys);
    && NeatMembers(ms) && Names(ms) == keys && FieldsDenote(Fields(ms), v.members)
    && T.MembersText(ms) == CanonicalMembers(v, keys)
  }

  lemma ObjectDenotes(ms: T.Members, v: Value)
    requires v.Object? && FieldsDenote(Fields(ms), v.members) && forall k :: k in v.members <==> k in Names(ms)
    ensures Denotes(T.TObject(ms), v)
  {
    assert Names(ms)[0] in v.members;
  }

  lemma {:induction false} ObjectRight(v: Value)
    requires v.Object?
    ensures Right(v)
    decreases v, 0, |v.members| + 1
  {
    var keys := SortedKeys(v.members.Keys);
    if keys == [] {
      assert v.members == map[];
    } else {
      MembersRight(v, keys);
      ObjectDenotes(MembersOf(v, keys), v);
      ObjectForms(v, keys);
    }
  }

  lemma ObjectForms(v: Value, keys: seq<string>)
    requires v.Object? && keys == SortedKeys(v.members.Keys) && keys != []
    ensures TreeOf(v) == T.TObject(MembersOf(v, keys)) && Canonical(v) == "{" + CanonicalMembers(v, keys) + "}"
  {
  }

  lemma MemberRight(v: Value, k: string, m: T.Member)
    requires Right(v) && m == T.Member("", PiecesOf(k), "", Bare(TreeOf(v)))
    ensures NeatMember(m) && NameOf(m) == k && T.MemberText(m) == Quote(k) + ":" + Canonical(v)
  {
    PiecesOfRight(k);
    BareRight(v);
  }

  lemma LastMemberRight(v: Value, keys: seq<string>)
    requires v.Object? && |keys| == 1 && keys[0] in v.members && Right(v.members[keys[0]])
    ensures MembersRightAt(v, keys)
  {
    var x := v.members[keys[0]];
    MemberRight(x, keys[0], MemberFor(v, keys[0]));
    assert MembersOf(v, keys) == T.LastMember(MemberFor(v, keys[0]));
    assert Fields(MembersOf(v, keys)) == [MemberFor(v, keys[0])];
  }

  ghost function MemberFor(v: Value, k: string): T.Member
    requires v.Object? && k in v.members
  {
    T.Member("", PiecesOf(k), "", Bare(TreeOf(v.members[k])))
  }

  lemma MoreMembersText(v: Value, keys: seq<string>)
    requires v.Object? && |keys| > 1 && forall k :: k in keys ==> k in v.members
    ensures MembersOf(v, keys) == T.MoreMembers(MemberFor(v, keys[0]), MembersOf(v, keys[1..]))
    ensures CanonicalMembers(v, keys)
            == Quote(keys[0]) + ":" + Canonical(v.members[keys[0]]) + "," + CanonicalMembers(v, keys[1..])
  {
    JoinMembers(v, keys);
    Joined(Quote(keys[0]) + ":" + Canonical(v.members[keys[0]]), CanonicalMembers(v, keys[1..]));
  }

  lemma Joined(first: string, rest: string)
    ensures first + ("," + rest) == first + "," + rest
  {
  }

  lemma OneMoreField(m: T.Member, rest: T.Members, members: map<string, Value>)
    requires FieldsDenote(Fields(rest), members) && NameOf(m) in members && Denotes(m.e.tree, members[NameOf(m)])
    ensures FieldsDenote(Fields(T.MoreMembers(m, rest)), members)
    ensures Names(T.MoreMembers(m, rest)) == [NameOf(m)] + Names(rest)
  {
  }

  lemma MoreMembersRight(v: Value, keys: seq<string>)
    requires v.Object? && |keys| > 1 && forall k :: k in keys ==> k in v.members
    requires Right(v.members[keys[0]]) && MembersRightAt(v, keys[1..])
    ensures MembersRightAt(v, keys)
  {
    var m, rest := MemberFor(v, keys[0]), MembersOf(v, keys[1..]);
    MemberRight(v.members[keys[0]], keys[0], m);
    OneMoreField(m, rest, v.members);
    MoreMembersText(v, keys);
    assert keys == [keys[0]] + keys[1..];
  }

  lemma {:induction false} MembersRight(v: Value, keys: seq<string>)
    requires v.Object? && keys != [] && forall k :: k in keys ==> k in v.members
    ensures MembersRightAt(v, keys)
    decreases v, 0, |keys|
  {
    TreeOfRight(v.members[keys[0]]);
    if |keys| > 1 {
      MembersRight(v, keys[1..]);
      MoreMembersRight(v, keys);
    } else {
      LastMemberRight(v, keys);
    }
  }

  // ---- and no other ----

  lemma {:induction false} NatTextOf(s: string)
    requires s != "" && AllDigits(s) && (s[0] == '0' ==> s == "0")
    ensures NatText(NatValue(s)) == s
    ensures s[0] != '0' ==> NatValue(s) > 0
  {
    var init, d := s[..|s| - 1], s[|s| - 1] as int - '0' as int;
    if init == "" {
      assert s == [s[0]] && NatValue(init) == 0;
    } else {
      NatTextOf(init);
      assert NatValue(s) / 10 == NatValue(init) && NatValue(s) % 10 == d;
      assert s == init + [s[|s| - 1]];
    }
  }

  lemma PlainIntegerText(n: T.Numeral)
    requires PlainInteger(n)
    ensures T.NumeralText(n) == IntText(Signed(n))
  {
    NatTextOf(n.whole);
  }

  lemma LeastIsOwn(p: T.Piece)
    requires Least(p)
    ensures T.PieceText(p) == EscapeChar(T.PieceChar(p))
  {
    if p.Code? {
      var n := Hex4(p.hex);
      assert n / 16 == HexValue(p.hex[2]) && n % 16 == HexValue(p.hex[3]);
      assert HexDigit(n / 16) == p.hex[2] && HexDigit(n % 16) == p.hex[3];
      assert p.hex == ['0', '0', p.hex[2], p.hex[3]];
    }
  }

  lemma {:induction false} PiecesAreEscape(ps: seq<T.Piece>)
    requires AllLeast(ps)
    ensures T.PiecesText(ps) == Escape(T.Chars(ps))
  {
    if ps != [] {
      LeastIsOwn(ps[0]);
      PiecesAreEscape(ps[1..]);
      assert T.Chars(ps)[0] == T.PieceChar(ps[0]) && T.Chars(ps)[1..] == T.Chars(ps[1..]);
    }
  }

  /** Every neat tree of a value yields its canonical text. */
  lemma {:induction false} NeatIsCanonical(t: T.Tree, v: Value)
    requires Neat(t) && Denotes(t, v)
    ensures T.Text(t) == Canonical(v)
    decreases t
  {
    match t
    case TNumber(n) => PlainIntegerText(n);
    case TString(ps) => PiecesAreEscape(ps);
    case TArray(es) =>
      assert v.items[0..] == v.items;
      ElementsCanonical(es, v, 0);
    case TObject(ms) => ObjectCanonical(ms, v);
    case _ =>
  }

  lemma LastText(e: T.Element, v: Value, i: nat)
    requires v.Array? && i + 1 == |v.items| && e.before == e.after == "" && T.Text(e.tree) == Canonical(v.items[i])
    ensures T.ElementsText(T.Last(e)) == CanonicalItems(v, i)
  {
    assert T.ElementText(e) == T.Text(e.tree);
  }

  lemma MoreText(e: T.Element, rest: T.Elements, v: Value, i: nat)
    requires v.Array? && i + 1 < |v.items| && e.before == e.after == "" && T.Text(e.tree) == Canonical(v.items[i])
    requires T.ElementsText(rest) == CanonicalItems(v, i + 1)
    ensures T.ElementsText(T.More(e, rest)) == CanonicalItems(v, i)
  {
    assert T.ElementText(e) == T.Text(e.tree);
    MoreElementsText(v, i);
  }

  lemma {:induction false} ElementsCanonical(es: T.Elements, v: Value, i: nat)
    requires NeatElements(es) && v.Array? && i <= |v.items| && AllDenote(Trees(es), v.items[i..])
    ensures i < |v.items| && T.ElementsText(es) == CanonicalItems(v, i)
    decreases es
  {
    FirstDenotes(es, v.items[i..]);
    match es
    case Last(e) =>
      NeatIsCanonical(e.tree, v.items[i]);
      LastText(e, v, i);
    case More(e, rest) =>
      NeatIsCanonical(e.tree, v.items[i]);
      assert v.items[i..][1..] == v.items[i + 1..];
      ElementsCanonical(rest, v, i + 1);
      MoreText(e, rest, v, i);
  }

  lemma FirstDenotes(es: T.Elements, vs: seq<Value>)
    requires AllDenote(Trees(es), vs)
    ensures vs != [] && Denotes(es.e.tree, vs[0])
    ensures es.Last? ==> |vs| == 1
    ensures es.More? ==> AllDenote(Trees(es.rest), vs[1..])
  {
    assert Trees(es)[0] == es.e.tree;
    if es.More? {
      assert Trees(es) == [es.e.tree] + Trees(es.rest);
      RestDenotes(es.e.tree, Trees(es.rest), vs);
    }
  }

  lemma RestDenotes(t: T.Tree, ts: seq<T.Tree>, vs: seq<Value>)
    requires AllDenote([t] + ts, vs)
    ensures vs != [] && AllDenote(ts, vs[1..])
  {
    var all, rest := [t] + ts, vs[1..];
    forall j | 0 <= j < |ts| ensures Denotes(ts[j], rest[j]) {
      assert all[j + 1] == ts[j] && vs[j + 1] == rest[j];
    }
  }

  lemma {:induction false} ObjectCanonical(ms: T.Members, v: Value)
    requires Neat(T.TObject(ms)) && Denotes(T.TObject(ms), v)
    ensures T.Text(T.TObject(ms)) == Canonical(v)
    decreases ms, 1
  {
    assert Names(ms)[0] == NameOf(Fields(ms)[0]);
    assert FieldsDenote(Fields(ms), v.members);
    MembersCanonical(ms, v);
    SortedListingUnique(Names(ms), SortedKeys(v.members.Keys));
  }

  lemma {:induction false} MembersCanonical(ms: T.Members, v: Value)
    requires NeatMembers(ms) && v.Object? && FieldsDenote(Fields(ms), v.members)
    ensures forall k :: k in Names(ms) ==> k in v.members
    ensures T.MembersText(ms) == CanonicalMembers(v, Names(ms))
    decreases ms, 0
  {
    FirstField(ms, v.members);
    MemberCanonical(ms.m, v);
    match ms
    case LastMember(m) =>
    case MoreMembers(m, rest) =>
      MembersCanonical(rest, v);
      MoreFieldsText(m, rest, v);
  }

  lemma MoreFieldsText(m: T.Member, rest: T.Members, v: Value)
    requires v.Object? && NameOf(m) in v.members && forall k :: k in Names(rest) ==> k in v.members
    requires T.MemberText(m) == Quote(NameOf(m)) + ":" + Canonical(v.members[NameOf(m)])
    requires T.MembersText(rest) == CanonicalMembers(v, Names(rest))
    ensures T.MembersText(T.MoreMembers(m, rest)) == CanonicalMembers(v, [NameOf(m)] + Names(rest))
  {
    var keys := [NameOf(m)] + Names(rest);
    assert keys[1..] == Names(rest);
    JoinMembers(v, keys);
  }

  lemma JoinMembers(v: Value, keys: seq<string>)
    requires v.Object? && |keys| > 1 && forall k :: k in keys ==> k in v.members
    ensures CanonicalMembers(v, keys)
            == Quote(keys[0]) + ":" + Canonical(v.members[keys[0]]) + ("," + CanonicalMembers(v, keys[1..]))
  {
  }

  lemma FirstField(ms: T.Members, members: map<string, Value>)
    requires FieldsDenote(Fields(ms), members)
    ensures NameOf(ms.m) in members && Denotes(ms.m.e.tree, members[NameOf(ms.m)])
    ensures ms.LastMember? ==> Names(ms) == [NameOf(ms.m)]
    ensures ms.MoreMembers? ==> Names(ms) == [NameOf(ms.m)] + Names(ms.rest) && FieldsDenote(Fields(ms.rest), members)
  {
    if ms.MoreMembers? {
      assert Fields(ms) == [ms.m] + Fields(ms.rest);
      RestFields(ms.m, Fields(ms.rest), members);
      NamesOfMore(ms.m, ms.rest);
    } else {
      assert Fields(ms) == [ms.m] + [];
      RestFields(ms.m, [], members);
    }
  }

  lemma NamesOfMore(m: T.Member, rest: T.Members)
    ensures Names(T.MoreMembers(m, rest)) == [NameOf(m)] + Names(rest)
  {
    assert Fields(T.MoreMembers(m, rest)) == [m] + Fields(rest);
  }

  lemma RestFields(m: T.Member, fs: seq<T.Member>, members: map<string, Value>)
    requires FieldsDenote([m] + fs, members)
    ensures NameOf(m) in members && Denotes(m.e.tree, members[NameOf(m)]) && FieldsDenote(fs, members)
  {
    var all := [m] + fs;
    assert all[0] == m;
    forall i | 0 <= i < |fs| ensures NameOf(fs[i]) in members && Denotes(fs[i].e.tree, members[NameOf(fs[i])]) {
      assert all[i + 1] == fs[i];
    }
  }

  lemma {:induction false} MemberCanonical(m: T.Member, v: Value)
    requires NeatMember(m) && v.Object? && NameOf(m) in v.members && Denotes(m.e.tree, v.members[NameOf(m)])
    ensures T.MemberText(m) == Quote(NameOf(m)) + ":" + Canonical(v.members[NameOf(m)])
    decreases m
  {
    PiecesAreEscape(m.name);
    NeatIsCanonical(m.e.tree, v.members[NameOf(m)]);
    assert T.ElementText(m.e) == T.Text(m.e.tree) && NameOf(m) == T.Chars(m.name);
    assert T.MemberText(m) == T.MemberTail(m);
    NoGap("\"" + T.PiecesText(m.name) + "\"", T.Text(m.e.tree));
  }

  lemma NoGap(name: string, value: string)
    ensures name + "" + ":" + value == name + ":" + value
  {
  }

  ghost predicate NeatTextOf(text: string, v: Value) {
    exists t :: Neat(t) && Denotes(t, v) && T.Text(t) == text
  }

  /** Canonical text is the yield of a neat tree of the value; there is one such text. */
  lemma CanonicalIff(text: string, v: Value)
    ensures text == Canonical(v) <==> NeatTextOf(text, v)
  {
    TreeOfRight(v);
    forall t | Neat(t) && Denotes(t, v) && T.Text(t) == text ensures text == Canonical(v) { NeatIsCanonical(t, v); }
  }

  // ---- characters, digits and limits ----

  /** Which characters are escaped, and how. */
  lemma EscapeTexts(c: char)
    ensures EscapeChar('"') == "\\\"" && EscapeChar('\\') == "\\\\"
    ensures EscapeChar(8 as char) == "\\b" && EscapeChar(9 as char) == "\\t" && EscapeChar(10 as char) == "\\n"
    ensures EscapeChar(12 as char) == "\\f" && EscapeChar(13 as char) == "\\r"
    ensures c as int < 0x20 && c as int !in {8, 9, 10, 12, 13} ==>
              var t := EscapeChar(c);
              && |t| == 6 && t[..4] == "\\u00" && LowerHex(t[4]) && LowerHex(t[5])
              && 16 * HexValue(t[4]) + HexValue(t[5]) == c as int
    ensures c as int >= 0x20 && c != '"' && c != '\\' ==> EscapeChar(c) == [c]
  {
  }

  /** What escapes mean when read: the UTF-16 units of one character, or one of the short forms. */
  lemma EscapesByUnits(p: T.Piece)
    requires T.PieceOk(p)
    ensures p.Code? ==> Units(T.PieceChar(p)) == [Hex4(p.hex)]
    ensures p.Pair? ==> Units(T.PieceChar(p)) == [Hex4(p.high), Hex4(p.low)]
    ensures p == T.Short('b') ==> T.PieceChar(p) as int == 8
    ensures p == T.Short('t') ==> T.PieceChar(p) as int == 9
    ensures p == T.Short('n') ==> T.PieceChar(p) as int == 10
    ensures p == T.Short('f') ==> T.PieceChar(p) as int == 12
    ensures p == T.Short('r') ==> T.PieceChar(p) as int == 13
    ensures p.Short? && p.letter !in {'b', 't', 'n', 'f', 'r'} ==> T.PieceChar(p) == p.letter
  {
  }

  /** Hex digits in either case. */
  lemma HexDigits(c: char)
    ensures '0' <= c <= '9' ==> HexValue(c) == c as int - '0' as int
    ensures 'a' <= c <= 'f' ==> HexValue(c) == 10 + (c as int - 'a' as int)
    ensures 'A' <= c <= 'F' ==> HexValue(c) == 10 + (c as int - 'A' as int)
  {
  }

  /** Integers are written in base ten, the most significant digit first. */
  lemma DecimalText(n: nat, d: nat)
    requires d < 10
    ensures NatText(d) == [('0' as int + d) as char]
    ensures n > 0 ==> NatText(10 * n + d) == NatText(n) + [('0' as int + d) as char]
    ensures n > 0 ==> IntText(0 - n) == "-" + NatText(n)
  {
    assert (10 * n + d) / 10 == n && (10 * n + d) % 10 == d;
  }

  /** `w` occurs in `v`, nested `d` levels deep. */
  ghost predicate Occurs(v: Value, w: Value, d: nat)
    decreases v
  {
    (d == 0 && v == w)
    || (d > 0 && v.Array? && exists i :: 0 <= i < |v.items| && Occurs(v.items[i], w, d - 1))
    || (d > 0 && v.Object? && exists k :: k in v.members && Occurs(v.members[k], w, d - 1))
  }

  ghost predicate FineAt(w: Value, d: nat) {
    d <= 128 && (w.Number? ==> -9_007_199_254_740_991 <= w.n <= 9_007_199_254_740_991)
  }

  ghost predicate AllFine(v: Value, depth: nat) {
    forall w, d: nat :: Occurs(v, w, d) ==> FineAt(w, depth + d)
  }

  /** Strict values: nothing lies deeper than 128 levels, and every integer is a safe one. */
  lemma {:induction false} StrictIff(v: Value)
    ensures Strict(v) <==> forall w, d: nat :: Occurs(v, w, d) ==> FineAt(w, d)
  {
    StrictAtIff(v, 0);
  }

  lemma {:induction false} StrictAtIff(v: Value, depth: nat)
    ensures StrictAt(v, depth) <==> AllFine(v, depth)
  {
    assert Occurs(v, v, 0);
    match v
    case Array(items) =>
      forall i | 0 <= i < |items| ensures StrictAt(items[i], depth + 1) <==> AllFine(items[i], depth + 1) {
        StrictAtIff(items[i], depth + 1);
      }
      ArrayFine(v, depth);
    case Object(members) =>
      forall k | k in members ensures StrictAt(members[k], depth + 1) <==> AllFine(members[k], depth + 1) {
        StrictAtIff(members[k], depth + 1);
      }
      ObjectFine(v, depth);
    case _ =>
  }

  lemma ArrayFine(v: Value, depth: nat)
    requires v.Array?
    ensures AllFine(v, depth) <==> depth <= 128 && forall i :: 0 <= i < |v.items| ==> AllFine(v.items[i], depth + 1)
  {
    assert Occurs(v, v, 0);
    if AllFine(v, depth) {
      forall i | 0 <= i < |v.items| ensures AllFine(v.items[i], depth + 1) {
        forall w, d: nat | Occurs(v.items[i], w, d) ensures FineAt(w, depth + 1 + d) { assert Occurs(v, w, d + 1); }
      }
    } else if depth <= 128 && forall i :: 0 <= i < |v.items| ==> AllFine(v.items[i], depth + 1) {
      forall w, d: nat | Occurs(v, w, d) ensures FineAt(w, depth + d) {
        if d > 0 {
          var i :| 0 <= i < |v.items| && Occurs(v.items[i], w, d - 1);
          assert FineAt(w, depth + 1 + (d - 1));
        }
      }
    }
  }

  lemma ObjectFine(v: Value, depth: nat)
    requires v.Object?
    ensures AllFine(v, depth) <==> depth <= 128 && forall k :: k in v.members ==> AllFine(v.members[k], depth + 1)
  {
    assert Occurs(v, v, 0);
    if AllFine(v, depth) {
      forall k | k in v.members ensures AllFine(v.members[k], depth + 1) {
        forall w, d: nat | Occurs(v.members[k], w, d) ensures FineAt(w, depth + 1 + d) { assert Occurs(v, w, d + 1); }
      }
    } else if depth <= 128 && forall k :: k in v.members ==> AllFine(v.members[k], depth + 1) {
      forall w, d: nat | Occurs(v, w, d) ensures FineAt(w, depth + d) {
        if d > 0 {
          var k :| k in v.members && Occurs(v.members[k], w, d - 1);
          assert FineAt(w, depth + 1 + (d - 1));
        }
      }
    }
  }
}
