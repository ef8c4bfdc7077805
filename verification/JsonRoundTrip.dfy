/** Printing and parsing undo each other, so canonical text identifies its value. */
module JsonRoundTrip {
  import opened Prelude
  import opened Utf16
  import opened JsonGrammar
  import opened Json

  // ---- strings ----

  lemma ShortEscapeReads(e: char, c: char, tail: string)
    requires ReadEscape(['\\', e] + tail) == Some((c, 2))
    ensures ReadChars(['\\', e] + tail) == Prepend(c, ReadChars(tail))
  {
    assert (['\\', e] + tail)[2..] == tail;
  }

  lemma ControlEscapeReads(c: char, tail: string)
    requires c < ' '
    ensures ReadChars("\\u00" + [HexDigit(c as int / 16), HexDigit(c as int % 16)] + tail) == Prepend(c, ReadChars(tail))
  {
    var hi, lo := HexDigit(c as int / 16), HexDigit(c as int % 16);
    var t := "\\u00" + [hi, lo] + tail;
    var h := t[2..];
    assert h[0] == '0' && h[1] == '0' && h[2] == hi && h[3] == lo;
    assert Hex4(h) == c as int;
    assert ReadEscape(t) == Some((c, 6));
    assert t[6..] == tail;
  }

  lemma EscapeCharReads(c: char, tail: string)
    ensures ReadChars(EscapeChar(c) + tail) == Prepend(c, ReadChars(tail))
  {
    var e := EscapeChar(c);
    if e[0] != '\\' {
      assert (e + tail)[1..] == tail;
    } else if |e| == 2 {
      assert e == ['\\', e[1]];
      ShortEscapeReads(e[1], c, tail);
    } else {
      ControlEscapeReads(c, tail);
    }
  }

  /** Decoding a quoted string gives back the string, for every character it may hold. */
  lemma {:induction false} QuoteReads(s: string, rest: string)
    ensures ReadChars(Escape(s) + "\"" + rest) == Some((s, rest))
  {
    if s == "" {
      var t := Escape(s) + "\"" + rest;
      assert t[0] == '"' && t[1..] == rest;
    } else {
      var tail := Escape(s[1..]) + "\"" + rest;
      assert Escape(s) + "\"" + rest == EscapeChar(s[0]) + tail;
      EscapeCharReads(s[0], tail);
      QuoteReads(s[1..], rest);
      assert s == [s[0]] + s[1..];
    }
  }

  // ---- numbers ----

  /** What may follow a number without becoming part of it. */
  predicate Delimited(rest: string) {
    !AtDigit(rest) && !At(rest, '.') && !At(rest, 'e') && !At(rest, 'E')
  }

  lemma {:induction false} SkipDigitsAppend(d: string, rest: string)
    requires AllDigits(d) && !AtDigit(rest)
    ensures SkipDigits(d + rest) == rest
  {
    if d == "" {
      assert d + rest == rest;
    } else {
      assert (d + rest)[1..] == d[1..] + rest;
      SkipDigitsAppend(d[1..], rest);
    }
  }

  /** Digits that start with no zero, or are a zero alone, scan as an integer. */
  lemma DigitsScan(digits: string, rest: string)
    requires digits != "" && AllDigits(digits) && (digits[0] == '0' ==> |digits| == 1) && !AtDigit(rest)
    ensures SkipInteger(digits + rest) == Some(rest)
  {
    var t := digits + rest;
    assert t[0] == digits[0] && t[1..] == digits[1..] + rest;
    SkipDigitsAppend(digits[1..], rest);
  }

  lemma IntTextScans(n: int, rest: string)
    requires Delimited(rest)
    ensures SkipNumber(IntText(n) + rest) == Some(rest)
  {
    var digits := NatText(if n < 0 then -n else n);
    DigitsScan(digits, rest);
    if n < 0 {
      var s := "-" + digits + rest;
      assert s[0] == '-' && s[1..] == digits + rest;
      assert SkipInteger(s) == Some(rest);
    }
  }

  lemma IntTextValue(n: int)
    ensures IntegerOf(IntText(n)) == Some(n)
  {
    if n < 0 {
      assert IntText(n)[1..] == NatText(-n);
      assert NatValue("0") == 0;
      assert !IsDigit(IntText(n)[0]);
    }
  }

  // ---- values ----

  /** The tree that the canonical text of `v` parses to: members in canonical order. */
  ghost function RawOf(v: Value): Raw
    decreases v, 1, 0
  {
    match v
    case Null => RNull
    case Bool(b) => RBool(b)
    case Number(n) => RNumber(IntText(n))
    case Str(s) => RString(s)
    case Array(items) => RArray(RawItems(v, 0))
    case Object(ms) => RObject(RawMembers(v, SortedKeys(ms.Keys)))
  }

  ghost function RawItems(v: Value, i: nat): (r: seq<Raw>)
    requires v.Array? && i <= |v.items|
    ensures |r| == |v.items| - i
    ensures forall j :: 0 <= j < |r| ==> r[j] == RawOf(v.items[i + j])
    decreases v, 0, |v.items| - i
  {
    if i == |v.items| then [] else [RawOf(v.items[i])] + RawItems(v, i + 1)
  }

  ghost function RawMembers(v: Value, keys: seq<string>): (r: seq<(string, Raw)>)
    requires v.Object? && forall k :: k in keys ==> k in v.members
    ensures |r| == |keys|
    ensures forall j :: 0 <= j < |r| ==> keys[j] in v.members && r[j] == (keys[j], RawOf(v.members[keys[j]]))
    decreases v, 0, |keys|
  {
    if keys == [] then [] else [(keys[0], RawOf(v.members[keys[0]]))] + RawMembers(v, keys[1..])
  }

  lemma CanonicalStart(v: Value)
    ensures Canonical(v) != ""
    ensures !IsSpace(Canonical(v)[0]) && Canonical(v)[0] !in {'}', ']', ',', ':'}
  {
    if v.Number? {
      if v.n < 0 { assert IntText(v.n)[0] == '-'; } else { assert IsDigit(IntText(v.n)[0]); }
    }
  }

  // One-step readings of the grammar, so that the induction below need not unfold it.

  lemma LiteralReads(word: string, rest: string)
    requires word in {"null", "true", "false"}
    ensures ParseValue(word + rest) == Some((if word == "null" then RNull else RBool(word == "true"), rest))
  {
    var s := word + rest;
    assert s[0] == word[0] && s[|word|..] == rest && word <= s;
    assert SkipSpace(s) == s;
  }

  lemma NumberReads(n: int, rest: string)
    requires Delimited(rest)
    ensures ParseValue(IntText(n) + rest) == Some((RNumber(IntText(n)), rest))
  {
    IntTextScans(n, rest);
    NumberTokenReads(IntText(n), rest);
  }

  lemma NumberTokenReads(lexeme: string, rest: string)
    requires lexeme != "" && (lexeme[0] == '-' || IsDigit(lexeme[0])) && SkipNumber(lexeme + rest) == Some(rest)
    ensures ParseValue(lexeme + rest) == Some((RNumber(lexeme), rest))
  {
    var s := lexeme + rest;
    assert s[..|s| - |rest|] == lexeme && s[0] == lexeme[0];
    assert SkipSpace(s) == s;
  }

  lemma StringReads(x: string, rest: string)
    ensures ParseValue(Quote(x) + rest) == Some((RString(x), rest))
  {
    var s := Quote(x) + rest;
    assert s[0] == '"' && s[1..] == Escape(x) + "\"" + rest;
    QuoteReads(x, rest);
    assert SkipSpace(s) == s;
  }

  lemma ArrayReads(t: string, vs: seq<Raw>, rest: string)
    requires t != "" && !IsSpace(t[0]) && t[0] != ']'
    requires ParseItems(t) == Some((vs, rest))
    ensures ParseValue("[" + t) == Some((RArray(vs), rest))
  {
    var s := "[" + t;
    assert s[0] == '[' && s[1..] == t;
    assert SkipSpace(s) == s && SkipSpace(t) == t;
    assert ParseArray(s) == Some((RArray(vs), rest));
  }

  lemma ObjectReads(t: string, ms: seq<(string, Raw)>, rest: string)
    requires At(t, '"')
    requires ParseMembers(t) == Some((ms, rest))
    ensures ParseValue("{" + t) == Some((RObject(ms), rest))
  {
    var s := "{" + t;
    assert s[0] == '{' && s[1..] == t;
    assert SkipSpace(s) == s && SkipSpace(t) == t;
    assert ParseObject(s) == Some((RObject(ms), rest));
  }

  lemma EmptyReads(rest: string)
    ensures ParseValue("[]" + rest) == Some((RArray([]), rest))
    ensures ParseValue("{}" + rest) == Some((RObject([]), rest))
  {
    var a, o := "[]" + rest, "{}" + rest;
    assert a[0] == '[' && a[1..] == "]" + rest && a[1..][1..] == rest;
    assert o[0] == '{' && o[1..] == "}" + rest && o[1..][1..] == rest;
    assert SkipSpace(a) == a && SkipSpace(o) == o;
    assert ParseArray(a) == Some((RArray([]), rest));
    assert ParseObject(o) == Some((RObject([]), rest));
  }

  lemma ItemsReadLast(s: string, v: Raw, rest: string)
    requires ParseValue(s) == Some((v, "]" + rest))
    ensures ParseItems(s) == Some(([v], rest))
  {
    assert ("]" + rest)[1..] == rest;
  }

  lemma ItemsReadMore(s: string, v: Raw, t: string, vs: seq<Raw>, rest: string)
    requires ParseValue(s) == Some((v, "," + t))
    requires ParseItems(t) == Some((vs, rest))
    ensures ParseItems(s) == Some(([v] + vs, rest))
  {
    assert ("," + t)[1..] == t;
  }

  lemma MemberReads(k: string, t: string, v: Raw, rest: string)
    requires ParseValue(t) == Some((v, rest))
    ensures ParseMember(Quote(k) + ":" + t) == Some(((k, v), rest))
  {
    var s := Quote(k) + ":" + t;
    var u := ":" + t;
    assert s[0] == '"' && s[1..] == Escape(k) + "\"" + u;
    QuoteReads(k, u);
    assert SkipSpace(s) == s && SkipSpace(u) == u && u[1..] == t;
  }

  lemma MembersReadLast(s: string, m: (string, Raw), rest: string)
    requires ParseMember(s) == Some((m, "}" + rest))
    ensures ParseMembers(s) == Some(([m], rest))
  {
    assert ("}" + rest)[1..] == rest;
  }

  lemma MembersReadMore(s: string, m: (string, Raw), t: string, ms: seq<(string, Raw)>, rest: string)
    requires ParseMember(s) == Some((m, "," + t))
    requires ParseMembers(t) == Some((ms, rest))
    ensures ParseMembers(s) == Some(([m] + ms, rest))
  {
    assert ("," + t)[1..] == t;
  }

  /** Parsing the canonical text of `v` followed by anything that cannot extend it reads exactly `v`. */
  lemma {:induction false} ParsePrint(v: Value, rest: string)
    requires Delimited(rest)
    ensures ParseValue(Canonical(v) + rest) == Some((RawOf(v), rest))
    decreases v, 1, 0
  {
    match v
    case Null => LiteralReads("null", rest);
    case Bool(b) => LiteralReads(if b then "true" else "false", rest);
    case Number(n) => NumberReads(n, rest);
    case Str(x) => StringReads(x, rest);
    case Array(items) => ParsePrintArray(v, rest);
    case Object(ms) => ParsePrintObject(v, rest);
  }

  lemma {:induction false} ParsePrintArray(v: Value, rest: string)
    requires v.Array?
    ensures ParseValue(Canonical(v) + rest) == Some((RawOf(v), rest))
    decreases v, 0, |v.items| + 1
  {
    if v.items == [] {
      EmptyReads(rest);
      assert Canonical(v) == "[]";
    } else {
      ParsePrintItems(v, 0, rest);
      CanonicalStart(v.items[0]);
      var t := CanonicalItems(v, 0) + "]" + rest;
      assert t[0] == Canonical(v.items[0])[0];
      ArrayReads(t, RawItems(v, 0), rest);
      assert Canonical(v) + rest == "[" + t;
    }
  }

  lemma {:induction false} ParsePrintObject(v: Value, rest: string)
    requires v.Object?
    ensures ParseValue(Canonical(v) + rest) == Some((RawOf(v), rest))
    decreases v, 0, |v.members| + 1
  {
    var keys := SortedKeys(v.members.Keys);
    assert |keys| == |v.members|;
    if keys == [] {
      EmptyReads(rest);
      assert Canonical(v) == "{}";
    } else {
      ParsePrintMembers(v, keys, rest);
      MembersStart(v, keys);
      var t := CanonicalMembers(v, keys) + "}" + rest;
      assert t[0] == CanonicalMembers(v, keys)[0];
      ObjectReads(t, RawMembers(v, keys), rest);
      ObjectText(v, rest);
    }
  }

  lemma MembersStart(v: Value, keys: seq<string>)
    requires v.Object? && keys != [] && forall k :: k in keys ==> k in v.members
    ensures At(CanonicalMembers(v, keys), '"')
  {
  }

  lemma ObjectText(v: Value, rest: string)
    requires v.Object?
    ensures Canonical(v) + rest == "{" + (CanonicalMembers(v, SortedKeys(v.members.Keys)) + "}" + rest)
    ensures RawOf(v) == RObject(RawMembers(v, SortedKeys(v.members.Keys)))
  {
  }

  lemma LastItemText(v: Value, i: nat, rest: string)
    requires v.Array? && i + 1 == |v.items|
    ensures CanonicalItems(v, i) + "]" + rest == Canonical(v.items[i]) + ("]" + rest)
    ensures RawItems(v, i) == [RawOf(v.items[i])]
  {
  }

  lemma MoreItemsText(v: Value, i: nat, rest: string)
    requires v.Array? && i + 1 < |v.items|
    ensures CanonicalItems(v, i) + "]" + rest
            == Canonical(v.items[i]) + ("," + (CanonicalItems(v, i + 1) + "]" + rest))
    ensures RawItems(v, i) == [RawOf(v.items[i])] + RawItems(v, i + 1)
  {
  }

  lemma LastMemberText(v: Value, keys: seq<string>, rest: string)
    requires v.Object? && |keys| == 1 && keys[0] in v.members
    ensures CanonicalMembers(v, keys) + "}" + rest == Quote(keys[0]) + ":" + (Canonical(v.members[keys[0]]) + ("}" + rest))
    ensures RawMembers(v, keys) == [(keys[0], RawOf(v.members[keys[0]]))]
  {
  }

  lemma MoreMembersText(v: Value, keys: seq<string>, rest: string)
    requires v.Object? && |keys| > 1 && forall k :: k in keys ==> k in v.members
    ensures CanonicalMembers(v, keys) + "}" + rest
            == Quote(keys[0]) + ":" + (Canonical(v.members[keys[0]]) + ("," + (CanonicalMembers(v, keys[1..]) + "}" + rest)))
  {
    RegroupMember(Quote(keys[0]), Canonical(v.members[keys[0]]), CanonicalMembers(v, keys[1..]), rest);
  }

  lemma RegroupMember(name: string, value: string, more: string, rest: string)
    ensures name + ":" + value + ("," + more) + "}" + rest == name + ":" + (value + ("," + (more + "}" + rest)))
  {
  }

  lemma {:induction false} ParsePrintItems(v: Value, i: nat, rest: string)
    requires v.Array? && i < |v.items|
    ensures ParseItems(CanonicalItems(v, i) + "]" + rest) == Some((RawItems(v, i), rest))
    decreases v, 0, |v.items| - i
  {
    var s := CanonicalItems(v, i) + "]" + rest;
    var x := v.items[i];
    if i + 1 == |v.items| {
      LastItemText(v, i, rest);
      ParsePrint(x, "]" + rest);
      ItemsReadLast(s, RawOf(x), rest);
    } else {
      var t := CanonicalItems(v, i + 1) + "]" + rest;
      MoreItemsText(v, i, rest);
      ParsePrint(x, "," + t);
      ParsePrintItems(v, i + 1, rest);
      ItemsReadMore(s, RawOf(x), t, RawItems(v, i + 1), rest);
    }
  }

  lemma {:induction false} ParsePrintMembers(v: Value, keys: seq<string>, rest: string)
    requires v.Object? && keys != [] && forall k :: k in keys ==> k in v.members
    ensures ParseMembers(CanonicalMembers(v, keys) + "}" + rest) == Some((RawMembers(v, keys), rest))
    decreases v, 0, |keys|
  {
    var s := CanonicalMembers(v, keys) + "}" + rest;
    var k := keys[0];
    var x := v.members[k];
    if |keys| == 1 {
      LastMemberText(v, keys, rest);
      ParsePrint(x, "}" + rest);
      MemberReads(k, Canonical(x) + ("}" + rest), RawOf(x), "}" + rest);
      MembersReadLast(s, (k, RawOf(x)), rest);
    } else {
      var t := CanonicalMembers(v, keys[1..]) + "}" + rest;
      MoreMembersText(v, keys, rest);
      ParsePrint(x, "," + t);
      MemberReads(k, Canonical(x) + ("," + t), RawOf(x), "," + t);
      ParsePrintMembers(v, keys[1..], rest);
      MembersReadMore(s, (k, RawOf(x)), t, RawMembers(v, keys[1..]), rest);
    }
  }

  // ---- decoding ----

  /** The tree of a canonical text decodes to the value it was printed from. */
  lemma {:induction false} ValueOfRawOf(v: Value)
    ensures ValueOf(RawOf(v)) == Some(v)
    decreases v, 1, 0
  {
    match v
    case Number(n) => IntTextValue(n);
    case Array(items) => ValueOfRawArray(v);
    case Object(ms) => ValueOfRawObject(v);
    case _ =>
  }

  lemma {:induction false} ValueOfRawArray(v: Value)
    requires v.Array?
    ensures ValueOf(RawOf(v)) == Some(v)
    decreases v, 0, |v.items| + 1
  {
    ValuesOfRawItems(v, |v.items|);
    assert v.items[..|v.items|] == v.items;
  }

  lemma {:induction false} ValueOfRawObject(v: Value)
    requires v.Object?
    ensures ValueOf(RawOf(v)) == Some(v)
    decreases v, 0, |v.members| + 1
  {
    var keys := SortedKeys(v.members.Keys);
    assert |keys| == |v.members|;
    MembersOfRawMembers(v, keys, |keys|);
    assert keys[..|keys|] == keys;
    OnlyAll(v.members);
    ValueOfTree(RawOf(v), v.members);
  }

  lemma ValueOfTree(r: Raw, m: map<string, Value>)
    requires r.RObject? && MembersOf(r, |r.members|) == Some(m)
    ensures ValueOf(r) == Some(Object(m))
  {
  }

  lemma OnlyAll(m: map<string, Value>)
    ensures Only(m, SortedKeys(m.Keys)) == m
  {
  }

  lemma {:induction false} ValuesOfRawItems(v: Value, n: nat)
    requires v.Array? && n <= |v.items|
    ensures ValuesOf(RawOf(v), n) == Some(v.items[..n])
    decreases v, 0, n
  {
    if n > 0 {
      ValuesOfRawItems(v, n - 1);
      ValueOfRawOf(v.items[n - 1]);
      assert v.items[..n] == v.items[..n - 1] + [v.items[n - 1]];
    }
  }

  /** The entries of `m` whose keys are listed. */
  ghost function Only(m: map<string, Value>, keys: seq<string>): map<string, Value> {
    map k | k in m.Keys && k in keys :: m[k]
  }

  lemma OnlyGrows(m: map<string, Value>, keys: seq<string>, n: nat)
    requires n < |keys| && keys[n] in m
    ensures Only(m, keys[..n])[keys[n] := m[keys[n]]] == Only(m, keys[..n + 1])
  {
    assert keys[..n + 1] == keys[..n] + [keys[n]];
  }

  lemma MembersStep(r: Raw, n: nat, m: map<string, Value>, k: string, v: Value)
    requires r.RObject? && n < |r.members| && r.members[n].0 == k
    requires MembersOf(r, n) == Some(m) && ValueOf(r.members[n].1) == Some(v)
    ensures MembersOf(r, n + 1) == Some(m[k := v])
  {
  }

  lemma RawMemberAt(v: Value, keys: seq<string>, j: nat)
    requires v.Object? && keys == SortedKeys(v.members.Keys) && j < |keys|
    ensures RawOf(v).RObject? && |RawOf(v).members| == |keys|
    ensures keys[j] in v.members && RawOf(v).members[j] == (keys[j], RawOf(v.members[keys[j]]))
  {
  }

  lemma {:induction false} MembersOfRawMembers(v: Value, keys: seq<string>, n: nat)
    requires v.Object? && keys == SortedKeys(v.members.Keys) && n <= |keys|
    ensures MembersOf(RawOf(v), n) == Some(Only(v.members, keys[..n]))
    decreases v, 0, n
  {
    if n > 0 {
      MembersOfRawMembers(v, keys, n - 1);
      var k := keys[n - 1];
      assert k in keys;
      ValueOfRawOf(v.members[k]);
      OnlyGrows(v.members, keys, n - 1);
      RawMemberAt(v, keys, n - 1);
      MembersStep(RawOf(v), n - 1, Only(v.members, keys[..n - 1]), k, v.members[k]);
    }
  }

  lemma {:induction false} UniqueKeysRawOf(v: Value)
    ensures UniqueKeys(RawOf(v))
  {
    match v
    case Array(items) =>
      forall i | 0 <= i < |items| ensures UniqueKeys(RawOf(items[i])) { UniqueKeysRawOf(items[i]); }
    case Object(ms) =>
      var keys := SortedKeys(ms.Keys);
      forall i | 0 <= i < |keys| ensures keys[i] in ms && UniqueKeys(RawOf(ms[keys[i]])) {
        assert keys[i] in keys;
        UniqueKeysRawOf(ms[keys[i]]);
      }
      forall i, j | 0 <= i < j < |keys| ensures keys[i] != keys[j] {
        JsLessIsStrictTotalOrder(keys[i], keys[j], keys[i]);
      }
    case _ =>
  }

  // ---- main results ----

  lemma DocumentOfCanonical(v: Value)
    ensures ParseDocument(Canonical(v)) == Some(RawOf(v))
  {
    ParsePrint(v, "");
    assert Canonical(v) + "" == Canonical(v);
  }

  /** Every strict value survives printing and strict decoding, to the last character. */
  lemma PrintThenDecode(v: Value)
    requires Strict(v)
    ensures StrictDecode(Canonical(v)) == Some(v)
  {
    DocumentOfCanonical(v);
    ValueOfRawOf(v);
    UniqueKeysRawOf(v);
  }

  /** Strict decoding accepts exactly the canonical texts of strict values. */
  lemma {:induction false} DecodeAcceptsExactlyCanonical(text: string, v: Value)
    ensures StrictDecode(text) == Some(v) <==> Strict(v) && text == Canonical(v)
  {
    if Strict(v) && text == Canonical(v) { PrintThenDecode(v); }
  }

  /** Different values never print alike. */
  lemma CanonicalInjective(v: Value, w: Value)
    requires Canonical(v) == Canonical(w)
    ensures v == w
  {
    DocumentOfCanonical(v);
    DocumentOfCanonical(w);
    ValueOfRawOf(v);
    ValueOfRawOf(w);
  }
}
