/**
 * The hand-written scanner of json.rs (`assert_no_duplicate_json_object_keys`), proved against
 * the grammar: it accepts a text exactly when the grammar does and no object repeats a name.
 */
module JsonScanner {
  import opened Prelude
  import opened JsonGrammar

  // ---- finding the closing quote ----

  /** The rest after the first quote that no backslash hides. */
  function FindClose(s: string): (r: Option<string>)
    ensures r.Some? ==> |r.value| < |s|
    decreases |s|
  {
    if s == "" then None
    else if s[0] == '"' then Some(s[1..])
    else if s[0] == '\\' then (if |s| < 2 then None else FindClose(s[2..]))
    else FindClose(s[1..])
  }

  lemma {:induction false} PlainSkips(s: string, n: nat)
    requires n <= |s| && forall i :: 0 <= i < n ==> s[i] != '"' && s[i] != '\\'
    ensures FindClose(s) == FindClose(s[n..])
  {
    if n > 0 {
      PlainSkips(s[1..], n - 1);
      assert s[1..][n - 1..] == s[n..];
    } else {
      assert s[0..] == s;
    }
  }

  lemma EscapeSkips(s: string)
    requires At(s, '\\') && ReadEscape(s).Some?
    ensures FindClose(s) == FindClose(s[ReadEscape(s).value.1..])
  {
    var n := ReadEscape(s).value.1;
    var t := s[2..];
    assert n > 2 ==> t[0] == s[2] && t[1] == s[3] && t[2] == s[4] && t[3] == s[5];
    if n == 6 {
      PlainSkips(t, 4);
      assert t[4..] == s[6..];
    } else if n == 12 {
      PlainSkips(t, 4);
      var u := s[6..];
      assert t[4..] == u && u[0] == '\\' && u[2..] == s[8..];
      PlainSkips(s[8..], 4);
      assert s[8..][4..] == s[12..];
    }
  }

  /** An escape is decided by the characters it takes. */
  lemma EscapeLocal(s: string, p: string)
    requires At(s, '\\') && At(p, '\\') && p <= s
    ensures ReadEscape(p).Some? ==> ReadEscape(s) == ReadEscape(p)
    ensures ReadEscape(s).Some? && ReadEscape(s).value.1 <= |p| ==> ReadEscape(p) == ReadEscape(s)
  {
    assert forall i :: 0 <= i < |p| ==> p[i] == s[i];
    if |p| >= 6 {
      assert p[2..][..4] == s[2..][..4];
      assert forall i :: 0 <= i < 4 ==> p[2..][i] == s[2..][i];
    }
    if |p| >= 12 {
      assert forall i :: 0 <= i < 4 ==> p[8..][i] == s[8..][i];
    }
  }

  /** What the scanner decodes: the text up to the closing quote, on its own. */
  function DecodeToken(token: string): Option<string> {
    match ReadChars(token)
    case None => None
    case Some((x, rest)) => if rest == "" then Some(x) else None
  }

  /** How reading `s` follows from decoding the token before `r`. */
  ghost predicate TokenAgrees(s: string, r: string)
    requires |r| <= |s|
  {
    ReadChars(s) == match DecodeToken(s[..|s| - |r|]) { case None => None case Some(x) => Some((x, r)) }
  }

  lemma TokenStepPlain(s: string, r: string)
    requires s != "" && s[0] != '"' && s[0] != '\\'
    requires |r| <= |s[1..]| && TokenAgrees(s[1..], r)
    ensures TokenAgrees(s, r)
  {
    var p := s[..|s| - |r|];
    assert p[1..] == s[1..][..|s[1..]| - |r|];
  }

  lemma TokenStepEscape(s: string, r: string)
    requires At(s, '\\') && |r| < |s|
    requires ReadEscape(s).Some? ==> var n := ReadEscape(s).value.1; |r| <= |s[n..]| && TokenAgrees(s[n..], r)
    ensures TokenAgrees(s, r)
  {
    var p := s[..|s| - |r|];
    EscapeLocal(s, p);
    match ReadEscape(s)
    case None =>
    case Some((c, n)) => assert p[n..] == s[n..][..|s[n..]| - |r|];
  }

  /** Cutting the token at the quote found by skipping loses nothing and adds nothing. */
  lemma {:induction false} TokenReads(s: string)
    ensures FindClose(s).None? ==> ReadChars(s).None?
    ensures FindClose(s).Some? ==> TokenAgrees(s, FindClose(s).value)
    decreases |s|
  {
    if s == "" {
    } else if s[0] == '"' {
      assert s[..|s| - |s[1..]|] == "\"";
    } else if s[0] == '\\' {
      if ReadEscape(s).Some? {
        EscapeSkips(s);
        TokenReads(s[ReadEscape(s).value.1..]);
      }
      if FindClose(s).Some? { TokenStepEscape(s, FindClose(s).value); }
    } else {
      TokenReads(s[1..]);
      if FindClose(s).Some? { TokenStepPlain(s, FindClose(s).value); }
    }
  }

  // ---- lists read in a loop ----

  function Continue<T>(done: seq<T>, r: Parsed<seq<T>>): Parsed<seq<T>> {
    match r
    case None => None
    case Some((xs, rest)) => Some((done + xs, rest))
  }

  lemma ContinueFromNothing<T>(r: Parsed<seq<T>>)
    ensures Continue([], r) == r
  {
    if r.Some? { assert [] + r.value.0 == r.value.0; }
  }

  lemma ContinueMore<T>(done: seq<T>, x: T, r: Parsed<seq<T>>)
    ensures Continue(done, ConsTo(x, r)) == Continue(done + [x], r)
  {
    if r.Some? { assert done + ([x] + r.value.0) == done + [x] + r.value.0; }
  }

  /** A list that the grammar reads begins with its first item. */
  lemma MembersBegin(s: string)
    ensures ParseMember(s).None? ==> ParseMembers(s).None?
    ensures ParseMembers(s).Some? ==>
              ParseMember(s).Some? && ParseMembers(s).value.0 != [] && ParseMembers(s).value.0[0] == ParseMember(s).value.0
  {
  }

  lemma ItemsBegin(s: string)
    ensures ParseItems(s).Some? ==>
              ParseValue(s).Some? && ParseItems(s).value.0 != [] && ParseItems(s).value.0[0] == ParseValue(s).value.0
  {
  }

  function Names(ms: seq<(string, Raw)>): (ks: seq<string>)
    ensures |ks| == |ms| && forall i :: 0 <= i < |ms| ==> ks[i] == ms[i].0
  {
    seq(|ms|, i requires 0 <= i < |ms| => ms[i].0)
  }

  ghost predicate Clean(r: Parsed<Raw>) {
    r.Some? && UniqueKeys(r.value.0)
  }

  ghost predicate GoodMembers(ms: seq<(string, Raw)>) {
    DistinctNames(ms) && forall i :: 0 <= i < |ms| ==> UniqueKeys(ms[i].1)
  }

  ghost predicate GoodItems(vs: seq<Raw>) {
    forall i :: 0 <= i < |vs| ==> UniqueKeys(vs[i])
  }

  lemma GoodMembersExtend(done: seq<(string, Raw)>, m: (string, Raw), more: seq<(string, Raw)>)
    requires GoodMembers(done)
    ensures GoodMembers(done + [m]) <==> m.0 !in Names(done) && UniqueKeys(m.1)
    ensures GoodMembers(done + ([m] + more)) ==> GoodMembers(done + [m])
  {
    var all := done + ([m] + more);
    assert all[|done|] == m;
    assert forall i :: 0 <= i < |done| ==> all[i] == done[i] == (done + [m])[i];
    if GoodMembers(done + [m]) {
      forall i | 0 <= i < |done| ensures Names(done)[i] != m.0 { assert (done + [m])[i].0 != (done + [m])[|done|].0; }
      assert (done + [m])[|done|] == m;
    }
  }

  /** When the next member is missing or bad, the whole list is. */
  lemma MembersEnd(done: seq<(string, Raw)>, s: string)
    requires GoodMembers(done)
    requires ParseMember(s).None? || !GoodMembers(done + [ParseMember(s).value.0])
    ensures Continue(done, ParseMembers(s)).Some? ==> !GoodMembers(Continue(done, ParseMembers(s)).value.0)
  {
    MembersBegin(s);
    if ParseMembers(s).Some? {
      var ms := ParseMembers(s).value.0;
      assert ms == [ms[0]] + ms[1..];
      GoodMembersExtend(done, ms[0], ms[1..]);
    }
  }

  lemma MembersStep(s: string, t: string)
    requires ParseMember(s).Some? && t == SkipSpace(ParseMember(s).value.1)
    ensures ParseMembers(s) ==
            if At(t, '}') then Some(([ParseMember(s).value.0], t[1..]))
            else if At(t, ',') then ConsTo(ParseMember(s).value.0, ParseMembers(t[1..]))
            else None
  {
  }

  lemma ItemsStep(s: string, t: string)
    requires ParseValue(s).Some? && t == SkipSpace(ParseValue(s).value.1)
    ensures ParseItems(s) ==
            if At(t, ']') then Some(([ParseValue(s).value.0], t[1..]))
            else if At(t, ',') then ConsTo(ParseValue(s).value.0, ParseItems(t[1..]))
            else None
  {
  }

  lemma ItemsEnd(done: seq<Raw>, s: string)
    requires !Clean(ParseValue(s))
    ensures Continue(done, ParseItems(s)).Some? ==> !GoodItems(Continue(done, ParseItems(s)).value.0)
  {
    ItemsBegin(s);
    if ParseItems(s).Some? {
      var vs := ParseItems(s).value.0;
      assert (done + vs)[|done|] == vs[0];
    }
  }

  class Scanner {
    const text: string
    var index: nat

    constructor (text: string)
      ensures this.text == text && index == 0
    {
      this.text := text;
      index := 0;
    }

    /** The unread text; an escape cut off by the end moves the index one past it. */
    function Rest(): string
      reads this
    {
      if index <= |text| then text[index..] else ""
    }

    function Peek(): (c: Option<char>)
      reads this
      ensures c == if Rest() == "" then None else Some(Rest()[0])
    {
      if index < |text| then Some(text[index]) else None
    }

    /** Moves over `n` unread characters. */
    method Advance(n: nat)
      requires n <= |Rest()|
      modifies this
      ensures index == old(index) + n && Rest() == old(Rest())[n..]
    {
      index := index + n;
    }

    method SkipWhitespace()
      modifies this
      ensures old(index) <= index && (old(index) <= |text| ==> index <= |text|)
      ensures Rest() == SkipSpace(old(Rest()))
    {
      while Peek().Some? && IsSpace(Peek().value)
        invariant old(index) <= index && (old(index) <= |text| ==> index <= |text|)
        invariant SkipSpace(Rest()) == SkipSpace(old(Rest()))
        decreases |Rest()|
      {
        Advance(1);
      }
    }

    method SkipDigitRun()
      modifies this
      ensures old(index) <= index && (old(index) <= |text| ==> index <= |text|)
      ensures Rest() == SkipDigits(old(Rest()))
    {
      while Peek().Some? && IsDigit(Peek().value)
        invariant old(index) <= index && (old(index) <= |text| ==> index <= |text|)
        invariant SkipDigits(Rest()) == SkipDigits(old(Rest()))
        decreases |Rest()|
      {
        Advance(1);
      }
    }

    method ReadJsonString() returns (r: Option<string>)
      requires At(Rest(), '"')
      modifies this
      ensures r.Some? <==> ReadChars(old(Rest())[1..]).Some?
      ensures r.Some? ==> old(index) < index <= |text| && ReadChars(old(Rest())[1..]) == Some((r.value, Rest()))
    {
      Advance(1);
      ghost var s := Rest();
      var start := index;
      TokenReads(s);
      var found := SeekQuote();
      if !found { return None; }
      TokenCut(start, s);
      r := DecodeToken(text[start..index]);
    }

    /** Moves past the first quote that no backslash hides. */
    method SeekQuote() returns (found: bool)
      requires index <= |text|
      modifies this
      ensures found <==> FindClose(old(Rest())).Some?
      ensures found ==> old(index) < index <= |text| && FindClose(old(Rest())) == Some(Rest())
    {
      while index < |text|
        invariant old(index) <= index && FindClose(old(Rest())) == FindClose(Rest())
        decreases |text| - index
      {
        if text[index] == '"' {
          Advance(1);
          return true;
        } else if text[index] == '\\' {
          assert |Rest()| >= 2 ==> text[index + 2..] == Rest()[2..];
          index := index + 2;
        } else {
          Advance(1);
        }
      }
      return false;
    }

    lemma TokenCut(start: nat, s: string)
      requires start <= index <= |text| && s == text[start..]
      ensures |Rest()| <= |s| && text[start..index] == s[..|s| - |Rest()|]
    {
    }

    method ConsumeLiteral(word: string, ghost v: Raw) returns (ok: bool)
      requires word != ""
      modifies this
      ensures ok <==> Literal(old(Rest()), word, v).Some?
      ensures ok ==> old(index) < index <= |text| && Literal(old(Rest()), word, v) == Some((v, Rest()))
    {
      ok := word <= Rest();
      if ok { Advance(|word|); }
    }

    method ConsumeNumber() returns (ok: bool)
      modifies this
      ensures ok <==> SkipNumber(old(Rest())).Some?
      ensures ok ==> old(index) < index <= |text| && SkipNumber(old(Rest())) == Some(Rest())
    {
      var start := index;
      ok := ConsumeInteger();
      if !ok { return false; }
      ok := ConsumeFraction();
      if !ok { return false; }
      ok := ConsumeExponent();
    }

    method ConsumeFraction() returns (ok: bool)
      requires index <= |text|
      modifies this
      ensures ok <==> SkipFraction(old(Rest())).Some?
      ensures ok ==> old(index) <= index <= |text| && SkipFraction(old(Rest())) == Some(Rest())
    {
      if Peek() == Some('.') {
        Advance(1);
        if Peek().None? || !IsDigit(Peek().value) { return false; }
        SkipDigitRun();
      }
      return true;
    }

    method ConsumeExponent() returns (ok: bool)
      requires index <= |text|
      modifies this
      ensures ok <==> SkipExponent(old(Rest())).Some?
      ensures ok ==> old(index) <= index <= |text| && SkipExponent(old(Rest())) == Some(Rest())
    {
      if Peek() == Some('e') || Peek() == Some('E') {
        Advance(1);
        if Peek() == Some('+') || Peek() == Some('-') { Advance(1); }
        if Peek().None? || !IsDigit(Peek().value) { return false; }
        SkipDigitRun();
      }
      return true;
    }

    method ConsumeInteger() returns (ok: bool)
      modifies this
      ensures ok <==> SkipInteger(old(Rest())).Some?
      ensures ok ==> old(index) < index <= |text| && SkipInteger(old(Rest())) == Some(Rest())
    {
      if Peek() == Some('-') { Advance(1); }
      if Peek() == Some('0') {
        Advance(1);
        return true;
      }
      if Peek().None? || !IsDigit(Peek().value) { return false; }
      Advance(1);
      SkipDigitRun();
      return true;
    }

    /** Accepts what the grammar reads as one value without repeated names, and moves just past it. */
    method ScanValue() returns (ok: bool)
      modifies this
      ensures ok <==> Clean(ParseValue(old(Rest())))
      ensures ok ==> old(index) < index <= |text| && Rest() == ParseValue(old(Rest())).value.1
      decreases |Rest()|, 3
    {
      SkipWhitespace();
      match Peek() {
        case None => return false;
        case Some(c) =>
          if c == '{' {
            ok := ScanObject();
          } else if c == '[' {
            ok := ScanArray();
          } else if c == '"' {
            var s := ReadJsonString();
            ok := s.Some?;
          } else if c == 't' {
            ok := ConsumeLiteral("true", RBool(true));
          } else if c == 'f' {
            ok := ConsumeLiteral("false", RBool(false));
          } else if c == 'n' {
            ok := ConsumeLiteral("null", RNull);
          } else if c == '-' || IsDigit(c) {
            ok := ConsumeNumber();
          } else {
            ok := false;
          }
      }
    }

    method ScanObject() returns (ok: bool)
      requires At(Rest(), '{')
      modifies this
      ensures ok <==> Clean(ParseObject(old(Rest())))
      ensures ok ==> old(index) < index <= |text| && Rest() == ParseObject(old(Rest())).value.1
      decreases |Rest()|, 2
    {
      Advance(1);
      SkipWhitespace();
      if Peek() == Some('}') {
        Advance(1);
        return true;
      }
      ok := ScanMembers();
    }

    /** The members of an object, comparing each name with the ones before it. */
    method ScanMembers() returns (ok: bool)
      modifies this
      ensures ok <==> ParseMembers(old(Rest())).Some? && GoodMembers(ParseMembers(old(Rest())).value.0)
      ensures ok ==> old(index) < index <= |text| && Rest() == ParseMembers(old(Rest())).value.1
      decreases |Rest()|, 2
    {
      ghost var s := Rest();
      ghost var done: seq<(string, Raw)> := [];
      var keys: seq<string> := [];
      ContinueFromNothing(ParseMembers(s));
      while index < |text|
        invariant old(index) <= index
        invariant ParseMembers(s) == Continue(done, ParseMembers(Rest()))
        invariant keys == Names(done) && GoodMembers(done)
        decreases |text| - index
      {
        ghost var here := Rest();
        ghost var read := ParseMember(here);
        var name := ScanMember(keys);
        if read.Some? { GoodMembersExtend(done, read.value.0, []); }
        if name.None? {
          MembersEnd(done, here);
          return false;
        }
        keys := keys + [name.value];
        SkipWhitespace();
        MembersStep(here, Rest());
        if Peek() == Some(',') {
          Advance(1);
          ContinueMore(done, read.value.0, ParseMembers(Rest()));
          done := done + [read.value.0];
        } else if Peek() == Some('}') {
          Advance(1);
          return true;
        } else {
          return false;
        }
      }
      return false;
    }

    /** One member: a name not among `keys`, a colon and a value. */
    method ScanMember(keys: seq<string>) returns (name: Option<string>)
      modifies this
      ensures name.Some? <==>
              var m := ParseMember(old(Rest()));
              m.Some? && m.value.0.0 !in keys && UniqueKeys(m.value.0.1)
      ensures name.Some? ==> old(index) < index <= |text|
      ensures name.Some? ==> ParseMember(old(Rest())).value.0.0 == name.value
      ensures name.Some? ==> ParseMember(old(Rest())).value.1 == Rest()
      decreases |Rest()|, 1
    {
      SkipWhitespace();
      if Peek() != Some('"') { return None; }
      name := ReadJsonString();
      if name.None? || name.value in keys { return None; }
      SkipWhitespace();
      if Peek() != Some(':') { return None; }
      Advance(1);
      var ok := ScanValue();
      if !ok { return None; }
    }

    method ScanArray() returns (ok: bool)
      requires At(Rest(), '[')
      modifies this
      ensures ok <==> Clean(ParseArray(old(Rest())))
      ensures ok ==> old(index) < index <= |text| && Rest() == ParseArray(old(Rest())).value.1
      decreases |Rest()|, 2
    {
      Advance(1);
      SkipWhitespace();
      if Peek() == Some(']') {
        Advance(1);
        return true;
      }
      ok := ScanItems();
    }

    method ScanItems() returns (ok: bool)
      modifies this
      ensures ok <==> ParseItems(old(Rest())).Some? && GoodItems(ParseItems(old(Rest())).value.0)
      ensures ok ==> old(index) < index <= |text| && Rest() == ParseItems(old(Rest())).value.1
      decreases |Rest()|, 4
    {
      ghost var s := Rest();
      ghost var done: seq<Raw> := [];
      ContinueFromNothing(ParseItems(s));
      while index < |text|
        invariant old(index) <= index
        invariant ParseItems(s) == Continue(done, ParseItems(Rest()))
        invariant GoodItems(done)
        decreases |text| - index
      {
        ghost var here := Rest();
        ghost var item := ParseValue(here);
        ok := ScanValue();
        if !ok {
          ItemsEnd(done, here);
          return false;
        }
        ghost var more := done + [item.value.0];
        assert GoodItems(more);
        SkipWhitespace();
        ItemsStep(here, Rest());
        if Peek() == Some(',') {
          Advance(1);
          ContinueMore(done, item.value.0, ParseItems(Rest()));
          done := more;
        } else if Peek() == Some(']') {
          Advance(1);
          return true;
        } else {
          return false;
        }
      }
      return false;
    }
  }

  /** The whole check: accepted texts are exactly the well-formed ones without repeated names. */
  method AssertNoDuplicateKeys(text: string) returns (ok: bool)
    ensures ok <==> ParseDocument(text).Some? && UniqueKeys(ParseDocument(text).value)
  {
    var scanner := new Scanner(text);
    assert scanner.Rest() == text;
    ok := scanner.ScanValue();
    if ok {
      scanner.SkipWhitespace();
      ok := scanner.index == |text|;
    }
  }
}
