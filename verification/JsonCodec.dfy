/** The codec of json.rs as it runs: printing into a buffer, and decoding by scan, parse, reprint, compare. */
module JsonCodec {
  import opened Prelude
  import opened Utf16
  import opened JsonGrammar
  import opened Json
  import JsonScanner

  /**
   * `canonical_json_string`.  The listing of an object's keys is any order at all; the text is the
   * same for each, because the keys are sorted before they are printed.
   */
  method CanonicalJsonString(v: Value) returns (out: string)
    ensures out == Canonical(v)
    decreases v, 1
  {
    match v {
      case Null => out := "null";
      case Bool(b) => out := if b then "true" else "false";
      case Number(n) => out := IntText(n);
      case Str(s) => out := Quote(s);
      case Array(items) => out := PrintArray(v);
      case Object(ms) => out := PrintObject(v);
    }
  }

  /** The separator printed before position `i` of a list of `n`. */
  function Separator(i: nat, n: nat): string {
    if 0 < i < n then "," else ""
  }

  lemma PushKeepsTotal(out: string, sep: string, x: string, left: string, total: string)
    requires out + (sep + (x + left)) == total
    ensures out + sep + x + left == total
  {
    assert out + sep + x + left == out + (sep + (x + left));
  }

  lemma ItemsSplit(v: Value, i: nat)
    requires v.Array? && i < |v.items|
    ensures CanonicalItems(v, i) ==
            Canonical(v.items[i]) + (Separator(i + 1, |v.items|) + CanonicalItems(v, i + 1))
  {
  }

  lemma MembersSplit(v: Value, keys: seq<string>, i: nat)
    requires v.Object? && i < |keys| && forall k :: k in keys ==> k in v.members
    ensures keys[i] in keys
    ensures CanonicalMembers(v, keys[i..]) ==
            (Quote(keys[i]) + ":" + Canonical(v.members[keys[i]]))
            + (Separator(i + 1, |keys|) + CanonicalMembers(v, keys[i + 1..]))
  {
    assert keys[i..][1..] == keys[i + 1..];
  }

  method PrintArray(v: Value) returns (out: string)
    requires v.Array?
    ensures out == Canonical(v)
    decreases v, 0
  {
    out := "[";
    ghost var total := "[" + CanonicalItems(v, 0);
    for i := 0 to |v.items|
      invariant out + (Separator(i, |v.items|) + CanonicalItems(v, i)) == total
    {
      var item := CanonicalJsonString(v.items[i]);
      ItemsSplit(v, i);
      PushKeepsTotal(out, Separator(i, |v.items|), item, Separator(i + 1, |v.items|) + CanonicalItems(v, i + 1), total);
      out := out + Separator(i, |v.items|) + item;
    }
    out := out + "]";
  }

  method PrintObject(v: Value) returns (out: string)
    requires v.Object?
    ensures out == Canonical(v)
    decreases v, 0, 1
  {
    var listing := ListKeys(v.members.Keys);
    var keys := SortByJsUtf16(listing);
    assert Elements(listing) == v.members.Keys;
    var inner := PrintMembers(v, keys);
    out := "{" + inner + "}";
  }

  method PrintMembers(v: Value, keys: seq<string>) returns (out: string)
    requires v.Object? && forall k :: k in keys ==> k in v.members
    ensures out == CanonicalMembers(v, keys)
    decreases v, 0, 0
  {
    out := "";
    ghost var total := CanonicalMembers(v, keys);
    assert keys[0..] == keys;
    for i := 0 to |keys|
      invariant out + (Separator(i, |keys|) + CanonicalMembers(v, keys[i..])) == total
    {
      MembersSplit(v, keys, i);
      var member := CanonicalJsonString(v.members[keys[i]]);
      var text := Quote(keys[i]) + ":" + member;
      PushKeepsTotal(out, Separator(i, |keys|), text,
                     Separator(i + 1, |keys|) + CanonicalMembers(v, keys[i + 1..]), total);
      out := out + Separator(i, |keys|) + text;
    }
    assert keys[|keys|..] == [];
  }

  /** `map.keys().collect()`: some listing of the keys, each once. */
  method ListKeys(keys: set<string>) returns (listing: seq<string>)
    ensures Distinct(listing) && Elements(listing) == keys
  {
    listing := [];
    var left := keys;
    while left != {}
      invariant Distinct(listing) && Elements(listing) !! left && Elements(listing) + left == keys
      decreases left
    {
      var k :| k in left;
      assert k !in Elements(listing);
      listing := listing + [k];
      left := left - {k};
    }
  }

  /** `stable_json_string`: nothing is printed for a value that fails strict validation. */
  method StableJsonString(v: Value) returns (out: Option<string>)
    ensures out == if Strict(v) then Some(Canonical(v)) else None
  {
    if Strict(v) {
      var text := CanonicalJsonString(v);
      out := Some(text);
    } else {
      out := None;
    }
  }

  /** `strict_json_decode`, with the grammar standing for serde_json's parser. */
  method StrictJsonDecode(text: string) returns (decoded: Option<Value>)
    ensures decoded == StrictDecode(text)
  {
    var scanned := JsonScanner.AssertNoDuplicateKeys(text);
    if !scanned { return None; }
    decoded := ValueOf(ParseDocument(text).value);
    if decoded.None? { return None; }
    var canonical := StableJsonString(decoded.value);
    if canonical != Some(text) { return None; }
  }
}
