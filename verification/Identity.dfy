/** Tuple keys (identity.rs): a list of strings encoded as a JSON array of strings. */
module Identity {
  import opened Prelude
  import opened JsonGrammar
  import opened Json
  import opened JsonRoundTrip

  function TupleKey(parts: seq<string>): string {
    "[" + QuoteAll(parts) + "]"
  }

  function QuoteAll(parts: seq<string>): string {
    if parts == [] then ""
    else Quote(parts[0]) + (if |parts| == 1 then "" else "," + QuoteAll(parts[1..]))
  }

  function CompoundTupleKey(prefix: string, parts: seq<string>): string {
    prefix + ":" + TupleKey(parts)
  }

  /** Decoding as a list of strings; anything else is refused. */
  function ParseTupleKey(text: string): Option<seq<string>> {
    match ParseDocument(text)
    case Some(RArray(items)) => StringsOf(items)
    case _ => None
  }

  function StringsOf(items: seq<Raw>): Option<seq<string>> {
    if items == [] then Some([])
    else match items[0]
      case RString(s) => (match StringsOf(items[1..]) case None => None case Some(more) => Some([s] + more))
      case _ => None
  }

  function StrItems(parts: seq<string>): (vs: seq<Value>)
    ensures |vs| == |parts| && forall i :: 0 <= i < |parts| ==> vs[i] == Str(parts[i])
  {
    seq(|parts|, i requires 0 <= i < |parts| => Str(parts[i]))
  }

  lemma {:induction false} QuoteAllIsCanonical(parts: seq<string>, i: nat)
    requires i <= |parts|
    ensures CanonicalItems(Array(StrItems(parts)), i) == QuoteAll(parts[i..])
    decreases |parts| - i
  {
    if i < |parts| {
      QuoteAllIsCanonical(parts, i + 1);
      assert parts[i..][1..] == parts[i + 1..];
    }
  }

  /** A tuple key is the canonical JSON of its list of strings. */
  lemma TupleKeyIsCanonicalJson(parts: seq<string>)
    ensures TupleKey(parts) == Canonical(Array(StrItems(parts)))
  {
    QuoteAllIsCanonical(parts, 0);
    assert parts[0..] == parts;
  }

  /** Different lists of strings have different keys, whatever delimiters the strings contain. */
  lemma TupleKeyInjective(a: seq<string>, b: seq<string>)
    requires TupleKey(a) == TupleKey(b)
    ensures a == b
  {
    TupleKeyIsCanonicalJson(a);
    TupleKeyIsCanonicalJson(b);
    CanonicalInjective(Array(StrItems(a)), Array(StrItems(b)));
    assert forall i :: 0 <= i < |a| ==> StrItems(a)[i] == Str(a[i]) == StrItems(b)[i] == Str(b[i]);
  }

  lemma CompoundTupleKeyInjective(prefix: string, a: seq<string>, b: seq<string>)
    requires CompoundTupleKey(prefix, a) == CompoundTupleKey(prefix, b)
    ensures a == b
  {
    var p := prefix + ":";
    assert (p + TupleKey(a))[|p|..] == TupleKey(a);
    assert (p + TupleKey(b))[|p|..] == TupleKey(b);
    TupleKeyInjective(a, b);
  }

  lemma {:induction false} StringsOfRawItems(v: Value, parts: seq<string>, i: nat)
    requires v == Array(StrItems(parts)) && i <= |parts|
    ensures StringsOf(RawItems(v, i)) == Some(parts[i..])
    decreases |parts| - i
  {
    if i == |parts| {
      assert parts[i..] == [] && RawItems(v, i) == [];
    } else {
      StringsOfRawItems(v, parts, i + 1);
      var r := RawItems(v, i);
      assert r[0] == RString(parts[i]) && r[1..] == RawItems(v, i + 1);
      assert parts[i..] == [parts[i]] + parts[i + 1..];
    }
  }

  /** The coordinates of a key can be read back from it. */
  lemma TupleKeyRoundTrip(parts: seq<string>)
    ensures ParseTupleKey(TupleKey(parts)) == Some(parts)
  {
    var v := Array(StrItems(parts));
    TupleKeyIsCanonicalJson(parts);
    DocumentOfCanonical(v);
    StringsOfRawItems(v, parts, 0);
    assert parts[0..] == parts;
  }
}
