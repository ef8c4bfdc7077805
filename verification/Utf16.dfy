/** The key order of canonical JSON: strings compared by UTF-16 code units (json.rs, `cmp_js_utf16`). */
module Utf16 {
  import opened Prelude

  /** One scalar value as one code unit, or as a surrogate pair above U+FFFF. */
  function Units(c: char): (u: seq<nat>)
    ensures 1 <= |u| <= 2
    ensures |u| == 2 <==> 0xD800 <= u[0] < 0xDC00
  {
    var n := c as int;
    if n < 0x10000 then [n]
    else [0xD800 + (n - 0x10000) / 0x400, 0xDC00 + (n - 0x10000) % 0x400]
  }

  function Encode(s: string): (u: seq<nat>)
    ensures s == "" <==> u == []
  {
    if s == "" then [] else Units(s[0]) + Encode(s[1..])
  }

  lemma UnitsPrefixFree(a: char, b: char, s: seq<nat>, t: seq<nat>)
    requires Units(a) + s == Units(b) + t
    ensures a == b && s == t
  {
    var l, r := Units(a) + s, Units(b) + t;
    assert l[0] == Units(a)[0] && r[0] == Units(b)[0];
    assert |Units(a)| == |Units(b)|;
    assert l[..|Units(a)|] == Units(a) && r[..|Units(b)|] == Units(b);
    assert l[|Units(a)|..] == s && r[|Units(b)|..] == t;
    var m, n := a as int, b as int;
    if m >= 0x10000 {
      assert (m - 0x10000) / 0x400 == (n - 0x10000) / 0x400;
      assert (m - 0x10000) % 0x400 == (n - 0x10000) % 0x400;
    }
    assert m == n;
  }

  /** Distinct strings have distinct code-unit sequences, so the order below has no ties. */
  lemma {:induction false} EncodeInjective(a: string, b: string)
    requires Encode(a) == Encode(b)
    ensures a == b
  {
    if a == "" || b == "" {
    } else {
      UnitsPrefixFree(a[0], b[0], Encode(a[1..]), Encode(b[1..]));
      EncodeInjective(a[1..], b[1..]);
      assert a == [a[0]] + a[1..] && b == [b[0]] + b[1..];
    }
  }

  /** Lexicographic order of unit sequences, shorter first. */
  predicate LexLess(a: seq<nat>, b: seq<nat>) {
    b != [] && (a == [] || a[0] < b[0] || (a[0] == b[0] && LexLess(a[1..], b[1..])))
  }

  predicate JsLess(a: string, b: string) {
    LexLess(Encode(a), Encode(b))
  }

  lemma {:induction false} LexIrreflexive(a: seq<nat>)
    ensures !LexLess(a, a)
  {
    if a != [] { LexIrreflexive(a[1..]); }
  }

  lemma {:induction false} LexTransitive(a: seq<nat>, b: seq<nat>, c: seq<nat>)
    requires LexLess(a, b) && LexLess(b, c)
    ensures LexLess(a, c)
  {
    if a != [] && a[0] == b[0] == c[0] { LexTransitive(a[1..], b[1..], c[1..]); }
  }

  lemma {:induction false} LexTotal(a: seq<nat>, b: seq<nat>)
    ensures a == b || LexLess(a, b) || LexLess(b, a)
  {
    if a != [] && b != [] && a[0] == b[0] {
      LexTotal(a[1..], b[1..]);
      assert a == [a[0]] + a[1..] && b == [b[0]] + b[1..];
    }
  }

  /** `JsLess` is a strict total order on strings. */
  lemma JsLessIsStrictTotalOrder(a: string, b: string, c: string)
    ensures !JsLess(a, a)
    ensures JsLess(a, b) && JsLess(b, c) ==> JsLess(a, c)
    ensures a == b || JsLess(a, b) || JsLess(b, a)
    ensures JsLess(a, b) ==> !JsLess(b, a)
  {
    LexIrreflexive(Encode(a));
    if JsLess(a, b) && JsLess(b, c) { LexTransitive(Encode(a), Encode(b), Encode(c)); }
    if JsLess(a, b) && JsLess(b, a) { LexTransitive(Encode(a), Encode(b), Encode(a)); }
    LexTotal(Encode(a), Encode(b));
    if Encode(a) == Encode(b) { EncodeInjective(a, b); }
  }

  // ---- the order by positions ----

  /** The units by value: one for a scalar value below U+10000, else a high and a low surrogate. */
  lemma UnitsOf(c: char)
    ensures var u, n := Units(c), c as int;
            if n < 0x10000 then u == [n]
            else |u| == 2 && 0xD800 <= u[0] < 0xDC00 && 0xDC00 <= u[1] < 0xE000
                 && 0x10000 + (u[0] - 0xD800) * 0x400 + (u[1] - 0xDC00) == n
  {
  }

  lemma {:induction false} EncodeConcat(a: string, b: string)
    ensures Encode(a + b) == Encode(a) + Encode(b)
  {
    if a == "" {
      assert a + b == b;
    } else {
      assert (a + b)[0] == a[0] && (a + b)[1..] == a[1..] + b;
      EncodeConcat(a[1..], b);
    }
  }

  /** The units of a string are those of its characters, one after the other. */
  lemma EncodeSnoc(s: string, c: char)
    ensures Encode("") == [] && Encode(s + [c]) == Encode(s) + Units(c)
  {
    EncodeConcat(s, [c]);
    assert Encode([c]) == Units(c) + Encode([c][1..]);
  }

  /** Alike up to `k`, where `u` ends before `v` does or has the smaller unit. */
  predicate FirstAt(u: seq<nat>, v: seq<nat>, k: nat) {
    && k <= |u| && k < |v| && u[..k] == v[..k]
    && (k == |u| || u[k] < v[k])
  }

  lemma {:induction false} LexLessAt(u: seq<nat>, v: seq<nat>) returns (k: nat)
    requires LexLess(u, v)
    ensures FirstAt(u, v, k)
  {
    if u == [] || u[0] < v[0] {
      k := 0;
    } else {
      var j := LexLessAt(u[1..], v[1..]);
      k := j + 1;
      assert u[..k] == [u[0]] + u[1..][..j] && v[..k] == [v[0]] + v[1..][..j];
    }
  }

  lemma {:induction false} LexLessFrom(u: seq<nat>, v: seq<nat>, k: nat)
    requires FirstAt(u, v, k)
    ensures LexLess(u, v)
  {
    if k > 0 {
      assert u[0] == u[..k][0] == v[..k][0] == v[0];
      assert u[1..][..k - 1] == u[..k][1..] && v[1..][..k - 1] == v[..k][1..];
      LexLessFrom(u[1..], v[1..], k - 1);
    }
  }

  ghost predicate ComesFirst(u: seq<nat>, v: seq<nat>) {
    exists k: nat :: FirstAt(u, v, k)
  }

  lemma LexLessIff(u: seq<nat>, v: seq<nat>)
    ensures LexLess(u, v) <==> ComesFirst(u, v)
  {
    if LexLess(u, v) { var k := LexLessAt(u, v); }
    forall k: nat | FirstAt(u, v, k) ensures LexLess(u, v) { LexLessFrom(u, v, k); }
  }

  /** The first difference decides, and a string comes before its proper extensions. */
  lemma JsLessIff(a: string, b: string)
    ensures JsLess(a, b) <==> ComesFirst(Encode(a), Encode(b))
  {
    LexLessIff(Encode(a), Encode(b));
  }

  ghost predicate StrictlySorted(ks: seq<string>) {
    forall i, j :: 0 <= i < j < |ks| ==> JsLess(ks[i], ks[j])
  }

  /** A set of keys has exactly one strictly sorted listing. */
  lemma {:induction false} SortedListingUnique(a: seq<string>, b: seq<string>)
    requires StrictlySorted(a) && StrictlySorted(b)
    requires forall k :: k in a <==> k in b
    ensures a == b
  {
    assert |b| > 0 ==> b[0] in a;
    if a != [] {
      assert a[0] in b;
      var i :| 0 <= i < |b| && b[i] == a[0];
      var j :| 0 <= j < |a| && a[j] == b[0];
      JsLessIsStrictTotalOrder(a[0], b[0], a[0]);
      assert a[0] == b[0];
      forall k ensures k in a[1..] <==> k in b[1..] {
        JsLessIsStrictTotalOrder(k, k, k);
        if k in a[1..] { assert JsLess(a[0], k); assert k in b; }
        if k in b[1..] { assert JsLess(b[0], k); assert k in a; }
      }
      SortedListingUnique(a[1..], b[1..]);
      assert a == [a[0]] + a[1..] && b == [b[0]] + b[1..];
    }
  }

  /** Places `k` before the first larger key. */
  function Insert(k: string, ks: seq<string>): (r: seq<string>)
    ensures forall x :: x in r <==> x == k || x in ks
    ensures |r| == |ks| + 1
  {
    if ks == [] then [k]
    else if JsLess(k, ks[0]) then [k] + ks
    else
      assert ks == [ks[0]] + ks[1..];
      [ks[0]] + Insert(k, ks[1..])
  }

  lemma {:induction false} InsertKeepsSorted(k: string, ks: seq<string>)
    requires StrictlySorted(ks) && k !in ks
    ensures StrictlySorted(Insert(k, ks))
  {
    if ks == [] {
    } else if JsLess(k, ks[0]) {
      forall j | 0 <= j < |ks| ensures JsLess(k, ks[j]) {
        if j > 0 { JsLessIsStrictTotalOrder(k, ks[0], ks[j]); }
      }
    } else {
      JsLessIsStrictTotalOrder(k, ks[0], k);
      InsertKeepsSorted(k, ks[1..]);
      var t := Insert(k, ks[1..]);
      forall j | 0 <= j < |t| ensures JsLess(ks[0], t[j]) {
        assert t[j] in t;
        assert t[j] == k || t[j] in ks[1..];
      }
    }
  }

  /** The sorted listing of a set of keys; which element `:|` picks does not matter. */
  ghost function SortedKeys(ks: set<string>): (r: seq<string>)
    ensures StrictlySorted(r)
    ensures forall k :: k in r <==> k in ks
    ensures |r| == |ks|
  {
    if ks == {} then []
    else
      var k :| k in ks;
      InsertKeepsSorted(k, SortedKeys(ks - {k}));
      Insert(k, SortedKeys(ks - {k}))
  }

  /** `keys.sort_by(cmp_js_utf16)`: any listing of a set sorts to the set's one sorted listing. */
  method SortByJsUtf16(keys: seq<string>) returns (sorted: seq<string>)
    requires Distinct(keys)
    ensures sorted == SortedKeys(Elements(keys))
  {
    sorted := [];
    for i := 0 to |keys|
      invariant StrictlySorted(sorted)
      invariant forall k :: k in sorted <==> k in keys[..i]
    {
      assert keys[i] !in keys[..i];
      InsertKeepsSorted(keys[i], sorted);
      sorted := Insert(keys[i], sorted);
      assert keys[..i + 1] == keys[..i] + [keys[i]];
    }
    assert keys[..|keys|] == keys;
    SortedListingUnique(sorted, SortedKeys(Elements(keys)));
  }

  /** The order is not code-point order: a supplementary character sorts before U+FF61. */
  lemma NotCodePointOrder()
    ensures JsLess("\U{1F600}", "\U{FF61}") && 0x1F600 > 0xFF61
  {
    var a, b := "\U{1F600}", "\U{FF61}";
    assert Encode(a) == Units(a[0]) + Encode(a[1..]);
    assert Encode(b) == Units(b[0]) + Encode(b[1..]);
    assert Encode(a)[0] == Units(a[0])[0] < 0xDC00;
    assert Encode(b)[0] == 0xFF61;
  }
}
