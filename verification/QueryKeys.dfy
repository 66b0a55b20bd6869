/** The query part of a cache key (internal/cache/keys.go): parameters sorted by name, and the
    values of each name sorted, so that the order a client writes them in does not matter.
  */
module QueryKeys {
  import opened Options
  import opened Text

  // ---------- sort.Strings ----------

  /** Byte-wise order of strings. */
  predicate Le(a: string, b: string) {
    a == "" || (b != "" && (a[0] < b[0] || (a[0] == b[0] && Le(a[1..], b[1..]))))
  }

  lemma {:induction false} LeTotal(a: string, b: string)
    ensures Le(a, b) || Le(b, a)
    ensures Le(a, b) && Le(b, a) ==> a == b
  {
    if a != "" && b != "" && a[0] == b[0] {
      LeTotal(a[1..], b[1..]);
      assert a == [a[0]] + a[1..] && b == [b[0]] + b[1..];
    }
  }

  lemma {:induction false} LeTransitive(a: string, b: string, c: string)
    requires Le(a, b) && Le(b, c)
    ensures Le(a, c)
  {
    if a != "" && a[0] == b[0] == c[0] {
      LeTransitive(a[1..], b[1..], c[1..]);
    }
  }

  /** Le is the order of sort.Strings: at the first place the two differ, `a` has ended or has the
      smaller character. */
  lemma {:induction false} LeIsBytewise(a: string, b: string, i: nat)
    requires i <= |a| && i <= |b| && a[..i] == b[..i]
    ensures i < |a| && i < |b| && a[i] < b[i] ==> Le(a, b) && !Le(b, a)
    ensures i == |a| < |b| ==> Le(a, b) && !Le(b, a)
  {
    if i > 0 {
      assert a[0] == a[..i][0] && b[0] == b[..i][0];
      assert a[1..][..i - 1] == a[..i][1..] && b[1..][..i - 1] == b[..i][1..];
      LeIsBytewise(a[1..], b[1..], i - 1);
    }
  }

  predicate Sorted(s: seq<string>) {
    forall i, j :: 0 <= i < j < |s| ==> Le(s[i], s[j])
  }

  function Insert(x: string, s: seq<string>): seq<string> {
    if s == [] then [x] else if Le(x, s[0]) then [x] + s else [s[0]] + Insert(x, s[1..])
  }

  function SortStrings(s: seq<string>): seq<string> {
    if s == [] then [] else Insert(s[0], SortStrings(s[1..]))
  }

  lemma {:induction false} InsertKeeps(x: string, s: seq<string>)
    requires Sorted(s)
    ensures Sorted(Insert(x, s)) && multiset(Insert(x, s)) == multiset(s) + multiset{x}
  {
    if s == [] {
    } else if Le(x, s[0]) {
      forall i | 0 <= i < |s|
        ensures Le(x, s[i])
      {
        if i > 0 { LeTransitive(x, s[0], s[i]); }
      }
    } else {
      LeTotal(x, s[0]);
      InsertKeeps(x, s[1..]);
      var t := Insert(x, s[1..]);
      assert s == [s[0]] + s[1..];
      forall i | 0 <= i < |t|
        ensures Le(s[0], t[i])
      {
        assert t[i] in multiset(t);
        if t[i] != x {
          assert t[i] in s[1..];
        }
      }
    }
  }

  lemma {:induction false} SortSorts(s: seq<string>)
    ensures Sorted(SortStrings(s)) && multiset(SortStrings(s)) == multiset(s)
  {
    if s != [] {
      SortSorts(s[1..]);
      InsertKeeps(s[0], SortStrings(s[1..]));
      assert s == [s[0]] + s[1..];
    }
  }

  lemma HeadsAgree(a: seq<string>, b: seq<string>)
    requires a != [] && b != [] && Sorted(a) && Sorted(b) && multiset(a) == multiset(b)
    ensures a[0] == b[0] && multiset(a[1..]) == multiset(b[1..])
  {
    HeadIsLeast(a, b);
    HeadIsLeast(b, a);
    LeTotal(a[0], b[0]);
    assert a == [a[0]] + a[1..] && b == [b[0]] + b[1..];
    assert multiset(a[1..]) == multiset(a) - multiset{a[0]};
  }

  /** A sorted list is determined by its elements. */
  lemma {:induction false} SortedIsUnique(a: seq<string>, b: seq<string>)
    requires Sorted(a) && Sorted(b) && multiset(a) == multiset(b)
    ensures a == b
  {
    assert |multiset(a)| == |a| && |multiset(b)| == |b|;
    if a != [] {
      HeadsAgree(a, b);
      SortedIsUnique(a[1..], b[1..]);
    }
  }

  lemma HeadIsLeast(a: seq<string>, b: seq<string>)
    requires a != [] && b != [] && Sorted(a) && multiset(a) == multiset(b)
    ensures Le(a[0], b[0])
  {
    assert b[0] in multiset(b);
    assert b[0] in a;
    LeTotal(a[0], a[0]);
  }

  // ---------- SortQueryParams ----------

  /** The parsed query: the values of each name in the order they came. */
  type Params = map<string, seq<string>>

  function Prefixed(name: string, vals: seq<string>): seq<string> {
    if vals == [] then [] else [name + "=" + vals[0]] + Prefixed(name, vals[1..])
  }

  function Parts(names: seq<string>, params: Params): seq<string>
    requires forall i :: 0 <= i < |names| ==> names[i] in params
  {
    if names == [] then []
    else Prefixed(names[0], SortStrings(params[names[0]])) + Parts(names[1..], params)
  }

  predicate Lists(names: seq<string>, params: Params) {
    && (forall i :: 0 <= i < |names| ==> names[i] in params)
    && (forall k :: k in params ==> k in names)
    && (forall i, j :: 0 <= i < j < |names| ==> names[i] != names[j])
  }

  /** The sorted parameter names. */
  predicate SortedNames(names: seq<string>, params: Params) {
    Lists(names, params) && Sorted(names)
  }

  /** The text of a query: its names in their one sorted order, each with its sorted values. */
  ghost predicate IsTextOf(query: string, params: Params) {
    && (exists names :: SortedNames(names, params))
    && (forall names :: SortedNames(names, params) ==> query == Join(Parts(names, params), '&'))
  }

  /** SortQueryParams: an empty query, and one url.ParseQuery refuses, is left as it is; otherwise
      collect the names in whatever order the map gives them, sort, and append name=value for the
      sorted values of each. */
  method SortQueryParams(raw: string, parse: string -> Option<Params>) returns (query: string)
    ensures raw == "" || parse(raw).None? ==> query == raw
    ensures raw != "" && parse(raw).Some? ==> IsTextOf(query, parse(raw).value)
  {
    if raw == "" {
      return "";
    }
    var parsed := parse(raw);
    if parsed.None? {
      return raw;
    }
    query := SortParams(parsed.value);
  }

  method SortParams(params: Params) returns (query: string)
    ensures IsTextOf(query, params)
  {
    var names := SortNames(params);
    var parts := AppendParts(names, params);
    query := Join(parts, '&');
    OneOrder(names, params);
  }

  method SortNames(params: Params) returns (names: seq<string>)
    ensures SortedNames(names, params)
  {
    var keys := CollectNames(params);
    SortSorts(keys);
    SortedLists(keys, params);
    names := SortStrings(keys);
  }

  /** The names of a query can be sorted in one way only. */
  lemma OneOrder(names: seq<string>, params: Params)
    requires SortedNames(names, params)
    ensures forall others :: SortedNames(others, params) ==> others == names
  {
    forall others | SortedNames(others, params)
      ensures others == names
    {
      SameNames(others, params, names, params);
    }
  }

  /** The outer loop, over the names. */
  method AppendParts(names: seq<string>, params: Params) returns (parts: seq<string>)
    requires forall i :: 0 <= i < |names| ==> names[i] in params
    ensures parts == Parts(names, params)
  {
    parts := [];
    for i := 0 to |names|
      invariant parts + Parts(names[i..], params) == Parts(names, params)
    {
      PartsStep(names, params, i, parts);
      var group := AppendValues(names[i], SortStrings(params[names[i]]));
      parts := parts + group;
    }
  }

  lemma PartsStep(names: seq<string>, params: Params, i: nat, done: seq<string>)
    requires i < |names| && forall i :: 0 <= i < |names| ==> names[i] in params
    ensures done + Parts(names[i..], params)
         == (done + Prefixed(names[i], SortStrings(params[names[i]]))) + Parts(names[i + 1..], params)
  {
    assert names[i..][1..] == names[i + 1..];
  }

  /** The inner loop, over the values of one name. */
  method AppendValues(name: string, vals: seq<string>) returns (group: seq<string>)
    ensures group == Prefixed(name, vals)
  {
    group := [];
    for j := 0 to |vals|
      invariant group + Prefixed(name, vals[j..]) == Prefixed(name, vals)
    {
      assert vals[j..][1..] == vals[j + 1..];
      group := group + [name + "=" + vals[j]];
    }
  }

  method CollectNames(params: Params) returns (keys: seq<string>)
    ensures Lists(keys, params)
  {
    keys := [];
    var todo := params.Keys;
    while todo != {}
      invariant todo <= params.Keys
      invariant forall i :: 0 <= i < |keys| ==> keys[i] in params && keys[i] !in todo
      invariant forall k :: k in params ==> k in todo || k in keys
      invariant forall i, j :: 0 <= i < j < |keys| ==> keys[i] != keys[j]
      decreases todo
    {
      var k :| k in todo;
      keys := keys + [k];
      todo := todo - {k};
    }
  }

  lemma {:induction false} CountDistinct(s: seq<string>, k: string)
    requires forall i, j :: 0 <= i < j < |s| ==> s[i] != s[j]
    ensures multiset(s)[k] == if k in s then 1 else 0
  {
    if s != [] {
      CountDistinct(s[1..], k);
      assert s == [s[0]] + s[1..];
    }
  }

  lemma SameElements(a: seq<string>, b: seq<string>)
    requires forall i, j :: 0 <= i < j < |a| ==> a[i] != a[j]
    requires forall i, j :: 0 <= i < j < |b| ==> b[i] != b[j]
    requires forall k :: k in a <==> k in b
    ensures multiset(a) == multiset(b)
  {
    forall k
      ensures multiset(a)[k] == multiset(b)[k]
    {
      CountDistinct(a, k);
      CountDistinct(b, k);
    }
  }

  lemma SortedLists(keys: seq<string>, params: Params)
    requires Lists(keys, params)
    ensures Lists(SortStrings(keys), params)
  {
    SortSorts(keys);
    var s := SortStrings(keys);
    forall k
      ensures k in s <==> k in keys
    {
      assert k in multiset(s) <==> k in multiset(keys);
    }
    forall i, j | 0 <= i < j < |s|
      ensures s[i] != s[j]
    {
      CountDistinct(keys, s[i]);
      if s[i] == s[j] {
        OccursTwice(s, i, j);
      }
    }
    forall i | 0 <= i < |s|
      ensures s[i] in params
    {
      assert s[i] in s;
      assert s[i] in keys;
    }
  }

  // ---------- when two queries share a key ----------

  /** The same values for the same names, each as often, in any order. */
  ghost predicate SameParams(p: Params, q: Params) {
    p.Keys == q.Keys && forall k :: k in p ==> multiset(p[k]) == multiset(q[k])
  }

  /** No separator where it would be ambiguous; every listed name has a value. */
  ghost predicate Unambiguous(p: Params) {
    forall k :: k in p ==>
      && p[k] != [] && '=' !in k && '&' !in k
      && forall v :: v in p[k] ==> '&' !in v
  }

  lemma SameNames(np: seq<string>, p: Params, nq: seq<string>, q: Params)
    requires SortedNames(np, p) && SortedNames(nq, q) && p.Keys == q.Keys
    ensures np == nq
  {
    forall k
      ensures k in np <==> k in nq
    {
      assert k in p <==> k in q;
    }
    SameElements(np, nq);
    SortedIsUnique(np, nq);
  }

  lemma {:induction false} SameParts(names: seq<string>, p: Params, q: Params)
    requires SameParams(p, q) && forall i :: 0 <= i < |names| ==> names[i] in p && names[i] in q
    ensures Parts(names, p) == Parts(names, q)
  {
    if names != [] {
      SortSorts(p[names[0]]);
      SortSorts(q[names[0]]);
      SortedIsUnique(SortStrings(p[names[0]]), SortStrings(q[names[0]]));
      SameParts(names[1..], p, q);
    }
  }

  lemma {:induction false} PrefixedCount(name: string, vals: seq<string>, k: string, v: string)
    requires '=' !in name && '=' !in k
    ensures multiset(Prefixed(name, vals))[k + "=" + v] == if name == k then multiset(vals)[v] else 0
  {
    if vals != [] {
      PrefixedCount(name, vals[1..], k, v);
      assert vals == [vals[0]] + vals[1..];
      if name + "=" + vals[0] == k + "=" + v {
        FirstField(name, vals[0], k, v, '=');
      }
    }
  }

  lemma {:induction false} PartsCount(names: seq<string>, p: Params, k: string, v: string)
    requires forall i :: 0 <= i < |names| ==> names[i] in p && '=' !in names[i]
    requires forall i, j :: 0 <= i < j < |names| ==> names[i] != names[j]
    requires '=' !in k
    ensures multiset(Parts(names, p))[k + "=" + v] == if k in names then multiset(p[k])[v] else 0
  {
    if names != [] {
      PartsCount(names[1..], p, k, v);
      PrefixedCount(names[0], SortStrings(p[names[0]]), k, v);
      SortSorts(p[names[0]]);
      assert names == [names[0]] + names[1..];
    }
  }

  /** Every part is name=value with no ampersand in it. */
  predicate PartShaped(s: string) { '&' !in s && '=' in s }

  lemma {:induction false} PrefixedShape(name: string, vals: seq<string>)
    requires '&' !in name && forall v :: v in vals ==> '&' !in v
    ensures forall s :: s in Prefixed(name, vals) ==> PartShaped(s)
  {
    if vals != [] {
      PrefixedShape(name, vals[1..]);
      var s := name + "=" + vals[0];
      assert s[|name|] == '=';
      assert vals[0] in vals;
    }
  }

  lemma {:induction false} PartsShape(names: seq<string>, p: Params)
    requires Unambiguous(p) && forall i :: 0 <= i < |names| ==> names[i] in p
    ensures forall s :: s in Parts(names, p) ==> PartShaped(s)
  {
    if names != [] {
      var vals := SortStrings(p[names[0]]);
      SortSorts(p[names[0]]);
      forall v | v in vals
        ensures '&' !in v
      {
        assert v in multiset(vals);
        assert v in p[names[0]];
      }
      PrefixedShape(names[0], vals);
      PartsShape(names[1..], p);
    }
  }

  lemma {:induction false} JoinIsInjective(a: seq<string>, b: seq<string>)
    requires (forall s :: s in a ==> PartShaped(s)) && (forall s :: s in b ==> PartShaped(s))
    requires Join(a, '&') == Join(b, '&')
    ensures a == b
    decreases |a|
  {
    JoinShape(a);
    JoinShape(b);
    if |a| > 1 && |b| > 1 {
      assert a[0] in a && b[0] in b;
      FirstField(a[0], Join(a[1..], '&'), b[0], Join(b[1..], '&'), '&');
      JoinIsInjective(a[1..], b[1..]);
    } else if |a| == 1 {
      assert a[0] in a;
    }
  }

  /** Which of none, one and many parts a joined text has can be read off it. */
  lemma JoinShape(a: seq<string>)
    requires forall s :: s in a ==> PartShaped(s)
    ensures a == [] <==> Join(a, '&') == ""
    ensures |a| > 1 <==> '&' in Join(a, '&')
  {
    if |a| > 0 {
      assert a[0] in a;
      if |a| > 1 {
        assert Join(a, '&')[|a[0]|] == '&';
      }
    }
  }

  lemma EqualCounts(p: Params, q: Params)
    requires Unambiguous(p) && Unambiguous(q)
    requires forall k, v :: '=' !in k ==>
               (if k in p then multiset(p[k])[v] else 0) == (if k in q then multiset(q[k])[v] else 0)
    ensures SameParams(p, q)
  {
    forall k | k in p
      ensures k in q
    {
      assert p[k][0] in multiset(p[k]);
    }
    forall k | k in q
      ensures k in p
    {
      assert q[k][0] in multiset(q[k]);
    }
    forall k | k in p
      ensures multiset(p[k]) == multiset(q[k])
    {
      assert forall v :: multiset(p[k])[v] == multiset(q[k])[v];
    }
  }

  /** Two queries give the same key text if and only if they hold the same parameters, in whatever
      order, given names and values without the separators they are joined by. */
  lemma QueryKeyIsExact(p: Params, np: seq<string>, q: Params, nq: seq<string>)
    requires SortedNames(np, p) && SortedNames(nq, q) && Unambiguous(p) && Unambiguous(q)
    ensures Join(Parts(np, p), '&') == Join(Parts(nq, q), '&') <==> SameParams(p, q)
  {
    if SameParams(p, q) {
      SameNames(np, p, nq, q);
      SameParts(np, p, q);
    }
    if Join(Parts(np, p), '&') == Join(Parts(nq, q), '&') {
      PartsShape(np, p);
      PartsShape(nq, q);
      JoinIsInjective(Parts(np, p), Parts(nq, q));
      forall k, v | '=' !in k
        ensures (if k in p then multiset(p[k])[v] else 0) == (if k in q then multiset(q[k])[v] else 0)
      {
        PartsCount(np, p, k, v);
        PartsCount(nq, q, k, v);
      }
      EqualCounts(p, q);
    }
  }

  /** With a separator inside a value the keys can collide: a=1&b=2 as one value of `a`. */
  lemma SeparatorInValueCollides()
    ensures Join(Parts(["a"], map["a" := ["1&b=2"]]), '&')
         == Join(Parts(["a", "b"], map["a" := ["1"], "b" := ["2"]]), '&')
  {
    var p: Params, q: Params := map["a" := ["1&b=2"]], map["a" := ["1"], "b" := ["2"]];
    OneValue("a", "1&b=2", [], p);
    OneValue("a", "1", ["b"], q);
    OneValue("b", "2", [], q);
    assert ["a"] + [] == ["a"] && ["b"] + [] == ["b"] && ["a"] + ["b"] == ["a", "b"];
    assert "a" + "=" + "1&b=2" == "a=1&b=2" && "a" + "=" + "1" == "a=1" && "b" + "=" + "2" == "b=2";
    assert Parts(["a"], p) == ["a=1&b=2"] && Parts(["b"], q) == ["b=2"] && Parts(["a", "b"], q) == ["a=1", "b=2"];
    assert ["a=1", "b=2"][1..] == ["b=2"];
    assert Join(["a=1", "b=2"], '&') == "a=1&b=2";
  }

  lemma OneValue(name: string, v: string, rest: seq<string>, p: Params)
    requires name in p && p[name] == [v] && forall i :: 0 <= i < |rest| ==> rest[i] in p
    ensures Parts([name] + rest, p) == [name + "=" + v] + Parts(rest, p)
  {
    assert ([name] + rest)[1..] == rest;
    assert [v][1..] == [] && SortStrings([v]) == [v];
    assert Prefixed(name, [v]) == [name + "=" + v];
  }
}
