/** Cache keys of POST requests (internal/cache/postcache.go): the body is normalised by dropping
    the caller's tracking fields, then hashed.

    A body is modelled as the normaliser sees it. An object is taken apart into its fields; any
    other value, arrays included, is only ever copied as text, so it is a leaf.
  */
module PostKeys {
  import Text

  datatype Body =
    | Obj(fields: map<string, Body>)
    | Leaf(text: string)

  /** postCacheNonIdentityFields. */
  predicate NonIdentity(name: string) {
    name == "Identifier" || name == "clientReferenceDetails"
  }

  /** The body with the non-identity fields gone from every object reachable through objects. */
  function Strip(b: Body): Body {
    match b
    case Leaf(_) => b
    case Obj(fields) => Obj(map k | k in fields && !NonIdentity(k) :: Strip(fields[k]))
  }

  /** The keys outside `todo` are done: deleted, or rewritten to their stripped value. */
  ghost predicate Partly(fields: map<string, Body>, obj: map<string, Body>, todo: set<string>) {
    && (forall k :: k in obj <==> k in fields && (k in todo || !NonIdentity(k)))
    && (forall k :: k in obj ==> obj[k] == if k in todo then fields[k] else Strip(fields[k]))
  }

  lemma PartlyDone(fields: map<string, Body>, obj: map<string, Body>)
    requires Partly(fields, obj, {})
    ensures Obj(obj) == Strip(Obj(fields))
  {
    assert obj == map k | k in fields && !NonIdentity(k) :: Strip(fields[k]);
  }

  /** stripNonIdentityFields: goes over the map in whatever order, deleting and rewriting it. */
  method StripNonIdentityFields(fields: map<string, Body>) returns (obj: map<string, Body>)
    ensures Obj(obj) == Strip(Obj(fields))
    decreases Obj(fields)
  {
    obj := fields;
    var todo := fields.Keys;
    while todo != {}
      invariant todo <= fields.Keys && Partly(fields, obj, todo)
      decreases todo
    {
      var key :| key in todo;
      var before := obj;
      if NonIdentity(key) {
        obj := obj - {key};
      } else if obj[key].Obj? {
        var nested := StripNonIdentityFields(fields[key].fields);
        obj := obj[key := Obj(nested)];
      }
      OneMore(fields, before, obj, todo, key);
      todo := todo - {key};
    }
    PartlyDone(fields, obj);
  }

  lemma OneMore(fields: map<string, Body>, before: map<string, Body>, obj: map<string, Body>,
                todo: set<string>, key: string)
    requires todo <= fields.Keys && key in todo && Partly(fields, before, todo)
    requires if NonIdentity(key) then obj == before - {key}
             else obj.Keys == before.Keys && obj[key] == Strip(fields[key])
                  && forall k :: k in obj && k != key ==> obj[k] == before[k]
    ensures Partly(fields, obj, todo - {key})
  {
  }

  // ---------- what normalising keeps ----------

  /** What is visible at a place in a body: that it is an object, or the text of a leaf. */
  datatype Sight = Object | Text(text: string) | Nothing

  /** The value reached by following field names through objects. */
  function Peek(b: Body, path: seq<string>): Sight {
    if path == [] then (if b.Obj? then Object else Text(b.text))
    else if b.Obj? && path[0] in b.fields then Peek(b.fields[path[0]], path[1..])
    else Nothing
  }

  /** None of the names is that of a tracking field. */
  predicate Clean(path: seq<string>) {
    forall i :: 0 <= i < |path| ==> path[i] != "Identifier" && path[i] != "clientReferenceDetails"
  }

  /** Equal at every place that no non-identity field leads to. */
  ghost predicate SameIdentity(a: Body, b: Body) {
    forall path :: Clean(path) ==> Peek(a, path) == Peek(b, path)
  }

  lemma {:induction false} PeekStripped(b: Body, path: seq<string>)
    ensures Peek(Strip(b), path) == if Clean(path) then Peek(b, path) else Nothing
    decreases |path|
  {
    if path != [] && b.Obj? && path[0] in b.fields && !NonIdentity(path[0]) {
      PeekStripped(b.fields[path[0]], path[1..]);
      assert Clean(path) <==> Clean(path[1..]);
    }
  }

  /** Bodies that look the same everywhere are equal. */
  lemma {:induction false} SightDecides(a: Body, b: Body)
    requires forall path :: Peek(a, path) == Peek(b, path)
    ensures a == b
    decreases a
  {
    assert Peek(a, []) == Peek(b, []);
    if a.Obj? {
      assert forall k :: k in a.fields <==> Peek(a, [k]) != Nothing;
      assert forall k :: k in b.fields <==> Peek(b, [k]) != Nothing;
      assert a.fields.Keys == b.fields.Keys;
      forall k | k in a.fields
        ensures a.fields[k] == b.fields[k]
      {
        forall path
          ensures Peek(a.fields[k], path) == Peek(b.fields[k], path)
        {
          assert Peek(a, [k] + path) == Peek(b, [k] + path);
          assert ([k] + path)[1..] == path;
        }
        SightDecides(a.fields[k], b.fields[k]);
      }
    }
  }

  /** Normalising is exact: two bodies have the same normal form if and only if they agree at
      every place that no non-identity field leads to. */
  lemma StripIsExact(a: Body, b: Body)
    ensures Strip(a) == Strip(b) <==> SameIdentity(a, b)
  {
    forall path
      ensures Peek(Strip(a), path) == if Clean(path) then Peek(a, path) else Nothing
      ensures Peek(Strip(b), path) == if Clean(path) then Peek(b, path) else Nothing
    {
      PeekStripped(a, path);
      PeekStripped(b, path);
    }
    if SameIdentity(a, b) {
      forall path
        ensures Peek(Strip(a), path) == Peek(Strip(b), path)
      {
      }
      SightDecides(Strip(a), Strip(b));
    }
  }

  /** Normalising twice is normalising once. */
  lemma {:induction false} StripIsIdempotent(b: Body)
    ensures Strip(Strip(b)) == Strip(b)
  {
    forall path | Clean(path)
      ensures Peek(Strip(b), path) == Peek(b, path)
    {
      PeekStripped(b, path);
    }
    StripIsExact(Strip(b), b);
  }

  // ---------- the key ----------

  /** What json.Unmarshal makes of a request body, in the order normalizeBody tries. */
  datatype Parsed =
    | AnObject(body: Body)
    | AnArray(text: string)          // the array's compact text; its elements are not looked into
    | Neither(raw: string)           // hashed as it came

  /** The serialiser, the digest, and which texts are values other than objects. */
  datatype Codec = Codec(marshal: Body -> string, digest: string -> string, isValue: string -> bool)

  /** Every leaf is the compact text of a value other than an object, as parsing leaves it. */
  predicate WellFormed(b: Body, c: Codec) {
    match b
    case Leaf(text) => c.isValue(text)
    case Obj(fields) => forall k :: k in fields ==> WellFormed(fields[k], c)
  }

  /** Such texts do not start like an object; on bodies made of them the serialiser tells different
      bodies apart, as the digest does with texts. */
  ghost predicate Faithful(c: Codec) {
    && (forall t :: c.isValue(t) ==> t != "" && t[0] != '{')
    && (forall x, y :: WellFormed(x, c) && WellFormed(y, c) && c.marshal(x) == c.marshal(y) ==> x == y)
    && (forall x, y :: c.digest(x) == c.digest(y) ==> x == y)
  }

  lemma {:induction false} StripKeepsForm(b: Body, c: Codec)
    requires WellFormed(b, c)
    ensures WellFormed(Strip(b), c)
  {
    if b.Obj? {
      var s := Strip(b);
      forall k | k in s.fields
        ensures WellFormed(s.fields[k], c)
      {
        StripKeepsForm(b.fields[k], c);
      }
    }
  }

  function Normalized(p: Parsed, c: Codec): string {
    match p
    case AnObject(body) => c.marshal(Strip(body))
    case AnArray(text) => text
    case Neither(raw) => raw
  }

  /** generatePostCacheKey. */
  function PostKey(merchantKey: string, path: string, p: Parsed, c: Codec): string {
    merchantKey + ":POST:" + path + ":" + c.digest(Normalized(p, c))
  }

  /** Different merchants and paths do not share a key either: merchant keys without a slash, paths that
      start with one, and digests, which are hexadecimal and so without a colon. */
  lemma PostKeysAreApart(m1: string, path1: string, p1: Parsed, m2: string, path2: string, p2: Parsed, c: Codec)
    requires '/' !in m1 && '/' !in m2 && path1 != "" && path1[0] == '/' && path2 != "" && path2[0] == '/'
    requires forall x :: ':' !in c.digest(x)
    ensures PostKey(m1, path1, p1, c) == PostKey(m2, path2, p2, c) <==>
            m1 == m2 && path1 == path2 && c.digest(Normalized(p1, c)) == c.digest(Normalized(p2, c))
  {
    var d1, d2 := c.digest(Normalized(p1, c)), c.digest(Normalized(p2, c));
    var k1, k2 := PostKey(m1, path1, p1, c), PostKey(m2, path2, p2, c);
    if k1 == k2 {
      var h1, h2 := m1 + ":POST:", m2 + ":POST:";
      assert k1 == (h1 + path1) + ":" + d1 && k2 == (h2 + path2) + ":" + d2;
      Text.LastField(h1 + path1, d1, h2 + path2, d2, ':');
      assert h1 + path1 == h1 + ['/'] + path1[1..] && h2 + path2 == h2 + ['/'] + path2[1..];
      Text.FirstField(h1, path1[1..], h2, path2[1..], '/');
      assert h1[..|h1| - 6] == m1 && h2[..|h2| - 6] == m2;
      assert path1 == ['/'] + path1[1..] && path2 == ['/'] + path2[1..];
    }
  }

  /** For one merchant and path, two object bodies share a key if and only if they differ in
      nothing but the caller's tracking fields. */
  lemma KeysMatchIdentity(merchantKey: string, path: string, a: Body, b: Body, c: Codec)
    requires Faithful(c) && WellFormed(a, c) && WellFormed(b, c)
    ensures PostKey(merchantKey, path, AnObject(a), c) == PostKey(merchantKey, path, AnObject(b), c)
            <==> SameIdentity(a, b)
  {
    StripIsExact(a, b);
    StripKeepsForm(a, c);
    StripKeepsForm(b, c);
    var head := merchantKey + ":POST:" + path + ":";
    var x, y := c.digest(c.marshal(Strip(a))), c.digest(c.marshal(Strip(b)));
    assert (head + x)[|head|..] == x && (head + y)[|head|..] == y;
  }

  /** Bodies that are not objects are hashed as they are: two arrays share a key if and only if their
      texts are the same, and so do two bodies that do not parse. */
  lemma OtherBodiesMatchText(merchantKey: string, path: string, a: string, b: string, c: Codec)
    requires Faithful(c)
    ensures PostKey(merchantKey, path, AnArray(a), c) == PostKey(merchantKey, path, AnArray(b), c) <==> a == b
    ensures PostKey(merchantKey, path, Neither(a), c) == PostKey(merchantKey, path, Neither(b), c) <==> a == b
  {
    var head := merchantKey + ":POST:" + path + ":";
    var x, y := c.digest(a), c.digest(b);
    assert (head + x)[|head|..] == x && (head + y)[|head|..] == y;
  }

  /** Inside an array nothing is stripped: bodies that differ only in an Identifier there keep
      different keys. */
  lemma ArraysAreNotStripped(merchantKey: string, path: string, c: Codec)
    requires Faithful(c) && c.isValue("[{\"Identifier\":1}]") && c.isValue("[{\"Identifier\":2}]")
    ensures var a, b := Leaf("[{\"Identifier\":1}]"), Leaf("[{\"Identifier\":2}]");
            PostKey(merchantKey, path, AnObject(Obj(map["x" := a])), c)
            != PostKey(merchantKey, path, AnObject(Obj(map["x" := b])), c)
  {
    var a, b := Leaf("[{\"Identifier\":1}]"), Leaf("[{\"Identifier\":2}]");
    var oa, ob := Obj(map["x" := a]), Obj(map["x" := b]);
    assert a.text[15] != b.text[15];
    assert Clean(["x"]) && Peek(oa, ["x"]) == Peek(a, []) && Peek(ob, ["x"]) == Peek(b, []);
    KeysMatchIdentity(merchantKey, path, oa, ob, c);
  }
}
