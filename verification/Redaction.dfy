/** JSON values as the redaction engine walks them: a tree without sharing. */
module JsonTree {
  datatype Json =
    | Obj(fields: map<string, Json>)
    | Arr(items: seq<Json>)
    | Str(s: string)
    | Other(text: string)              // numbers, booleans, null

  /** A place in a document. */
  datatype Step = Key(name: string) | Item(i: nat)

  /** What is visible at a place. */
  datatype Sight = Nothing | AnObject | AnArray(length: nat) | Text(s: string) | Literal(text: string)

  function Look(j: Json): Sight {
    match j
    case Obj(_) => AnObject
    case Arr(items) => AnArray(|items|)
    case Str(s) => Text(s)
    case Other(text) => Literal(text)
  }

  predicate HasChild(j: Json, step: Step) {
    match step
    case Key(name) => j.Obj? && name in j.fields
    case Item(i) => j.Arr? && i < |j.items|
  }

  function Child(j: Json, step: Step): Json
    requires HasChild(j, step)
  {
    match step
    case Key(name) => j.fields[name]
    case Item(i) => j.items[i]
  }

  predicate Exists(j: Json, loc: seq<Step>) {
    loc != [] ==> HasChild(j, loc[0]) && Exists(Child(j, loc[0]), loc[1..])
  }

  function Get(j: Json, loc: seq<Step>): Json
    requires Exists(j, loc)
  {
    if loc == [] then j else Get(Child(j, loc[0]), loc[1..])
  }

  function Peek(j: Json, loc: seq<Step>): Sight {
    if Exists(j, loc) then Look(Get(j, loc)) else Nothing
  }

  lemma PeekInto(j: Json, step: Step, loc: seq<Step>)
    ensures Peek(j, [step] + loc) == if HasChild(j, step) then Peek(Child(j, step), loc) else Nothing
  {
    assert ([step] + loc)[1..] == loc;
  }

  /** Documents that look the same everywhere are equal. */
  lemma {:induction false} SightDecides(a: Json, b: Json)
    requires forall loc :: Peek(a, loc) == Peek(b, loc)
    ensures a == b
    decreases a
  {
    assert Peek(a, []) == Look(a) && Peek(b, []) == Look(b);
    if a.Obj? {
      forall k
        ensures k in a.fields <==> k in b.fields
      {
        PeekInto(a, Key(k), []);
        PeekInto(b, Key(k), []);
      }
      forall k | k in a.fields
        ensures a.fields[k] == b.fields[k]
      {
        SameChild(a, b, Key(k));
        SightDecides(Child(a, Key(k)), Child(b, Key(k)));
      }
      assert a.fields.Keys == b.fields.Keys;
    } else if a.Arr? {
      forall i | 0 <= i < |a.items|
        ensures a.items[i] == b.items[i]
      {
        SameChild(a, b, Item(i));
        SightDecides(Child(a, Item(i)), Child(b, Item(i)));
      }
    }
  }

  lemma SameChild(a: Json, b: Json, step: Step)
    requires (forall loc :: Peek(a, loc) == Peek(b, loc)) && HasChild(a, step) && HasChild(b, step)
    ensures forall loc :: Peek(Child(a, step), loc) == Peek(Child(b, step), loc)
  {
    forall loc
      ensures Peek(Child(a, step), loc) == Peek(Child(b, step), loc)
    {
      PeekInto(a, step, loc);
      PeekInto(b, step, loc);
    }
  }
}

/** Redaction of logged bodies (internal/pii/jsonpath.go, internal/pii/engine.go): each rule names
    places in the document by a path and says what becomes of the values there.
  */
module Redaction {
  import opened JsonTree

  /** One segment of a path, as walkSegments and walkArraySegment tell them apart. */
  datatype Selector =
    | Field(name: string)
    | Wild                             // [*]
    | Index(n: int)                    // [n]
    | Bad                              // any other bracket expression; it selects nothing

  datatype Mode = Redact | Hash | Omit

  datatype Rule = Rule(path: seq<Selector>, mode: Mode)

  const MARKER := "[REDACTED]"

  /** The digest of a value, as hex text. */
  type Digest = Json -> string

  function HashText(h: Digest, v: Json): string {
    "sha256:" + h(v)
  }

  // ---------- the walk ----------

  /** The callback, on the object that holds the field. */
  function Edit(fields: map<string, Json>, name: string, mode: Mode, h: Digest): map<string, Json>
    requires name in fields
  {
    match mode
    case Redact => fields[name := Str(MARKER)]
    case Hash => fields[name := Str(HashText(h, fields[name]))]
    case Omit => fields - {name}
  }

  /** The document after walkSegments. */
  function Walk(j: Json, path: seq<Selector>, mode: Mode, h: Digest): Json
    decreases |path|
  {
    if path == [] then j
    else
      match path[0]
      case Bad => j
      case Wild =>
        if j.Arr? then Arr(seq(|j.items|, i requires 0 <= i < |j.items| => Walk(j.items[i], path[1..], mode, h))) else j
      case Index(n) =>
        if j.Arr? && 0 <= n < |j.items| then Arr(j.items[n := Walk(j.items[n], path[1..], mode, h)]) else j
      case Field(name) =>
        if !j.Obj? || name !in j.fields then j
        else if |path| == 1 then Obj(Edit(j.fields, name, mode, h))
        else Obj(j.fields[name := Walk(j.fields[name], path[1..], mode, h)])
  }

  /** Whether walkSegments reports a match. */
  predicate Finds(j: Json, path: seq<Selector>)
    decreases |path|
  {
    path != [] &&
      match path[0]
      case Bad => false
      case Wild => j.Arr? && exists i :: 0 <= i < |j.items| && Finds(j.items[i], path[1..])
      case Index(n) => j.Arr? && 0 <= n < |j.items| && Finds(j.items[n], path[1..])
      case Field(name) => j.Obj? && name in j.fields && (|path| == 1 || Finds(j.fields[name], path[1..]))
  }

  /** The document after every rule in turn. */
  function WalkAll(j: Json, rules: seq<Rule>, h: Digest): Json {
    if rules == [] then j
    else
      var n := |rules| - 1;
      Walk(WalkAll(j, rules[..n], h), rules[n].path, rules[n].mode, h)
  }

  // ---------- where a path points ----------

  predicate Selects(sel: Selector, step: Step) {
    match sel
    case Field(name) => step == Key(name)
    case Wild => step.Item?
    case Index(n) => step.Item? && step.i == n
    case Bad => false
  }

  /** The path points at this place, in any document that has it. */
  predicate PointsAt(path: seq<Selector>, loc: seq<Step>) {
    |path| == |loc| && forall i :: 0 <= i < |path| ==> Selects(path[i], loc[i])
  }

  predicate EndsInField(path: seq<Selector>) {
    path != [] && path[|path| - 1].Field?
  }

  /** The place, or one above it, is pointed at. */
  predicate Reaches(path: seq<Selector>, loc: seq<Step>) {
    |path| <= |loc| && PointsAt(path, loc[..|path|])
  }

  function Replacement(mode: Mode, h: Digest, v: Json): Sight {
    match mode
    case Redact => Text("[REDACTED]")
    case Hash => Text("sha256:" + h(v))
    case Omit => Nothing
  }

  /** What a place shows after one rule: below a place the rule points at, nothing; at such a
      place, the replacement of what was there; anywhere else, what it showed before. */
  function Expected(j: Json, path: seq<Selector>, mode: Mode, h: Digest, loc: seq<Step>): Sight {
    if !EndsInField(path) || !Reaches(path, loc) then Peek(j, loc)
    else if |loc| > |path| || !Exists(j, loc) then Nothing
    else Replacement(mode, h, Get(j, loc))
  }

  lemma ReachesInto(path: seq<Selector>, loc: seq<Step>)
    requires path != [] && loc != []
    ensures Reaches(path, loc) <==> Selects(path[0], loc[0]) && Reaches(path[1..], loc[1..])
  {
    if |path| <= |loc| {
      var p, l := path[1..], loc[..|path|];
      assert l[1..] == loc[1..][..|p|];
      if Selects(path[0], loc[0]) && PointsAt(p, l[1..]) {
        forall i | 0 <= i < |path|
          ensures Selects(path[i], l[i])
        {
          assert i > 0 ==> path[i] == p[i - 1] && l[i] == l[1..][i - 1];
        }
      }
    }
  }

  /** The effect of one rule on every place of the document. */
  lemma {:induction false} WalkIsExact(j: Json, path: seq<Selector>, mode: Mode, h: Digest, loc: seq<Step>)
    ensures Peek(Walk(j, path, mode, h), loc) == Expected(j, path, mode, h, loc)
    decreases |path|
  {
    if path != [] && loc != [] {
      if path[0].Field? && |path| == 1 {
        EditIsExact(j, path[0].name, mode, h, loc);
      } else {
        WalkInner(j, path, mode, h, loc);
      }
    }
  }

  lemma EditIsExact(j: Json, name: string, mode: Mode, h: Digest, loc: seq<Step>)
    requires loc != []
    ensures Peek(Walk(j, [Field(name)], mode, h), loc) == Expected(j, [Field(name)], mode, h, loc)
  {
    assert Reaches([Field(name)], loc) <==> loc[0] == Key(name);
    var w := Walk(j, [Field(name)], mode, h);
    var rest := loc[1..];
    assert loc == [loc[0]] + rest;
    PeekInto(w, loc[0], rest);
    PeekInto(j, loc[0], rest);
    if loc[0] != Key(name) {
      assert HasChild(w, loc[0]) <==> HasChild(j, loc[0]);
      assert HasChild(j, loc[0]) ==> Child(w, loc[0]) == Child(j, loc[0]);
    } else if HasChild(j, Key(name)) && !mode.Omit? {
      assert Child(w, loc[0]).Str?;
      assert rest != [] ==> !HasChild(Child(w, loc[0]), rest[0]);
      assert rest == [] ==> Get(j, loc) == Child(j, loc[0]);
    }
  }

  lemma WalkInner(j: Json, path: seq<Selector>, mode: Mode, h: Digest, loc: seq<Step>)
    requires path != [] && loc != [] && !(path[0].Field? && |path| == 1)
    ensures Peek(Walk(j, path, mode, h), loc) == Expected(j, path, mode, h, loc)
    decreases |path|, 0
  {
    var w, rest := Walk(j, path, mode, h), loc[1..];
    ReachesInto(path, loc);
    assert EndsInField(path) == EndsInField(path[1..]);
    assert HasChild(w, loc[0]) <==> HasChild(j, loc[0]);
    if HasChild(j, loc[0]) {
      if Selects(path[0], loc[0]) {
        assert Child(w, loc[0]) == Walk(Child(j, loc[0]), path[1..], mode, h);
        WalkIsExact(Child(j, loc[0]), path[1..], mode, h, rest);
      } else {
        assert Child(w, loc[0]) == Child(j, loc[0]);
      }
    }
  }
}
