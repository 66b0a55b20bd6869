/** What redaction guarantees: nothing a rule points at stays readable, nothing else changes, and
    exactly when a path redacts, a match is reported and a second pass is harmless.
  */
module RedactionTheorems {
  import opened JsonTree
  import opened Redaction

  // ---------- redaction is complete ----------

  /** Nothing of the original value shows: the marker, a digest, or no value at all. */
  ghost predicate Clean(s: Sight, h: Digest) {
    s == Nothing || s == Text("[REDACTED]") || exists v :: s == Text("sha256:" + h(v))
  }

  lemma RuleCleans(j: Json, r: Rule, h: Digest, loc: seq<Step>)
    requires EndsInField(r.path) && PointsAt(r.path, loc)
    ensures Clean(Peek(Walk(j, r.path, r.mode, h), loc), h)
  {
    assert loc[..|r.path|] == loc;
    WalkIsExact(j, r.path, r.mode, h, loc);
  }

  lemma RuleKeepsClean(j: Json, r: Rule, h: Digest, loc: seq<Step>)
    requires Clean(Peek(j, loc), h)
    ensures Clean(Peek(Walk(j, r.path, r.mode, h), loc), h)
  {
    WalkIsExact(j, r.path, r.mode, h, loc);
  }

  /** Complete: after the whole rule list, every place that any of its rules points at shows the
      marker, a digest or nothing, however the rules overlap. */
  lemma {:induction false} RedactionIsComplete(j: Json, rules: seq<Rule>, h: Digest, k: nat, loc: seq<Step>)
    requires k < |rules| && EndsInField(rules[k].path) && PointsAt(rules[k].path, loc)
    ensures Clean(Peek(WalkAll(j, rules, h), loc), h)
  {
    var n := |rules| - 1;
    if k == n {
      RuleCleans(WalkAll(j, rules[..n], h), rules[n], h, loc);
    } else {
      RedactionIsComplete(j, rules[..n], h, k, loc);
      RuleKeepsClean(WalkAll(j, rules[..n], h), rules[n], h, loc);
    }
  }

  // ---------- and framed ----------

  /** Framed: a place that no rule points at, nor at anything above it, shows what it showed. */
  lemma {:induction false} RedactionIsFramed(j: Json, rules: seq<Rule>, h: Digest, loc: seq<Step>)
    requires forall k :: 0 <= k < |rules| ==> !(EndsInField(rules[k].path) && Reaches(rules[k].path, loc))
    ensures Peek(WalkAll(j, rules, h), loc) == Peek(j, loc)
  {
    if rules != [] {
      var n := |rules| - 1;
      RedactionIsFramed(j, rules[..n], h, loc);
      WalkIsExact(WalkAll(j, rules[..n], h), rules[n].path, rules[n].mode, h, loc);
    }
  }

  // ---------- exactly which paths redact ----------

  /** Some document has a place this path points at. */
  predicate Satisfiable(path: seq<Selector>) {
    forall i :: 0 <= i < |path| ==> !path[i].Bad? && (path[i].Index? ==> path[i].n >= 0)
  }

  /** A document that has `v` where the path points, and the place. */
  function Witness(path: seq<Selector>, v: Json): Json
    requires Satisfiable(path)
  {
    if path == [] then v
    else
      match path[0]
      case Field(name) => Obj(map[name := Witness(path[1..], v)])
      case Wild => Arr([Witness(path[1..], v)])
      case Index(n) => Arr(seq(n + 1, i => Witness(path[1..], v)))
  }

  function WitnessPlace(path: seq<Selector>, v: Json): (loc: seq<Step>)
    requires Satisfiable(path)
    ensures PointsAt(path, loc) && Exists(Witness(path, v), loc) && Get(Witness(path, v), loc) == v
  {
    if path == [] then []
    else
      var rest := WitnessPlace(path[1..], v);
      var step := match path[0] case Field(name) => Key(name) case Wild => Item(0) case Index(n) => Item(n);
      assert ([step] + rest)[1..] == rest;
      [step] + rest
  }

  /** A path redacts every place it points at, in every document, if and only if it ends in a field
      name or can point at nothing. A path that ends in a bracket, and the bare "$", redact nothing. */
  lemma CompleteIffEndsInField(path: seq<Selector>, mode: Mode, h: Digest)
    ensures (forall j, loc :: PointsAt(path, loc) ==> Clean(Peek(Walk(j, path, mode, h), loc), h))
            <==> EndsInField(path) || !Satisfiable(path)
  {
    if EndsInField(path) {
      forall j, loc | PointsAt(path, loc)
        ensures Clean(Peek(Walk(j, path, mode, h), loc), h)
      {
        RuleCleans(j, Rule(path, mode), h, loc);
      }
    } else if Satisfiable(path) {
      var j, loc := Witness(path, Str("secret")), WitnessPlace(path, Str("secret"));
      WalkIsExact(j, path, mode, h, loc);
      assert Peek(j, loc) == Text("secret");
      assert forall v :: HashText(h, v)[1] != "secret"[1];
      assert !Clean(Peek(Walk(j, path, mode, h), loc), h);
    } else {
      forall loc
        ensures !PointsAt(path, loc)
      {
      }
    }
  }

  // ---------- exactly which rules may run twice ----------

  /** Different texts have different digests. (A text and another value may share one.) */
  ghost predicate TellsTextsApart(h: Digest) {
    forall s, t :: h(Str(s)) == h(Str(t)) ==> s == t
  }

  /** hashValue: a text is hashed as it is, anything else as its JSON text. */
  function HashValue(sha: string -> string, text: Json -> string): Digest {
    (v: Json) => if v.Str? then sha(v.s) else sha(text(v))
  }

  /** The program's digest tells texts apart if its hash function does. It does not tell a text from
      the value with that JSON text. */
  lemma ProgramTellsTextsApart(sha: string -> string, text: Json -> string)
    requires forall s, t :: sha(s) == sha(t) ==> s == t
    ensures TellsTextsApart(HashValue(sha, text))
    ensures forall v: Json :: !v.Str? ==> HashValue(sha, text)(Str(text(v))) == HashValue(sha, text)(v)
  {
    var h := HashValue(sha, text);
    forall s, t | h(Str(s)) == h(Str(t))
      ensures s == t
    {
      assert sha(s) == sha(t);
    }
  }

  /** The text after `m` HASH rules in a row. */
  function Hashed(h: Digest, m: nat, s: string): string {
    if m == 0 then s else HashText(h, Str(Hashed(h, m - 1, s)))
  }

  lemma {:induction false} HashedTellsApart(h: Digest, m: nat, s: string, t: string)
    requires TellsTextsApart(h) && Hashed(h, m, s) == Hashed(h, m, t)
    ensures s == t
    decreases m
  {
    if m > 0 {
      var x, y := Hashed(h, m - 1, s), Hashed(h, m - 1, t);
      assert HashText(h, Str(x))[7..] == h(Str(x)) && HashText(h, Str(y))[7..] == h(Str(y));
      HashedTellsApart(h, m - 1, s, t);
    }
  }

  /** Hashing again changes the text. */
  lemma HashingMoves(h: Digest, m: nat)
    requires TellsTextsApart(h) && m > 0
    ensures Hashed(h, m, Hashed(h, m, "")) != Hashed(h, m, "")
  {
    var once := Hashed(h, m, "");
    assert |once| >= 7;
    if Hashed(h, m, once) == once {
      HashedTellsApart(h, m, once, "");
    }
  }

  /** A second pass over this document changes nothing. */
  predicate Settles(j: Json, rules: seq<Rule>, h: Digest) {
    WalkAll(WalkAll(j, rules, h), rules, h) == WalkAll(j, rules, h)
  }

  /** The rule puts something at this place, or takes it away. */
  predicate Hits(r: Rule, loc: seq<Step>) {
    EndsInField(r.path) && PointsAt(r.path, loc)
  }

  /** Some REDACT or OMIT rule hits the place or one above it. */
  predicate Shadowed(rules: seq<Rule>, loc: seq<Step>) {
    exists k :: 0 <= k < |rules| && rules[k].mode != Hash && EndsInField(rules[k].path) && Reaches(rules[k].path, loc)
  }

  /** Every place a HASH rule hits is at or below one that a REDACT or OMIT rule hits. */
  ghost predicate HashesShadowed(rules: seq<Rule>) {
    forall k, loc :: 0 <= k < |rules| && rules[k].mode == Hash && Hits(rules[k], loc) ==> Shadowed(rules, loc)
  }

  /** No rule hits a place above this one. */
  predicate Uncovered(rules: seq<Rule>, loc: seq<Step>) {
    forall k :: 0 <= k < |rules| && EndsInField(rules[k].path) && Reaches(rules[k].path, loc) ==>
      |rules[k].path| == |loc|
  }

  // ---------- a list whose hashes are shadowed ----------

  predicate Gone(j: Json, loc: seq<Step>) {
    Peek(j, loc) == Nothing
  }

  /** Both documents show the same here, a text or nothing. */
  predicate SameText(a: Json, b: Json, loc: seq<Step>) {
    Peek(a, loc) == Peek(b, loc) && (Gone(a, loc) || Peek(a, loc).Text?)
  }

  lemma TextIsString(j: Json, loc: seq<Step>)
    requires Peek(j, loc).Text?
    ensures Exists(j, loc) && Get(j, loc) == Str(Peek(j, loc).s)
  {
  }

  /** What one rule makes of a place in two documents. */
  lemma RuleOnBoth(a: Json, b: Json, r: Rule, h: Digest, loc: seq<Step>)
    requires Gone(a, loc) <==> Gone(b, loc)
    requires EndsInField(r.path) && Reaches(r.path, loc) ==> |r.path| == |loc|
    ensures var x, y := Walk(a, r.path, r.mode, h), Walk(b, r.path, r.mode, h);
            && (Gone(x, loc) <==> Gone(y, loc)) && (Gone(a, loc) ==> Gone(x, loc))
            && (SameText(a, b, loc) || (Hits(r, loc) && r.mode != Hash) ==> SameText(x, y, loc))
  {
    WalkIsExact(a, r.path, r.mode, h, loc);
    WalkIsExact(b, r.path, r.mode, h, loc);
    assert loc[..|loc|] == loc;
    if Peek(a, loc).Text? && SameText(a, b, loc) {
      TextIsString(a, loc);
      TextIsString(b, loc);
    }
  }

  /** A place that a REDACT or OMIT rule hits shows, after the list, what only depends on whether it was
      there. */
  lemma {:induction false} ListOnBoth(a: Json, b: Json, rules: seq<Rule>, h: Digest, loc: seq<Step>)
    requires (Gone(a, loc) <==> Gone(b, loc)) && Uncovered(rules, loc)
    ensures var x, y := WalkAll(a, rules, h), WalkAll(b, rules, h);
            && (Gone(x, loc) <==> Gone(y, loc)) && (Gone(a, loc) ==> Gone(x, loc))
            && (Erased(rules, loc) ==> SameText(x, y, loc))
  {
    if rules != [] {
      var n := |rules| - 1;
      ListOnBoth(a, b, rules[..n], h, loc);
      RuleOnBoth(WalkAll(a, rules[..n], h), WalkAll(b, rules[..n], h), rules[n], h, loc);
      ErasedBefore(rules, loc);
    }
  }

  /** A REDACT or OMIT rule hits the place. */
  predicate Erased(rules: seq<Rule>, loc: seq<Step>) {
    exists k :: 0 <= k < |rules| && rules[k].mode != Hash && Hits(rules[k], loc)
  }

  lemma ErasedBefore(rules: seq<Rule>, loc: seq<Step>)
    requires rules != []
    ensures var n := |rules| - 1;
            Erased(rules, loc) ==> Erased(rules[..n], loc) || (rules[n].mode != Hash && Hits(rules[n], loc))
  {
    var n := |rules| - 1;
    if k :| 0 <= k < n && rules[k].mode != Hash && Hits(rules[k], loc) {
      assert rules[..n][k] == rules[k];
    }
  }

  /** At such a place a second pass changes nothing. */
  lemma SecondPassThere(j: Json, rules: seq<Rule>, h: Digest, loc: seq<Step>, k: nat)
    requires Uncovered(rules, loc) && k < |rules| && rules[k].mode != Hash && Hits(rules[k], loc)
    ensures var once := WalkAll(j, rules, h); SameText(WalkAll(once, rules, h), once, loc)
  {
    var once := WalkAll(j, rules, h);
    assert Erased(rules, loc);
    ListOnBoth(j, j, rules, h, loc);
    if Gone(once, loc) {
      ListOnBoth(once, once, rules, h, loc);
    } else {
      ListOnBoth(once, j, rules, h, loc);
    }
  }

  /** The highest place on the way to `loc` that a REDACT or OMIT rule hits; no rule hits above it. */
  lemma {:induction false} HighestShadow(rules: seq<Rule>, loc: seq<Step>, n: nat) returns (k: nat)
    requires HashesShadowed(rules) && n <= |loc| && Shadowed(rules, loc[..n])
    ensures k < |rules| && rules[k].mode != Hash && |rules[k].path| <= n
    ensures Hits(rules[k], loc[..|rules[k].path|]) && Uncovered(rules, loc[..|rules[k].path|])
    decreases n
  {
    k :| 0 <= k < |rules| && rules[k].mode != Hash && EndsInField(rules[k].path) && Reaches(rules[k].path, loc[..n]);
    var m := |rules[k].path|;
    assert loc[..n][..m] == loc[..m];
    if i :| 0 <= i < |rules| && EndsInField(rules[i].path) && Reaches(rules[i].path, loc[..m]) && |rules[i].path| != m {
      var p := |rules[i].path|;
      assert loc[..m][..p] == loc[..p] && loc[..p][..p] == loc[..p];
      assert Hits(rules[i], loc[..p]);
      assert Shadowed(rules, loc[..p]);
      k := HighestShadow(rules, loc, p);
    }
  }

  lemma {:induction false} BelowText(j: Json, loc: seq<Step>, n: nat)
    requires n < |loc| && (Peek(j, loc[..n]) == Nothing || Peek(j, loc[..n]).Text?)
    ensures Peek(j, loc) == Nothing
    decreases n
  {
    if n > 0 {
      assert loc[..n][1..] == loc[1..][..n - 1];
      if HasChild(j, loc[0]) {
        BelowText(Child(j, loc[0]), loc[1..], n - 1);
      }
    } else {
      assert loc[..0] == [];
    }
  }

  lemma SecondPassBelow(j: Json, rules: seq<Rule>, h: Digest, loc: seq<Step>)
    requires HashesShadowed(rules) && Shadowed(rules, loc)
    ensures var once := WalkAll(j, rules, h); Peek(WalkAll(once, rules, h), loc) == Peek(once, loc)
  {
    assert loc[..|loc|] == loc;
    var k := HighestShadow(rules, loc, |loc|);
    var m, once := |rules[k].path|, WalkAll(j, rules, h);
    SecondPassThere(j, rules, h, loc[..m], k);
    if m < |loc| {
      BelowText(once, loc, m);
      BelowText(WalkAll(once, rules, h), loc, m);
    }
  }

  lemma ShadowedIsIdempotent(j: Json, rules: seq<Rule>, h: Digest)
    requires HashesShadowed(rules)
    ensures WalkAll(WalkAll(j, rules, h), rules, h) == WalkAll(j, rules, h)
  {
    var once := WalkAll(j, rules, h);
    forall loc
      ensures Peek(WalkAll(once, rules, h), loc) == Peek(once, loc)
    {
      if Shadowed(rules, loc) {
        SecondPassBelow(j, rules, h, loc);
      } else {
        forall k | 0 <= k < |rules|
          ensures EndsInField(rules[k].path) && Reaches(rules[k].path, loc) ==> Shadowed(rules, loc)
        {
          if EndsInField(rules[k].path) && Reaches(rules[k].path, loc) {
            ReachedIsShadowed(rules, loc, k);
          }
        }
        RedactionIsFramed(once, rules, h, loc);
      }
    }
    SightDecides(WalkAll(once, rules, h), once);
  }

  /** A shadow reaches everything below. */
  lemma ShadowBelow(rules: seq<Rule>, loc: seq<Step>, n: nat)
    requires n <= |loc| && Shadowed(rules, loc[..n])
    ensures Shadowed(rules, loc)
  {
    var k :| && 0 <= k < |rules| && rules[k].mode != Hash
             && EndsInField(rules[k].path) && Reaches(rules[k].path, loc[..n]);
    assert loc[..n][..|rules[k].path|] == loc[..|rules[k].path|];
    assert Reaches(rules[k].path, loc);
  }

  lemma ReachedIsShadowed(rules: seq<Rule>, loc: seq<Step>, k: nat)
    requires HashesShadowed(rules) && k < |rules| && EndsInField(rules[k].path) && Reaches(rules[k].path, loc)
    ensures Shadowed(rules, loc)
  {
    if rules[k].mode == Hash {
      assert Hits(rules[k], loc[..|rules[k].path|]);
      ShadowBelow(rules, loc, |rules[k].path|);
    }
  }

  /** Idempotent: with REDACT and OMIT rules a second pass over the redacted document, as the
      dashboard makes when it reads one back, changes nothing. */
  lemma RedactionIsIdempotent(j: Json, rules: seq<Rule>, h: Digest)
    requires forall i :: 0 <= i < |rules| ==> rules[i].mode != Hash
    ensures WalkAll(WalkAll(j, rules, h), rules, h) == WalkAll(j, rules, h)
  {
    ShadowedIsIdempotent(j, rules, h);
  }

  // ---------- a list with a hash in the open ----------

  /** A document that has `v` at this place. */
  function Chain(loc: seq<Step>, v: Json): Json {
    if loc == [] then v
    else
      match loc[0]
      case Key(name) => Obj(map[name := Chain(loc[1..], v)])
      case Item(i) => Arr(seq(i + 1, k => Chain(loc[1..], v)))
  }

  lemma {:induction false} ChainHas(loc: seq<Step>, v: Json)
    ensures Exists(Chain(loc, v), loc) && Get(Chain(loc, v), loc) == v
    decreases |loc|
  {
    if loc != [] {
      ChainHas(loc[1..], v);
    }
  }

  /** How many of the rules hit the place. */
  function HitCount(rules: seq<Rule>, loc: seq<Step>): nat {
    if rules == [] then 0
    else
      var n := |rules| - 1;
      HitCount(rules[..n], loc) + if Hits(rules[n], loc) then 1 else 0
  }

  lemma {:induction false} SomeHit(rules: seq<Rule>, loc: seq<Step>, k: nat)
    requires k < |rules| && Hits(rules[k], loc)
    ensures HitCount(rules, loc) > 0
  {
    var n := |rules| - 1;
    if k < n {
      SomeHit(rules[..n], loc, k);
    }
  }

  lemma HashedByRule(j: Json, r: Rule, h: Digest, loc: seq<Step>, s: string)
    requires Peek(j, loc) == Text(s) && (Hits(r, loc) ==> r.mode == Hash)
    requires EndsInField(r.path) && Reaches(r.path, loc) ==> |r.path| == |loc|
    ensures Peek(Walk(j, r.path, r.mode, h), loc) == Text(if Hits(r, loc) then HashText(h, Str(s)) else s)
  {
    assert loc[..|loc|] == loc;
    WalkIsExact(j, r.path, r.mode, h, loc);
    TextIsString(j, loc);
  }

  lemma HashedOnceMore(w: Json, r: Rule, h: Digest, loc: seq<Step>, m: nat, s: string)
    requires Peek(w, loc) == Text(Hashed(h, m, s)) && (Hits(r, loc) ==> r.mode == Hash)
    requires EndsInField(r.path) && Reaches(r.path, loc) ==> |r.path| == |loc|
    ensures Peek(Walk(w, r.path, r.mode, h), loc) == Text(Hashed(h, if Hits(r, loc) then m + 1 else m, s))
  {
    HashedByRule(w, r, h, loc, Hashed(h, m, s));
  }

  /** No rule covers the place from above, and only HASH rules hit it. */
  predicate OnlyHashed(rules: seq<Rule>, loc: seq<Step>) {
    Uncovered(rules, loc) && forall k :: 0 <= k < |rules| && Hits(rules[k], loc) ==> rules[k].mode == Hash
  }

  lemma OnlyHashedFront(rules: seq<Rule>, loc: seq<Step>)
    requires rules != [] && OnlyHashed(rules, loc)
    ensures var n := |rules| - 1; var r := rules[n];
            && OnlyHashed(rules[..n], loc)
            && (Hits(r, loc) ==> r.mode == Hash) && (EndsInField(r.path) && Reaches(r.path, loc) ==> |r.path| == |loc|)
  {
  }

  /** Where only HASH rules hit, a text is hashed once for each. */
  lemma {:induction false} HashedByList(j: Json, rules: seq<Rule>, h: Digest, loc: seq<Step>, s: string)
    requires OnlyHashed(rules, loc) && Peek(j, loc) == Text(s)
    ensures Peek(WalkAll(j, rules, h), loc) == Text(Hashed(h, HitCount(rules, loc), s))
  {
    if rules != [] {
      var n := |rules| - 1;
      OnlyHashedFront(rules, loc);
      HashedByList(j, rules[..n], h, loc, s);
      HashedOnceMore(WalkAll(j, rules[..n], h), rules[n], h, loc, HitCount(rules[..n], loc), s);
    }
  }

  /** The highest place on the way to an unshadowed one that a HASH rule hits. */
  lemma {:induction false} HighestHash(rules: seq<Rule>, loc: seq<Step>, k0: nat) returns (k: nat)
    requires k0 < |rules| && Hits(rules[k0], loc) && !Shadowed(rules, loc)
    ensures k < |rules| && |rules[k].path| <= |loc| && Hits(rules[k], loc[..|rules[k].path|])
    ensures Uncovered(rules, loc[..|rules[k].path|]) && !Shadowed(rules, loc[..|rules[k].path|])
    decreases |loc|
  {
    k := k0;
    assert loc[..|loc|] == loc;
    if i :| 0 <= i < |rules| && EndsInField(rules[i].path) && Reaches(rules[i].path, loc) && |rules[i].path| != |loc| {
      var p := loc[..|rules[i].path|];
      if Shadowed(rules, p) {
        ShadowBelow(rules, loc, |p|);
      }
      k := HighestHash(rules, p, i);
      assert p[..|rules[k].path|] == loc[..|rules[k].path|];
    }
  }

  lemma OpenHashMoves(rules: seq<Rule>, h: Digest, loc: seq<Step>, k0: nat)
    requires TellsTextsApart(h) && k0 < |rules| && Hits(rules[k0], loc) && !Shadowed(rules, loc)
    ensures exists j :: !Settles(j, rules, h)
  {
    var k := HighestHash(rules, loc, k0);
    var p := loc[..|rules[k].path|];
    OnlyHashesHit(rules, p);
    var j, m := Chain(p, Str("")), HitCount(rules, p);
    ChainHas(p, Str(""));
    SomeHit(rules, p, k);
    HashedByList(j, rules, h, p, "");
    HashedByList(WalkAll(j, rules, h), rules, h, p, Hashed(h, m, ""));
    HashingMoves(h, m);
    assert !Settles(j, rules, h);
  }

  lemma OnlyHashesHit(rules: seq<Rule>, loc: seq<Step>)
    requires !Shadowed(rules, loc)
    ensures forall k :: 0 <= k < |rules| && Hits(rules[k], loc) ==> rules[k].mode == Hash
  {
    assert loc[..|loc|] == loc;
    assert forall k :: 0 <= k < |rules| && Hits(rules[k], loc) ==> Reaches(rules[k].path, loc);
  }

  /** Exactly which rule lists may run twice, as they do when the dashboard redacts what was logged
      redacted: in every document a second pass changes nothing, if and only if every place a HASH
      rule points at is at or below one that a REDACT or OMIT rule points at. For a digest that tells
      texts apart. */
  lemma RedactsTwiceIff(rules: seq<Rule>, h: Digest)
    requires TellsTextsApart(h)
    ensures (forall j :: Settles(j, rules, h)) <==> HashesShadowed(rules)
  {
    if HashesShadowed(rules) {
      forall j
        ensures Settles(j, rules, h)
      {
        ShadowedIsIdempotent(j, rules, h);
      }
    } else {
      var k, loc :| 0 <= k < |rules| && rules[k].mode == Hash && Hits(rules[k], loc) && !Shadowed(rules, loc);
      OpenHashMoves(rules, h, loc, k);
    }
  }

  // ---------- a single rule ----------

  lemma OneRuleShadowed(path: seq<Selector>, mode: Mode)
    ensures HashesShadowed([Rule(path, mode)]) <==> mode != Hash || !EndsInField(path) || !Satisfiable(path)
  {
    var rules := [Rule(path, mode)];
    assert rules[0] == Rule(path, mode);
    if mode == Hash && EndsInField(path) && Satisfiable(path) {
      var loc := WitnessPlace(path, Str(""));
      assert Hits(rules[0], loc) && !Shadowed(rules, loc);
    }
  }

  predicate SettlesAlone(j: Json, r: Rule, h: Digest) {
    Walk(Walk(j, r.path, r.mode, h), r.path, r.mode, h) == Walk(j, r.path, r.mode, h)
  }

  lemma OneRuleSettles(j: Json, r: Rule, h: Digest)
    ensures SettlesAlone(j, r, h) <==> Settles(j, [r], h)
  {
    OneRule(j, r, h);
    OneRule(Walk(j, r.path, r.mode, h), r, h);
  }

  /** For one rule: a second pass changes nothing, in every document, if and only if it is not a HASH
      rule, or redacts nothing anyway. */
  lemma IdempotentIff(r: Rule, h: Digest)
    requires TellsTextsApart(h)
    ensures (forall j :: SettlesAlone(j, r, h)) <==> r.mode != Hash || !EndsInField(r.path) || !Satisfiable(r.path)
  {
    OneRuleShadowed(r.path, r.mode);
    forall j
      ensures SettlesAlone(j, r, h) <==> Settles(j, [r], h)
    {
      OneRuleSettles(j, r, h);
    }
    RedactsTwiceIff([r], h);
  }

  // ---------- the engine ----------

  lemma OneRule(j: Json, r: Rule, h: Digest)
    ensures WalkAll(j, [r], h) == Walk(j, r.path, r.mode, h)
  {
    assert [r][..0] == [];
    assert WalkAll(j, [], h) == j;
  }

  /** The reported match is exact: a rule matches if and only if the document has a place that its
      path points at and the path ends in a field. */
  lemma {:induction false} FindsIff(j: Json, path: seq<Selector>)
    ensures Finds(j, path) <==> EndsInField(path) && exists loc :: PointsAt(path, loc) && Exists(j, loc)
    decreases |path|
  {
    if Finds(j, path) {
      FoundSomewhere(j, path);
    }
    if loc :| EndsInField(path) && PointsAt(path, loc) && Exists(j, loc) {
      PlaceIsFound(j, path, loc);
    }
  }

  lemma {:induction false} FoundSomewhere(j: Json, path: seq<Selector>)
    requires Finds(j, path)
    ensures EndsInField(path) && exists loc :: PointsAt(path, loc) && Exists(j, loc)
    decreases |path|
  {
    match path[0] {
      case Field(name) =>
        FoundBelow(j, path, Key(name));
      case Wild =>
        var i :| 0 <= i < |j.items| && Finds(j.items[i], path[1..]);
        FoundBelow(j, path, Item(i));
      case Index(n) =>
        FoundBelow(j, path, Item(n));
    }
  }

  lemma FoundBelow(j: Json, path: seq<Selector>, step: Step)
    requires path != [] && HasChild(j, step) && Selects(path[0], step)
    requires if |path| == 1 then path[0].Field? else Finds(Child(j, step), path[1..])
    ensures EndsInField(path) && exists loc :: PointsAt(path, loc) && Exists(j, loc)
    decreases |path|, 0
  {
    var rest: seq<Step> := [];
    if |path| > 1 {
      FoundSomewhere(Child(j, step), path[1..]);
      rest :| PointsAt(path[1..], rest) && Exists(Child(j, step), rest);
    }
    var loc := [step] + rest;
    assert loc[1..] == rest;
    assert PointsAt(path, loc) && Exists(j, loc);
  }

  lemma {:induction false} PlaceIsFound(j: Json, path: seq<Selector>, loc: seq<Step>)
    requires EndsInField(path) && PointsAt(path, loc) && Exists(j, loc)
    ensures Finds(j, path)
    decreases |path|
  {
    assert Selects(path[0], loc[0]);
    if |path| > 1 {
      var p, l := path[1..], loc[1..];
      forall i | 0 <= i < |p|
        ensures Selects(p[i], l[i])
      {
        assert Selects(path[i + 1], loc[i + 1]);
      }
      PlaceIsFound(Child(j, loc[0]), p, l);
    }
  }

  /** If a rule finds nothing, it changes nothing. */
  lemma {:induction false} NotFoundIsUnchanged(j: Json, path: seq<Selector>, mode: Mode, h: Digest)
    requires !Finds(j, path)
    ensures Walk(j, path, mode, h) == j
    decreases |path|
  {
    if path != [] {
      var rest := path[1..];
      match path[0]
      case Bad =>
      case Wild =>
        if j.Arr? {
          forall i | 0 <= i < |j.items|
            ensures Walk(j.items[i], rest, mode, h) == j.items[i]
          {
            NotFoundIsUnchanged(j.items[i], rest, mode, h);
          }
        }
      case Index(n) =>
        if j.Arr? && 0 <= n < |j.items| {
          NotFoundIsUnchanged(j.items[n], rest, mode, h);
        }
      case Field(name) =>
        if j.Obj? && name in j.fields {
          NotFoundIsUnchanged(j.fields[name], rest, mode, h);
          assert j.fields[name := j.fields[name]] == j.fields;
        }
    }
  }
}
