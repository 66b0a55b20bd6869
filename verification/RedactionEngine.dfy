/** The two entry points of the redaction engine (internal/pii/engine.go). */
module RedactionEngine {
  import opened Options
  import opened JsonTree
  import opened Redaction
  import opened RedactionTheorems
  import opened RedactionPaths

  /** A rule as configured: a path in text form and a mode. */
  datatype FieldRedaction = FieldRedaction(jsonPath: string, mode: Mode)

  function Parsed(rules: seq<FieldRedaction>): (r: seq<Rule>)
    ensures |r| == |rules|
  {
    seq(|rules|, i requires 0 <= i < |rules| => Rule(PathOf(rules[i].jsonPath), rules[i].mode))
  }

  /** Whether any of the rules, applied in turn, finds something. */
  predicate AnyFinds(j: Json, rules: seq<Rule>, h: Digest) {
    rules != [] &&
      var n := |rules| - 1;
      AnyFinds(j, rules[..n], h) || Finds(WalkAll(j, rules[..n], h), rules[n].path)
  }

  lemma {:induction false} NoneFindsIsUnchanged(j: Json, rules: seq<Rule>, h: Digest)
    requires !AnyFinds(j, rules, h)
    ensures WalkAll(j, rules, h) == j
  {
    if rules != [] {
      var n := |rules| - 1;
      NoneFindsIsUnchanged(j, rules[..n], h);
      NotFoundIsUnchanged(j, rules[n].path, rules[n].mode, h);
    }
  }

  lemma OneMoreRule(j: Json, rules: seq<Rule>, h: Digest, i: nat)
    requires i < |rules|
    ensures var before := WalkAll(j, rules[..i], h);
            && WalkAll(j, rules[..i + 1], h) == Walk(before, rules[i].path, rules[i].mode, h)
            && AnyFinds(j, rules[..i + 1], h) == (AnyFinds(j, rules[..i], h) || Finds(before, rules[i].path))
  {
    assert rules[..i + 1][..i] == rules[..i];
  }

  /** The loop over the rules that both entry points share. */
  method ApplyRules(body: Json, rules: seq<FieldRedaction>, h: Digest) returns (data: Json, anyMatched: bool)
    ensures data == WalkAll(body, Parsed(rules), h)
    ensures anyMatched == AnyFinds(body, Parsed(rules), h)
  {
    data, anyMatched := body, false;
    ghost var parsed := Parsed(rules);
    for i := 0 to |rules|
      invariant data == WalkAll(body, parsed[..i], h)
      invariant anyMatched == AnyFinds(body, parsed[..i], h)
    {
      OneMoreRule(body, parsed, h, i);
      var path := PathOf(rules[i].jsonPath);
      if Finds(data, path) {
        anyMatched := true;
      }
      data := Walk(data, path, rules[i].mode, h);
    }
    assert parsed[..|rules|] == parsed;
  }

  /** RedactForLogging: `body` is None when it is not JSON. The caller keeps the original bytes when
      nothing matched; either way the document it logs is the redacted one. */
  method RedactForLogging(body: Option<Json>, rules: seq<FieldRedaction>, h: Digest)
    returns (out: Option<Json>, matched: bool)
    ensures body.None? ==> out == None && !matched
    ensures body.Some? ==> out == Some(WalkAll(body.value, Parsed(rules), h))
    ensures body.Some? ==> matched == AnyFinds(body.value, Parsed(rules), h)
  {
    if |rules| == 0 || body.None? {
      return body, false;
    }
    var data, anyMatched := ApplyRules(body.value, rules, h);
    if !anyMatched {
      NoneFindsIsUnchanged(body.value, Parsed(rules), h);
      return body, false;
    }
    return Some(data), true;
  }

  /** The placeholder document of RedactFullBody. */
  function FullBody(endpoint: string): Json {
    Obj(map["redacted" := Other("true"), "endpoint" := Str(endpoint)])
  }

  /** RedactRequestBodyForLogging: a rule whose path is just "$" replaces the whole body. */
  method RedactRequestBody(endpoint: string, body: Option<Json>, rules: seq<FieldRedaction>, h: Digest)
    returns (out: Option<Json>, matched: bool)
    ensures (exists i :: 0 <= i < |rules| && rules[i].jsonPath == "$") ==>
              matched && out == Some(Obj(map["redacted" := Other("true"), "endpoint" := Str(endpoint)]))
    ensures !(exists i :: 0 <= i < |rules| && rules[i].jsonPath == "$") ==>
              && (body.None? ==> out == None && !matched)
              && (body.Some? ==> out == Some(WalkAll(body.value, Parsed(rules), h)))
              && (body.Some? ==> matched == AnyFinds(body.value, Parsed(rules), h))
  {
    for i := 0 to |rules|
      invariant forall k :: 0 <= k < i ==> rules[k].jsonPath != "$"
    {
      if rules[i].jsonPath == "$" {
        return Some(FullBody(endpoint)), true;
      }
    }
    out, matched := RedactForLogging(body, rules, h);
  }

  /** The redacted request body shows nothing a "$" rule covers, which is everything: whatever the
      body was, it is not looked at. On the response side the same rule would redact nothing. */
  lemma WholeBodyRuleNeedsRequestSide(body: Json, h: Digest)
    ensures WalkAll(body, Parsed([FieldRedaction("$", Redact)]), h) == body
  {
    var r := Parsed([FieldRedaction("$", Redact)]);
    assert Stripped("$") == "" && Segments("$") == [];
    assert PathOf("$") == [] && r[0] == Rule([], Redact);
    assert r == [Rule([], Redact)];
    OneRule(body, Rule([], Redact), h);
  }

  /** From the configured text to the logged document: a rule written with a simple path that ends
      in a field leaves nothing readable at any place the path points at, whatever other rules run
      before and after it. */
  lemma ConfiguredRuleRedacts(body: Json, rules: seq<FieldRedaction>, h: Digest, k: nat,
                              path: seq<Selector>, loc: seq<Step>)
    requires k < |rules| && rules[k].jsonPath == Render(path)
    requires Simple(path) && EndsInField(path) && PointsAt(path, loc)
    ensures Clean(Peek(WalkAll(body, Parsed(rules), h), loc), h)
  {
    ParseRendered(path);
    RedactionIsComplete(body, Parsed(rules), h, k, loc);
  }
}
