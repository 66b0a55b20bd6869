/** The path syntax of redaction rules (internal/pii/jsonpath.go, parsePath): a subset of JSONPath
    with name, wildcard and index selectors, sections 2.3.1 to 2.3.3 of RFC 9535.
  */
module RedactionPaths {
  import opened Options
  import opened Text
  import opened Decimal
  import opened Redaction
  import JsonTree

  /** The segments of one part between dots: a field name, a bracket expression, or both. */
  function PartSegments(part: string): seq<string> {
    if part == "" then []
    else if '[' in part then
      var idx := IndexOf(part, '[');
      if idx == 0 then [part] else [part[..idx], part[idx..]]
    else [part]
  }

  function Flatten(parts: seq<string>): seq<string> {
    if parts == [] then [] else PartSegments(parts[0]) + Flatten(parts[1..])
  }

  function Stripped(path: string): string {
    if "$." <= path then path[2..] else if "$" <= path then path[1..] else path
  }

  function Segments(path: string): seq<string> {
    var p := Stripped(path);
    if p == "" then [] else Flatten(Split(p, '.'))
  }

  /** parsePath, with its loop over the dotted parts. */
  method ParsePath(path: string) returns (segments: seq<string>)
    ensures segments == Segments(path)
  {
    var p := Stripped(path);
    if p == "" {
      return [];
    }
    segments := PartsToSegments(Split(p, '.'));
  }

  method PartsToSegments(dotParts: seq<string>) returns (segments: seq<string>)
    ensures segments == Flatten(dotParts)
  {
    segments := [];
    for i := 0 to |dotParts|
      invariant segments + Flatten(dotParts[i..]) == Flatten(dotParts)
    {
      FlattenStep(dotParts, i, segments);
      var segs := PartToSegments(dotParts[i]);
      segments := segments + segs;
    }
  }

  lemma FlattenStep(parts: seq<string>, i: nat, done: seq<string>)
    requires i < |parts|
    ensures done + Flatten(parts[i..]) == (done + PartSegments(parts[i])) + Flatten(parts[i + 1..])
  {
    assert parts[i..][1..] == parts[i + 1..];
  }

  /** One turn of the loop. */
  method PartToSegments(part: string) returns (segs: seq<string>)
    ensures segs == PartSegments(part)
  {
    segs := [];
    if part == "" {
      return;
    }
    if '[' in part {
      var idx := IndexOf(part, '[');
      var fieldName := part[..idx];
      if fieldName != "" {
        segs := segs + [fieldName];
      }
      segs := segs + [part[idx..]];
      assert idx == 0 ==> part[idx..] == part;
    } else {
      segs := segs + [part];
    }
  }

  /** How walkSegments and walkArraySegment read a segment. */
  function SelectorOf(seg: string): Selector {
    if |seg| > 1 && seg[0] == '[' && seg[|seg| - 1] == ']' then
      if seg == "[*]" then Wild
      else
        var n := Atoi(seg[1..|seg| - 1]);
        if n.None? then Bad else Index(n.value)
    else Field(seg)
  }

  function Selectors(segs: seq<string>): seq<Selector> {
    seq(|segs|, i requires 0 <= i < |segs| => SelectorOf(segs[i]))
  }

  function PathOf(path: string): seq<Selector> {
    Selectors(Segments(path))
  }

  // ---------- writing a path ----------

  function SegmentText(sel: Selector): string {
    match sel
    case Field(name) => name
    case Wild => "[*]"
    case Index(n) => "[" + (if n >= 0 then Dec(n) else "-" + Dec(-n)) + "]"
    case Bad => "[]"
  }

  /** Selectors that can be written: field names without dots and brackets, and array indices. */
  predicate Writable(sel: Selector) {
    match sel
    case Field(name) => name != "" && '.' !in name && '[' !in name
    case Wild => true
    case Index(n) => n >= 0
    case Bad => false
  }

  /** No two bracket selectors in a row. */
  predicate NoPairs(path: seq<Selector>) {
    forall i :: 0 < i < |path| ==> path[i].Field? || path[i - 1].Field?
  }

  predicate Simple(path: seq<Selector>) {
    (forall i :: 0 <= i < |path| ==> Writable(path[i])) && NoPairs(path)
  }

  /** The path as text after the "$". */
  function Tail(path: seq<Selector>): string {
    if path == [] then ""
    else (if path[0].Field? then "." else "") + SegmentText(path[0]) + Tail(path[1..])
  }

  function Render(path: seq<Selector>): string {
    "$" + Tail(path)
  }

  /** The dotted parts of the text: each field with the bracket after it, if any. */
  function Groups(path: seq<Selector>): seq<string> {
    if path == [] then []
    else if path[0].Field? && |path| > 1 && !path[1].Field?
    then [SegmentText(path[0]) + SegmentText(path[1])] + Groups(path[2..])
    else [SegmentText(path[0])] + Groups(path[1..])
  }

  function Texts(path: seq<Selector>): seq<string> {
    seq(|path|, i requires 0 <= i < |path| => SegmentText(path[i]))
  }

  lemma BracketText(sel: Selector)
    requires Writable(sel) && !sel.Field?
    ensures var t := SegmentText(sel);
            |t| > 1 && t[0] == '[' && t[|t| - 1] == ']' && '.' !in t && SelectorOf(t) == sel
  {
    if sel.Index? {
      var d := Dec(sel.n);
      var t := "[" + d + "]";
      assert t[1..|t| - 1] == d;
      AtoiOfDec(sel.n);
      assert IsDigit(d[0]) && t[1] == d[0] && "[*]"[1] == '*';
    }
  }

  /** What a bracket expression selects goes by what is inside: a star or a number. */
  lemma BracketIs(inner: string)
    ensures SelectorOf("[" + inner + "]")
         == if inner == "*" then Wild else if Atoi(inner).Some? then Index(Atoi(inner).value) else Bad
  {
    var seg := "[" + inner + "]";
    assert seg[1..|seg| - 1] == inner && "[*]"[1..2] == "*";
  }

  /** A negative number in brackets selects nothing; one with a plus sign is an index like any other. */
  lemma SignedIndices(n: nat, step: JsonTree.Step)
    ensures n > 0 ==> !Selects(SelectorOf("[" + ("-" + Dec(n)) + "]"), step)
    ensures Selects(SelectorOf("[" + ("+" + Dec(n)) + "]"), step) <==> step == JsonTree.Item(n)
  {
    AtoiOfSigned(n);
    BracketIs("-" + Dec(n));
    BracketIs("+" + Dec(n));
    assert ("-" + Dec(n))[0] != "*"[0] && ("+" + Dec(n))[0] != "*"[0];
  }

  /** A bracket that holds neither a star nor a number selects nothing. */
  lemma OtherBracketsSelectNothing(inner: string, step: JsonTree.Step)
    requires inner != "*" && Atoi(inner).None?
    ensures !Selects(SelectorOf("[" + inner + "]"), step)
  {
    BracketIs(inner);
  }

  lemma FieldText(sel: Selector)
    requires Writable(sel) && sel.Field?
    ensures SelectorOf(SegmentText(sel)) == sel
  {
  }

  lemma GroupSegments(f: Selector, b: Selector)
    requires Writable(f) && f.Field? && Writable(b) && !b.Field?
    ensures PartSegments(SegmentText(f) + SegmentText(b)) == [SegmentText(f), SegmentText(b)]
    ensures '.' !in SegmentText(f) + SegmentText(b)
  {
    BracketText(b);
    var t := SegmentText(b);
    assert t == ['['] + t[1..];
    assert SegmentText(f) + t == f.name + ['['] + t[1..];
    IndexAfterField(f.name, t[1..], '[');
  }

  lemma OneSegment(sel: Selector)
    requires Writable(sel)
    ensures PartSegments(SegmentText(sel)) == [SegmentText(sel)] && '.' !in SegmentText(sel)
  {
    if !sel.Field? {
      BracketText(sel);
      BracketPart(SegmentText(sel));
    }
  }

  /** Reading the parts gives the segments back. */
  lemma {:induction false} FlattenGroups(path: seq<Selector>)
    requires forall i :: 0 <= i < |path| ==> Writable(path[i])
    ensures Flatten(Groups(path)) == Texts(path)
    decreases |path|
  {
    if path != [] {
      if path[0].Field? && |path| > 1 && !path[1].Field? {
        FlattenGroups(path[2..]);
        PairFirst(path);
      } else {
        FlattenGroups(path[1..]);
        SingleFirst(path);
      }
    }
  }

  lemma {:induction false} GroupsHaveNoDots(path: seq<Selector>)
    requires forall i :: 0 <= i < |path| ==> Writable(path[i])
    ensures forall i :: 0 <= i < |Groups(path)| ==> '.' !in Groups(path)[i]
    decreases |path|
  {
    if path != [] {
      if path[0].Field? && |path| > 1 && !path[1].Field? {
        GroupsHaveNoDots(path[2..]);
        GroupSegments(path[0], path[1]);
      } else {
        GroupsHaveNoDots(path[1..]);
        OneSegment(path[0]);
      }
    }
  }

  lemma {:induction false} PairFirst(path: seq<Selector>)
    requires |path| > 1 && Writable(path[0]) && path[0].Field? && Writable(path[1]) && !path[1].Field?
    requires Flatten(Groups(path[2..])) == Texts(path[2..])
    ensures Flatten(Groups(path)) == Texts(path)
  {
    var part, rest := SegmentText(path[0]) + SegmentText(path[1]), Groups(path[2..]);
    GroupSegments(path[0], path[1]);
    assert Groups(path) == [part] + rest;
    FlattenCons(part, rest);
    TextsSplit(path, 2);
    assert Texts(path[..2]) == [SegmentText(path[0]), SegmentText(path[1])];
  }

  lemma {:induction false} SingleFirst(path: seq<Selector>)
    requires path != [] && Writable(path[0]) && !(path[0].Field? && |path| > 1 && !path[1].Field?)
    requires Flatten(Groups(path[1..])) == Texts(path[1..])
    ensures Flatten(Groups(path)) == Texts(path)
  {
    var part, rest := SegmentText(path[0]), Groups(path[1..]);
    OneSegment(path[0]);
    assert Groups(path) == [part] + rest;
    FlattenCons(part, rest);
    TextsSplit(path, 1);
    assert Texts(path[..1]) == [part];
  }

  lemma FlattenCons(p: string, rest: seq<string>)
    ensures Flatten([p] + rest) == PartSegments(p) + Flatten(rest)
  {
    assert ([p] + rest)[1..] == rest;
  }

  lemma TextsSplit(path: seq<Selector>, n: nat)
    requires n <= |path|
    ensures Texts(path) == Texts(path[..n]) + Texts(path[n..])
  {
  }

  /** How many selectors the first part takes up. */
  function GroupSize(path: seq<Selector>): nat
    requires path != []
  {
    if path[0].Field? && |path| > 1 && !path[1].Field? then 2 else 1
  }

  function Dot(path: seq<Selector>): string {
    if path != [] && path[0].Field? then "." else ""
  }

  lemma Regroup(a: string, b: string, c: string, d: string)
    ensures a + b + ("" + c + d) == a + (b + c) + d
    ensures a + b + ("." + c) == a + (b + "." + c)
  {
  }

  /** The part the text starts with. */
  function FirstPart(path: seq<Selector>): string
    requires path != []
  {
    if GroupSize(path) == 2 then SegmentText(path[0]) + SegmentText(path[1]) else SegmentText(path[0])
  }

  lemma FirstGroup(path: seq<Selector>)
    requires path != []
    ensures Groups(path) == [FirstPart(path)] + Groups(path[GroupSize(path)..])
  {
  }

  lemma TailSplits(path: seq<Selector>)
    requires path != []
    ensures Tail(path) == Dot(path) + FirstPart(path) + Tail(path[GroupSize(path)..])
  {
    if GroupSize(path) == 2 {
      var next := path[1..];
      assert next[1..] == path[2..] && next[0] == path[1];
      Regroup(Dot(path), SegmentText(path[0]), SegmentText(path[1]), Tail(path[2..]));
    }
  }

  /** The text is the parts with dots between them. */
  lemma {:induction false} TailIsJoined(path: seq<Selector>)
    requires Simple(path) && path != []
    ensures Tail(path) == Dot(path) + Join(Groups(path), '.')
    decreases |path|
  {
    var k := GroupSize(path);
    FirstGroup(path);
    TailSplits(path);
    if |path| > k {
      SimpleRest(path, k);
      TailIsJoined(path[k..]);
      JoinHead(FirstPart(path), Groups(path[k..]));
      Regroup(Dot(path), FirstPart(path), Join(Groups(path[k..]), '.'), "");
    } else {
      assert path[k..] == [];
      JoinOne(FirstPart(path));
    }
  }

  lemma SimpleRest(path: seq<Selector>, k: nat)
    requires Simple(path) && path != [] && k == GroupSize(path) < |path|
    ensures Simple(path[k..]) && Dot(path[k..]) == "."
  {
    assert path[k].Field?;
  }

  lemma JoinOne(part: string)
    ensures Join([part] + [], '.') == part
  {
    assert [part] + [] == [part];
  }

  lemma JoinHead(head: string, rest: seq<string>)
    requires rest != []
    ensures Join([head] + rest, '.') == head + "." + Join(rest, '.')
  {
    assert ([head] + rest)[1..] == rest;
  }

  lemma {:induction false} SplitJoined(parts: seq<string>)
    requires parts != [] && forall p :: p in parts ==> '.' !in p
    ensures Split(Join(parts, '.'), '.') == parts
    decreases |parts|
  {
    assert parts[0] in parts;
    if |parts| > 1 {
      SplitField(parts[0], Join(parts[1..], '.'));
      SplitJoined(parts[1..]);
    }
  }

  lemma SplitField(part: string, rest: string)
    requires '.' !in part
    ensures Split(part + ['.'] + rest, '.') == [part] + Split(rest, '.')
  {
    var s := part + ['.'] + rest;
    IndexAfterField(part, rest, '.');
    assert s[..|part|] == part && s[|part| + 1..] == rest;
  }

  /** Reading back: a written path without adjacent brackets parses to its own selectors. */
  lemma ParseRendered(path: seq<Selector>)
    requires Simple(path)
    ensures PathOf(Render(path)) == path
  {
    if path == [] {
      assert Render(path) == "$" && Stripped("$") == "";
    } else {
      TailIsJoined(path);
      FlattenGroups(path);
      GroupsHaveNoDots(path);
      var text := Join(Groups(path), '.');
      StrippedRender(path, text);
      SplitJoined(Groups(path));
      assert Segments(Render(path)) == Texts(path);
      forall i | 0 <= i < |path|
        ensures SelectorOf(SegmentText(path[i])) == path[i]
      {
        if path[i].Field? { FieldText(path[i]); } else { BracketText(path[i]); }
      }
    }
  }

  lemma StrippedRender(path: seq<Selector>, text: string)
    requires Simple(path) && path != [] && Tail(path) == Dot(path) + text && text == Join(Groups(path), '.')
    ensures Stripped(Render(path)) == text && text != ""
  {
    FirstGroup(path);
    FirstPartStarts(path);
    JoinStarts(FirstPart(path), Groups(path[GroupSize(path)..]));
    StripPrefix(Dot(path), text);
  }

  lemma StripPrefix(dot: string, text: string)
    requires dot == "." || (dot == "" && text != "" && text[0] == '[')
    ensures Stripped("$" + (dot + text)) == text
  {
    var p := "$" + (dot + text);
    if dot == "." {
      assert p == "$." + text;
    } else {
      assert p == "$" + text && p[1] == '[' && "$."[1] == '.';
    }
  }

  lemma FirstPartStarts(path: seq<Selector>)
    requires path != [] && Writable(path[0])
    ensures FirstPart(path) != "" && (!path[0].Field? ==> FirstPart(path)[0] == '[')
  {
    if !path[0].Field? { BracketText(path[0]); }
  }

  lemma JoinStarts(head: string, rest: seq<string>)
    requires head != ""
    ensures var s := Join([head] + rest, '.'); s != "" && s[0] == head[0]
  {
  }

  // ---------- and only then ----------

  predicate Opens(s: string) {
    s != "" && s[0] == '['
  }

  /** No dot is followed by an opening bracket. */
  predicate DotsBeforeNames(s: string) {
    forall i :: 0 <= i < |s| - 1 && s[i] == '.' ==> s[i + 1] != '['
  }

  lemma {:induction false} SplitBeforeNames(s: string)
    requires DotsBeforeNames(s)
    ensures forall i :: 0 < i < |Split(s, '.')| ==> !Opens(Split(s, '.')[i])
    ensures Opens(Split(s, '.')[0]) ==> Opens(s)
    decreases |s|
  {
    if '.' in s {
      var at := IndexOf(s, '.');
      var rest := s[at + 1..];
      assert forall i :: 0 <= i < |rest| ==> rest[i] == s[at + 1 + i];
      SplitBeforeNames(rest);
    }
  }

  /** Two bracket segments never follow each other. */
  predicate Alternates(segs: seq<string>) {
    forall i :: 0 < i < |segs| ==> !(Opens(segs[i - 1]) && Opens(segs[i]))
  }

  lemma {:induction false} FlattenAlternates(parts: seq<string>)
    requires forall i :: 0 < i < |parts| ==> !Opens(parts[i])
    ensures Alternates(Flatten(parts))
    ensures parts != [] && !Opens(parts[0]) && Flatten(parts) != [] ==> !Opens(Flatten(parts)[0])
  {
    if parts != [] {
      FlattenAlternates(parts[1..]);
      PartAlternates(parts[0]);
      JoinAlternates(PartSegments(parts[0]), Flatten(parts[1..]));
    }
  }

  lemma PartAlternates(part: string)
    ensures Alternates(PartSegments(part))
    ensures !Opens(part) && PartSegments(part) != [] ==> !Opens(PartSegments(part)[0])
  {
    var segs := PartSegments(part);
    assert |segs| == 2 ==> !Opens(segs[0]);
  }

  lemma JoinAlternates(a: seq<string>, b: seq<string>)
    requires Alternates(a) && Alternates(b) && (b != [] ==> !Opens(b[0]))
    ensures Alternates(a + b)
  {
    var c := a + b;
    assert forall i :: |a| <= i < |c| ==> c[i] == b[i - |a|];
  }

  lemma {:induction false} TailDots(path: seq<Selector>)
    requires forall i :: 0 <= i < |path| ==> Writable(path[i])
    ensures DotsBeforeNames(Tail(path))
  {
    if path != [] {
      TailDots(path[1..]);
      OneSegment(path[0]);
      SegmentDots(path[0].Field?, SegmentText(path[0]), Tail(path[1..]));
      if path[0].Field? { assert !Opens(path[0].name); } else { BracketText(path[0]); }
    }
  }

  lemma SegmentDots(dotted: bool, text: string, rest: string)
    requires '.' !in text && text != "" && (dotted ==> !Opens(text)) && DotsBeforeNames(rest)
    ensures DotsBeforeNames((if dotted then "." else "") + text + rest)
  {
    var head := (if dotted then "." else "") + text;
    var s, off := head + rest, |head| - |text|;
    assert forall k :: off <= k < |head| ==> s[k] == text[k - off];
    forall i | 0 <= i < |s| - 1 && s[i] == '.'
      ensures s[i + 1] != '['
    {
      assert dotted ==> s[1] == text[0];
      assert i >= |head| ==> s[i] == rest[i - |head|] && s[i + 1] == rest[i + 1 - |head|];
    }
  }

  lemma ParsedAlternates(path: seq<Selector>)
    requires forall i :: 0 <= i < |path| ==> Writable(path[i])
    ensures Alternates(Segments(Render(path)))
  {
    var text := Stripped(Render(path));
    TailDots(path);
    StrippedDots(Tail(path));
    SplitBeforeNames(text);
    FlattenAlternates(Split(text, '.'));
  }

  lemma StrippedDots(tail: string)
    requires DotsBeforeNames(tail)
    ensures DotsBeforeNames(Stripped("$" + tail))
  {
    var p := "$" + tail;
    assert p[1..] == tail;
    if "$." <= p {
      assert p[2..] == tail[1..];
      assert forall i :: 0 <= i < |tail[1..]| ==> tail[1..][i] == tail[i + 1];
    }
  }

  /** Exactly which paths read back: of the paths that can be written down, those without two
      bracket selectors in a row. */
  lemma ParsesBackIff(path: seq<Selector>)
    requires forall i :: 0 <= i < |path| ==> Writable(path[i])
    ensures PathOf(Render(path)) == path <==> Simple(path)
  {
    if Simple(path) {
      ParseRendered(path);
    } else {
      ParsedAlternates(path);
      NoBracketPairs(Segments(Render(path)));
    }
  }

  lemma NoBracketPairs(segs: seq<string>)
    requires Alternates(segs)
    ensures NoPairs(Selectors(segs))
  {
  }

  /** With two brackets in a row it does not: "[i][j]" is read as one segment, which selects
      nothing. */
  lemma AdjacentBracketsAreLost(i: string, j: string)
    requires i != "" && AllDigits(i) && AllDigits(j)
    ensures PathOf("$" + ("[" + i + "][" + j + "]")) == [Bad]
  {
    var part := "[" + i + "][" + j + "]";
    TwoBrackets(i, j);
    OneSegmentPath(part);
    assert Selectors([part])[0] == Bad;
  }

  lemma OneSegmentPath(part: string)
    requires part != "" && part[0] == '[' && '.' !in part
    ensures Segments("$" + part) == [part]
  {
    StripPrefix("", part);
    assert "" + part == part;
    BracketPart(part);
    FlattenCons(part, []);
    assert [part] + [] == [part];
    assert Stripped("$" + part) == part && Split(part, '.') == [part];
  }

  lemma BracketPart(part: string)
    requires part != "" && part[0] == '['
    ensures PartSegments(part) == [part]
  {
    assert part == "" + ['['] + part[1..];
    IndexAfterField("", part[1..], '[');
  }

  lemma TwoBrackets(i: string, j: string)
    requires i != "" && AllDigits(i) && AllDigits(j)
    ensures var part := "[" + i + "][" + j + "]"; SelectorOf(part) == Bad && '.' !in part
  {
    var part := "[" + i + "][" + j + "]";
    var inner := part[1..|part| - 1];
    assert inner == i + "][" + j;
    assert inner[|i|] == ']' && inner[0] == i[0] && IsDigit(i[0]);
    assert !AllDigits(inner);
    assert part[1] == i[0] && "[*]"[1] == '*';
  }
}
