/** Prefix filters in SQL (internal/storage/sqlite.go): user text is escaped and followed by `%`,
    for a LIKE with escape character `\`.
  */
module LikeEscape {

  /** escapeLikePrefix: a backslash before every backslash, percent sign and underscore. */
  function Escape(s: string): string {
    if s == "" then ""
    else if s[0] == '\\' || s[0] == '%' || s[0] == '_' then ['\\', s[0]] + Escape(s[1..])
    else [s[0]] + Escape(s[1..])
  }

  /** LIKE's case rule: ASCII letters match regardless of case. */
  function Fold(c: char): char {
    if 'A' <= c <= 'Z' then (c as int + 32) as char else c
  }

  /** value LIKE pattern ESCAPE '\': `%` stands for any text, `_` for any one character, and a
      backslash takes the next character literally; nothing matches a pattern that ends in it. */
  predicate Like(pattern: string, value: string)
    decreases |pattern| + |value|
  {
    if pattern == "" then value == ""
    else if pattern[0] == '%' then
      Like(pattern[1..], value) || (value != "" && Like(pattern, value[1..]))
    else if pattern[0] == '_' then value != "" && Like(pattern[1..], value[1..])
    else if pattern[0] == '\\' then
      |pattern| > 1 && value != "" && Fold(pattern[1]) == Fold(value[0]) && Like(pattern[2..], value[1..])
    else value != "" && Fold(pattern[0]) == Fold(value[0]) && Like(pattern[1..], value[1..])
  }

  /** `s` is a prefix of `v` under LIKE's case rule. */
  predicate FoldPrefix(s: string, v: string) {
    |s| <= |v| && forall i :: 0 <= i < |s| ==> Fold(s[i]) == Fold(v[i])
  }

  /** Literal text in front of a pattern is matched character by character. */
  lemma {:induction false} EscapedHead(s: string, rest: string, v: string)
    ensures Like(Escape(s) + rest, v) <==> FoldPrefix(s, v) && Like(rest, v[|s|..])
    decreases |s|
  {
    if s == "" {
      assert Escape(s) + rest == rest && v[0..] == v;
    } else {
      var p, tail := Escape(s) + rest, Escape(s[1..]) + rest;
      assert if s[0] == '\\' || s[0] == '%' || s[0] == '_' then p == ['\\', s[0]] + tail else p == [s[0]] + tail;
      assert s[0] == '\\' || s[0] == '%' || s[0] == '_' ==> p[2..] == tail;
      assert !(s[0] == '\\' || s[0] == '%' || s[0] == '_') ==> p[1..] == tail;
      if v != "" {
        EscapedHead(s[1..], rest, v[1..]);
        HeadAndTail(s, v);
        assert |s| <= |v| ==> v[1..][|s| - 1..] == v[|s|..];
      }
    }
  }

  lemma HeadAndTail(s: string, v: string)
    requires s != "" && v != ""
    ensures FoldPrefix(s, v) <==> Fold(s[0]) == Fold(v[0]) && FoldPrefix(s[1..], v[1..])
  {
    if Fold(s[0]) == Fold(v[0]) && FoldPrefix(s[1..], v[1..]) {
      forall i | 0 <= i < |s|
        ensures Fold(s[i]) == Fold(v[i])
      {
        assert i > 0 ==> s[1..][i - 1] == s[i] && v[1..][i - 1] == v[i];
      }
    }
  }

  lemma {:induction false} PercentMatchesAll(v: string)
    ensures Like("%", v)
  {
    assert "%"[1..] == "";
    if v != "" {
      PercentMatchesAll(v[1..]);
    }
  }

  /** Escaping preserves meaning: the filter built from `s` matches exactly the values that start
      with `s`, whatever wildcards and backslashes `s` contains. */
  lemma PrefixFilterIsExact(s: string, v: string)
    ensures Like(Escape(s) + "%", v) <==> FoldPrefix(s, v)
  {
    EscapedHead(s, "%", v);
    if |s| <= |v| {
      PercentMatchesAll(v[|s|..]);
    }
  }

  /** Without escaping it would not: the raw text a_ followed by % also matches abc. */
  lemma RawWildcardOvermatches()
    ensures Like("a_" + "%", "abc") && !FoldPrefix("a_", "abc")
  {
    assert "a_" + "%" == "a_%" && "a_%"[1..] == "_%" && "_%"[1..] == "%";
    assert "abc"[1..] == "bc" && "bc"[1..] == "c";
    PercentMatchesAll("c");
    assert Fold("a_"[1]) != Fold("abc"[1]);
  }
}
