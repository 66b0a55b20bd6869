/** The string operations the program uses, and what is needed of them. */
module Text {
  import opened Options

  /** strings.TrimRight(s, "/"). */
  function TrimSlashes(s: string): string {
    if s != "" && s[|s| - 1] == '/' then TrimSlashes(s[..|s| - 1]) else s
  }

  /** strings.Split(s, sep) for a one-character separator. */
  function Split(s: string, sep: char): (parts: seq<string>)
    ensures |parts| >= 1
  {
    if sep !in s then [s]
    else
      var i := IndexOf(s, sep);
      [s[..i]] + Split(s[i + 1..], sep)
  }

  /** The position of the first `c`. */
  function IndexOf(s: string, c: char): (i: nat)
    requires c in s
    ensures i < |s| && s[i] == c && c !in s[..i]
  {
    if s[0] == c then 0
    else
      assert s == [s[0]] + s[1..];
      var i := IndexOf(s[1..], c) + 1;
      assert s[..i] == [s[0]] + s[1..][..i - 1];
      i
  }

  /** strings.Join(parts, sep). */
  function Join(parts: seq<string>, sep: char): string {
    if parts == [] then ""
    else if |parts| == 1 then parts[0]
    else parts[0] + [sep] + Join(parts[1..], sep)
  }

  /** strings.Index: the first position at which `sub` occurs, or None. */
  function Find(s: string, sub: string): (r: Option<nat>)
    ensures r.Some? ==> r.value + |sub| <= |s| && sub <= s[r.value..]
  {
    if sub <= s then Some(0)
    else if s == "" then None
    else
      var r := Find(s[1..], sub);
      if r.None? then None else Some(r.value + 1)
  }

  lemma {:induction false} JoinSplit(s: string, sep: char)
    ensures Join(Split(s, sep), sep) == s
    decreases |s|
  {
    if sep in s {
      var i := IndexOf(s, sep);
      var rest := Split(s[i + 1..], sep);
      JoinSplit(s[i + 1..], sep);
      assert ([s[..i]] + rest)[1..] == rest;
      assert s == s[..i] + [sep] + s[i + 1..];
    }
  }

  /** Leaving off the last part leaves a prefix. */
  lemma {:induction false} JoinFront(parts: seq<string>, sep: char)
    requires |parts| > 1
    ensures var n := |parts| - 1;
            Join(parts, sep) == Join(parts[..n], sep) + [sep] + parts[n]
    decreases |parts|
  {
    var n := |parts| - 1;
    if n > 1 {
      JoinFront(parts[1..], sep);
      assert parts[1..][..n - 1] == parts[..n][1..];
    } else {
      assert parts[..1] == [parts[0]] && parts[1..] == [parts[1]];
    }
  }

  lemma {:induction false} TrimIsPrefix(s: string)
    ensures TrimSlashes(s) <= s
    ensures TrimSlashes(s) != "" ==> TrimSlashes(s)[|TrimSlashes(s)| - 1] != '/'
    ensures TrimSlashes(s) == "" <==> forall i :: 0 <= i < |s| ==> s[i] == '/'
  {
    if s != "" && s[|s| - 1] == '/' {
      TrimIsPrefix(s[..|s| - 1]);
    }
  }

  /** Trailing slashes, however many, are trimmed off. */
  lemma {:induction false} TrimsAll(s: string, slashes: string)
    requires s == "" || s[|s| - 1] != '/'
    requires forall i :: 0 <= i < |slashes| ==> slashes[i] == '/'
    ensures TrimSlashes(s + slashes) == s
    decreases |slashes|
  {
    if slashes == "" {
      assert s + slashes == s;
    } else {
      var fewer := slashes[..|slashes| - 1];
      assert (s + slashes)[..|s + slashes| - 1] == s + fewer;
      TrimsAll(s, fewer);
    }
  }

  /** Splitting gives one part more than there are separators. */
  lemma {:induction false} SplitCount(s: string, sep: char)
    ensures |Split(s, sep)| == multiset(s)[sep] + 1
    decreases |s|
  {
    if sep in s {
      var i := IndexOf(s, sep);
      assert s == s[..i] + [sep] + s[i + 1..];
      assert sep !in multiset(s[..i]);
      SplitCount(s[i + 1..], sep);
    } else {
      assert sep !in multiset(s);
    }
  }

  /** The first field is the first part. */
  lemma SplitFirst(s: string, first: string, rest: string, sep: char)
    requires sep !in first && s == first + [sep] + rest
    ensures Split(s, sep) == [first] + Split(rest, sep)
  {
    IndexAfterField(first, rest, sep);
    assert s[..|first|] == first && s[|first| + 1..] == rest;
  }

  lemma Regroup(a: string, b: string, c: string, d: string, e: string)
    ensures a + b + c + d + e == a + b + (c + d + e)
  {
  }

  lemma InFrontOfAll(first: string, parts: seq<string>, last: string)
    ensures [first] + (parts + [last]) == [first] + parts + [last]
  {
  }

  /** The last field is the last part. */
  lemma {:induction false} SplitLast(s: string, last: string, sep: char)
    requires sep !in last
    ensures Split(s + [sep] + last, sep) == Split(s, sep) + [last]
    decreases |s|, 0
  {
    var t := s + [sep] + last;
    if sep in s {
      var i := IndexOf(s, sep);
      SplitLater(s, s[..i], s[i + 1..], t, s[i + 1..] + [sep] + last, last, sep);
    } else {
      SplitFirst(t, s, last, sep);
    }
  }

  lemma {:induction false} SplitLater(s: string, first: string, rest: string, t: string, more: string, last: string,
                                      sep: char)
    requires sep !in last && sep !in first && s == first + [sep] + rest
    requires t == s + [sep] + last && more == rest + [sep] + last
    ensures Split(t, sep) == Split(s, sep) + [last]
    decreases |rest|, 1
  {
    Regroup(first, [sep], rest, [sep], last);
    SplitFirst(s, first, rest, sep);
    SplitFirst(t, first, more, sep);
    SplitLast(rest, last, sep);
    InFrontOfAll(first, Split(rest, sep), last);
  }

  lemma {:induction false} FirstFound(s: string, sub: string, at: nat)
    requires at <= |s| && sub <= s[at..]
    requires forall i :: 0 <= i < at ==> !(sub <= s[i..])
    ensures Find(s, sub) == Some(at)
    decreases at
  {
    assert s[0..] == s;
    if at > 0 {
      forall i | 0 <= i < at - 1
        ensures !(sub <= s[1..][i..])
      {
        assert s[1..][i..] == s[i + 1..];
      }
      assert s[1..][at - 1..] == s[at..];
      FirstFound(s[1..], sub, at - 1);
    }
  }

  /** Text that ends with the same last field splits in one way only. */
  lemma LastField(m1: string, t1: string, m2: string, t2: string, sep: char)
    requires sep !in t1 && sep !in t2 && m1 + [sep] + t1 == m2 + [sep] + t2
    ensures m1 == m2 && t1 == t2
  {
    var k1, k2 := m1 + [sep] + t1, m2 + [sep] + t2;
    assert k1[|m1|] == sep && k1[|m1| + 1..] == t1 && k1[..|m1|] == m1;
    assert k2[|m2|] == sep && k2[|m2| + 1..] == t2 && k2[..|m2|] == m2;
    assert forall k :: |m1| < k < |k1| ==> k1[k] == t1[k - |m1| - 1];
    assert forall k :: |m2| < k < |k2| ==> k2[k] == t2[k - |m2| - 1];
  }

  /** Text whose first field is free of `sep` splits in one way only. */
  lemma FirstField(a1: string, r1: string, a2: string, r2: string, sep: char)
    requires sep !in a1 && sep !in a2 && a1 + [sep] + r1 == a2 + [sep] + r2
    ensures a1 == a2 && r1 == r2
  {
    var k1, k2 := a1 + [sep] + r1, a2 + [sep] + r2;
    assert k1[|a1|] == sep && k1[|a1| + 1..] == r1 && k1[..|a1|] == a1;
    assert k2[|a2|] == sep && k2[|a2| + 1..] == r2 && k2[..|a2|] == a2;
    assert forall k :: 0 <= k < |a1| ==> k1[k] == a1[k];
    assert forall k :: 0 <= k < |a2| ==> k2[k] == a2[k];
  }

  lemma IndexAfterField(a: string, r: string, sep: char)
    requires sep !in a
    ensures sep in a + [sep] + r && IndexOf(a + [sep] + r, sep) == |a|
  {
    var s := a + [sep] + r;
    assert s[|a|] == sep;
    var i := IndexOf(s, sep);
    FirstField(s[..i], s[i + 1..], a, r, sep) by {
      assert s == s[..i] + [sep] + s[i + 1..];
    }
  }

  lemma OccursTwice<T>(s: seq<T>, i: nat, j: nat)
    requires i < j < |s| && s[i] == s[j]
    ensures multiset(s)[s[i]] >= 2
  {
    assert s == s[..i + 1] + s[i + 1..];
    assert s[..i + 1][i] in multiset(s[..i + 1]);
    assert s[i + 1..][j - i - 1] in multiset(s[i + 1..]);
  }

  /** One text starts with the other and a separator. */
  predicate Confusable(a: string, b: string, sep: char) {
    a + [sep] <= b || b + [sep] <= a
  }

  /** After a common head, a field and its separator open a text if and only if it has that field,
      for fields that cannot be confused. */
  lemma FieldOpens(head: string, a: string, b: string, rest: string, sep: char)
    requires !Confusable(a, b, sep)
    ensures head + (a + [sep]) <= head + (b + [sep] + rest) <==> a == b
  {
    var p, s := head + (a + [sep]), head + (b + [sep] + rest);
    if a == b {
      assert s == p + rest;
    }
    if p <= s {
      assert p[|head|..] == a + [sep] && s[|head|..] == b + [sep] + rest && p == s[..|p|];
      SameOrConfused(a, b, rest, sep);
    }
  }

  lemma SameOrConfused(a: string, b: string, rest: string, sep: char)
    requires a + [sep] <= b + [sep] + rest
    ensures a == b || Confusable(a, b, sep)
  {
    var x, y := a + [sep], b + [sep] + rest;
    if |a| < |b| {
      assert b[..|x|] == y[..|x|] == x;
    } else if |b| < |a| {
      assert a[..|b| + 1] == x[..|b| + 1] == y[..|b| + 1] == b + [sep];
    } else {
      assert a == x[..|a|] == y[..|b|] == b;
    }
  }
}
