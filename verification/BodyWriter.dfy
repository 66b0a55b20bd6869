/** The writer of the body store as the program updates it (internal/bodies/writer.go): an open file,
    its name and a remembered offset. Proved against the Write step of module BodyTiers.
  */
module BodyWriters {
  import opened Options
  import opened BodyNames
  import T = BodyTiers

  class Writer {
    var current: Option<Hour>                      // the open file
    var offset: nat
    var dir: map<Hour, T.Object>                   // the local directory

    /** What BodyTiers keeps of the writer. */
    function View(): Option<(Hour, nat)>
      reads this
    {
      if current.None? then None else Some((current.value, offset))
    }

    constructor (dir: map<Hour, T.Object>)
      ensures View() == None && this.dir == dir
    {
      current, offset := None, 0;
      this.dir := dir;
    }

    /** The open file is in the directory. The rotator keeps it so: it passes over the hour's own
        file, which BodyTiers.Inv says of every run. */
    ghost predicate Valid()
      reads this
    {
      current.Some? ==> current.value in dir
    }

    /** By how much the remembered offset lags behind the end of the open file. */
    ghost function Drift(): int
      requires Valid()
      reads this
    {
      if current.None? then 0 else |dir[current.value].data| - offset
    }

    /** rotateIfNeeded: opens the file of the hour, creating it if missing, unless it is open;
        `opens` says whether opening would succeed. */
    method RotateIfNeeded(clock: Hour, now: int, opens: bool) returns (ok: bool)
      requires Valid()
      modifies this
      ensures Valid()
      ensures ok == (old(current) == Some(clock) || opens)
      ensures !ok || old(current) == Some(clock) ==>
                current == old(current) && offset == old(offset) && dir == old(dir)
      ensures ok ==> current == Some(clock)
      ensures ok && old(current) != Some(clock) ==>
                && dir == (if clock in old(dir) then old(dir) else old(dir)[clock := T.Object([], now)])
                && Drift() == 0
    {
      if current == Some(clock) {
        return true;
      }
      if !opens {
        return false;
      }
      if clock !in dir {
        dir := dir[clock := T.Object([], now)];
      }
      current := Some(clock);
      offset := |dir[clock].data|;
      return true;
    }

    /** Write, of an entry that marshals to `line` or does not. Of the line the file takes `accepted`
        bytes; taking fewer than all is an error. On success, whatever store the directory and the
        writer belong to, it does to them what the Write step does, and returns the reference that
        step logs. A failed write that left bytes behind is not accounted for: the remembered offset
        stays where it was. */
    method Write(ghost s: T.Store, ghost row: nat, line: Option<T.Bytes>, clock: Hour, now: int,
                 opens: bool, accepted: nat)
      returns (r: Option<T.Ref>)
      requires s.current == dir && s.writer == View() && s.clock == clock && s.now == now
      requires Valid() && (line.Some? ==> accepted <= |line.value|)
      modifies this
      ensures Valid()
      ensures r.Some? <==> (old(current) == Some(clock) || opens) && line.Some? && accepted == |line.value|
      ensures r.Some? ==>
                var t := T.AfterWrite(s, row, line.value);
                && dir == t.current && View() == t.writer && t.rows[row] == r
                && t.history[|s.history|] == T.Written(row, r.value.file, r.value.offset, line.value, s.now)
      ensures r.Some? ==>
                && clock in dir && r.value.file == clock
                && dir[clock].data[|dir[clock].data| - |line.value|..] == line.value
                && r.value.offset == |dir[clock].data| - |line.value| - Drift()
      ensures Drift() == (if current == old(current) then old(Drift()) else 0)
                         + (if r.None? && current == Some(clock) && line.Some? then accepted else 0)
    {
      var open := RotateIfNeeded(clock, now, opens);
      if !open || line.None? {
        return None;
      }
      var start := offset;
      dir := dir[clock := T.Object(dir[clock].data + line.value[..accepted], now)];
      if accepted < |line.value| {
        return None;
      }
      assert line.value[..accepted] == line.value;
      offset := offset + accepted;
      return Some(T.Ref(clock, start, accepted));
    }
  }

  /** A line as Write makes it: it ends in a newline and has no other. */
  predicate IsLine(line: T.Bytes) {
    line != [] && line[|line| - 1] == 10 && forall i :: 0 <= i < |line| - 1 ==> line[i] != 10
  }

  /** The lines one after the other. */
  function Cat(lines: seq<T.Bytes>): T.Bytes {
    if lines == [] then [] else Cat(lines[..|lines| - 1]) + lines[|lines| - 1]
  }

  predicate EndsWith(s: T.Bytes, end: T.Bytes) {
    |end| <= |s| && s[|s| - |end|..] == end
  }

  lemma CatNext(lines: seq<T.Bytes>, i: nat)
    requires i < |lines|
    ensures Cat(lines[..i + 1]) == Cat(lines[..i]) + lines[i]
  {
    assert lines[..i + 1][..i] == lines[..i];
  }

  /** The text up to line `i` opens the whole. */
  lemma {:induction false} CatPrefix(lines: seq<T.Bytes>, i: nat)
    requires i <= |lines|
    ensures Cat(lines[..i]) <= Cat(lines)
    decreases |lines| - i
  {
    if i == |lines| {
      assert lines[..i] == lines;
    } else {
      CatNext(lines, i);
      CatPrefix(lines, i + 1);
    }
  }

  lemma CatLonger(lines: seq<T.Bytes>, a: nat, b: nat)
    requires a <= b <= |lines|
    ensures |Cat(lines[..a])| <= |Cat(lines[..b])|
  {
    CatPrefix(lines[..b], a);
    assert lines[..b][..a] == lines[..a];
  }

  predicate AllLines(lines: seq<T.Bytes>) {
    forall i :: 0 <= i < |lines| ==> IsLine(lines[i])
  }

  /** A newline is the end of one of the lines. */
  lemma {:induction false} NewlineEnds(lines: seq<T.Bytes>, at: nat) returns (i: nat)
    requires AllLines(lines) && at < |Cat(lines)| && Cat(lines)[at] == 10
    ensures i < |lines| && at + 1 == |Cat(lines[..i + 1])|
    decreases |lines|
  {
    var n := |lines| - 1;
    var front := Cat(lines[..n]);
    if at < |front| {
      i := NewlineEnds(lines[..n], at);
      assert lines[..n][..i + 1] == lines[..i + 1];
    } else {
      assert Cat(lines)[at] == lines[n][at - |front|];
      i := n;
      assert lines[..n + 1] == lines;
    }
  }

  /** What was left behind is as long as the lines after `i` up to `k`, and what stands there ends like
      line `k`: the reference of line `k` reads the end of line `i` for it. */
  predicate Repeats(partial: T.Bytes, lines: seq<T.Bytes>, i: nat, k: nat)
    requires i < k < |lines|
  {
    && |partial| + |Cat(lines[..i + 1])| == |Cat(lines[..k + 1])|
    && EndsWith((if i == 0 then partial else []) + lines[i], lines[k])
  }

  /** What the reference of line `k` reads, after a failed write that left `partial` behind. */
  function ReadAt(before: T.Bytes, partial: T.Bytes, lines: seq<T.Bytes>, k: nat): T.ReadResult
    requires k < |lines|
  {
    T.Slice(before + partial + Cat(lines), |before| + |Cat(lines[..k])|, |lines[k]|)
  }

  /** It reads what stands there in the text of `partial` and the lines. */
  lemma ReadAtIs(before: T.Bytes, partial: T.Bytes, lines: seq<T.Bytes>, k: nat)
    requires k < |lines|
    ensures var from, to := |Cat(lines[..k])|, |Cat(lines[..k + 1])|;
            && to == from + |lines[k]| && to <= |partial + Cat(lines)|
            && ReadAt(before, partial, lines, k) == T.Ok((partial + Cat(lines))[from..to])
  {
    var text, from := partial + Cat(lines), |Cat(lines[..k])|;
    var n := |lines[k]|;
    CatNext(lines, k);
    CatPrefix(lines, k + 1);
    assert before + partial + Cat(lines) == before + text;
    assert (before + text)[|before| + from..|before| + from + n] == text[from..from + n];
  }

  /** Up to the end of line `i` stands the text of `partial` and the lines so far. */
  lemma UpTo(partial: T.Bytes, lines: seq<T.Bytes>, i: nat, n: nat)
    requires i < |lines| && n <= |partial| + |Cat(lines[..i + 1])|
    ensures var text, end := partial + Cat(lines), |partial| + |Cat(lines[..i + 1])|;
            end <= |text| && text[end - n..end] == (partial + Cat(lines[..i + 1]))[end - n..]
  {
    CatPrefix(lines, i + 1);
    var text, end := partial + Cat(lines), |partial| + |Cat(lines[..i + 1])|;
    assert text[..end] == partial + Cat(lines[..i + 1]);
    assert text[end - n..end] == text[..end][end - n..];
  }

  /** The end of that text is the end of line `i`, of `partial` and the first line if `i` is the first,
      as far as one line reaches. */
  lemma EndOfLine(partial: T.Bytes, lines: seq<T.Bytes>, i: nat, line: T.Bytes)
    requires AllLines(lines) && i < |lines| && IsLine(line)
    ensures EndsWith(partial + Cat(lines[..i + 1]), line) <==>
            EndsWith((if i == 0 then partial else []) + lines[i], line)
  {
    var own, all := (if i == 0 then partial else []) + lines[i], partial + Cat(lines[..i + 1]);
    CatNext(lines, i);
    if i == 0 {
      assert lines[..0] == [];
      assert all == own;
    } else {
      CatNext(lines, i - 1);
      var rest := partial + Cat(lines[..i]);
      assert all == rest + own && own == lines[i];
      assert rest[|rest| - 1] == 10 by {
        assert rest == partial + Cat(lines[..i - 1]) + lines[i - 1];
      }
      EndsInOwn(rest, own, line);
    }
  }

  lemma EndsInOwn(rest: T.Bytes, own: T.Bytes, line: T.Bytes)
    requires IsLine(line) && rest != [] && rest[|rest| - 1] == 10
    ensures EndsWith(rest + own, line) <==> EndsWith(own, line) || (own == [] && EndsWith(rest, line))
  {
    var all := rest + own;
    if |line| <= |own| {
      assert all[|all| - |line|..] == own[|own| - |line|..];
    } else if own != [] && |line| <= |all| {
      var at := |line| - |own| - 1;
      assert all[|all| - |line|..][at] == all[|rest| - 1] == 10;
    } else if own == [] {
      assert all == rest;
    }
  }

  /** What that costs every reference of the hour: the `k`-th line after a failed write is read back by
      its reference if and only if that write left nothing behind, or an earlier line happens to end
      like it where the reference points. For the next line there is no earlier one. */
  lemma ReadsBackIff(before: T.Bytes, partial: T.Bytes, lines: seq<T.Bytes>, k: nat)
    requires AllLines(lines) && k < |lines| && forall i :: 0 <= i < |partial| ==> partial[i] != 10
    ensures ReadAt(before, partial, lines, k) == T.Ok(lines[k]) <==>
            partial == [] || exists i :: 0 <= i < k && Repeats(partial, lines, i, k)
  {
    ReadAtIs(before, partial, lines, k);
    if partial == [] {
      NothingLeft(lines, k);
    } else if ReadAt(before, partial, lines, k) == T.Ok(lines[k]) {
      RepeatedLine(partial, lines, k);
    } else if i :| 0 <= i < k && Repeats(partial, lines, i, k) {
      RepeatIsRead(partial, lines, i, k);
    }
  }

  lemma NothingLeft(lines: seq<T.Bytes>, k: nat)
    requires k < |lines|
    ensures |Cat(lines[..k])| <= |Cat(lines[..k + 1])| <= |[] + Cat(lines)|
    ensures ([] + Cat(lines))[|Cat(lines[..k])|..|Cat(lines[..k + 1])|] == lines[k]
  {
    var text := Cat(lines);
    CatNext(lines, k);
    CatPrefix(lines, k + 1);
    assert [] + text == text;
    assert text[..|Cat(lines[..k + 1])|] == Cat(lines[..k]) + lines[k];
    assert text[|Cat(lines[..k])|..|Cat(lines[..k + 1])|] == text[..|Cat(lines[..k + 1])|][|Cat(lines[..k])|..];
  }

  lemma RepeatIsRead(partial: T.Bytes, lines: seq<T.Bytes>, i: nat, k: nat)
    requires AllLines(lines) && i < k < |lines| && Repeats(partial, lines, i, k)
    ensures |Cat(lines[..k])| <= |Cat(lines[..k + 1])| <= |partial + Cat(lines)|
    ensures (partial + Cat(lines))[|Cat(lines[..k])|..|Cat(lines[..k + 1])|] == lines[k]
  {
    CatNext(lines, k);
    EndOfLine(partial, lines, i, lines[k]);
    UpTo(partial, lines, i, |lines[k]|);
  }

  lemma RepeatedLine(partial: T.Bytes, lines: seq<T.Bytes>, k: nat)
    requires AllLines(lines) && k < |lines| && partial != [] && forall i :: 0 <= i < |partial| ==> partial[i] != 10
    requires |Cat(lines[..k + 1])| == |Cat(lines[..k])| + |lines[k]| <= |partial + Cat(lines)|
    requires (partial + Cat(lines))[|Cat(lines[..k])|..|Cat(lines[..k + 1])|] == lines[k]
    ensures exists i :: 0 <= i < k && Repeats(partial, lines, i, k)
  {
    var text, to := partial + Cat(lines), |Cat(lines[..k + 1])|;
    assert text[|Cat(lines[..k])|..to][|lines[k]| - 1] == text[to - 1] == 10;
    assert to - 1 >= |partial|;
    var i := NewlineEnds(lines, to - 1 - |partial|);
    if k <= i {
      CatLonger(lines, k + 1, i + 1);
    }
    UpTo(partial, lines, i, |lines[k]|);
    EndOfLine(partial, lines, i, lines[k]);
    assert Repeats(partial, lines, i, k);
  }
}
