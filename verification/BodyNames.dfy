/** Names of body files (internal/bodies/writer.go, internal/bodies/rotator.go,
    internal/bodies/reader.go): one file an hour, and its keys in the object store.
  */
module BodyNames {
  import opened Text
  import opened Decimal

  /** The hour a file is named after, in UTC. */
  datatype Hour = Hour(year: nat, month: nat, day: nat, hour: nat)

  /** Calendar order, which is the order of time. */
  predicate Earlier(a: Hour, b: Hour) {
    || a.year < b.year
    || (a.year == b.year && (a.month < b.month
        || (a.month == b.month && (a.day < b.day
            || (a.day == b.day && a.hour < b.hour)))))
  }

  /** It is the order of the numbers YYYYMMDDHH. */
  lemma EarlierIsByNumber(a: Hour, b: Hour)
    requires a.month < 100 && a.day < 100 && a.hour < 100 && b.month < 100 && b.day < 100 && b.hour < 100
    ensures Earlier(a, b) <==>
            ((a.year * 100 + a.month) * 100 + a.day) * 100 + a.hour
              < ((b.year * 100 + b.month) * 100 + b.day) * 100 + b.hour
  {
  }

  /** hourlyFileName: %04d-%02d-%02d-%02d.jsonl. */
  function HourlyFileName(t: Hour): string {
    Padded(t.year, 4) + "-" + (Padded(t.month, 2) + "-" + (Padded(t.day, 2) + "-" + (Padded(t.hour, 2) + ".jsonl")))
  }

  datatype Codec = Zstd | Gzip | Plain

  function Extension(c: Codec): string {
    match c
    case Zstd => ".zst"
    case Gzip => ".gz"
    case Plain => ""
  }

  /** Where the object store keeps a file. */
  datatype Key = Recent(file: Hour) | Archive(file: Hour, codec: Codec)

  function KeyText(k: Key): string {
    match k
    case Recent(file) => "recent/" + HourlyFileName(file)
    case Archive(file, codec) => "archive/" + (HourlyFileName(file) + Extension(codec))
  }

  predicate EndsWith(s: string, suffix: string) {
    |suffix| <= |s| && s[|s| - |suffix|..] == suffix
  }

  /** strings.LastIndex(s, "/"). */
  function AfterLastSlash(s: string): string {
    if '/' !in s then s
    else
      var i := IndexOf(s, '/');
      AfterLastSlash(s[i + 1..])
  }

  function WithoutCodec(name: string): string {
    if EndsWith(name, ".zst") then name[..|name| - 4]
    else if EndsWith(name, ".gz") then name[..|name| - 3]
    else name
  }

  /** baseFileName: a key without its tier prefix and codec extension. */
  function BaseFileName(key: string): string {
    WithoutCodec(AfterLastSlash(key))
  }

  /** codecFromSuffix. */
  function CodecFromSuffix(key: string): Codec {
    if EndsWith(key, ".zst") then Zstd else if EndsWith(key, ".gz") then Gzip else Plain
  }

  // ---------- names are apart ----------

  lemma DigitsAreFree(s: string, c: char)
    requires AllDigits(s) && !IsDigit(c)
    ensures c !in s
  {
  }

  lemma FieldSplits(a: string, r: string, b: string, q: string)
    requires AllDigits(a) && AllDigits(b) && a + "-" + r == b + "-" + q
    ensures a == b && r == q
  {
    DigitsAreFree(a, '-');
    DigitsAreFree(b, '-');
    FirstField(a, r, b, q, '-');
  }

  /** Different hours have different file names. */
  lemma NamesAreApart(a: Hour, b: Hour)
    ensures HourlyFileName(a) == HourlyFileName(b) <==> a == b
  {
    if HourlyFileName(a) == HourlyFileName(b) {
      FieldSplits(Padded(a.year, 4), HourRest3(a), Padded(b.year, 4), HourRest3(b));
      FieldSplits(Padded(a.month, 2), HourRest2(a), Padded(b.month, 2), HourRest2(b));
      FieldSplits(Padded(a.day, 2), HourRest1(a), Padded(b.day, 2), HourRest1(b));
      var x, y := Padded(a.hour, 2), Padded(b.hour, 2);
      assert (x + ".jsonl")[..|x|] == x && (y + ".jsonl")[..|y|] == y;
    }
  }

  function HourRest1(t: Hour): string { Padded(t.hour, 2) + ".jsonl" }
  function HourRest2(t: Hour): string { Padded(t.day, 2) + "-" + HourRest1(t) }
  function HourRest3(t: Hour): string { Padded(t.month, 2) + "-" + HourRest2(t) }

  /** The digits from `i` to `j` stand for `n`. */
  predicate Reads(name: string, i: nat, j: nat, n: nat) {
    i <= j <= |name| && AllDigits(name[i..j]) && Value(name[i..j]) == n
  }

  /** The layout of a file name, for years of four digits: YYYY-MM-DD-HH.jsonl. */
  lemma NameReadsBack(t: Hour)
    requires t.year < 10000 && t.month < 100 && t.day < 100 && t.hour < 100
    ensures var name := HourlyFileName(t);
            && |name| == 19
            && Reads(name, 0, 4, t.year) && Reads(name, 5, 7, t.month)
            && Reads(name, 8, 10, t.day) && Reads(name, 11, 13, t.hour)
            && name[4] == name[7] == name[10] == '-' && name[13..] == ".jsonl"
  {
    assert Pow10(2) == 100 && Pow10(4) == 100 * Pow10(2) by {
      assert Pow10(1) == 10 && Pow10(3) == 10 * Pow10(2);
    }
    PaddedFits(t.year, 4);
    PaddedFits(t.month, 2);
    PaddedFits(t.day, 2);
    PaddedFits(t.hour, 2);
    Fields(Padded(t.year, 4), Padded(t.month, 2), Padded(t.day, 2), Padded(t.hour, 2));
  }

  lemma Fields(a: string, b: string, c: string, d: string)
    requires |a| == 4 && |b| == |c| == |d| == 2
    ensures var s := a + "-" + (b + "-" + (c + "-" + (d + ".jsonl")));
            && |s| == 19 && s[0..4] == a && s[5..7] == b && s[8..10] == c && s[11..13] == d
            && s[4] == s[7] == s[10] == '-' && s[13..] == ".jsonl"
  {
  }

  /** A file name as the writer makes it: no slash, and ending in .jsonl. */
  predicate IsBodyFile(name: string) {
    '/' !in name && EndsWith(name, ".jsonl")
  }

  lemma HourlyIsBodyFile(t: Hour)
    ensures IsBodyFile(HourlyFileName(t))
  {
    DigitsAreFree(Padded(t.year, 4), '/');
    DigitsAreFree(Padded(t.month, 2), '/');
    DigitsAreFree(Padded(t.day, 2), '/');
    DigitsAreFree(Padded(t.hour, 2), '/');
    Assemble(Padded(t.year, 4), Padded(t.month, 2), Padded(t.day, 2), Padded(t.hour, 2));
  }

  lemma Assemble(a: string, b: string, c: string, d: string)
    requires '/' !in a && '/' !in b && '/' !in c && '/' !in d
    ensures IsBodyFile(a + "-" + (b + "-" + (c + "-" + (d + ".jsonl"))))
  {
    var s := a + "-" + (b + "-" + (c + "-" + (d + ".jsonl")));
    assert s == (a + "-" + b + "-" + c + "-" + d) + ".jsonl";
    assert '/' !in ".jsonl" && '/' !in "-";
  }

  lemma SlashStripped(tier: string, name: string)
    requires '/' !in tier && '/' !in name
    ensures AfterLastSlash(tier + ['/'] + name) == name
  {
    IndexAfterField(tier, name, '/');
    assert (tier + ['/'] + name)[|tier| + 1..] == name;
  }

  /** The extension can be taken off again, and tells the codec. */
  lemma ExtensionStripped(name: string, c: Codec)
    requires IsBodyFile(name)
    ensures '/' !in name + Extension(c)
    ensures WithoutCodec(name + Extension(c)) == name && CodecFromSuffix(name + Extension(c)) == c
  {
    var s := name + Extension(c);
    assert name[|name| - 1] == ".jsonl"[5];
    match c
    case Zstd => assert s[|s| - 4..] == ".zst" && '/' !in ".zst";
    case Gzip => assert s[|s| - 3..] == ".gz" && s[|s| - 1] == 'z' && ".zst"[3] == 't' && '/' !in ".gz";
    case Plain => assert s == name && ".zst"[3] == 't' && ".gz"[2] == 'z';
  }

  lemma BaseNameInTier(tier: string, name: string, c: Codec)
    requires '/' !in tier && IsBodyFile(name)
    ensures BaseFileName(tier + ['/'] + (name + Extension(c))) == name
  {
    ExtensionStripped(name, c);
    SlashStripped(tier, name + Extension(c));
  }

  /** baseFileName undoes tier prefix and codec extension: from any key of a file it gives back the
      name stored in the metadata. */
  lemma BaseNameOfKey(k: Key)
    ensures BaseFileName(KeyText(k)) == HourlyFileName(k.file)
  {
    HourlyIsBodyFile(k.file);
    BaseNameOfText(k, HourlyFileName(k.file));
  }

  lemma BaseNameOfText(k: Key, name: string)
    requires name == HourlyFileName(k.file) && IsBodyFile(name)
    ensures BaseFileName(KeyText(k)) == name
  {
    if k.Recent? {
      BaseNameInTier("recent", name, Plain);
      assert "recent" + ['/'] == "recent/" && name + "" == name;
    } else {
      BaseNameInTier("archive", name, k.codec);
      assert "archive" + ['/'] == "archive/";
    }
  }

  /** Different keys have different texts, so the store can be addressed by either. */
  lemma KeysAreApart(a: Key, b: Key)
    ensures KeyText(a) == KeyText(b) <==> a == b
  {
    if KeyText(a) == KeyText(b) {
      BaseNameOfKey(a);
      BaseNameOfKey(b);
      NamesAreApart(a.file, b.file);
      SameTier(a, b);
    }
  }

  lemma SameTier(a: Key, b: Key)
    requires KeyText(a) == KeyText(b) && a.file == b.file
    ensures a == b
  {
    assert KeyText(a)[0] == (if a.Recent? then 'r' else 'a');
    assert KeyText(b)[0] == (if b.Recent? then 'r' else 'a');
    if a.Archive? {
      var name := HourlyFileName(a.file);
      HourlyIsBodyFile(a.file);
      var x, y := name + Extension(a.codec), name + Extension(b.codec);
      assert ("archive/" + x)[8..] == x && ("archive/" + y)[8..] == y;
      ExtensionStripped(name, a.codec);
      ExtensionStripped(name, b.codec);
    }
  }
}
