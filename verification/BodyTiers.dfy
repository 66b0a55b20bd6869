/** The tiered body store as a state machine (internal/bodies/writer.go, internal/bodies/rotator.go,
    internal/bodies/reader.go): bodies are appended to the file of the hour, whole files move from
    the local directory to recent/ to archive/, and are purged or evicted in the end.

    A file is identified by its hour; module BodyNames shows that names and keys tell hours apart.
    A write is one step; every move is two, an upload and a delete, and may stop between them.
  */
module BodyTiers {
  import opened Options
  import opened BodyNames

  newtype byte = x: int | 0 <= x < 256

  type Bytes = seq<byte>

  /** A stored file: its bytes, compressed or not, and when it was last written. */
  datatype Object = Object(data: Bytes, modTime: int)

  /** The compressors, as functions on whole files. */
  datatype Codecs = Codecs(enc: (Codec, Bytes) -> Bytes, dec: (Codec, Bytes) -> Option<Bytes>)

  /** What was compressed decompresses to itself. */
  ghost predicate Lossless(cs: Codecs) {
    forall c, b :: cs.dec(c, cs.enc(c, b)) == Some(b)
  }

  function Encode(cs: Codecs, c: Codec, b: Bytes): Bytes {
    if c == Plain then b else cs.enc(c, b)
  }

  function Decode(cs: Codecs, c: Codec, b: Bytes): Option<Bytes> {
    if c == Plain then Some(b) else cs.dec(c, b)
  }

  /** A metadata reference to a body; `None` in a row once it has been nulled. */
  datatype Ref = Ref(file: Hour, offset: nat, length: nat)

  /** One successful Write: the row it is logged in, the reference it returned, the line it appended
      and when. */
  datatype Written = Written(row: nat, file: Hour, offset: nat, line: Bytes, at: int)

  /** Where the rotator is inside a move. */
  datatype Rotation = Idle | Uploaded(file: Hour) | Compressed(file: Hour, codec: Codec)

  datatype Store = Store(
    clock: Hour,
    now: int,
    current: map<Hour, Object>,        // the local directory
    backend: map<Key, Object>,
    writer: Option<(Hour, nat)>,       // the open file and the offset the writer remembers
    rotation: Rotation,
    rows: map<nat, Option<Ref>>,       // metadata
    history: seq<Written>,             // every write so far
    removed: set<Hour>,                // files of which purge or eviction deleted a copy
    pending: set<Hour>)                // files deleted whose references are not nulled yet

  predicate Init(s: Store) {
    && s.current == map[] && s.backend == map[] && s.writer == None && s.rotation == Idle
    && s.rows == map[] && s.history == [] && s.removed == {} && s.pending == {}
  }

  datatype Step =
    | Write(row: nat, line: Bytes)
    | Advance(clock: Hour, now: int)
    | Restart
    | Upload(file: Hour)
    | RemoveLocal
    | Compress(file: Hour, codec: Codec)
    | DeleteRecent
    | Abort
    | Purge(file: Hour, codec: Codec)
    | EvictLocal(file: Hour)
    | EvictObject(key: Key)
    | NotifyOrphans(files: set<Hour>)

  predicate Enabled(s: Store, step: Step) {
    match step
    case Write(row, line) => row !in s.rows && line != []
    case Advance(clock, now) => (clock == s.clock || Earlier(s.clock, clock)) && s.now <= now
    case Restart => true
    case Upload(file) => s.rotation == Idle && file in s.current && file != s.clock
    case RemoveLocal => s.rotation.Uploaded?
    case Compress(file, _) => s.rotation == Idle && Recent(file) in s.backend
    case DeleteRecent => s.rotation.Compressed?
    case Abort => true
    case Purge(file, codec) => s.rotation == Idle && Archive(file, codec) in s.backend
    case EvictLocal(file) => s.rotation == Idle && file in s.current && file != s.clock
    case EvictObject(key) => s.rotation == Idle && key in s.backend && key.file != s.clock
    case NotifyOrphans(files) => files <= s.pending
  }

  /** The offset Write returns: the remembered one if the hour's file is open, else the size of
      the file it opens or creates. */
  function StartOffset(s: Store): nat {
    if s.writer.Some? && s.writer.value.0 == s.clock then s.writer.value.1
    else if s.clock in s.current then |s.current[s.clock].data| else 0
  }

  /** Write: appends to the file of the hour and logs the reference. */
  function AfterWrite(s: Store, row: nat, line: Bytes): Store {
    var data := if s.clock in s.current then s.current[s.clock].data else [];
    var offset := StartOffset(s);
    s.(current := s.current[s.clock := Object(data + line, s.now)],
       writer := Some((s.clock, offset + |line|)),
       rows := s.rows[row := Some(Ref(s.clock, offset, |line|))],
       history := s.history + [Written(row, s.clock, offset, line, s.now)])
  }

  function Deleted(s: Store, file: Hour): Store {
    s.(removed := s.removed + {file}, pending := s.pending + {file})
  }

  /** NullifyBodyRefs for the given files. */
  function AfterNotify(s: Store, files: set<Hour>): Store {
    s.(rows := map r | r in s.rows :: if s.rows[r].Some? && s.rows[r].value.file in files then None else s.rows[r],
       pending := s.pending - files)
  }

  function Next(s: Store, step: Step, cs: Codecs): Store
    requires Enabled(s, step)
  {
    match step
    case Write(row, line) => AfterWrite(s, row, line)
    case Advance(clock, now) => s.(clock := clock, now := now)
    case Restart => s.(writer := None, rotation := Idle)
    case Upload(file) =>
      s.(backend := s.backend[Recent(file) := Object(s.current[file].data, s.now)], rotation := Uploaded(file))
    case RemoveLocal => s.(current := s.current - {s.rotation.file}, rotation := Idle)
    case Compress(file, codec) =>
      s.(backend := s.backend[Archive(file, codec) := Object(Encode(cs, codec, s.backend[Recent(file)].data), s.now)],
         rotation := Compressed(file, codec))
    case DeleteRecent => s.(backend := s.backend - {Recent(s.rotation.file)}, rotation := Idle)
    case Abort => s.(rotation := Idle)
    case Purge(file, codec) => Deleted(s.(backend := s.backend - {Archive(file, codec)}), file)
    case EvictLocal(file) => Deleted(s.(current := s.current - {file}), file)
    case EvictObject(key) => Deleted(s.(backend := s.backend - {key}), key.file)
    case NotifyOrphans(files) => AfterNotify(s, files)
  }

  predicate IsRun(s: Store, steps: seq<Step>, cs: Codecs)
    decreases |steps|
  {
    steps != [] ==> Enabled(s, steps[0]) && IsRun(Next(s, steps[0], cs), steps[1..], cs)
  }

  function End(s: Store, steps: seq<Step>, cs: Codecs): Store
    requires IsRun(s, steps, cs)
    decreases |steps|
  {
    if steps == [] then s else End(Next(s, steps[0], cs), steps[1..], cs)
  }

  // ---------- reading ----------

  datatype ReadResult = Ok(line: Bytes) | NotFound | Failed

  function Slice(data: Bytes, offset: nat, length: nat): ReadResult {
    if offset + length <= |data| then Ok(data[offset..offset + length]) else Failed
  }

  /** Read on one archive object. */
  function ReadArchive(s: Store, cs: Codecs, file: Hour, c: Codec, offset: nat, length: nat): ReadResult {
    if Archive(file, c) !in s.backend then NotFound
    else
      var data := Decode(cs, c, s.backend[Archive(file, c)].data);
      if data.None? then Failed else Slice(data.value, offset, length)
  }

  /** Reader.Read: current/, then recent/, then the archive under each extension in turn. */
  function Read(s: Store, cs: Codecs, file: Hour, offset: nat, length: nat): ReadResult {
    if file in s.current then Slice(s.current[file].data, offset, length)
    else if Recent(file) in s.backend then Slice(s.backend[Recent(file)].data, offset, length)
    else
      var plain := ReadArchive(s, cs, file, Plain, offset, length);
      if plain != NotFound then plain
      else
        var zstd := ReadArchive(s, cs, file, Zstd, offset, length);
        if zstd != NotFound then zstd else ReadArchive(s, cs, file, Gzip, offset, length)
  }

  /** The probing loop of the reader. */
  method ReadBody(s: Store, cs: Codecs, file: Hour, offset: nat, length: nat) returns (r: ReadResult)
    ensures r == Read(s, cs, file, offset, length)
  {
    if file in s.current {
      return Slice(s.current[file].data, offset, length);
    }
    if Recent(file) in s.backend {
      return Slice(s.backend[Recent(file)].data, offset, length);
    }
    var candidates := [Plain, Zstd, Gzip];
    for i := 0 to 3
      invariant forall k :: 0 <= k < i ==> Archive(file, candidates[k]) !in s.backend
    {
      r := ReadArchive(s, cs, file, candidates[i], offset, length);
      if r != NotFound {
        assert candidates[0] == Plain && candidates[1] == Zstd && candidates[2] == Gzip;
        return;
      }
    }
    assert candidates[0] == Plain && candidates[1] == Zstd && candidates[2] == Gzip;
    return NotFound;
  }

  // ---------- what every step keeps ----------

  /** Everything ever written to a file, in order. */
  function Contents(history: seq<Written>, file: Hour): Bytes {
    if history == [] then []
    else
      var w, before := history[|history| - 1], Contents(history[..|history| - 1], file);
      if w.file == file then before + w.line else before
  }

  /** All copies of a file in all tiers decode to the same bytes: everything written to it. */
  ghost predicate CopiesAgree(s: Store, cs: Codecs) {
    && (forall f :: f in s.current ==> s.current[f].data == Contents(s.history, f))
    && (forall f :: Recent(f) in s.backend ==> s.backend[Recent(f)].data == Contents(s.history, f))
    && (forall f, c :: Archive(f, c) in s.backend ==>
          Decode(cs, c, s.backend[Archive(f, c)].data) == Some(Contents(s.history, f)))
  }

  predicate NotLater(f: Hour, clock: Hour) {
    f == clock || Earlier(f, clock)
  }

  /** Only files of past hours have left the local directory, and nothing is from the future. */
  ghost predicate InTime(s: Store) {
    && (forall f :: f in s.current ==> NotLater(f, s.clock))
    && (forall k :: k in s.backend ==> Earlier(k.file, s.clock))
    && (forall i :: 0 <= i < |s.history| ==> NotLater(s.history[i].file, s.clock))
    && (forall f :: f in s.removed ==> Earlier(f, s.clock))
  }

  /** The offset the writer remembers is the size of the hour's file, which is there. */
  ghost predicate WriterInStep(s: Store) {
    && (s.writer.Some? ==> NotLater(s.writer.value.0, s.clock))
    && (s.writer.Some? && s.writer.value.0 == s.clock ==>
          s.clock in s.current && s.writer.value.1 == |s.current[s.clock].data|)
    && (forall i :: 0 <= i < |s.history| && s.history[i].file == s.clock ==> s.clock in s.current)
  }

  ghost predicate HasCopy(s: Store, f: Hour) {
    f in s.current || Recent(f) in s.backend || exists c :: Archive(f, c) in s.backend
  }

  /** A move in progress has its second copy; every written file that was never deleted has one;
      every reference has a copy or is about to be nulled. */
  ghost predicate Kept(s: Store) {
    && (s.rotation.Uploaded? ==> Recent(s.rotation.file) in s.backend && s.rotation.file != s.clock)
    && (s.rotation.Compressed? ==> Archive(s.rotation.file, s.rotation.codec) in s.backend)
    && (forall i :: 0 <= i < |s.history| ==> s.history[i].file in s.removed || HasCopy(s, s.history[i].file))
    && (forall r :: r in s.rows && s.rows[r].Some? ==>
          s.rows[r].value.file in s.pending || HasCopy(s, s.rows[r].value.file))
  }

  /** The bytes of write `i` are where its reference says. */
  predicate InPlace(history: seq<Written>, i: nat)
    requires i < |history|
  {
    var w, all := history[i], Contents(history, history[i].file);
    w.offset + |w.line| <= |all| && all[w.offset..w.offset + |w.line|] == w.line
  }

  predicate Addressed(s: Store) {
    forall i :: 0 <= i < |s.history| ==> InPlace(s.history, i)
  }

  /** A row holds the reference its write returned until its file is deleted; after the notification
      of that it holds none. */
  predicate RowMatches(s: Store, w: Written) {
    && w.row in s.rows
    && s.rows[w.row] in {Some(Ref(w.file, w.offset, |w.line|)), None}
    && (w.file !in s.removed ==> s.rows[w.row].Some?)
    && (w.file in s.removed && w.file !in s.pending ==> s.rows[w.row].None?)
  }

  ghost predicate RowsMatch(s: Store) {
    && s.pending <= s.removed
    && forall i :: 0 <= i < |s.history| ==> RowMatches(s, s.history[i])
  }

  /** No copy of a file is dated before a write to it. */
  ghost predicate Dated(s: Store) {
    forall i :: 0 <= i < |s.history| ==> DatedAfter(s, s.history[i])
  }

  ghost predicate DatedAfter(s: Store, w: Written) {
    && w.at <= s.now
    && (w.file in s.current ==> w.at <= s.current[w.file].modTime)
    && (forall k :: k in s.backend && k.file == w.file ==> w.at <= s.backend[k].modTime)
  }

  ghost predicate Inv(s: Store, cs: Codecs) {
    CopiesAgree(s, cs) && InTime(s) && WriterInStep(s) && Kept(s) && Addressed(s) && RowsMatch(s)
  }

  lemma ContentsGrow(history: seq<Written>, w: Written, f: Hour)
    ensures Contents(history + [w], f) == if w.file == f then Contents(history, f) + w.line else Contents(history, f)
  {
    assert (history + [w])[..|history|] == history;
  }

  lemma {:induction false} NothingWritten(history: seq<Written>, f: Hour)
    requires forall i :: 0 <= i < |history| ==> history[i].file != f
    ensures Contents(history, f) == []
  {
    if history != [] {
      NothingWritten(history[..|history| - 1], f);
    }
  }

  // ---------- writes ----------

  /** The line lands at the returned offset, at the end of everything written to the file. */
  lemma WriteLandsAtOffset(s: Store, cs: Codecs)
    requires Inv(s, cs)
    ensures StartOffset(s) == |Contents(s.history, s.clock)|
    ensures s.clock !in s.current ==> Contents(s.history, s.clock) == []
  {
    if s.clock !in s.current {
      NothingWritten(s.history, s.clock);
    }
  }

  lemma WriteKeepsCopies(s: Store, cs: Codecs, row: nat, line: Bytes)
    requires Inv(s, cs)
    ensures CopiesAgree(AfterWrite(s, row, line), cs)
  {
    WriteLandsAtOffset(s, cs);
    var t, w := AfterWrite(s, row, line), Written(row, s.clock, StartOffset(s), line, s.now);
    forall f
      ensures Contents(t.history, f) == if f == s.clock then Contents(s.history, f) + line else Contents(s.history, f)
    {
      ContentsGrow(s.history, w, f);
    }
  }

  /** Appending a write leaves the earlier ones where they were. */
  lemma StaysInPlace(history: seq<Written>, w: Written, i: nat)
    requires i < |history| && InPlace(history, i)
    ensures InPlace(history + [w], i)
  {
    var v := history[i];
    var all := Contents(history, v.file);
    ContentsGrow(history, w, v.file);
    assert (all + w.line)[v.offset..v.offset + |v.line|] == all[v.offset..v.offset + |v.line|];
  }

  lemma LandsInPlace(history: seq<Written>, w: Written)
    requires w.offset == |Contents(history, w.file)|
    ensures InPlace(history + [w], |history|)
  {
    ContentsGrow(history, w, w.file);
  }

  lemma WriteKeepsAddressed(s: Store, cs: Codecs, row: nat, line: Bytes)
    requires Inv(s, cs)
    ensures Addressed(AfterWrite(s, row, line))
  {
    WriteLandsAtOffset(s, cs);
    var w := Written(row, s.clock, StartOffset(s), line, s.now);
    LandsInPlace(s.history, w);
    forall i | 0 <= i < |s.history|
      ensures InPlace(s.history + [w], i)
    {
      StaysInPlace(s.history, w, i);
    }
  }

  lemma WriteKeepsKept(s: Store, cs: Codecs, row: nat, line: Bytes)
    requires Inv(s, cs)
    ensures Kept(AfterWrite(s, row, line))
  {
    var t := AfterWrite(s, row, line);
    forall f | HasCopy(s, f)
      ensures HasCopy(t, f)
    {
    }
    assert HasCopy(t, s.clock);
  }

  lemma WriteKeepsTime(s: Store, cs: Codecs, row: nat, line: Bytes)
    requires Inv(s, cs) && row !in s.rows
    ensures RowsMatch(AfterWrite(s, row, line))
    ensures InTime(AfterWrite(s, row, line)) && WriterInStep(AfterWrite(s, row, line))
  {
    WriteLandsAtOffset(s, cs);
  }

  // ---------- moves and deletions ----------

  /** A step that changes neither the history nor the local file of the hour. */
  ghost predicate SameWrites(s: Store, t: Store) {
    && t.history == s.history && t.clock == s.clock && (t.writer == s.writer || t.writer == None)
    && (s.clock in s.current ==> s.clock in t.current && t.current[s.clock] == s.current[s.clock])
  }

  lemma StillInStep(s: Store, t: Store)
    requires SameWrites(s, t) && WriterInStep(s) && Addressed(s)
    ensures WriterInStep(t) && Addressed(t)
  {
  }

  lemma UploadKeeps(s: Store, cs: Codecs, file: Hour)
    requires Inv(s, cs) && Enabled(s, Upload(file))
    ensures Inv(Next(s, Upload(file), cs), cs)
  {
    var t := Next(s, Upload(file), cs);
    StillInStep(s, t);
    forall f | HasCopy(s, f)
      ensures HasCopy(t, f)
    {
    }
  }

  lemma RemoveLocalKeeps(s: Store, cs: Codecs)
    requires Inv(s, cs) && Enabled(s, RemoveLocal)
    ensures Inv(Next(s, RemoveLocal, cs), cs)
  {
    var t := Next(s, RemoveLocal, cs);
    StillInStep(s, t);
    forall f | HasCopy(s, f)
      ensures HasCopy(t, f)
    {
    }
  }

  lemma CompressKeeps(s: Store, cs: Codecs, file: Hour, codec: Codec)
    requires Inv(s, cs) && Lossless(cs) && Enabled(s, Compress(file, codec))
    ensures Inv(Next(s, Compress(file, codec), cs), cs)
  {
    var t := Next(s, Compress(file, codec), cs);
    StillInStep(s, t);
    forall f | HasCopy(s, f)
      ensures HasCopy(t, f)
    {
      if f !in s.current && Recent(f) !in s.backend {
        var c :| Archive(f, c) in s.backend;
        assert Archive(f, c) in t.backend;
      }
    }
    assert Decode(cs, codec, t.backend[Archive(file, codec)].data) == Some(s.backend[Recent(file)].data);
  }

  lemma DeleteRecentKeeps(s: Store, cs: Codecs)
    requires Inv(s, cs) && Enabled(s, DeleteRecent)
    ensures Inv(Next(s, DeleteRecent, cs), cs)
  {
    var t := Next(s, DeleteRecent, cs);
    StillInStep(s, t);
    forall f | HasCopy(s, f)
      ensures HasCopy(t, f)
    {
      if f == s.rotation.file {
        assert Archive(f, s.rotation.codec) in t.backend;
      } else if f !in s.current && Recent(f) !in s.backend {
        var c :| Archive(f, c) in s.backend;
        assert Archive(f, c) in t.backend;
      }
    }
  }

  /** Deleting one copy of a past file, by purge or eviction. */
  lemma DeletionKeeps(s: Store, t: Store, cs: Codecs, file: Hour)
    requires Inv(s, cs) && s.rotation == Idle && Earlier(file, s.clock)
    requires t == Deleted(s.(current := t.current, backend := t.backend), file)
    requires forall f :: f in t.current ==> f in s.current && t.current[f] == s.current[f]
    requires forall f :: f in s.current && f != file ==> f in t.current
    requires forall k :: k in t.backend ==> k in s.backend && t.backend[k] == s.backend[k]
    requires forall k :: k in s.backend && k.file != file ==> k in t.backend
    ensures Inv(t, cs)
  {
    StillInStep(s, t);
    forall f | HasCopy(s, f) && f != file
      ensures HasCopy(t, f)
    {
      if f !in s.current && Recent(f) !in s.backend {
        var c :| Archive(f, c) in s.backend;
        assert Archive(f, c) in t.backend;
      }
    }
  }

  lemma AdvanceKeeps(s: Store, cs: Codecs, clock: Hour, now: int)
    requires Inv(s, cs) && Enabled(s, Advance(clock, now))
    ensures Inv(Next(s, Advance(clock, now), cs), cs)
  {
    var t := Next(s, Advance(clock, now), cs);
    forall f
      ensures HasCopy(s, f) <==> HasCopy(t, f)
    {
    }
  }

  lemma NotifyKeeps(s: Store, cs: Codecs, files: set<Hour>)
    requires Inv(s, cs) && files <= s.pending
    ensures Inv(AfterNotify(s, files), cs)
  {
    var t := AfterNotify(s, files);
    StillInStep(s, t);
    forall f
      ensures HasCopy(s, f) <==> HasCopy(t, f)
    {
    }
  }

  lemma StopKeeps(s: Store, t: Store, cs: Codecs)
    requires Inv(s, cs) && (t == s.(rotation := Idle) || t == s.(writer := None, rotation := Idle))
    ensures Inv(t, cs)
  {
    StillInStep(s, t);
    forall f
      ensures HasCopy(s, f) <==> HasCopy(t, f)
    {
    }
  }

  lemma StepKeepsInv(s: Store, step: Step, cs: Codecs)
    requires Inv(s, cs) && Lossless(cs) && Enabled(s, step)
    ensures Inv(Next(s, step, cs), cs)
  {
    var t := Next(s, step, cs);
    match step
    case Write(row, line) =>
      WriteKeepsCopies(s, cs, row, line);
      WriteKeepsAddressed(s, cs, row, line);
      WriteKeepsKept(s, cs, row, line);
      WriteKeepsTime(s, cs, row, line);
    case Advance(clock, now) => AdvanceKeeps(s, cs, clock, now);
    case Restart => StopKeeps(s, t, cs);
    case Upload(file) => UploadKeeps(s, cs, file);
    case RemoveLocal => RemoveLocalKeeps(s, cs);
    case Compress(file, codec) => CompressKeeps(s, cs, file, codec);
    case DeleteRecent => DeleteRecentKeeps(s, cs);
    case Abort => StopKeeps(s, t, cs);
    case Purge(file, codec) => DeletionKeeps(s, t, cs, file);
    case EvictLocal(file) => DeletionKeeps(s, t, cs, file);
    case EvictObject(key) => DeletionKeeps(s, t, cs, key.file);
    case NotifyOrphans(files) => NotifyKeeps(s, cs, files);
  }

  lemma {:induction false} RunKeepsInv(s: Store, steps: seq<Step>, cs: Codecs)
    requires Inv(s, cs) && Lossless(cs) && IsRun(s, steps, cs)
    ensures Inv(End(s, steps, cs), cs)
    decreases |steps|
  {
    if steps != [] {
      StepKeepsInv(s, steps[0], cs);
      RunKeepsInv(Next(s, steps[0], cs), steps[1..], cs);
    }
  }

  // ---------- dates and deletions ----------

  lemma StepKeepsDated(s: Store, step: Step, cs: Codecs)
    requires Inv(s, cs) && Dated(s) && Enabled(s, step)
    ensures Dated(Next(s, step, cs))
  {
    var t := Next(s, step, cs);
    forall i | 0 <= i < |t.history|
      ensures DatedAfter(t, t.history[i])
    {
      if i < |s.history| {
        assert t.history[i] == s.history[i] && DatedAfter(s, s.history[i]);
      } else {
        assert forall k :: k in s.backend ==> k.file != s.clock;
      }
    }
  }

  lemma {:induction false} RunKeepsDated(s: Store, steps: seq<Step>, cs: Codecs)
    requires Inv(s, cs) && Dated(s) && Lossless(cs) && IsRun(s, steps, cs)
    ensures Dated(End(s, steps, cs))
    decreases |steps|
  {
    if steps != [] {
      StepKeepsInv(s, steps[0], cs);
      StepKeepsDated(s, steps[0], cs);
      RunKeepsDated(Next(s, steps[0], cs), steps[1..], cs);
    }
  }

  /** Retention: in every reachable state, a copy that is older than some age holds no body younger
      than it. So what goes for its age, to the archive or for good, was written that long ago. */
  lemma BodiesAreAsOldAsTheirFile(init: Store, steps: seq<Step>, cs: Codecs, i: nat, k: Key, cutoff: int)
    requires Init(init) && Lossless(cs) && IsRun(init, steps, cs)
    requires var s := End(init, steps, cs);
             i < |s.history| && k in s.backend && k.file == s.history[i].file && s.backend[k].modTime < cutoff
    ensures End(init, steps, cs).history[i].at < cutoff
  {
    RunKeepsDated(init, steps, cs);
    assert DatedAfter(End(init, steps, cs), End(init, steps, cs).history[i]);
  }

  /** The step deletes a copy of file `f` for good. */
  predicate Deletes(step: Step, f: Hour) {
    || (step.Purge? && step.file == f)
    || (step.EvictLocal? && step.file == f)
    || (step.EvictObject? && step.key.file == f)
  }

  /** Only purge and eviction remove a file, and only the one they name. */
  lemma {:induction false} RemovedByDeletion(s: Store, steps: seq<Step>, cs: Codecs, f: Hour)
    requires IsRun(s, steps, cs)
    ensures f in End(s, steps, cs).removed <==> f in s.removed || exists k :: 0 <= k < |steps| && Deletes(steps[k], f)
    decreases |steps|
  {
    if steps != [] {
      var rest := steps[1..];
      RemovedByDeletion(Next(s, steps[0], cs), rest, cs, f);
      assert f in Next(s, steps[0], cs).removed <==> f in s.removed || Deletes(steps[0], f);
      assert forall k :: 0 <= k < |rest| ==> rest[k] == steps[k + 1];
      if k :| 0 <= k < |steps| && Deletes(steps[k], f) {
        assert k > 0 ==> Deletes(rest[k - 1], f);
      }
      if k :| 0 <= k < |rest| && Deletes(rest[k], f) {
        assert Deletes(steps[k + 1], f);
      }
    }
  }

  // ---------- going on after a failure ----------

  lemma ThreeSteps(s: Store, a: Step, b: Step, c: Step, cs: Codecs) returns (t: Store)
    requires Enabled(s, a) && Enabled(Next(s, a, cs), b) && Enabled(Next(Next(s, a, cs), b, cs), c)
    ensures IsRun(s, [a, b, c], cs) && End(s, [a, b, c], cs) == t == Next(Next(Next(s, a, cs), b, cs), c, cs)
  {
    var s1 := Next(s, a, cs);
    var s2 := Next(s1, b, cs);
    t := Next(s2, c, cs);
    assert [a, b, c][1..] == [b, c] && [b, c][1..] == [c] && [c][1..] == [];
    assert IsRun(t, [], cs) && IsRun(s2, [c], cs) && IsRun(s1, [b, c], cs);
    assert End(t, [], cs) == t && End(s2, [c], cs) == t && End(s1, [b, c], cs) == t;
  }

  /** A crash, or a failure that ends the rotator's pass. */
  predicate Stops(step: Step) {
    step == Restart || step == Abort
  }

  /** Wherever a crash or a failure stops the rotator, a later pass can finish the job: any past local
      file can be promoted by its two steps, and all that was written to it is there. */
  lemma PromotionCanBeFinished(init: Store, steps: seq<Step>, cs: Codecs, file: Hour, stop: Step)
    requires Init(init) && Lossless(cs) && IsRun(init, steps, cs) && Stops(stop)
    requires file in End(init, steps, cs).current && file != End(init, steps, cs).clock
    ensures var s, more := End(init, steps, cs), [stop, Upload(file), RemoveLocal];
            && IsRun(s, more, cs)
            && var t := End(s, more, cs);
               && file !in t.current && Recent(file) in t.backend
               && t.backend[Recent(file)].data == Contents(s.history, file)
  {
    RunKeepsInv(init, steps, cs);
    Promotes(End(init, steps, cs), cs, file, stop);
  }

  lemma Promotes(s: Store, cs: Codecs, file: Hour, stop: Step)
    requires CopiesAgree(s, cs) && file in s.current && file != s.clock && Stops(stop)
    ensures var more := [stop, Upload(file), RemoveLocal];
            && IsRun(s, more, cs)
            && var t := End(s, more, cs);
               && file !in t.current && Recent(file) in t.backend
               && t.backend[Recent(file)].data == Contents(s.history, file)
  {
    var t := ThreeSteps(s, stop, Upload(file), RemoveLocal, cs);
  }

  /** So can the archiving of any recent/ object, in any codec. */
  lemma ArchivingCanBeFinished(init: Store, steps: seq<Step>, cs: Codecs, file: Hour, codec: Codec, stop: Step)
    requires Init(init) && Lossless(cs) && IsRun(init, steps, cs) && Stops(stop)
    requires Recent(file) in End(init, steps, cs).backend
    ensures var s, more := End(init, steps, cs), [stop, Compress(file, codec), DeleteRecent];
            && IsRun(s, more, cs)
            && var t := End(s, more, cs);
               && Recent(file) !in t.backend && Archive(file, codec) in t.backend
               && Decode(cs, codec, t.backend[Archive(file, codec)].data) == Some(Contents(s.history, file))
  {
    RunKeepsInv(init, steps, cs);
    Archives(End(init, steps, cs), cs, file, codec, stop);
  }

  lemma Archives(s: Store, cs: Codecs, file: Hour, codec: Codec, stop: Step)
    requires CopiesAgree(s, cs) && Lossless(cs) && Recent(file) in s.backend && Stops(stop)
    ensures var more := [stop, Compress(file, codec), DeleteRecent];
            && IsRun(s, more, cs)
            && var t := End(s, more, cs);
               && Recent(file) !in t.backend && Archive(file, codec) in t.backend
               && Decode(cs, codec, t.backend[Archive(file, codec)].data) == Some(Contents(s.history, file))
  {
    var t := ThreeSteps(s, stop, Compress(file, codec), DeleteRecent, cs);
  }

  // ---------- durability ----------

  /** Reading a past write either finds its line or finds no copy of the file at all. */
  lemma ReadIsRight(s: Store, cs: Codecs, i: nat)
    requires Inv(s, cs) && i < |s.history|
    ensures var w := s.history[i];
            Read(s, cs, w.file, w.offset, |w.line|) == if HasCopy(s, w.file) then Ok(w.line) else NotFound
  {
    var w := s.history[i];
    var all := Contents(s.history, w.file);
    assert InPlace(s.history, i);
    assert Slice(all, w.offset, |w.line|) == Ok(w.line);
    if HasCopy(s, w.file) && w.file !in s.current && Recent(w.file) !in s.backend {
      var c :| Archive(w.file, c) in s.backend;
      forall d | Archive(w.file, d) in s.backend
        ensures ReadArchive(s, cs, w.file, d, w.offset, |w.line|) == Ok(w.line)
      {
      }
    }
  }

  /** Durability across tiers: every reference a Write ever returned reads back the line it wrote,
      after any run of further writes, hour changes, promotions, compressions and crashes, including
      moves that stopped half-way, until purge or eviction deletes a copy of its file. Even then it
      never reads anything else. */
  lemma BodiesAreDurable(init: Store, steps: seq<Step>, cs: Codecs, i: nat)
    requires Init(init) && Lossless(cs) && IsRun(init, steps, cs) && i < |End(init, steps, cs).history|
    ensures var s := End(init, steps, cs); var w := s.history[i];
            && (w.file !in s.removed ==> Read(s, cs, w.file, w.offset, |w.line|) == Ok(w.line))
            && (Read(s, cs, w.file, w.offset, |w.line|) in {Ok(w.line), NotFound})
  {
    RunKeepsInv(init, steps, cs);
    ReadIsRight(End(init, steps, cs), cs, i);
  }

  /** All copies of a file, in whatever tiers an interrupted move left them, decode alike. */
  lemma CopiesNeverDiverge(init: Store, steps: seq<Step>, cs: Codecs)
    requires Init(init) && Lossless(cs) && IsRun(init, steps, cs)
    ensures CopiesAgree(End(init, steps, cs), cs)
  {
    RunKeepsInv(init, steps, cs);
  }

  /** No dangling references: in every reachable state, each metadata row that still names a body
      file, and whose file is not waiting to be nulled, has a copy of it in some tier. */
  lemma NoDanglingReference(init: Store, steps: seq<Step>, cs: Codecs)
    requires Init(init) && Lossless(cs) && IsRun(init, steps, cs)
    ensures var s := End(init, steps, cs);
            forall r :: r in s.rows && s.rows[r].Some? && s.rows[r].value.file !in s.pending ==>
              HasCopy(s, s.rows[r].value.file)
  {
    RunKeepsInv(init, steps, cs);
  }

  /** The exception is needed: a body is written, its hour passes, its file is evicted, and the
      notification fails. The row still names a file that has no copy. */
  lemma UnnotifiedDeletionDangles(init: Store, later: Hour, cs: Codecs)
    requires Init(init) && Earlier(init.clock, later)
    ensures var steps := [Write(0, [10]), Advance(later, init.now), EvictLocal(init.clock)];
            && IsRun(init, steps, cs)
            && var s := End(init, steps, cs);
               s.rows == map[0 := Some(Ref(init.clock, 0, 1))] && !HasCopy(s, init.clock)
  {
    var s1 := Next(init, Write(0, [10]), cs);
    var s2 := Next(s1, Advance(later, init.now), cs);
    var s3 := Next(s2, EvictLocal(init.clock), cs);
    var steps := [Write(0, [10]), Advance(later, init.now), EvictLocal(init.clock)];
    assert steps[1..] == [Advance(later, init.now), EvictLocal(init.clock)];
    assert steps[1..][1..] == [EvictLocal(init.clock)] && steps[1..][1..][1..] == [];
    assert IsRun(s3, [], cs) && IsRun(s2, [EvictLocal(init.clock)], cs) && IsRun(s1, steps[1..], cs);
    assert End(s3, [], cs) == s3 && End(s2, [EvictLocal(init.clock)], cs) == s3 && End(s1, steps[1..], cs) == s3;
    assert s3.current == map[] && s3.backend == map[];
  }

  /** What the dashboard relies on, in every reachable state: the row of a file that was never deleted
      has the reference its write returned, and it reads back exactly the body logged with it; the row
      of a deleted file has none once that was notified; and a reference that is left reads back its
      body, or is waiting to be nulled. */
  lemma RowsReadTheirBody(init: Store, steps: seq<Step>, cs: Codecs, i: nat)
    requires Init(init) && Lossless(cs) && IsRun(init, steps, cs) && i < |End(init, steps, cs).history|
    ensures var s := End(init, steps, cs); var w := s.history[i];
            && w.row in s.rows
            && (w.file !in s.removed ==> s.rows[w.row] == Some(Ref(w.file, w.offset, |w.line|)))
            && (w.file in s.removed && w.file !in s.pending ==> s.rows[w.row] == None)
            && (s.rows[w.row].Some? && w.file !in s.pending ==>
                  var ref := s.rows[w.row].value;
                  Read(s, cs, ref.file, ref.offset, ref.length) == Ok(w.line))
  {
    RunKeepsInv(init, steps, cs);
    ReadIsRight(End(init, steps, cs), cs, i);
    assert RowMatches(End(init, steps, cs), End(init, steps, cs).history[i]);
  }
}
