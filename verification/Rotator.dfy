/** The rotation passes (internal/bodies/rotator.go): loops over the local directory and the object
    store that promote, compress, purge and evict. Any upload, delete or notification may fail; the
    pass then stops and the next one carries on. Each loop is shown to perform steps of BodyTiers,
    so everything proved of its runs holds of the passes.
  */
module Rotators {
  import opened BodyNames
  import opened BodyTiers

  // ---------- runs of steps ----------

  ghost predicate Reaches(s: Store, t: Store, cs: Codecs) {
    exists steps :: IsRun(s, steps, cs) && End(s, steps, cs) == t
  }

  lemma ReachesSelf(s: Store, cs: Codecs)
    ensures Reaches(s, s, cs)
  {
    assert IsRun(s, [], cs) && End(s, [], cs) == s;
  }

  lemma {:induction false} RunsJoin(s: Store, a: seq<Step>, b: seq<Step>, cs: Codecs)
    requires IsRun(s, a, cs) && IsRun(End(s, a, cs), b, cs)
    ensures IsRun(s, a + b, cs) && End(s, a + b, cs) == End(End(s, a, cs), b, cs)
    decreases |a|
  {
    if a == [] {
      assert a + b == b;
    } else {
      assert (a + b)[1..] == a[1..] + b;
      RunsJoin(Next(s, a[0], cs), a[1..], b, cs);
    }
  }

  lemma ReachesTrans(s: Store, t: Store, u: Store, cs: Codecs)
    requires Reaches(s, t, cs) && Reaches(t, u, cs)
    ensures Reaches(s, u, cs)
  {
    var a :| IsRun(s, a, cs) && End(s, a, cs) == t;
    var b :| IsRun(t, b, cs) && End(t, b, cs) == u;
    RunsJoin(s, a, b, cs);
  }

  lemma ReachesThen(s: Store, t: Store, step: Step, cs: Codecs)
    requires Reaches(s, t, cs) && Enabled(t, step)
    ensures Reaches(s, Next(t, step, cs), cs)
  {
    var u := Next(t, step, cs);
    assert [step][1..] == [] && IsRun(u, [], cs) && End(u, [], cs) == u;
    assert IsRun(t, [step], cs) && End(t, [step], cs) == u;
    ReachesTrans(s, t, u, cs);
  }

  // ---------- the rotator ----------

  class Rotator {
    var store: Store
    const cs: Codecs
    const codec: Codec
    const recentMaxAge: int
    const archiveMaxAge: int
    const maxBytes: int

    constructor (store: Store, cs: Codecs, codec: Codec, recentMaxAge: int, archiveMaxAge: int, maxBytes: int)
      ensures this.store == store && this.cs == cs && this.codec == codec
      ensures this.recentMaxAge == recentMaxAge && this.archiveMaxAge == archiveMaxAge && this.maxBytes == maxBytes
    {
      this.store, this.cs, this.codec := store, cs, codec;
      this.recentMaxAge, this.archiveMaxAge, this.maxBytes := recentMaxAge, archiveMaxAge, maxBytes;
    }

    /** One operation on disk or in the object store, as a step that may fail and then do nothing. */
    method Try(step: Step) returns (ok: bool)
      requires Enabled(store, step)
      modifies this
      ensures store == if ok then Next(old(store), step, cs) else old(store)
    {
      ok := *;
      if ok {
        store := Next(store, step, cs);
      }
    }

    /** promoteCurrentToRecent: every local file but the hour's own goes to recent/. */
    method PromoteCurrentToRecent() returns (ok: bool)
      requires store.rotation == Idle
      modifies this
      ensures Reaches(old(store), store, cs) && store.rotation == Idle
      ensures Promoting(old(store), store, old(store).current.Keys)
      ensures ok ==> store.current.Keys <= {store.clock}
    {
      var todo := store.current.Keys;
      ghost var first := store;
      ReachesSelf(store, cs);
      while todo != {}
        invariant todo <= first.current.Keys && todo <= store.current.Keys && store.rotation == Idle
        invariant Reaches(first, store, cs) && Promoting(first, store, first.current.Keys)
        invariant store.current.Keys <= todo + {store.clock}
        decreases todo
      {
        var file :| file in todo;
        todo := todo - {file};
        if file != store.clock {
          var moved := PromoteOne(file, first);
          if !moved {
            return false;
          }
        }
      }
      ok := true;
    }

    /** One file: upload, then remove the local copy. */
    method PromoteOne(file: Hour, ghost first: Store) returns (ok: bool)
      requires store.rotation == Idle && file in store.current && file in first.current && file != store.clock
      requires Reaches(first, store, cs) && Promoting(first, store, first.current.Keys)
      modifies this
      ensures store.rotation == Idle && store.clock == old(store).clock
      ensures Reaches(first, store, cs) && Promoting(first, store, first.current.Keys)
      ensures store.current.Keys == if ok then old(store).current.Keys - {file} else old(store).current.Keys
    {
      ok := Try(Upload(file));
      if !ok {
        return;
      }
      ReachesThen(first, old(store), Upload(file), cs);
      ghost var uploaded := store;
      ok := Try(RemoveLocal);
      if ok {
        ReachesThen(first, uploaded, RemoveLocal, cs);
      } else {
        ReachesThen(first, uploaded, Abort, cs);
        store := store.(rotation := Idle);
      }
    }

    /** compressToArchive: the recent/ objects that are old enough go to archive/. */
    method CompressToArchive() returns (ok: bool)
      requires store.rotation == Idle
      modifies this
      ensures Reaches(old(store), store, cs) && store.rotation == Idle
      ensures Compressing(old(store), store, codec, store.now - recentMaxAge)
      ensures ok ==> forall f :: Recent(f) in store.backend ==>
                store.backend[Recent(f)].modTime > store.now - recentMaxAge
    {
      var objects := set k | k in store.backend && k.Recent?;
      var cutoff := store.now - recentMaxAge;
      ghost var first := store;
      ReachesSelf(store, cs);
      while objects != {}
        invariant objects <= first.backend.Keys && store.rotation == Idle && (forall k :: k in objects ==> k.Recent?)
        invariant forall k :: k in objects ==> k in store.backend && store.backend[k] == first.backend[k]
        invariant Reaches(first, store, cs) && Compressing(first, store, codec, cutoff)
        invariant forall f :: Recent(f) in store.backend ==>
                    Recent(f) in objects || store.backend[Recent(f)].modTime > cutoff
        decreases objects
      {
        var k :| k in objects;
        objects := objects - {k};
        if store.backend[k].modTime <= cutoff {
          var moved := CompressOne(k.file, first, cutoff);
          if !moved {
            return false;
          }
        }
      }
      ok := true;
    }

    /** One object: compress it to the archive, then delete the original. */
    method CompressOne(file: Hour, ghost first: Store, ghost cutoff: int) returns (ok: bool)
      requires store.rotation == Idle && Recent(file) in store.backend && store.backend[Recent(file)].modTime <= cutoff
      requires Reaches(first, store, cs) && Compressing(first, store, codec, cutoff)
      modifies this
      ensures store.rotation == Idle
      ensures Reaches(first, store, cs) && Compressing(first, store, codec, cutoff)
      ensures forall k: Key :: k.Recent? ==>
                (k in store.backend <==> k in old(store).backend && !(ok && k == Recent(file)))
                && (k in store.backend ==> store.backend[k] == old(store).backend[k])
    {
      ok := Try(Compress(file, codec));
      if !ok {
        return;
      }
      ReachesThen(first, old(store), Compress(file, codec), cs);
      ghost var copied := store;
      ok := Try(DeleteRecent);
      if ok {
        ReachesThen(first, copied, DeleteRecent, cs);
      } else {
        ReachesThen(first, copied, Abort, cs);
        store := store.(rotation := Idle);
      }
    }

    /** The deletions of purgeExpired, and the files they belonged to; stops at the first failure. */
    method PurgeObjects(all: set<Key>) returns (ok: bool, files: set<Hour>)
      requires store.rotation == Idle && all <= store.backend.Keys && forall k :: k in all ==> k.Archive?
      modifies this
      ensures Reaches(old(store), store, cs) && store.rotation == Idle
      ensures store.current == old(store).current && store.now == old(store).now && store.clock == old(store).clock
      ensures exists some :: some <= all && store.backend == old(store).backend - some
      ensures ok ==> store.backend == old(store).backend - all
      ensures ok ==> files == FilesOf(all) && store.pending == old(store).pending + files
    {
      ghost var first := store;
      ReachesSelf(store, cs);
      var expired := all;
      files := {};
      while expired != {}
        invariant expired <= all
        invariant Reaches(first, store, cs) && store.rotation == Idle
        invariant store.now == first.now && store.clock == first.clock
        invariant store.current == first.current && store.backend == first.backend - (all - expired)
        invariant store.pending == first.pending + files && files == FilesOf(all - expired)
        decreases expired
      {
        var k :| k in expired;
        ghost var before := store;
        var gone := Try(Purge(k.file, k.codec));
        if !gone {
          return false, files;
        }
        ReachesThen(first, before, Purge(k.file, k.codec), cs);
        files := files + {k.file};
        expired := expired - {k};
        assert all - expired == (all - expired - {k}) + {k};
        assert store.backend == first.backend - (all - expired);
      }
      assert all - expired == all;
      ok := true;
    }

    /** purgeExpired: deletes archive/ objects that are too old and nulls their references. It is
        `ok` when it returns no error; a failed notification is only logged, so `told` is apart. */
    method PurgeExpired() returns (ok: bool, told: bool)
      requires store.rotation == Idle
      modifies this
      ensures Reaches(old(store), store, cs) && store.rotation == Idle
      ensures store.current == old(store).current && store.now == old(store).now && store.clock == old(store).clock
      ensures forall k :: k in store.backend ==> k in old(store).backend && store.backend[k] == old(store).backend[k]
      ensures ok ==> forall k :: k in old(store).backend ==>
                (k in store.backend <==> !(k.Archive? && old(store).backend[k].modTime < store.now - archiveMaxAge))
      ensures ok && told ==> store.pending <= old(store).pending
    {
      var cutoff := store.now - archiveMaxAge;
      var expired := set k | k in store.backend && k.Archive? && store.backend[k].modTime < cutoff;
      ghost var first := store;
      ReachesSelf(store, cs);
      if expired == {} {
        assert forall k :: k in store.backend && k.Archive? && store.backend[k].modTime < cutoff ==> k in expired;
        return true, true;
      }
      var files;
      ok, files := PurgeObjects(expired);
      if !ok {
        return false, false;
      }
      ghost var before := store;
      told := Try(NotifyOrphans(files));
      if told {
        ReachesThen(first, before, NotifyOrphans(files), cs);
      }
    }
  }

  function FilesOf(keys: set<Key>): set<Hour> {
    set k | k in keys :: k.file
  }

  /** Between the two states of a promotion pass: nothing written is lost or changed, what is in
      recent/ of the promoted files is what was local, and local files stay as they were or go once
      their copy is there. */
  ghost predicate Promoting(s: Store, t: Store, files: set<Hour>) {
    && t.clock == s.clock && t.now == s.now && t.history == s.history && t.rows == s.rows
    && t.removed == s.removed && t.pending == s.pending
    && (forall f :: f in t.current ==> f in s.current && t.current[f] == s.current[f])
    && (s.clock in s.current ==> s.clock in t.current)
    && (forall f :: f in files && f in s.current && f !in t.current ==>
          Recent(f) in t.backend && t.backend[Recent(f)].data == s.current[f].data)
    && (forall k :: k in s.backend && !(k.Recent? && k.file in s.current) ==>
          k in t.backend && t.backend[k] == s.backend[k])
  }

  /** Between the two states of a compression pass: local files, writes and rows are untouched; a
      recent/ object goes only if it is old enough, and once an archive of it is there; and no archive
      object goes. */
  ghost predicate Compressing(s: Store, t: Store, codec: Codec, cutoff: int) {
    && t.clock == s.clock && t.now == s.now && t.history == s.history && t.rows == s.rows && t.current == s.current
    && t.removed == s.removed && t.pending == s.pending
    && (forall k :: k in s.backend && k !in t.backend ==>
          k.Recent? && s.backend[k].modTime <= cutoff && Archive(k.file, codec) in t.backend)
    && (forall k :: k in t.backend && k.Recent? ==> k in s.backend && t.backend[k] == s.backend[k])
  }
}
