/** What the engine guarantees across entries and runs: the state it keeps
    consistent, that a second run over an unchanged journal does nothing, that a
    replaced note is gone, and that a reset makes every entry new again. */
module Properties {
  import opened Wrappers
  import opened Strings
  import opened Journal
  import opened Paths
  import opened Params
  import opened Remote
  import opened SyncState
  import opened Engine

  /** The remote note a record points to, as `findNote`/`deleteNote` see it. */
  function LinkedNote(r: SyncLog): Option<string> {
    if r.noteId.Some? then Some(Trim(r.noteId.value)) else None
  }

  /** Every state file records its own location. */
  ghost predicate SelfLocated(files: Files) {
    forall k :: k in files ==> files[k].path == k
  }

  /** Every linked note id is in `issued`, and no two files link the same note. */
  ghost predicate LinksIssuedAndUnique(files: Files, issued: set<string>) {
    (forall k :: k in files && LinkedNote(files[k]).Some? ==> LinkedNote(files[k]).value in issued)
    && (forall k1, k2 :: k1 in files && k2 in files && k1 != k2
          && LinkedNote(files[k1]).Some? && LinkedNote(files[k2]).Some?
          ==> LinkedNote(files[k1]).value != LinkedNote(files[k2]).value)
  }

  /** The invariant the engine keeps: every state file records its own location,
      every linked note id was issued by the remote store, and no two files link
      the same note. */
  ghost predicate Consistent(w: World) {
    Valid(w.remote) && SelfLocated(w.files) && LinksIssuedAndUnique(w.files, w.remote.issued)
  }

  lemma LinksGrowWithIssued(files: Files, issued: set<string>, more: set<string>)
    requires LinksIssuedAndUnique(files, issued) && issued <= more
    ensures LinksIssuedAndUnique(files, more)
  {
  }

  /** Saving a record that links a never-issued note keeps links unique. */
  lemma {:induction false} SaveFreshLink(files: Files, issued: set<string>, log: SyncLog, id: string, now: int)
    requires SelfLocated(files) && LinksIssuedAndUnique(files, issued)
    requires id !in issued && Trim(id) == id
    ensures SelfLocated(Saved(files, log.(noteId := Some(id)), now))
    ensures LinksIssuedAndUnique(Saved(files, log.(noteId := Some(id)), now), issued + {id})
  {
    var files' := Saved(files, log.(noteId := Some(id)), now);
    assert LinkedNote(files'[log.path]) == Some(id);
    forall k | k in files' && LinkedNote(files'[k]).Some?
      ensures LinkedNote(files'[k]).value in issued + {id}
    {
      if k != log.path { assert files'[k] == files[k]; }
    }
    forall k1, k2 | k1 in files' && k2 in files' && k1 != k2
        && LinkedNote(files'[k1]).Some? && LinkedNote(files'[k2]).Some?
      ensures LinkedNote(files'[k1]).value != LinkedNote(files'[k2]).value
    {
      if k1 != log.path && k2 != log.path {
        assert files'[k1] == files[k1] && files'[k2] == files[k2];
      } else if k1 != log.path {
        assert LinkedNote(files[k1]).value in issued;
      } else if k2 != log.path {
        assert LinkedNote(files[k2]).value in issued;
      }
    }
  }

  /** The record `prepareSyncLog` hands on is written back to the entry's own
      state file. */
  lemma PreparedLogIsAtEntryPath(w: World, doPath: string, e: Entry, digest: string)
    requires Consistent(w)
    requires Prepare(w.files, w.remote, doPath, e, digest).log.Some?
    ensures Prepare(w.files, w.remote, doPath, e, digest).log.value.path == ComposeSyncLogPath(doPath, e.uuid)
  {
  }

  /** Whatever the faults, a step keeps the invariant. */
  lemma {:induction false} StepKeepsConsistent(w: World, doPath: string, notebookName: string, e: Entry, digest: string, env: Env)
    requires Consistent(w)
    ensures Consistent(Step(w, doPath, notebookName, e, digest, env))
  {
    var p := Prepare(w.files, w.remote, doPath, e, digest);
    var w' := Step(w, doPath, notebookName, e, digest, env);
    if p.log.Some? {
      var l := p.log.value;
      var w1 := w.(remote := p.remote, calls := w.calls + p.calls);
      assert Valid(w1.remote) && w1.remote.issued == w.remote.issued && w1.remote.nextId == w.remote.nextId;
      assert w' == Push(w1, doPath, notebookName, e, l, env);
      var id := IdOf(w.remote.nextId);
      assert w.remote.issued <= w'.remote.issued + {id};
      if w'.files == w.files {
        LinksGrowWithIssued(w.files, w.remote.issued, w'.remote.issued);
      } else {
        IdOfTrimmed(w.remote.nextId);
        SaveFreshLink(w.files, w.remote.issued, l, id, env.now);
        assert w'.remote.issued == w.remote.issued + {id};
      }
    }
  }

  /** The entry's record is current after a step that meets no fault. */
  lemma {:induction false} StepSyncs(w: World, doPath: string, notebookName: string, e: Entry, digest: string, env: Env)
    requires Consistent(w) && env.fault == NoFault
    ensures var w' := Step(w, doPath, notebookName, e, digest, env);
      UpToDate(w'.files, w'.remote, doPath, e.uuid, digest)
  {
    var p := Prepare(w.files, w.remote, doPath, e, digest);
    if p.log.Some? {
      var l := p.log.value;
      PreparedLogIsAtEntryPath(w, doPath, e, digest);
      var w' := Step(w, doPath, notebookName, e, digest, env);
      var id := IdOf(w.remote.nextId);
      IdOfTrimmed(w.remote.nextId);
      assert Lookup(w'.files, doPath, e.uuid) == Some(Stamped(l.(noteId := Some(id)), env.now));
      assert NoteExists(w'.remote, id);
    }
  }

  /** A step for one entry leaves another entry's current record current. */
  lemma {:induction false} StepKeepsUpToDate(w: World, doPath: string, notebookName: string,
                                             e: Entry, digest: string, other: Entry, otherDigest: string, env: Env)
    requires Consistent(w)
    requires UpToDate(w.files, w.remote, doPath, other.uuid, otherDigest)
    requires other.uuid != e.uuid
    ensures var w' := Step(w, doPath, notebookName, e, digest, env);
      UpToDate(w'.files, w'.remote, doPath, other.uuid, otherDigest)
  {
    var p := Prepare(w.files, w.remote, doPath, e, digest);
    var w' := Step(w, doPath, notebookName, e, digest, env);
    var path, otherPath := ComposeSyncLogPath(doPath, e.uuid), ComposeSyncLogPath(doPath, other.uuid);
    if path == otherPath { SyncLogPathInjective(doPath, e.uuid, other.uuid); }
    var mine := w.files[otherPath];
    var linked := LinkedNote(mine).value;
    if p.log.Some? {
      PreparedLogIsAtEntryPath(w, doPath, e, digest);
      assert w'.files[otherPath] == mine;
      // the only note deleted is the one this entry's own record links
      var prior := Lookup(w.files, doPath, e.uuid);
      if prior.Some? && prior.value.noteId.Some? {
        assert LinkedNote(w.files[path]).value != linked;
      }
      assert NoteExists(p.remote, linked);
      assert NoteExists(w'.remote, linked);
    }
  }

  /** Replacing: once an entry's record is stale, the note it linked is not
      live after the step, whatever fails later. */
  lemma {:induction false} ReplaceRemovesOldNote(w: World, doPath: string, notebookName: string,
                                                 e: Entry, digest: string, env: Env)
    requires Consistent(w)
    requires Lookup(w.files, doPath, e.uuid).Some? && Lookup(w.files, doPath, e.uuid).value.noteId.Some?
    requires !UpToDate(w.files, w.remote, doPath, e.uuid, digest)
    ensures var stale := Trim(Lookup(w.files, doPath, e.uuid).value.noteId.value);
      !NoteExists(Step(w, doPath, notebookName, e, digest, env).remote, stale)
  {
    var prior := Lookup(w.files, doPath, e.uuid).value;
    var id := Trim(prior.noteId.value);
    assert LinkedNote(w.files[ComposeSyncLogPath(doPath, e.uuid)]) == Some(id);
    assert id in w.remote.issued;
    var p := Prepare(w.files, w.remote, doPath, e, digest);
    assert !NoteExists(p.remote, id) && p.remote.issued == w.remote.issued;
    assert IdOf(w.remote.nextId) != id;
  }

  /** Self-healing: a saved record whose note has vanished from the remote store
      is pushed again as a new note, counted as created, and is current after a
      step that meets no fault. */
  lemma {:induction false} VanishedNoteIsRecreated(w: World, doPath: string, notebookName: string,
                                                   e: Entry, digest: string, env: Env)
    requires Consistent(w) && env.fault == NoFault
    requires Lookup(w.files, doPath, e.uuid).Some?
    requires var prior := Lookup(w.files, doPath, e.uuid).value;
      prior.entryMd5 == digest && prior.noteId.Some? && prior.notebook.None?
      && !NoteExists(w.remote, Trim(prior.noteId.value))
    ensures var w' := Step(w, doPath, notebookName, e, digest, env);
      w'.created == w.created + 1 && w'.updated == w.updated
      && UpToDate(w'.files, w'.remote, doPath, e.uuid, digest)
  {
    var prior := Lookup(w.files, doPath, e.uuid).value;
    var p := Prepare(w.files, w.remote, doPath, e, digest);
    assert RemoveNote(w.remote, Trim(prior.noteId.value)).notebook == "";
    assert !Truthy(p.log.value.notebook);
    StepSyncs(w, doPath, notebookName, e, digest, env);
  }

  /** Replacing keeps the notebook: when the stale note of an entry still
      exists in a notebook with a name, the entry counts as updated and its new
      note is created in that same notebook, unless `createNote` raises. */
  lemma {:induction false} ReplacedNoteKeepsNotebook(w: World, doPath: string, notebookName: string,
                                                     e: Entry, digest: string, env: Env)
    requires Lookup(w.files, doPath, e.uuid).Some? && Lookup(w.files, doPath, e.uuid).value.noteId.Some?
    requires !UpToDate(w.files, w.remote, doPath, e.uuid, digest)
    requires var id := Trim(Lookup(w.files, doPath, e.uuid).value.noteId.value);
      NoteExists(w.remote, id) && w.remote.notes[id] != ""
    requires env.fault == NoFault || env.fault == SaveFault
    ensures var id := Trim(Lookup(w.files, doPath, e.uuid).value.noteId.value);
      var w' := Step(w, doPath, notebookName, e, digest, env);
      w'.updated == w.updated + 1 && w'.created == w.created
      && IdOf(w.remote.nextId) in w'.remote.notes
      && w'.remote.notes[IdOf(w.remote.nextId)] == w.remote.notes[id]
  {
    var id := Trim(Lookup(w.files, doPath, e.uuid).value.noteId.value);
    var p := Prepare(w.files, w.remote, doPath, e, digest);
    var l := p.log.value;
    assert l.notebook == Some(w.remote.notes[id]);
    assert TargetNotebook(l, notebookName) == w.remote.notes[id];
    assert p.remote.nextId == w.remote.nextId;
  }

  /** No state file links note `id`. */
  ghost predicate Unlinked(files: Files, id: string) {
    forall k :: k in files ==> LinkedNote(files[k]) != Some(id)
  }

  /** The first half of `FailedSaveOrphansNote`: the note made before the save
      raised is live, issued and linked by no record. */
  lemma {:induction false} FailedSaveLeavesUnlinkedNote(w: World, doPath: string, notebookName: string,
                                                        e: Entry, digest: string, now: int)
    requires Consistent(w) && Lookup(w.files, doPath, e.uuid).None?
    ensures var w1 := Step(w, doPath, notebookName, e, digest, Env(SaveFault, now));
      var orphan := IdOf(w.remote.nextId);
      w1.files == w.files && w1.remote.nextId == w.remote.nextId + 1 && w1.created == w.created + 1
      && Consistent(w1) && NoteExists(w1.remote, orphan) && orphan in w1.remote.issued
      && Unlinked(w1.files, orphan)
  {
    var orphan := IdOf(w.remote.nextId);
    StepKeepsConsistent(w, doPath, notebookName, e, digest, Env(SaveFault, now));
    forall k | k in w.files ensures LinkedNote(w.files[k]) != Some(orphan) {
      if LinkedNote(w.files[k]).Some? {
        assert LinkedNote(w.files[k]).value in w.remote.issued;
      }
    }
  }

  /** A fault-free step for an entry with no record leaves an unlinked live
      note live and unlinked, and makes its own note under another id. */
  lemma {:induction false} NewEntryKeepsOrphan(w: World, doPath: string, notebookName: string,
                                               e: Entry, digest: string, now: int, orphan: string)
    requires Consistent(w) && Lookup(w.files, doPath, e.uuid).None?
    requires NoteExists(w.remote, orphan) && orphan in w.remote.issued && Unlinked(w.files, orphan)
    ensures var w' := Step(w, doPath, notebookName, e, digest, Env(NoFault, now));
      var second := IdOf(w.remote.nextId);
      second != orphan && NoteExists(w'.remote, orphan) && NoteExists(w'.remote, second)
      && Unlinked(w'.files, orphan) && w'.created == w.created + 1
  {
    var w' := Step(w, doPath, notebookName, e, digest, Env(NoFault, now));
    var second := IdOf(w.remote.nextId);
    assert second !in w.remote.issued;
    IdOfTrimmed(w.remote.nextId);
    forall k | k in w'.files ensures LinkedNote(w'.files[k]) != Some(orphan) {
      if k != ComposeSyncLogPath(doPath, e.uuid) {
        assert w'.files[k] == w.files[k];
      }
    }
  }

  /** A failed save orphans a note: for a new entry whose `saveSyncLog` raises,
      `createNote` has already made a note that no record links, and the next
      fault-free step for the same entry makes a second one. Both stay live and
      the entry is counted as created twice. */
  lemma FailedSaveOrphansNote(w: World, doPath: string, notebookName: string,
                              e: Entry, digest: string, now1: int, now2: int)
    requires Consistent(w) && Lookup(w.files, doPath, e.uuid).None?
    ensures var w1 := Step(w, doPath, notebookName, e, digest, Env(SaveFault, now1));
      var w2 := Step(w1, doPath, notebookName, e, digest, Env(NoFault, now2));
      var orphan, second := IdOf(w.remote.nextId), IdOf(w.remote.nextId + 1);
      w1.files == w.files && NoteExists(w1.remote, orphan)
      && orphan != second && NoteExists(w2.remote, orphan) && NoteExists(w2.remote, second)
      && Unlinked(w2.files, orphan) && w2.created == w.created + 2
  {
    var w1 := Step(w, doPath, notebookName, e, digest, Env(SaveFault, now1));
    FailedSaveLeavesUnlinkedNote(w, doPath, notebookName, e, digest, now1);
    NewEntryKeepsOrphan(w1, doPath, notebookName, e, digest, now2, IdOf(w.remote.nextId));
  }

  /** Every entry's record is current in `w`. */
  ghost predicate AllUpToDate(w: World, doPath: string, hash: Entry -> string, entries: seq<Entry>) {
    forall i :: 0 <= i < |entries| ==>
      UpToDate(w.files, w.remote, doPath, entries[i].uuid, hash(entries[i]))
  }

  /** Distinct entries have distinct uuids. */
  ghost predicate DistinctUuids(entries: seq<Entry>) {
    forall i, j :: 0 <= i < j < |entries| ==> entries[i].uuid != entries[j].uuid
  }

  /** A step for an entry with a new uuid leaves every current record current. */
  lemma StepKeepsAllUpToDate(w: World, doPath: string, notebookName: string, hash: Entry -> string,
                             entries: seq<Entry>, e: Entry, env: Env)
    requires Consistent(w)
    requires forall i :: 0 <= i < |entries| ==> entries[i].uuid != e.uuid
    requires forall i :: 0 <= i < |entries| ==>
      UpToDate(w.files, w.remote, doPath, entries[i].uuid, hash(entries[i]))
    ensures var w' := Step(w, doPath, notebookName, e, hash(e), env);
      forall i :: 0 <= i < |entries| ==>
        UpToDate(w'.files, w'.remote, doPath, entries[i].uuid, hash(entries[i]))
  {
    forall i | 0 <= i < |entries|
      ensures var w' := Step(w, doPath, notebookName, e, hash(e), env);
        UpToDate(w'.files, w'.remote, doPath, entries[i].uuid, hash(entries[i]))
    {
      StepKeepsUpToDate(w, doPath, notebookName, e, hash(e), entries[i], hash(entries[i]), env);
    }
  }

  /** Dropping the last entry keeps uuids distinct, and the last entry's uuid is
      not among the others. */
  lemma DistinctUuidsPrefix(entries: seq<Entry>)
    requires entries != [] && DistinctUuids(entries)
    ensures DistinctUuids(entries[..|entries| - 1])
    ensures forall i :: 0 <= i < |entries| - 1 ==> entries[i].uuid != entries[|entries| - 1].uuid
  {
    var prefix := entries[..|entries| - 1];
    forall i, j | 0 <= i < j < |prefix| ensures prefix[i].uuid != prefix[j].uuid {
      assert prefix[i] == entries[i] && prefix[j] == entries[j];
    }
  }

  /** Runs keep the invariant. */
  lemma {:induction false} RunKeepsConsistent(w: World, doPath: string, notebookName: string,
                                              hash: Entry -> string, entries: seq<Entry>, envs: seq<Env>)
    requires |envs| == |entries| && Consistent(w)
    ensures Consistent(Run(w, doPath, notebookName, hash, entries, envs))
    decreases |entries|
  {
    if entries != [] {
      var n := |entries| - 1;
      RunKeepsConsistent(w, doPath, notebookName, hash, entries[..n], envs[..n]);
      StepKeepsConsistent(Run(w, doPath, notebookName, hash, entries[..n], envs[..n]),
                          doPath, notebookName, entries[n], hash(entries[n]), envs[n]);
    }
  }

  /** A fault-free step for a new entry extends the set of current records by it. */
  lemma StepExtendsUpToDate(w: World, doPath: string, notebookName: string, hash: Entry -> string,
                            entries: seq<Entry>, e: Entry, env: Env)
    requires Consistent(w) && env.fault == NoFault
    requires forall i :: 0 <= i < |entries| ==> entries[i].uuid != e.uuid
    requires AllUpToDate(w, doPath, hash, entries)
    ensures AllUpToDate(Step(w, doPath, notebookName, e, hash(e), env), doPath, hash, entries + [e])
  {
    StepKeepsAllUpToDate(w, doPath, notebookName, hash, entries, e, env);
    StepSyncs(w, doPath, notebookName, e, hash(e), env);
    var all := entries + [e];
    forall i | 0 <= i < |all| ensures all[i] == if i < |entries| then entries[i] else e {
    }
  }

  /** No step of a run meets a fault. */
  ghost predicate FaultFree(envs: seq<Env>) {
    forall i :: 0 <= i < |envs| ==> envs[i].fault == NoFault
  }

  /** Dropping the last environment keeps a run fault-free. */
  lemma FaultFreePrefix(envs: seq<Env>)
    requires envs != [] && FaultFree(envs)
    ensures FaultFree(envs[..|envs| - 1]) && envs[|envs| - 1].fault == NoFault
  {
  }

  /** After a run that meets no fault, every entry's record is current. */
  lemma {:induction false} RunSyncsAll(w: World, doPath: string, notebookName: string,
                                       hash: Entry -> string, entries: seq<Entry>, envs: seq<Env>)
    requires |envs| == |entries| && Consistent(w) && DistinctUuids(entries)
    requires FaultFree(envs)
    ensures AllUpToDate(Run(w, doPath, notebookName, hash, entries, envs), doPath, hash, entries)
    decreases |entries|
  {
    if entries != [] {
      var n := |entries| - 1;
      var prefix, last := entries[..n], entries[n];
      DistinctUuidsPrefix(entries);
      FaultFreePrefix(envs);
      RunSyncsAll(w, doPath, notebookName, hash, prefix, envs[..n]);
      RunKeepsConsistent(w, doPath, notebookName, hash, prefix, envs[..n]);
      var before := Run(w, doPath, notebookName, hash, prefix, envs[..n]);
      StepExtendsUpToDate(before, doPath, notebookName, hash, prefix, last, envs[n]);
      assert prefix + [last] == entries;
    }
  }

  /** A run over entries whose records are all current changes no state, no
      remote note and no counter. */
  lemma {:induction false} RunOverCurrentChangesNothing(w: World, doPath: string, notebookName: string,
                                                        hash: Entry -> string, entries: seq<Entry>, envs: seq<Env>)
    requires |envs| == |entries|
    requires AllUpToDate(w, doPath, hash, entries)
    ensures var w' := Run(w, doPath, notebookName, hash, entries, envs);
      w'.files == w.files && w'.remote == w.remote && w'.created == w.created && w'.updated == w.updated
    decreases |entries|
  {
    if entries != [] {
      var n := |entries| - 1;
      var prefix := entries[..n];
      forall i | 0 <= i < n
        ensures UpToDate(w.files, w.remote, doPath, prefix[i].uuid, hash(prefix[i]))
      {
        assert prefix[i] == entries[i];
      }
      RunOverCurrentChangesNothing(w, doPath, notebookName, hash, prefix, envs[..n]);
      var before := Run(w, doPath, notebookName, hash, prefix, envs[..n]);
      assert UpToDate(before.files, before.remote, doPath, entries[n].uuid, hash(entries[n]));
    }
  }

  /** Idempotence: running twice over an unchanged journal, the first run meeting
      no fault, the second run creates and updates nothing and leaves the state
      files and the remote notes as the first run left them. */
  lemma RerunIsNoOp(w: World, doPath: string, notebookName: string, hash: Entry -> string,
                    entries: seq<Entry>, envs1: seq<Env>, envs2: seq<Env>)
    requires |envs1| == |entries| && |envs2| == |entries|
    requires Consistent(w) && DistinctUuids(entries)
    requires FaultFree(envs1)
    ensures var w1 := Run(w, doPath, notebookName, hash, entries, envs1);
      var w2 := Run(w1.(created := 0, updated := 0), doPath, notebookName, hash, entries, envs2);
      w2.created == 0 && w2.updated == 0 && w2.files == w1.files && w2.remote == w1.remote
  {
    var w1 := Run(w, doPath, notebookName, hash, entries, envs1);
    RunSyncsAll(w, doPath, notebookName, hash, entries, envs1);
    RunOverCurrentChangesNothing(w1.(created := 0, updated := 0), doPath, notebookName, hash, entries, envs2);
  }

  /** After a reset every entry is new: `prepareSyncLog` returns a fresh record
      for it and makes no remote call. */
  lemma ResetMakesEveryEntryNew(w: World, doPath: string, e: Entry, digest: string)
    ensures Prepare(Emptied(w.files, doPath), w.remote, doPath, e, digest)
         == Prepared(Some(NewLog(doPath, e, digest)), w.remote, [])
  {
    ResetForgetsEveryEntry(w.files, doPath, e.uuid);
  }
}
