/** The sync decision and bookkeeping engine of dayone2-to-evernote.js:
    `prepareSyncLog` (98-120) decides, for one entry, whether to skip it, create
    a note for it, or replace its stale note; the `createNote` callback of `main`
    (171-191) counts the entry, creates the notebook and the note, and saves the
    state record. The pure functions below give the meaning of one decision
    (`Prepare`), one entry (`Step`) and one run (`Run`); class `SyncRun` performs
    them step by step against the two stores. */
module Engine {
  import opened Wrappers
  import opened Strings
  import opened Journal
  import opened Paths
  import opened Params
  import opened Remote
  import opened SyncState

  /** Which collaborator call inside the callback's `try` block raises, if any. */
  datatype Fault = NoFault | NotebookFault | CreateFault | SaveFault

  /** What the environment decides for one entry: the failing call and the clock. */
  datatype Env = Env(fault: Fault, now: int)

  /** Everything the engine reads and changes: state files, remote store, the log
      of remote calls, and the run's two counters. */
  datatype World = World(files: Files, remote: Store, calls: seq<Call>, created: nat, updated: nat)

  /** JavaScript truthiness of an optional string. */
  predicate Truthy(s: Option<string>) {
    s.Some? && s.value != ""
  }

  /** The stored record is current: same content hash, a note id, and the note
      still exists remotely. Exactly then `prepareSyncLog` skips. */
  predicate UpToDate(files: Files, remote: Store, doPath: string, uuid: string, digest: string) {
    var prior := Lookup(files, doPath, uuid);
    prior.Some? && prior.value.entryMd5 == digest && prior.value.noteId.Some?
    && NoteExists(remote, Trim(prior.value.noteId.value))
  }

  /** The outcome of `prepareSyncLog`: the record to push (None means skip), the
      remote store afterwards, and the remote calls it made. */
  datatype Prepared = Prepared(log: Option<SyncLog>, remote: Store, calls: seq<Call>)

  /** The record `prepareSyncLog` builds for an entry seen for the first time. */
  function NewLog(doPath: string, e: Entry, digest: string): (r: SyncLog)
    ensures r.path == ComposeSyncLogPath(doPath, e.uuid) && r.uuid == e.uuid && r.entryMd5 == digest
    ensures r.noteId.None? && r.doNote == Some(e) && r.notebook.None? && r.date.None?
  {
    SyncLog(ComposeSyncLogPath(doPath, e.uuid), e.uuid, digest, None, Some(e), None, None)
  }

  /** `prepareSyncLog`. */
  function Prepare(files: Files, remote: Store, doPath: string, e: Entry, digest: string): (p: Prepared)
    // no record: create, without any remote call
    ensures Lookup(files, doPath, e.uuid).None? ==>
      p == Prepared(Some(NewLog(doPath, e, digest)), remote, [])
    // skip exactly when the record is current; then only `findNote` was called
    ensures p.log.None? <==> UpToDate(files, remote, doPath, e.uuid, digest)
    ensures p.log.None? ==>
      p.remote == remote
      && p.calls == [FindNoteCall(Trim(Lookup(files, doPath, e.uuid).value.noteId.value))]
    // replace: the record is carried over with the new hash; the stale note is
    // deleted when there is one, and a notebook it reports is remembered
    ensures p.log.Some? && Lookup(files, doPath, e.uuid).Some? ==>
      var prior, l := Lookup(files, doPath, e.uuid).value, p.log.value;
      l == prior.(entryMd5 := digest, doNote := Some(e), notebook := l.notebook)
      && (prior.noteId.None? ==> p.remote == remote && p.calls == [] && l.notebook == prior.notebook)
      && (prior.noteId.Some? ==>
            var id := Trim(prior.noteId.value);
            var d := RemoveNote(remote, id);
            p.remote == d.store
            && p.calls == (if digest == prior.entryMd5 then [FindNoteCall(id)] else []) + [DeleteNoteCall(id)]
            && l.notebook == if d.notebook != "" then Some(d.notebook) else prior.notebook)
  {
    match Lookup(files, doPath, e.uuid)
    case None => Prepared(Some(NewLog(doPath, e, digest)), remote, [])
    case Some(prior) =>
      var log := prior.(doNote := Some(e));
      var checked := digest == log.entryMd5 && log.noteId.Some?;
      var findCalls := if checked then [FindNoteCall(Trim(log.noteId.value))] else [];
      if checked && NoteExists(remote, Trim(log.noteId.value)) then
        Prepared(None, remote, findCalls)
      else
        var stale := log.(entryMd5 := digest);
        if stale.noteId.None? then Prepared(Some(stale), remote, findCalls)
        else
          var id := Trim(stale.noteId.value);
          var d := RemoveNote(remote, id);
          var replaced := if d.notebook != "" then stale.(notebook := Some(d.notebook)) else stale;
          Prepared(Some(replaced), d.store, findCalls + [DeleteNoteCall(id)])
  }

  /** The notebook the note goes to: the one the old note was found in, else the
      run's notebook. */
  function TargetNotebook(log: SyncLog, notebookName: string): (r: string)
    ensures Truthy(log.notebook) ==> r == log.notebook.value
    ensures !Truthy(log.notebook) ==> r == notebookName
    ensures notebookName != "" ==> r != ""
  {
    if Truthy(log.notebook) then log.notebook.value else notebookName
  }

  /** The callback's `try` block for a record that is to be pushed. */
  function Push(w: World, doPath: string, notebookName: string, e: Entry, log: SyncLog, env: Env): (w': World)
    ensures Truthy(log.notebook) ==> w'.updated == w.updated + 1 && w'.created == w.created
    ensures !Truthy(log.notebook) ==> w'.created == w.created + 1 && w'.updated == w.updated
    ensures env.fault == CreateFault || env.fault == SaveFault ==> w'.files == w.files
    ensures env.fault == NotebookFault && w'.created > 0 ==> w'.files == w.files
    ensures env.fault == NoFault ==>
      w'.files == Saved(w.files, log.(noteId := Some(IdOf(w.remote.nextId))), env.now)
    ensures w'.files == w.files
      || (w'.files == Saved(w.files, log.(noteId := Some(IdOf(w.remote.nextId))), env.now)
          && IdOf(w.remote.nextId) in w'.remote.notes)
    // the remote store only gains: at most the one new note, under the next id
    ensures w.remote.notes.Keys <= w'.remote.notes.Keys
    ensures w'.remote.issued <= w.remote.issued + {IdOf(w.remote.nextId)}
    ensures Valid(w.remote) ==> Valid(w'.remote)
    ensures env.fault == NoFault ==> IdOf(w.remote.nextId) in w'.remote.notes
    // `createNotebook` comes before `createNote` exactly while the bumped
    // `created` counter is positive, and a failing `createNotebook` stops there
    ensures w'.calls == w.calls
      + (if w'.created > 0 then [CreateNotebookCall(notebookName)] else [])
      + (if w'.created > 0 && env.fault == NotebookFault then []
         else [CreateNoteCall(NoteParamsFor(doPath, e, TargetNotebook(log, notebookName)))])
    ensures w'.remote.notebooks ==
      if w'.created > 0 && env.fault != NotebookFault then w.remote.notebooks + {notebookName}
      else w.remote.notebooks
    // the new note goes to the notebook the old note was in, else the run's one
    ensures var noted := env.fault != CreateFault && !(w'.created > 0 && env.fault == NotebookFault);
      (noted ==> w'.remote.notes == w.remote.notes[IdOf(w.remote.nextId) := TargetNotebook(log, notebookName)])
      && (!noted ==> w'.remote.notes == w.remote.notes)
  {
    var counted := if Truthy(log.notebook) then w.(updated := w.updated + 1) else w.(created := w.created + 1);
    Deliver(counted, doPath, notebookName, e, log, env)
  }

  /** The part of the `try` block after the counter: notebook, note, record. */
  function Deliver(w: World, doPath: string, notebookName: string, e: Entry, log: SyncLog, env: Env): (w': World)
    ensures w'.created == w.created && w'.updated == w.updated
    ensures env.fault == CreateFault || env.fault == SaveFault ==> w'.files == w.files
    ensures env.fault == NotebookFault && w.created > 0 ==> w'.files == w.files
    ensures env.fault == NoFault ==>
      w'.files == Saved(w.files, log.(noteId := Some(IdOf(w.remote.nextId))), env.now)
      && IdOf(w.remote.nextId) in w'.remote.notes
    ensures w'.files == w.files
      || (w'.files == Saved(w.files, log.(noteId := Some(IdOf(w.remote.nextId))), env.now)
          && IdOf(w.remote.nextId) in w'.remote.notes)
    ensures w.remote.notes.Keys <= w'.remote.notes.Keys
    ensures w'.remote.issued <= w.remote.issued + {IdOf(w.remote.nextId)}
    ensures Valid(w.remote) ==> Valid(w'.remote)
    ensures w'.calls == w.calls
      + (if w.created > 0 then [CreateNotebookCall(notebookName)] else [])
      + (if w.created > 0 && env.fault == NotebookFault then []
         else [CreateNoteCall(NoteParamsFor(doPath, e, TargetNotebook(log, notebookName)))])
    ensures w'.remote.notebooks ==
      if w.created > 0 && env.fault != NotebookFault then w.remote.notebooks + {notebookName}
      else w.remote.notebooks
    ensures var noted := env.fault != CreateFault && !(w.created > 0 && env.fault == NotebookFault);
      (noted ==> w'.remote.notes == w.remote.notes[IdOf(w.remote.nextId) := TargetNotebook(log, notebookName)])
      && (!noted ==> w'.remote.notes == w.remote.notes)
  {
    var params := NoteParamsFor(doPath, e, TargetNotebook(log, notebookName));
    if w.created > 0 && env.fault == NotebookFault then
      w.(calls := w.calls + [CreateNotebookCall(notebookName)])
    else
      var w2 := if w.created > 0
        then w.(remote := AddNotebook(w.remote, notebookName),
                calls := w.calls + [CreateNotebookCall(notebookName)])
        else w;
      var w3 := w2.(calls := w2.calls + [CreateNoteCall(params)]);
      if env.fault == CreateFault then w3
      else
        var c := AddNote(w3.remote, params.notebook);
        AddNoteKeepsValid(w3.remote, params.notebook);
        var w4 := w3.(remote := c.store);
        if env.fault == SaveFault then w4
        else w4.(files := Saved(w4.files, log.(noteId := Some(c.id)), env.now))
  }

  /** One entry through the `createNote` callback. */
  function Step(w: World, doPath: string, notebookName: string, e: Entry, digest: string, env: Env): (w': World)
    // a skipped entry changes nothing but the call log
    ensures UpToDate(w.files, w.remote, doPath, e.uuid, digest) ==>
      w'.files == w.files && w'.remote == w.remote && w'.created == w.created && w'.updated == w.updated
    // any other entry bumps exactly one counter, whatever fails afterwards
    ensures !UpToDate(w.files, w.remote, doPath, e.uuid, digest) ==>
      var l := Prepare(w.files, w.remote, doPath, e, digest).log.value;
      if Truthy(l.notebook) then w'.updated == w.updated + 1 && w'.created == w.created
      else w'.created == w.created + 1 && w'.updated == w.updated
    // the state is written only when note creation and saving succeed
    ensures env.fault == CreateFault || env.fault == SaveFault ==> w'.files == w.files
    ensures env.fault == NotebookFault && w'.created > 0 ==> w'.files == w.files
    ensures env.fault == NoFault && !UpToDate(w.files, w.remote, doPath, e.uuid, digest) ==>
      var l := Prepare(w.files, w.remote, doPath, e, digest).log.value;
      w'.files == Saved(w.files, l.(noteId := Some(IdOf(w.remote.nextId))), env.now)
  {
    var p := Prepare(w.files, w.remote, doPath, e, digest);
    var w1 := w.(remote := p.remote, calls := w.calls + p.calls);
    if p.log.None? then w1 else Push(w1, doPath, notebookName, e, p.log.value, env)
  }

  /** A run over the loaded entries, one after the other. */
  function Run(w: World, doPath: string, notebookName: string, hash: Entry -> string,
               entries: seq<Entry>, envs: seq<Env>): (w': World)
    requires |envs| == |entries|
    // every entry bumps at most one counter, and counters never go down
    ensures w.created <= w'.created && w.updated <= w'.updated
    ensures w'.created + w'.updated <= w.created + w.updated + |entries|
    decreases |entries|
  {
    if entries == [] then w
    else
      var n := |entries| - 1;
      Step(Run(w, doPath, notebookName, hash, entries[..n], envs[..n]),
           doPath, notebookName, entries[n], hash(entries[n]), envs[n])
  }

  /** One run of `main` after the command line is parsed: the journal, the
      notebook, the hash, and the two stores it works on, with its counter. */
  class SyncRun {
    const doPath: string
    const notebookName: string
    const hash: Entry -> string
    const store: StateStore
    const remote: Evernote
    var created: nat
    var updated: nat

    /** The world the pure model speaks about. */
    function Snapshot(): World
      reads this, store, remote
    {
      World(store.files, remote.State(), remote.calls, created, updated)
    }

    constructor (doPath: string, notebookName: string, hash: Entry -> string,
                 store: StateStore, remote: Evernote)
      ensures this.doPath == doPath && this.notebookName == notebookName && this.hash == hash
      ensures this.store == store && this.remote == remote
      ensures created == 0 && updated == 0
    {
      this.doPath, this.notebookName, this.hash := doPath, notebookName, hash;
      this.store, this.remote := store, remote;
      created, updated := 0, 0;
    }

    /** `prepareSyncLog`: loads the record, checks and deletes the remote note. */
    method PrepareSyncLog(e: Entry) returns (log: Option<SyncLog>)
      modifies remote
      ensures var p := Prepare(store.files, old(remote.State()), doPath, e, hash(e));
        log == p.log && remote.State() == p.remote && remote.calls == old(remote.calls) + p.calls
    {
      var digest := hash(e);
      var prior := store.Load(doPath, e.uuid);
      if prior.None? {
        log := Some(SyncLog(ComposeSyncLogPath(doPath, e.uuid), e.uuid, digest, None, Some(e), None, None));
        return;
      }
      var l := prior.value.(doNote := Some(e));
      var stale := digest != l.entryMd5 || l.noteId.None?;
      if !stale {
        var found := remote.FindNote(Trim(l.noteId.value));
        stale := !found;
      }
      if !stale {
        log := None;
        return;
      }
      l := l.(entryMd5 := digest);
      if l.noteId.Some? {
        var nb := remote.DeleteNote(Trim(l.noteId.value));
        if nb != "" {
          l := l.(notebook := Some(nb));
        }
      }
      log := Some(l);
    }

    /** The callback's `try` block for a record that is to be pushed; `env`
        decides which of its calls raises, and the clock. */
    method PushLog(e: Entry, l: SyncLog, env: Env)
      modifies this, store, remote
      ensures Snapshot() == Push(old(Snapshot()), doPath, notebookName, e, l, env)
    {
      if Truthy(l.notebook) {
        updated := updated + 1;
      } else {
        created := created + 1;
      }
      DeliverLog(e, l, env);
    }

    /** The rest of the `try` block: `createNotebook` while something was
        created, then `createNote`, then `saveSyncLog`, each only if the one
        before returned. */
    method DeliverLog(e: Entry, l: SyncLog, env: Env)
      modifies store, remote
      ensures Snapshot() == Deliver(old(Snapshot()), doPath, notebookName, e, l, env)
    {
      var params := PrepareParams(doPath, e, TargetNotebook(l, notebookName));
      var ok := true;
      if created > 0 {
        ok := remote.CreateNotebook(notebookName, env.fault == NotebookFault);
      }
      if ok {
        var id := remote.CreateNote(params, env.fault == CreateFault);
        if id.Some? {
          ok := store.Save(l.(noteId := id), env.now, env.fault == SaveFault);
        }
      }
    }

    /** The `createNote` callback for one entry. */
    method SyncEntry(e: Entry, env: Env)
      modifies this, store, remote
      ensures Snapshot() == Step(old(Snapshot()), doPath, notebookName, e, hash(e), env)
    {
      var log := PrepareSyncLog(e);
      if log.Some? {
        PushLog(e, log.value, env);
      }
    }

    /** The `forEach` over the loaded entries, one environment per entry. */
    method SyncAll(entries: seq<Entry>, envs: seq<Env>)
      requires |envs| == |entries|
      modifies this, store, remote
      ensures Snapshot() == Run(old(Snapshot()), doPath, notebookName, hash, entries, envs)
    {
      ghost var w0 := Snapshot();
      for i := 0 to |entries|
        invariant Snapshot() == Run(w0, doPath, notebookName, hash, entries[..i], envs[..i])
      {
        assert entries[..i + 1][..i] == entries[..i] && envs[..i + 1][..i] == envs[..i];
        ghost var before := Snapshot();
        SyncEntry(entries[i], envs[i]);
        assert Snapshot() == Step(before, doPath, notebookName, entries[i], hash(entries[i]), envs[i]);
        assert entries[..i + 1][i] == entries[i] && envs[..i + 1][i] == envs[i];
      }
      assert entries[..|entries|] == entries && envs[..|envs|] == envs;
    }

    /** `main` from loading the entries on: the state directory is emptied when
        `reset` is set, then every loaded entry is synced. */
    method Sync(journal: seq<Entry>, after: Option<int>, reset: bool, envs: seq<Env>)
      requires |envs| == |LoadEntries(journal, after)|
      modifies this, store, remote
      ensures var w := old(Snapshot());
        var start := w.(files := if reset then Emptied(w.files, doPath) else w.files);
        Snapshot() == Run(start, doPath, notebookName, hash, LoadEntries(journal, after), envs)
    {
      var entries := LoadEntries(journal, after);
      store.Reset(reset, doPath);
      SyncAll(entries, envs);
    }
  }
}
