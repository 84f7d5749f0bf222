/** The per-entry sync state records kept as JSON files in the journal's hidden
    state directory: `loadSyncLog`, `saveSyncLog` and `resetSyncState`
    (dayone2-to-evernote.js:44-53, 121-133). The file system is a map from file
    path to the record stored there. */
module SyncState {
  import opened Wrappers
  import opened Journal
  import opened Paths

  /** A sync state record. `path` is where the record is written back to; `doNote`
      and `notebook` only live while an entry is being processed. */
  datatype SyncLog = SyncLog(
    path: string,
    uuid: string,
    entryMd5: string,
    noteId: Option<string>,
    doNote: Option<Entry>,
    notebook: Option<string>,
    date: Option<int>)

  type Files = map<string, SyncLog>

  /** The record `saveSyncLog` writes: dated, without the transient fields, and
      otherwise as given. */
  function Stamped(log: SyncLog, now: int): (r: SyncLog)
    ensures r.doNote.None? && r.notebook.None? && r.date == Some(now)
    ensures r.path == log.path && r.uuid == log.uuid
    ensures r.entryMd5 == log.entryMd5 && r.noteId == log.noteId
  {
    log.(doNote := None, notebook := None, date := Some(now))
  }

  /** `loadSyncLog`: the record in the entry's state file, if that file exists. */
  function Lookup(files: Files, doPath: string, uuid: string): (r: Option<SyncLog>)
    ensures r.Some? <==> ComposeSyncLogPath(doPath, uuid) in files
    ensures r.Some? ==> r.value == files[ComposeSyncLogPath(doPath, uuid)]
  {
    var path := ComposeSyncLogPath(doPath, uuid);
    if path in files then Some(files[path]) else None
  }

  /** `saveSyncLog`: the stamped record replaces whatever is at `log.path`. */
  function Saved(files: Files, log: SyncLog, now: int): (r: Files)
    ensures r.Keys == files.Keys + {log.path}
    ensures r[log.path] == Stamped(log, now)
    ensures forall k :: k in files && k != log.path ==> r[k] == files[k]
  {
    files[log.path := Stamped(log, now)]
  }

  /** `resetSyncState(true, doPath)`: every file in the journal's state directory
      is removed; files elsewhere stay. */
  function Emptied(files: Files, doPath: string): (r: Files)
    ensures forall k :: k in r <==> k in files && !(ComposeSyncLogDirPath(doPath) <= k)
    ensures forall k :: k in r ==> r[k] == files[k]
  {
    map k | k in files && !(ComposeSyncLogDirPath(doPath) <= k) :: files[k]
  }

  /** A record saved to its entry's own state file is what the next load returns. */
  lemma LoadAfterSave(files: Files, doPath: string, log: SyncLog, now: int)
    requires log.path == ComposeSyncLogPath(doPath, log.uuid)
    ensures Lookup(Saved(files, log, now), doPath, log.uuid) == Some(Stamped(log, now))
  {
  }

  /** Saving one entry's record does not change what is loaded for another entry. */
  lemma SaveKeepsOtherEntries(files: Files, doPath: string, log: SyncLog, now: int, uuid: string)
    requires log.path == ComposeSyncLogPath(doPath, log.uuid)
    requires uuid != log.uuid
    ensures Lookup(Saved(files, log, now), doPath, uuid) == Lookup(files, doPath, uuid)
  {
    if ComposeSyncLogPath(doPath, uuid) == log.path {
      SyncLogPathInjective(doPath, uuid, log.uuid);
    }
  }

  /** After a reset no entry of the journal has a record. */
  lemma ResetForgetsEveryEntry(files: Files, doPath: string, uuid: string)
    ensures Lookup(Emptied(files, doPath), doPath, uuid).None?
  {
  }

  /** The state directory, as files on disk. */
  class StateStore {
    var files: Files

    constructor (initial: Files)
      ensures files == initial
    {
      files := initial;
    }

    /** `loadSyncLog`; a missing file is not an error. */
    method Load(doPath: string, uuid: string) returns (r: Option<SyncLog>)
      ensures r == Lookup(files, doPath, uuid)
      ensures r.Some? <==> ComposeSyncLogPath(doPath, uuid) in files
    {
      var path := ComposeSyncLogPath(doPath, uuid);
      if path in files {
        r := Some(files[path]);
      } else {
        r := None;
      }
    }

    /** `saveSyncLog`; `fails` says whether the write raises. */
    method Save(log: SyncLog, now: int, fails: bool) returns (ok: bool)
      modifies this
      ensures ok == !fails
      ensures files == if ok then Saved(old(files), log, now) else old(files)
    {
      ok := !fails;
      if ok {
        var stamped := log.(date := Some(now));
        stamped := stamped.(doNote := None);
        stamped := stamped.(notebook := None);
        files := files[log.path := stamped];
      }
    }

    /** `resetSyncState`: empties the journal's state directory when asked to. */
    method Reset(reset: bool, doPath: string)
      modifies this
      ensures files == if reset then Emptied(old(files), doPath) else old(files)
    {
      if reset {
        files := Emptied(files, doPath);
      }
    }
  }
}
