# dayone2-to-evernote: the sync engine

`dayone2-to-evernote.js` copies the entries of a Day One 2 journal export into
Evernote. For every entry it keeps a small JSON state record under
`<journal>/.dayone2-to-evernote/`. The record holds the entry's content hash
(`entry-md5`) and the id of the Evernote note made from it (`noteId`). A run
loads the entries, optionally empties the state directory (`--reset`) and then,
entry by entry:

- skips an entry whose hash is unchanged and whose note still exists;
- creates a note for an entry that has no record;
- replaces the note of any other entry: the stale note is deleted, and the
  notebook it was in is remembered so that the new note goes there too.

It counts the created and updated notes. It saves the record only when the
note was created.

This project models that engine in Dafny:

- `Paths` models the state-file and photo paths.
- `Journal` models the entries and the `--after` filter.
- `Params` models the note parameters: placeholder stripping, title, tags
  and attachments.
- `SyncState` models the state directory as a map from file path to record.
- `Remote` models the Evernote side as a store of notes under fresh ids.
- `Engine` gives the meaning of one decision (`Prepare`), of one entry (`Step`)
  and of one run (`Run`). Class `Engine.SyncRun` performs them step by step
  against the two stateful stores `SyncState.StateStore` and `Remote.Evernote`.
- `Properties` proves invariants and results across entries and runs:
  - the state stays consistent;
  - a fault-free run leaves every entry current;
  - re-running over an unchanged journal changes nothing;
  - a replaced note is gone;
  - a vanished note is recreated;
  - a reset makes every entry new.

The collaborators are parameters of the model:

- The content hash (`object-hash` of the entry's JSON) is a function
  `hash: Entry -> string`. The script hashes the entry's whole JSON, and
  `Entry` keeps only the six fields the note is built from. A change in any
  other field, such as `starred` or `modifiedDate`, makes the script replace
  the note. The model can express that only through a different `hash`. So
  the "unchanged journal" of `Properties.RerunIsNoOp` means the same entries
  and the same `hash`.
- The remote store is a data value with the four operations the script uses.
- Each entry's `Env` says which call in the callback's `try` block raises, if
  any, and what the clock says.

Dates are integers.

Behaviour of the script worth knowing, which the model follows:

- The `dayone` tag is appended to the entry's tags even when it is already
  there. The tags are not a set union.
- A replaced entry whose old note has vanished (`deleteNote` reports no
  notebook) counts as *created*, not *updated*.
- `saveSyncLog` writes to the path stored in the record, not to a path
  recomputed from the uuid. The model's `Saved` uses `log.path`. The
  invariant `SelfLocated` says that the two agree. It is an assumption about
  the state directory found on disk: every run lemma takes it as given through
  `Consistent`, and the steps keep it.
- When `saveSyncLog` raises after `createNote` returned, the new note is not
  linked by any record. The next run creates a second note for the same entry,
  and both stay live (`Properties.FailedSaveOrphansNote`). So the model
  proves only that no two records link the same note, and not that every entry
  has at most one live note.
- `resetSyncState` empties only the journal's own state directory. Other files
  in the state map are kept.

## Model

| member | source | states |
|---|---|---|
| Paths.ComposePhotosPath | dayone2-to-evernote.js:11-13 | the photos directory is the journal path followed by `/photos/` |
| Paths.ComposeSyncLogDirPath | dayone2-to-evernote.js:15-17 | the state directory is the journal path followed by `/.dayone2-to-evernote/` |
| Paths.ComposeSyncLogPath | dayone2-to-evernote.js:19-22 | a state file lies inside the state directory and its name is `/.` + uuid + `.json` |
| Paths.SyncLogPathInjective | dayone2-to-evernote.js:19-22 | distinct uuids of one journal get distinct state files |
| Journal.CreatedAfter | dayone2-to-evernote.js:91-94 | the filter keeps, in order, exactly the entries created after the cutoff, with their multiplicities |
| Journal.LoadEntries | dayone2-to-evernote.js:88-96 | without a cutoff the entries are returned unchanged; with one, the result is the filter `CreatedAfter`: an order-preserving subsequence holding every entry created after the cutoff, with its multiplicity, and no other |
| Strings.Trim | dayone2-to-evernote.js:110-113 | JavaScript `trim()` on the stored `noteId`: ECMAScript white space and line terminators are dropped from both ends; its meaning is given by `TrimSpec` |
| Strings.TrimStartSpec | dayone2-to-evernote.js:110 | the trimmed-start string is a suffix, the dropped prefix is all white space, and it does not start with white space |
| Strings.TrimEndSpec | dayone2-to-evernote.js:110 | the trimmed-end string is a prefix, the dropped suffix is all white space, and it does not end with white space |
| Strings.TrimSpec | dayone2-to-evernote.js:110 | `trim()` returns an infix with only white space around it and no white space at either end |
| Strings.TrimUnchanged | dayone2-to-evernote.js:110 | a string without white space at its ends is its own trim |
| Strings.NatToString | dayone2-to-evernote.js:180 | a decimal numeral is a non-empty string of digits, with at least two of them from 10 on |
| Strings.NatToStringInjective | dayone2-to-evernote.js:180 | different numbers have different numerals, so generated note ids never clash |
| Params.LineEnd | dayone2-to-evernote.js:57 | the placeholder regexes' `.*` stops at the first line terminator |
| Params.LastParen | dayone2-to-evernote.js:57 | finds the last `)` in a range, or reports that there is none |
| Params.BlockMatch | dayone2-to-evernote.js:57 | a match of `/!\[\].*\)\n\n/` starts with `![]` and is at least six characters long |
| Params.InlineMatch | dayone2-to-evernote.js:57 | a match of `/!\[\].*\)/` starts with `![]` and is at least four characters long |
| Params.RemoveBlockPlaceholders | dayone2-to-evernote.js:57 | the first global replace never lengthens the text |
| Params.RemoveInlinePlaceholders | dayone2-to-evernote.js:57 | the second global replace never lengthens the text |
| Params.StripPlaceholders | dayone2-to-evernote.js:57 | the placeholder removal never lengthens the text |
| Params.BlockUnchanged | dayone2-to-evernote.js:57 | a text without `![]` is left unchanged by the first replace |
| Params.InlineUnchanged | dayone2-to-evernote.js:57 | a text without `![]` is left unchanged by the second replace |
| Params.StripWithoutMarkerIsIdentity | dayone2-to-evernote.js:57 | a text without `![]` is left unchanged by the placeholder removal |
| Params.FirstLine | dayone2-to-evernote.js:85 | `split('\n')[0]` is the prefix up to the first newline, or the whole text |
| Params.NoteTitle | dayone2-to-evernote.js:84-86 | the title is a prefix of the text without newline, ending at the first newline or at the end of the text (empty text gives the empty title) |
| Params.TitleIsFirstLine | dayone2-to-evernote.js:84-86 | the title of `head\ntail`, where `head` has no newline, is `head` |
| Params.TagsWithSyncTag | dayone2-to-evernote.js:60-62 | the tags are the entry's tags, or none, with exactly one more `dayone` appended at the end |
| Params.AttachmentPaths | dayone2-to-evernote.js:68-74 | one attachment per photo, in order, each the photos path + md5 + `.` + type |
| Params.PhotoPath | dayone2-to-evernote.js:71 | a photo's path is the photos directory followed by md5, `.` and type |
| Params.NoteParamsFor | dayone2-to-evernote.js:55-74 | the note parameters: stripped text, its first line as title, the given notebook, tags with `dayone` appended, the creation date, latitude and longitude exactly when there is a location, and one attachment per photo |
| Params.PrepareParams | dayone2-to-evernote.js:55-74 | the note parameters: stripped text, its first line as title, the given notebook, tags with `dayone` appended, the creation date, latitude and longitude exactly when there is a location, and one attachment per photo |
| Params.HelloWorldParams | dayone2-to-evernote.js:55-62 | an entry `Hello\nWorld` without tags gets the title `Hello` and the tags `["dayone"]` |
| SyncState.Stamped | dayone2-to-evernote.js:121-124 | a saved record carries the date, has no `doNote` and no `notebook`, and keeps every other field |
| SyncState.Lookup | dayone2-to-evernote.js:44-53 | a record is found exactly when the entry's state file exists, and it is that file's content |
| SyncState.Saved | dayone2-to-evernote.js:121-129 | saving writes the stamped record to the record's own path and leaves every other file as it was |
| SyncState.Emptied | dayone2-to-evernote.js:130-133 | after a reset no file lies in the journal's state directory, and every other file is kept |
| SyncState.LoadAfterSave | dayone2-to-evernote.js:44-53 | a record saved at its entry's path is what the next load returns, stamped |
| SyncState.SaveKeepsOtherEntries | dayone2-to-evernote.js:44-53 | saving one entry's record does not change what is loaded for another entry |
| SyncState.ResetForgetsEveryEntry | dayone2-to-evernote.js:130-133 | after a reset, loading any entry of the journal finds no record |
| SyncState.StateStore.Load | dayone2-to-evernote.js:44-53 | a record is returned exactly when the entry's state file exists, and it is that file's content |
| SyncState.StateStore.Save | dayone2-to-evernote.js:121-129 | a save that does not raise writes the stamped record; one that raises is modelled as keeping the old record |
| SyncState.StateStore.Reset | dayone2-to-evernote.js:130-133 | with the flag set the state directory is emptied; without it nothing changes |
| Remote.IdOf | dayone2-to-evernote.js:180 | note ids are `note-` followed by the decimal counter |
| Remote.IdOfTrimmed | dayone2-to-evernote.js:110 | a generated note id is its own trim |
| Remote.IdOfInjective | dayone2-to-evernote.js:180 | distinct counter values give distinct note ids |
| Remote.NoteExists | dayone2-to-evernote.js:110 | `findNote`: the note is in the store |
| Remote.RemoveNote | dayone2-to-evernote.js:112-114 | after `deleteNote` the note is gone and nothing else changed; the reported notebook is the note's own, or the empty name when there was no such note |
| Remote.AddNotebook | dayone2-to-evernote.js:177-179 | `createNotebook` adds the notebook and changes no note |
| Remote.AddNote | dayone2-to-evernote.js:180 | `createNote` adds one note, under an id never issued before when the store is valid, records that id as issued and changes nothing else |
| Remote.AddNoteKeepsValid | dayone2-to-evernote.js:180 | creating a note keeps every future id unissued |
| Remote.Evernote.FindNote | dayone2-to-evernote.js:110 | `findNote` reports whether the note exists and changes nothing but the call log |
| Remote.Evernote.DeleteNote | dayone2-to-evernote.js:112-114 | `deleteNote` acts as `RemoveNote` and logs the call |
| Remote.Evernote.CreateNotebook | dayone2-to-evernote.js:177-179 | `createNotebook` acts as `AddNotebook` unless it raises, and logs the call |
| Remote.Evernote.CreateNote | dayone2-to-evernote.js:180 | `createNote` returns a fresh id and acts as `AddNote` unless it raises, in which case the store is unchanged; it logs the call |
| Engine.Truthy | dayone2-to-evernote.js:114-177 | JavaScript truthiness of an optional string: present and non-empty; it decides `updated` against `created` and the target notebook |
| Engine.UpToDate | dayone2-to-evernote.js:109-110 | the skip test: a record exists, its hash is the entry's, it has a note id, and the trimmed note exists |
| Engine.NewLog | dayone2-to-evernote.js:105 | a new record sits at the entry's state file, carries the entry's uuid and hash and the entry itself, and has no note id, notebook or date |
| Engine.TargetNotebook | dayone2-to-evernote.js:175 | the notebook the old note was in when that name is non-empty, else the run's notebook; it is non-empty whenever the run's notebook is |
| Engine.Run | dayone2-to-evernote.js:171-191 | the entries one after the other; counters never go down and rise by at most one per entry |
| Engine.Prepare | dayone2-to-evernote.js:98-120 | no record gives a new record with the entry's uuid and hash and no remote call; skip happens exactly when the hash matches, a note id exists and `findNote` finds it, and then only `findNote` was called; otherwise the record gets the new hash, the trimmed old note is deleted exactly when there is a note id, and a notebook it reports is remembered only when it is non-empty |
| Engine.Push | dayone2-to-evernote.js:171-187 | exactly one counter is bumped before any remote call (updated when the record has a notebook, else created); `createNotebook` is called before `createNote` exactly when the bumped `created` counter is positive, and a failing `createNotebook` stops the block; the new note goes to the notebook the old note was in, else the run's notebook; the state is saved with the new note id only when creating the note and saving succeed; an earlier failure leaves the state alone; remote notes only grow, by the one fresh id |
| Engine.Deliver | dayone2-to-evernote.js:177-184 | the exact calls made: `createNotebook` when `created` is positive, then `createNote` with the entry's parameters for the target notebook unless `createNotebook` raised; the notebook is added and the note is created under the fresh id in the target notebook exactly when those calls return; the record is saved with the fresh id exactly on success |
| Engine.Step | dayone2-to-evernote.js:171-191 | a skipped entry changes no state, note or counter; any other entry bumps exactly one counter even when later calls fail; the state is written only after a successful create and save |
| Engine.SyncRun.PrepareSyncLog | dayone2-to-evernote.js:98-120 | loading the record, `findNote` and `deleteNote` as performed by the script give what `Prepare` says, calls included |
| Engine.SyncRun.PushLog | dayone2-to-evernote.js:173-187 | the counter update and the `try` block give the world `Push` describes |
| Engine.SyncRun.DeliverLog | dayone2-to-evernote.js:177-184 | the three collaborator calls, each guarded by the previous one's success, give the world `Deliver` describes |
| Engine.SyncRun.SyncEntry | dayone2-to-evernote.js:171-191 | one callback gives the world `Step` describes |
| Engine.SyncRun.SyncAll | dayone2-to-evernote.js:171-191 | the `forEach` over the entries gives the world `Run` describes |
| Engine.SyncRun.Sync | dayone2-to-evernote.js:167-191 | loading and filtering the entries, the optional reset, then syncing every loaded entry from the reset state |
| Properties.SaveFreshLink | dayone2-to-evernote.js:121-129 | saving a record that links a never-issued note keeps every record at its own path and keeps links issued and unique |
| Properties.PreparedLogIsAtEntryPath | dayone2-to-evernote.js:103-118 | the record `prepareSyncLog` hands on is saved back to the entry's own state file |
| Properties.StepKeepsConsistent | dayone2-to-evernote.js:171-191 | whatever fails, one entry keeps the state consistent: records at their own paths, linked notes issued and pairwise distinct, future ids unissued |
| Properties.StepSyncs | dayone2-to-evernote.js:171-191 | after a fault-free step the entry's record is current (same hash, linked note exists) |
| Properties.StepKeepsUpToDate | dayone2-to-evernote.js:171-191 | a step for one entry leaves another entry's current record current, though it may delete a note |
| Properties.ReplaceRemovesOldNote | dayone2-to-evernote.js:109-114 | when an entry with a note id is not current, its old note no longer exists after the step, whatever fails afterwards |
| Properties.VanishedNoteIsRecreated | dayone2-to-evernote.js:109-184 | a saved record whose note has vanished, though its hash still matches, is pushed again, counted as created, and is current after a fault-free step |
| Properties.ReplacedNoteKeepsNotebook | dayone2-to-evernote.js:112-180 | a stale entry whose old note is in a named notebook counts as updated, and its new note is created in that same notebook |
| Properties.FailedSaveLeavesUnlinkedNote | dayone2-to-evernote.js:180-184 | when `saveSyncLog` raises for a new entry, the note `createNote` made is live, issued and linked by no record, and the state is unchanged |
| Properties.NewEntryKeepsOrphan | dayone2-to-evernote.js:171-191 | a fault-free step for an entry with no record keeps an unlinked live note live and unlinked and makes its own note under another id |
| Properties.FailedSaveOrphansNote | dayone2-to-evernote.js:171-191 | a failed save followed by a fault-free step for the same new entry leaves two live notes for it, one linked by no record, and counts it as created twice |
| Properties.StepKeepsAllUpToDate | dayone2-to-evernote.js:171-191 | a step for an entry with a new uuid keeps every other current record current |
| Properties.RunKeepsConsistent | dayone2-to-evernote.js:171-191 | a whole run keeps the state consistent, whatever fails |
| Properties.StepExtendsUpToDate | dayone2-to-evernote.js:171-191 | a fault-free step for a new entry adds it to the entries whose records are current |
| Properties.RunSyncsAll | dayone2-to-evernote.js:171-191 | after a fault-free run over entries with distinct uuids, every entry's record is current |
| Properties.RunOverCurrentChangesNothing | dayone2-to-evernote.js:171-191 | a run over entries that are all current changes no state, no note and no counter |
| Properties.RerunIsNoOp | dayone2-to-evernote.js:98-191 | re-running over an unchanged journal after a fault-free run creates and updates nothing and leaves the state and the notes as they were |
| Properties.ResetMakesEveryEntryNew | dayone2-to-evernote.js:103-133 | after a reset `prepareSyncLog` returns a fresh record for every entry and makes no remote call |

## Left out

- File-system work is not modelled:
  - `fs` reads and writes;
  - creating the state directory in `loadSyncLog`;
  - the temporary parameters file with its `uuid/v4` name, and its deletion;
  - JSON parsing and printing of the journal and of the records.

  The state directory is a map, and the note parameters are a record.
- `object-hash` over the entry's JSON becomes the parameter `hash`.
- The `evernote-jxa` AppleScript bridge is a data value with `findNote`,
  `deleteNote`, `createNotebook` and `createNote`. Its implementation is not
  part of this model. The model makes two assumptions about it:
  - `deleteNote` on a note that does not exist returns an empty name;
  - new note ids are `note-<n>`, counted up.
- Errors are modelled only inside the callback's `try` block. The model leaves
  out errors raised by `findNote`, `deleteNote`, loading a record or writing
  the parameters file. The script does not catch those, so they would end the
  run.
- `loadEntriesFromJournalJson`, including its check of the journal metadata
  version, is not part of this model: the journal's entries are an input.
- Not modelled: command-line parsing, the usage message, `pkginfo`, the
  progress bar, console logging, and the `async-foreach`/`setTimeout` pacing.
  The entries are processed one after another in order.
- SyncState.StateStore.Save: a save that raises is modelled as keeping the old
  record. In the script `fs.openSync(path, 'w')` empties the file before
  `fs.writeSync` writes it, so a failing write leaves an empty file, and the
  next `loadSyncLog` of that entry raises outside the `try` block and ends the
  run. `Engine.Deliver`, `Engine.Step` and `Properties.StepKeepsConsistent`
  inherit this: their `SaveFault` keeps the old record.
- Engine.Deliver: `SaveFault` covers a save that raises before the file is
  touched. A write that fails after the file was emptied is not modelled.
- Properties.Consistent: that every record lies at the path it stores is an
  assumption about the state directory found on disk. A record written under
  another spelling of the journal path, such as a relative path or a moved
  journal, is saved back to its old path by the script; the model does not
  represent that case.
- The default notebook name (`Dayone: ` and today's date when none is given)
  belongs to command-line handling and is not modelled: the run's notebook is
  an input.
- Dates are integers. `Date.parse`, `new Date()` and the `Date` comparison
  in the filter are not modelled.
- PrepareParams: the script appends `dayone` to the entry's own tag array,
  which changes the entry in place. The model computes the new tag list and
  leaves the entry unchanged. The entry is hashed before the tag is appended
  and is not used again in the run, so nothing the model states depends on
  the difference.
- StripPlaceholders: the two regular expressions are modelled exactly, but
  the only things proved are that a text without `![]` is unchanged and that
  the result is never longer. The model does not claim that every placeholder
  is removed.
- The difference between JSON `null` and a missing field is not modelled.
  Both are `None`.
- The `test/do2en.js` prototype is not part of this model.
