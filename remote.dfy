/** The remote note store reached through `evernote-jxa`, as an abstract state:
    live notes with the notebook each sits in, the notebooks, and every note
    identifier ever handed out. The engine only calls `findNote`, `deleteNote`,
    `createNotebook` and `createNote`. */
module Remote {
  import opened Wrappers
  import opened Strings
  import opened Params

  /** The identifier of the n-th note the store creates. */
  function IdOf(n: nat): (r: string)
    ensures |r| > 5 && r[..5] == "note-" && r[5..] == NatToString(n)
  {
    "note-" + NatToString(n)
  }

  /** Identifiers carry no surrounding white space, so trimming keeps them. */
  lemma IdOfTrimmed(n: nat)
    ensures Trim(IdOf(n)) == IdOf(n)
  {
    var r := IdOf(n);
    assert r[0] == 'n';
    assert '0' <= r[|r| - 1] <= '9' by {
      assert r[|r| - 1] == NatToString(n)[|NatToString(n)| - 1];
    }
    TrimUnchanged(r);
  }

  lemma IdOfInjective(a: nat, b: nat)
    requires IdOf(a) == IdOf(b)
    ensures a == b
  {
    NatToStringInjective(a, b);
  }

  /** One call the engine makes on the remote store, in the order it makes them. */
  datatype Call =
    | FindNoteCall(id: string)
    | DeleteNoteCall(id: string)
    | CreateNotebookCall(name: string)
    | CreateNoteCall(params: NoteParams)

  /** Live notes (identifier to notebook name), notebooks, identifiers issued so far,
      and the number of the next note. */
  datatype Store = Store(
    notes: map<string, string>,
    notebooks: set<string>,
    issued: set<string>,
    nextId: nat)

  /** Live notes were issued, and no identifier the store will issue later has been. */
  ghost predicate Valid(s: Store) {
    s.notes.Keys <= s.issued
    && forall n: nat :: n >= s.nextId ==> IdOf(n) !in s.issued
  }

  /** `findNote`: the note still exists. */
  function NoteExists(s: Store, id: string): bool {
    id in s.notes
  }

  datatype Deleted = Deleted(store: Store, notebook: string)

  /** `deleteNote`: the note is gone afterwards, and the notebook it was in is
      reported; a note that does not exist reports the empty (falsy) name. */
  function RemoveNote(s: Store, id: string): (d: Deleted)
    ensures !NoteExists(d.store, id)
    ensures d.store.notes == s.notes - {id}
    ensures d.store.notebooks == s.notebooks && d.store.issued == s.issued && d.store.nextId == s.nextId
    ensures d.notebook == if NoteExists(s, id) then s.notes[id] else ""
  {
    Deleted(s.(notes := s.notes - {id}), if id in s.notes then s.notes[id] else "")
  }

  /** `createNotebook`: the notebook exists afterwards (creating one that exists
      changes nothing). */
  function AddNotebook(s: Store, name: string): (r: Store)
    ensures r.notebooks == s.notebooks + {name}
    ensures r.notes == s.notes && r.issued == s.issued && r.nextId == s.nextId
  {
    s.(notebooks := s.notebooks + {name})
  }

  datatype Created = Created(store: Store, id: string)

  /** `createNote`: a note under a fresh identifier, placed in `notebook`. */
  function AddNote(s: Store, notebook: string): (c: Created)
    ensures Valid(s) ==> c.id !in s.issued
    ensures c.store.notes == s.notes[c.id := notebook]
    ensures c.store.issued == s.issued + {c.id}
    ensures c.store.notebooks == s.notebooks
    ensures c.store.nextId == s.nextId + 1
  {
    var id := IdOf(s.nextId);
    Created(Store(s.notes[id := notebook], s.notebooks, s.issued + {id}, s.nextId + 1), id)
  }

  lemma AddNoteKeepsValid(s: Store, notebook: string)
    ensures Valid(s) ==> Valid(AddNote(s, notebook).store)
  {
    if Valid(s) {
      var c := AddNote(s, notebook);
      forall n: nat | n >= c.store.nextId ensures IdOf(n) !in c.store.issued {
        if IdOf(n) == c.id { IdOfInjective(n, s.nextId); }
      }
    }
  }

  /** The remote store as the engine sees it: its state and the log of calls. */
  class Evernote {
    var notes: map<string, string>
    var notebooks: set<string>
    var issued: set<string>
    var nextId: nat
    var calls: seq<Call>

    function State(): Store
      reads this
    {
      Store(notes, notebooks, issued, nextId)
    }

    constructor (s: Store)
      ensures State() == s && calls == []
    {
      notes, notebooks, issued, nextId := s.notes, s.notebooks, s.issued, s.nextId;
      calls := [];
    }

    method FindNote(id: string) returns (found: bool)
      modifies this`calls
      ensures found == NoteExists(State(), id)
      ensures calls == old(calls) + [FindNoteCall(id)]
    {
      found := id in notes;
      calls := calls + [FindNoteCall(id)];
    }

    method DeleteNote(id: string) returns (notebook: string)
      modifies this
      ensures State() == RemoveNote(old(State()), id).store
      ensures notebook == RemoveNote(old(State()), id).notebook
      ensures calls == old(calls) + [DeleteNoteCall(id)]
    {
      notebook := if id in notes then notes[id] else "";
      notes := notes - {id};
      calls := calls + [DeleteNoteCall(id)];
    }

    /** `fails` says whether the bridge raises an error for this call. */
    method CreateNotebook(name: string, fails: bool) returns (ok: bool)
      modifies this
      ensures ok == !fails
      ensures State() == if ok then AddNotebook(old(State()), name) else old(State())
      ensures calls == old(calls) + [CreateNotebookCall(name)]
    {
      calls := calls + [CreateNotebookCall(name)];
      ok := !fails;
      if ok {
        notebooks := notebooks + {name};
      }
    }

    /** `fails` says whether the bridge raises an error for this call. */
    method CreateNote(params: NoteParams, fails: bool) returns (id: Option<string>)
      modifies this
      ensures id.None? <==> fails
      ensures fails ==> State() == old(State())
      ensures !fails ==> id.value == AddNote(old(State()), params.notebook).id
      ensures !fails ==> State() == AddNote(old(State()), params.notebook).store
      ensures calls == old(calls) + [CreateNoteCall(params)]
    {
      calls := calls + [CreateNoteCall(params)];
      if fails {
        id := None;
      } else {
        var c := AddNote(State(), params.notebook);
        notes, issued, nextId := c.store.notes, c.store.issued, c.store.nextId;
        id := Some(c.id);
      }
    }
  }
}
