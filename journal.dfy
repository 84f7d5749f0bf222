/** Day One journal entries as the engine consumes them, and `loadEntries`'s
    date filter (dayone2-to-evernote.js:88-96). */
module Journal {
  import opened Wrappers

  /** Geolocation of an entry; both coordinates are copied to the note. */
  datatype Location = Location(latitude: real, longitude: real)

  /** One photo attachment, stored as `<md5>.<type>` in the journal's photos directory. */
  datatype Photo = Photo(md5: string, fileType: string)

  /** One journal entry. `tags` and `photos` may be missing from the export, so they
      are optional; `creationDate` is a timestamp in milliseconds. */
  datatype Entry = Entry(
    uuid: string,
    creationDate: int,
    text: string,
    tags: Option<seq<string>>,
    location: Option<Location>,
    photos: Option<seq<Photo>>)

  /** `s` can be obtained from `t` by deleting elements, so `s` keeps `t`'s order. */
  ghost predicate IsSubsequence<T>(s: seq<T>, t: seq<T>)
    decreases |t|
  {
    if s == [] then true
    else if t == [] then false
    else (s[0] == t[0] && IsSubsequence(s[1..], t[1..])) || IsSubsequence(s, t[1..])
  }

  /** The entries created strictly after `after`, in their original order. */
  function CreatedAfter(entries: seq<Entry>, after: int): (r: seq<Entry>)
    ensures IsSubsequence(r, entries)
    ensures forall i :: 0 <= i < |r| ==> r[i].creationDate > after
    ensures forall e :: multiset(r)[e] == if e.creationDate > after then multiset(entries)[e] else 0
    decreases |entries|
  {
    if entries == [] then []
    else
      var rest := CreatedAfter(entries[1..], after);
      assert entries == [entries[0]] + entries[1..];
      if entries[0].creationDate > after then
        assert ([entries[0]] + rest)[1..] == rest;
        [entries[0]] + rest
      else rest
  }

  /** `loadEntries` once the journal has been parsed: with no cutoff the entries are
      returned as they are, otherwise only those created after the cutoff. */
  function LoadEntries(entries: seq<Entry>, afterDate: Option<int>): (r: seq<Entry>)
    ensures afterDate.None? ==> r == entries
    ensures afterDate.Some? ==> r == CreatedAfter(entries, afterDate.value)
    ensures afterDate.Some? ==> IsSubsequence(r, entries)
    ensures afterDate.Some? ==>
      forall e :: multiset(r)[e] == (if e.creationDate > afterDate.value then multiset(entries)[e] else 0)
    ensures afterDate.Some? ==> forall i :: 0 <= i < |r| ==> r[i].creationDate > afterDate.value
    ensures afterDate.Some? ==> forall e :: e in entries && e.creationDate > afterDate.value ==> e in r
  {
    match afterDate
    case None => entries
    case Some(after) =>
      var r := CreatedAfter(entries, after);
      assert forall e :: e in entries && e.creationDate > after ==> multiset(r)[e] > 0;
      r
  }
}
