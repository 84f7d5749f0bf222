/** The note parameters built for one entry: `prepareEvernotePrarmsFile` and
    `getNoteTitle` (dayone2-to-evernote.js:55-74, 84-86). */
module Params {
  import opened Wrappers
  import opened Journal
  import opened Paths

  /** Tag appended to every note created by the tool. */
  const SyncTag: string := "dayone"

  /** Everything the remote note is created from. Coordinates are present only for
      entries with a location. */
  datatype NoteParams = NoteParams(
    withText: string,
    title: string,
    notebook: string,
    tags: seq<string>,
    created: int,
    latitude: Option<real>,
    longitude: Option<real>,
    attachments: seq<string>)

  // ---------------------------------------------------------------------------
  // Image placeholders. The source removes them with two global regular
  // expressions, first /!\[\].*\)\n\n/g and then /!\[\].*\)/g. In JavaScript `.`
  // matches any character except the four line terminators below.

  predicate IsLineTerminator(c: char) {
    c == '\n' || c == '\r' || c == '\U{2028}' || c == '\U{2029}'
  }

  /** Index of the first line terminator at or after `from`, or |s| if none. */
  function LineEnd(s: string, from: nat): (j: nat)
    requires from <= |s|
    ensures from <= j <= |s|
    ensures j < |s| ==> IsLineTerminator(s[j])
    ensures forall k :: from <= k < j ==> !IsLineTerminator(s[k])
    decreases |s| - from
  {
    if from == |s| || IsLineTerminator(s[from]) then from else LineEnd(s, from + 1)
  }

  /** Greatest index in [lo, hi) holding ')', if there is one. */
  function LastParen(s: string, lo: nat, hi: nat): (r: Option<nat>)
    requires lo <= hi <= |s|
    ensures r.Some? ==> lo <= r.value < hi && s[r.value] == ')'
    ensures r.Some? ==> forall k :: r.value < k < hi ==> s[k] != ')'
    ensures r.None? ==> forall k :: lo <= k < hi ==> s[k] != ')'
    decreases hi - lo
  {
    if lo == hi then None
    else if s[hi - 1] == ')' then Some(hi - 1)
    else LastParen(s, lo, hi - 1)
  }

  /** `s` starts with the placeholder marker `![]`. */
  predicate StartsWithMarker(s: string) {
    |s| >= 3 && s[0] == '!' && s[1] == '[' && s[2] == ']'
  }

  /** Length of the match of /!\[\].*\)\n\n/ at the start of `s`: the rest of the
      line must end in ')' and be followed by an empty line. */
  function BlockMatch(s: string): (r: Option<nat>)
    ensures r.Some? ==> StartsWithMarker(s) && 6 <= r.value <= |s|
  {
    if !StartsWithMarker(s) then None
    else
      var j := LineEnd(s, 3);
      if 4 <= j && s[j - 1] == ')' && j + 1 < |s| && s[j] == '\n' && s[j + 1] == '\n'
      then Some(j + 2) else None
  }

  /** Length of the match of /!\[\].*\)/ at the start of `s`: the greedy `.*` runs up
      to the last ')' on the line. */
  function InlineMatch(s: string): (r: Option<nat>)
    ensures r.Some? ==> StartsWithMarker(s) && 4 <= r.value <= |s|
  {
    if !StartsWithMarker(s) then None
    else
      match LastParen(s, 3, LineEnd(s, 3))
      case Some(k) => Some(k + 1)
      case None => None
  }

  /** Global replacement of the block pattern by the empty string. */
  function RemoveBlockPlaceholders(s: string): (r: string)
    ensures |r| <= |s|
    decreases |s|
  {
    if s == [] then []
    else match BlockMatch(s)
      case Some(n) => RemoveBlockPlaceholders(s[n..])
      case None => [s[0]] + RemoveBlockPlaceholders(s[1..])
  }

  /** Global replacement of the inline pattern by the empty string. */
  function RemoveInlinePlaceholders(s: string): (r: string)
    ensures |r| <= |s|
    decreases |s|
  {
    if s == [] then []
    else match InlineMatch(s)
      case Some(n) => RemoveInlinePlaceholders(s[n..])
      case None => [s[0]] + RemoveInlinePlaceholders(s[1..])
  }

  /** The note body: the entry text with image placeholders removed. */
  function StripPlaceholders(text: string): (r: string)
    ensures |r| <= |text|
  {
    RemoveInlinePlaceholders(RemoveBlockPlaceholders(text))
  }

  /** No `![]` occurs anywhere in `s`. */
  predicate NoMarker(s: string) {
    forall i :: 0 <= i < |s| ==> !StartsWithMarker(s[i..])
  }

  lemma {:induction false} NoMarkerSuffix(s: string)
    requires s != [] && NoMarker(s)
    ensures NoMarker(s[1..])
  {
    forall i | 0 <= i < |s| - 1 ensures !StartsWithMarker(s[1..][i..]) {
      assert s[1..][i..] == s[i + 1..];
    }
  }

  lemma {:induction false} BlockUnchanged(s: string)
    requires NoMarker(s)
    ensures RemoveBlockPlaceholders(s) == s
    decreases |s|
  {
    if s != [] {
      assert s[0..] == s;
      NoMarkerSuffix(s);
      BlockUnchanged(s[1..]);
    }
  }

  lemma {:induction false} InlineUnchanged(s: string)
    requires NoMarker(s)
    ensures RemoveInlinePlaceholders(s) == s
    decreases |s|
  {
    if s != [] {
      assert s[0..] == s;
      NoMarkerSuffix(s);
      InlineUnchanged(s[1..]);
    }
  }

  /** Text without any `![]` marker is used as the note body unchanged. */
  lemma StripWithoutMarkerIsIdentity(text: string)
    requires NoMarker(text)
    ensures StripPlaceholders(text) == text
  {
    BlockUnchanged(text);
    InlineUnchanged(text);
  }

  // ---------------------------------------------------------------------------
  // Title

  /** Text up to, not including, the first '\n'. */
  function FirstLine(s: string): (r: string)
    ensures r <= s && '\n' !in r
    ensures |r| == |s| || s[|r|] == '\n'
    decreases |s|
  {
    if s == [] || s[0] == '\n' then [] else [s[0]] + FirstLine(s[1..])
  }

  /** `getNoteTitle`: the first line of the text, '' for the empty text. */
  function NoteTitle(text: string): (r: string)
    ensures r <= text && '\n' !in r
    ensures r == text || text[|r|] == '\n'
  {
    if text == "" then "" else FirstLine(text)
  }

  // ---------------------------------------------------------------------------
  // Tags, attachments, parameters

  /** The entry's tags, `[]` when missing, with the sync tag appended. */
  function TagsWithSyncTag(tags: Option<seq<string>>): (r: seq<string>)
    ensures |r| >= 1 && r[|r| - 1] == SyncTag
    ensures r[..|r| - 1] == tags.GetOr([])
    ensures multiset(r)[SyncTag] == multiset(tags.GetOr([]))[SyncTag] + 1
  {
    var r := tags.GetOr([]) + [SyncTag];
    assert r[..|r| - 1] == tags.GetOr([]);
    r
  }

  /** Path of a photo file: `<photos dir><md5>.<type>`. */
  function PhotoPath(doPath: string, photo: Photo): (r: string)
    ensures ComposePhotosPath(doPath) <= r
    ensures r[|ComposePhotosPath(doPath)|..] == photo.md5 + "." + photo.fileType
  {
    ComposePhotosPath(doPath) + photo.md5 + "." + photo.fileType
  }

  /** One attachment path per photo, in order. */
  function AttachmentPaths(doPath: string, photos: seq<Photo>): (r: seq<string>)
    ensures |r| == |photos|
    ensures forall i :: 0 <= i < |photos| ==> r[i] == PhotoPath(doPath, photos[i])
    decreases |photos|
  {
    if photos == [] then []
    else AttachmentPaths(doPath, photos[..|photos| - 1]) + [PhotoPath(doPath, photos[|photos| - 1])]
  }

  /** The parameters `prepareEvernotePrarmsFile` writes for `e`. */
  function NoteParamsFor(doPath: string, e: Entry, notebookName: string): (p: NoteParams)
    ensures p.withText == StripPlaceholders(e.text) && p.title == NoteTitle(p.withText)
    ensures p.notebook == notebookName && p.created == e.creationDate
    ensures p.tags == e.tags.GetOr([]) + [SyncTag]
    ensures p.latitude.Some? <==> e.location.Some?
    ensures p.longitude.Some? <==> e.location.Some?
    ensures e.location.Some? ==>
      p.latitude.value == e.location.value.latitude && p.longitude.value == e.location.value.longitude
    ensures |p.attachments| == |e.photos.GetOr([])|
    ensures forall i :: 0 <= i < |p.attachments| ==> p.attachments[i] == PhotoPath(doPath, e.photos.value[i])
  {
    var withText := StripPlaceholders(e.text);
    NoteParams(
      withText,
      NoteTitle(withText),
      notebookName,
      TagsWithSyncTag(e.tags),
      e.creationDate,
      if e.location.Some? then Some(e.location.value.latitude) else None,
      if e.location.Some? then Some(e.location.value.longitude) else None,
      AttachmentPaths(doPath, e.photos.GetOr([])))
  }

  /** Builds the note parameters field by field, pushing one attachment per photo,
      as `prepareEvernotePrarmsFile` does. */
  method PrepareParams(doPath: string, e: Entry, notebookName: string) returns (p: NoteParams)
    ensures p == NoteParamsFor(doPath, e, notebookName)
    ensures p.withText == StripPlaceholders(e.text) && p.title == NoteTitle(p.withText)
    ensures p.notebook == notebookName && p.created == e.creationDate
    ensures p.tags == e.tags.GetOr([]) + [SyncTag]
    ensures p.latitude.Some? <==> e.location.Some?
    ensures p.longitude.Some? <==> e.location.Some?
    ensures e.location.Some? ==>
      p.latitude.value == e.location.value.latitude && p.longitude.value == e.location.value.longitude
    ensures |p.attachments| == |e.photos.GetOr([])|
    ensures forall i :: 0 <= i < |p.attachments| ==> p.attachments[i] == PhotoPath(doPath, e.photos.value[i])
  {
    var withText := StripPlaceholders(e.text);
    var title := NoteTitle(withText);
    var tags := if e.tags.None? then [] else e.tags.value;
    tags := tags + [SyncTag];
    var latitude, longitude := None, None;
    if e.location.Some? {
      latitude := Some(e.location.value.latitude);
      longitude := Some(e.location.value.longitude);
    }
    var attachments := [];
    if e.photos.Some? {
      var photos := e.photos.value;
      var i := 0;
      while i < |photos|
        invariant 0 <= i <= |photos|
        invariant attachments == AttachmentPaths(doPath, photos[..i])
      {
        assert photos[..i + 1][..i] == photos[..i];
        attachments := attachments + [PhotoPath(doPath, photos[i])];
        i := i + 1;
      }
      assert photos[..i] == photos;
    }
    p := NoteParams(withText, title, notebookName, tags, e.creationDate, latitude, longitude, attachments);
  }

  /** The title is the text before the first line break. */
  lemma {:induction false} TitleIsFirstLine(head: string, tail: string)
    requires '\n' !in head
    ensures NoteTitle(head + "\n" + tail) == head
  {
    var text := head + "\n" + tail;
    var t := NoteTitle(text);
    assert text[|head|] == '\n';
    assert t != text by {
      assert '\n' in text;
    }
    assert t == text[..|head|] == head;
  }

  /** An entry whose text is "Hello\nWorld" and whose tag list is empty gets the
      title "Hello" and the single tag "dayone". */
  lemma HelloWorldParams(doPath: string, e: Entry, notebookName: string)
    requires e.text == "Hello\nWorld" && e.tags == Some([])
    ensures NoteParamsFor(doPath, e, notebookName).title == "Hello"
    ensures NoteParamsFor(doPath, e, notebookName).tags == ["dayone"]
  {
    var text := e.text;
    assert forall i :: 0 <= i < |text| ==> text[i] != '!';
    StripWithoutMarkerIsIdentity(text);
    assert text == "Hello" + "\n" + "World";
    TitleIsFirstLine("Hello", "World");
  }
}
