/** Where the tool keeps its files inside a journal directory
    (dayone2-to-evernote.js:11-22). */
module Paths {

  /** Directory holding the journal's photo files. */
  function ComposePhotosPath(doPath: string): (r: string)
    ensures doPath <= r && r[|doPath|..] == "/photos/"
  {
    doPath + "/photos/"
  }

  /** Hidden per-journal directory of sync state records. */
  function ComposeSyncLogDirPath(doPath: string): (r: string)
    ensures doPath <= r && r[|doPath|..] == "/.dayone2-to-evernote/"
  {
    doPath + "/.dayone2-to-evernote/"
  }

  /** The state file of one entry: `<dir>/.<filename>.json` inside the state
      directory, from which the file name can be read back. */
  function ComposeSyncLogPath(doPath: string, filename: string): (r: string)
    ensures r == ComposeSyncLogDirPath(doPath) + "/." + filename + ".json"
    ensures ComposeSyncLogDirPath(doPath) <= r
    ensures |r| == |ComposeSyncLogDirPath(doPath)| + |filename| + 7
    ensures r[|ComposeSyncLogDirPath(doPath)| + 2..|r| - 5] == filename
  {
    var dir := ComposeSyncLogDirPath(doPath);
    var r := dir + "/." + filename + ".json";
    assert r[|dir| + 2..|r| - 5] == filename;
    r
  }

  /** Entries with different file names (uuids) never share a state file. */
  lemma SyncLogPathInjective(doPath: string, f1: string, f2: string)
    requires ComposeSyncLogPath(doPath, f1) == ComposeSyncLogPath(doPath, f2)
    ensures f1 == f2
  {
    var p := ComposeSyncLogPath(doPath, f1);
    var n := |ComposeSyncLogDirPath(doPath)|;
    assert f1 == p[n + 2..|p| - 5] == f2;
  }
}
