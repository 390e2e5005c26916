/**
 * The application menu bar: the most-recently-used list of opened files and the
 * guards of the commands that need a current note.
 */
module Menubar {
  import opened Results
  import opened Lists
  import opened Routes

  /** The longest list the menu keeps. */
  const MaxRecentFiles := 10

  /** The previous entries other than `path`, in order. */
  function Others(prev: seq<string>, path: string): (r: seq<string>)
    ensures path !in r
  {
    FilterMember(prev, (p: string) => p != path, path);
    Filter(prev, (p: string) => p != path)
  }

  /** `[path, ...prev.filter((p) => p !== path)].slice(0, 10)`, or the list unchanged for
      an empty path. */
  function RecentFilesAfter(prev: seq<string>, path: string): seq<string>
  {
    if path == "" then prev
    else
      var next := [path] + Others(prev, path);
      if |next| <= MaxRecentFiles then next else next[..MaxRecentFiles]
  }

  /** The opened path heads the list and occurs nowhere else; the rest are the other
      entries in their old order, cut to make at most ten. */
  lemma RecentFilesShape(prev: seq<string>, path: string)
    requires path != ""
    ensures var r := RecentFilesAfter(prev, path);
      0 < |r| <= MaxRecentFiles && r[0] == path && path !in r[1..] &&
      r[1..] == Others(prev, path)[..|r| - 1] &&
      |r| == if 1 + |Others(prev, path)| <= MaxRecentFiles then 1 + |Others(prev, path)| else MaxRecentFiles
  {
    var o := Others(prev, path);
    var r := RecentFilesAfter(prev, path);
    assert r[1..] == o[..|r| - 1];
  }

  /** No entry is made up: besides the opened path, every entry of the new list was in
      the old one. */
  lemma RecentFilesKeepsOthers(prev: seq<string>, path: string, x: string)
    requires path != "" && x != path
    ensures x in RecentFilesAfter(prev, path) ==> x in prev
  {
    FilterMember(prev, (p: string) => p != path, x);
    var r := RecentFilesAfter(prev, path);
    if x in r {
      var i :| 0 <= i < |r| && r[i] == x;
      assert r[i] in Others(prev, path);
    }
  }

  /** Opening the same path twice leaves the list as opening it once. */
  lemma RecentFilesIdempotent(prev: seq<string>, path: string)
    ensures RecentFilesAfter(RecentFilesAfter(prev, path), path) == RecentFilesAfter(prev, path)
  {
    if path != "" {
      var r := RecentFilesAfter(prev, path);
      RecentFilesShape(prev, path);
      assert r == [path] + r[1..];
      FilterAppend([path], r[1..], (p: string) => p != path);
      assert Filter([path], (p: string) => p != path) == [] by {
        assert [path][1..] == [];
      }
      FilterAll(r[1..], (p: string) => p != path);
      assert Others(r, path) == r[1..];
    }
  }

  /** `saveAs`: the note to export, when there is a current note. */
  function SaveAsTarget(path: string): (r: Option<string>)
    ensures r.Some? <==> HasNote(NoteIdOfPath(path))
    ensures r.Some? ==> r == NoteIdOfPath(path)
  {
    if HasNote(NoteIdOfPath(path)) then NoteIdOfPath(path) else None
  }

  /** `closeTab`: back to the home route, only from a note. */
  function CloseTabRoute(path: string): (r: Option<string>)
    ensures r.Some? <==> HasNote(NoteIdOfPath(path))
    ensures r.Some? ==> r.value == "/"
  {
    if HasNote(NoteIdOfPath(path)) then Some("/") else None
  }

  /** The menu bar's recent-files state and its copy in local storage. */
  class AppMenubar {
    var recentFiles: seq<string>
    var stored: Option<seq<string>>

    /** The list is read back from storage, empty when nothing was stored. */
    constructor (stored: Option<seq<string>>)
      ensures recentFiles == stored.GetOr([]) && this.stored == stored
    {
      recentFiles := stored.GetOr([]);
      this.stored := stored;
    }

    /** The `recent-file-opened` listener: a non-empty path is moved to the front and
        the new list is stored as well as shown. */
    method OnRecentFileOpened(path: string)
      modifies this
      ensures path == "" ==> recentFiles == old(recentFiles) && stored == old(stored)
      ensures path != "" ==>
        recentFiles == RecentFilesAfter(old(recentFiles), path) && stored == Some(recentFiles)
    {
      if path == "" {
        return;
      }
      var next := RecentFilesAfter(recentFiles, path);
      stored := Some(next);
      recentFiles := next;
    }
  }
}
