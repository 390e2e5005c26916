/**
 * The note id the router's path names: `path.split("/")[2]` for paths under
 * `/note/`, shared by the menu bar, the sidebar and the tab strip.
 */
module Routes {
  import opened Results
  import opened Text

  /** A path under `/note/` splits into an empty piece, `note`, and the pieces of the rest. */
  lemma NotePathPieces(path: string)
    requires StartsWith(path, "/note/")
    ensures Split(path, '/') == ["", "note"] + Split(path[6..], '/')
  {
    var rest := path[6..];
    assert path == [] + ['/'] + ("note" + ['/'] + rest);
    SplitAppend([], "note" + ['/'] + rest, '/');
    SplitAppend("note", rest, '/');
    SplitNoSeparator("note", '/');
  }

  /** `currentPath.startsWith("/note/") ? currentPath.split("/")[2] : null` */
  function NoteIdOfPath(path: string): (r: Option<string>)
    ensures r.Some? <==> StartsWith(path, "/note/")
    ensures r.Some? ==> '/' !in r.value
  {
    if StartsWith(path, "/note/") then
      NotePathPieces(path);
      Some(Split(path, '/')[2])
    else None
  }

  /** The id is whatever follows `/note/` up to the next `/`, if any. */
  lemma NoteIdOfNoteRoute(id: string, rest: Option<string>)
    requires '/' !in id
    ensures NoteIdOfPath("/note/" + id + (if rest.Some? then "/" + rest.value else "")) == Some(id)
  {
    var path := "/note/" + id + (if rest.Some? then "/" + rest.value else "");
    assert path[..6] == "/note/";
    NotePathPieces(path);
    SplitNoSeparator(id, '/');
    if rest.Some? {
      assert path[6..] == id + ['/'] + rest.value;
      SplitAppend(id, rest.value, '/');
    } else {
      assert path[6..] == id;
    }
  }

  /** The route `/note/` alone names the empty id, which every `if (currentNoteId)`
      guard treats as no note. */
  lemma BareNoteRoute(path: string)
    requires path == "/note/"
    ensures NoteIdOfPath(path) == Some("")
  {
    NoteIdOfNoteRoute("", None);
  }

  /** A truthy note id: `if (currentNoteId)` treats an empty id as none. */
  predicate HasNote(id: Option<string>)
  {
    id.Some? && id.value != []
  }
}
