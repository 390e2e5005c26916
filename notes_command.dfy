/**
 * The command palette: Ctrl/Cmd+K opens and closes it, its search box filters
 * the note titles, and its actions create a note or open one.
 */
module NotesCommand {
  import opened Results
  import opened Text
  import opened Notes
  import opened Routes
  import opened NoteStore
  import opened AppSidebar

  /** The title a note created from the palette gets. */
  const NewNoteTitle := "Untitled Note"

  /** The keys whose lowercase form is `k`: the letter in either case and the Kelvin
      sign, which `toLowerCase` folds to it. A missing key reads as `""`. */
  predicate LowersToK(key: string)
  {
    key == "k" || key == "K" || key == "\U{212A}"
  }

  /** The palette after a key press: Ctrl or Cmd with `k` flips it, any other key
      leaves it as it was. */
  function ToggleOnKey(key: string, meta: bool, ctrl: bool, open: bool): (r: bool)
    ensures r != open <==> (meta || ctrl) && LowersToK(key)
  {
    if (meta || ctrl) && LowersToK(key) then !open else open
  }

  /** Pressing the shortcut twice brings the palette back to where it was. */
  lemma ToggleTwice(key: string, meta: bool, ctrl: bool, open: bool)
    ensures ToggleOnKey(key, meta, ctrl, ToggleOnKey(key, meta, ctrl, open)) == open
  {
  }

  /** The `filteredNotes` memo: the query is trimmed and lowercased, a blank one shows
      every note, and otherwise a title matches when its lowercase form contains it. */
  function PaletteFilter(notes: seq<NoteMetadata>, query: string): seq<NoteMetadata>
  {
    if Lower(Trim(query)) == [] then notes else FilterByTitle(notes, Trim(query))
  }

  /** The palette shows what the sidebar shows for the trimmed query, so the two search
      boxes agree on any query without surrounding spaces. */
  lemma PaletteAgreesWithSidebar(notes: seq<NoteMetadata>, query: string)
    ensures PaletteFilter(notes, query) == FilterByTitle(notes, Trim(query))
    ensures IsTrimmed(query) ==> PaletteFilter(notes, query) == FilterByTitle(notes, query)
  {
    var t := Trim(query);
    if Lower(t) == [] {
      assert |Lower(t)| == |t|;
      EmptyQueryKeepsAll(notes);
    }
    if IsTrimmed(query) {
      TrimOfTrimmed(query);
    }
  }

  /** A blank query shows every note. */
  lemma BlankQueryShowsAll(notes: seq<NoteMetadata>, query: string)
    requires IsBlank(query)
    ensures PaletteFilter(notes, query) == notes
  {
    TrimEmptyIffBlank(query);
  }

  /** A generated note id holds no `/`. */
  lemma NoteIdHasNoSlash(now: Timestamp)
    ensures '/' !in NoteIdAt(now)
  {
    var digits := NatToDecimal(if now < 0 then -now else now);
    assert IsDigits(digits);
    assert NoteIdAt(now) == "note_" + (if now < 0 then "-" else "") + digits;
    forall i | 0 <= i < |digits|
      ensures digits[i] != '/'
    {
    }
  }

  /** The route opened after creating a note leads back to the note the backend made. */
  lemma CreatedRouteNamesNote(now: Timestamp)
    ensures NoteIdOfPath("/note/" + NoteIdAt(now)) == Some(NoteIdAt(now))
  {
    NoteIdHasNoSlash(now);
    NoteIdOfNoteRoute(NoteIdAt(now), None);
    assert "/note/" + NoteIdAt(now) + "" == "/note/" + NoteIdAt(now);
  }

  /** The palette's state. */
  class CommandPalette {
    var open: bool
    var notes: seq<NoteMetadata>

    constructor ()
      ensures !open && notes == []
    {
      open := false;
      notes := [];
    }

    /** `loadNotes`: a failed listing is ignored. */
    method LoadNotes(listed: Result<seq<NoteMetadata>>)
      modifies this`notes
      ensures notes == if listed.Ok? then listed.value else old(notes)
    {
      if listed.Ok? {
        notes := listed.value;
      }
    }

    /** The `keydown` listener; the result says whether the default action is stopped. */
    method OnKey(key: Option<string>, meta: bool, ctrl: bool) returns (handled: bool)
      modifies this`open
      ensures open == ToggleOnKey(key.GetOr(""), meta, ctrl, old(open))
      ensures handled <==> open != old(open)
    {
      var k := key.GetOr("");
      if (meta || ctrl) && LowersToK(k) {
        open := !open;
        return true;
      }
      return false;
    }

    /** `createNote`: `saved` is the reply to saving an empty note titled
        `Untitled Note`; the palette closes and the new note opens only on success. */
    method CreateNote(saved: Result<string>) returns (route: Option<string>)
      modifies this`open
      ensures saved.Ok? ==> !open && route == Some("/note/" + saved.value)
      ensures saved.Err? ==> open == old(open) && route.None?
    {
      if saved.Err? {
        return None;
      }
      open := false;
      return Some("/note/" + saved.value);
    }

    /** Choosing a note closes the palette and opens the note. */
    method SelectNote(id: string) returns (route: string)
      modifies this`open
      ensures !open && route == "/note/" + id
    {
      open := false;
      route := "/note/" + id;
    }
  }
}
