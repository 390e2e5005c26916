/**
 * The left sidebar: the list of note summaries, its search box, the relative
 * dates beside each note, the saved sidebar state and the delete button.
 * Backend replies, the JSON encoder and the date formatter are inputs.
 */
module AppSidebar {
  import opened Results
  import opened Text
  import opened Lists
  import opened Notes
  import opened Routes

  /** The persisted sidebar: the notes, when they were synced and the panels' state. */
  datatype SidebarState = SidebarState(
    notes: seq<NoteMetadata>,
    lastSyncTime: Timestamp,
    isCollapsed: Option<bool>,
    selectedNoteId: Option<string>,
    isRightCollapsed: Option<bool>)

  // ---------------------------------------------------------------------------
  // Title propagation

  /** The `note-title-changed` handler's `map`. */
  function RetitleNotes(notes: seq<NoteMetadata>, id: string, title: string): seq<NoteMetadata>
  {
    seq(|notes|, i requires 0 <= i < |notes| =>
      if notes[i].id == id then notes[i].(title := title) else notes[i])
  }

  /** Only the notes with that id take the new title; every note keeps its place, its
      id and its dates, and the others are untouched. */
  lemma RetitleShape(notes: seq<NoteMetadata>, id: string, title: string)
    ensures var r := RetitleNotes(notes, id, title);
      |r| == |notes| &&
      forall i | 0 <= i < |notes| ::
        r[i].id == notes[i].id && r[i].createdAt == notes[i].createdAt &&
        r[i].updatedAt == notes[i].updatedAt &&
        r[i].title == (if notes[i].id == id then title else notes[i].title)
  {
  }

  /** A second retitling of the same note overrides the first. */
  lemma RetitleLastWins(notes: seq<NoteMetadata>, id: string, t1: string, t2: string)
    ensures RetitleNotes(RetitleNotes(notes, id, t1), id, t2) == RetitleNotes(notes, id, t2)
  {
  }

  /** Retitling a note that is not listed changes nothing. */
  lemma RetitleAbsent(notes: seq<NoteMetadata>, id: string, title: string)
    requires forall i | 0 <= i < |notes| :: notes[i].id != id
    ensures RetitleNotes(notes, id, title) == notes
  {
  }

  // ---------------------------------------------------------------------------
  // Search

  /** A note matches when its lowercased title contains the lowercased query. */
  function TitleMatcher(query: string): NoteMetadata -> bool
  {
    (n: NoteMetadata) => Contains(Lower(n.title), Lower(query))
  }

  /** `filteredNotes`: no trimming. */
  function FilterByTitle(notes: seq<NoteMetadata>, query: string): seq<NoteMetadata>
  {
    Filter(notes, TitleMatcher(query))
  }

  /** A note is listed exactly when it is in the list and its lowercased title contains
      the lowercased query; concatenated lists filter piecewise, so the order is kept. */
  lemma FilterByTitleMeaning(notes: seq<NoteMetadata>, more: seq<NoteMetadata>, query: string, n: NoteMetadata)
    ensures n in FilterByTitle(notes, query) <==>
      n in notes && Contains(Lower(n.title), Lower(query))
    ensures FilterByTitle(notes + more, query) == FilterByTitle(notes, query) + FilterByTitle(more, query)
  {
    FilterMember(notes, TitleMatcher(query), n);
    FilterAppend(notes, more, TitleMatcher(query));
  }

  /** An empty search box shows every note. */
  lemma EmptyQueryKeepsAll(notes: seq<NoteMetadata>)
    ensures FilterByTitle(notes, "") == notes
  {
    forall i | 0 <= i < |notes|
      ensures TitleMatcher("")(notes[i])
    {
      ContainsEmpty(Lower(notes[i].title));
    }
    FilterAll(notes, TitleMatcher(""));
  }

  lemma LowerAppend(a: string, b: string)
    ensures Lower(a + b) == Lower(a) + Lower(b)
  {
  }

  /** A text containing `a + b` contains `a`. */
  lemma ContainsPrefixOfSub(s: string, a: string, b: string)
    requires Contains(s, a + b)
    ensures Contains(s, a)
  {
    var i := ContainsWitness(s, a + b);
    assert s[i..i + |a|] == (a + b)[..|a|] == a;
    ContainsAt(s, a, i);
  }

  /** Typing more never brings a note back into the list. */
  lemma LongerQueryNarrows(notes: seq<NoteMetadata>, query: string, more: string, n: NoteMetadata)
    requires n in FilterByTitle(notes, query + more)
    ensures n in FilterByTitle(notes, query)
  {
    FilterMember(notes, TitleMatcher(query + more), n);
    FilterMember(notes, TitleMatcher(query), n);
    LowerAppend(query, more);
    ContainsPrefixOfSub(Lower(n.title), Lower(query), Lower(more));
  }

  // ---------------------------------------------------------------------------
  // Relative dates

  const MillisPerDay := 1000 * 60 * 60 * 24

  /** Which kind of label a date gets. */
  datatype DateLabel = Clock | Yesterday | Weekday | MonthDay

  /** `Math.floor((now - date) / 86400000)` picks the label: the same day shows the
      time, the day before says so, the rest of the week (and any date in the future)
      shows the weekday, and anything older the month and day. */
  function DayBucket(date: Timestamp, now: Timestamp): (l: DateLabel)
    ensures l == Clock <==> 0 <= now - date < MillisPerDay
    ensures l == Yesterday <==> MillisPerDay <= now - date < 2 * MillisPerDay
    ensures l == Weekday <==> now - date < 0 || 2 * MillisPerDay <= now - date < 7 * MillisPerDay
    ensures l == MonthDay <==> 7 * MillisPerDay <= now - date
  {
    var diffInDays := (now - date) / MillisPerDay;
    if diffInDays == 0 then Clock
    else if diffInDays == 1 then Yesterday
    else if diffInDays < 7 then Weekday
    else MonthDay
  }

  /** `formatDate`: `date` is the parsed timestamp, `None` for a string that is not a
      date, which leads the formatter to throw and the label to read "Unknown". */
  function FormatDate(date: Option<Timestamp>, now: Timestamp, format: (Timestamp, string) -> string): (r: string)
    ensures date.None? ==> r == "Unknown"
    ensures date.Some? && DayBucket(date.value, now) == Yesterday ==> r == "Yesterday"
    ensures date.Some? && DayBucket(date.value, now) != Yesterday ==>
      r == format(date.value, match DayBucket(date.value, now)
        case Clock => "HH:mm" case Weekday => "EEE" case _ => "MMM d")
  {
    match date
    case None => "Unknown"
    case Some(d) =>
      match DayBucket(d, now)
      case Clock => format(d, "HH:mm")
      case Yesterday => "Yesterday"
      case Weekday => format(d, "EEE")
      case MonthDay => format(d, "MMM d")
  }

  // ---------------------------------------------------------------------------
  // The saved sidebar state

  /** `saveSidebarState`'s snapshot: the selected note is left out when the route has
      none or it is empty. */
  function Snapshot(notes: seq<NoteMetadata>, now: Timestamp, isCollapsed: bool, path: string,
                    isRightCollapsed: bool): (s: SidebarState)
    ensures s.notes == notes && s.lastSyncTime == now
    ensures s.isCollapsed == Some(isCollapsed) && s.isRightCollapsed == Some(isRightCollapsed)
    ensures s.selectedNoteId.Some? <==> StartsWith(path, "/note/") && NoteIdOfPath(path).value != ""
    ensures s.selectedNoteId.Some? ==> s.selectedNoteId == NoteIdOfPath(path)
  {
    var selected := NoteIdOfPath(path);
    SidebarState(notes, now, Some(isCollapsed),
      if HasNote(selected) then selected else None, Some(isRightCollapsed))
  }

  /** The quick display uses the saved state only when it holds notes. */
  predicate UsesSaved(saved: Option<SidebarState>)
  {
    saved.Some? && |saved.value.notes| > 0
  }

  /** `savedState?.notes || []` */
  function SavedNotes(saved: Option<SidebarState>): seq<NoteMetadata>
  {
    if saved.Some? then saved.value.notes else []
  }

  /** The `catch` branch's `loadNotes`: the list is replaced on success and kept otherwise. */
  function Fallback(current: seq<NoteMetadata>, listed: Result<seq<NoteMetadata>>): seq<NoteMetadata>
  {
    if listed.Ok? then listed.value else current
  }

  /** The notes `initializeSidebar` leaves shown: `saved` is the stored state, `first` the
      listing made when it is unusable, `second` the listing made for comparison and
      `fallback` the one made after any failure; `encode` is `JSON.stringify`. */
  function NotesAfterInit(current: seq<NoteMetadata>, saved: Result<Option<SidebarState>>,
                          first: Result<seq<NoteMetadata>>, second: Result<seq<NoteMetadata>>,
                          fallback: Result<seq<NoteMetadata>>,
                          encode: seq<NoteMetadata> -> string): seq<NoteMetadata>
  {
    if saved.Err? then Fallback(current, fallback)
    else if !UsesSaved(saved.value) && first.Err? then Fallback(current, fallback)
    else
      var shown := if UsesSaved(saved.value) then saved.value.value.notes else first.value;
      if second.Err? then Fallback(shown, fallback)
      else if encode(SavedNotes(saved.value)) != encode(second.value) then second.value
      else shown
  }

  /** With usable saved notes, the new listing replaces them exactly when the two
      encode differently. */
  lemma FreshReplacesSavedIffEncodingsDiffer(current: seq<NoteMetadata>, s: SidebarState,
      first: Result<seq<NoteMetadata>>, listing: seq<NoteMetadata>, fallback: Result<seq<NoteMetadata>>,
      encode: seq<NoteMetadata> -> string)
    requires |s.notes| > 0
    ensures var r := NotesAfterInit(current, Ok(Some(s)), first, Ok(listing), fallback, encode);
      (encode(s.notes) != encode(listing) ==> r == listing) &&
      (encode(s.notes) == encode(listing) ==> r == s.notes)
  {
  }

  /** With a faithful encoder, and both listings agreeing when the saved state is
      unusable, the sidebar ends up showing exactly the new listing. */
  lemma InitEndsWithFreshNotes(current: seq<NoteMetadata>, saved: Option<SidebarState>,
      first: seq<NoteMetadata>, listing: seq<NoteMetadata>, fallback: Result<seq<NoteMetadata>>,
      encode: seq<NoteMetadata> -> string)
    requires forall a, b :: encode(a) == encode(b) ==> a == b
    requires !UsesSaved(saved) ==> first == listing
    ensures NotesAfterInit(current, Ok(saved), Ok(first), Ok(listing), fallback, encode) == listing
  {
  }

  /** What the `useCallback` of `saveSidebarState` depends on: the notes, the collapse
      flag, the selected note id read from the route and whether the right panel is
      collapsed. */
  datatype SaveDeps = SaveDeps(
    notes: seq<NoteMetadata>, isCollapsed: bool, selected: Option<string>, rightCollapsed: bool)

  /** The snapshots one committed render hands to `save_sidebar_state`, where `prev` is
      what the callback depended on at the previous render. A change to any of its
      dependencies makes a new callback, and both the notes effect and the collapse
      effect list it, so both re-run and apply their guards. The right-panel effect
      lists only the right panel's state. On the first render all three run. */
  function EffectSaves(prev: Option<SaveDeps>, cur: SaveDeps, snap: SidebarState): (r: seq<SidebarState>)
    ensures forall i | 0 <= i < |r| :: r[i] == snap
  {
    var callbackChanged := prev != Some(cur);
    var rightChanged := prev.None? || prev.value.rightCollapsed != cur.rightCollapsed;
    (if callbackChanged && |cur.notes| > 0 then [snap] else []) +
    (if callbackChanged && cur.isCollapsed then [snap] else []) +
    (if rightChanged then [snap] else [])
  }

  /** A render that changes none of the dependencies saves nothing. */
  lemma UnchangedRenderSavesNothing(cur: SaveDeps, snap: SidebarState)
    ensures EffectSaves(Some(cur), cur, snap) == []
  {
  }

  /** Some state is saved exactly when the right panel changed, on the first render, or
      when any dependency changed while there are notes or the sidebar is collapsed. */
  lemma SaveHappensIff(prev: Option<SaveDeps>, cur: SaveDeps, snap: SidebarState)
    ensures |EffectSaves(prev, cur, snap)| > 0 <==>
      prev.None? || prev.value.rightCollapsed != cur.rightCollapsed ||
      (prev != Some(cur) && (|cur.notes| > 0 || cur.isCollapsed))
  {
  }

  /** While collapsed, emptying the list still saves: the collapse effect re-runs through
      the new callback. */
  lemma CollapsedEmptyListSaves(prev: SaveDeps, cur: SaveDeps, snap: SidebarState)
    requires cur.isCollapsed && cur.notes == [] && prev.notes != []
    ensures |EffectSaves(Some(prev), cur, snap)| >= 1
  {
  }

  /** Expanding the sidebar while there are notes saves through the notes effect, though
      the collapse effect's guard no longer holds. */
  lemma ExpandingWithNotesSaves(prev: SaveDeps, cur: SaveDeps, snap: SidebarState)
    requires prev.isCollapsed && !cur.isCollapsed && |cur.notes| > 0
    requires prev.rightCollapsed == cur.rightCollapsed
    ensures EffectSaves(Some(prev), cur, snap) == [snap]
  {
  }

  /** Navigating to another note saves once while there are notes, and twice while the
      sidebar is also collapsed. */
  lemma RouteChangeSaves(cur: SaveDeps, before: Option<string>, snap: SidebarState)
    requires before != cur.selected && |cur.notes| > 0
    ensures |EffectSaves(Some(cur.(selected := before)), cur, snap)| == if cur.isCollapsed then 2 else 1
  {
  }

  /** The one change that saves nothing: any dependency but the right panel changing
      while the list is empty and the sidebar expanded. */
  lemma EmptyExpandedSavesNothing(prev: SaveDeps, cur: SaveDeps, snap: SidebarState)
    requires cur.notes == [] && !cur.isCollapsed && prev.rightCollapsed == cur.rightCollapsed
    ensures EffectSaves(Some(prev), cur, snap) == []
  {
  }

  /** Toggling the collapsed flag always saves when collapsing and, when expanding, saves
      exactly when there are notes. */
  lemma CollapseToggleSaves(prev: SaveDeps, collapsed: bool, snap: SidebarState)
    requires collapsed != prev.isCollapsed
    ensures |EffectSaves(Some(prev), prev.(isCollapsed := collapsed), snap)| > 0 <==>
      collapsed || |prev.notes| > 0
  {
  }

  /** Opening or closing the right panel saves once through its own effect, plus once for
      each of the other two effects whose guard holds. */
  lemma RightToggleSaves(prev: SaveDeps, rightCollapsed: bool, snap: SidebarState)
    requires rightCollapsed != prev.rightCollapsed
    ensures |EffectSaves(Some(prev), prev.(rightCollapsed := rightCollapsed), snap)| ==
      1 + (if |prev.notes| > 0 then 1 else 0) + (if prev.isCollapsed then 1 else 0)
  {
  }

  /** The sidebar as `initializeSidebar` and the other handlers see it. */
  class Sidebar {
    var notes: seq<NoteMetadata>
    var isCollapsed: bool
    var isLoading: bool
    var leftOpen: bool
    var rightOpen: bool
    /** The states handed to `save_sidebar_state`, oldest first. */
    var saves: seq<SidebarState>
    /** What `saveSidebarState` depended on at the last committed render; `None` before
        the first. */
    var committed: Option<SaveDeps>

    constructor ()
      ensures notes == [] && !isCollapsed && isLoading && leftOpen && !rightOpen && saves == []
      ensures committed.None?
    {
      notes := [];
      isCollapsed := false;
      isLoading := true;
      leftOpen := true;
      rightOpen := false;
      saves := [];
      committed := None;
    }

    /** `loadNotes` */
    method LoadNotes(listed: Result<seq<NoteMetadata>>)
      modifies this`notes, this`isLoading
      ensures notes == Fallback(old(notes), listed) && !isLoading
    {
      isLoading := true;
      if listed.Ok? {
        notes := listed.value;
      }
      isLoading := false;
    }

    /** `initializeSidebar`: a failure at any backend call falls through to `loadNotes`. */
    method InitializeSidebar(saved: Result<Option<SidebarState>>, first: Result<seq<NoteMetadata>>,
                             second: Result<seq<NoteMetadata>>, fallback: Result<seq<NoteMetadata>>,
                             encode: seq<NoteMetadata> -> string)
      modifies this`notes, this`isCollapsed, this`isLoading, this`leftOpen, this`rightOpen
      ensures notes == NotesAfterInit(old(notes), saved, first, second, fallback, encode)
      ensures !isLoading
      ensures isCollapsed == if saved.Ok? && UsesSaved(saved.value)
        then saved.value.value.isCollapsed == Some(true) else old(isCollapsed)
      ensures leftOpen == if saved.Ok? && UsesSaved(saved.value) && saved.value.value.isCollapsed == Some(true)
        then false else old(leftOpen)
      ensures rightOpen == if saved.Ok? && UsesSaved(saved.value) && saved.value.value.isRightCollapsed.Some?
        then !saved.value.value.isRightCollapsed.value else old(rightOpen)
    {
      if saved.Err? {
        LoadNotes(fallback);
        return;
      }
      var savedState := saved.value;
      if savedState.Some? && |savedState.value.notes| > 0 {
        notes := savedState.value.notes;
        isCollapsed := savedState.value.isCollapsed.GetOr(false);
        isLoading := false;
        if savedState.value.isCollapsed == Some(true) {
          leftOpen := false;
        }
        if savedState.value.isRightCollapsed == Some(true) {
          rightOpen := false;
        } else if savedState.value.isRightCollapsed == Some(false) {
          rightOpen := true;
        }
      } else {
        if first.Err? {
          LoadNotes(fallback);
          return;
        }
        notes := first.value;
        isLoading := false;
      }
      if second.Err? {
        LoadNotes(fallback);
        return;
      }
      var currentNotes := if savedState.Some? then savedState.value.notes else [];
      if encode(currentNotes) != encode(second.value) {
        notes := second.value;
      }
      isLoading := false;
    }

    /** The `note-title-changed` listener. */
    method OnNoteTitleChanged(id: string, title: string)
      modifies this`notes
      ensures notes == RetitleNotes(old(notes), id, title)
    {
      notes := RetitleNotes(notes, id, title);
    }

    /** The `note-saved` listener: the list is refreshed when the listing succeeds. */
    method OnNoteSaved(listed: Result<seq<NoteMetadata>>)
      modifies this`notes
      ensures notes == Fallback(old(notes), listed)
    {
      if listed.Ok? {
        notes := listed.value;
      }
    }

    /** The sidebar provider opens or closes the left panel, from its trigger, its rail
        or its keyboard shortcut. */
    method SetLeftOpen(open: bool)
      modifies this`leftOpen
      ensures leftOpen == open
    {
      leftOpen := open;
    }

    /** The right sidebar's provider opens or closes the right panel. */
    method SetRightOpen(open: bool)
      modifies this`rightOpen
      ensures rightOpen == open
    {
      rightOpen := open;
    }

    /** The effect that copies the provider's state into `isCollapsed`: the left panel is
        collapsed exactly when it is not open. Running it again changes nothing. */
    method SyncCollapsed()
      modifies this`isCollapsed
      ensures isCollapsed == !leftOpen
    {
      var newCollapsedState := !leftOpen;
      if newCollapsedState != isCollapsed {
        isCollapsed := newCollapsedState;
      }
    }

    /** A render is committed: the three saving effects run as React schedules them, in
        their declaration order, and what they depend on is remembered for the next one. */
    method CommitRender(now: Timestamp, path: string)
      modifies this`saves, this`committed
      ensures var cur := SaveDeps(notes, isCollapsed, NoteIdOfPath(path), !rightOpen);
        saves == old(saves) + EffectSaves(old(committed), cur,
          Snapshot(notes, now, isCollapsed, path, !rightOpen)) &&
        committed == Some(cur)
    {
      hide Snapshot, NoteIdOfPath;
      var cur := SaveDeps(notes, isCollapsed, NoteIdOfPath(path), !rightOpen);
      var snap := Snapshot(notes, now, isCollapsed, path, !rightOpen);
      var callbackChanged := committed != Some(cur);
      var rightChanged := committed.None? || committed.value.rightCollapsed != cur.rightCollapsed;
      // The effects run in declaration order: notes, collapse, right panel.
      var batch: seq<SidebarState> := [];
      if callbackChanged && |notes| > 0 {
        batch := batch + [snap];
      }
      if callbackChanged && isCollapsed {
        batch := batch + [snap];
      }
      if rightChanged {
        batch := batch + [snap];
      }
      assert batch == EffectSaves(committed, cur, snap);
      saves := saves + batch;
      committed := Some(cur);
    }

    /** `handleDeleteNote`: after a successful delete the list is reloaded, and the
        route goes home exactly when the deleted note is the one shown. */
    method DeleteNote(noteId: string, path: string, deleted: Result<()>, listed: Result<seq<NoteMetadata>>)
      returns (route: Option<string>)
      modifies this`notes, this`isLoading
      ensures deleted.Err? ==> route.None? && notes == old(notes) && isLoading == old(isLoading)
      ensures deleted.Ok? ==> notes == Fallback(old(notes), listed) && !isLoading
      ensures route.Some? <==> deleted.Ok? && NoteIdOfPath(path) == Some(noteId)
      ensures route.Some? ==> route.value == "/"
    {
      if deleted.Err? {
        return None;
      }
      LoadNotes(listed);
      var selectedNoteId := NoteIdOfPath(path);
      if selectedNoteId == Some(noteId) {
        return Some("/");
      }
      return None;
    }
  }
}
