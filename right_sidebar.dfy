/**
 * The right sidebar: the clipboard history panel with its search box, the
 * shortened previews, the drag payload handed to the editor and the history
 * limit. The backend's replies are inputs.
 */
module RightSidebar {
  import opened Results
  import opened Text
  import opened Lists
  import opened TiptapEditor

  /** One row of the clipboard history. */
  datatype ClipboardEntry = ClipboardEntry(id: string, text: string, pinned: bool, timestamp: string)

  /** The limit shown before the backend has answered. */
  const DefaultLimit := 50
  /** Previews longer than this are cut. */
  const PreviewLength := 100

  /** An entry matches a prepared query when its lowercased text contains it. */
  function TextMatcher(q: string): ClipboardEntry -> bool
  {
    (e: ClipboardEntry) => Contains(Lower(e.text), q)
  }

  /** The `filtered` memo: the query is trimmed and lowercased, and a blank one shows
      the whole history. */
  function FilterHistory(history: seq<ClipboardEntry>, search: string): seq<ClipboardEntry>
  {
    var q := Lower(Trim(search));
    if q == [] then history else Filter(history, TextMatcher(q))
  }

  /** A blank query leaves the history as it is. */
  lemma BlankSearchShowsAll(history: seq<ClipboardEntry>, search: string)
    requires IsBlank(search)
    ensures FilterHistory(history, search) == history
  {
    TrimEmptyIffBlank(search);
  }

  /** An entry is shown exactly when it is in the history and its lowercased text
      contains the trimmed, lowercased query (blank queries included); concatenated
      histories filter piecewise, so the order is kept. */
  lemma FilterHistoryMeaning(history: seq<ClipboardEntry>, more: seq<ClipboardEntry>, search: string,
                             e: ClipboardEntry)
    ensures e in FilterHistory(history, search) <==>
      e in history && Contains(Lower(e.text), Lower(Trim(search)))
    ensures !IsBlank(search) ==>
      FilterHistory(history + more, search) == FilterHistory(history, search) + FilterHistory(more, search)
  {
    var q := Lower(Trim(search));
    if q == [] {
      ContainsEmpty(Lower(e.text));
    } else {
      FilterMember(history, TextMatcher(q), e);
      FilterAppend(history, more, TextMatcher(q));
    }
    TrimEmptyIffBlank(search);
  }

  /** Spaces around the query do not change the result. */
  lemma SurroundingSpaceIgnored(history: seq<ClipboardEntry>, search: string)
    ensures FilterHistory(history, Trim(search)) == FilterHistory(history, search)
  {
    TrimIdempotent(search);
  }

  /** The row's text: the first hundred characters and an ellipsis when longer. */
  function Preview(text: string): (r: string)
    ensures |r| <= PreviewLength + 1
    ensures |text| <= PreviewLength ==> r == text
    ensures |text| > PreviewLength ==>
      |r| == PreviewLength + 1 && r[..PreviewLength] == text[..PreviewLength] && r[PreviewLength] == '…'
  {
    if |text| > PreviewLength then text[..PreviewLength] + "…" else text
  }

  /** `onDragStart`: both the plain type and the application's own type carry the text. */
  function DragPayload(e: ClipboardEntry): (d: DragData)
    ensures d.plain == e.text && d.custom == e.text
  {
    DragData(e.text, e.text)
  }

  /** Dropping a dragged entry on the editor inserts exactly the entry's text, treated
      as any pasted text would be. */
  lemma DragThenDrop(docEmpty: bool, e: ClipboardEntry)
    ensures DropText(DragPayload(e)) == e.text
    ensures DropPlan(docEmpty, Some(DragPayload(e))) ==
      if e.text == [] then None else Some(PastedPlan(docEmpty, e.text))
  {
    DropIsPastedContent(docEmpty, DragPayload(e));
  }

  /** The panel's state. */
  class HistoryPanel {
    var history: seq<ClipboardEntry>
    var limit: int

    constructor ()
      ensures history == [] && limit == DefaultLimit
    {
      history := [];
      limit := DefaultLimit;
    }

    /** `load`: both requests must succeed before either value is taken. */
    method Load(items: Result<seq<ClipboardEntry>>, lim: Result<int>)
      modifies this`history, this`limit
      ensures items.Ok? && lim.Ok? ==> history == items.value && limit == lim.value
      ensures !(items.Ok? && lim.Ok?) ==> history == old(history) && limit == old(limit)
    {
      if items.Ok? && lim.Ok? {
        history := items.value;
        limit := lim.value;
      }
    }

    /** `handlePin`, `handleDelete` and `handleClear`: the backend command, then a
        reload only if it succeeded. */
    method CommandThenReload(outcome: Result<()>, items: Result<seq<ClipboardEntry>>, lim: Result<int>)
      modifies this`history, this`limit
      ensures outcome.Ok? && items.Ok? && lim.Ok? ==> history == items.value && limit == lim.value
      ensures !(outcome.Ok? && items.Ok? && lim.Ok?) ==> history == old(history) && limit == old(limit)
    {
      if outcome.Err? {
        return;
      }
      Load(items, lim);
    }

    /** `handleSetLimit`: the new limit is shown once the backend accepts it, and the
        reload that follows may replace it by the backend's own value. */
    method SetLimit(newLimit: int, outcome: Result<()>, items: Result<seq<ClipboardEntry>>, lim: Result<int>)
      modifies this`history, this`limit
      ensures outcome.Err? ==> history == old(history) && limit == old(limit)
      ensures outcome.Ok? ==>
        (items.Ok? && lim.Ok? ==> history == items.value && limit == lim.value) &&
        (!(items.Ok? && lim.Ok?) ==> history == old(history) && limit == newLimit)
    {
      if outcome.Err? {
        return;
      }
      limit := newLimit;
      Load(items, lim);
    }
  }
}
