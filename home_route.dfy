/**
 * The note-taking page: the clipboard monitor's debounce slot and duplicate
 * suppression, the capture of copied URLs into the note's link field, the link
 * and title inputs, and the debounced save.
 */
module HomeRoute {
  import opened Results
  import opened Text
  import opened Lists
  import opened UrlUtils
  import opened Routes

  /** The link string after a captured URL is merged into it. */
  function CapturedLink(link: string, t: string): string
  {
    JoinUrls(AddUrlToUrls(ParseUrls(link), NormalizeUrl(t)))
  }

  /** A captured comma-free URL is read back from the new link string exactly: the old
      list with the normalised URL appended when it was not there yet. */
  lemma CaptureRoundTrip(link: string, t: string)
    requires ',' !in t && !IsBlank(t)
    ensures ParseUrls(CapturedLink(link, t)) ==
      if NormalizeUrl(t) in ParseUrls(link) then ParseUrls(link) else ParseUrls(link) + [NormalizeUrl(t)]
  {
    var n := NormalizeUrl(t);
    TrimEmptyIffBlank(t);
    TrimIsSlice(t);
    assert ',' !in n by {
      assert n == Trim(t) || n == "https://" + Trim(t);
    }
    assert !IsBlank(n) by {
      TrimEmptyIffBlank(n);
      TrimOfTrimmed(n);
    }
    AddUrlKeepsEntries(ParseUrls(link), n);
    NormalizeIdempotent(t);
    ParseJoinRoundTrip(AddUrlToUrls(ParseUrls(link), n));
  }

  /** A URL that contains a comma can never be read back from a link string, so a
      captured URL with a comma is stored broken up into pieces. */
  lemma CommaUrlNeverParsed(s: string, u: string)
    requires ',' in u
    ensures u !in ParseUrls(s)
  {
  }

  /** What the clipboard timeout does with the text it fires for. */
  datatype ClipboardAction = Ignore | MergeLink(newLink: string) | SendToEditor(text: string)

  /** The timeout's callback: text equal to the last processed one is skipped; a valid
      URL is merged into the link field unless its normal form is already listed; any
      other text is handed to the editor. */
  function ClipboardDecision(t: string, lastProcessed: string, link: string, parse: UrlParser): (r: ClipboardAction)
    ensures t == lastProcessed ==> r.Ignore?
    ensures r.SendToEditor? <==> t != lastProcessed && !IsValidUrl(t, parse)
    ensures r.SendToEditor? ==> r.text == t
    ensures r.MergeLink? <==> t != lastProcessed && IsValidUrl(t, parse) && NormalizeUrl(t) !in ParseUrls(link)
  {
    if t == lastProcessed then Ignore
    else if IsValidUrl(t, parse) then
      if NormalizeUrl(t) in ParseUrls(link) then Ignore else MergeLink(CapturedLink(link, t))
    else SendToEditor(t)
  }

  /** A merged URL free of commas is read back from the new link field as the last
      entry, after all the old ones, and the field never repeats an entry. */
  lemma MergedUrlIsAppended(t: string, lastProcessed: string, link: string, parse: UrlParser)
    requires ',' !in t
    requires ClipboardDecision(t, lastProcessed, link, parse).MergeLink?
    ensures var newLink := ClipboardDecision(t, lastProcessed, link, parse).newLink;
      ParseUrls(newLink) == ParseUrls(link) + [NormalizeUrl(t)]
  {
    TrimEmptyIffBlank(t);
    CaptureRoundTrip(link, t);
  }

  /** `title.trim() || "Untitled Note"` */
  function SaveTitle(title: string): (r: string)
    ensures r != [] && IsTrimmed(r)
    ensures !IsBlank(title) ==> r == Trim(title)
  {
    TrimEmptyIffBlank(title);
    if Trim(title) == [] then "Untitled Note" else Trim(title)
  }

  /** The backend call a save makes. */
  datatype SaveRequest =
    | UpdateNote(id: string, title: string, content: string, links: seq<string>)
    | CreateNote(title: string, content: string, links: seq<string>)

  /** What the save timer's callback saw when it was scheduled. */
  datatype SaveSnapshot = SaveSnapshot(title: string, content: string, link: string, noteId: Option<string>)


  function RequestFor(s: SaveSnapshot): (r: SaveRequest)
    ensures r.UpdateNote? <==> HasNote(s.noteId)
    ensures r.UpdateNote? ==> r.id == s.noteId.value
    ensures r.title == SaveTitle(s.title) && r.content == s.content && r.links == ParseUrls(s.link)
  {
    if HasNote(s.noteId) then UpdateNote(s.noteId.value, SaveTitle(s.title), s.content, ParseUrls(s.link))
    else CreateNote(SaveTitle(s.title), s.content, ParseUrls(s.link))
  }

  /** The invalid entries of a link value, as the warning lists them. */
  function InvalidUrls(value: string, parse: UrlParser): (r: seq<string>)
    ensures forall i | 0 <= i < |r| :: !IsValidUrl(r[i], parse) && r[i] in ParseUrls(Trim(value))
  {
    Filter(ParseUrls(Trim(value)), (u: string) => !IsValidUrl(u, parse))
  }

  /** An accepted link value holds only valid URLs. */
  lemma AcceptedLinksAreValid(value: string, parse: UrlParser, u: string)
    requires InvalidUrls(value, parse) == []
    requires u in ParseUrls(Trim(value))
    ensures IsValidUrl(u, parse)
  {
    FilterMember(ParseUrls(Trim(value)), (u: string) => !IsValidUrl(u, parse), u);
  }

  const InvalidUrlPrefix := "Invalid URL detected: "

  /** The page's state and the refs its handlers share. */
  class Home {
    const parse: UrlParser
    var title: string
    var link: string
    var hasLink: bool
    var content: string
    var pastedContent: Option<string>
    var invalidUrlWarning: Option<string>
    var currentNoteId: Option<string>
    var isSaving: bool
    /** `lastProcessedClipboardRef` */
    var lastProcessed: string
    /** `clipboardProcessingTimeoutRef`, with the text its callback will process. */
    var pendingClipboard: Option<string>
    /** `saveTimeoutRef`, with what its callback will save. */
    var pendingSave: Option<SaveSnapshot>

    constructor(parse: UrlParser)
      ensures this.parse == parse
      ensures title == "" && link == "" && !hasLink && content == "" && pastedContent.None?
      ensures invalidUrlWarning.None? && currentNoteId.None? && !isSaving && lastProcessed == ""
      ensures pendingClipboard.None? && pendingSave.None?
    {
      this.parse := parse;
      title := "";
      link := "";
      hasLink := false;
      content := "";
      pastedContent := None;
      invalidUrlWarning := None;
      currentNoteId := None;
      isSaving := false;
      lastProcessed := "";
      pendingClipboard := None;
      pendingSave := None;
    }

    /** The `clipboard-changed` listener. `enabled` is the answer of the monitoring
        query, `None` when that query failed. An accepted event replaces whatever
        was pending: only the latest text of a burst is processed. */
    method OnClipboardChanged(text: string, fromApp: bool, enabled: Option<bool>)
      modifies this`pendingClipboard
      ensures var accepted := !IsBlank(text) && !fromApp && enabled == Some(true);
        pendingClipboard == (if accepted then Some(Trim(text)) else old(pendingClipboard))
    {
      if IsBlank(text) {
        return;
      }
      if fromApp {
        return;
      }
      if enabled != Some(true) {
        return;
      }
      var clipboardText := Trim(text);
      pendingClipboard := Some(clipboardText);
    }

    /** The clipboard timeout fires: the pending text is taken and its decision applied. */
    method FireClipboardTimer()
      modifies this`pendingClipboard, this`link, this`hasLink, this`pastedContent, this`lastProcessed
      ensures pendingClipboard.None?
      ensures old(pendingClipboard).None? ==>
        link == old(link) && hasLink == old(hasLink) && pastedContent == old(pastedContent)
        && lastProcessed == old(lastProcessed)
      ensures old(pendingClipboard).Some? ==>
        match ClipboardDecision(old(pendingClipboard).value, old(lastProcessed), old(link), parse)
        case Ignore =>
          link == old(link) && hasLink == old(hasLink) && pastedContent == old(pastedContent)
          && lastProcessed == old(lastProcessed)
        case MergeLink(newLink) =>
          link == newLink && hasLink && pastedContent == old(pastedContent)
          && lastProcessed == old(pendingClipboard).value
        case SendToEditor(text) =>
          pastedContent == Some(text) && link == old(link) && hasLink == old(hasLink)
          && lastProcessed == old(pendingClipboard).value
    {
      if pendingClipboard.None? {
        return;
      }
      var clipboardText := pendingClipboard.value;
      pendingClipboard := None;
      var decision := ClipboardDecision(clipboardText, lastProcessed, link, parse);
      match decision {
        case Ignore =>
        case MergeLink(newLink) =>
          link := newLink;
          hasLink := true;
          lastProcessed := clipboardText;
        case SendToEditor(text) =>
          pastedContent := Some(text);
          lastProcessed := clipboardText;
      }
    }

    /** `onPasteProcessed`: the editor has taken the pasted text. */
    method OnPasteProcessed()
      modifies this`pastedContent
      ensures pastedContent.None?
    {
      pastedContent := None;
    }

    /** `handleLinkChange`: a blank value clears the links; a value whose entries all
        pass the validator is stored as typed; otherwise the link stays and the invalid
        entries are named in the warning. */
    method HandleLinkChange(value: string)
      modifies this`link, this`hasLink, this`invalidUrlWarning
      ensures IsBlank(value) ==> link == "" && !hasLink && invalidUrlWarning.None?
      ensures !IsBlank(value) && InvalidUrls(value, parse) == [] ==>
        link == value && hasLink && invalidUrlWarning.None?
      ensures !IsBlank(value) && InvalidUrls(value, parse) != [] ==>
        link == old(link) && hasLink == old(hasLink) &&
        invalidUrlWarning == Some(InvalidUrlPrefix + Join(InvalidUrls(value, parse), ", "))
    {
      if IsBlank(value) {
        link := "";
        hasLink := false;
        invalidUrlWarning := None;
        return;
      }
      var invalidUrls := InvalidUrls(value, parse);
      if |invalidUrls| == 0 {
        link := value;
        hasLink := true;
        invalidUrlWarning := None;
      } else {
        invalidUrlWarning := Some(InvalidUrlPrefix + Join(invalidUrls, ", "));
      }
    }

    /** The warning's three-second timer fires. */
    method WarningTimeout()
      modifies this`invalidUrlWarning
      ensures invalidUrlWarning.None?
    {
      invalidUrlWarning := None;
    }

    /** `handleTitleChange`: titles longer than 100 characters are refused. */
    method HandleTitleChange(value: string)
      modifies this`title
      ensures title == (if |value| <= 100 then value else old(title))
    {
      if |value| <= 100 {
        title := value;
      }
    }

    /** The editor reports new HTML. */
    method HandleContentChange(html: string)
      modifies this`content
      ensures content == html
    {
      content := html;
    }

    /** `saveNote`: nothing when title and content are both blank; otherwise the pending
        save is replaced by one of the current state. */
    method SaveNote()
      modifies this`isSaving, this`pendingSave
      ensures IsBlank(title) && IsBlank(content) ==> pendingSave == old(pendingSave) && isSaving == old(isSaving)
      ensures !(IsBlank(title) && IsBlank(content)) ==>
        isSaving && pendingSave == Some(SaveSnapshot(title, content, link, currentNoteId))
    {
      TrimEmptyIffBlank(title);
      TrimEmptyIffBlank(content);
      if Trim(title) == [] && Trim(content) == [] {
        return;
      }
      isSaving := true;
      pendingSave := Some(SaveSnapshot(title, content, link, currentNoteId));
    }

    /** The auto-save effect, run after a render in which title, content or link changed. */
    method AutoSave(prevTitle: string, prevContent: string, prevLink: string)
      modifies this`isSaving, this`pendingSave
      ensures var changed := title != prevTitle || content != prevContent || link != prevLink;
        var due := changed && !(IsBlank(title) && IsBlank(content));
        pendingSave == (if due then Some(SaveSnapshot(title, content, link, currentNoteId)) else old(pendingSave)) &&
        isSaving == (if due then true else old(isSaving))
    {
      TrimEmptyIffBlank(title);
      TrimEmptyIffBlank(content);
      if title != prevTitle || content != prevContent || link != prevLink {
        if Trim(title) != [] || Trim(content) != [] {
          SaveNote();
        }
      }
    }

    /** The save timer fires: the request is sent, `outcome` is the backend's answer
        (the new id for a created note), and the saving flag is cleared either way. */
    method FireSaveTimer(outcome: Result<string>) returns (request: Option<SaveRequest>)
      modifies this`pendingSave, this`currentNoteId, this`isSaving
      ensures old(pendingSave).None? ==> request.None? && currentNoteId == old(currentNoteId) && isSaving == old(isSaving)
      ensures old(pendingSave).Some? ==> request == Some(RequestFor(old(pendingSave).value)) && !isSaving
      ensures old(pendingSave).Some? && request.value.CreateNote? && outcome.Ok? ==>
        currentNoteId == Some(outcome.value)
      ensures !(old(pendingSave).Some? && request.value.CreateNote? && outcome.Ok?) ==>
        currentNoteId == old(currentNoteId)
      ensures pendingSave.None?
    {
      if pendingSave.None? {
        request := None;
        return;
      }
      var snapshot := pendingSave.value;
      pendingSave := None;
      var r := RequestFor(snapshot);
      request := Some(r);
      if r.CreateNote? && outcome.Ok? {
        currentNoteId := Some(outcome.value);
      }
      isSaving := false;
    }

    /** `handleSaveAndNavigate`: save when the note has no id yet, else open its page. */
    method SaveAndNavigate() returns (route: Option<string>)
      modifies this`isSaving, this`pendingSave
      ensures HasNote(old(currentNoteId)) ==>
        route == Some("/note/" + old(currentNoteId).value) && pendingSave == old(pendingSave) && isSaving == old(isSaving)
      ensures !HasNote(old(currentNoteId)) ==>
        route.None? && (if IsBlank(title) && IsBlank(content) then pendingSave == old(pendingSave) && isSaving == old(isSaving)
         else isSaving && pendingSave == Some(SaveSnapshot(title, content, link, currentNoteId)))
    {
      if !HasNote(currentNoteId) {
        SaveNote();
        route := None;
      } else {
        route := Some("/note/" + currentNoteId.value);
      }
    }
  }
}
