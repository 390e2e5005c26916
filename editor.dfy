/**
 * The rich-text editor's handling of dropped text, pasted text and text handed
 * to it by the clipboard monitor, its heading command, and the resize handle of
 * an image. The document is represented by its text content; commands that do
 * not add text (turning the current block into a code block or a heading) are
 * kept in a log of issued commands.
 */
module TiptapEditor {
  import opened Results
  import opened Text
  import opened CodeDetect

  datatype EditorCommand =
    | SetCodeBlock(language: string)
    | InsertContent(content: string)
    | InsertText(text: string)
    | SetParagraph
    | ToggleHeading(level: int)

  /** The text a command adds at the cursor. */
  function CommandText(cmd: EditorCommand): string
  {
    match cmd
    case InsertContent(c) => c
    case InsertText(t) => t
    case _ => []
  }

  /** The text a sequence of commands adds at the cursor. */
  function InsertedText(cmds: seq<EditorCommand>): string
  {
    if cmds == [] then [] else CommandText(cmds[0]) + InsertedText(cmds[1..])
  }

  lemma {:induction false} InsertedTextAppend(a: seq<EditorCommand>, b: seq<EditorCommand>)
    ensures InsertedText(a + b) == InsertedText(a) + InsertedText(b)
  {
    if a != [] {
      assert (a + b)[0] == a[0];
      assert (a + b)[1..] == a[1..] + b;
      InsertedTextAppend(a[1..], b);
    } else {
      assert a + b == b;
    }
  }

  /** The text of a two-command chain. */
  lemma InsertedTextPair(c1: EditorCommand, c2: EditorCommand)
    ensures InsertedText([c1, c2]) == CommandText(c1) + CommandText(c2)
  {
    assert [c1, c2][1..] == [c2];
    assert [c2][1..] == [];
    assert InsertedText([c2]) == CommandText(c2) + InsertedText([]);
    assert CommandText(c2) + [] == CommandText(c2);
  }

  /** `setCodeBlock({ language: language ?? "plaintext" }).insertContent(body)` */
  function FencePlan(m: FenceMatch, trimmed: string): seq<EditorCommand>
  {
    [SetCodeBlock(m.language.GetOr("plaintext")), InsertContent(FenceBody(m, trimmed))]
  }

  /** A line break first unless the document is empty, then the raw text. */
  function PlainPlan(docEmpty: bool, text: string): seq<EditorCommand>
  {
    (if docEmpty then [] else [InsertText("\n")]) + [InsertContent(text)]
  }

  /** The `pastedContent` effect: only the fence test, no code heuristics. */
  function PastedPlan(docEmpty: bool, text: string): seq<EditorCommand>
  {
    var trimmed := Trim(text);
    match MatchFence(trimmed)
    case Some(m) => FencePlan(m, trimmed)
    case None => PlainPlan(docEmpty, text)
  }

  /** The two types a drop is read from; `getData` gives `""` for a type that is absent. */
  datatype DragData = DragData(custom: string, plain: string)

  /** `custom || plain`: the application's own type wins unless it is empty. */
  function DropText(dt: DragData): string
  {
    if dt.custom != [] then dt.custom else dt.plain
  }

  /** `handleDrop`: `None` when the event is left to the default handler. */
  function DropPlan(docEmpty: bool, dt: Option<DragData>): Option<seq<EditorCommand>>
  {
    match dt
    case None => None
    case Some(d) =>
      var text := DropText(d);
      if text == [] then None
      else if IsCodeLike(text) then
        var trimmed := Trim(text);
        match MatchFence(trimmed)
        case Some(m) => Some(FencePlan(m, trimmed))
        case None => Some(PlainPlan(docEmpty, text))
      else Some(PlainPlan(docEmpty, text))
  }

  /** A clipboard item, known by its MIME type. */
  datatype ClipboardItem = ClipboardItem(kind: string)

  /** The clipboard data of a paste event; `getData("text/plain")` gives `""` when absent. */
  datatype ClipboardData = ClipboardData(plain: string, items: seq<ClipboardItem>)

  datatype PasteOutcome =
    | PastedImage                         // the image is read and inserted asynchronously
    | Inserted(cmds: seq<EditorCommand>)
    | Default                             // returns false: the editor's own paste runs

  predicate HasImageItem(items: seq<ClipboardItem>)
  {
    exists i | 0 <= i < |items| :: StartsWith(items[i].kind, "image/")
  }

  /** `handlePaste`: an image item first, then code-like text, else default handling. */
  function PastePlan(data: Option<ClipboardData>): PasteOutcome
  {
    var text := if data.Some? then data.value.plain else "";
    var items := if data.Some? then data.value.items else [];
    if HasImageItem(items) then PastedImage
    else if IsCodeLike(text) then
      var trimmed := Trim(text);
      match MatchFence(trimmed)
      case Some(m) => Inserted(FencePlan(m, trimmed))
      case None => Inserted([InsertContent(text)])
    else Default
  }

  /** The code heuristics of a drop never change its outcome: every non-empty drop is
      handled exactly as the clipboard monitor's text is, because fenced text always
      passes the heuristics. */
  lemma DropIsPastedContent(docEmpty: bool, d: DragData)
    ensures DropPlan(docEmpty, Some(d)) ==
      if DropText(d) == [] then None else Some(PastedPlan(docEmpty, DropText(d)))
  {
    var text := DropText(d);
    if text != [] && MatchFence(Trim(text)).Some? {
      FencedIsCodeLike(text);
    }
  }

  /** A non-empty drop that is not a single fence inserts the raw, untrimmed text,
      after a line break exactly when the document already has text. */
  lemma UnfencedDropInsertsRawText(docEmpty: bool, d: DragData)
    requires DropText(d) != [] && MatchFence(Trim(DropText(d))).None?
    ensures DropPlan(docEmpty, Some(d)).Some?
    ensures InsertedText(DropPlan(docEmpty, Some(d)).value) ==
      (if docEmpty then "" else "\n") + DropText(d)
  {
    DropIsPastedContent(docEmpty, d);
    var text := DropText(d);
    assert InsertedText([InsertContent(text)]) == text;
    if !docEmpty {
      assert InsertedText([InsertText("\n"), InsertContent(text)]) == "\n" + InsertedText([InsertContent(text)]);
    }
  }

  /** A fenced block, however it arrives, becomes a code block in the fence's language,
      `plaintext` without one, holding exactly the fence's body. */
  lemma FencedTextBecomesCodeBlock(docEmpty: bool, text: string, w: string, b: string)
    requires IsWord(w) && Trim(text) == Fence(w, b)
    ensures PastedPlan(docEmpty, text) ==
      [SetCodeBlock(if w == [] then "plaintext" else w), InsertContent(b)]
    ensures PastePlan(Some(ClipboardData(text, []))) == Inserted(PastedPlan(docEmpty, text))
  {
    FenceMatches(w, b);
    FencedIsCodeLike(text);
  }

  /** Code-like text without a single enclosing fence is pasted with no line break in
      front, unlike a drop of the same text into a document that has text. */
  lemma UnfencedCodePasteHasNoSeparator(text: string, items: seq<ClipboardItem>)
    requires !HasImageItem(items) && IsCodeLike(text) && MatchFence(Trim(text)).None?
    ensures PastePlan(Some(ClipboardData(text, items))) == Inserted([InsertContent(text)])
    ensures DropPlan(false, Some(DragData(text, ""))) == Some([InsertText("\n"), InsertContent(text)])
  {
    EmptyIsNotCode();
    assert text != [];
    assert PlainPlan(false, text) == [InsertText("\n"), InsertContent(text)];
  }

  lemma EmptyIsNotCode()
    ensures !IsCodeLike("")
  {
    assert !HasBackticks("") by { NotContainsWithoutHead("", "```"); }
    assert !IsMultiline("");
  }

  /** A single line without three backticks is left to the default paste, whatever
      punctuation it holds. */
  lemma SingleLinePasteIsDefault(text: string)
    requires '\n' !in text && !HasBackticks(text)
    ensures PastePlan(Some(ClipboardData(text, []))) == Default
  {
    SingleLineNeedsBackticks(text);
  }

  /** Missing clipboard data is read as empty text with no items: nothing is inserted. */
  lemma NoClipboardDataIsDefault()
    ensures PastePlan(None) == Default
  {
    EmptyIsNotCode();
  }

  /** An image item wins over any text. */
  lemma ImageFirst(text: string, items: seq<ClipboardItem>, i: nat)
    requires i < |items| && StartsWith(items[i].kind, "image/")
    ensures PastePlan(Some(ClipboardData(text, items))) == PastedImage
  {
  }

  /** The toolbar's heading event: level 0 (also the default) makes a paragraph, 1 to 6
      toggle that heading, anything else is ignored. */
  function HeadingCommand(level: Option<int>): (r: Option<EditorCommand>)
    ensures r.None? <==> !(0 <= level.GetOr(0) <= 6)
    ensures r.Some? ==> (r.value == SetParagraph) == (level.GetOr(0) == 0)
    ensures r.Some? && r.value.ToggleHeading? ==> 1 <= r.value.level <= 6 && r.value.level == level.GetOr(0)
  {
    var l := level.GetOr(0);
    if l == 0 then Some(SetParagraph)
    else if 1 <= l <= 6 then Some(ToggleHeading(l))
    else None
  }

  /** An editor: the text content of its document and the commands issued to it. */
  class Editor {
    var content: string
    var log: seq<EditorCommand>

    constructor(initial: string)
      ensures content == initial && log == []
    {
      content := initial;
      log := [];
    }

    /** One command of a chain: inserted text lands at the cursor, kept at the end. */
    method Run(cmd: EditorCommand)
      modifies this
      ensures log == old(log) + [cmd]
      ensures content == old(content) + CommandText(cmd)
    {
      log := log + [cmd];
      content := content + CommandText(cmd);
    }

    method RunFence(m: FenceMatch, trimmed: string)
      modifies this
      ensures log == old(log) + FencePlan(m, trimmed)
      ensures content == old(content) + InsertedText(FencePlan(m, trimmed))
    {
      var c1 := SetCodeBlock(m.language.GetOr("plaintext"));
      var c2 := InsertContent(FenceBody(m, trimmed));
      Run(c1);
      Run(c2);
      InsertedTextPair(c1, c2);
      assert FencePlan(m, trimmed) == [c1, c2];
    }

    method RunPlain(isEmpty: bool, text: string)
      modifies this
      ensures log == old(log) + PlainPlan(isEmpty, text)
      ensures content == old(content) + InsertedText(PlainPlan(isEmpty, text))
    {
      var c := InsertContent(text);
      if !isEmpty {
        Run(InsertText("\n"));
        Run(c);
        InsertedTextPair(InsertText("\n"), c);
        assert PlainPlan(isEmpty, text) == [InsertText("\n"), c];
      } else {
        Run(c);
        assert InsertedText([c]) == CommandText(c) + InsertedText([]);
        assert PlainPlan(isEmpty, text) == [c];
      }
    }

    /** `handleDrop`; `handled` is the value returned to the editor. */
    method HandleDrop(dt: Option<DragData>) returns (handled: bool)
      modifies this
      ensures var plan := DropPlan(old(content) == [], dt);
        handled == plan.Some? &&
        log == old(log) + plan.GetOr([]) &&
        content == old(content) + InsertedText(plan.GetOr([]))
    {
      if dt.None? {
        return false;
      }
      var text := if dt.value.custom != [] then dt.value.custom else dt.value.plain;
      if text == [] {
        return false;
      }
      var isEmpty := |content| == 0;
      if IsCodeLike(text) {
        var trimmed := Trim(text);
        var m := MatchFence(trimmed);
        if m.Some? {
          RunFence(m.value, trimmed);
        } else {
          RunPlain(isEmpty, text);
        }
      } else {
        RunPlain(isEmpty, text);
      }
      return true;
    }

    /** `handlePaste`; an image is inserted asynchronously and is not part of the text. */
    method HandlePaste(data: Option<ClipboardData>) returns (handled: bool)
      modifies this
      ensures var outcome := PastePlan(data);
        handled == !outcome.Default? &&
        log == old(log) + (if outcome.Inserted? then outcome.cmds else []) &&
        content == old(content) + (if outcome.Inserted? then InsertedText(outcome.cmds) else [])
    {
      var text := if data.Some? then data.value.plain else "";
      var items := if data.Some? then data.value.items else [];
      if HasImageItem(items) {
        return true;
      }
      if IsCodeLike(text) {
        var trimmed := Trim(text);
        var m := MatchFence(trimmed);
        if m.Some? {
          RunFence(m.value, trimmed);
        } else {
          Run(InsertContent(text));
        }
        return true;
      }
      return false;
    }

    /** The `pastedContent` effect; `processed` tells whether `onPasteProcessed` was
        called, which happens once for every non-empty text. */
    method ApplyPastedContent(pasted: Option<string>) returns (processed: bool)
      modifies this
      ensures processed <==> pasted.Some? && pasted.value != []
      ensures processed ==> log == old(log) + PastedPlan(old(content) == [], pasted.value)
      ensures processed ==> content == old(content) + InsertedText(PastedPlan(old(content) == [], pasted.value))
      ensures !processed ==> log == old(log) && content == old(content)
    {
      if pasted.None? || pasted.value == [] {
        return false;
      }
      var text := pasted.value;
      var trimmed := Trim(text);
      var m := MatchFence(trimmed);
      if m.Some? {
        RunFence(m.value, trimmed);
      } else {
        var isEmpty := |content| == 0;
        RunPlain(isEmpty, text);
      }
      return true;
    }

    /** The `editor-set-heading` listener. */
    method SetHeading(level: Option<int>)
      modifies this
      ensures var c := HeadingCommand(level);
        log == old(log) + (if c.Some? then [c.value] else []) && content == old(content)
    {
      var l := if level.Some? then level.value else 0;
      if l == 0 {
        Run(SetParagraph);
      } else if 1 <= l <= 6 {
        Run(ToggleHeading(l));
      }
    }
  }

  /** `Math.round`: the nearest integer, halves rounded up. */
  function Round(x: real): (r: int)
    ensures x - 0.5 < r as real <= x + 0.5
  {
    (x + 0.5).Floor
  }

  function Clamp(x: real): (r: real)
    ensures 120.0 <= r <= 1200.0
    ensures 120.0 <= x <= 1200.0 ==> r == x
  {
    if x < 120.0 then 120.0 else if x > 1200.0 then 1200.0 else x
  }

  /** `Math.round(Math.max(120, Math.min(1200, startWidth + delta)))` */
  function ResizedWidth(startWidth: real, delta: real): (r: int)
    ensures 120 <= r <= 1200
    ensures 120.0 <= startWidth + delta <= 1200.0 ==> startWidth + delta - 0.5 < r as real <= startWidth + delta + 0.5
  {
    var c := Clamp(startWidth + delta);
    assert 120.0 <= c <= 1200.0;
    Round(c)
  }

  /** Dragging further right never makes the image narrower. */
  lemma ResizeMonotone(startWidth: real, d1: real, d2: real)
    requires d1 <= d2
    ensures ResizedWidth(startWidth, d1) <= ResizedWidth(startWidth, d2)
  {
    var c1 := Clamp(startWidth + d1);
    var c2 := Clamp(startWidth + d2);
    assert c1 <= c2;
    assert (c1 + 0.5).Floor as real <= c1 + 0.5 <= c2 + 0.5 < (c2 + 0.5).Floor as real + 1.0;
  }

  /** A whole-pixel width inside the bounds is taken as it is. */
  lemma ResizeExactInRange(startWidth: real, delta: real, w: int)
    requires startWidth + delta == w as real && 120 <= w <= 1200
    ensures ResizedWidth(startWidth, delta) == w
  {
    assert (w as real + 0.5).Floor == w;
  }

  /** The resize handle of an image: the node's width attribute and the drag state. */
  class ResizableImage {
    var width: Option<int>
    var isResizing: bool
    var listening: bool
    var startX: real
    var startWidth: Option<real>

    constructor(width: Option<int>)
      ensures this.width == width && !isResizing && !listening && startWidth.None?
    {
      this.width := width;
      isResizing := false;
      listening := false;
      startX := 0.0;
      startWidth := None;
    }

    /** `onMouseDown`: remember where the drag starts and how wide the image is, read
        from the rendered image, else the width attribute, else 320. */
    method MouseDown(clientX: real, renderedWidth: Option<real>)
      modifies this
      ensures isResizing && listening && startX == clientX
      ensures startWidth == Some(if renderedWidth.Some? then renderedWidth.value
        else if old(width).Some? then old(width).value as real else 320.0)
      ensures width == old(width)
    {
      isResizing := true;
      startX := clientX;
      startWidth := Some(if renderedWidth.Some? then renderedWidth.value
        else if width.Some? then width.value as real else 320.0);
      listening := true;
    }

    /** `onMove`, while its listener is installed. */
    method MouseMove(clientX: real)
      modifies this
      ensures listening && startWidth.Some? ==> width == Some(ResizedWidth(startWidth.value, clientX - startX))
      ensures !(listening && startWidth.Some?) ==> width == old(width)
      ensures isResizing == old(isResizing) && listening == old(listening)
      ensures startX == old(startX) && startWidth == old(startWidth)
    {
      if listening && startWidth.Some? {
        width := Some(ResizedWidth(startWidth.value, clientX - startX));
      }
    }

    /** `onUp`: the drag ends and both listeners are removed. */
    method MouseUp()
      modifies this
      ensures !isResizing && !listening
      ensures width == old(width) && startX == old(startX) && startWidth == old(startWidth)
    {
      isResizing := false;
      listening := false;
    }
  }
}
