# NotesTauri core logic in Dafny

NotesTauri is a desktop note-taking application. A React front end runs inside a Tauri shell, and a Rust backend keeps the notes. This project models the parts of it that make decisions, and proves properties of that model:

- **URL toolkit** (`UrlUtils`). A layered URL validator, a normaliser that adds `https://`, and the comma-separated list in which a note's links are stored, with its parser, its joiner and a de-duplicating append. It also covers the domain shown beside a link, with its favicon address.
- **Paste and drop classifier** (`CodeDetect`, `TiptapEditor`). The heuristics that decide whether pasted or dropped text is code, and the anchored Markdown fence extractor. Also the insertion rules of the rich-text editor for drops, pastes and text handed over by the clipboard monitor, the heading command, and the image resize handle.
- **Note page** (`HomeRoute`). The clipboard monitor's single-slot debounce and duplicate suppression, and the capture of copied URLs into the link field. Also the link and title inputs, and the debounced save with its update-or-create branching.
- **Markdown export** (`Markdown`). The front end's `convertNoteToMarkdown` and the backend's `convert_note_to_markdown`. They share one layout but differ in the title fallback, the whitespace their `trim` removes, and the date format.
- **Backend note table** (`NoteStore`, `Notes`). The in-memory `Vec<Note>` behind `save_note`, `update_note`, `load_note`, `list_notes` and `delete_note`. Also the ordering applied when notes are loaded from disk, and the clipboard poller's emit rule.
- **Tab strip** (`TabStrip`). How many note tabs fit beside the New button, the overflow control for the rest, and the guard against creating two notes at once.
- **Sidebars, command palette and menu bar** (`AppSidebar`, `RightSidebar`, `NotesCommand`, `Menubar`, `Routes`). Title propagation, the search filters, relative dates, the saved sidebar state and its start-up reconciliation. Also deletion and navigation, the clipboard-history panel, the Ctrl/Cmd+K toggle, the recent-files list, and the note id read from the route.

How the model is written:

- Pure code in the source is written here as functions and lemmas.
- Code that changes state step by step is written as classes whose methods have `modifies` clauses. Each method is proved against a specification function.

Everything foreign to this core is passed in as a parameter:

- the WHATWG URL parser, as `UrlParser = string -> Option<string>`;
- clocks, as timestamps;
- date formatters, as functions;
- backend replies, as `Result` values;
- DOM measurements, as widths: integers for the tab strip, exact reals for the image handle;
- timers, as explicit pending slots with a `Fire…` step.

Results shared by several modules live in `Results` (Option and Result), `Text` (JavaScript and Rust `trim`, `split`, `join`, `includes`, lower-casing) and `Lists` (`filter`).

Where the code and the documented behaviour of the application disagree, the model follows the code:

- `isValidUrl("www.example.co.uk/path")` is described as true. The fallback patterns allow only one label before the top-level domain, so this URL is valid only when the URL parser accepts it: `UrlUtils.TwoLabelHostNeedsParser`.
- Code-like text that is not a single fence is described as becoming a code block with the backticks stripped. The code inserts it as plain text (`TiptapEditor.UnfencedCodePasteHasNoSeparator`).
- A fence with an empty body is described as falling back to the stripped text. The `??` fallback fires only for an undefined group, and a match always defines it, so an empty body gives an empty block: `CodeDetect.FenceBodyIsCapture`, `CodeDetect.EmptyFenceBody`.
- Both serialisers are described as writing `# <title or "Untitled Note">`. The Rust one has no fallback: `Markdown.UntitledHeadingDiffers`.

Other consequences of the code that the proofs make explicit:

- `isValidUrl("a.io")` holds, yet `normalizeUrl("a.io")` adds no scheme (`UrlUtils.ShortDomainKeepsNoScheme`).
- A captured URL that contains a comma is split apart when the link field is read back (`HomeRoute.CommaUrlNeverParsed`).
- A note id is `note_` plus the creation millisecond. Two notes created in the same millisecond share an id, and then every lookup finds the first one only (`NoteStore.DistinctMillisDistinctIds`, `NoteStore.FirstIndexAppend`).
- The route `/note/` names the empty id, which every `if (currentNoteId)` guard treats as no note (`Routes.BareNoteRoute`).
- A date in the future is labelled with a weekday (`AppSidebar.DayBucket`).
- `saveSidebarState` is a callback over the notes, the collapse flag, the selected note and the right panel. Both the notes effect and the collapse effect depend on it, so a change to any of the four re-runs both guards. Emptying the list while collapsed still saves, expanding with notes saves, and a route change saves twice while collapsed (`AppSidebar.SaveHappensIff`, `AppSidebar.CollapsedEmptyListSaves`, `AppSidebar.RouteChangeSaves`).

## Model

| member | source | states |
|---|---|---|
| Text.Trim | apps/web/src/lib/url-utils.ts:3 | `trim` removes exactly the leading and trailing JavaScript whitespace; the result has no whitespace at either end and is no longer than the input |
| Text.TrimIsInfix | apps/web/src/lib/url-utils.ts:3 | the trimmed text is a contiguous slice of the input, and only whitespace lies outside it |
| Text.TrimOfTrimmed | apps/web/src/lib/url-utils.ts:93 | text with no whitespace at either end is its own trim |
| Text.TrimEmptyIffBlank | apps/web/src/lib/url-utils.ts:115 | `!s.trim()` holds exactly when the text is all whitespace, the empty text included |
| Text.TrimIdempotent | apps/web/src/components/dual-sidebar/right-sidebar.tsx:48 | trimming twice is trimming once |
| Text.TrimAfterSpace | apps/web/src/lib/url-utils.ts:119 | the blank left after `", "` is removed again by `trim` |
| Text.TrimDropsTrailingWhitespace | apps/web/src/lib/url-utils.ts:3 | one more whitespace character at the end, a newline included, does not change the trim |
| Text.TrimStartAppend | apps/web/src/lib/url-utils.ts:3 | how the leading trim of `s + [w]` relates to that of `s` |
| Text.ContainsOfTrim | apps/web/src/components/tiptap-editor.tsx:161 | what the trimmed text contains, the text contains |
| Text.ContainsEmpty | apps/web/src/components/dual-sidebar/app-sidebar.tsx:355 | every text `includes("")` |
| Text.Split | apps/web/src/lib/url-utils.ts:118 | `split` on one character yields one more piece than there are separators, and no piece holds the separator |
| Text.SplitNoSeparator | apps/web/src/lib/url-utils.ts:118 | text without the separator splits into itself alone |
| Text.SplitAppend | apps/web/src/lib/url-utils.ts:118 | splitting `a + sep + b` gives the pieces of `a` followed by those of `b` |
| Text.SplitCons | apps/web/src/lib/url-utils.ts:118 | a non-separator character in front joins the first piece |
| Text.SplitJoinChar | apps/web/src/lib/export-utils.ts:78 | splitting a join of separator-free pieces gives the pieces back |
| Text.JoinSnoc | apps/web/src/lib/export-utils.ts:78 | joining one more element appends the separator and the element |
| Text.Lower | apps/web/src/components/dual-sidebar/app-sidebar.tsx:355 | `toLowerCase` keeps the length and maps each character on its own |
| Lists.Filter | apps/web/src/components/dual-sidebar/app-sidebar.tsx:354-356 | `filter` keeps only elements of the input that pass, and never lengthens the list |
| Lists.FilterMember | apps/web/src/components/dual-sidebar/app-sidebar.tsx:354-356 | an element survives exactly when it was present and passes the test |
| Lists.FilterAppend | apps/web/src/components/dual-sidebar/app-sidebar.tsx:354-356 | filtering respects concatenation, so survivors keep their relative order |
| Lists.FilterAll | apps/web/src/lib/url-utils.ts:120 | when every element passes, the filter returns the list unchanged |
| UrlUtils.LabelRun | apps/web/src/lib/url-utils.ts:39 | the longest prefix of `[a-zA-Z0-9-]` characters: every character before it passes and the one after it fails |
| UrlUtils.LetterRun | apps/web/src/lib/url-utils.ts:39 | the longest prefix of ASCII letters, the `[a-zA-Z]{2,}` run of the TLD |
| UrlUtils.DomainPatternHasShape | apps/web/src/lib/url-utils.ts:39 | whatever the scanner accepts is a label, a dot, a TLD of two or more letters and an optional `/…` |
| UrlUtils.ShapeMatchesDomainPattern | apps/web/src/lib/url-utils.ts:39 | every text of that shape is accepted by the scanner |
| UrlUtils.DomainPatternIsShape | apps/web/src/lib/url-utils.ts:37-41 | the scanner decides exactly the grammar of the domain pattern, both directions |
| UrlUtils.LabelRunAt | apps/web/src/lib/url-utils.ts:39 | a run of label characters ended by a non-label character is the label run |
| UrlUtils.LetterRunAt | apps/web/src/lib/url-utils.ts:39 | a run of letters ended by a non-letter is the letter run |
| UrlUtils.IsValidUrl | apps/web/src/lib/url-utils.ts:2-89 | a valid text is 4 to 2048 characters once trimmed, holds no `\n` or `\r`, holds a space only beside `%20`, and when the parser rejects it matches the `www.` or the bare-domain pattern |
| UrlUtils.ValidityIgnoresTrailingWhitespace | apps/web/src/lib/url-utils.ts:3-13 | whitespace after the text, a trailing newline included, never changes the verdict |
| UrlUtils.ValidityIgnoresLeadingWhitespace | apps/web/src/lib/url-utils.ts:3 | whitespace before the text never changes the verdict |
| UrlUtils.FallbackAcceptedGetsScheme | apps/web/src/lib/url-utils.ts:28-41 | text accepted by a fallback pattern carries no scheme, so the normaliser adds `https://` when it starts with `www.` or is longer than four characters without a space |
| UrlUtils.PatternHasNoScheme | apps/web/src/lib/url-utils.ts:28-41 | neither pattern lets `http://` or `https://` through |
| UrlUtils.PatternHasDot | apps/web/src/lib/url-utils.ts:28-41 | everything either pattern accepts contains a dot |
| UrlUtils.WwwHasNoScheme | apps/web/src/lib/url-utils.ts:30 | text starting with `www.` has no scheme |
| UrlUtils.DomainHead | apps/web/src/lib/url-utils.ts:39 | up to the end of its TLD, an accepted bare domain is label characters and its one dot |
| UrlUtils.DomainHasNoScheme | apps/web/src/lib/url-utils.ts:39 | a bare domain never starts with a scheme |
| UrlUtils.TldOfLabelDotLetters | apps/web/src/lib/url-utils.ts:72-77 | the TLD read from `host.tld` is the lower-cased letters after the dot |
| UrlUtils.ValidByFallback | apps/web/src/lib/url-utils.ts:20-87 | trimmed text passing the basic checks and a fallback pattern is valid for every parser |
| UrlUtils.BareDomainChars | apps/web/src/lib/url-utils.ts:39 | `host.tld` consists of label characters and dots only |
| UrlUtils.HostCharsPassBasicChecks | apps/web/src/lib/url-utils.ts:6-18 | text of label characters and dots, 4 to 2048 long, passes the basic checks and is already trimmed |
| UrlUtils.ListedBareDomainFallback | apps/web/src/lib/url-utils.ts:37-84 | a bare domain whose TLD is among the 27 listed passes the fallback |
| UrlUtils.ListedBareDomainIsValid | apps/web/src/lib/url-utils.ts:2-89 | such a domain is valid whatever the parser does |
| UrlUtils.TldPathNotDomain | apps/web/src/lib/url-utils.ts:30-39 | a TLD followed by an optional path never matches the bare-domain pattern |
| UrlUtils.BareDomainPatterns | apps/web/src/lib/url-utils.ts:28-41 | `host.tld` with an optional `/…` matches the bare-domain pattern and never the `www.` one |
| UrlUtils.BareDomainSeparators | apps/web/src/lib/url-utils.ts:72-84 | without a path the TLD read back is the lower-cased `tld` and no `/`, `?` or `#` occurs; with a path `/` occurs |
| UrlUtils.BareDomainVerdict | apps/web/src/lib/url-utils.ts:20-87 | when the parser rejects a bare domain `host.tld` with an optional `/…`, it is valid exactly when a path follows or the lower-cased TLD is one of the 27 listed |
| UrlUtils.UnlistedTldRejected | apps/web/src/lib/url-utils.ts:72-87 | `example.zz` is invalid whenever the parser rejects it |
| UrlUtils.GoogleComIsValid | apps/web/src/lib/url-utils.ts:37-84 | `isValidUrl("google.com")` holds for every parser |
| UrlUtils.GoogleComNormalized | apps/web/src/lib/url-utils.ts:106-108 | `google.com` is stored as `https://google.com` |
| UrlUtils.ShortDomainKeepsNoScheme | apps/web/src/lib/url-utils.ts:106 | `a.io` is valid yet normalised without a scheme, being only four characters long |
| UrlUtils.SpaceRejected | apps/web/src/lib/url-utils.ts:16-18 | a space without `%20` is rejected before the parser is asked |
| UrlUtils.DottedHostFailsDomainPattern | apps/web/src/lib/url-utils.ts:39 | after one label and a dot, a second dot makes the bare-domain pattern fail |
| UrlUtils.TwoLabelHostNeedsParser | apps/web/src/lib/url-utils.ts:20-87 | `www.example.co.uk/path` is valid exactly when the parser accepts it |
| UrlUtils.TwoLabelHostFailsPatterns | apps/web/src/lib/url-utils.ts:28-41 | neither fallback pattern matches `www.example.co.uk/path` |
| UrlUtils.TwoLabelHostFailsDomain | apps/web/src/lib/url-utils.ts:39 | the bare-domain pattern rejects it |
| UrlUtils.TwoLabelHostFailsWww | apps/web/src/lib/url-utils.ts:30 | the `www.` pattern rejects it |
| UrlUtils.TwoLabelHostPassesBasicChecks | apps/web/src/lib/url-utils.ts:6-18 | it passes the basic checks and is already trimmed |
| UrlUtils.NormalizeUrl | apps/web/src/lib/url-utils.ts:92-111 | the result is the trimmed text or `https://` in front of it, and is itself trimmed |
| UrlUtils.NormalizePrefixesExactly | apps/web/src/lib/url-utils.ts:96-108 | the scheme is added exactly when the trimmed text lacks one and starts with `www.` or contains a dot, no space and more than four characters |
| UrlUtils.NormalizeIdempotent | apps/web/src/lib/url-utils.ts:96-110 | normalising twice is normalising once |
| UrlUtils.NormalizeIsEntry | apps/web/src/lib/url-utils.ts:119-121 | a trimmed, non-empty, comma-free piece normalises to a list entry |
| UrlUtils.MapTrim | apps/web/src/lib/url-utils.ts:119 | `.map(trim)` trims each piece in place |
| UrlUtils.MapNormalize | apps/web/src/lib/url-utils.ts:121 | `.map(normalizeUrl)` normalises each piece in place |
| UrlUtils.ParseUrls | apps/web/src/lib/url-utils.ts:114-122 | there is at most one more entry than there are commas, and every entry is non-empty, comma-free, trimmed and its own normal form |
| UrlUtils.BlankParsesEmpty | apps/web/src/lib/url-utils.ts:115 | blank text parses to no URLs |
| UrlUtils.Spaced | apps/web/src/lib/url-utils.ts:126 | the pieces after the first carry the space the `", "` separator leaves |
| UrlUtils.SplitJoin | apps/web/src/lib/url-utils.ts:118-126 | splitting a join on commas gives the first entry and the others with that space in front |
| UrlUtils.ParseJoinRoundTrip | apps/web/src/lib/url-utils.ts:114-127 | `parseUrls(joinUrls(xs)) == xs` for every list of entries |
| UrlUtils.TrimPieces | apps/web/src/lib/url-utils.ts:119 | trimming those pieces gives the entries back |
| UrlUtils.NormalizeEntries | apps/web/src/lib/url-utils.ts:121 | normalising entries changes nothing |
| UrlUtils.JoinHasEntry | apps/web/src/lib/url-utils.ts:115-126 | a join of entries is never blank |
| UrlUtils.ParseJoinParse | apps/web/src/lib/url-utils.ts:114-127 | reading back what was written gives the same list, for every stored text |
| UrlUtils.TrimIsSlice | apps/web/src/lib/url-utils.ts:3 | trimming adds no character, so comma-free text stays comma-free |
| UrlUtils.AddUrlToUrls | apps/web/src/lib/url-utils.ts:130-139 | the old list is a prefix of the result, the normalised URL is in it, and the list grows by one exactly when that URL was missing |
| UrlUtils.AddUrlIdempotent | apps/web/src/lib/url-utils.ts:130-139 | adding the same URL twice is adding it once |
| UrlUtils.AddUrlKeepsNoDuplicates | apps/web/src/lib/url-utils.ts:134-138 | a list without repeats stays without repeats |
| UrlUtils.AddUrlKeepsEntries | apps/web/src/lib/url-utils.ts:130-139 | adding a non-blank comma-free URL to parsed entries leaves entries only, so the list survives `joinUrls` |
| UrlUtils.HostRun | apps/web/src/lib/url-utils.ts:148 | the longest prefix free of `/` and `?` |
| UrlUtils.SchemeLength | apps/web/src/lib/url-utils.ts:148 | the optional scheme group takes 0, 7 or 8 characters |
| UrlUtils.HostAt | apps/web/src/lib/url-utils.ts:148 | `[^\/\?]+` captures a non-empty prefix of the text |
| UrlUtils.HostMatchShape | apps/web/src/lib/url-utils.ts:148 | a capture is a non-empty run of host characters after one of the six optional prefixes, ended by the text's end, `/` or `?` |
| UrlUtils.SchemeWwwPrefix | apps/web/src/lib/url-utils.ts:148 | the scheme group followed by `www.` is one of those prefixes |
| UrlUtils.CaptureAfterPrefix | apps/web/src/lib/url-utils.ts:148 | a capture taken right after such a prefix has that shape |
| UrlUtils.HostAtShape | apps/web/src/lib/url-utils.ts:148 | the capture is the whole leading host run |
| UrlUtils.PrefixedHost | apps/web/src/lib/url-utils.ts:148 | the text starts with the prefix and the capture, and the capture ends the host run |
| UrlUtils.HostMatchFailsExactly | apps/web/src/lib/url-utils.ts:148-149 | the pattern fails only on empty text or text that starts with `/` or `?` |
| UrlUtils.PrefixInsideRun | apps/web/src/lib/url-utils.ts:148 | a prefix made of host characters lies inside the leading host run |
| UrlUtils.HostMatchBare | apps/web/src/lib/url-utils.ts:148 | a host written without a scheme or `www.` is captured whole |
| UrlUtils.HostMatchPrefixed | apps/web/src/lib/url-utils.ts:148 | after `www.`, `http://www.` or `https://www.` the host is captured without the prefix |
| UrlUtils.CaptureOfRun | apps/web/src/lib/url-utils.ts:148 | a host run ended by the text's end, `/` or `?` is captured whole |
| UrlUtils.PrefixScheme | apps/web/src/lib/url-utils.ts:148 | the scheme group takes all of a `www.` prefix except the `www.` |
| UrlUtils.HostRunAt | apps/web/src/lib/url-utils.ts:148 | a run of host characters ended by `/` or `?` is the host run |
| UrlUtils.ExtractDomain | apps/web/src/lib/url-utils.ts:142-151 | the parser's hostname when it parses; otherwise a non-empty capture of host characters, or the text itself when nothing is captured |
| UrlUtils.FaviconUrl | apps/web/src/lib/url-utils.ts:154-157 | the favicon service's address with exactly the extracted domain between its prefix and `&sz=32` |
| CodeDetect.IsMultiline | apps/web/src/components/tiptap-editor.tsx:162 | `split("\n").length >= 3` holds exactly when the text has at least two line breaks |
| CodeDetect.WordRun | apps/web/src/components/tiptap-editor.tsx:175 | the longest prefix of `\w` characters |
| CodeDetect.MatchFence | apps/web/src/components/tiptap-editor.tsx:175 | a match always captures a body, and only texts of 8 or more characters starting with three backticks match |
| CodeDetect.MatchFenceShape | apps/web/src/components/tiptap-editor.tsx:175 | what matches is exactly backticks, an optional non-empty word, a line break, the body, a line break and backticks |
| CodeDetect.FenceMatches | apps/web/src/components/tiptap-editor.tsx:175 | every such fence matches, with its word as language and its body as body |
| CodeDetect.WordRunAt | apps/web/src/components/tiptap-editor.tsx:175 | a run of word characters ended by a non-word character is the word run |
| CodeDetect.ConsecutiveFencesMatchAsOne | apps/web/src/components/tiptap-editor.tsx:175 | two fences with anything between them match as one, with the first language and a body running over the inner fence lines |
| CodeDetect.EmptyFenceBody | apps/web/src/components/tiptap-editor.tsx:175-178 | a fence with an empty body matches with an empty body |
| CodeDetect.BareTicksDoNotMatch | apps/web/src/components/tiptap-editor.tsx:175 | the closing marker cannot share the opening line break |
| CodeDetect.JsFenceExample | apps/web/src/components/tiptap-editor.tsx:175-178 | a `js` fence around `console.log(1)` gives that language and body |
| CodeDetect.RemoveTicks | apps/web/src/components/tiptap-editor.tsx:178 | `replace(/```/g, "")` never lengthens the text |
| CodeDetect.RemoveTicksKeepsText | apps/web/src/components/tiptap-editor.tsx:178 | the replacement removes backticks only: every other character is kept, in order |
| CodeDetect.FenceBodyIsCapture | apps/web/src/components/tiptap-editor.tsx:178 | the `??` fallback never runs: the body is always the capture |
| CodeDetect.FencedIsCodeLike | apps/web/src/components/tiptap-editor.tsx:161-170 | text whose trim is a fence always passes the code heuristics |
| CodeDetect.TabLinesAreIndented | apps/web/src/components/tiptap-editor.tsx:164 | two lines each holding a tab anywhere count as indented |
| CodeDetect.SingleLineNeedsBackticks | apps/web/src/components/tiptap-editor.tsx:161-170 | a single line is code-like exactly when it contains three backticks |
| CodeDetect.CountAbsent | apps/web/src/components/tiptap-editor.tsx:162 | a character that does not occur is counted zero times |
| TiptapEditor.InsertedTextAppend | apps/web/src/components/tiptap-editor.tsx:179-181 | the text a chain of commands adds is the text of its parts, in order |
| TiptapEditor.InsertedTextPair | apps/web/src/components/tiptap-editor.tsx:179-181 | a two-command chain adds the two texts in order |
| TiptapEditor.DropIsPastedContent | apps/web/src/components/tiptap-editor.tsx:151-211 | the code heuristics never change a drop's outcome: a non-empty drop is handled exactly as the monitor's text is |
| TiptapEditor.UnfencedDropInsertsRawText | apps/web/src/components/tiptap-editor.tsx:183-207 | a drop that is not one fence inserts the raw text, after a line break exactly when the document has text |
| TiptapEditor.FencedTextBecomesCodeBlock | apps/web/src/components/tiptap-editor.tsx:270-278 | a fence becomes a code block in its language, `plaintext` without one, holding exactly its body, whether pasted or handed over |
| TiptapEditor.UnfencedCodePasteHasNoSeparator | apps/web/src/components/tiptap-editor.tsx:279-281 | code-like text without one fence is pasted with no line break, while a drop of it into a non-empty document gets one |
| TiptapEditor.EmptyIsNotCode | apps/web/src/components/tiptap-editor.tsx:161-170 | empty text is not code-like |
| TiptapEditor.SingleLinePasteIsDefault | apps/web/src/components/tiptap-editor.tsx:260-286 | a single line without backticks is left to the default paste |
| TiptapEditor.NoClipboardDataIsDefault | apps/web/src/components/tiptap-editor.tsx:213-214 | a paste without clipboard data inserts nothing |
| TiptapEditor.ImageFirst | apps/web/src/components/tiptap-editor.tsx:214-250 | an image item wins over any text |
| TiptapEditor.HeadingCommand | apps/web/src/components/tiptap-editor.tsx:297-310 | level 0 (also the default) gives a paragraph, 1 to 6 toggle that heading, any other level does nothing |
| TiptapEditor.Editor.constructor | apps/web/src/components/tiptap-editor.tsx:151 | an editor starts with the given text and no commands |
| TiptapEditor.Editor.Run | apps/web/src/components/tiptap-editor.tsx:179-181 | one command is logged, and its text lands at the cursor |
| TiptapEditor.Editor.RunFence | apps/web/src/components/tiptap-editor.tsx:179-182 | the code-block chain is logged and its body inserted |
| TiptapEditor.Editor.RunPlain | apps/web/src/components/tiptap-editor.tsx:185-194 | the plain chain is logged: a line break unless the document is empty, then the text |
| TiptapEditor.Editor.HandleDrop | apps/web/src/components/tiptap-editor.tsx:151-211 | the drop handler runs exactly the drop plan and reports whether it handled the event |
| TiptapEditor.Editor.HandlePaste | apps/web/src/components/tiptap-editor.tsx:212-287 | the paste handler runs exactly the paste plan; only the default outcome reports false |
| TiptapEditor.Editor.ApplyPastedContent | apps/web/src/components/tiptap-editor.tsx:392-421 | non-empty handed-over text gets the fence test only, then `onPasteProcessed` runs once; anything else changes nothing |
| TiptapEditor.Editor.SetHeading | apps/web/src/components/tiptap-editor.tsx:297-310 | the heading event issues the mapped command, if any, and adds no text |
| TiptapEditor.Round | apps/web/src/components/tiptap-editor.tsx:512 | `Math.round` gives the nearest integer, halves rounded up |
| TiptapEditor.Clamp | apps/web/src/components/tiptap-editor.tsx:508-511 | the width is held in [120, 1200] and kept when already inside |
| TiptapEditor.ResizedWidth | apps/web/src/components/tiptap-editor.tsx:507-512 | the new width lies in [120, 1200] and is the rounded drag target when that is in range |
| TiptapEditor.ResizeMonotone | apps/web/src/components/tiptap-editor.tsx:507-512 | dragging further right never makes the image narrower |
| TiptapEditor.ResizeExactInRange | apps/web/src/components/tiptap-editor.tsx:507-512 | a whole-pixel target within bounds is taken as it is |
| TiptapEditor.ResizableImage.constructor | apps/web/src/components/tiptap-editor.tsx:492-494 | no drag in progress and no start width |
| TiptapEditor.ResizableImage.MouseDown | apps/web/src/components/tiptap-editor.tsx:496-504 | records the start position, and the start width from the image, else the attribute, else 320 |
| TiptapEditor.ResizableImage.MouseMove | apps/web/src/components/tiptap-editor.tsx:505-513 | with a start width the attribute becomes the resized width; otherwise nothing changes |
| TiptapEditor.ResizableImage.MouseUp | apps/web/src/components/tiptap-editor.tsx:514-518 | the drag ends and the listeners are removed |
| HomeRoute.CaptureRoundTrip | apps/web/src/routes/index.tsx:168-185 | a comma-free URL merged into the link field reads back as the old list, with its normal form appended when missing |
| HomeRoute.CommaUrlNeverParsed | apps/web/src/lib/url-utils.ts:117-121 | a URL containing a comma is never read back from a link field |
| HomeRoute.ClipboardDecision | apps/web/src/routes/index.tsx:160-191 | text equal to the last processed one is ignored; a valid URL is merged exactly when its normal form is not listed; exactly the invalid texts go to the editor |
| HomeRoute.MergedUrlIsAppended | apps/web/src/routes/index.tsx:168-185 | a merged comma-free URL is read back as the last entry after all the old ones |
| HomeRoute.SaveTitle | apps/web/src/routes/index.tsx:82 | the saved title is never empty and is trimmed, and equals the trimmed title unless that is blank |
| HomeRoute.RequestFor | apps/web/src/routes/index.tsx:80-107 | a save updates exactly when a note id is set, otherwise creates; title, content and parsed links are those sent |
| HomeRoute.InvalidUrls | apps/web/src/routes/index.tsx:230-231 | every listed URL is invalid and comes from the trimmed value |
| HomeRoute.AcceptedLinksAreValid | apps/web/src/routes/index.tsx:230-235 | an accepted link value holds only valid URLs |
| HomeRoute.Home.constructor | apps/web/src/routes/index.tsx:33-56 | the page starts empty, with no pending timers |
| HomeRoute.Home.OnClipboardChanged | apps/web/src/routes/index.tsx:137-160 | an event that is not blank, not from the app and arrives while monitoring is on replaces the pending text with its trim; others change nothing |
| HomeRoute.Home.FireClipboardTimer | apps/web/src/routes/index.tsx:160-191 | the pending text is taken and the decision applied: the link merged and `hasLink` set, or the text handed to the editor, with `lastProcessed` updated only then |
| HomeRoute.Home.OnPasteProcessed | apps/web/src/routes/index.tsx:464 | the handed-over text is cleared |
| HomeRoute.Home.HandleLinkChange | apps/web/src/routes/index.tsx:222-239 | a blank value clears the links; an all-valid value is stored as typed; otherwise the link stays and the warning lists the invalid URLs |
| HomeRoute.Home.WarningTimeout | apps/web/src/routes/index.tsx:58-66 | the warning is cleared |
| HomeRoute.Home.HandleTitleChange | apps/web/src/routes/index.tsx:241-245 | a title of at most 100 characters is taken, a longer one refused |
| HomeRoute.Home.HandleContentChange | apps/web/src/routes/index.tsx:462 | the editor's HTML becomes the content |
| HomeRoute.Home.SaveNote | apps/web/src/routes/index.tsx:68-79 | nothing happens when title and content are both blank; otherwise the pending save is replaced by one of the current state |
| HomeRoute.Home.AutoSave | apps/web/src/routes/index.tsx:118-122 | a change of title, content or link schedules a save of the current state and raises the saving flag, unless both are blank; otherwise neither the pending save nor the flag changes |
| HomeRoute.Home.FireSaveTimer | apps/web/src/routes/index.tsx:79-115 | the scheduled request is sent; a created note's id is recorded on success; the saving flag is cleared either way |
| HomeRoute.Home.SaveAndNavigate | apps/web/src/routes/index.tsx:247-254 | without a note id the note is saved (nothing changes when title and content are blank), otherwise its page is opened and the pending save and saving flag are left as they were |
| Markdown.LayoutShape | apps/web/src/lib/export-utils.ts:49-78 | the layout has 2 + 2·[content shown] + (n + 3)·[n > 0] + 5 lines for n links, with every section at its offset |
| Markdown.ConcatParts | apps/web/src/lib/export-utils.ts:49-78 | each part of a three-part layout sits at its offset |
| Markdown.LinksSectionShape | apps/web/src/lib/export-utils.ts:62-69 | the links section is `## Links`, a blank line, one bullet per link and a blank line |
| Markdown.TsHeadAndContent | apps/web/src/lib/export-utils.ts:52-59 | the first line is `# ` and the title, or `Untitled Note` for none; the untrimmed content and a blank line follow exactly when the content is not blank |
| Markdown.JoinedEnds | apps/web/src/lib/export-utils.ts:78 | the joined text opens with the first line and a line break and ends with a line break and `---`, with nothing after it |
| Markdown.SerialisedFrame | apps/web/src/lib/export-utils.ts:52-78 | both serialisers' text opens with the heading line and ends with `\n---` |
| Markdown.LinesRoundTrip | apps/web/src/lib/export-utils.ts:78 | splitting the text at line breaks gives the lines back when none holds a line break |
| Markdown.SerialisersAgree | apps/web/src-tauri/src/main.rs:374-405 | with a title and content both `trim`s agree on, the two serialisers write the same text for the same date format |
| Markdown.UntitledHeadingDiffers | apps/web/src-tauri/src/main.rs:378 | with an empty title the front end writes `# Untitled Note`, the backend `# `, and nothing else differs |
| Markdown.LayoutTail | apps/web/src/lib/export-utils.ts:53-78 | after the heading, the layout does not depend on the heading |
| Markdown.DropFirst | apps/web/src/lib/export-utils.ts:49-78 | dropping the first line of a concatenation drops it from the first part |
| Markdown.TrimsDisagree | apps/web/src-tauri/src/main.rs:382 | a byte-order mark alone is a content line only in the backend's output, a next-line character alone only in the front end's |
| Markdown.PushLinkLines | apps/web/src/lib/export-utils.ts:65-67 | the loop pushes one bullet per link, in order |
| Markdown.LinkLinesSnoc | apps/web/src/lib/export-utils.ts:65-67 | one more link adds one more bullet at the end |
| Markdown.LinksPushed | apps/web/src/lib/export-utils.ts:62-69 | the links block pushed line by line is the links section |
| Markdown.FooterPushed | apps/web/src/lib/export-utils.ts:72-76 | the footer pushed line by line is the footer |
| Markdown.TsConvertNoteToMarkdown | apps/web/src/lib/export-utils.ts:48-79 | the front end's text is its layout joined with line breaks |
| Markdown.RustConvertNoteToMarkdown | apps/web/src-tauri/src/main.rs:374-405 | the backend's text is its layout joined with line breaks |
| Notes.MetadataOf | apps/web/src-tauri/src/main.rs:204-209 | the metadata copies the id, title and both timestamps |
| NoteStore.NatToDecimal | apps/web/src-tauri/src/main.rs:141 | decimal digits without a leading zero |
| NoteStore.DecimalRoundTrip | apps/web/src-tauri/src/main.rs:141 | the digits read back as the number |
| NoteStore.IntToDecimalInjective | apps/web/src-tauri/src/main.rs:141 | different numbers are written differently |
| NoteStore.SignShown | apps/web/src-tauri/src/main.rs:141 | the text starts with a minus sign exactly for a negative number |
| NoteStore.DistinctMillisDistinctIds | apps/web/src-tauri/src/main.rs:140-141 | notes saved in different milliseconds get different ids |
| NoteStore.FirstIndex | apps/web/src-tauri/src/main.rs:167 | `find` gives the first position with the id, or none exactly when no note has it |
| NoteStore.Updated | apps/web/src-tauri/src/main.rs:168-171 | the new title, content, links and time, with the id and creation time kept |
| NoteStore.FirstIndexAppend | apps/web/src-tauri/src/main.rs:153-155 | an appended note is found by its id only when no earlier note has it |
| NoteStore.UpdateKeepsLookup | apps/web/src-tauri/src/main.rs:167-171 | updating a note in place leaves every lookup where it was |
| NoteStore.DeleteHidesUnique | apps/web/src-tauri/src/main.rs:222-223 | with distinct ids, a deleted note can no longer be found |
| NoteStore.InsertByUpdated | apps/web/src-tauri/src/main.rs:58 | inserting into a list sorted by `updated_at` descending keeps it sorted and adds exactly the one note |
| NoteStore.InsertBehindHead | apps/web/src-tauri/src/main.rs:58 | the insertion's recursive step keeps the order and the contents |
| NoteStore.SortByUpdatedDesc | apps/web/src-tauri/src/main.rs:58 | the result is sorted by `updated_at` descending and a permutation of the input |
| NoteStore.ParsedMember | apps/web/src-tauri/src/main.rs:42-55 | a note is kept exactly when its file parsed |
| NoteStore.LoadNotesFromDisk | apps/web/src-tauri/src/main.rs:38-60 | the notes are exactly those whose files parsed, most recently updated first |
| NoteStore.NoteTable.constructor | apps/web/src-tauri/src/main.rs:438-452 | the table starts with the notes loaded at start-up |
| NoteStore.NoteTable.Position | apps/web/src-tauri/src/main.rs:222 | `position` gives the first index with the id |
| NoteStore.NoteTable.SaveNote | apps/web/src-tauri/src/main.rs:138-162 | a note with id `note_<millis>` and equal timestamps is appended before the disk write, so a failed write still leaves it there |
| NoteStore.NoteTable.UpdateNote | apps/web/src-tauri/src/main.rs:164-184 | the first matching note gets the new fields and time, and nothing else changes; an unknown id is `Note not found` with no change |
| NoteStore.NoteTable.LoadNote | apps/web/src-tauri/src/main.rs:186-197 | a copy of the first note with the id, or `Note not found` exactly when none has it |
| NoteStore.NoteTable.ListNotes | apps/web/src-tauri/src/main.rs:199-217 | one metadata record per note, in table order |
| NoteStore.NoteTable.DeleteNote | apps/web/src-tauri/src/main.rs:219-236 | exactly the first matching note is removed and the rest keep their order; an unknown id is `Note not found` with no change |
| NoteStore.EmittedShape | apps/web/src-tauri/src/main.rs:516-561 | emitted texts are non-empty, the first differs from the starting text, and no two in a row are equal |
| NoteStore.LastIsLastEmitted | apps/web/src-tauri/src/main.rs:516-561 | `last_content` changes only with an emission and ends on the last emitted text |
| NoteStore.EventsOf | apps/web/src-tauri/src/main.rs:526-531 | one event per emitted text, never marked as the app's own |
| NoteStore.Poll | apps/web/src-tauri/src/main.rs:512-566 | the polling loop emits exactly those events and ends on that `last_content` |
| TabStrip.NewButtonWidth | apps/web/src/components/top-notes-layout/top-notes-bar.tsx:74-76 | an unmeasured New button counts as 80 pixels wide, a measured one as measured |
| TabStrip.Measured | apps/web/src/components/top-notes-layout/top-notes-bar.tsx:83-84 | there are never more measured tabs than tabs |
| TabStrip.PackFromBounds | apps/web/src/components/top-notes-layout/top-notes-bar.tsx:79-96 | the scan counts each measured tab at most once and, once it counts one, stays within the available width |
| TabStrip.PackBounds | apps/web/src/components/top-notes-layout/top-notes-bar.tsx:79-96 | the count never exceeds the tabs, and the counted tabs fit |
| TabStrip.PackFromMonotone | apps/web/src/components/top-notes-layout/top-notes-bar.tsx:79-96 | more room never fits fewer tabs |
| TabStrip.ReserveFitsFewer | apps/web/src/components/top-notes-layout/top-notes-bar.tsx:99-104 | `countForReserve(40) <= countForReserve(0)` |
| TabStrip.CountForReserve | apps/web/src/components/top-notes-layout/top-notes-bar.tsx:79-96 | the loop with its `continue` and `break` computes the greedy scan |
| TabStrip.VisibleCount | apps/web/src/components/top-notes-layout/top-notes-bar.tsx:98-105 | never more than the tabs; all of them exactly when all fit without the reserve |
| TabStrip.OverflowSplit | apps/web/src/components/top-notes-layout/top-notes-bar.tsx:249-336 | the overflow control lists exactly the tabs the strip hides, in strip order; its badge is shown exactly when one is hidden and then counts them |
| TabStrip.TopNotesBar.constructor | apps/web/src/components/top-notes-layout/top-notes-bar.tsx:72 | no tab counted, none being created, no frame pending |
| TabStrip.TopNotesBar.RecalcVisible | apps/web/src/components/top-notes-layout/top-notes-bar.tsx:72-139 | the visible count becomes the settled count, and a frame is requested when tabs overflow beside an unmeasured button |
| TabStrip.TopNotesBar.AnimationFrame | apps/web/src/components/top-notes-layout/top-notes-bar.tsx:108-137 | the frame recounts only once the button has a real width |
| TabStrip.TopNotesBar.BeginCreate | apps/web/src/components/top-notes-layout/top-notes-bar.tsx:155-157 | a press while a creation runs does nothing |
| TabStrip.TopNotesBar.FinishCreate | apps/web/src/components/top-notes-layout/top-notes-bar.tsx:158-172 | the note opens on success and the guard is released either way |
| Routes.NotePathPieces | apps/web/src/components/top-notes-layout/app-menubar.tsx:29 | a path under `/note/` splits into an empty piece, `note`, and the rest's pieces |
| Routes.NoteIdOfPath | apps/web/src/components/dual-sidebar/app-sidebar.tsx:96-98 | an id exactly for paths under `/note/`, and it holds no `/` |
| Routes.NoteIdOfNoteRoute | apps/web/src/components/top-notes-layout/app-menubar.tsx:28-31 | the id is what follows `/note/` up to the next `/` |
| Routes.BareNoteRoute | apps/web/src/components/top-notes-layout/app-menubar.tsx:29 | `/note/` alone names the empty id |
| AppSidebar.RetitleShape | apps/web/src/components/dual-sidebar/app-sidebar.tsx:174-181 | only notes with that id take the title; order, length, ids, dates and other notes are unchanged |
| AppSidebar.RetitleLastWins | apps/web/src/components/dual-sidebar/app-sidebar.tsx:177-181 | a second retitling overrides the first |
| AppSidebar.RetitleAbsent | apps/web/src/components/dual-sidebar/app-sidebar.tsx:177-181 | retitling an unlisted note changes nothing |
| AppSidebar.FilterByTitleMeaning | apps/web/src/components/dual-sidebar/app-sidebar.tsx:354-356 | a note is listed exactly when its lowercased title contains the lowercased query, in order |
| AppSidebar.EmptyQueryKeepsAll | apps/web/src/components/dual-sidebar/app-sidebar.tsx:354-356 | an empty query lists every note |
| AppSidebar.LowerAppend | apps/web/src/components/dual-sidebar/app-sidebar.tsx:355 | lower-casing respects concatenation |
| AppSidebar.ContainsPrefixOfSub | apps/web/src/components/dual-sidebar/app-sidebar.tsx:355 | a text containing `a + b` contains `a` |
| AppSidebar.LongerQueryNarrows | apps/web/src/components/dual-sidebar/app-sidebar.tsx:354-356 | typing more never brings a note back |
| AppSidebar.DayBucket | apps/web/src/components/dual-sidebar/app-sidebar.tsx:362-374 | the label is the time on day 0, `Yesterday` on day 1, a weekday before day 7 (and for future dates), the month and day after that |
| AppSidebar.FormatDate | apps/web/src/components/dual-sidebar/app-sidebar.tsx:358-378 | the formatter is called with that bucket's pattern, and a date that cannot be read gives `Unknown` |
| AppSidebar.Snapshot | apps/web/src/components/dual-sidebar/app-sidebar.tsx:105-113 | the saved state carries the notes, the time and both panels, and the selected id only when the route names a non-empty one |
| AppSidebar.FreshReplacesSavedIffEncodingsDiffer | apps/web/src/components/dual-sidebar/app-sidebar.tsx:256-271 | with usable saved notes, the fresh listing replaces them exactly when their JSON forms differ |
| AppSidebar.EffectSaves | apps/web/src/components/dual-sidebar/app-sidebar.tsx:104-159 | every snapshot saved on one render is the current state's |
| AppSidebar.UnchangedRenderSavesNothing | apps/web/src/components/dual-sidebar/app-sidebar.tsx:125-159 | a render that changes none of the callback's dependencies saves nothing |
| AppSidebar.SaveHappensIff | apps/web/src/components/dual-sidebar/app-sidebar.tsx:125-159 | a save happens exactly on the first render, on a right-panel change, or on any dependency change while there are notes or the sidebar is collapsed |
| AppSidebar.CollapsedEmptyListSaves | apps/web/src/components/dual-sidebar/app-sidebar.tsx:141-149 | while collapsed, emptying the list still saves, through the collapse effect |
| AppSidebar.ExpandingWithNotesSaves | apps/web/src/components/dual-sidebar/app-sidebar.tsx:128-138 | expanding the sidebar while there are notes saves once, through the notes effect |
| AppSidebar.RouteChangeSaves | apps/web/src/components/dual-sidebar/app-sidebar.tsx:97-125 | navigating to another note saves once with notes, twice when also collapsed |
| AppSidebar.CollapseToggleSaves | apps/web/src/components/dual-sidebar/app-sidebar.tsx:125-149 | collapsing the sidebar always saves; expanding it saves exactly when there are notes |
| AppSidebar.RightToggleSaves | apps/web/src/components/dual-sidebar/app-sidebar.tsx:125-159 | a right-panel toggle saves once through its own effect and once more for each other effect whose guard holds |
| AppSidebar.EmptyExpandedSavesNothing | apps/web/src/components/dual-sidebar/app-sidebar.tsx:128-149 | with an empty list, an expanded sidebar and an unchanged right panel nothing is saved |
| AppSidebar.InitEndsWithFreshNotes | apps/web/src/components/dual-sidebar/app-sidebar.tsx:199-281 | with a faithful encoder the sidebar ends up showing exactly the fresh listing |
| AppSidebar.Sidebar.constructor | apps/web/src/components/dual-sidebar/app-sidebar.tsx:68-77 | no notes, loading, left panel open and right panel closed, and no render committed yet |
| AppSidebar.Sidebar.LoadNotes | apps/web/src/components/dual-sidebar/app-sidebar.tsx:298-309 | the list is replaced on success, kept on failure, and loading ends |
| AppSidebar.Sidebar.InitializeSidebar | apps/web/src/components/dual-sidebar/app-sidebar.tsx:199-281 | the notes end as the reconciliation decides; usable saved state restores both panels; any failure falls back to `loadNotes` |
| AppSidebar.Sidebar.OnNoteTitleChanged | apps/web/src/components/dual-sidebar/app-sidebar.tsx:174-181 | the list is retitled |
| AppSidebar.Sidebar.OnNoteSaved | apps/web/src/components/dual-sidebar/app-sidebar.tsx:163-172 | the list is refreshed when the listing succeeds |
| AppSidebar.Sidebar.SetLeftOpen | apps/web/src/components/dual-sidebar/app-sidebar.tsx:76 | the provider's left panel takes the given open state |
| AppSidebar.Sidebar.SetRightOpen | apps/web/src/components/dual-sidebar/app-sidebar.tsx:77 | the right panel takes the given open state |
| AppSidebar.Sidebar.SyncCollapsed | apps/web/src/components/dual-sidebar/app-sidebar.tsx:79-91 | afterwards the collapse flag is set exactly when the left panel is closed |
| AppSidebar.Sidebar.CommitRender | apps/web/src/components/dual-sidebar/app-sidebar.tsx:104-159 | a committed render appends exactly the snapshots the three saving effects hand over, and remembers what the callback depended on |
| AppSidebar.Sidebar.DeleteNote | apps/web/src/components/dual-sidebar/app-sidebar.tsx:319-335 | after a successful delete the list is reloaded, and the route goes home exactly when the deleted note is the selected one; a failed delete changes nothing |
| RightSidebar.BlankSearchShowsAll | apps/web/src/components/dual-sidebar/right-sidebar.tsx:48-49 | a blank query shows the whole history |
| RightSidebar.FilterHistoryMeaning | apps/web/src/components/dual-sidebar/right-sidebar.tsx:47-51 | an entry is shown exactly when its lowercased text contains the trimmed, lowercased query, in order |
| RightSidebar.SurroundingSpaceIgnored | apps/web/src/components/dual-sidebar/right-sidebar.tsx:48 | spaces around the query change nothing |
| RightSidebar.Preview | apps/web/src/components/dual-sidebar/right-sidebar.tsx:245-247 | at most 101 characters: the text itself up to 100, else its first 100 and `…` |
| RightSidebar.DragPayload | apps/web/src/components/dual-sidebar/right-sidebar.tsx:233-241 | both drag types carry the entry's text |
| RightSidebar.DragThenDrop | apps/web/src/components/dual-sidebar/right-sidebar.tsx:233-241 | dropping a dragged entry inserts exactly its text, as pasted text would be |
| RightSidebar.HistoryPanel.constructor | apps/web/src/components/dual-sidebar/right-sidebar.tsx:43-44 | an empty history and the limit 50 |
| RightSidebar.HistoryPanel.Load | apps/web/src/components/dual-sidebar/right-sidebar.tsx:53-62 | both values are taken only when both requests succeed |
| RightSidebar.HistoryPanel.CommandThenReload | apps/web/src/components/dual-sidebar/right-sidebar.tsx:117-155 | pin, delete and clear reload only after the command succeeds |
| RightSidebar.HistoryPanel.SetLimit | apps/web/src/components/dual-sidebar/right-sidebar.tsx:157-165 | the limit changes only once the backend accepts it, and the reload may replace it |
| NotesCommand.ToggleOnKey | apps/web/src/components/notes-command.tsx:50-55 | the palette flips exactly on Ctrl or Cmd with a key that lower-cases to `k` |
| NotesCommand.ToggleTwice | apps/web/src/components/notes-command.tsx:50-55 | pressing the shortcut twice restores the palette |
| NotesCommand.PaletteAgreesWithSidebar | apps/web/src/components/notes-command.tsx:61-65 | the palette shows what the sidebar filter shows for the trimmed query |
| NotesCommand.BlankQueryShowsAll | apps/web/src/components/notes-command.tsx:62-63 | a blank query shows every note |
| NotesCommand.NoteIdHasNoSlash | apps/web/src-tauri/src/main.rs:141 | an id made by `save_note` never contains `/`, so it survives as one route segment |
| NotesCommand.CreatedRouteNamesNote | apps/web/src/components/notes-command.tsx:67-75 | the route opened after creating a note names the note the backend made |
| NotesCommand.CommandPalette.constructor | apps/web/src/components/notes-command.tsx:26-28 | closed, with no notes |
| NotesCommand.CommandPalette.LoadNotes | apps/web/src/components/notes-command.tsx:31-38 | a failed listing is ignored |
| NotesCommand.CommandPalette.OnKey | apps/web/src/components/notes-command.tsx:50-56 | the key toggles the palette, and the default action is stopped exactly when it did |
| NotesCommand.CommandPalette.CreateNote | apps/web/src/components/notes-command.tsx:67-80 | the palette closes and the note opens only after `save_note` succeeds |
| NotesCommand.CommandPalette.SelectNote | apps/web/src/components/notes-command.tsx:104-107 | choosing a note closes the palette and opens it |
| Menubar.Others | apps/web/src/components/top-notes-layout/app-menubar.tsx:46 | the previous entries other than the path never include the path |
| Menubar.RecentFilesShape | apps/web/src/components/top-notes-layout/app-menubar.tsx:46 | the opened path heads the list and occurs once; the rest are the other entries in order, cut to at most ten |
| Menubar.RecentFilesKeepsOthers | apps/web/src/components/top-notes-layout/app-menubar.tsx:46 | no entry is made up: besides the opened path, every entry was there before |
| Menubar.RecentFilesIdempotent | apps/web/src/components/top-notes-layout/app-menubar.tsx:43-46 | opening the same path twice gives the list opening it once gives |
| Menubar.SaveAsTarget | apps/web/src/components/top-notes-layout/app-menubar.tsx:65-68 | `saveAs` exports only with a current note, and that one |
| Menubar.CloseTabRoute | apps/web/src/components/top-notes-layout/app-menubar.tsx:117-121 | `closeTab` goes home only from a note |
| Menubar.AppMenubar.constructor | apps/web/src/components/top-notes-layout/app-menubar.tsx:32-39 | the list is read back from storage, empty when nothing was stored |
| Menubar.AppMenubar.OnRecentFileOpened | apps/web/src/components/top-notes-layout/app-menubar.tsx:41-50 | an empty path changes nothing; any other is moved to the front and the new list stored |

## Left out

- The WHATWG URL parser behind `new URL` and `urlObj.hostname` is a parameter. No lemma assumes anything about which strings it accepts.
- `toLowerCase` is modelled on ASCII letters only, except for the Ctrl/Cmd+K key, where the Kelvin sign is included. Full Unicode case mapping is not modelled.
- Text length is counted in code points. JavaScript counts UTF-16 code units, which differ for characters outside the Basic Multilingual Plane. This affects the 100-character title limit, the 2048-character check and the 100-character preview.
- Timers have no real time. `setTimeout`, `clearTimeout` and `requestAnimationFrame` are pending slots with an explicit firing step. The interleaving of `await`s across handlers is not modelled.
- The editor document is reduced to its text content, and commands that add no text are a log.
  - ProseMirror's cursor placement and HTML output are not modelled.
  - Image paste, which reads the file and inserts it asynchronously, is reduced to the `PastedImage` outcome.
  - The case of a missing editor (`if (!chain) return false`) is not modelled.
  - The bold, italic, list and clear-formatting toolbar events change only marks, so they are not modelled.
  - The selection-state broadcast and the screenshot image insertion are not modelled.
- The HTML width attribute parser of the image node is not modelled; widths are numbers.
- TiptapEditor.ResizedWidth: the drag arithmetic is on exact reals, so the rounding error of JavaScript doubles and a `NaN` width are not modelled.
- The disk, JSON serde, the `Mutex` locks and the other file commands of the backend are not modelled. Disk failures are parameters of the table's methods. This covers `get_*_dir`, file reads and writes, `download_note_as_md`, `export_note_with_dialog` with its file dialog, `open_url`, the window commands, `mark_internal_copy` and the clipboard-monitoring flag commands.
- AppSidebar.Sidebar: the sidebar providers are not part of this model. Their state is reduced to the `leftOpen` and `rightOpen` flags, set by `SetLeftOpen` and `SetRightOpen`, with `collapsed` read as not open. Callers order the steps of one change themselves: a toggle, then `SyncCollapsed`, then `CommitRender`.
- AppSidebar.Sidebar.CommitRender: React compares effect dependencies by identity. The model compares them by value, so a `setNotes` with an equal new list is not shown re-running the effects. The three saves of one render share one timestamp.
- `save_sidebar_state` and `load_sidebar_state` are reduced to the states handed over, as `AppSidebar.Sidebar.saves`. Their file I/O is not modelled. The sidebar's unused `loadSidebarState` helper has no caller, so it is not modelled.
- The poller thread, its 500 ms sleep and the plugin and fallback clipboard readers are not modelled. One poll is a `ClipboardRead` value, and `Poll` runs over a finite list of them.
- Clocks (`Utc::now`, `Date.now`) are parameters. Timestamps are unbounded integers of milliseconds, so the `i64` range of `timestamp_millis` is not modelled.
- The date formatters are parameters: chrono `format`, `toLocaleString` and date-fns `format`. So is `new Date` parsing, given as an optional timestamp.
- `JSON.stringify` in the sidebar reconciliation is a parameter.
- The `Note` record holds the six fields that `save_note` sets. The optional `tags`, `capture_type`, `source_app` and `window_title` fields are never read by this core, so they are not modelled.
- NoteStore.SortByUpdatedDesc: the sort is proved sorted and a permutation, but not stable, as Rust's `sort_by` is. It is computed on a `seq`, not in place.
- The tab strip's `handleDeleteNote` and `handleExportNote`, the right sidebar's `handleRestore`, which writes the clipboard, and the navigation-only click handlers make one backend call or navigation each. They are not modelled.
- Rendering, styling, `localStorage` reads other than the recent-files list, toasts and console logging are not modelled.
- The note page's effects that only copy state into refs, and the content-sync effect of the editor, are not modelled.
