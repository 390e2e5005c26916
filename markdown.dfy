/**
 * The two Markdown serialisers of a note: the front end's `convertNoteToMarkdown`
 * and the backend's `convert_note_to_markdown`. Both push lines onto a list and
 * join it with line breaks; they share the layout and differ in the title
 * fallback, in the whitespace their `trim` removes, and in the date format,
 * which is a parameter of each.
 */
module Markdown {
  import opened Text
  import opened Notes

  /** One bullet per link, in order. */
  function LinkLines(links: seq<string>): seq<string>
  {
    seq(|links|, i requires 0 <= i < |links| => "- " + links[i])
  }

  /** The links section, absent when there are no links. */
  function LinksSection(links: seq<string>): seq<string>
  {
    if links == [] then [] else ["## Links", ""] + LinkLines(links) + [""]
  }

  /** The closing block. */
  function Footer(created: string, updated: string, id: string): seq<string>
  {
    ["---", "Created: " + created, "Updated: " + updated, "Note ID: " + id, "---"]
  }

  /** The heading, a blank line, and the content followed by a blank line when it is
      shown. */
  function Head(heading: string, showContent: bool, content: string): seq<string>
  {
    ["# " + heading, ""] + (if showContent then [content, ""] else [])
  }

  /** The layout both serialisers produce, line by line: the head, the links section,
      the footer. */
  function Layout(heading: string, showContent: bool, content: string, links: seq<string>,
                  created: string, updated: string, id: string): seq<string>
  {
    Head(heading, showContent, content) + LinksSection(links) + Footer(created, updated, id)
  }

  /** `note.title || "Untitled Note"` */
  function TsHeading(title: string): string
  {
    if title == "" then "Untitled Note" else title
  }

  /** The lines of the front-end serialiser; `localeString` stands for
      `new Date(…).toLocaleString()` applied to a timestamp. */
  function TsLines(note: Note, localeString: Timestamp -> string): seq<string>
  {
    Layout(TsHeading(note.title), !IsBlank(note.content), note.content, note.links,
      localeString(note.createdAt), localeString(note.updatedAt), note.id)
  }

  /** The lines of the backend serialiser; `format` stands for chrono's
      `%Y-%m-%d %H:%M:%S` formatting. */
  function RustLines(note: Note, format: Timestamp -> string): seq<string>
  {
    Layout(note.title, !IsRustBlank(note.content), note.content, note.links,
      format(note.createdAt), format(note.updatedAt), note.id)
  }

  /** Where every section of the layout sits: the number of lines is
      2 + 2·[content shown] + (n + 3)·[n > 0] + 5 for n links, and each line is at the
      offset that count implies. */
  lemma LayoutShape(heading: string, showContent: bool, content: string, links: seq<string>,
                    created: string, updated: string, id: string)
    ensures var l := Layout(heading, showContent, content, links, created, updated, id);
      var n := |links|;
      var k := 2 + (if showContent then 2 else 0);
      |l| == k + (if n > 0 then n + 3 else 0) + 5 &&
      l[0] == "# " + heading && l[1] == "" &&
      (showContent ==> l[2] == content && l[3] == "") &&
      (n > 0 ==> (l[k] == "## Links" && l[k + 1] == "" && l[k + 2 + n] == "" &&
        forall i | 0 <= i < n :: l[k + 2 + i] == "- " + links[i])) &&
      l[|l| - 5..] == Footer(created, updated, id) &&
      l[..k] == ["# " + heading, ""] + (if showContent then [content, ""] else [])
  {
    var head := Head(heading, showContent, content);
    var sec := LinksSection(links);
    var foot := Footer(created, updated, id);
    ConcatParts(head, sec, foot);
    if links != [] {
      LinksSectionShape(links);
    }
  }

  /** Each part of a three-part concatenation at its offset. */
  lemma ConcatParts<T>(a: seq<T>, b: seq<T>, c: seq<T>)
    ensures var l := a + b + c;
      |l| == |a| + |b| + |c| && l[..|a|] == a && l[|l| - |c|..] == c &&
      forall i | 0 <= i < |b| :: l[|a| + i] == b[i]
  {
  }

  /** The links section: its heading, a blank line, one bullet per link, a blank line. */
  lemma LinksSectionShape(links: seq<string>)
    requires links != []
    ensures var sec := LinksSection(links);
      |sec| == |links| + 3 && sec[0] == "## Links" && sec[1] == "" && sec[|links| + 2] == "" &&
      forall i | 0 <= i < |links| :: sec[2 + i] == "- " + links[i]
  {
  }

  /** The front end's first line carries the title, or "Untitled Note" for an empty
      one; the content (untrimmed) and a blank line follow exactly when the content
      is not blank. */
  lemma TsHeadAndContent(note: Note, localeString: Timestamp -> string)
    ensures var l := TsLines(note, localeString);
      l[0] == "# " + (if note.title == "" then "Untitled Note" else note.title) && l[1] == "" &&
      l[..2 + (if IsBlank(note.content) then 0 else 2)] ==
        ["# " + TsHeading(note.title), ""] + (if IsBlank(note.content) then [] else [note.content, ""])
  {
    LayoutShape(TsHeading(note.title), !IsBlank(note.content), note.content, note.links,
      localeString(note.createdAt), localeString(note.updatedAt), note.id);
  }

  /** The joined text: the first line, and a final line break followed by `---`, with no
      line break after it. */
  lemma JoinedEnds(lines: seq<string>)
    requires |lines| >= 2 && lines[|lines| - 1] == "---"
    ensures var md := Join(lines, "\n");
      StartsWith(md, lines[0] + "\n") && |md| >= 4 && md[|md| - 4..] == "\n---"
  {
    var init := lines[..|lines| - 1];
    assert lines == init + ["---"];
    JoinSnoc(init, "---", "\n");
    assert Join(lines, "\n") == lines[0] + "\n" + Join(lines[1..], "\n");
  }

  /** Both serialisers' text opens with the heading line and a line break and closes
      with a line break and `---`, with no line break after it. */
  lemma SerialisedFrame(note: Note, localeString: Timestamp -> string, format: Timestamp -> string)
    ensures var md := Join(TsLines(note, localeString), "\n");
      StartsWith(md, "# " + TsHeading(note.title) + "\n") && |md| >= 4 && md[|md| - 4..] == "\n---"
    ensures var md := Join(RustLines(note, format), "\n");
      StartsWith(md, "# " + note.title + "\n") && |md| >= 4 && md[|md| - 4..] == "\n---"
  {
    var ts := TsLines(note, localeString);
    var rs := RustLines(note, format);
    LayoutShape(TsHeading(note.title), !IsBlank(note.content), note.content, note.links,
      localeString(note.createdAt), localeString(note.updatedAt), note.id);
    LayoutShape(note.title, !IsRustBlank(note.content), note.content, note.links,
      format(note.createdAt), format(note.updatedAt), note.id);
    assert ts[|ts| - 1] == ts[|ts| - 5..][4];
    assert rs[|rs| - 1] == rs[|rs| - 5..][4];
    JoinedEnds(ts);
    JoinedEnds(rs);
  }

  /** Split at its line breaks, a serialised note whose pieces hold no line break gives
      back exactly the lines of the layout. */
  lemma LinesRoundTrip(lines: seq<string>)
    requires |lines| > 0
    requires forall i | 0 <= i < |lines| :: '\n' !in lines[i]
    ensures Split(Join(lines, "\n"), '\n') == lines
  {
    SplitJoinChar(lines, '\n');
  }

  /** With a non-empty title and content that both `trim`s agree on, the two
      serialisers write the same text when given the same date format. */
  lemma SerialisersAgree(note: Note, format: Timestamp -> string)
    requires note.title != ""
    requires IsBlank(note.content) == IsRustBlank(note.content)
    ensures TsLines(note, format) == RustLines(note, format)
    ensures Join(TsLines(note, format), "\n") == Join(RustLines(note, format), "\n")
  {
  }

  /** With an empty title the two differ in the first line only. */
  lemma UntitledHeadingDiffers(note: Note, format: Timestamp -> string)
    requires note.title == ""
    requires IsBlank(note.content) == IsRustBlank(note.content)
    ensures TsLines(note, format)[0] == "# " + "Untitled Note"
    ensures RustLines(note, format)[0] == "# "
    ensures TsLines(note, format)[1..] == RustLines(note, format)[1..]
  {
    LayoutTail(TsHeading(note.title), note.title, !IsBlank(note.content), note.content, note.links,
      format(note.createdAt), format(note.updatedAt), note.id);
  }

  /** Past the heading, the layout does not depend on the heading. */
  lemma LayoutTail(h1: string, h2: string, showContent: bool, content: string, links: seq<string>,
                   created: string, updated: string, id: string)
    ensures Layout(h1, showContent, content, links, created, updated, id)[1..] ==
      Layout(h2, showContent, content, links, created, updated, id)[1..]
  {
    var sec := LinksSection(links);
    var foot := Footer(created, updated, id);
    var a1 := Head(h1, showContent, content);
    var a2 := Head(h2, showContent, content);
    DropFirst(a1 + sec, foot);
    DropFirst(a1, sec);
    DropFirst(a2 + sec, foot);
    DropFirst(a2, sec);
    assert a1[1..] == a2[1..];
  }

  /** Dropping the first element of a concatenation drops it from the first part. */
  lemma DropFirst<T>(a: seq<T>, b: seq<T>)
    requires a != []
    ensures (a + b)[1..] == a[1..] + b
  {
  }

  /** The `trim`s disagree on two code points: a note whose content is a byte-order
      mark alone gets a content line from the backend only, and one whose content is
      a next-line character alone gets one from the front end only. */
  lemma TrimsDisagree(bom: Note, nel: Note, format: Timestamp -> string)
    requires bom.content == "\U{FEFF}" && nel.content == "\U{0085}"
    ensures |RustLines(bom, format)| == |TsLines(bom, format)| + 2
    ensures |TsLines(nel, format)| == |RustLines(nel, format)| + 2
  {
    assert bom.content[0] == '\U{FEFF}' && nel.content[0] == '\U{0085}';
    assert IsBlank(bom.content) && !IsRustWhitespace(bom.content[0]);
    assert !IsBlank(nel.content) && IsRustBlank(nel.content);
    LayoutShape(TsHeading(bom.title), false, bom.content, bom.links,
      format(bom.createdAt), format(bom.updatedAt), bom.id);
    LayoutShape(bom.title, true, bom.content, bom.links,
      format(bom.createdAt), format(bom.updatedAt), bom.id);
    LayoutShape(TsHeading(nel.title), true, nel.content, nel.links,
      format(nel.createdAt), format(nel.updatedAt), nel.id);
    LayoutShape(nel.title, false, nel.content, nel.links,
      format(nel.createdAt), format(nel.updatedAt), nel.id);
  }

  /** The `forEach` / `for` loop over the links, pushing one bullet each. */
  method PushLinkLines(lines: seq<string>, links: seq<string>) returns (r: seq<string>)
    ensures r == lines + LinkLines(links)
  {
    r := lines;
    var i := 0;
    while i < |links|
      invariant 0 <= i <= |links|
      invariant r == lines + LinkLines(links[..i])
    {
      LinkLinesSnoc(links[..i], links[i]);
      assert links[..i + 1] == links[..i] + [links[i]];
      r := r + ["- " + links[i]];
      i := i + 1;
    }
    assert links[..i] == links;
  }

  lemma LinkLinesSnoc(links: seq<string>, x: string)
    ensures LinkLines(links + [x]) == LinkLines(links) + ["- " + x]
  {
    var a := LinkLines(links + [x]);
    var b := LinkLines(links) + ["- " + x];
    assert |a| == |b|;
    assert forall i | 0 <= i < |a| :: a[i] == b[i];
  }

  /** The links section pushed line by line. */
  lemma LinksPushed(lines: seq<string>, links: seq<string>)
    requires links != []
    ensures lines + ["## Links"] + [""] + LinkLines(links) + [""] == lines + LinksSection(links)
  {
  }

  /** The footer pushed line by line. */
  lemma FooterPushed(lines: seq<string>, created: string, updated: string, id: string)
    ensures lines + ["---"] + ["Created: " + created] + ["Updated: " + updated] + ["Note ID: " + id] + ["---"]
      == lines + Footer(created, updated, id)
  {
  }

  /** `convertNoteToMarkdown(note)` in the front end. */
  method TsConvertNoteToMarkdown(note: Note, localeString: Timestamp -> string) returns (md: string)
    ensures md == Join(TsLines(note, localeString), "\n")
  {
    var lines: seq<string> := [];
    lines := lines + ["# " + (if note.title == "" then "Untitled Note" else note.title)];
    lines := lines + [""];
    ghost var head := ["# " + TsHeading(note.title), ""];
    if !IsBlank(note.content) {
      lines := lines + [note.content];
      lines := lines + [""];
      head := head + [note.content, ""];
    }
    assert lines == head;
    if |note.links| > 0 {
      ghost var beforeLinks := lines;
      lines := lines + ["## Links"];
      lines := lines + [""];
      lines := PushLinkLines(lines, note.links);
      lines := lines + [""];
      LinksPushed(beforeLinks, note.links);
    }
    assert lines == head + LinksSection(note.links);
    ghost var beforeFooter := lines;
    lines := lines + ["---"];
    lines := lines + ["Created: " + localeString(note.createdAt)];
    lines := lines + ["Updated: " + localeString(note.updatedAt)];
    lines := lines + ["Note ID: " + note.id];
    lines := lines + ["---"];
    FooterPushed(beforeFooter, localeString(note.createdAt), localeString(note.updatedAt), note.id);
    assert head == Head(TsHeading(note.title), !IsBlank(note.content), note.content);
    assert lines == TsLines(note, localeString);
    md := Join(lines, "\n");
  }

  /** `convert_note_to_markdown(note)` in the backend. */
  method RustConvertNoteToMarkdown(note: Note, format: Timestamp -> string) returns (md: string)
    ensures md == Join(RustLines(note, format), "\n")
  {
    var lines: seq<string> := [];
    lines := lines + ["# " + note.title];
    lines := lines + [""];
    ghost var head := ["# " + note.title, ""];
    if !IsRustBlank(note.content) {
      lines := lines + [note.content];
      lines := lines + [""];
      head := head + [note.content, ""];
    }
    assert lines == head;
    if |note.links| > 0 {
      ghost var beforeLinks := lines;
      lines := lines + ["## Links"];
      lines := lines + [""];
      lines := PushLinkLines(lines, note.links);
      lines := lines + [""];
      LinksPushed(beforeLinks, note.links);
    }
    assert lines == head + LinksSection(note.links);
    ghost var beforeFooter := lines;
    lines := lines + ["---"];
    lines := lines + ["Created: " + format(note.createdAt)];
    lines := lines + ["Updated: " + format(note.updatedAt)];
    lines := lines + ["Note ID: " + note.id];
    lines := lines + ["---"];
    FooterPushed(beforeFooter, format(note.createdAt), format(note.updatedAt), note.id);
    assert head == Head(note.title, !IsRustBlank(note.content), note.content);
    assert lines == RustLines(note, format);
    md := Join(lines, "\n");
  }
}
