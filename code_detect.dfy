/**
 * How the rich-text editor decides that pasted or dropped text is source code,
 * and how it reads a single Markdown code fence out of it.
 */
module CodeDetect {
  import opened Results
  import opened Text
  import opened Lists

  /** `/```/.test(text)` */
  predicate HasBackticks(t: string)
  {
    Contains(t, "```")
  }

  /** `text.split("\n").length >= 3`: at least two line breaks. */
  function IsMultiline(t: string): (r: bool)
    ensures r <==> Count(t, '\n') >= 2
  {
    |Split(t, '\n')| >= 3
  }

  /** `/^\s{2,}|\t/`: two leading whitespace characters, or a tab anywhere in the line. */
  predicate IsIndentedLine(l: string)
  {
    (|l| >= 2 && IsWhitespace(l[0]) && IsWhitespace(l[1])) || '\t' in l
  }

  /** At least two lines pass the indentation test. */
  predicate HasIndentedLines(t: string)
  {
    |Filter(Split(t, '\n'), IsIndentedLine)| >= 2
  }

  /** `kw\s+`: the word `kw` followed by at least one whitespace character, anywhere. */
  predicate ContainsKeyword(t: string, kw: string)
    decreases |t|
  {
    (StartsWith(t, kw) && |kw| < |t| && IsWhitespace(t[|kw|]))
    || (|t| > 0 && ContainsKeyword(t[1..], kw))
  }

  /** `/(;|\{|\}|=>|#include|import\s+|function\s+|class\s+)/.test(text)` */
  predicate HasCodeChars(t: string)
  {
    ';' in t || '{' in t || '}' in t || Contains(t, "=>") || Contains(t, "#include")
    || ContainsKeyword(t, "import") || ContainsKeyword(t, "function") || ContainsKeyword(t, "class")
  }

  /** The decision shared by paste and drop: fenced-looking, or several lines that are
      indented or carry code punctuation or keywords. */
  predicate IsCodeLike(t: string)
  {
    HasBackticks(t) || (IsMultiline(t) && (HasIndentedLines(t) || HasCodeChars(t)))
  }

  /** `\w`: ASCII letters, digits and `_`. */
  predicate IsWordChar(c: char)
  {
    ('a' <= c <= 'z') || ('A' <= c <= 'Z') || ('0' <= c <= '9') || c == '_'
  }

  predicate IsWord(s: string)
  {
    forall i | 0 <= i < |s| :: IsWordChar(s[i])
  }

  /** Length of the longest prefix of word characters. */
  function WordRun(s: string): (n: nat)
    ensures n <= |s|
    ensures forall i | 0 <= i < n :: IsWordChar(s[i])
    ensures n < |s| ==> !IsWordChar(s[n])
  {
    if s != [] && IsWordChar(s[0]) then 1 + WordRun(s[1..]) else 0
  }

  /** The two capture groups of the fence pattern; JavaScript leaves a group that took
      no part in the match `undefined`. */
  datatype FenceMatch = FenceMatch(language: Option<string>, body: Option<string>)

  /** `trimmed.match(/^```(\w+)?\n([\s\S]*?)\n```$/)`. The word run after the opening
      backticks is all-or-nothing, since giving back a word character can never produce
      the `\n` that must follow; with the pattern anchored at both ends the lazy body
      can only stop at the final `\n````. */
  function MatchFence(s: string): (r: Option<FenceMatch>)
    ensures r.Some? ==> r.value.body.Some?
    ensures r.Some? ==> |s| >= 8 && StartsWith(s, "```")
  {
    if !StartsWith(s, "```") then None
    else
      var w := WordRun(s[3..]);
      if 3 + w < |s| && s[3 + w] == '\n' && 3 + w + 1 + 4 <= |s| && s[|s| - 4..] == "\n```" then
        Some(FenceMatch(if w > 0 then Some(s[3..3 + w]) else None, Some(s[3 + w + 1..|s| - 4])))
      else None
  }

  /** A fence holding the language word `w` (possibly empty) and the body `b`. */
  function Fence(w: string, b: string): string
  {
    "```" + w + "\n" + b + "\n```"
  }

  /** What the pattern matches is exactly a fence: backticks, an optional word, a line
      break, the body, a line break and backticks. */
  lemma MatchFenceShape(s: string)
    requires MatchFence(s).Some?
    ensures var m := MatchFence(s).value;
      (m.language.None? || (m.language.value != [] && IsWord(m.language.value))) &&
      s == Fence(m.language.GetOr(""), m.body.value)
  {
    var w := WordRun(s[3..]);
    var m := MatchFence(s).value;
    var lang := m.language.GetOr("");
    assert lang == s[3..3 + w];
    assert s == s[..3] + s[3..3 + w] + [s[3 + w]] + s[3 + w + 1..|s| - 4] + s[|s| - 4..];
  }

  /** Every fence is matched, with its word as the language and its body as the body. */
  lemma FenceMatches(w: string, b: string)
    requires IsWord(w)
    ensures MatchFence(Fence(w, b)) == Some(FenceMatch(if w == [] then None else Some(w), Some(b)))
  {
    var s := Fence(w, b);
    assert s[..3] == "```";
    assert s[3..] == w + "\n" + b + "\n```";
    WordRunAt(s[3..], |w|);
    assert s[3 + |w|] == '\n';
    assert s[|s| - 4..] == "\n```";
    assert s[3..3 + |w|] == w;
    assert s[3 + |w| + 1..|s| - 4] == b;
  }

  lemma WordRunAt(s: string, n: nat)
    requires n <= |s|
    requires forall i | 0 <= i < n :: IsWordChar(s[i])
    requires n < |s| ==> !IsWordChar(s[n])
    ensures WordRun(s) == n
  {
  }

  /** Two fences one after the other match as one fence: the language is the first
      one's and the body runs from the first body to the last, inner fence lines included. */
  lemma ConsecutiveFencesMatchAsOne(w1: string, b1: string, sep: string, w2: string, b2: string)
    requires IsWord(w1)
    ensures MatchFence(Fence(w1, b1) + sep + Fence(w2, b2)) ==
      Some(FenceMatch(if w1 == [] then None else Some(w1), Some(b1 + "\n```" + sep + "```" + w2 + "\n" + b2)))
  {
    var b := b1 + "\n```" + sep + "```" + w2 + "\n" + b2;
    assert Fence(w1, b1) + sep + Fence(w2, b2) == Fence(w1, b);
    FenceMatches(w1, b);
  }

  /** A fence with an empty body still matches, with an empty body. */
  lemma EmptyFenceBody(w: string)
    requires IsWord(w)
    ensures MatchFence("```" + w + "\n\n```") == Some(FenceMatch(if w == [] then None else Some(w), Some("")))
  {
    assert "```" + w + "\n\n```" == Fence(w, "");
    FenceMatches(w, "");
  }

  /** The closing marker cannot share its line break with the opening one. */
  lemma BareTicksDoNotMatch(s: string)
    requires s == "```\n```"
    ensures MatchFence(s).None?
  {
    WordRunAt(s[3..], 0);
  }

  /** The fence ```` ```js ```` around `console.log(1)` gives language `js` and that body. */
  lemma JsFenceExample(s: string)
    requires s == "```js\nconsole.log(1)\n```"
    ensures MatchFence(s) == Some(FenceMatch(Some("js"), Some("console.log(1)")))
  {
    assert s == Fence("js", "console.log(1)");
    assert IsWord("js");
    FenceMatches("js", "console.log(1)");
  }

  /** `trimmed.replace(/```/g, "")`: every occurrence of three backticks removed, left to right. */
  function RemoveTicks(s: string): (r: string)
    ensures |r| <= |s|
    decreases |s|
  {
    if StartsWith(s, "```") then RemoveTicks(s[3..])
    else if s == [] then []
    else [s[0]] + RemoveTicks(s[1..])
  }

  predicate IsNotTick(c: char) { c != '`' }

  /** The replacement removes backticks only: every other character is kept, in order. */
  lemma {:induction false} RemoveTicksKeepsText(s: string)
    ensures Filter(RemoveTicks(s), IsNotTick) == Filter(s, IsNotTick)
    decreases |s|
  {
    if StartsWith(s, "```") {
      RemoveTicksKeepsText(s[3..]);
      assert s == s[..3] + s[3..];
      FilterAppend(s[..3], s[3..], IsNotTick);
      assert s[..3] == "```";
      assert Filter(s[..3], IsNotTick) == [];
    } else if s != [] {
      RemoveTicksKeepsText(s[1..]);
      assert s == [s[0]] + s[1..];
      FilterAppend([s[0]], s[1..], IsNotTick);
      FilterAppend([s[0]], RemoveTicks(s[1..]), IsNotTick);
    }
  }

  /** `fenceMatch[2] ?? trimmed.replace(/```/g, "").trim()` */
  function FenceBody(m: FenceMatch, trimmed: string): string
  {
    match m.body
    case Some(b) => b
    case None => Trim(RemoveTicks(trimmed))
  }

  /** The `??` fallback never runs: a successful match always captures the body. */
  lemma FenceBodyIsCapture(trimmed: string)
    requires MatchFence(trimmed).Some?
    ensures FenceBody(MatchFence(trimmed).value, trimmed) == MatchFence(trimmed).value.body.value
  {
  }

  /** Text whose trimmed form is a fence contains three backticks, so it is always
      code-like. */
  lemma FencedIsCodeLike(t: string)
    requires MatchFence(Trim(t)).Some?
    ensures IsCodeLike(t)
  {
    assert Trim(t)[..3] == "```";
    ContainsAt(Trim(t), "```", 0);
    ContainsOfTrim(t, "```");
  }

  /** Several lines each containing a tab count as indented, however the tab is placed. */
  lemma TabLinesAreIndented(a: string, b: string)
    requires '\n' !in a && '\n' !in b && '\t' in a && '\t' in b
    ensures HasIndentedLines(a + "\n" + b)
  {
    assert a + "\n" + b == a + ['\n'] + b;
    SplitAppend(a, b, '\n');
    SplitNoSeparator(a, '\n');
    SplitNoSeparator(b, '\n');
    assert Filter([a, b], IsIndentedLine) == [a, b] by {
      FilterAll([a, b], IsIndentedLine);
    }
  }

  /** A single line is never code-like unless it contains three backticks, whatever
      punctuation or indentation it has. */
  lemma SingleLineNeedsBackticks(t: string)
    requires '\n' !in t
    ensures IsCodeLike(t) <==> HasBackticks(t)
  {
    CountAbsent(t, '\n');
  }

  lemma {:induction false} CountAbsent(s: string, c: char)
    requires c !in s
    ensures Count(s, c) == 0
  {
    if s != [] {
      assert c !in s[1..];
      CountAbsent(s[1..], c);
    }
  }
}
