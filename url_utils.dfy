/**
 * The URL toolkit of the web front end: a layered validator, a scheme-adding
 * normaliser, the comma-separated list format a note's links are stored in,
 * a de-duplicating append, and the domain shown next to each link.
 */
module UrlUtils {
  import opened Results
  import opened Text
  import opened Lists

  /** The WHATWG URL parser behind `new URL(s)`: `Some(hostname)` when it accepts `s`,
      `None` when the constructor throws. Nothing is assumed about which strings it accepts. */
  type UrlParser = string -> Option<string>

  predicate IsAsciiLetter(c: char) { ('a' <= c <= 'z') || ('A' <= c <= 'Z') }
  predicate IsAsciiAlnum(c: char) { IsAsciiLetter(c) || ('0' <= c <= '9') }
  /** `[a-zA-Z0-9-]` */
  predicate IsLabelChar(c: char) { IsAsciiAlnum(c) || c == '-' }

  /** Length of the longest prefix of `s` made of host characters. */
  function LabelRun(s: string): (n: nat)
    ensures n <= |s|
    ensures forall i | 0 <= i < n :: IsLabelChar(s[i])
    ensures n < |s| ==> !IsLabelChar(s[n])
  {
    if s != [] && IsLabelChar(s[0]) then 1 + LabelRun(s[1..]) else 0
  }

  /** Length of the longest prefix of `s` made of ASCII letters. */
  function LetterRun(s: string): (n: nat)
    ensures n <= |s|
    ensures forall i | 0 <= i < n :: IsAsciiLetter(s[i])
    ensures n < |s| ==> !IsAsciiLetter(s[n])
  {
    if s != [] && IsAsciiLetter(s[0]) then 1 + LetterRun(s[1..]) else 0
  }

  predicate NoLineTerminator(s: string)
  {
    forall i | 0 <= i < |s| :: !IsLineTerminator(s[i])
  }

  /** The regular expression `^[a-zA-Z0-9][a-zA-Z0-9-]*[a-zA-Z0-9]*\.([a-zA-Z]{2,})(\/.*)?$`,
      decided by scanning: the host ends at the first character that is not a host
      character, which must be the dot; the TLD is the run of letters after it; then the
      text must end or continue with `/` and a rest free of line terminators. */
  predicate DomainPattern(s: string)
  {
    |s| > 0 && IsAsciiAlnum(s[0]) &&
    var k := 1 + LabelRun(s[1..]);
    k < |s| && s[k] == '.' &&
    var m := k + 1 + LetterRun(s[k + 1..]);
    m >= k + 3 && (m == |s| || (s[m] == '/' && NoLineTerminator(s[m + 1..])))
  }

  /** `^www\.` followed by the domain pattern. */
  predicate WwwPattern(s: string)
  {
    StartsWith(s, "www.") && DomainPattern(s[4..])
  }

  /** The shape the domain pattern describes, stated as a grammar: one host, a dot,
      a TLD of two or more letters, and an optional path. */
  predicate IsLabel(s: string)
  {
    |s| > 0 && IsAsciiAlnum(s[0]) && forall i | 0 <= i < |s| :: IsLabelChar(s[i])
  }

  predicate IsTld(s: string)
  {
    |s| >= 2 && forall i | 0 <= i < |s| :: IsAsciiLetter(s[i])
  }

  predicate IsPathPart(s: string)
  {
    s == [] || (s[0] == '/' && NoLineTerminator(s[1..]))
  }

  ghost predicate DomainShape(s: string)
  {
    exists k, m | 0 < k < m <= |s| :: IsLabel(s[..k]) && s[k] == '.' && IsTld(s[k + 1..m]) && IsPathPart(s[m..])
  }

  /** Everything the scanner accepts has the grammar's shape. */
  lemma DomainPatternHasShape(s: string)
    requires DomainPattern(s)
    ensures DomainShape(s)
  {
    var k := 1 + LabelRun(s[1..]);
    var m := k + 1 + LetterRun(s[k + 1..]);
    assert IsLabel(s[..k]);
    assert IsTld(s[k + 1..m]);
    assert IsPathPart(s[m..]) by {
      if m < |s| { assert s[m..][1..] == s[m + 1..]; }
    }
  }

  /** Everything of the grammar's shape is accepted by the scanner. */
  lemma ShapeMatchesDomainPattern(s: string, k: nat, m: nat)
    requires 0 < k < m <= |s|
    requires IsLabel(s[..k]) && s[k] == '.' && IsTld(s[k + 1..m]) && IsPathPart(s[m..])
    ensures DomainPattern(s)
  {
    forall i | 0 <= i < k - 1
      ensures IsLabelChar(s[1..][i])
    {
      assert s[1..][i] == s[..k][i + 1];
    }
    assert !IsLabelChar(s[1..][k - 1]) by { assert s[1..][k - 1] == s[k]; }
    LabelRunAt(s[1..], k - 1);
    var t := s[k + 1..];
    forall i | 0 <= i < m - k - 1
      ensures IsAsciiLetter(t[i])
    {
      assert t[i] == s[k + 1..m][i];
    }
    if m < |s| {
      assert t[m - k - 1] == s[m..][0] == '/';
      assert s[m..][1..] == s[m + 1..];
    }
    LetterRunAt(t, m - k - 1);
  }

  /** The scanner decides exactly the grammar. */
  lemma DomainPatternIsShape(s: string)
    ensures DomainPattern(s) <==> DomainShape(s)
  {
    if DomainPattern(s) {
      DomainPatternHasShape(s);
    }
    if DomainShape(s) {
      var k, m :| 0 < k < m <= |s| && IsLabel(s[..k]) && s[k] == '.' && IsTld(s[k + 1..m]) && IsPathPart(s[m..]);
      ShapeMatchesDomainPattern(s, k, m);
    }
  }

  lemma LabelRunAt(s: string, n: nat)
    requires n <= |s|
    requires forall i | 0 <= i < n :: IsLabelChar(s[i])
    requires n < |s| ==> !IsLabelChar(s[n])
    ensures LabelRun(s) == n
  {
  }

  lemma LetterRunAt(s: string, n: nat)
    requires n <= |s|
    requires forall i | 0 <= i < n :: IsAsciiLetter(s[i])
    requires n < |s| ==> !IsAsciiLetter(s[n])
    ensures LetterRun(s) == n
  {
  }

  /** The 27 top-level domains a bare domain is accepted with. */
  const CommonTlds: seq<string> := [
    "com", "org", "net", "edu", "gov", "io", "co", "uk", "de", "fr", "jp", "au", "ai", "dev",
    "app", "tech", "me", "ly", "tv", "cc", "xyz", "ca", "us", "ru", "cn", "br", "in"]

  /** The last `.`-separated segment, cut at the first `/`, `?` and `#`, lower-cased. */
  function TldOf(t: string): string
  {
    var parts := Split(t, '.');
    Lower(Split(Split(Split(parts[|parts| - 1], '/')[0], '?')[0], '#')[0])
  }

  /** The checks made before the parser is tried: a single line of 4 to 2048 characters,
      with no space unless `%20` also occurs. */
  predicate PassesBasicChecks(t: string)
  {
    !('\n' in t || '\r' in t || |t| > 2048 || |t| < 4) && !(' ' in t && !Contains(t, "%20"))
  }

  /** The verdict of the regular-expression fallback used when the parser throws. */
  predicate FallbackAccepts(t: string)
  {
    if WwwPattern(t) then true
    else if DomainPattern(t) then TldOf(t) in CommonTlds || '/' in t || '?' in t || '#' in t
    else false
  }

  /** `isValidUrl(text)`. */
  function IsValidUrl(text: string, parse: UrlParser): (r: bool)
    ensures r ==> 4 <= |Trim(text)| <= 2048 && '\n' !in Trim(text) && '\r' !in Trim(text)
    ensures r && ' ' in Trim(text) ==> Contains(Trim(text), "%20")
    ensures r && parse(Trim(text)).None? ==> WwwPattern(Trim(text)) || DomainPattern(Trim(text))
  {
    var t := Trim(text);
    PassesBasicChecks(t) && (parse(t).Some? || FallbackAccepts(t))
  }

  predicate HasScheme(t: string)
  {
    StartsWith(t, "http://") || StartsWith(t, "https://")
  }

  /** `normalizeUrl(url)`: the trimmed text, with `https://` in front when it has no
      scheme and starts with `www.` or looks like a domain. */
  function NormalizeUrl(url: string): (r: string)
    ensures r == Trim(url) || r == "https://" + Trim(url)
    ensures IsTrimmed(r)
  {
    var t := Trim(url);
    if HasScheme(t) then t
    else if StartsWith(t, "www.") || ('.' in t && ' ' !in t && |t| > 4) then
      PrefixKeepsTrimmed("https://", t);
      "https://" + t
    else t
  }

  /** The scheme is added exactly when the trimmed text lacks one and starts with `www.`
      or contains a dot, no space and more than four characters. */
  lemma NormalizePrefixesExactly(url: string)
    ensures NormalizeUrl(url) == "https://" + Trim(url) <==>
      !HasScheme(Trim(url)) &&
      (StartsWith(Trim(url), "www.") || ('.' in Trim(url) && ' ' !in Trim(url) && |Trim(url)| > 4))
  {
    var t := Trim(url);
    assert |"https://" + t| != |t|;
  }

  lemma NormalizeIdempotent(url: string)
    ensures NormalizeUrl(NormalizeUrl(url)) == NormalizeUrl(url)
  {
    var t := Trim(url);
    var n := NormalizeUrl(url);
    TrimOfTrimmed(n);
    if n != t {
      assert n == "https://" + t;
      assert n[..8] == "https://";
    }
  }

  /** What `parseUrls` produces and `joinUrls` can carry: a non-empty, comma-free,
      trimmed, already normalised URL. */
  predicate IsUrlEntry(x: string)
  {
    x != [] && ',' !in x && IsTrimmed(x) && NormalizeUrl(x) == x
  }

  function MapTrim(xs: seq<string>): (r: seq<string>)
    ensures |r| == |xs|
    ensures forall i | 0 <= i < |r| :: r[i] == Trim(xs[i])
  {
    if xs == [] then [] else [Trim(xs[0])] + MapTrim(xs[1..])
  }

  function MapNormalize(xs: seq<string>): (r: seq<string>)
    ensures |r| == |xs|
    ensures forall i | 0 <= i < |r| :: r[i] == NormalizeUrl(xs[i])
  {
    if xs == [] then [] else [NormalizeUrl(xs[0])] + MapNormalize(xs[1..])
  }

  predicate IsNonEmpty(x: string) { |x| > 0 }

  /** `parseUrls(s)`: split on commas, trim, drop empty pieces, normalise. */
  function ParseUrls(s: string): (r: seq<string>)
    ensures |r| <= 1 + Count(s, ',')
    ensures forall i | 0 <= i < |r| :: IsUrlEntry(r[i])
  {
    if Trim(s) == [] then []
    else
      var pieces := Split(s, ',');
      var kept := Filter(MapTrim(pieces), IsNonEmpty);
      var r := MapNormalize(kept);
      forall i | 0 <= i < |r| ensures IsUrlEntry(r[i]) {
        NormalizeIsEntry(kept[i]);
      }
      r
  }

  /** Normalising a trimmed, non-empty, comma-free piece gives a list entry. */
  lemma NormalizeIsEntry(x: string)
    requires x != [] && ',' !in x && IsTrimmed(x)
    ensures IsUrlEntry(NormalizeUrl(x))
  {
    TrimOfTrimmed(x);
    NormalizeIdempotent(x);
    var n := NormalizeUrl(x);
    assert n == x || n == "https://" + x;
    assert ',' !in "https://";
  }

  lemma BlankParsesEmpty(s: string)
    requires IsBlank(s)
    ensures ParseUrls(s) == []
  {
    TrimEmptyIffBlank(s);
  }

  /** `joinUrls(xs)`. */
  function JoinUrls(xs: seq<string>): string
  {
    Join(xs, ", ")
  }

  /** Every entry after the first, with the space the separator leaves in front. */
  function Spaced(xs: seq<string>): (r: seq<string>)
    ensures |r| == |xs|
    ensures forall i | 0 <= i < |r| :: r[i] == " " + xs[i]
  {
    if xs == [] then [] else [" " + xs[0]] + Spaced(xs[1..])
  }

  lemma {:induction false} SplitJoin(xs: seq<string>)
    requires |xs| > 0
    requires forall i | 0 <= i < |xs| :: ',' !in xs[i]
    ensures Split(JoinUrls(xs), ',') == [xs[0]] + Spaced(xs[1..])
  {
    if |xs| == 1 {
      SplitNoSeparator(xs[0], ',');
    } else {
      var rest := Join(xs[1..], ", ");
      assert JoinUrls(xs) == xs[0] + [','] + (" " + rest);
      SplitAppend(xs[0], " " + rest, ',');
      SplitNoSeparator(xs[0], ',');
      SplitJoin(xs[1..]);
      assert Split(rest, ',') == [xs[1]] + Spaced(xs[2..]) by {
        assert xs[1..][0] == xs[1] && xs[1..][1..] == xs[2..];
      }
      SplitCons(' ', rest, ',');
      assert Split(" " + rest, ',') == Spaced(xs[1..]);
    }
  }

  /** The serialiser pair round-trips every list of entries. */
  lemma ParseJoinRoundTrip(xs: seq<string>)
    requires forall i | 0 <= i < |xs| :: IsUrlEntry(xs[i])
    ensures ParseUrls(JoinUrls(xs)) == xs
  {
    if xs == [] {
      assert JoinUrls(xs) == "";
    } else {
      var s := JoinUrls(xs);
      JoinHasEntry(xs);
      TrimEmptyIffBlank(s);
      SplitJoin(xs);
      TrimPieces(xs);
      FilterAll(xs, IsNonEmpty);
      NormalizeEntries(xs);
    }
  }

  lemma TrimPieces(xs: seq<string>)
    requires |xs| > 0
    requires forall i | 0 <= i < |xs| :: IsUrlEntry(xs[i])
    ensures MapTrim([xs[0]] + Spaced(xs[1..])) == xs
  {
    var pieces := [xs[0]] + Spaced(xs[1..]);
    forall i | 0 <= i < |pieces| ensures Trim(pieces[i]) == xs[i] {
      if i == 0 { TrimOfTrimmed(xs[0]); } else { TrimAfterSpace(xs[i]); }
    }
  }

  lemma NormalizeEntries(xs: seq<string>)
    requires forall i | 0 <= i < |xs| :: IsUrlEntry(xs[i])
    ensures MapNormalize(xs) == xs
  {
  }

  /** A join of entries is never blank: it starts with the first entry. */
  lemma JoinHasEntry(xs: seq<string>)
    requires |xs| > 0 && IsUrlEntry(xs[0])
    ensures !IsBlank(JoinUrls(xs))
  {
    assert JoinUrls(xs)[0] == xs[0][0];
  }

  /** Reading back what was written gives the same list. */
  lemma ParseJoinParse(s: string)
    ensures ParseUrls(JoinUrls(ParseUrls(s))) == ParseUrls(s)
  {
    ParseJoinRoundTrip(ParseUrls(s));
  }

  /** `addUrlToUrls(xs, u)`: the normalised URL appended unless it is already there. */
  function AddUrlToUrls(xs: seq<string>, u: string): (r: seq<string>)
    ensures xs <= r && NormalizeUrl(u) in r
    ensures |r| == if NormalizeUrl(u) in xs then |xs| else |xs| + 1
  {
    var n := NormalizeUrl(u);
    if n in xs then xs else xs + [n]
  }

  lemma AddUrlIdempotent(xs: seq<string>, u: string)
    ensures AddUrlToUrls(AddUrlToUrls(xs, u), u) == AddUrlToUrls(xs, u)
  {
  }

  lemma AddUrlKeepsNoDuplicates(xs: seq<string>, u: string)
    requires NoDuplicates(xs)
    ensures NoDuplicates(AddUrlToUrls(xs, u))
  {
  }

  /** Adding to a parsed list keeps it a list of entries, so the result survives `joinUrls`. */
  lemma {:induction false} AddUrlKeepsEntries(xs: seq<string>, u: string)
    requires forall i | 0 <= i < |xs| :: IsUrlEntry(xs[i])
    requires ',' !in u && !IsBlank(u)
    ensures forall i | 0 <= i < |AddUrlToUrls(xs, u)| :: IsUrlEntry(AddUrlToUrls(xs, u)[i])
  {
    var t := Trim(u);
    TrimEmptyIffBlank(u);
    assert ',' !in t by {
      TrimIsSlice(u);
    }
    NormalizeIdempotent(u);
    NormalizeIsEntry(t);
    TrimIdempotent(u);
  }

  /** Trimming keeps a contiguous part of the text, so it adds no character. */
  lemma TrimIsSlice(s: string)
    ensures forall c | c in Trim(s) :: c in s
  {
    var t := TrimStart(s);
    assert forall c | c in TrimEnd(t) :: c in t;
    assert forall c | c in t :: c in s;
  }

  /** Whitespace around the text, a trailing newline included, is trimmed away before
      any check, so it never changes the verdict. */
  lemma ValidityIgnoresTrailingWhitespace(text: string, w: char, parse: UrlParser)
    requires IsWhitespace(w)
    ensures IsValidUrl(text + [w], parse) == IsValidUrl(text, parse)
  {
    TrimDropsTrailingWhitespace(text, w);
  }

  lemma ValidityIgnoresLeadingWhitespace(text: string, w: char, parse: UrlParser)
    requires IsWhitespace(w)
    ensures IsValidUrl([w] + text, parse) == IsValidUrl(text, parse)
  {
    assert ([w] + text)[1..] == text;
  }

  /** Text accepted by the regular-expression fallback rather than the parser is given the
      `https://` scheme by the normaliser unless it is a bare domain that contains a space
      or has exactly four characters. */
  lemma FallbackAcceptedGetsScheme(text: string, parse: UrlParser)
    requires IsValidUrl(text, parse) && parse(Trim(text)).None?
    ensures WwwPattern(Trim(text)) || (' ' !in Trim(text) && |Trim(text)| > 4)
      ==> NormalizeUrl(text) == "https://" + Trim(text)
  {
    var t := Trim(text);
    PatternHasNoScheme(t);
    PatternHasDot(t);
    NormalizePrefixesExactly(text);
  }

  /** Neither pattern lets a scheme through: a label character or the dot sits where the
      colon of `http://` or `https://` would be. */
  lemma PatternHasNoScheme(t: string)
    requires WwwPattern(t) || DomainPattern(t)
    ensures !HasScheme(t)
  {
    if WwwPattern(t) {
      WwwHasNoScheme(t);
    } else {
      DomainHasNoScheme(t);
    }
  }

  lemma PatternHasDot(t: string)
    requires WwwPattern(t) || DomainPattern(t)
    ensures '.' in t
  {
    if WwwPattern(t) {
      assert t[..4][3] == t[3];
    } else {
      DomainHead(t);
    }
  }

  lemma WwwHasNoScheme(t: string)
    requires StartsWith(t, "www.")
    ensures !HasScheme(t)
  {
    assert t[0] == 'w';
    assert |t| >= 7 ==> t[..7][0] == t[0];
    assert |t| >= 8 ==> t[..8][0] == t[0];
  }

  /** Every character before the end of the TLD is a label character or the dot. */
  lemma DomainHead(t: string)
    requires DomainPattern(t)
    ensures var k := 1 + LabelRun(t[1..]); var m := k + 1 + LetterRun(t[k + 1..]);
      4 <= m <= |t| && k + 3 <= m && t[k] == '.' &&
      forall j | 0 <= j < m :: IsLabelChar(t[j]) || t[j] == '.'
  {
    var k := 1 + LabelRun(t[1..]);
    var m := k + 1 + LetterRun(t[k + 1..]);
    forall j | 0 <= j < m ensures IsLabelChar(t[j]) || t[j] == '.' {
      if 0 < j < k { assert t[j] == t[1..][j - 1]; }
      else if k < j { assert t[j] == t[k + 1..][j - k - 1]; }
    }
  }

  lemma DomainHasNoScheme(t: string)
    requires DomainPattern(t)
    ensures !HasScheme(t)
  {
    DomainHead(t);
    var k := 1 + LabelRun(t[1..]);
    if |t| >= 7 {
      assert t[..7][1] == t[1] && t[..7][4] == t[4];
    }
    if |t| >= 8 {
      assert t[..8][1] == t[1] && t[..8][2] == t[2] && t[..8][5] == t[5];
    }
  }

  /** The TLD of a bare domain without a path is the letters after its dot, lower-cased. */
  lemma TldOfLabelDotLetters(host: string, tld: string)
    requires IsLabel(host) && IsTld(tld)
    ensures TldOf(host + "." + tld) == Lower(tld)
  {
    var t := host + "." + tld;
    assert forall i | 0 <= i < |host| :: host[i] != '.';
    assert forall i | 0 <= i < |tld| :: tld[i] != '.' && tld[i] != '/' && tld[i] != '?' && tld[i] != '#';
    assert t == host + ['.'] + tld;
    SplitAppend(host, tld, '.');
    SplitNoSeparator(host, '.');
    SplitNoSeparator(tld, '.');
    SplitNoSeparator(tld, '/');
    SplitNoSeparator(tld, '?');
    SplitNoSeparator(tld, '#');
  }

  /** Trimmed text that passes the basic checks and the fallback is valid for every parser. */
  lemma ValidByFallback(t: string, parse: UrlParser)
    requires IsTrimmed(t) && PassesBasicChecks(t) && FallbackAccepts(t)
    ensures IsValidUrl(t, parse)
  {
    TrimOfTrimmed(t);
  }

  /** A host, a dot and a TLD: no whitespace, no line break, no space anywhere. */
  lemma BareDomainChars(host: string, tld: string)
    requires IsLabel(host) && IsTld(tld)
    ensures var t := host + "." + tld;
      forall i | 0 <= i < |t| :: IsLabelChar(t[i]) || t[i] == '.'
  {
    var t := host + "." + tld;
    forall i | 0 <= i < |t| ensures IsLabelChar(t[i]) || t[i] == '.' {
      if i < |host| { assert t[i] == host[i]; }
      else if i > |host| { assert t[i] == tld[i - |host| - 1]; }
    }
  }

  /** Text made of host characters and dots passes the basic checks and is already trimmed. */
  lemma HostCharsPassBasicChecks(t: string)
    requires 4 <= |t| <= 2048
    requires forall i | 0 <= i < |t| :: IsLabelChar(t[i]) || t[i] == '.'
    ensures PassesBasicChecks(t) && IsTrimmed(t)
  {
    hide Contains;
    assert !IsWhitespace(t[0]) && !IsWhitespace(t[|t| - 1]);
    assert '\n' !in t && '\r' !in t && ' ' !in t;
  }

  /** A bare domain with a listed TLD and no path passes the fallback. */
  lemma ListedBareDomainFallback(host: string, tld: string)
    requires IsLabel(host) && IsTld(tld) && Lower(tld) in CommonTlds
    ensures FallbackAccepts(host + "." + tld)
  {
    var t := host + "." + tld;
    assert t[..|host|] == host && t[|host| + 1..|t|] == tld && t[|t|..] == "";
    ShapeMatchesDomainPattern(t, |host|, |t|);
    TldOfLabelDotLetters(host, tld);
  }

  /** A bare domain with a listed TLD and no path is valid for every parser. */
  lemma ListedBareDomainIsValid(host: string, tld: string, parse: UrlParser)
    requires IsLabel(host) && IsTld(tld) && Lower(tld) in CommonTlds
    requires |host| + 1 + |tld| <= 2048
    ensures IsValidUrl(host + "." + tld, parse)
  {
    var t := host + "." + tld;
    BareDomainChars(host, tld);
    HostCharsPassBasicChecks(t);
    ListedBareDomainFallback(host, tld);
    ValidByFallback(t, parse);
  }

  /** A TLD followed by a path is not a bare domain: the host run ends where the dot
      would have to be. So `www.` followed by a TLD never matches the `www.` pattern. */
  lemma TldPathNotDomain(tld: string, rest: string)
    requires IsTld(tld) && IsPathPart(rest)
    ensures !DomainPattern(tld + rest)
  {
    var s := tld + rest;
    forall i | 0 <= i < |tld| - 1
      ensures IsLabelChar(s[1..][i])
    {
      assert s[1..][i] == tld[i + 1];
    }
    if rest != [] {
      assert s[1..][|tld| - 1] == rest[0];
    }
    LabelRunAt(s[1..], |tld| - 1);
    if |tld| < |s| {
      assert s[|tld|] == rest[0] == '/';
    }
  }

  /** `host.tld` with an optional `/…` is accepted by the bare-domain pattern and,
      the TLD being followed by no dot, never by the `www.` pattern. */
  lemma BareDomainPatterns(host: string, tld: string, rest: string)
    requires IsLabel(host) && IsTld(tld) && IsPathPart(rest)
    ensures DomainPattern(host + "." + tld + rest) && !WwwPattern(host + "." + tld + rest)
  {
    var t := host + "." + tld + rest;
    var k := |host|;
    var m := k + 1 + |tld|;
    assert t[..k] == host && t[k] == '.' && t[k + 1..m] == tld && t[m..] == rest;
    ShapeMatchesDomainPattern(t, k, m);
    if StartsWith(t, "www.") {
      assert t[..4] == "www.";
      forall i | 0 <= i < 3
        ensures t[i] == 'w'
      {
        assert t[i] == t[..4][i];
      }
      assert t[3] == '.' by { assert t[3] == t[..4][3]; }
      assert forall i | 0 <= i < k :: t[i] == host[i];
      assert k == 3;
      assert t[4..] == tld + rest;
      TldPathNotDomain(tld, rest);
    }
  }

  /** The parts of the fallback verdict for `host.tld` with an optional `/…`: without a
      path the TLD read back is the lower-cased `tld` and no `/`, `?` or `#` occurs;
      with one, `/` occurs. */
  lemma BareDomainSeparators(host: string, tld: string, rest: string)
    requires IsLabel(host) && IsTld(tld) && IsPathPart(rest)
    ensures var t := host + "." + tld + rest;
      if rest == [] then TldOf(t) == Lower(tld) && '/' !in t && '?' !in t && '#' !in t
      else '/' in t
  {
    var t := host + "." + tld + rest;
    if rest == [] {
      assert t == host + "." + tld;
      TldOfLabelDotLetters(host, tld);
      BareDomainChars(host, tld);
    } else {
      assert t[|host| + 1 + |tld|] == '/';
    }
  }

  /** The verdict on a bare domain `host.tld` with an optional `/…` when the parser
      rejects it: valid exactly when a path follows or the lower-cased TLD is one of
      the 27 listed. */
  lemma BareDomainVerdict(host: string, tld: string, rest: string, parse: UrlParser)
    requires IsLabel(host) && IsTld(tld) && IsPathPart(rest)
    requires IsTrimmed(host + "." + tld + rest) && PassesBasicChecks(host + "." + tld + rest)
    requires parse(host + "." + tld + rest).None?
    ensures IsValidUrl(host + "." + tld + rest, parse) <==> rest != [] || Lower(tld) in CommonTlds
  {
    var t := host + "." + tld + rest;
    TrimOfTrimmed(t);
    BareDomainPatterns(host, tld, rest);
    BareDomainSeparators(host, tld, rest);
    hide TldOf, DomainPattern, WwwPattern, PassesBasicChecks, Trim;
    assert IsValidUrl(t, parse) == FallbackAccepts(t);
  }

  /** `isValidUrl("example.zz")` is false when the parser rejects it: `zz` is not listed
      and there is no path, query or fragment. */
  lemma UnlistedTldRejected(parse: UrlParser)
    requires parse("example.zz").None?
    ensures !IsValidUrl("example.zz", parse)
  {
    var t := "example.zz";
    assert IsLabel("example") && IsTld("zz");
    assert t == "example" + "." + "zz" + "";
    BareDomainChars("example", "zz");
    HostCharsPassBasicChecks(t);
    assert Lower("zz") == "zz";
    assert "zz" !in CommonTlds;
    hide IsValidUrl, PassesBasicChecks, Lower, IsLabel, IsTld;
    BareDomainVerdict("example", "zz", "", parse);
  }

  /** `isValidUrl("google.com")` holds whatever the parser does. */
  lemma GoogleComIsValid(t: string, parse: UrlParser)
    requires t == "google.com"
    ensures IsValidUrl(t, parse)
  {
    assert IsLabel("google") && IsTld("com") && Lower("com") == "com";
    assert t == "google" + "." + "com";
    ListedBareDomainIsValid("google", "com", parse);
  }

  /** `google.com` is stored as `https://google.com`. */
  lemma GoogleComNormalized()
    ensures NormalizeUrl("google.com") == "https://google.com"
  {
    hide NormalizeUrl, Trim;
    var t := "google.com";
    assert IsTrimmed(t) by { assert t[0] == 'g' && t[|t| - 1] == 'm'; }
    TrimOfTrimmed(t);
    assert !HasScheme(t) by { assert t[..7][0] == 'g'; }
    assert '.' in t by { assert t[6] == '.'; }
    assert ' ' !in t;
    NormalizePrefixesExactly(t);
  }

  /** `isValidUrl("a.io")` holds, yet the normaliser leaves it without a scheme,
      because it is not longer than four characters. */
  lemma ShortDomainKeepsNoScheme(t: string, parse: UrlParser)
    requires t == "a.io"
    ensures IsValidUrl(t, parse)
    ensures NormalizeUrl("a.io") == "a.io"
  {
    assert IsLabel("a") && IsTld("io") && Lower("io") == "io";
    assert t == "a" + "." + "io";
    ListedBareDomainIsValid("a", "io", parse);
    TrimOfTrimmed("a.io");
  }

  /** A space without `%20` is rejected before the parser is consulted. */
  lemma SpaceRejected(parse: UrlParser)
    ensures !IsValidUrl("hello world", parse)
  {
    var t := "hello world";
    assert IsTrimmed(t) by { assert t[0] == 'h' && t[|t| - 1] == 'd'; }
    TrimOfTrimmed(t);
    assert t[5] == ' ';
    assert '%' !in t;
    NotContainsWithoutHead(t, "%20");
  }

  /** The domain pattern accepts a single label before the TLD: once a second dot follows
      the first label, the character that ends the TLD letters is neither the end of the
      text nor `/`. */
  lemma {:induction false} DottedHostFailsDomainPattern(a: string, b: string, c: string)
    requires IsLabel(a) && IsLabel(b)
    ensures !DomainPattern(a + "." + b + "." + c)
  {
    var s := a + "." + b + "." + c;
    assert s[1..] == a[1..] + "." + b + "." + c;
    assert forall i | 0 <= i < |a| - 1 :: s[1..][i] == a[i + 1];
    LabelRunAt(s[1..], |a| - 1);
    var k := |a|;
    var rest := s[k + 1..];
    assert rest == b + "." + c;
    assert rest[|b|] == '.';
    var j := LetterRun(rest);
    assert j <= |b|;
    var m := k + 1 + j;
    assert s[m] == rest[j];
    assert j < |b| ==> rest[j] == b[j];
  }

  /** The fallback patterns allow one label before the TLD, so a scheme-less host with
      two labels after `www.` is valid only if the parser accepts it. */
  lemma TwoLabelHostNeedsParser(t: string, parse: UrlParser)
    requires t == "www.example.co.uk/path"
    ensures IsValidUrl(t, parse) == parse(t).Some?
  {
    TwoLabelHostFailsPatterns(t);
    TwoLabelHostPassesBasicChecks(t);
    TrimOfTrimmed(t);
  }

  lemma TwoLabelHostFailsPatterns(t: string)
    requires t == "www.example.co.uk/path"
    ensures !WwwPattern(t) && !DomainPattern(t)
  {
    TwoLabelHostFailsDomain(t);
    TwoLabelHostFailsWww(t);
  }

  lemma TwoLabelHostFailsDomain(t: string)
    requires t == "www.example.co.uk/path"
    ensures !DomainPattern(t)
  {
    assert IsLabel("www") && IsLabel("example");
    assert t == "www" + "." + "example" + "." + "co.uk/path";
    DottedHostFailsDomainPattern("www", "example", "co.uk/path");
  }

  lemma TwoLabelHostFailsWww(t: string)
    requires t == "www.example.co.uk/path"
    ensures !DomainPattern(t[4..])
  {
    assert IsLabel("example") && IsLabel("co");
    assert t[4..] == "example" + "." + "co" + "." + "uk/path";
    DottedHostFailsDomainPattern("example", "co", "uk/path");
  }

  lemma TwoLabelHostPassesBasicChecks(t: string)
    requires t == "www.example.co.uk/path"
    ensures PassesBasicChecks(t) && IsTrimmed(t)
  {
    assert '\n' !in t && '\r' !in t && ' ' !in t;
    assert !IsWhitespace(t[0]) && !IsWhitespace(t[|t| - 1]);
  }

  /** `[^\/\?]`: the characters a hostname capture may contain. */
  predicate IsHostChar(c: char) { c != '/' && c != '?' }

  /** Length of the longest prefix of `s` without `/` or `?`. */
  function HostRun(s: string): (n: nat)
    ensures n <= |s|
    ensures forall i | 0 <= i < n :: IsHostChar(s[i])
    ensures n < |s| ==> !IsHostChar(s[n])
  {
    if s != [] && IsHostChar(s[0]) then 1 + HostRun(s[1..]) else 0
  }

  /** Characters consumed by `(?:https?:\/\/)?`: `https://` is tried before `http://`,
      and the group is skipped when neither is there. */
  function SchemeLength(s: string): (n: nat)
    ensures n == 0 || n == 7 || n == 8
    ensures n <= |s|
  {
    if StartsWith(s, "https://") then 8 else if StartsWith(s, "http://") then 7 else 0
  }

  /** `[^\/\?]+` at the start of `s`, if it matches. */
  function HostAt(s: string): (r: Option<string>)
    ensures r.Some? ==> r.value != [] && StartsWith(s, r.value)
  {
    var n := HostRun(s);
    if n > 0 then Some(s[..n]) else None
  }

  /** `url.match(/^(?:https?:\/\/)?(?:www\.)?([^\/\?]+)/)?.[1]`. A backtracking matcher
      tries the optional groups taken before skipped: scheme and `www.`, scheme alone,
      then neither. Skipping a scheme that is there leaves text starting with `http`, so
      `www.` alone is never a further option. */
  function HostMatch(url: string): (r: Option<string>)
  {
    var p := SchemeLength(url);
    var afterScheme := url[p..];
    if StartsWith(afterScheme, "www.") && HostAt(afterScheme[4..]).Some? then HostAt(afterScheme[4..])
    else if HostAt(afterScheme).Some? then HostAt(afterScheme)
    else HostAt(url)
  }

  /** The prefixes the two optional groups can consume. */
  predicate IsMatchPrefix(p: string)
  {
    p in ["", "www.", "http://", "https://", "http://www.", "https://www."]
  }

  /** The capture is a non-empty run of host characters that follows one of the optional
      prefixes and is followed by the end of the text, `/` or `?`. */
  lemma HostMatchShape(url: string)
    requires HostMatch(url).Some?
    ensures var h := HostMatch(url).value;
      h != [] && (forall i | 0 <= i < |h| :: IsHostChar(h[i])) &&
      exists p | IsMatchPrefix(p) :: StartsWith(url, p + h) &&
        (|url| == |p + h| || !IsHostChar(url[|p + h|]))
  {
    var pl := SchemeLength(url);
    var a := url[pl..];
    if StartsWith(a, "www.") && HostAt(a[4..]).Some? {
      SchemeWwwPrefix(url);
      assert a[4..] == url[pl + 4..];
      CaptureAfterPrefix(url, url[..pl + 4], a[4..]);
    } else if HostAt(a).Some? {
      CaptureAfterPrefix(url, url[..pl], a);
    } else {
      assert url[..0] == "";
      CaptureAfterPrefix(url, "", url);
    }
  }

  /** The scheme group followed by `www.` is one of the optional prefixes. */
  lemma SchemeWwwPrefix(url: string)
    requires StartsWith(url[SchemeLength(url)..], "www.")
    ensures IsMatchPrefix(url[..SchemeLength(url) + 4])
  {
    var pl := SchemeLength(url);
    var scheme := url[..pl];
    assert url[..pl + 4] == scheme + "www." by {
      assert url[..pl + 4] == url[..pl] + url[pl..pl + 4];
      assert url[pl..][..4] == url[pl..pl + 4];
    }
    if pl == 0 { assert scheme + "www." == "www."; }
    else if pl == 7 { assert scheme + "www." == "http://www."; }
    else { assert scheme + "www." == "https://www."; }
  }

  /** A capture taken right after one of the optional prefixes has the shape. */
  lemma CaptureAfterPrefix(url: string, p: string, s: string)
    requires IsMatchPrefix(p) && |p| <= |url| && url[..|p|] == p && s == url[|p|..]
    requires HostAt(s).Some?
    ensures var h := HostAt(s).value;
      h != [] && (forall i | 0 <= i < |h| :: IsHostChar(h[i])) &&
      exists p | IsMatchPrefix(p) :: StartsWith(url, p + h) &&
        (|url| == |p + h| || !IsHostChar(url[|p + h|]))
  {
    HostAtShape(s);
    PrefixedHost(url, p, s);
  }

  lemma HostAtShape(s: string)
    requires HostAt(s).Some?
    ensures var h := HostAt(s).value;
      h == s[..HostRun(s)] && (forall i | 0 <= i < |h| :: IsHostChar(h[i])) &&
      (|s| == |h| || !IsHostChar(s[|h|]))
  {
  }

  lemma PrefixedHost(url: string, p: string, s: string)
    requires IsMatchPrefix(p) && |p| <= |url| && url[..|p|] == p && s == url[|p|..]
    requires HostAt(s).Some?
    ensures var h := HostAt(s).value;
      StartsWith(url, p + h) && (|url| == |p + h| || !IsHostChar(url[|p + h|]))
  {
    var h := HostAt(s).value;
    HostAtShape(s);
    assert url[..|p + h|] == p + h by {
      assert url[..|p + h|] == url[..|p|] + url[|p|..][..|h|];
    }
    if |url| != |p + h| { assert url[|p + h|] == s[|h|]; }
  }

  /** The pattern fails only on empty text or text that starts with `/` or `?`. */
  lemma HostMatchFailsExactly(url: string)
    ensures HostMatch(url).None? <==> url == [] || !IsHostChar(url[0])
  {
  }

  /** A text that starts with characters `q` made only of host characters starts with `q`
      inside its leading host run. */
  lemma PrefixInsideRun(h: string, rest: string, q: string)
    requires forall i | 0 <= i < |h| :: IsHostChar(h[i])
    requires forall i | 0 <= i < |q| :: IsHostChar(q[i])
    requires rest == [] || !IsHostChar(rest[0])
    ensures StartsWith(h + rest, q) ==> StartsWith(h, q)
  {
    var url := h + rest;
    if |h| < |q| <= |url| {
      assert url[..|q|][|h|] == url[|h|] == rest[0];
    }
    if |q| <= |h| {
      assert url[..|q|] == h[..|q|];
    }
  }

  /** A bare host, written without scheme or `www.`, is captured whole. */
  lemma HostMatchBare(h: string, rest: string)
    requires h != [] && forall i | 0 <= i < |h| :: IsHostChar(h[i])
    requires !StartsWith(h, "http") && !StartsWith(h, "www.")
    requires rest == [] || !IsHostChar(rest[0])
    ensures HostMatch(h + rest) == Some(h)
  {
    var url := h + rest;
    PrefixInsideRun(h, rest, "http");
    PrefixInsideRun(h, rest, "www.");
    assert |url| >= 7 ==> url[..7][..4] == url[..4];
    assert |url| >= 8 ==> url[..8][..4] == url[..4];
    assert SchemeLength(url) == 0;
    assert url[0..] == url;
    HostRunAt(url, |h|);
    assert url[..|h|] == h;
  }

  /** A host written after `www.`, with or without a scheme, is captured without them. */
  lemma HostMatchPrefixed(p: string, h: string, rest: string)
    requires p in ["www.", "http://www.", "https://www."]
    requires h != [] && forall i | 0 <= i < |h| :: IsHostChar(h[i])
    requires rest == [] || !IsHostChar(rest[0])
    ensures HostMatch(p + h + rest) == Some(h)
  {
    var url := p + h + rest;
    var pl := |p| - 4;
    PrefixScheme(p, url);
    CaptureOfRun(h, rest);
    var a := url[pl..];
    assert p[pl..] == "www.";
    assert a == p[pl..] + (h + rest);
    assert a[..4] == "www." && a[4..] == h + rest;
  }

  /** A run of host characters ended by the text's end, `/` or `?` is captured whole. */
  lemma CaptureOfRun(h: string, rest: string)
    requires h != [] && forall i | 0 <= i < |h| :: IsHostChar(h[i])
    requires rest == [] || !IsHostChar(rest[0])
    ensures HostAt(h + rest) == Some(h)
  {
    HostRunAt(h + rest, |h|);
    assert (h + rest)[..|h|] == h;
  }

  /** The scheme group takes everything of a `www.` prefix but the `www.`. */
  lemma PrefixScheme(p: string, url: string)
    requires p in ["www.", "http://www.", "https://www."]
    requires |p| <= |url| && url[..|p|] == p
    ensures SchemeLength(url) == |p| - 4
  {
    if p == "www." {
      assert url[0] == url[..4][0] == 'w';
      assert |url| >= 7 ==> url[..7][0] == url[0];
      assert |url| >= 8 ==> url[..8][0] == url[0];
      assert !StartsWith(url, "http://") && !StartsWith(url, "https://");
    } else if p == "http://www." {
      assert url[..8] == url[..|p|][..8] && url[..7] == url[..|p|][..7];
      assert url[..8] == "http://w" && url[..7] == "http://";
    } else {
      assert url[..8] == url[..|p|][..8];
      assert url[..8] == "https://";
    }
  }

  lemma HostRunAt(s: string, n: nat)
    requires n <= |s|
    requires forall i | 0 <= i < n :: IsHostChar(s[i])
    requires n < |s| ==> !IsHostChar(s[n])
    ensures HostRun(s) == n
  {
  }

  /** `extractDomain(url)`: the parser's hostname, else the fallback capture, else `url`. */
  function ExtractDomain(url: string, parse: UrlParser): (r: string)
    ensures parse(url).Some? ==> r == parse(url).value
    ensures parse(url).None? && url != [] && IsHostChar(url[0]) ==>
      r != [] && forall i | 0 <= i < |r| :: IsHostChar(r[i])
    ensures parse(url).None? && (url == [] || !IsHostChar(url[0])) ==> r == url
  {
    match parse(url)
    case Some(host) => host
    case None =>
      HostMatchFailsExactly(url);
      if HostMatch(url).Some? then
        HostMatchShape(url);
        HostMatch(url).value
      else url
  }

  const FaviconService := "https://www.google.com/s2/favicons?domain="
  const FaviconSize := "&sz=32"

  /** `getFaviconUrl(url)`: the favicon service queried for the link's domain at 32 pixels. */
  function FaviconUrl(url: string, parse: UrlParser): (r: string)
    ensures |r| == |FaviconService| + |ExtractDomain(url, parse)| + |FaviconSize|
    ensures StartsWith(r, FaviconService)
    ensures r[|FaviconService|..|r| - |FaviconSize|] == ExtractDomain(url, parse)
    ensures r[|r| - |FaviconSize|..] == FaviconSize
  {
    var r := FaviconService + ExtractDomain(url, parse) + FaviconSize;
    assert r[..|FaviconService|] == FaviconService;
    r
  }
}
