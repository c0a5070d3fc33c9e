/**
 * `ConfigMarkdown.preprocessFrontmatter` of the config loader: before the YAML frontmatter of
 * a markdown file is parsed, every `key: value` line whose value contains a colon (and is not
 * already quoted or a block scalar) is rewritten as a block scalar, `key: |` followed by the
 * value indented by two spaces. Every other line is kept as it is.
 *
 * The two regular expressions are written out as functions: the frontmatter match
 * `^---\r?\n([\s\S]*?)\r?\n---` and the line pattern `^([a-zA-Z_][a-zA-Z0-9_]*)\s*:\s*(.*)$`
 * (no flags, so `.` stops at line terminators and `$` is the end of the line's text).
 */
module Frontmatter {
  import opened Wrappers
  import opened Text

  /** The length of the opening `---\r?\n`, if the content starts with one. */
  function OpenLen(content: string): (r: Option<nat>)
    ensures r.Some? ==> r.value <= |content|
  {
    if StartsWith(content, "---\r\n") then Some(5)
    else if StartsWith(content, "---\n") then Some(4)
    else None
  }

  predicate CloseAt(content: string, k: nat) {
    MatchesAt(content, "\r\n---", k) || MatchesAt(content, "\n---", k)
  }

  /** The lazy group: the first position at or after `from` where `\r?\n---` follows. */
  function FindClose(content: string, from: nat): (r: Option<nat>)
    requires from <= |content|
    ensures r.Some? ==> from <= r.value <= |content| && CloseAt(content, r.value)
    ensures r.Some? ==> forall k :: from <= k < r.value ==> !CloseAt(content, k)
    ensures r.None? ==> forall k :: from <= k <= |content| ==> !CloseAt(content, k)
    decreases |content| - from
  {
    if CloseAt(content, from) then Some(from)
    else if from == |content| then None
    else FindClose(content, from + 1)
  }

  /** The captured frontmatter: where it starts and how long it is. */
  function MatchFrontmatter(content: string): (r: Option<(nat, nat)>)
    ensures r.Some? ==> r.value.0 + r.value.1 <= |content|
    ensures r.Some? ==> OpenLen(content) == Some(r.value.0) && CloseAt(content, r.value.0 + r.value.1)
    ensures r.Some? ==> forall k :: r.value.0 <= k < r.value.0 + r.value.1 ==> !CloseAt(content, k)
  {
    match OpenLen(content)
    case None => None
    case Some(p) =>
      match FindClose(content, p)
      case None => None
      case Some(e) => Some((p, e - p))
  }

  /** The maximal run of word characters at the start of a line. */
  function WordRun(s: string): (n: nat)
    ensures n <= |s| && forall k :: 0 <= k < n ==> IsWordChar(s[k])
    ensures n < |s| ==> !IsWordChar(s[n])
  {
    if s != [] && IsWordChar(s[0]) then 1 + WordRun(s[1..]) else 0
  }

  predicate NoLineTerminator(s: string) {
    forall k :: 0 <= k < |s| ==> !IsLineTerminator(s[k])
  }

  /** The key and the captured value of a `key: value` line, if the line pattern matches. */
  function MatchKeyValue(line: string): (r: Option<(string, string)>)
    ensures r.Some? ==> 1 <= |r.value.0| <= |line| && r.value.0 == line[..|r.value.0|]
    ensures r.Some? ==> (IsAsciiLetter(line[0]) || line[0] == '_') && forall k :: 0 <= k < |r.value.0| ==> IsWordChar(r.value.0[k])
    ensures r.Some? ==> NoLineTerminator(r.value.1) && (r.value.1 == [] || !IsSpace(r.value.1[0]))
  {
    if line == [] || !(IsAsciiLetter(line[0]) || line[0] == '_') then None
    else
      var n := WordRun(line);
      match ValueAfterKey(line[n..])
      case None => None
      case Some(value) => Some((line[..n], value))
  }

  /** `\s*:\s*(.*)$` after the key: the captured value, if the rest of the line matches. */
  function ValueAfterKey(rest: string): (r: Option<string>)
    ensures r.Some? ==> NoLineTerminator(r.value) && (r.value == [] || !IsSpace(r.value[0]))
  {
    var afterKey := TrimStart(rest);
    if afterKey == [] || afterKey[0] != ':' then None
    else
      var value := TrimStart(afterKey[1..]);
      if !NoLineTerminator(value) then None else Some(value)
  }

  /** Values the rewrite leaves alone: empty, a block-scalar marker, or already quoted. */
  predicate Untouchable(value: string) {
    value == "" || value == ">" || value == "|" || value[0] == '"' || value[0] == '\''
  }

  lemma TrimKeepsFirst(s: string)
    requires s != [] && !IsSpace(s[0])
    ensures Trim(s) != [] && Trim(s)[0] == s[0]
  {
    assert TrimStart(s) == s;
    TrimEndPrefix(s);
    TrimEndEmpty(s);
    assert !AllSpace(s);
  }

  /** The output lines for one input line. */
  function RewriteLine(line: string): (r: seq<string>)
  {
    var t := Trim(line);
    var kv := MatchKeyValue(line);
    if (t != [] && t[0] == '#') || t == "" then [line]
    else if line != [] && IsSpace(line[0]) then [line]
    else if kv.None? then [line]
    else
      var value := Trim(kv.value.1);
      if Untouchable(value) || ':' !in value then [line]
      else [kv.value.0 + ": |", "  " + value]
  }

  /** Blank lines, comments, indented lines and lines the key pattern does not match are kept. */
  lemma OtherLinesKept(line: string)
    ensures Trim(line) == "" || (Trim(line) != [] && Trim(line)[0] == '#') ==> RewriteLine(line) == [line]
    ensures line != [] && IsSpace(line[0]) ==> RewriteLine(line) == [line]
    ensures MatchKeyValue(line).None? ==> RewriteLine(line) == [line]
  {
  }

  /** A `key: value` line whose trimmed value is empty, a block-scalar marker or quoted, or holds no colon, is kept. */
  lemma KeyValueKept(line: string)
    requires MatchKeyValue(line).Some?
    requires var value := Trim(MatchKeyValue(line).value.1); Untouchable(value) || ':' !in value
    ensures RewriteLine(line) == [line]
  {
  }

  /** Any other `key: value` line becomes `key: |` followed by the trimmed value indented by two spaces. */
  lemma KeyValueRewritten(line: string)
    requires MatchKeyValue(line).Some?
    requires var value := Trim(MatchKeyValue(line).value.1); !Untouchable(value) && ':' in value
    ensures RewriteLine(line) == [MatchKeyValue(line).value.0 + ": |", "  " + Trim(MatchKeyValue(line).value.1)]
  {
    KeyLineStart(line);
  }

  /** A line that starts with a key character neither starts with whitespace nor trims to a comment. */
  lemma KeyLineStart(line: string)
    requires line != [] && (IsAsciiLetter(line[0]) || line[0] == '_')
    ensures !IsSpace(line[0])
    ensures Trim(line) != [] && Trim(line)[0] != '#'
  {
    TrimKeepsFirst(line);
  }

  /** The output lines for a list of input lines, in input order. */
  function RewriteLines(lines: seq<string>): (r: seq<string>)
    ensures |r| >= |lines|
  {
    if lines == [] then [] else RewriteLines(lines[..|lines| - 1]) + RewriteLine(lines[|lines| - 1])
  }

  /** The rewritten frontmatter text. */
  function Processed(frontmatter: string): string {
    Join(RewriteLines(Split(frontmatter, "\n")), "\n")
  }

  /** `content.replace(pattern, () => rep)`: the first occurrence only, the replacement taken literally. */
  function ReplaceFirst(s: string, pattern: string, rep: string): string {
    match IndexOf(s, pattern)
    case None => s
    case Some(i) => s[..i] + rep + s[i + |pattern|..]
  }

  /** The whole function, as a value: the first occurrence of the captured text replaced by its rewrite. */
  function Preprocess(content: string): (r: string)
    ensures MatchFrontmatter(content).None? ==> r == content
  {
    match MatchFrontmatter(content)
    case None => content
    case Some((p, n)) => ReplaceFirst(content, content[p..p + n], Processed(content[p..p + n]))
  }

  /** `preprocessFrontmatter`: content without frontmatter is returned as it is. */
  method PreprocessFrontmatter(content: string) returns (out: string)
    ensures out == Preprocess(content)
  {
    match MatchFrontmatter(content)
    case None =>
      out := content;
    case Some((p, n)) =>
      out := RewriteCaptured(content, p, n);
  }

  /** The rest of `preprocessFrontmatter` once the frontmatter `content[p..p + n]` is captured. */
  method RewriteCaptured(content: string, p: nat, n: nat) returns (out: string)
    requires MatchFrontmatter(content) == Some((p, n))
    ensures out == Preprocess(content)
  {
    var frontmatter := content[p..p + n];
    var processed := RewriteFrontmatter(frontmatter);
    out := ReplaceFirst(content, frontmatter, processed);
  }

  /** The rewrite takes the place of the captured text itself; everything before and after it is unchanged. */
  lemma PreprocessInPlace(content: string, p: nat, n: nat)
    requires MatchFrontmatter(content) == Some((p, n))
    ensures p + n <= |content|
    ensures Preprocess(content) == content[..p] + Processed(content[p..p + n]) + content[p + n..]
  {
    FirstOccurrenceIsCaptured(content, p, n, Processed(content[p..p + n]));
  }

  /** The `for` loop over the frontmatter's lines, and the join of its output. */
  method RewriteFrontmatter(frontmatter: string) returns (processed: string)
    ensures processed == Processed(frontmatter)
  {
    var lines := Split(frontmatter, "\n");
    var result: seq<string> := [];
    for i := 0 to |lines|
      invariant result == RewriteLines(lines[..i])
    {
      assert lines[..i + 1][..i] == lines[..i];
      result := result + RewriteLine(lines[i]);
    }
    assert lines[..|lines|] == lines;
    processed := Join(result, "\n");
  }

  /**
   * Replacing the first occurrence of the captured text replaces the captured text itself: an
   * earlier occurrence can only lie inside the opening `---`, and then the rewrite changes nothing.
   */
  lemma FirstOccurrenceIsCaptured(content: string, p: nat, n: nat, rep: string)
    requires MatchFrontmatter(content) == Some((p, n))
    requires rep == Processed(content[p..p + n])
    ensures p + n <= |content|
    ensures ReplaceFirst(content, content[p..p + n], rep) == content[..p] + rep + content[p + n..]
  {
    var fm := content[p..p + n];
    EarlierOccurrenceKept(content, p, n);
    ReplaceAtMatch(content, fm, p, n, rep);
  }

  /** An occurrence of the captured text before its own position rewrites to itself. */
  lemma EarlierOccurrenceKept(content: string, p: nat, n: nat)
    requires MatchFrontmatter(content) == Some((p, n))
    ensures p + n <= |content|
    ensures var fm := content[p..p + n];
      IndexOf(content, fm).Some? && IndexOf(content, fm).value < p ==> Processed(fm) == fm
  {
    var fm := content[p..p + n];
    match IndexOf(content, fm)
    case None =>
    case Some(i) =>
      if i < p {
        EarlierOccurrenceUnchanged(content, fm, p, i);
      }
  }

  /** Replacing the first occurrence replaces the one at `p` when no earlier occurrence changes anything. */
  lemma ReplaceAtMatch(s: string, pattern: string, p: nat, n: nat, rep: string)
    requires n == |pattern| && MatchesAt(s, pattern, p)
    requires IndexOf(s, pattern).Some? && IndexOf(s, pattern).value < p ==> rep == pattern
    ensures ReplaceFirst(s, pattern, rep) == s[..p] + rep + s[p + n..]
  {
    var i := IndexOf(s, pattern).value;
    if i < p {
      SpliceSame(s, pattern, i);
      SpliceSame(s, pattern, p);
    }
  }

  lemma SpliceSame(s: string, pattern: string, i: nat)
    requires MatchesAt(s, pattern, i)
    ensures s[..i] + pattern + s[i + |pattern|..] == s
  {
    assert s == s[..i] + s[i..i + |pattern|] + s[i + |pattern|..];
  }

  predicate DashOrBreak(c: char) { c == '-' || c == '\r' || c == '\n' }

  /**
   * The frontmatter can occur before its own position only inside the opening `---\r?\n`,
   * which forces it to consist of dashes and line breaks alone; every such line is kept, so the
   * replacement text equals the text replaced.
   */
  lemma EarlierOccurrenceUnchanged(content: string, fm: string, p: nat, i: nat)
    requires OpenLen(content) == Some(p) && p + |fm| <= |content|
    requires content[p..p + |fm|] == fm
    requires i < p && MatchesAt(content, fm, i)
    ensures Processed(fm) == fm
  {
    forall k | 0 <= k < |fm| ensures DashOrBreak(fm[k]) {
      PeriodicChars(content, fm, p, i, k);
    }
    var lines := Split(fm, "\n");
    SplitDashLines(fm);
    KeptLines(lines);
    JoinSplit(fm, "\n");
  }

  lemma {:induction false} PeriodicChars(content: string, fm: string, p: nat, i: nat, k: nat)
    requires OpenLen(content) == Some(p) && p + |fm| <= |content|
    requires content[p..p + |fm|] == fm
    requires i < p && MatchesAt(content, fm, i)
    requires k < |fm|
    ensures DashOrBreak(fm[k])
    decreases k
  {
    assert fm[k] == content[i + k] by { assert content[i..i + |fm|][k] == content[i + k]; }
    if i + k < p {
      assert content[..p] == if p == 5 then "---\r\n" else "---\n";
      assert content[..p][i + k] == content[i + k];
    } else {
      var k' := i + k - p;
      assert content[p..p + |fm|][k'] == content[i + k];
      PeriodicChars(content, fm, p, i, k');
    }
  }

  /** A text of dashes and line breaks splits on line feeds into lines of dashes and carriage returns. */
  lemma {:induction false} SplitDashLines(s: string)
    requires forall k :: 0 <= k < |s| ==> DashOrBreak(s[k])
    ensures forall j :: 0 <= j < |Split(s, "\n")| ==> DashesAndReturns(Split(s, "\n")[j])
    decreases |s|
  {
    match IndexOf(s, "\n")
    case None =>
      DashesBeforeBreak(s, |s|);
      assert s[..|s|] == s;
    case Some(i) =>
      var rest := s[i + 1..];
      assert forall k :: 0 <= k < |rest| ==> rest[k] == s[i + 1 + k];
      SplitDashLines(rest);
      DashesBeforeBreak(s, i);
      var parts := Split(s, "\n");
      assert parts == [s[..i]] + Split(rest, "\n");
      assert forall j :: 1 <= j < |parts| ==> parts[j] == Split(rest, "\n")[j - 1];
  }

  /** The dashes and line breaks before the first line feed are dashes and carriage returns. */
  lemma DashesBeforeBreak(s: string, i: nat)
    requires i <= |s| && forall k :: 0 <= k < |s| ==> DashOrBreak(s[k])
    requires forall k :: 0 <= k < i ==> !MatchesAt(s, "\n", k)
    ensures DashesAndReturns(s[..i])
  {
    forall k | 0 <= k < i ensures s[..i][k] == '-' || s[..i][k] == '\r' {
      assert !MatchesAt(s, "\n", k);
      assert s[k..k + 1] == [s[k]];
    }
  }

  predicate DashesAndReturns(line: string) {
    forall k :: 0 <= k < |line| ==> line[k] == '-' || line[k] == '\r'
  }

  /** A line of dashes and carriage returns is kept as it is. */
  lemma KeptLine(line: string)
    requires DashesAndReturns(line)
    ensures RewriteLine(line) == [line]
  {
    if line != [] && line[0] == '-' {
      assert MatchKeyValue(line).None?;
    }
  }

  lemma {:induction false} KeptLines(lines: seq<string>)
    requires forall j :: 0 <= j < |lines| ==> DashesAndReturns(lines[j])
    ensures RewriteLines(lines) == lines
  {
    if lines != [] {
      var init := lines[..|lines| - 1];
      assert forall j :: 0 <= j < |init| ==> init[j] == lines[j];
      KeptLines(init);
      KeptLine(lines[|lines| - 1]);
      LastSplit(lines);
    }
  }

  lemma LastSplit(s: seq<string>)
    requires s != []
    ensures s == s[..|s| - 1] + [s[|s| - 1]]
  {
  }
}
