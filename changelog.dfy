/**
 * The release-notes parser of the console's changelog page: `parseMarkdown` turns a release
 * body into titled sections of bullet items, and `ReleaseItem` splits an item into its text
 * and the GitHub username credited at its end.
 */
module Changelog {
  import opened Wrappers
  import opened Text

  datatype Section = Section(title: string, items: seq<string>)

  /** The loop's variables: the sections closed so far, the open section and the skip flag. */
  datatype ParseState = ParseState(sections: seq<Section>, current: Option<Section>, skip: bool)

  const Start: ParseState := ParseState([], None, false)

  predicate IsHeading(line: string) { StartsWith(line, "## ") }
  predicate IsThanks(line: string) { StartsWith(line, "**Thank you") }
  predicate IsItem(line: string) { StartsWith(line, "- ") }

  /** One iteration of the loop over the body's lines. */
  function Step(st: ParseState, line: string): ParseState
  {
    if IsHeading(line) then
      var closed := if st.current.Some? then st.sections + [st.current.value] else st.sections;
      ParseState(closed, Some(Section(Trim(line[3..]), [])), false)
    else if IsThanks(line) then st.(skip := true)
    else if IsItem(line) && !st.skip then
      match st.current
      case None => st
      case Some(c) => st.(current := Some(c.(items := c.items + [Trim(line[2..])])))
    else st
  }

  function Steps(st: ParseState, lines: seq<string>): ParseState
    decreases |lines|
  {
    if lines == [] then st else Steps(Step(st, lines[0]), lines[1..])
  }

  /** The closed sections followed by the open one: what the final flush returns. */
  function Flushed(st: ParseState): seq<Section> {
    st.sections + if st.current.Some? then [st.current.value] else []
  }

  /** `parseMarkdown(body).sections`, as a value. */
  function Parse(body: string): seq<Section> {
    Flushed(Steps(Start, Split(body, "\n")))
  }

  /** `parseMarkdown`: the `for` loop with its mutable open section and skip flag. */
  method ParseMarkdown(body: string) returns (sections: seq<Section>)
    ensures sections == Parse(body)
  {
    var lines := Split(body, "\n");
    sections := [];
    var current: Option<Section> := None;
    var skip := false;
    for i := 0 to |lines|
      invariant Steps(ParseState(sections, current, skip), lines[i..]) == Steps(Start, lines)
    {
      var line := lines[i];
      assert lines[i..] == [line] + lines[i + 1..];
      if StartsWith(line, "## ") {
        if current.Some? {
          sections := sections + [current.value];
        }
        var title := Trim(line[3..]);
        current := Some(Section(title, []));
        skip := false;
      } else if StartsWith(line, "**Thank you") {
        skip := true;
      } else if StartsWith(line, "- ") && !skip {
        if current.Some? {
          current := Some(current.value.(items := current.value.items + [Trim(line[2..])]));
        }
      }
    }
    if current.Some? {
      sections := sections + [current.value];
    }
  }

  /** The trimmed titles of the heading lines, in order. */
  function HeadingTitles(lines: seq<string>): seq<string>
    decreases |lines|
  {
    if lines == [] then []
    else (if IsHeading(lines[0]) then [Trim(lines[0][3..])] else []) + HeadingTitles(lines[1..])
  }

  function Titles(sections: seq<Section>): (r: seq<string>)
    ensures |r| == |sections|
    ensures forall i :: 0 <= i < |sections| ==> r[i] == sections[i].title
  {
    seq(|sections|, i requires 0 <= i < |sections| => sections[i].title)
  }

  /** A line other than a heading leaves the sections' titles as they were. */
  lemma FlushedTitlesKept(st: ParseState, line: string)
    requires !IsHeading(line)
    ensures Titles(Flushed(Step(st, line))) == Titles(Flushed(st))
  {
    var next := Step(st, line);
    assert next.sections == st.sections;
    assert next.current.Some? == st.current.Some?;
    assert next.current.Some? ==> next.current.value.title == st.current.value.title;
    SameTitles(st.sections, next.current, st.current);
  }

  lemma SameTitles(sections: seq<Section>, c1: Option<Section>, c2: Option<Section>)
    requires c1.Some? == c2.Some? && (c1.Some? ==> c1.value.title == c2.value.title)
    ensures Titles(Flushed(ParseState(sections, c1, true))) == Titles(Flushed(ParseState(sections, c2, false)))
  {
    var a, b := Flushed(ParseState(sections, c1, true)), Flushed(ParseState(sections, c2, false));
    assert |a| == |b|;
    forall i | 0 <= i < |a| ensures a[i].title == b[i].title {
      if i < |sections| { assert a[i] == b[i]; }
    }
  }

  /** A heading closes the open section and opens one with its title. */
  lemma HeadingTitle(st: ParseState, line: string)
    requires IsHeading(line)
    ensures Titles(Flushed(Step(st, line))) == Titles(Flushed(st)) + [Trim(line[3..])]
  {
    var heading := Section(Trim(line[3..]), []);
    var next := Step(st, line);
    assert next.sections == Flushed(st) && next.current == Some(heading);
    assert Flushed(next) == Flushed(st) + [heading];
    TitlesAppend(Flushed(st), heading);
  }

  lemma TitlesAppend(sections: seq<Section>, s: Section)
    ensures Titles(sections + [s]) == Titles(sections) + [s.title]
  {
    var a, b := Titles(sections + [s]), Titles(sections) + [s.title];
    forall i | 0 <= i < |a| ensures a[i] == b[i] {
      if i < |sections| {
        assert (sections + [s])[i] == sections[i];
      }
    }
    assert a == b;
  }

  /** Every heading opens one section, the sections come out in input order, and the last one is flushed. */
  lemma {:induction false} StepsTitles(st: ParseState, lines: seq<string>)
    ensures Titles(Flushed(Steps(st, lines))) == Titles(Flushed(st)) + HeadingTitles(lines)
    decreases |lines|
  {
    if lines != [] {
      var next := Step(st, lines[0]);
      StepsTitles(next, lines[1..]);
      if IsHeading(lines[0]) {
        HeadingTitle(st, lines[0]);
      } else {
        FlushedTitlesKept(st, lines[0]);
      }
    }
  }

  /** The section titles are exactly the trimmed heading texts, in order. */
  lemma ParseTitles(body: string)
    ensures Titles(Parse(body)) == HeadingTitles(Split(body, "\n"))
  {
    StepsTitles(Start, Split(body, "\n"));
  }

  /**
   * The items of the section a heading opens, read from the lines after it: every `- ` line's
   * trimmed remainder, up to the next heading or the first `**Thank you` line.
   */
  function ItemsAfter(lines: seq<string>): seq<string>
    decreases |lines|
  {
    if lines == [] || IsHeading(lines[0]) || IsThanks(lines[0]) then []
    else (if IsItem(lines[0]) then [Trim(lines[0][2..])] else []) + ItemsAfter(lines[1..])
  }

  /**
   * The sections of a body's lines, stated per heading: one section for each heading line, in
   * order, titled with its trimmed text and holding the items after it. Lines before the first
   * heading contribute nothing.
   */
  function Blocks(lines: seq<string>): seq<Section>
    decreases |lines|
  {
    if lines == [] then []
    else if IsHeading(lines[0]) then [Section(Trim(lines[0][3..]), ItemsAfter(lines[1..]))] + Blocks(lines[1..])
    else Blocks(lines[1..])
  }

  /** The open section once the rest of the lines have been read: its items grow unless skipping. */
  function OpenAfter(st: ParseState, lines: seq<string>): seq<Section> {
    match st.current
    case None => []
    case Some(c) => [c.(items := c.items + if st.skip then [] else ItemsAfter(lines))]
  }

  /** From any loop state, the rest of the loop and the flush give the closed sections, the open one and the blocks. */
  lemma {:induction false} StepsBlocks(st: ParseState, lines: seq<string>)
    ensures Flushed(Steps(st, lines)) == st.sections + OpenAfter(st, lines) + Blocks(lines)
    decreases |lines|
  {
    if lines == [] {
      if st.current.Some? {
        assert st.current.value.items + [] == st.current.value.items;
      }
    } else {
      var line, rest := lines[0], lines[1..];
      var next := Step(st, line);
      StepsBlocks(next, rest);
      if IsHeading(line) {
        assert OpenAfter(st, lines) == if st.current.Some? then [st.current.value] else [] by {
          if st.current.Some? { assert st.current.value.items + [] == st.current.value.items; }
        }
        assert next.sections == st.sections + OpenAfter(st, lines);
        var heading := Section(Trim(line[3..]), ItemsAfter(rest));
        assert [] + ItemsAfter(rest) == ItemsAfter(rest);
        assert OpenAfter(next, rest) == [heading];
        assert Blocks(lines) == [heading] + Blocks(rest);
        assert next.sections + [heading] + Blocks(rest) == st.sections + OpenAfter(st, lines) + ([heading] + Blocks(rest));
      } else if IsThanks(line) {
        if st.current.Some? {
          assert st.current.value.items + [] == st.current.value.items;
        }
      } else if IsItem(line) && !st.skip && st.current.Some? {
        var c := st.current.value;
        var x := Trim(line[2..]);
        assert ItemsAfter(lines) == [x] + ItemsAfter(rest);
        assert c.items + ([x] + ItemsAfter(rest)) == (c.items + [x]) + ItemsAfter(rest);
        assert next == ParseState(st.sections, Some(c.(items := c.items + [x])), false);
        assert OpenAfter(next, rest) == OpenAfter(st, lines);
        assert Blocks(lines) == Blocks(rest);
      } else {
        assert next == st && Blocks(lines) == Blocks(rest);
        assert OpenAfter(st, rest) == OpenAfter(st, lines) by {
          if !st.skip && st.current.Some? { assert ItemsAfter(lines) == ItemsAfter(rest); }
        }
      }
    }
  }

  /** `parseMarkdown` gives exactly the blocks of the body's lines: per heading, its title and its items. */
  lemma ParseBlocks(body: string)
    ensures Parse(body) == Blocks(Split(body, "\n"))
  {
    StepsBlocks(Start, Split(body, "\n"));
    assert Start.sections + OpenAfter(Start, Split(body, "\n")) == [];
  }

  /**
   * Lines before the first heading are dropped: with no open section, a run of lines without a
   * heading adds nothing, and nothing at all when no heading follows.
   */
  lemma {:induction false} NoHeadingNoSections(st: ParseState, pre: seq<string>, lines: seq<string>)
    requires st.sections == [] && st.current.None?
    requires forall i :: 0 <= i < |pre| ==> !IsHeading(pre[i])
    ensures Flushed(Steps(st, pre + lines)) == Blocks(lines)
    ensures Flushed(Steps(st, pre)) == []
    decreases |pre|
  {
    StepsBlocks(st, pre + lines);
    StepsBlocks(st, pre);
    BlocksSkip(pre, lines);
    BlocksSkip(pre, []);
    assert pre + [] == pre;
  }

  /** A prefix without headings contributes no blocks. */
  lemma {:induction false} BlocksSkip(pre: seq<string>, lines: seq<string>)
    requires forall i :: 0 <= i < |pre| ==> !IsHeading(pre[i])
    ensures Blocks(pre + lines) == Blocks(lines)
    decreases |pre|
  {
    if pre == [] {
      assert pre + lines == lines;
    } else {
      assert (pre + lines)[0] == pre[0];
      assert (pre + lines)[1..] == pre[1..] + lines;
      assert forall i :: 0 <= i < |pre[1..]| ==> pre[1..][i] == pre[i + 1];
      BlocksSkip(pre[1..], lines);
      assert Blocks(pre + lines) == Blocks(pre[1..] + lines);
    }
  }

  /** After a thank-you line, items are ignored until the next heading. */
  lemma {:induction false} ThanksSuppresses(st: ParseState, lines: seq<string>)
    requires st.skip
    requires forall i :: 0 <= i < |lines| ==> !IsHeading(lines[i])
    ensures Steps(st, lines) == st
    decreases |lines|
  {
    if lines != [] {
      ThanksSuppresses(Step(st, lines[0]), lines[1..]);
    }
  }

  predicate NameChars(name: string) {
    |name| >= 1 && forall k :: 0 <= k < |name| ==> IsWordChar(name[k]) || name[k] == '-'
  }

  /** The regular-expression group `\s*\(@([\w-]+)\)` matched against the whole of `rest`: the username. */
  function CreditMatch(rest: string): (r: Option<string>)
    ensures r.Some? ==> NameChars(r.value)
    decreases |rest|
  {
    if rest != [] && IsSpace(rest[0]) then CreditMatch(rest[1..])
    else if |rest| >= 4 && rest[0] == '(' && rest[1] == '@' && rest[|rest| - 1] == ')'
            && NameChars(rest[2..|rest| - 1])
    then Some(rest[2..|rest| - 1])
    else None
  }

  /** The lazy `(.+?)` may stop after `k` characters: they hold no line terminator and the credit follows. */
  predicate CreditAt(item: string, k: int) {
    && 1 <= k <= |item|
    && (forall i :: 0 <= i < k ==> !IsLineTerminator(item[i]))
    && CreditMatch(item[k..]).Some?
  }

  /** The search for the shortest text, from `k` characters on. */
  function SplitFrom(item: string, k: nat): (r: (string, Option<string>))
    requires 1 <= k <= |item|
    requires forall i :: 0 <= i < k - 1 ==> !IsLineTerminator(item[i])
    ensures r.1.Some? ==>
      && k <= |r.0| <= |item| && r.0 == item[..|r.0|]
      && CreditAt(item, |r.0|) && r.1 == CreditMatch(item[|r.0|..])
      && forall j :: k <= j < |r.0| ==> !CreditAt(item, j)
    ensures r.1.None? ==> r.0 == item && forall j :: k <= j <= |item| ==> !CreditAt(item, j)
    decreases |item| - k
  {
    if IsLineTerminator(item[k - 1]) then (item, None)
    else match CreditMatch(item[k..])
      case Some(name) => (item[..k], Some(name))
      case None => if k == |item| then (item, None) else SplitFrom(item, k + 1)
  }

  /**
   * `ReleaseItem`'s split of an item into its text and the credited username (`None` for
   * `undefined`): the text is the shortest non-empty single-line prefix after which the credit
   * ends the item; without such a prefix the whole item is the text.
   */
  function ReleaseItem(item: string): (r: (string, Option<string>))
    ensures r.1.None? ==> r.0 == item
    ensures r.1.None? <==> forall k :: 0 <= k <= |item| ==> !CreditAt(item, k)
    ensures r.1.Some? ==>
      && |r.0| <= |item| && r.0 == item[..|r.0|] && CreditAt(item, |r.0|) && r.1 == CreditMatch(item[|r.0|..])
      && forall j :: 0 <= j < |r.0| ==> !CreditAt(item, j)
  {
    if item == [] then (item, None) else SplitFrom(item, 1)
  }

  /** A run of whitespace and then `(@name)` is a credit for `name`. */
  lemma {:induction false} CreditOfTail(space: string, name: string)
    requires AllSpace(space) && NameChars(name)
    ensures CreditMatch(space + "(@" + name + ")") == Some(name)
    decreases |space|
  {
    var rest := space + "(@" + name + ")";
    if space != [] {
      assert rest[1..] == space[1..] + "(@" + name + ")";
      CreditOfTail(space[1..], name);
    } else {
      assert rest == "(@" + name + ")";
      assert rest[2..|rest| - 1] == name;
    }
  }

  /** Text that does not end in whitespace cannot be part of the credit group. */
  lemma {:induction false} NoCreditInText(u: string, space: string, name: string)
    requires |u| >= 1 && !IsSpace(u[|u| - 1])
    requires AllSpace(space) && NameChars(name)
    ensures CreditMatch(u + space + "(@" + name + ")").None?
    decreases |u|
  {
    var rest := u + space + "(@" + name + ")";
    if IsSpace(u[0]) {
      assert rest[1..] == u[1..] + space + "(@" + name + ")";
      NoCreditInText(u[1..], space, name);
    } else if |u| + |space| == 1 {
      assert rest[1] == '(';
    } else if |rest| >= 4 && rest[0] == '(' && rest[1] == '@' && rest[|rest| - 1] == ')' {
      // the credit's own `(` would fall inside the name
      var p := |u| + |space|;
      assert rest[p] == '(';
      assert rest[2..|rest| - 1][p - 2] == '(';
    }
  }

  /**
   * An item ending in `(@name)`, after optional whitespace, splits into the text before that
   * whitespace and the username, provided the text is one line and does not end in whitespace.
   */
  lemma CreditedItem(text: string, space: string, name: string)
    requires |text| >= 1 && !IsSpace(text[|text| - 1])
    requires forall k :: 0 <= k < |text| ==> !IsLineTerminator(text[k])
    requires AllSpace(space) && NameChars(name)
    ensures ReleaseItem(text + space + "(@" + name + ")") == (text, Some(name))
  {
    var item := text + space + "(@" + name + ")";
    assert item[|text|..] == space + "(@" + name + ")";
    CreditOfTail(space, name);
    assert CreditAt(item, |text|);
    forall k | 0 <= k < |text| ensures !CreditAt(item, k) {
      if k >= 1 {
        assert item[k..] == text[k..] + space + "(@" + name + ")";
        NoCreditInText(text[k..], space, name);
      }
    }
    var r := ReleaseItem(item);
    assert r.1.Some?;
    assert |r.0| == |text|;
    assert item[..|text|] == text;
  }
}
