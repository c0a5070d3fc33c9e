/**
 * The site's content index helpers: blog dates and authors, the blog list order, the docs
 * index with section-free slugs and package-local next/prev links, and document summaries.
 * The content tree comes in as a value, and today's date is a `YYYY-MM-DD` parameter.
 */
module Content {
  import opened Wrappers
  import opened Text
  import opened Sorting

  const Months: seq<string> := ["Jan", "Feb", "Mar", "Apr", "May", "Jun", "Jul", "Aug", "Sep", "Oct", "Nov", "Dec"]

  /** `/^\d{4}-\d{2}-\d{2}$/`. */
  predicate DateShaped(date: string) {
    && |date| == 10 && date[4] == '-' && date[7] == '-'
    && forall i :: 0 <= i < 10 && i != 4 && i != 7 ==> IsDigit(date[i])
  }

  /** The month number `+m` of a well-shaped date. */
  function MonthOf(date: string): nat
    requires DateShaped(date)
  {
    DigitsValue(date[5..7])
  }

  /** The day number `+d` of a well-shaped date. */
  function DayOf(date: string): nat
    requires DateShaped(date)
  {
    DigitsValue(date[8..10])
  }

  /**
   * `format_date`: `Mon D YYYY` for a `YYYY-MM-DD` date. A date of another shape, and a month
   * outside 1 to 12, is an error; the day is not checked.
   */
  function FormatDate(date: string): (r: Result<string, string>)
    ensures r.Ok? <==> DateShaped(date) && 1 <= MonthOf(date) <= 12
    ensures !DateShaped(date) ==>
      r == Err("Invalid blog post date for date " + date + ", should be in the format YYYY-MM-DD")
    ensures DateShaped(date) && !(1 <= MonthOf(date) <= 12) ==> r == Err("Invalid blog post month for date " + date)
    ensures r.Ok? ==> r.value == Months[MonthOf(date) - 1] + " " + NatToString(DayOf(date)) + " " + date[..4]
  {
    if !DateShaped(date) then
      Err("Invalid blog post date for date " + date + ", should be in the format YYYY-MM-DD")
    else
      var m := DigitsValue(date[5..7]);
      if m < 1 || m > 12 then Err("Invalid blog post month for date " + date)
      else Ok(Months[m - 1] + " " + NatToString(DigitsValue(date[8..10])) + " " + date[..4])
  }

  /** The day is written without leading zeros and reads back as the day of the date. */
  lemma FormattedDay(date: string)
    requires DateShaped(date)
    ensures var d := NatToString(DayOf(date));
      DigitsValue(d) == DayOf(date) && (|d| == 1 || d[0] != '0') && |d| <= 2
  {
    var day := DayOf(date);
    NatToStringValue(day);
    var s := date[8..10];
    assert s[..1][..0] == [];
    assert DigitsValue(s[..1]) < 10;
    assert day < 100;
    if day >= 10 {
      assert NatToString(day) == NatToString(day / 10) + [DigitChar(day % 10)];
    }
  }

  lemma TwoDigits(a: char, b: char)
    requires IsDigit(a) && IsDigit(b)
    ensures DigitsValue([a, b]) == 10 * DigitValue(a) + DigitValue(b)
  {
    assert [a, b][..1] == [a] && [a][..0] == [];
    assert DigitsValue([a]) == 10 * DigitsValue([]) + DigitValue(a);
    assert DigitsValue([a, b]) == 10 * DigitsValue([a]) + DigitValue(b);
  }

  /** A date with a zero-padded day: the zero is dropped. */
  lemma FormatDateExample()
    ensures FormatDate("2024-03-08") == Ok("Mar 8 2024")
  {
    var date := "2024-03-08";
    assert DateShaped(date);
    assert date[5..7] == ['0', '3'] && date[8..10] == ['0', '8'] && date[..4] == "2024";
    TwoDigits('0', '3');
    TwoDigits('0', '8');
    assert MonthOf(date) == 3 && DayOf(date) == 8;
    assert Months[2] == "Mar" && NatToString(8) == "8";
    assert FormatDate(date).value == "Mar" + " " + "8" + " " + "2024";
    assert "Mar" + " " + "8" + " " + "2024" == "Mar 8 2024";
  }

  /** The first `/` at or after `from`. */
  function NextSlash(s: string, from: nat): (r: Option<nat>)
    ensures r.Some? ==> from <= r.value < |s| && s[r.value] == '/'
    ensures r.Some? ==> forall i :: from <= i < r.value ==> s[i] != '/'
    ensures r.None? ==> forall i :: from <= i < |s| ==> s[i] != '/'
    decreases |s| - from
  {
    if from >= |s| then None
    else if s[from] == '/' then Some(from)
    else NextSlash(s, from + 1)
  }

  /**
   * `\/[^/]+(\/[^/]+)$` tried at `p`: a slash, a non-empty segment, and a second slash that
   * starts a non-empty last segment. The result is the position of the second slash.
   */
  function SectionMatch(s: string, p: nat): (r: Option<nat>)
    requires p < |s|
    ensures r.Some? ==> p + 1 < r.value < |s| - 1
  {
    if s[p] != '/' then None
    else match NextSlash(s, p + 1)
      case None => None
      case Some(j) => if j > p + 1 && j + 1 < |s| && NextSlash(s, j + 1).None? then Some(j) else None
  }

  /** The scan for the leftmost match from `p` on; the match is replaced by its group. */
  function RemoveSectionFrom(s: string, p: nat): string
    decreases |s| - p
  {
    if p >= |s| then s
    else match SectionMatch(s, p)
      case Some(j) => s[..p] + s[j..]
      case None => RemoveSectionFrom(s, p + 1)
  }

  /** `remove_section`: `slug.replace(/\/[^/]+(\/[^/]+)$/g, '$1')`. */
  function RemoveSection(slug: string): string {
    RemoveSectionFrom(slug, 0)
  }

  predicate NoSlash(s: string) {
    forall i :: 0 <= i < |s| ==> s[i] != '/'
  }

  /** The segment before the last one is dropped: `x/a/b` becomes `x/b`. */
  lemma RemoveSectionOf(x: string, a: string, b: string)
    requires a != [] && b != [] && NoSlash(a) && NoSlash(b)
    ensures RemoveSection(x + "/" + a + "/" + b) == x + "/" + b
  {
    var s := x + "/" + a + "/" + b;
    var j := |x| + 1 + |a|;
    assert s[|x|] == '/' && s[j] == '/';
    forall i | |x| + 1 <= i < j ensures s[i] != '/' {
      assert s[i] == a[i - |x| - 1];
    }
    forall i | j + 1 <= i < |s| ensures s[i] != '/' {
      assert s[i] == b[i - j - 1];
    }
    NoMatchBefore(s, |x|, j, 0);
    assert s[..|x|] == x && s[j..] == "/" + b;
  }

  /** Before the second-to-last slash nothing matches: two more slashes follow any earlier one. */
  lemma {:induction false} NoMatchBefore(s: string, p0: nat, j: nat, p: nat)
    requires p <= p0 < j < |s| && s[p0] == '/' && s[j] == '/'
    ensures RemoveSectionFrom(s, p) == RemoveSectionFrom(s, p0)
    decreases p0 - p
  {
    if p < p0 {
      if s[p] == '/' {
        match NextSlash(s, p + 1)
        case None =>
        case Some(k) =>
          assert k <= p0;
          assert NextSlash(s, k + 1).Some? by {
            if k < p0 { assert s[p0] == '/'; } else { assert s[j] == '/'; }
          }
      }
      NoMatchBefore(s, p0, j, p + 1);
    }
  }

  /** A slug with fewer than two slashes is left as it is. */
  lemma {:induction false} FewSlashesKept(s: string, p: nat)
    requires forall i, k :: 0 <= i < k < |s| ==> !(s[i] == '/' && s[k] == '/')
    ensures RemoveSectionFrom(s, p) == s
    decreases |s| - p
  {
    if p < |s| {
      if s[p] == '/' {
        match NextSlash(s, p + 1)
        case None =>
        case Some(k) => assert false;
      }
      FewSlashesKept(s, p + 1);
    }
  }

  // ---- Blog posts ----

  datatype Author = Author(name: string, url: string)

  /** A blog post's file and the metadata fields the list reads. */
  datatype BlogEntry = BlogEntry(
    file: string, author: Option<string>, authorURL: Option<string>, date: Option<string>, pinnedUntil: Option<string>)

  datatype BlogPost = BlogPost(entry: BlogEntry, date: string, dateFormatted: string, authors: seq<Author>, pinned: bool)

  /** A defined, non-empty string: what `if (x)` accepts. */
  predicate Truthy(s: Option<string>) {
    s.Some? && s.value != ""
  }

  predicate Lacks(s: string, c: char) {
    forall i :: 0 <= i < |s| ==> s[i] != c
  }

  /** `s.split(/, ?/)`: pieces separated by a comma and at most one following space. */
  function SplitAuthors(s: string): (r: seq<string>)
    ensures |r| >= 1
    ensures forall i :: 0 <= i < |r| ==> Lacks(r[i], ',')
    decreases |s|
  {
    match IndexOf(s, ",")
    case None =>
      assert forall i :: 0 <= i < |s| ==> s[i] != ',' by {
        forall i | 0 <= i < |s| ensures s[i] != ',' { assert !MatchesAt(s, ",", i) && s[i..i + 1] == [s[i]]; }
      }
      [s]
    case Some(i) =>
      assert forall k :: 0 <= k < i ==> s[k] != ',' by {
        forall k | 0 <= k < i ensures s[k] != ',' { assert !MatchesAt(s, ",", k) && s[k..k + 1] == [s[k]]; }
      }
      var after := s[i + 1..];
      var rest := if after != [] && after[0] == ' ' then after[1..] else after;
      [s[..i]] + SplitAuthors(rest)
  }

  /** The first comma of `a + b` is the one that starts `b` when `a` has none. */
  lemma FirstComma(a: string, b: string)
    requires Lacks(a, ',') && b != [] && b[0] == ','
    ensures IndexOf(a + b, ",") == Some(|a|)
  {
    var s := a + b;
    assert s[|a|..|a| + 1] == ",";
    assert MatchesAt(s, ",", |a|);
    forall j | 0 <= j < |a| ensures !MatchesAt(s, ",", j) {
      assert s[j..j + 1][0] == a[j];
    }
  }

  /** A name followed by `, ` and a text that does not start with a space splits off as the first piece. */
  lemma SplitAuthorsCons(a: string, tail: string)
    requires Lacks(a, ',') && (tail == [] || tail[0] != ' ')
    ensures SplitAuthors(a + (", " + tail)) == [a] + SplitAuthors(tail)
  {
    var s := a + (", " + tail);
    FirstComma(a, ", " + tail);
    var after := s[|a| + 1..];
    assert after == " " + tail;
    assert after[1..] == tail;
    assert s[..|a|] == a;
  }

  /** A join of names whose first does not start with a space does not start with one either. */
  lemma JoinNoLeadingSpace(names: seq<string>)
    requires |names| >= 1 && (names[0] == [] || names[0][0] != ' ')
    ensures Join(names, ", ") == [] || Join(names, ", ")[0] != ' '
  {
    if |names| > 1 {
      var j := Join(names, ", ");
      assert j == names[0] + ", " + Join(names[1..], ", ");
      if names[0] == [] {
        assert j[0] == ',';
      } else {
        assert j[0] == names[0][0];
      }
    }
  }

  /** Names joined with `, ` split back into the same names. */
  lemma {:induction false} SplitJoinAuthors(names: seq<string>)
    requires |names| >= 1
    requires forall i :: 0 <= i < |names| ==> Lacks(names[i], ',')
    requires forall i :: 1 <= i < |names| ==> names[i] == [] || names[i][0] != ' '
    ensures SplitAuthors(Join(names, ", ")) == names
    decreases |names|
  {
    if |names| == 1 {
      assert Join(names, ", ") == names[0];
    } else {
      var rest := names[1..];
      var tail := Join(rest, ", ");
      assert Join(names, ", ") == names[0] + (", " + tail);
      assert rest[0] == names[1];
      JoinNoLeadingSpace(rest);
      SplitAuthorsCons(names[0], tail);
      assert forall i :: 0 <= i < |rest| ==> rest[i] == names[i + 1];
      SplitJoinAuthors(rest);
      assert names == [names[0]] + rest;
    }
  }

  /** The author list: empty without an author; the name and URL lists must have the same length. */
  function Authors(entry: BlogEntry): (r: Result<seq<Author>, string>)
    ensures !Truthy(entry.author) ==> r == Ok([])
    ensures Truthy(entry.author) && entry.authorURL.None? ==> r.Err?
    ensures Truthy(entry.author) && entry.authorURL.Some? ==>
      var names, urls := SplitAuthors(entry.author.value), SplitAuthors(entry.authorURL.value);
      && (r.Err? <==> |names| != |urls|)
      && (r.Err? ==> r.error == "Mismatched authors and URLs in " + entry.file)
      && (r.Ok? ==> |r.value| == |names| && forall i :: 0 <= i < |names| ==> r.value[i] == Author(names[i], urls[i]))
  {
    if !Truthy(entry.author) then Ok([])
    else if entry.authorURL.None? then Err("Cannot read properties of undefined (reading 'split')")
    else
      var names := SplitAuthors(entry.author.value);
      var urls := SplitAuthors(entry.authorURL.value);
      if |names| != |urls| then Err("Mismatched authors and URLs in " + entry.file)
      else Ok(seq(|names|, i requires 0 <= i < |names| => Author(names[i], urls[i])))
  }

  /** The last `/` segment of the file name. */
  function LastSegment(file: string): string {
    var parts := Split(file, "/");
    parts[|parts| - 1]
  }

  /** `post.metadata.date ?? post.file.split('/').pop().slice(0, 10)`. */
  function PostDate(entry: BlogEntry): (r: string)
    ensures entry.date.Some? ==> r == entry.date.value
    ensures entry.date.None? ==> r == LastSegment(entry.file)[..if |LastSegment(entry.file)| < 10 then |LastSegment(entry.file)| else 10]
  {
    match entry.date
    case Some(d) => d
    case None =>
      var name := LastSegment(entry.file);
      name[..if |name| < 10 then |name| else 10]
  }

  /** Pinned while `pinnedUntil` is set and sorts after today. */
  predicate Pinned(entry: BlogEntry, today: string) {
    Truthy(entry.pinnedUntil) && StrLt(today, entry.pinnedUntil.value)
  }

  /** One post of the list: its authors, date and formatted date; either may fail. */
  function DerivePost(entry: BlogEntry, today: string): (r: Result<BlogPost, string>)
    ensures r.Ok? <==> Authors(entry).Ok? && FormatDate(PostDate(entry)).Ok?
    ensures r.Ok? ==> r.value == BlogPost(entry, PostDate(entry), FormatDate(PostDate(entry)).value,
      Authors(entry).value, Pinned(entry, today))
  {
    match Authors(entry)
    case Err(e) => Err(e)
    case Ok(authors) =>
      var date := PostDate(entry);
      match FormatDate(date)
      case Err(e) => Err(e)
      case Ok(formatted) => Ok(BlogPost(entry, date, formatted, authors, Pinned(entry, today)))
  }

  /** The `map` over the posts: the first failure aborts the list. */
  function DeriveAll(entries: seq<BlogEntry>, today: string): (r: Result<seq<BlogPost>, string>)
    ensures r.Ok? <==> forall i :: 0 <= i < |entries| ==> DerivePost(entries[i], today).Ok?
    ensures r.Ok? ==> |r.value| == |entries| && forall i :: 0 <= i < |entries| ==> r.value[i] == DerivePost(entries[i], today).value
  {
    if entries == [] then Ok([])
    else
      match DerivePost(entries[0], today)
      case Err(e) => Err(e)
      case Ok(p) =>
        var rest := DeriveAll(entries[1..], today);
        assert forall i :: 1 <= i < |entries| ==> entries[1..][i - 1] == entries[i];
        match rest
        case Err(e) => Err(e)
        case Ok(ps) => Ok([p] + ps)
  }

  /** The blog comparator: pinned posts first, then later dates first; it never returns 0. */
  function BlogCompare(a: BlogPost, b: BlogPost): int {
    if a.pinned != b.pinned then (if a.pinned then -1 else 1)
    else if StrLt(a.date, b.date) then 1 else -1
  }

  function BlogLe(): (BlogPost, BlogPost) -> bool {
    (a: BlogPost, b: BlogPost) => BlogCompare(a, b) <= 0
  }

  /** Not sorting before means sorting after. */
  lemma NotLtIsGe(a: string, b: string)
    ensures !StrLt(a, b) ==> StrLe(b, a)
  {
    StrLeTotal(a, b);
    if a == b { StrLeReflexive(a); }
  }

  lemma BlogLeTotalPreorder()
    ensures TotalPreorder(BlogLe())
  {
    var le := BlogLe();
    forall a: BlogPost, b: BlogPost ensures le(a, b) || le(b, a) {
      if StrLe(a.date, b.date) && StrLe(b.date, a.date) {
        StrLeAntisymmetric(a.date, b.date);
      }
    }
    forall a: BlogPost, b: BlogPost, c: BlogPost | le(a, b) && le(b, c) ensures le(a, c) {
      if a.pinned == b.pinned == c.pinned {
        NotLtIsGe(a.date, b.date);
        NotLtIsGe(b.date, c.date);
        StrLeTransitive(c.date, b.date, a.date);
        if StrLe(a.date, c.date) { StrLeAntisymmetric(a.date, c.date); }
      }
    }
  }

  /**
   * The sorted list: a permutation of the posts with the pinned ones first and, among posts
   * pinned alike, later dates first. Posts with equal dates may come in either order.
   */
  function SortPosts(posts: seq<BlogPost>): (r: seq<BlogPost>)
    ensures multiset(r) == multiset(posts)
    ensures forall i, j :: 0 <= i < j < |r| && r[j].pinned ==> r[i].pinned
    ensures forall i, j :: 0 <= i < j < |r| && r[i].pinned == r[j].pinned ==> StrLe(r[j].date, r[i].date)
  {
    BlogLeTotalPreorder();
    SortBySorted(posts, BlogLe());
    var r := SortBy(posts, BlogLe());
    assert forall i, j :: 0 <= i < j < |r| ==> BlogLe()(r[i], r[j]);
    assert forall i, j :: 0 <= i < j < |r| && r[i].pinned == r[j].pinned ==> StrLe(r[j].date, r[i].date) by {
      forall i, j | 0 <= i < j < |r| && r[i].pinned == r[j].pinned ensures StrLe(r[j].date, r[i].date) {
        assert BlogLe()(r[i], r[j]);
        NotLtIsGe(r[i].date, r[j].date);
      }
    }
    r
  }

  /** `blog_posts`: every post derived, then sorted. */
  function BlogPosts(entries: seq<BlogEntry>, today: string): (r: Result<seq<BlogPost>, string>)
    ensures r.Ok? <==> DeriveAll(entries, today).Ok?
    ensures r.Ok? ==> multiset(r.value) == multiset(DeriveAll(entries, today).value)
  {
    match DeriveAll(entries, today)
    case Err(e) => Err(e)
    case Ok(posts) => Ok(SortPosts(posts))
  }

  // ---- Docs ----

  datatype Link = Link(slug: string, title: string)

  /** A node of the content tree: a topic, a section or a page. */
  datatype Document = Document(
    slug: string, file: string, title: string, metadata: map<string, string>,
    next: Option<Link>, prev: Option<Link>, children: seq<Document>)

  /** The docs index: topics by slug and pages by section-free slug. */
  datatype Docs = Docs(topics: map<string, Document>, pages: map<string, Document>)

  /** `topic.slug.split('/')[1]`; without a second segment the template literal writes `undefined`. */
  function PackageOf(topicSlug: string): string {
    var parts := Split(topicSlug, "/");
    if |parts| >= 2 then parts[1] else "undefined"
  }

  /** A next/prev link is kept, section-free, only when it stays under `docs/<pkg>/`. */
  function AdjustLink(pkg: string, link: Option<Link>): (r: Option<Link>)
    ensures r.Some? <==> link.Some? && StartsWith(link.value.slug, "docs/" + pkg + "/")
    ensures r.Some? ==> r.value == Link(RemoveSection(link.value.slug), link.value.title)
  {
    if link.Some? && StartsWith(link.value.slug, "docs/" + pkg + "/") then
      Some(Link(RemoveSection(link.value.slug), link.value.title))
    else None
  }

  function TransformPage(pkg: string, page: Document): Document {
    page.(slug := RemoveSection(page.slug), next := AdjustLink(pkg, page.next), prev := AdjustLink(pkg, page.prev))
  }

  function TransformPages(pkg: string, pages: seq<Document>): (r: seq<Document>)
    ensures |r| == |pages| && forall i :: 0 <= i < |pages| ==> r[i] == TransformPage(pkg, pages[i])
  {
    seq(|pages|, i requires 0 <= i < |pages| => TransformPage(pkg, pages[i]))
  }

  function TransformSection(pkg: string, section: Document): Document {
    section.(children := TransformPages(pkg, section.children))
  }

  function TransformSections(pkg: string, sections: seq<Document>): (r: seq<Document>)
    ensures |r| == |sections| && forall i :: 0 <= i < |sections| ==> r[i] == TransformSection(pkg, sections[i])
  {
    seq(|sections|, i requires 0 <= i < |sections| => TransformSection(pkg, sections[i]))
  }

  function TransformTopic(topic: Document): Document {
    topic.(children := TransformSections(PackageOf(topic.slug), topic.children))
  }

  /** The transformed pages of some sections, in loop order. */
  function SectionPages(pkg: string, sections: seq<Document>): seq<Document>
    decreases |sections|
  {
    if sections == [] then [] else TransformPages(pkg, sections[0].children) + SectionPages(pkg, sections[1..])
  }

  /** The transformed pages of all topics, in loop order. */
  function AllPages(topics: seq<Document>): seq<Document>
    decreases |topics|
  {
    if topics == [] then [] else SectionPages(PackageOf(topics[0].slug), topics[0].children) + AllPages(topics[1..])
  }

  /** Adding pages by slug; a slug that is already present is the conflict error. */
  function AddPages(acc: map<string, Document>, pages: seq<Document>): Result<map<string, Document>, string>
    decreases |pages|
  {
    if pages == [] then Ok(acc)
    else if pages[0].slug in acc then Err(acc[pages[0].slug].file + " conflicts with " + pages[0].file)
    else AddPages(acc[pages[0].slug := pages[0]], pages[1..])
  }

  /** Topics by slug; a later topic with the same slug replaces an earlier one. */
  function TopicMap(topics: seq<Document>): map<string, Document>
    decreases |topics|
  {
    if topics == [] then map[]
    else TopicMap(topics[..|topics| - 1])[topics[|topics| - 1].slug := TransformTopic(topics[|topics| - 1])]
  }

  /** What `create_docs` returns or throws. */
  function DocsOf(topics: seq<Document>): Result<Docs, string> {
    match AddPages(map[], AllPages(topics))
    case Err(e) => Err(e)
    case Ok(pages) => Ok(Docs(TopicMap(topics), pages))
  }

  lemma TransformPagesCons(pkg: string, ps: seq<Document>, k: nat)
    requires k < |ps|
    ensures TransformPages(pkg, ps[k..]) == [TransformPage(pkg, ps[k])] + TransformPages(pkg, ps[k + 1..])
  {
  }

  lemma SectionPagesCons(pkg: string, ss: seq<Document>, j: nat)
    requires j < |ss|
    ensures SectionPages(pkg, ss[j..]) == TransformPages(pkg, ss[j].children) + SectionPages(pkg, ss[j + 1..])
  {
    assert ss[j..][1..] == ss[j + 1..];
  }

  lemma AllPagesCons(topics: seq<Document>, i: nat)
    requires i < |topics|
    ensures AllPages(topics[i..]) == SectionPages(PackageOf(topics[i].slug), topics[i].children) + AllPages(topics[i + 1..])
  {
    assert topics[i..][1..] == topics[i + 1..];
  }

  /** One page stored, or the conflict it raises. */
  lemma AddStep(pages: map<string, Document>, remaining: seq<Document>, t: Document)
    requires remaining != [] && remaining[0] == t
    ensures t.slug in pages ==> AddPages(pages, remaining) == Err(pages[t.slug].file + " conflicts with " + t.file)
    ensures t.slug !in pages ==> AddPages(pages, remaining) == AddPages(pages[t.slug := t], remaining[1..])
  {
  }

  /** Adding two runs of pages is adding the first, then the second. */
  lemma {:induction false} AddPagesAppend(acc: map<string, Document>, a: seq<Document>, b: seq<Document>)
    ensures AddPages(acc, a + b) == match AddPages(acc, a) case Err(e) => Err(e) case Ok(m) => AddPages(m, b)
    decreases |a|
  {
    if a == [] {
      assert a + b == b;
    } else {
      assert (a + b)[1..] == a[1..] + b;
      AddPagesAppend(acc[a[0].slug := a[0]], a[1..], b);
    }
  }

  /** The innermost loop: one section's pages, transformed and stored. */
  method StorePages(pkg: string, sectionPages: seq<Document>, pages0: map<string, Document>)
    returns (stored: Result<map<string, Document>, string>, newPages: seq<Document>)
    ensures stored == AddPages(pages0, TransformPages(pkg, sectionPages))
    ensures stored.Ok? ==> newPages == TransformPages(pkg, sectionPages)
  {
    var pages := pages0;
    newPages := [];
    assert sectionPages[0..] == sectionPages;
    for k := 0 to |sectionPages|
      invariant newPages == TransformPages(pkg, sectionPages[..k])
      invariant AddPages(pages, TransformPages(pkg, sectionPages[k..])) == AddPages(pages0, TransformPages(pkg, sectionPages))
    {
      var page := sectionPages[k];
      var slug := RemoveSection(page.slug);
      var transformed := TransformPage(pkg, page);
      TransformPagesCons(pkg, sectionPages, k);
      AddStep(pages, TransformPages(pkg, sectionPages[k..]), transformed);
      if slug in pages {
        return Err(pages[slug].file + " conflicts with " + page.file), newPages;
      }
      pages := pages[slug := transformed];
      newPages := newPages + [transformed];
    }
    assert sectionPages[|sectionPages|..] == [];
    assert sectionPages[..|sectionPages|] == sectionPages;
    stored := Ok(pages);
  }

  /** The middle loop: one topic's sections, with their pages stored. */
  method StoreSections(pkg: string, sections: seq<Document>, pages0: map<string, Document>)
    returns (stored: Result<map<string, Document>, string>, newSections: seq<Document>)
    ensures stored == AddPages(pages0, SectionPages(pkg, sections))
    ensures stored.Ok? ==> newSections == TransformSections(pkg, sections)
  {
    var pages := pages0;
    newSections := [];
    assert sections[0..] == sections;
    for j := 0 to |sections|
      invariant newSections == TransformSections(pkg, sections[..j])
      invariant AddPages(pages, SectionPages(pkg, sections[j..])) == AddPages(pages0, SectionPages(pkg, sections))
    {
      var section := sections[j];
      SectionPagesCons(pkg, sections, j);
      AddPagesAppend(pages, TransformPages(pkg, section.children), SectionPages(pkg, sections[j + 1..]));
      var r, newPages := StorePages(pkg, section.children, pages);
      if r.Err? {
        return Err(r.error), newSections;
      }
      pages := r.value;
      newSections := newSections + [section.(children := newPages)];
    }
    assert sections[..|sections|] == sections;
    stored := Ok(pages);
  }

  /** `create_docs`: the loop over the topics, storing each topic and its pages. */
  method CreateDocs(topics: seq<Document>) returns (r: Result<Docs, string>)
    ensures r == DocsOf(topics)
  {
    var topicMap: map<string, Document> := map[];
    var pages: map<string, Document> := map[];
    assert topics[0..] == topics;
    for i := 0 to |topics|
      invariant topicMap == TopicMap(topics[..i])
      invariant AddPages(pages, AllPages(topics[i..])) == AddPages(map[], AllPages(topics))
    {
      var topic := topics[i];
      var pkg := PackageOf(topic.slug);
      var stored, newSections := StoreSections(pkg, topic.children, pages);
      AllPagesCons(topics, i);
      AddPagesAppend(pages, SectionPages(pkg, topic.children), AllPages(topics[i + 1..]));
      if stored.Err? {
        DocsErr(topics, stored.error);
        return Err(stored.error);
      }
      pages := stored.value;
      TopicMapStep(topics, i);
      topicMap := topicMap[topic.slug := topic.(children := newSections)];
    }
    assert topics[..|topics|] == topics;
    DocsOk(topics, pages);
    return Ok(Docs(topicMap, pages));
  }

  lemma TopicMapStep(topics: seq<Document>, i: nat)
    requires i < |topics|
    ensures TopicMap(topics[..i + 1]) == TopicMap(topics[..i])[topics[i].slug := TransformTopic(topics[i])]
  {
    assert topics[..i + 1][..i] == topics[..i];
  }

  lemma DocsErr(topics: seq<Document>, e: string)
    requires AddPages(map[], AllPages(topics)) == Err(e)
    ensures DocsOf(topics) == Err(e)
  {
  }

  lemma DocsOk(topics: seq<Document>, pages: map<string, Document>)
    requires AddPages(map[], AllPages(topics)) == Ok(pages)
    ensures DocsOf(topics) == Ok(Docs(TopicMap(topics), pages))
  {
  }

  predicate DistinctSlugs(pages: seq<Document>) {
    forall i, j :: 0 <= i < j < |pages| ==> pages[i].slug != pages[j].slug
  }

  /** Adding fails exactly on a repeated slug or one already present. */
  lemma {:induction false} AddPagesOk(acc: map<string, Document>, pages: seq<Document>)
    ensures AddPages(acc, pages).Ok? <==> DistinctSlugs(pages) && forall i :: 0 <= i < |pages| ==> pages[i].slug !in acc
    decreases |pages|
  {
    if pages != [] {
      var p, tail := pages[0], pages[1..];
      AddPagesOk(acc[p.slug := p], tail);
      assert forall i :: 1 <= i < |pages| ==> pages[i] == tail[i - 1];
    }
  }

  /** A successful addition keeps what was there and stores every page under its slug, and nothing else. */
  lemma {:induction false} AddPagesStores(acc: map<string, Document>, pages: seq<Document>)
    requires AddPages(acc, pages).Ok?
    ensures forall k :: k in acc ==> k in AddPages(acc, pages).value && AddPages(acc, pages).value[k] == acc[k]
    ensures forall i :: 0 <= i < |pages| ==>
      pages[i].slug in AddPages(acc, pages).value && AddPages(acc, pages).value[pages[i].slug] == pages[i]
    ensures forall k :: k in AddPages(acc, pages).value ==> k in acc || exists i :: 0 <= i < |pages| && pages[i].slug == k
    decreases |pages|
  {
    if pages != [] {
      var p, tail := pages[0], pages[1..];
      var m := AddPages(acc, pages).value;
      AddPagesStores(acc[p.slug := p], tail);
      assert forall i :: 1 <= i < |pages| ==> pages[i] == tail[i - 1];
      forall k | k in m && k !in acc ensures exists i :: 0 <= i < |pages| && pages[i].slug == k {
        if k != p.slug {
          var i :| 0 <= i < |tail| && tail[i].slug == k;
          assert pages[i + 1].slug == k;
        } else {
          assert pages[0].slug == k;
        }
      }
    }
  }

  /** `create_docs` throws exactly when two pages share a section-free slug. */
  lemma DocsConflict(topics: seq<Document>)
    ensures DocsOf(topics).Err? <==> !DistinctSlugs(AllPages(topics))
    ensures DocsOf(topics).Ok? ==>
      var pages := DocsOf(topics).value.pages;
      var all := AllPages(topics);
      && (forall k :: k in pages <==> exists i :: 0 <= i < |all| && all[i].slug == k)
      && (forall i :: 0 <= i < |all| ==> pages[all[i].slug] == all[i])
  {
    AddPagesOk(map[], AllPages(topics));
    if DocsOf(topics).Ok? {
      AddPagesStores(map[], AllPages(topics));
    }
  }

  /** Every stored page keeps its file and title, has a section-free slug, and keeps only package-local links. */
  lemma PagesTransformed(pkg: string, page: Document)
    ensures var t := TransformPage(pkg, page);
      && t.slug == RemoveSection(page.slug) && t.file == page.file && t.title == page.title
      && t.metadata == page.metadata && t.children == page.children
      && (t.next.Some? <==> page.next.Some? && StartsWith(page.next.value.slug, "docs/" + pkg + "/"))
      && (t.prev.Some? <==> page.prev.Some? && StartsWith(page.prev.value.slug, "docs/" + pkg + "/"))
  {
  }

  // ---- Summaries ----

  datatype Summary = Summary(slug: string, metadata: map<string, string>, children: seq<Summary>)

  /** `create_summary`: the slug, metadata and children, recursively. */
  function CreateSummary(d: Document): Summary
    decreases d, 1
  {
    Summary(d.slug, d.metadata, SummaryList(d.children))
  }

  /** `children.map(create_summary)`. */
  function SummaryList(ds: seq<Document>): (r: seq<Summary>)
    ensures |r| == |ds|
    decreases ds, 0
  {
    seq(|ds|, i requires 0 <= i < |ds| => CreateSummary(ds[i]))
  }

  /** One step of a walk over a tree: entering a node with its slug and metadata, or leaving it. */
  datatype OutlineEvent = Enter(slug: string, metadata: map<string, string>) | Leave

  /**
   * The walk over a tree: each node is entered, its children walked in order, then left. The
   * bracketing makes the outline determine the whole shape: nesting, order and each node's data.
   */
  function DocOutline(d: Document): seq<OutlineEvent>
    decreases d, 1
  {
    [Enter(d.slug, d.metadata)] + DocsOutline(d.children) + [Leave]
  }

  function DocsOutline(ds: seq<Document>): seq<OutlineEvent>
    decreases ds, 0
  {
    if ds == [] then [] else DocOutline(ds[0]) + DocsOutline(ds[1..])
  }

  function SummaryOutline(s: Summary): seq<OutlineEvent>
    decreases s, 1
  {
    [Enter(s.slug, s.metadata)] + SummariesOutline(s.children) + [Leave]
  }

  function SummariesOutline(ss: seq<Summary>): seq<OutlineEvent>
    decreases ss, 0
  {
    if ss == [] then [] else SummaryOutline(ss[0]) + SummariesOutline(ss[1..])
  }

  /** The summary has the document's shape: the same nodes, nesting, order, slugs and metadata. */
  lemma {:induction false} SummaryOutlineKept(d: Document)
    ensures SummaryOutline(CreateSummary(d)) == DocOutline(d)
    decreases d, 1
  {
    ChildrenOutlineKept(d.children);
  }

  lemma {:induction false} ChildrenOutlineKept(ds: seq<Document>)
    ensures SummariesOutline(SummaryList(ds)) == DocsOutline(ds)
    decreases ds, 0
  {
    var ss := SummaryList(ds);
    if ds != [] {
      SummaryOutlineKept(ds[0]);
      ChildrenOutlineKept(ds[1..]);
      assert ss[1..] == SummaryList(ds[1..]);
    }
  }
}
