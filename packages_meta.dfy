/**
 * The package-registry helpers of the site: which packages are official, suffix stripping,
 * and the description and homepage a registry card shows. The featured-package list is a
 * parameter; its entries are the manual package definitions.
 */
module PackagesMeta {
  import opened Wrappers
  import opened Text

  /** A manual package definition: name, optional CLI add-on alias and optional description. */
  datatype Definition = Definition(name: string, svAlias: Option<string>, description: Option<string>)

  /** A featured group: its title, optional blurb and definitions. */
  datatype FeaturedGroup = FeaturedGroup(title: string, description: Option<string>, packages: seq<Definition>)

  /** An entry of the official list: a name-prefix pattern or an exact name. */
  datatype OfficialEntry = Prefix(prefix: string) | Name(name: string)

  const Official: seq<OfficialEntry> := [
    Prefix("@sveltejs/"), Name("prettier-plugin-svelte"), Name("svelte"), Name("svelte2tsx"),
    Name("eslint-plugin-svelte"), Name("sv"), Name("svelte-loader"), Name("rollup-plugin-svelte")
  ]

  const OfficialNames: set<string> := {
    "prettier-plugin-svelte", "svelte", "svelte2tsx", "eslint-plugin-svelte", "sv",
    "svelte-loader", "rollup-plugin-svelte"
  }

  predicate Matches(o: OfficialEntry, pkg: string) {
    match o
    case Prefix(p) => StartsWith(pkg, p)
    case Name(n) => n == pkg
  }

  /** The loop over the official list, returning at the first entry that matches. */
  function AnyMatches(list: seq<OfficialEntry>, pkg: string): (r: bool)
    ensures r <==> exists i :: 0 <= i < |list| && Matches(list[i], pkg)
  {
    if list == [] then false
    else if Matches(list[0], pkg) then true
    else
      var rest := AnyMatches(list[1..], pkg);
      assert forall i :: 0 <= i < |list| - 1 ==> list[1..][i] == list[i + 1];
      rest
  }

  /** `is_official`. */
  function IsOfficial(pkg: string): bool {
    AnyMatches(Official, pkg)
  }

  /** A package is official exactly when it is scoped under `@sveltejs/` or is one of the seven listed names. */
  lemma IsOfficialIff(pkg: string)
    ensures IsOfficial(pkg) <==> StartsWith(pkg, "@sveltejs/") || pkg in OfficialNames
  {
    if pkg in OfficialNames {
      var i := if pkg == "prettier-plugin-svelte" then 1 else if pkg == "svelte" then 2
        else if pkg == "svelte2tsx" then 3 else if pkg == "eslint-plugin-svelte" then 4
        else if pkg == "sv" then 5 else if pkg == "svelte-loader" then 6 else 7;
      assert Matches(Official[i], pkg);
    }
    if StartsWith(pkg, "@sveltejs/") {
      assert Matches(Official[0], pkg);
    }
    if IsOfficial(pkg) {
      var i :| 0 <= i < |Official| && Matches(Official[i], pkg);
      assert i == 0 || Official[i].name in OfficialNames;
    }
  }

  /** `str.slice(0, -ending.length)`; for the empty ending, `slice(0, -0)` is `slice(0, 0)`. */
  function CutEnding(s: string, ending: string): (r: string)
    requires EndsWith(s, ending)
    ensures ending != [] ==> r + ending == s
    ensures ending == [] ==> r == []
  {
    if ending == [] then [] else s[..|s| - |ending|]
  }

  /** `remove_ending_by`: the first ending that the string ends with is cut once. */
  function RemoveEndingBy(s: string, endings: seq<string>): (r: string)
    ensures (forall i :: 0 <= i < |endings| ==> !EndsWith(s, endings[i])) ==> r == s
    ensures forall i :: (0 <= i < |endings| && EndsWith(s, endings[i])
      && (forall j :: 0 <= j < i ==> !EndsWith(s, endings[j]))) ==> r == CutEnding(s, endings[i])
  {
    if endings == [] then s
    else if EndsWith(s, endings[0]) then CutEnding(s, endings[0])
    else
      var r := RemoveEndingBy(s, endings[1..]);
      assert forall i :: 1 <= i < |endings| ==> endings[1..][i - 1] == endings[i];
      r
  }

  /** With a single non-empty ending: cut when present, and the ending put back restores the input. */
  lemma RemoveOneEnding(s: string, ending: string)
    requires ending != []
    ensures EndsWith(s, ending) ==> RemoveEndingBy(s, [ending]) + ending == s
    ensures !EndsWith(s, ending) ==> RemoveEndingBy(s, [ending]) == s
  {
    if EndsWith(s, ending) {
      assert [ending][0] == ending;
    }
  }

  /** The empty ending matches every string and leaves nothing. */
  lemma EmptyEnding(s: string)
    ensures RemoveEndingBy(s, [""]) == ""
  {
    assert EndsWith(s, "") by { assert s[|s|..] == ""; }
  }

  /** The definitions of every group, in order: `FEATURED.flatMap((f) => f.packages)`. */
  function AllDefinitions(groups: seq<FeaturedGroup>): (r: seq<Definition>)
    ensures forall d :: d in r <==> exists g :: g in groups && d in g.packages
  {
    if groups == [] then []
    else
      var rest := AllDefinitions(groups[1..]);
      assert forall g :: g in groups <==> g == groups[0] || g in groups[1..];
      groups[0].packages + rest
  }

  /** The index of the first definition with the given name. */
  function FindIndex(defs: seq<Definition>, name: string): (r: Option<nat>)
    ensures r.None? <==> forall i :: 0 <= i < |defs| ==> defs[i].name != name
    ensures r.Some? ==> (r.value < |defs| && defs[r.value].name == name
      && forall j :: 0 <= j < r.value ==> defs[j].name != name)
  {
    if defs == [] then None
    else if defs[0].name == name then Some(0)
    else
      var r := FindIndex(defs[1..], name);
      assert forall i :: 1 <= i < |defs| ==> defs[1..][i - 1] == defs[i];
      if r.Some? then Some(r.value + 1) else None
  }

  /** `find` by name: the first definition with the given name. */
  function FindByName(defs: seq<Definition>, name: string): (r: Option<Definition>)
    ensures r.None? <==> forall i :: 0 <= i < |defs| ==> defs[i].name != name
    ensures r.Some? ==> exists i :: (0 <= i < |defs| && defs[i] == r.value
      && r.value.name == name && forall j :: 0 <= j < i ==> defs[j].name != name)
  {
    match FindIndex(defs, name)
    case None => None
    case Some(i) => Some(defs[i])
  }

  /** The first `)` at or after `from` with no line terminator before it: where the lazy `(.*?)\)` stops. */
  function CloseParen(s: string, from: nat): (r: Option<nat>)
    ensures r.Some? ==> (from <= r.value < |s| && s[r.value] == ')'
      && forall i :: from <= i < r.value ==> s[i] != ')' && !IsLineTerminator(s[i]))
    decreases |s| - from
  {
    if from >= |s| then None
    else if s[from] == ')' then Some(from)
    else if IsLineTerminator(s[from]) then None
    else CloseParen(s, from + 1)
  }

  /**
   * The match of `\[(.*?)\]\((.*?)\)` at the start of `s` whose first group ends at `j` or later:
   * the lazy first group is extended one character at a time until `](` and a closing `)` follow.
   * The result gives the end of the first group and the position of the closing `)`.
   */
  function LinkFrom(s: string, j: nat): (r: Option<(nat, nat)>)
    requires 1 <= j && s != [] && s[0] == '['
    ensures r.Some? ==> (j <= r.value.0 && r.value.0 + 2 <= r.value.1 < |s|
      && s[r.value.0] == ']' && s[r.value.0 + 1] == '(' && s[r.value.1] == ')')
    decreases |s| - j
  {
    if j >= |s| then None
    else if s[j] == ']' && j + 1 < |s| && s[j + 1] == '(' && CloseParen(s, j + 2).Some? then
      Some((j, CloseParen(s, j + 2).value))
    else if IsLineTerminator(s[j]) then None
    else LinkFrom(s, j + 1)
  }

  /** `desc.replace(/\[(.*?)\]\((.*?)\)/g, '$1')`: every markdown link, left to right, replaced by its text. */
  function StripLinks(s: string): (r: string)
    ensures |r| <= |s|
    decreases |s|
  {
    if s == [] then []
    else if s[0] == '[' && LinkFrom(s, 1).Some? then
      var m := LinkFrom(s, 1).value;
      s[1..m.0] + StripLinks(s[m.1 + 1..])
    else [s[0]] + StripLinks(s[1..])
  }

  /** Text without `[` has no link and is kept as it is. */
  lemma {:induction false} NoLinkKept(s: string)
    requires forall i :: 0 <= i < |s| ==> s[i] != '['
    ensures StripLinks(s) == s
    decreases |s|
  {
    if s != [] {
      NoLinkKept(s[1..]);
    }
  }

  /** Text without `[` in front of anything is copied as it is. */
  lemma {:induction false} PlainPrefix(x: string, y: string)
    requires forall i :: 0 <= i < |x| ==> x[i] != '['
    ensures StripLinks(x + y) == x + StripLinks(y)
    decreases |x|
  {
    if x != [] {
      assert (x + y)[0] == x[0];
      assert (x + y)[1..] == x[1..] + y;
      PlainPrefix(x[1..], y);
    } else {
      assert x + y == y;
    }
  }

  /** A link `[t](u)` at the front becomes `t`, and the rest is processed on its own. */
  lemma LinkFirst(l: string, t: string, u: string, rest: string)
    requires l == "[" + t + "](" + u + ")" + rest
    requires forall i :: 0 <= i < |t| ==> t[i] != ']' && !IsLineTerminator(t[i])
    requires forall i :: 0 <= i < |u| ==> u[i] != ')' && !IsLineTerminator(u[i])
    ensures StripLinks(l) == t + StripLinks(rest)
  {
    LinkAt(l, t, u, rest, 1);
    assert l[1..1 + |t|] == t;
    assert l[1 + |t| + 2 + |u| + 1..] == rest;
  }

  /** The markdown link `[t](u)`. */
  function Link(t: string, u: string): (r: string)
    ensures |r| == |t| + |u| + 4
  {
    "[" + t + "](" + u + ")"
  }

  /** Text before a link is copied, the link `[t](u)` becomes `t`, and the rest is processed on its own. */
  lemma LinkReplaced(x: string, t: string, u: string, rest: string)
    requires forall i :: 0 <= i < |x| ==> x[i] != '['
    requires forall i :: 0 <= i < |t| ==> t[i] != ']' && !IsLineTerminator(t[i])
    requires forall i :: 0 <= i < |u| ==> u[i] != ')' && !IsLineTerminator(u[i])
    ensures StripLinks(x + Link(t, u) + rest) == x + t + StripLinks(rest)
  {
    var l := Link(t, u) + rest;
    assert x + Link(t, u) + rest == x + l;
    PlainPrefix(x, l);
    LinkFirst(l, t, u, rest);
  }

  /** In `[t](u)rest`, the first group stops right after `t` and the second right after `u`. */
  lemma {:induction false} LinkAt(l: string, t: string, u: string, rest: string, j: nat)
    requires l == "[" + t + "](" + u + ")" + rest
    requires forall i :: 0 <= i < |t| ==> t[i] != ']' && !IsLineTerminator(t[i])
    requires forall i :: 0 <= i < |u| ==> u[i] != ')' && !IsLineTerminator(u[i])
    requires 1 <= j <= 1 + |t|
    ensures LinkFrom(l, j) == Some((1 + |t|, 1 + |t| + 2 + |u|))
    decreases 1 + |t| - j
  {
    var e := 1 + |t|;
    if j < e {
      assert l[j] == t[j - 1];
      LinkAt(l, t, u, rest, j + 1);
    } else {
      assert l[e] == ']' && l[e + 1] == '(';
      CloseAt(l, e + 2, u);
    }
  }

  lemma {:induction false} CloseAt(l: string, from: nat, u: string)
    requires from + |u| < |l| && l[from..from + |u|] == u && l[from + |u|] == ')'
    requires forall i :: 0 <= i < |u| ==> u[i] != ')' && !IsLineTerminator(u[i])
    ensures CloseParen(l, from) == Some(from + |u|)
    decreases |u|
  {
    if u != [] {
      assert l[from] == u[0];
      assert l[from + 1..from + 1 + |u[1..]|] == u[1..];
      CloseAt(l, from + 1, u[1..]);
    }
  }

  /**
   * `calculate_description`: a featured definition's own description when it is non-empty,
   * otherwise the npm description (`NO DESCRIPTION!` when there is none) with its markdown
   * links reduced to their text; in both cases one trailing `.` is removed.
   */
  function CalculateDescription(featured: seq<FeaturedGroup>, name: string, npmDescription: Option<string>): (r: string)
    ensures var found := FindByName(AllDefinitions(featured), name);
      var source := if found.Some? && found.value.description.Some? && found.value.description.value != ""
        then found.value.description.value
        else StripLinks(npmDescription.GetOr("NO DESCRIPTION!"));
      && (EndsWith(source, ".") ==> r + "." == source)
      && (!EndsWith(source, ".") ==> r == source)
  {
    var found := FindByName(AllDefinitions(featured), name);
    if found.Some? && found.value.description.Some? && found.value.description.value != "" then
      RemoveOneEnding(found.value.description.value, ".");
      RemoveEndingBy(found.value.description.value, ["."])
    else
      var desc := StripLinks(npmDescription.GetOr("NO DESCRIPTION!"));
      RemoveOneEnding(desc, ".");
      RemoveEndingBy(desc, ["."])
  }

  /** `calculate_homepage`: the npm homepage (`""` when missing) with a trailing `#readme` removed. */
  function CalculateHomepage(homepage: Option<string>): (r: string)
    ensures homepage.None? ==> r == ""
    ensures homepage.Some? && EndsWith(homepage.value, "#readme") ==> r + "#readme" == homepage.value
    ensures homepage.Some? && !EndsWith(homepage.value, "#readme") ==> r == homepage.value
  {
    var h := homepage.GetOr("");
    RemoveOneEnding(h, "#readme");
    assert homepage.None? ==> !EndsWith(h, "#readme");
    RemoveEndingBy(h, ["#readme"])
  }
}
