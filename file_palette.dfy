/**
 * The list builders and the highlight state of the app's file-and-command palette dialog
 * (`DialogSelectFile`): which commands may be offered, the pinned picks, the recently opened
 * files and the entries shown for a query.
 *
 * The tab store, the tab-to-path lookup and the file search are parameters.
 */
module FilePalette {
  import opened Wrappers
  import opened Text
  import opened Sorting

  datatype CommandOption = CommandOption(
    id: string, title: string, description: Option<string>, keybind: Option<string>, disabled: bool)

  datatype EntryType = CommandEntry | FileEntry
  datatype Category = Commands | Files

  datatype Entry = Entry(
    id: string, kind: EntryType, title: string, description: Option<string>, keybind: Option<string>,
    category: Category, option: Option<CommandOption>, path: Option<string>)

  /** The commands pinned at the top of an empty query, in this order. */
  const Common: seq<string> := ["session.new", "session.previous", "session.next", "terminal.toggle", "review.toggle"]
  const Limit: nat := 5

  predicate Permitted(o: CommandOption) {
    !o.disabled && !StartsWith(o.id, "suggested.") && o.id != "file.open"
  }

  /** `allowed`: the enabled commands, without suggestions and without `file.open`, in order. */
  function Allowed(options: seq<CommandOption>): (r: seq<CommandOption>)
    ensures forall o :: o in r <==> o in options && Permitted(o)
    ensures |r| <= |options|
  {
    if options == [] then []
    else (if Permitted(options[0]) then [options[0]] else []) + Allowed(options[1..])
  }

  /** Filtering twice changes nothing. */
  lemma {:induction false} AllowedIdempotent(options: seq<CommandOption>)
    ensures Allowed(Allowed(options)) == Allowed(options)
  {
    if options != [] {
      AllowedIdempotent(options[1..]);
      var rest := Allowed(options[1..]);
      if Permitted(options[0]) {
        var x := [options[0]] + rest;
        assert x[0] == options[0] && x[1..] == rest;
        assert Allowed(x) == [options[0]] + Allowed(rest);
      } else {
        assert Allowed(options) == rest;
      }
    }
  }

  /** One option is kept exactly when it is permitted. */
  lemma AllowedSingle(o: CommandOption)
    ensures Allowed([o]) == if Permitted(o) then [o] else []
  {
    assert [o][1..] == [];
  }

  /**
   * The filter works option by option and keeps their order: filtering `a + b` is filtering `a`,
   * then `b`. With `AllowedSingle`, this fixes `Allowed` as the permitted options in list order.
   */
  lemma {:induction false} AllowedAppend(a: seq<CommandOption>, b: seq<CommandOption>)
    ensures Allowed(a + b) == Allowed(a) + Allowed(b)
    decreases |a|
  {
    if a == [] {
      assert a + b == b;
    } else {
      assert (a + b)[0] == a[0] && (a + b)[1..] == a[1..] + b;
      AllowedAppend(a[1..], b);
    }
  }

  const CommandPrefix: string := "command:"
  const FilePrefix: string := "file:"

  function CommandItem(o: CommandOption): (r: Entry)
    ensures r.kind == CommandEntry && r.category == Commands && r.option == Some(o)
  {
    Entry(CommandPrefix + o.id, CommandEntry, o.title, o.description, o.keybind, Commands, Some(o), None)
  }

  function FileItem(path: string): (r: Entry)
    ensures r.kind == FileEntry && r.category == Files && r.path == Some(path)
  {
    Entry(FilePrefix + path, FileEntry, path, None, None, Files, None, Some(path))
  }

  /** Entry ids tell commands and files apart, and each kind's id determines its command or path. */
  lemma EntryIds(a: CommandOption, b: CommandOption, p: string, q: string)
    ensures CommandItem(a).id != FileItem(p).id
    ensures CommandItem(a).id == CommandItem(b).id <==> a.id == b.id
    ensures FileItem(p).id == FileItem(q).id <==> p == q
  {
    assert CommandItem(a).id[0] == 'c' && FileItem(p).id[0] == 'f';
    if CommandItem(a).id == CommandItem(b).id {
      assert a.id == CommandItem(a).id[|CommandPrefix|..];
    }
    if FileItem(p).id == FileItem(q).id {
      assert p == FileItem(p).id[|FilePrefix|..];
    }
  }

  function CommandItems(options: seq<CommandOption>): (r: seq<Entry>)
    ensures |r| == |options| && forall i :: 0 <= i < |r| ==> r[i] == CommandItem(options[i])
  {
    seq(|options|, i requires 0 <= i < |options| => CommandItem(options[i]))
  }

  function FileItems(paths: seq<string>): (r: seq<Entry>)
    ensures |r| == |paths| && forall i :: 0 <= i < |r| ==> r[i] == FileItem(paths[i])
  {
    seq(|paths|, i requires 0 <= i < |paths| => FileItem(paths[i]))
  }

  /** The position of a command id in `Common`, or 5 for the others. */
  function CommonIndex(id: string): (r: nat)
    ensures r < 5 <==> id in Common
    ensures r < 5 ==> Common[r] == id
  {
    if id == Common[0] then 0
    else if id == Common[1] then 1
    else if id == Common[2] then 2
    else if id == Common[3] then 3
    else if id == Common[4] then 4
    else 5
  }

  function InCommon(options: seq<CommandOption>): (r: seq<CommandOption>)
    ensures forall o :: o in r <==> o in options && o.id in Common
  {
    if options == [] then []
    else (if options[0].id in Common then [options[0]] else []) + InCommon(options[1..])
  }

  function ByCommon(): (CommandOption, CommandOption) -> bool {
    (a: CommandOption, b: CommandOption) => CommonIndex(a.id) <= CommonIndex(b.id)
  }

  lemma ByCommonPreorder()
    ensures TotalPreorder(ByCommon())
  {
  }

  /**
   * The options behind `picks`: when some common command is allowed, exactly the allowed
   * common commands, in the order of `Common` (a stable sort); otherwise the first five.
   */
  function PickOptions(all: seq<CommandOption>): (r: seq<CommandOption>)
    ensures InCommon(all) != [] ==>
      && multiset(r) == multiset(InCommon(all))
      && (forall i, j :: 0 <= i < j < |r| ==> CommonIndex(r[i].id) <= CommonIndex(r[j].id))
    ensures InCommon(all) == [] ==> r == all[..if |all| < Limit then |all| else Limit]
  {
    var picked := InCommon(all);
    if picked != [] then
      ByCommonPreorder();
      SortBySorted(picked, ByCommon());
      var sorted := SortBy(picked, ByCommon());
      assert forall i, j :: 0 <= i < j < |sorted| ==> ByCommon()(sorted[i], sorted[j]);
      sorted
    else all[..if |all| < Limit then |all| else Limit]
  }

  /** Every pick is an allowed command, and a common one whenever any common command is allowed. */
  lemma PicksAllowed(options: seq<CommandOption>)
    ensures var all := Allowed(options);
      forall o :: o in PickOptions(all) ==> o in options && Permitted(o) && (InCommon(all) != [] ==> o.id in Common)
  {
    var all := Allowed(options);
    var r := PickOptions(all);
    if InCommon(all) != [] {
      forall o | o in r ensures o in InCommon(all) {
        assert o in multiset(r);
      }
    } else {
      forall o | o in r ensures o in all {
        var k :| 0 <= k < |r| && r[k] == o;
        assert all[k] == o;
      }
    }
  }

  function Picks(all: seq<CommandOption>): seq<Entry> {
    CommandItems(PickOptions(all))
  }

  /** `order`: the active tab first, then the other tabs in their order. An empty active tab counts as none. */
  function TabOrder(all: seq<string>, active: string): (r: seq<string>)
    ensures active != "" ==> r != [] && r[0] == active
    ensures forall t :: t in r <==> t in all || (active != "" && t == active)
  {
    if active == "" then all else [active] + Others(all, active)
  }

  function Others(all: seq<string>, active: string): (r: seq<string>)
    ensures forall t :: t in r <==> t in all && t != active
  {
    if all == [] then [] else (if all[0] != active then [all[0]] else []) + Others(all[1..], active)
  }

  /** The distinct non-empty paths of `tabs`, each at its first occurrence. `""` stands for a tab without a path. */
  function FirstPaths(tabs: seq<string>, pathOf: string -> string): (r: seq<string>)
    decreases |tabs|
  {
    if tabs == [] then []
    else
      var p := FirstPaths(tabs[..|tabs| - 1], pathOf);
      var x := pathOf(tabs[|tabs| - 1]);
      if x == "" || x in p then p else p + [x]
  }

  /** Some tab has the path `x`. */
  predicate PathOfSome(tabs: seq<string>, pathOf: string -> string, x: string) {
    exists t :: t in tabs && pathOf(t) == x
  }

  predicate DistinctStrings(s: seq<string>) {
    forall i, j :: 0 <= i < j < |s| ==> s[i] != s[j]
  }

  /** The paths are distinct and non-empty, and they are exactly the non-empty paths of the tabs. */
  lemma {:induction false} FirstPathsSpec(tabs: seq<string>, pathOf: string -> string)
    ensures DistinctStrings(FirstPaths(tabs, pathOf))
    ensures "" !in FirstPaths(tabs, pathOf)
    ensures forall x :: x in FirstPaths(tabs, pathOf) <==> x != "" && PathOfSome(tabs, pathOf, x)
    decreases |tabs|
  {
    if tabs != [] {
      var init := tabs[..|tabs| - 1];
      var last := tabs[|tabs| - 1];
      FirstPathsSpec(init, pathOf);
      assert tabs == init + [last];
      forall x ensures PathOfSome(tabs, pathOf, x) <==> PathOfSome(init, pathOf, x) || pathOf(last) == x {
        if PathOfSome(tabs, pathOf, x) {
          var t :| t in tabs && pathOf(t) == x;
          if t != last { assert t in init; }
        }
      }
    }
  }

  /** Later tabs never displace earlier paths. */
  lemma {:induction false} FirstPathsPrefix(a: seq<string>, b: seq<string>, pathOf: string -> string)
    ensures |FirstPaths(a, pathOf)| <= |FirstPaths(a + b, pathOf)|
    ensures FirstPaths(a, pathOf) == FirstPaths(a + b, pathOf)[..|FirstPaths(a, pathOf)|]
    decreases |b|
  {
    if b == [] {
      assert a + b == a;
    } else {
      var b0 := b[..|b| - 1];
      FirstPathsPrefix(a, b0, pathOf);
      assert (a + b)[..|a + b| - 1] == a + b0;
    }
  }

  function Take(s: seq<string>, n: nat): (r: seq<string>)
    ensures |r| <= n && |r| <= |s| && r == s[..|r|]
    ensures |s| >= n ==> |r| == n
    ensures |s| < n ==> r == s
  {
    if |s| <= n then s else s[..n]
  }

  /** The recent-file paths: the first five distinct paths of the tabs, the active tab's first. */
  function RecentPaths(all: seq<string>, active: string, pathOf: string -> string): seq<string> {
    Take(FirstPaths(TabOrder(all, active), pathOf), Limit)
  }

  /** `recent`: at most five distinct non-empty paths, all from the tabs, and the active tab's path leads. */
  lemma RecentSpec(all: seq<string>, active: string, pathOf: string -> string)
    ensures var r := RecentPaths(all, active, pathOf);
      && |r| <= Limit
      && DistinctStrings(r)
      && (forall x :: x in r ==> x != "" && PathOfSome(TabOrder(all, active), pathOf, x))
      && (active != "" && pathOf(active) != "" ==> r != [] && r[0] == pathOf(active))
  {
    var order := TabOrder(all, active);
    var p := FirstPaths(order, pathOf);
    var r := RecentPaths(all, active, pathOf);
    FirstPathsSpec(order, pathOf);
    assert forall x :: x in r ==> x in p;
    if active != "" && pathOf(active) != "" {
      FirstPathsPrefix([active], order[1..], pathOf);
      assert [active] + order[1..] == order;
      assert [active][..0] == [];
      assert FirstPaths([active], pathOf) == [pathOf(active)];
    }
  }

  /** `recent`, as the loop with its `seen` set. */
  method Recent(all: seq<string>, active: string, pathOf: string -> string) returns (items: seq<Entry>)
    ensures items == FileItems(RecentPaths(all, active, pathOf))
  {
    var order := if active != "" then [active] + Others(all, active) else all;
    var seen: set<string> := {};
    ghost var paths: seq<string> := [];
    items := [];
    for i := 0 to |order|
      invariant paths == FirstPaths(order[..i], pathOf)
      invariant forall x :: x in seen <==> x in paths
      invariant items == FileItems(paths)
    {
      assert order[..i + 1][..i] == order[..i];
      var path := pathOf(order[i]);
      if path == "" {
        continue;
      }
      if path in seen {
        continue;
      }
      seen := seen + {path};
      items := items + [FileItem(path)];
      paths := paths + [path];
    }
    assert order[..|order|] == order;
    if |items| > Limit {
      items := items[..Limit];
    }
  }

  /** `items(filter)`: the entries listed and whether they are grouped by category. */
  method Items(filter: string, options: seq<CommandOption>, tabs: seq<string>, active: string,
               pathOf: string -> string, searchResults: string -> seq<string>)
    returns (entries: seq<Entry>, grouped: bool)
    ensures grouped <==> !AllSpace(filter)
    ensures !grouped ==> entries == Picks(Allowed(options)) + FileItems(RecentPaths(tabs, active, pathOf))
    ensures grouped ==> entries == CommandItems(Allowed(options)) + FileItems(searchResults(Trim(filter)))
  {
    var query := Trim(filter);
    TrimAllSpace(filter);
    grouped := |query| > 0;
    if query == "" {
      var recent := Recent(tabs, active, pathOf);
      entries := Picks(Allowed(options)) + recent;
      return;
    }
    var files := searchResults(query);
    entries := CommandItems(Allowed(options)) + FileItems(files);
  }

  /** What selecting an entry does after closing the dialog. */
  datatype Action = Ignored | RunCommand(option: CommandOption) | OpenFile(path: string) | CloseOnly

  /**
   * The dialog's `state`: the cleanup returned by the highlighted command's `onHighlight`
   * (named by a token) and whether an entry was selected. `ran` records the cleanups called.
   */
  class Palette {
    var cleanup: Option<string>
    var committed: bool
    var ran: seq<string>

    constructor ()
      ensures cleanup == None && !committed && ran == []
    {
      cleanup := None;
      committed := false;
      ran := [];
    }

    /** `handleMove`: the previous cleanup runs; a highlighted command installs its own. */
    method Move(item: Option<Entry>, highlight: Option<string>)
      modifies this
      ensures ran == old(ran) + (if old(cleanup).Some? then [old(cleanup).value] else [])
      ensures committed == old(committed)
      ensures cleanup == (if item.Some? && item.value.kind == CommandEntry then highlight else old(cleanup))
    {
      if cleanup.Some? {
        ran := ran + [cleanup.value];
      }
      if item.None? {
        return;
      }
      if item.value.kind != CommandEntry {
        return;
      }
      cleanup := highlight;
    }

    /** `handleSelect`: commits, forgets the cleanup and runs the command or opens the file. */
    method Select(item: Option<Entry>) returns (action: Action)
      modifies this
      ensures item.None? ==> action == Ignored && cleanup == old(cleanup) && committed == old(committed)
      ensures item.Some? ==> committed && cleanup.None?
      ensures item.Some? && item.value.kind == CommandEntry ==>
        action == (if item.value.option.Some? then RunCommand(item.value.option.value) else CloseOnly)
      ensures item.Some? && item.value.kind == FileEntry ==>
        action == (if item.value.path.Some? && item.value.path.value != "" then OpenFile(item.value.path.value) else CloseOnly)
      ensures ran == old(ran)
    {
      if item.None? {
        return Ignored;
      }
      committed := true;
      cleanup := None;
      if item.value.kind == CommandEntry {
        action := if item.value.option.Some? then RunCommand(item.value.option.value) else CloseOnly;
        return;
      }
      if item.value.path.None? || item.value.path.value == "" {
        return CloseOnly;
      }
      action := OpenFile(item.value.path.value);
    }

    /** The unmount cleanup: runs the pending cleanup unless an entry was selected. */
    method Unmount()
      modifies this
      ensures ran == old(ran) + (if !old(committed) && old(cleanup).Some? then [old(cleanup).value] else [])
      ensures cleanup == old(cleanup) && committed == old(committed)
    {
      if committed {
        return;
      }
      if cleanup.Some? {
        ran := ran + [cleanup.value];
      }
    }
  }
}
