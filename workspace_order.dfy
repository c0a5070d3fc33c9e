/**
 * The order of a project's workspaces in the sidebar (`workspaceIds`, the workspace-order
 * effect and the workspace drag handlers of the app's layout page). The persisted order is a
 * map from a project's worktree to a list of directories; the candidates are the worktree and
 * its sandboxes, in discovery order.
 */
module WorkspaceOrder {
  import opened Wrappers

  datatype Project = Project(worktree: string, sandboxes: Option<seq<string>>)

  /** `[project.worktree, ...(project.sandboxes ?? [])]`. */
  function Candidates(p: Project): (r: seq<string>)
    ensures |r| >= 1 && r[0] == p.worktree
  {
    [p.worktree] + p.sandboxes.GetOr([])
  }

  /** `xs.filter((d) => ys.includes(d))`, or with `keepIn` false, the ones not in `ys`. */
  function Filter(xs: seq<string>, ys: seq<string>, keepIn: bool): (r: seq<string>)
    ensures forall k :: 0 <= k < |r| ==> r[k] in xs && (r[k] in ys <==> keepIn)
    ensures forall k :: 0 <= k < |xs| && (xs[k] in ys <==> keepIn) ==> xs[k] in r
    ensures |r| <= |xs|
  {
    if xs == [] then []
    else (if (xs[0] in ys) == keepIn then [xs[0]] else []) + Filter(xs[1..], ys, keepIn)
  }

  /** The persisted entries still among the candidates, then the candidates not yet persisted. */
  function Merge(existing: seq<string>, dirs: seq<string>): (r: seq<string>)
    ensures forall d :: d in r <==> d in dirs
  {
    Filter(existing, dirs, true) + Filter(dirs, existing, false)
  }

  /** `workspaceIds(project)`: a missing persisted list gives the candidates as discovered. */
  function WorkspaceIds(project: Option<Project>, order: map<string, seq<string>>): (r: seq<string>)
    ensures project.None? ==> r == []
    ensures project.Some? ==> forall d :: d in r <==> d in Candidates(project.value)
    ensures project.Some? && project.value.worktree !in order ==> r == Candidates(project.value)
  {
    match project
    case None => []
    case Some(p) =>
      var dirs := Candidates(p);
      if p.worktree !in order then dirs else Merge(order[p.worktree], dirs)
  }

  predicate Distinct(s: seq<string>) {
    forall i, j :: 0 <= i < j < |s| ==> s[i] != s[j]
  }

  lemma {:induction false} FilterDistinct(xs: seq<string>, ys: seq<string>, keepIn: bool)
    requires Distinct(xs)
    ensures Distinct(Filter(xs, ys, keepIn))
  {
    if xs != [] {
      FilterDistinct(xs[1..], ys, keepIn);
      var t := Filter(xs[1..], ys, keepIn);
      forall k | 0 <= k < |t| ensures t[k] != xs[0] {
        var m :| 0 <= m < |xs[1..]| && xs[1..][m] == t[k];
        assert xs[m + 1] == t[k];
      }
    }
  }

  lemma DistinctMultiset(a: seq<string>, b: seq<string>)
    requires Distinct(a) && Distinct(b)
    requires forall x :: x in a <==> x in b
    ensures multiset(a) == multiset(b)
  {
    forall x ensures multiset(a)[x] == multiset(b)[x] {
      DistinctCount(a, x);
      DistinctCount(b, x);
    }
  }

  lemma {:induction false} DistinctCount(s: seq<string>, x: string)
    requires Distinct(s)
    ensures multiset(s)[x] == if x in s then 1 else 0
  {
    if s != [] {
      DistinctCount(s[1..], x);
      assert s == [s[0]] + s[1..];
      assert s[0] !in s[1..];
    }
  }

  lemma ConcatDistinct(a: seq<string>, b: seq<string>)
    requires Distinct(a) && Distinct(b)
    requires forall i, j :: 0 <= i < |a| && 0 <= j < |b| ==> a[i] != b[j]
    ensures Distinct(a + b)
  {
    var r := a + b;
    forall i, j | 0 <= i < j < |r| ensures r[i] != r[j] {
      if j < |a| {
        assert r[i] == a[i] && r[j] == a[j];
      } else if i >= |a| {
        assert r[i] == b[i - |a|] && r[j] == b[j - |a|];
      } else {
        assert r[i] == a[i] && r[j] == b[j - |a|];
      }
    }
  }

  /** The merge of a duplicate-free persisted list with distinct candidates has no duplicates. */
  lemma MergeDistinct(existing: seq<string>, dirs: seq<string>)
    requires Distinct(existing) && Distinct(dirs)
    ensures Distinct(Merge(existing, dirs))
  {
    var keep := Filter(existing, dirs, true);
    var missing := Filter(dirs, existing, false);
    FilterDistinct(existing, dirs, true);
    FilterDistinct(dirs, existing, false);
    forall i, j | 0 <= i < |keep| && 0 <= j < |missing| ensures keep[i] != missing[j] {
      assert keep[i] in existing && missing[j] !in existing;
    }
    ConcatDistinct(keep, missing);
  }

  /** `x` occurs in `s` at some position with `y` somewhere after it. */
  predicate Precedes(s: seq<string>, x: string, y: string)
    decreases |s|
  {
    s != [] && ((s[0] == x && y in s[1..]) || Precedes(s[1..], x, y))
  }

  /** `Filter` unfolded once: the head kept or dropped, then the filtered tail. */
  lemma FilterCons(xs: seq<string>, ys: seq<string>, keepIn: bool)
    requires xs != []
    ensures Filter(xs, ys, keepIn) == (if (xs[0] in ys) == keepIn then [xs[0]] else []) + Filter(xs[1..], ys, keepIn)
  {
  }

  /** The filter keeps the order of its input: any two kept entries occur in that order in the input. */
  lemma {:induction false} FilterOrder(xs: seq<string>, ys: seq<string>, keepIn: bool, i: nat, j: nat)
    requires i < j < |Filter(xs, ys, keepIn)|
    ensures Precedes(xs, Filter(xs, ys, keepIn)[i], Filter(xs, ys, keepIn)[j])
    decreases |xs|
  {
    var r := Filter(xs, ys, keepIn);
    var rest := xs[1..];
    var t := Filter(rest, ys, keepIn);
    FilterCons(xs, ys, keepIn);
    if (xs[0] in ys) == keepIn {
      assert r == [xs[0]] + t;
      if i == 0 {
        assert r[j] == t[j - 1] && t[j - 1] in rest;
      } else {
        FilterOrder(rest, ys, keepIn, i - 1, j - 1);
        assert r[i] == t[i - 1] && r[j] == t[j - 1];
      }
    } else {
      assert r == t;
      FilterOrder(rest, ys, keepIn, i, j);
    }
  }

  /** The filter works entry by entry: filtering `a + b` is filtering `a`, then `b`. */
  lemma {:induction false} FilterAppend(a: seq<string>, b: seq<string>, ys: seq<string>, keepIn: bool)
    ensures Filter(a + b, ys, keepIn) == Filter(a, ys, keepIn) + Filter(b, ys, keepIn)
    decreases |a|
  {
    if a == [] {
      assert a + b == b;
    } else {
      assert (a + b)[0] == a[0] && (a + b)[1..] == a[1..] + b;
      FilterAppend(a[1..], b, ys, keepIn);
    }
  }

  /** In `keep + missing`, with every kept entry in `existing` and no missing one, the kept entries come first. */
  lemma SidesOrder(keep: seq<string>, missing: seq<string>, existing: seq<string>, i: nat, j: nat)
    requires i < j < |keep| + |missing|
    requires forall k :: 0 <= k < |keep| ==> keep[k] in existing
    requires forall k :: 0 <= k < |missing| ==> missing[k] !in existing
    ensures var r := keep + missing;
      && (r[j] in existing ==> r[i] in existing)
      && (r[i] in existing && r[j] in existing ==> j < |keep| && r[i] == keep[i] && r[j] == keep[j])
      && (r[i] !in existing && r[j] !in existing ==> |keep| <= i && r[i] == missing[i - |keep|] && r[j] == missing[j - |keep|])
  {
    var r := keep + missing;
    if j < |keep| {
      assert r[i] == keep[i] && r[j] == keep[j];
    } else if i >= |keep| {
      assert r[i] == missing[i - |keep|] && r[j] == missing[j - |keep|];
    } else {
      assert r[i] == keep[i] && r[j] == missing[j - |keep|];
    }
  }

  /**
   * The merged order: every persisted entry still among the candidates comes before every
   * candidate not yet persisted; the persisted ones keep their persisted order, and the new ones
   * their discovery order.
   */
  lemma MergeOrder(existing: seq<string>, dirs: seq<string>, i: nat, j: nat)
    requires i < j < |Merge(existing, dirs)|
    ensures var r := Merge(existing, dirs);
      && (r[j] in existing ==> r[i] in existing)
      && (r[i] in existing && r[j] in existing ==> Precedes(existing, r[i], r[j]))
      && (r[i] !in existing && r[j] !in existing ==> Precedes(dirs, r[i], r[j]))
  {
    var keep := Filter(existing, dirs, true);
    var missing := Filter(dirs, existing, false);
    var r := Merge(existing, dirs);
    assert r == keep + missing;
    SidesOrder(keep, missing, existing, i, j);
    if r[i] in existing && r[j] in existing {
      FilterOrder(existing, dirs, true, i, j);
      assert Precedes(existing, keep[i], keep[j]);
    }
    if r[i] !in existing && r[j] !in existing {
      FilterOrder(dirs, existing, false, i - |keep|, j - |keep|);
      assert Precedes(dirs, missing[i - |keep|], missing[j - |keep|]);
    }
  }

  /** For a persisted order, `workspaceIds` orders the candidates as the merge does. */
  lemma WorkspaceIdsOrder(project: Project, order: map<string, seq<string>>, i: nat, j: nat)
    requires project.worktree in order
    requires i < j < |WorkspaceIds(Some(project), order)|
    ensures var r := WorkspaceIds(Some(project), order);
      var existing := order[project.worktree];
      && (r[j] in existing ==> r[i] in existing)
      && (r[i] in existing && r[j] in existing ==> Precedes(existing, r[i], r[j]))
      && (r[i] !in existing && r[j] !in existing ==> Precedes(Candidates(project), r[i], r[j]))
  {
    MergeOrder(order[project.worktree], Candidates(project), i, j);
  }

  /** With distinct candidates and a duplicate-free persisted list, the order is a permutation of the candidates. */
  lemma WorkspaceIdsPermutation(project: Project, order: map<string, seq<string>>)
    requires Distinct(Candidates(project))
    requires project.worktree in order ==> Distinct(order[project.worktree])
    ensures Distinct(WorkspaceIds(Some(project), order))
    ensures multiset(WorkspaceIds(Some(project), order)) == multiset(Candidates(project))
  {
    var dirs := Candidates(project);
    if project.worktree in order {
      MergeDistinct(order[project.worktree], dirs);
    }
    DistinctMultiset(WorkspaceIds(Some(project), order), dirs);
  }

  /**
   * The workspace-order effect: the list it persists for the current project, or `None` when it
   * writes nothing. It waits for both ready flags and a current project, persists the
   * candidates when nothing is stored, and otherwise persists the merged list only when it
   * differs from the stored one in length or at some position.
   */
  function Reconcile(pageReady: bool, layoutReady: bool, project: Option<Project>, order: map<string, seq<string>>): (r: Option<seq<string>>)
    ensures !pageReady || !layoutReady || project.None? ==> r.None?
    ensures r.Some? ==> r.value == WorkspaceIds(project, order)
    ensures r.None? && pageReady && layoutReady && project.Some? ==>
      project.value.worktree in order && order[project.value.worktree] == WorkspaceIds(project, order)
    ensures pageReady && layoutReady && project.Some? && project.value.worktree !in order ==> r.Some?
  {
    if !pageReady || !layoutReady then None
    else match project
      case None => None
      case Some(p) =>
        var dirs := Candidates(p);
        if p.worktree !in order then Some(dirs)
        else
          var existing := order[p.worktree];
          var merged := Merge(existing, dirs);
          if |merged| != |existing| then Some(merged)
          else if exists i :: 0 <= i < |merged| && merged[i] != existing[i] then Some(merged)
          else
            assert merged == existing;
            None
  }

  /** The merge is idempotent: once its result is stored the effect writes nothing more. */
  lemma ReconcileSettles(project: Project, order: map<string, seq<string>>)
    ensures var r := Reconcile(true, true, Some(project), order);
      r.Some? ==> Reconcile(true, true, Some(project), order[project.worktree := r.value]).None?
  {
    var r := Reconcile(true, true, Some(project), order);
    if r.Some? {
      var dirs := Candidates(project);
      var stored := r.value;
      var order2 := order[project.worktree := stored];
      MergeStable(stored, dirs);
      assert Merge(order2[project.worktree], dirs) == stored;
    }
  }

  lemma MergeStable(existing: seq<string>, dirs: seq<string>)
    requires forall d :: d in existing <==> d in dirs
    ensures Merge(existing, dirs) == existing
  {
    FilterAll(existing, dirs);
    FilterNone(dirs, existing);
  }

  lemma {:induction false} FilterAll(xs: seq<string>, ys: seq<string>)
    requires forall d :: d in xs ==> d in ys
    ensures Filter(xs, ys, true) == xs
  {
    if xs != [] {
      FilterAll(xs[1..], ys);
      assert xs == [xs[0]] + xs[1..];
    }
  }

  lemma {:induction false} FilterNone(xs: seq<string>, ys: seq<string>)
    requires forall d :: d in xs ==> d in ys
    ensures Filter(xs, ys, false) == []
  {
    if xs != [] {
      FilterNone(xs[1..], ys);
    }
  }

  /** `ids.findIndex((dir) => dir === id)`, with `None` for -1. */
  function IndexOf(ids: seq<string>, id: string): (r: Option<nat>)
    ensures r.Some? ==> r.value < |ids| && ids[r.value] == id && forall j :: 0 <= j < r.value ==> ids[j] != id
    ensures r.None? ==> forall j :: 0 <= j < |ids| ==> ids[j] != id
  {
    if ids == [] then None
    else if ids[0] == id then Some(0)
    else match IndexOf(ids[1..], id)
      case None => None
      case Some(k) => Some(k + 1)
  }

  /** `splice(from, 1)` and then `splice(to, 0, item)` on a copy: the item moves to index `to`. */
  function MoveItem(ids: seq<string>, from: nat, to: nat): (r: seq<string>)
    requires from < |ids| && to < |ids|
    ensures |r| == |ids|
    ensures r[to] == ids[from]
    ensures r[..to] + r[to + 1..] == ids[..from] + ids[from + 1..]
  {
    var rest := ids[..from] + ids[from + 1..];
    var r := rest[..to] + [ids[from]] + rest[to..];
    assert r[..to] == rest[..to];
    assert r[to + 1..] == rest[to..];
    r
  }

  /** A list's multiset is the sum of the multisets of its two parts at any cut. */
  lemma MultisetCut(s: seq<string>, k: nat)
    requires k <= |s|
    ensures multiset(s) == multiset(s[..k]) + multiset(s[k..])
  {
    assert s == s[..k] + s[k..];
  }

  lemma MoveItemPermutation(ids: seq<string>, from: nat, to: nat)
    requires from < |ids| && to < |ids|
    ensures multiset(MoveItem(ids, from, to)) == multiset(ids)
  {
    var x := ids[from];
    var rest := ids[..from] + ids[from + 1..];
    var r := MoveItem(ids, from, to);
    assert r == rest[..to] + [x] + rest[to..];
    MultisetCut(rest, to);
    MultisetCut(ids, from);
    assert ids[from..] == [x] + ids[from + 1..];
    assert multiset(ids[from..]) == multiset{x} + multiset(ids[from + 1..]);
    assert multiset(rest) == multiset(ids[..from]) + multiset(ids[from + 1..]);
    assert multiset(r) == multiset(rest[..to]) + multiset{x} + multiset(rest[to..]);
    assert multiset(r) == multiset(rest) + multiset{x};
    assert multiset(ids) == multiset(ids[..from]) + multiset{x} + multiset(ids[from + 1..]);
  }

  /** Moving an item back to where it came from restores the list. */
  lemma MoveItemInverse(ids: seq<string>, from: nat, to: nat)
    requires from < |ids| && to < |ids|
    ensures MoveItem(MoveItem(ids, from, to), to, from) == ids
  {
    var r := MoveItem(ids, from, to);
    var r2 := MoveItem(r, to, from);
    assert r2[..from] + r2[from + 1..] == ids[..from] + ids[from + 1..];
    assert r2[from] == ids[from];
    assert r2 == r2[..from] + [r2[from]] + r2[from + 1..];
    assert ids == ids[..from] + [ids[from]] + ids[from + 1..];
  }

  /**
   * `handleWorkspaceDragOver` with the dragged and the target ids (`None` when the event has
   * none): the order to persist, or `None` when it writes nothing.
   */
  function DragOver(draggable: Option<string>, droppable: Option<string>, project: Option<Project>, order: map<string, seq<string>>): (r: Option<seq<string>>)
    ensures draggable.None? || droppable.None? || project.None? ==> r.None?
    ensures r.Some? ==>
      var ids := WorkspaceIds(project, order);
      var from := IndexOf(ids, draggable.value);
      var to := IndexOf(ids, droppable.value);
      && from.Some? && to.Some? && from != to && draggable.value != ""
      && r.value == MoveItem(ids, from.value, to.value)
      && multiset(r.value) == multiset(ids)
    ensures draggable.Some? && droppable.Some? && project.Some? && draggable.value != "" ==>
      var ids := WorkspaceIds(project, order);
      var from := IndexOf(ids, draggable.value);
      var to := IndexOf(ids, droppable.value);
      from.Some? && to.Some? && from != to ==> r.Some?
  {
    if draggable.None? || droppable.None? || project.None? then None
    else
      var ids := WorkspaceIds(project, order);
      match (IndexOf(ids, draggable.value), IndexOf(ids, droppable.value))
      case (Some(from), Some(to)) =>
        if from == to then None
        else if ids[from] == "" then None
        else
          MoveItemPermutation(ids, from, to);
          Some(MoveItem(ids, from, to))
      case _ => None
  }

  lemma DragOverExample()
    ensures DragOver(Some("a"), Some("c"), Some(Project("a", Some(["b", "c"]))), map[]) == Some(["b", "c", "a"])
  {
    var ids := WorkspaceIds(Some(Project("a", Some(["b", "c"]))), map[]);
    assert ids == ["a", "b", "c"];
    assert IndexOf(ids, "a") == Some(0);
    assert IndexOf(ids, "c") == Some(2);
    assert MoveItem(ids, 0, 2) == ["b", "c", "a"];
  }

  /** The persisted order together with the id of the workspace being dragged. */
  class WorkspaceState {
    var workspaceOrder: map<string, seq<string>>
    var activeWorkspace: Option<string>

    constructor ()
      ensures workspaceOrder == map[] && activeWorkspace == None
    {
      workspaceOrder := map[];
      activeWorkspace := None;
    }

    /** Runs the workspace-order effect once. */
    method ReconcileOrder(pageReady: bool, layoutReady: bool, project: Option<Project>)
      modifies this
      ensures var w := Reconcile(pageReady, layoutReady, project, old(workspaceOrder));
        workspaceOrder == if w.Some? then old(workspaceOrder)[project.value.worktree := w.value] else old(workspaceOrder)
      ensures activeWorkspace == old(activeWorkspace)
    {
      var w := Reconcile(pageReady, layoutReady, project, workspaceOrder);
      if w.Some? {
        workspaceOrder := workspaceOrder[project.value.worktree := w.value];
      }
    }

    /** `handleWorkspaceDragStart`: an event without an id changes nothing. */
    method DragStart(id: Option<string>)
      modifies this
      ensures activeWorkspace == if id.None? || id.value == "" then old(activeWorkspace) else id
      ensures workspaceOrder == old(workspaceOrder)
    {
      if id.Some? && id.value != "" {
        activeWorkspace := id;
      }
    }

    method Drag(draggable: Option<string>, droppable: Option<string>, project: Option<Project>)
      modifies this
      ensures var w := DragOver(draggable, droppable, project, old(workspaceOrder));
        workspaceOrder == if w.Some? then old(workspaceOrder)[project.value.worktree := w.value] else old(workspaceOrder)
      ensures activeWorkspace == old(activeWorkspace)
    {
      var w := DragOver(draggable, droppable, project, workspaceOrder);
      if w.Some? {
        workspaceOrder := workspaceOrder[project.value.worktree := w.value];
      }
    }

    /** `handleWorkspaceDragEnd`. */
    method DragEnd()
      modifies this
      ensures activeWorkspace == None && workspaceOrder == old(workspaceOrder)
    {
      activeWorkspace := None;
    }
  }
}
