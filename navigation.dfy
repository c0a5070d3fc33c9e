/**
 * Moving through the sidebar's session list and through the theme and colour-scheme lists
 * (`navigateSessionByOffset`, `cycleTheme`, `cycleColorScheme` and the neighbour-prefetch
 * effect of the app's layout page). All use the same wrap-around index rule; JavaScript's
 * `%` truncates toward zero, which is written out here.
 */
module Navigation {
  import opened Wrappers
  import opened SessionOrder
  import opened Prefetch

  /** The remainder of `a` by `n`, by repeated subtraction. */
  function NatRem(a: nat, n: nat): (r: nat)
    requires n > 0
    ensures r < n
    ensures a < n ==> r == a
    ensures n <= a < 2 * n ==> r == a - n
    decreases a
  {
    if a < n then a else NatRem(a - n, n)
  }

  /** JavaScript's `a % n` for `n > 0`: truncating division, so the remainder takes the sign of `a`. */
  function JsRem(a: int, n: int): (r: int)
    requires n > 0
    ensures a >= 0 ==> 0 <= r < n
    ensures a < 0 ==> -n < r <= 0
    ensures 0 <= a < n ==> r == a
    ensures n <= a < 2 * n ==> r == a - n
  {
    if a >= 0 then NatRem(a, n) else var m: int := NatRem(-a, n); -m
  }

  /** `sessions.findIndex((s) => s.id === id)`, with `None` for -1. */
  function FindSession(sessions: seq<Session>, id: string): (r: Option<nat>)
    ensures r.Some? ==> r.value < |sessions| && sessions[r.value].id == id
    ensures r.Some? ==> forall j :: 0 <= j < r.value ==> sessions[j].id != id
    ensures r.None? ==> forall j :: 0 <= j < |sessions| ==> sessions[j].id != id
  {
    if sessions == [] then None
    else if sessions[0].id == id then Some(0)
    else match FindSession(sessions[1..], id)
      case None => None
      case Some(k) => Some(k + 1)
  }

  predicate DistinctIds(sessions: seq<Session>) {
    forall i, j :: 0 <= i < j < |sessions| ==> sessions[i].id != sessions[j].id
  }

  /** The next index round a list of `n` entries, and the previous one. */
  function Succ(i: nat, n: nat): (r: nat)
    requires i < n
    ensures r < n
  {
    if i + 1 == n then 0 else i + 1
  }

  function Pred(i: nat, n: nat): (r: nat)
    requires i < n
    ensures r < n
  {
    if i == 0 then n - 1 else i - 1
  }

  /** The two steps are the source's `(i + 1) % n` and `(i - 1 + n) % n`, and each undoes the other. */
  lemma SuccPred(i: nat, n: nat)
    requires i < n
    ensures Succ(i, n) == JsRem(i + 1, n) && Pred(i, n) == JsRem(i - 1 + n, n)
    ensures Pred(Succ(i, n), n) == i && Succ(Pred(i, n), n) == i
  {
  }

  /** The session moved to, and the prefetch requests issued for its two neighbours, in order. */
  datatype Move = Move(target: nat, requests: seq<(Session, Priority)>)

  /**
   * `navigateSessionByOffset(offset)` with `params.id` read as `current` ("" when the route has
   * none). `None` is the early return: an empty list, or a target index with no session.
   */
  function Navigate(sessions: seq<Session>, current: string, offset: int): (r: Option<Move>)
    ensures |sessions| == 0 ==> r.None?
    ensures r.Some? ==> r.value.target < |sessions|
    ensures |sessions| > 0 && (current == "" || FindSession(sessions, current).None?) ==>
      r.Some? && r.value.target == (if offset > 0 then 0 else |sessions| - 1)
    ensures current != "" && FindSession(sessions, current).Some? ==>
      var i := FindSession(sessions, current).value;
      && (i + offset + |sessions| >= 0 ==> r.Some?)
      && (r.Some? && i + offset + |sessions| < 0 ==> r.value.target == 0)
      && (offset == 1 ==> r.value.target == Succ(i, |sessions|))
      && (offset == -1 ==> r.value.target == Pred(i, |sessions|))
    ensures r.Some? ==>
      var n := |sessions|;
      var next := sessions[Succ(r.value.target, n)];
      var prev := sessions[Pred(r.value.target, n)];
      r.value.requests == (if offset > 0 then [(next, High), (prev, Low)]
                           else if offset < 0 then [(prev, High), (next, Low)]
                           else [])
  {
    var n := |sessions|;
    if n == 0 then None
    else
      var index: int := if current == "" then -1 else match FindSession(sessions, current)
        case None => -1
        case Some(i) => i;
      var target := if index == -1 then (if offset > 0 then 0 else n - 1)
                    else JsRem(index + offset + n, n);
      if !(0 <= target < n) then None
      else
        var next := sessions[JsRem(target + 1, n)];
        var prev := sessions[JsRem(target - 1 + n, n)];
        var requests := (if offset > 0 then [(next, High), (prev, Low)] else [])
                        + (if offset < 0 then [(prev, High), (next, Low)] else []);
        Some(Move(target, requests))
  }

  /** Stepping forward and then back returns to the session started from. */
  lemma NavigateRoundTrip(sessions: seq<Session>, i: nat)
    requires i < |sessions| && DistinctIds(sessions)
    requires forall k :: 0 <= k < |sessions| ==> sessions[k].id != ""
    ensures var f := Navigate(sessions, sessions[i].id, 1);
      && f.Some?
      && var b := Navigate(sessions, sessions[f.value.target].id, -1);
      && b.Some?
      && b.value.target == i
  {
    var n := |sessions|;
    FindDistinct(sessions, i);
    var t := Succ(i, n);
    assert Navigate(sessions, sessions[i].id, 1).value.target == t;
    FindDistinct(sessions, t);
    assert Pred(t, n) == i;
    var b := Navigate(sessions, sessions[t].id, -1);
    assert b.value.target == i;
  }

  lemma FindDistinct(sessions: seq<Session>, i: nat)
    requires i < |sessions| && DistinctIds(sessions)
    ensures FindSession(sessions, sessions[i].id) == Some(i)
  {
  }

  /**
   * The effect that warms the neighbours of the open session: with no open session the first
   * two sessions are requested; with an open session the next and then the previous one,
   * without wrapping; an open id not in the list requests nothing. All requests are low.
   */
  function NeighbourPrefetch(sessions: seq<Session>, current: string): (r: seq<Session>)
    ensures current == "" ==> r == sessions[..if |sessions| < 2 then |sessions| else 2]
    ensures current != "" && FindSession(sessions, current).None? ==> r == []
    ensures current != "" && FindSession(sessions, current).Some? ==>
      var i := FindSession(sessions, current).value;
      && (forall k :: 0 <= k < |r| ==> exists j :: 0 <= j < |sessions| && (j == i + 1 || j + 1 == i) && r[k] == sessions[j])
      && |r| == (if i + 1 < |sessions| then 1 else 0) + (if i > 0 then 1 else 0)
      && (i + 1 < |sessions| ==> r[0] == sessions[i + 1])
      && (i > 0 ==> r[|r| - 1] == sessions[i - 1])
  {
    if current == "" then
      (if |sessions| > 0 then [sessions[0]] else []) + (if |sessions| > 1 then [sessions[1]] else [])
    else match FindSession(sessions, current)
      case None => []
      case Some(i) =>
        (if i + 1 < |sessions| then [sessions[i + 1]] else []) + (if i > 0 then [sessions[i - 1]] else [])
  }

  /** What a cycling command does to its setting. */
  datatype Choice = Unchanged | Choose(value: string) | ChooseUndefined

  /** The shared index rule: an unknown current goes to the start in either direction. */
  function CycleIndex(currentIndex: int, direction: int, n: int): (r: int)
    requires n > 0
    ensures currentIndex == -1 ==> r == 0
    ensures 0 <= currentIndex < n && direction == 1 ==> r == Succ(currentIndex, n)
    ensures 0 <= currentIndex < n && direction == -1 ==> r == Pred(currentIndex, n)
  {
    if currentIndex == -1 then 0 else JsRem(currentIndex + direction + n, n)
  }

  function IndexOfId(ids: seq<string>, id: string): (r: int)
    ensures -1 <= r < |ids|
    ensures r >= 0 ==> ids[r] == id && forall j :: 0 <= j < r ==> ids[j] != id
    ensures r == -1 ==> forall j :: 0 <= j < |ids| ==> ids[j] != id
  {
    if ids == [] then -1
    else if ids[0] == id then 0
    else var k := IndexOfId(ids[1..], id); if k == -1 then -1 else k + 1
  }

  /** Steps `direction` places through `ids` from `current`; the setting becomes undefined when the index falls outside the list. */
  function Cycle(ids: seq<string>, current: string, direction: int): (r: Choice)
    ensures ids == [] ==> r == Unchanged
    ensures ids != [] && IndexOfId(ids, current) == -1 ==> r == Choose(ids[0])
    ensures ids != [] && IndexOfId(ids, current) >= 0 ==>
      var i := IndexOfId(ids, current);
      && (i + direction + |ids| >= 0 ==> r.Choose?)
      && (direction == 1 ==> r == Choose(ids[Succ(i, |ids|)]))
      && (direction == -1 ==> r == Choose(ids[Pred(i, |ids|)]))
  {
    if ids == [] then Unchanged
    else
      var k := CycleIndex(IndexOfId(ids, current), direction, |ids|);
      if 0 <= k < |ids| then Choose(ids[k]) else ChooseUndefined
  }

  /** `cycleTheme(direction)` over the available theme ids, in their listed order. */
  function CycleTheme(themeIds: seq<string>, current: string, direction: int): (r: Choice)
    ensures r.Choose? ==> r.value in themeIds
    ensures themeIds != [] && (direction == 1 || direction == -1) ==> r.Choose?
  {
    Cycle(themeIds, current, direction)
  }

  const ColorSchemeOrder: seq<string> := ["system", "light", "dark"]

  /** `cycleColorScheme(direction)`. */
  function CycleColorScheme(current: string, direction: int): (r: Choice)
    ensures r != Unchanged
    ensures r.Choose? ==> r.value in ColorSchemeOrder
    ensures direction == 1 ==> r == Choose(if current == "system" then "light" else if current == "light" then "dark" else "system")
  {
    Cycle(ColorSchemeOrder, current, direction)
  }

  /** Cycling forward and then back restores a setting that was in the list. */
  lemma CycleRoundTrip(ids: seq<string>, i: nat)
    requires i < |ids|
    requires forall a, b :: 0 <= a < b < |ids| ==> ids[a] != ids[b]
    ensures Cycle(ids, ids[i], 1).Choose?
    ensures Cycle(ids, Cycle(ids, ids[i], 1).value, -1) == Choose(ids[i])
  {
    var n := |ids|;
    IndexOfDistinct(ids, i);
    IndexOfDistinct(ids, Succ(i, n));
  }

  lemma IndexOfDistinct(ids: seq<string>, i: nat)
    requires i < |ids|
    requires forall a, b :: 0 <= a < b < |ids| ==> ids[a] != ids[b]
    ensures IndexOfId(ids, ids[i]) == i
  {
  }
}
