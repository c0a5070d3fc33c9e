/**
 * The sidebar's session order (`sortSessions` in the app's layout page): sessions touched in
 * the last minute first, ordered among themselves by id; every other session after them,
 * most recently touched first. The clock reading is a parameter and `localeCompare` is taken
 * as ordinal string order.
 */
module SessionOrder {
  import opened Wrappers
  import opened Text
  import opened Sorting

  datatype Session = Session(id: string, directory: string, created: int, updated: Option<int>)

  /** How long, in milliseconds, a touched session counts as recent. */
  const RecentWindow: int := 60 * 1000

  /** `time.updated ?? time.created`. */
  function Touched(s: Session): int {
    s.updated.GetOr(s.created)
  }

  predicate Recent(s: Session, now: int) {
    Touched(s) > now - RecentWindow
  }

  /** `a.localeCompare(b)`, read as ordinal comparison: negative, zero or positive. */
  function OrdinalCompare(a: string, b: string): (r: int)
    ensures r == 0 <==> a == b
    ensures r < 0 <==> StrLt(a, b)
    ensures r <= 0 <==> StrLe(a, b)
  {
    StrLeAntisymmetricAll(a, b);
    StrLeReflexive(a);
    if a == b then 0 else if StrLe(a, b) then -1 else 1
  }

  lemma StrLeAntisymmetricAll(a: string, b: string)
    ensures StrLe(a, b) && StrLe(b, a) ==> a == b
  {
    if StrLe(a, b) && StrLe(b, a) { StrLeAntisymmetric(a, b); }
  }

  /** The comparator `sortSessions(a, b)` with `Date.now()` read as `now`. */
  function Compare(a: Session, b: Session, now: int): int {
    var aRecent := Recent(a, now);
    var bRecent := Recent(b, now);
    if aRecent && bRecent then OrdinalCompare(a.id, b.id)
    else if aRecent && !bRecent then -1
    else if !aRecent && bRecent then 1
    else Touched(b) - Touched(a)
  }

  /** "a may be placed before b": the comparator does not return a positive number. */
  function SessionLe(now: int): (Session, Session) -> bool {
    (a: Session, b: Session) => Compare(a, b, now) <= 0
  }

  /** The comparator is consistent, so the engine's sort is the stable sort by it. */
  lemma CompareTotalPreorder(now: int)
    ensures TotalPreorder(SessionLe(now))
  {
    var le := SessionLe(now);
    forall a: Session, b: Session ensures le(a, b) || le(b, a) {
      StrLeTotal(a.id, b.id);
    }
    forall a: Session, b: Session, c: Session | le(a, b) && le(b, c) ensures le(a, c) {
      if Recent(a, now) && Recent(b, now) && Recent(c, now) {
        StrLeTransitive(a.id, b.id, c.id);
      }
    }
  }

  /** `sessions.toSorted(sortSessions)`. */
  function SortSessions(sessions: seq<Session>, now: int): (r: seq<Session>)
    ensures multiset(r) == multiset(sessions)
    ensures forall i, j :: 0 <= i < j < |r| && Recent(r[j], now) ==> Recent(r[i], now)
    ensures forall i, j :: 0 <= i < j < |r| && Recent(r[i], now) && Recent(r[j], now) ==> StrLe(r[i].id, r[j].id)
    ensures forall i, j :: 0 <= i < j < |r| && !Recent(r[i], now) && !Recent(r[j], now) ==> Touched(r[i]) >= Touched(r[j])
  {
    CompareTotalPreorder(now);
    SortBySorted(sessions, SessionLe(now));
    var r := SortBy(sessions, SessionLe(now));
    assert forall i, j :: 0 <= i < j < |r| ==> SessionLe(now)(r[i], r[j]);
    r
  }
}
