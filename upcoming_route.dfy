/**
 * GET /api/matches/upcoming (app/api/matches/upcoming/route.js): the next ten matches
 * that are still to be played, earliest first. The request time is the parameter `now`.
 */
module UpcomingRoute {
  import opened Store
  import opened Sorting

  const Limit := 10

  /** The `where` clause: pending or in progress, and scheduled no earlier than now. */
  function IsUpcoming(now: int): Match -> bool {
    (m: Match) => (m.status == "pending" || m.status == "in_progress") && m.scheduledTime >= now
  }

  /** `orderBy: { scheduled_time: 'asc' }` */
  function ByTime(): (Match, Match) -> bool {
    (a: Match, b: Match) => a.scheduledTime <= b.scheduledTime
  }

  lemma ByTimeIsTotalPreorder()
    ensures TotalPreorder(ByTime())
  {
  }

  /** Every upcoming match, earliest first, before the limit is applied. */
  function AllUpcoming(matches: seq<Match>, now: int): (r: seq<Match>)
    ensures multiset(r) == multiset(Where(matches, IsUpcoming(now)))
    ensures Sorted(r, ByTime())
  {
    ByTimeIsTotalPreorder();
    SortSorted(Where(matches, IsUpcoming(now)), ByTime());
    Sort(Where(matches, IsUpcoming(now)), ByTime())
  }

  /** `take: 10` */
  function Get(matches: seq<Match>, now: int): (r: seq<Match>)
    ensures |r| <= Limit && |r| <= |AllUpcoming(matches, now)|
    ensures r == AllUpcoming(matches, now)[..|r|]
    ensures |r| == Limit || r == AllUpcoming(matches, now)
  {
    var all := AllUpcoming(matches, now);
    if |all| <= Limit then all else all[..Limit]
  }

  /** Each listed match is a stored match that is pending or in progress and not yet due; the list runs earliest first. */
  lemma ListedMatchesAreUpcoming(matches: seq<Match>, now: int)
    ensures forall i :: 0 <= i < |Get(matches, now)| ==>
              Get(matches, now)[i] in matches
              && (Get(matches, now)[i].status == "pending" || Get(matches, now)[i].status == "in_progress")
              && Get(matches, now)[i].scheduledTime >= now
    ensures forall i, j :: 0 <= i < j < |Get(matches, now)| ==>
              Get(matches, now)[i].scheduledTime <= Get(matches, now)[j].scheduledTime
  {
    var all := AllUpcoming(matches, now);
    var r := Get(matches, now);
    forall i | 0 <= i < |r|
      ensures r[i] in matches && IsUpcoming(now)(r[i])
    {
      assert r[i] == all[i];
      assert all[i] in multiset(Where(matches, IsUpcoming(now)));
      var k :| 0 <= k < |Where(matches, IsUpcoming(now))| && Where(matches, IsUpcoming(now))[k] == r[i];
    }
  }

  /**
   * An upcoming match left off the list is no earlier than any listed match, and the
   * list is then full: the route returns the ten earliest.
   */
  lemma EarliestAreListed(matches: seq<Match>, now: int, m: Match)
    requires m in matches && IsUpcoming(now)(m)
    requires m !in Get(matches, now)
    ensures |Get(matches, now)| == Limit
    ensures forall i :: 0 <= i < Limit ==> Get(matches, now)[i].scheduledTime <= m.scheduledTime
  {
    var all := AllUpcoming(matches, now);
    var filtered := Where(matches, IsUpcoming(now));
    var i :| 0 <= i < |matches| && matches[i] == m;
    assert m in filtered;
    assert m in multiset(filtered);
    assert m in multiset(all);
    var j :| 0 <= j < |all| && all[j] == m;
    var r := Get(matches, now);
    assert j >= |r|;
  }
}
