/**
 * GET /api/leaderboard (app/api/leaderboard/route.js): per-team statistics over completed
 * matches, ranked by points and then by win rate.
 */
module LeaderboardRoute {
  import opened Wrappers
  import opened Store
  import opened Sorting

  const Completed := "COMPLETED"

  /**
   * One leaderboard row. `rate` is the win rate in tenths of a percent, the number the
   * one-decimal string `winRate` spells out (625 for "62.5").
   */
  datatype Entry = Entry(id: nat, name: string, points: nat, wins: nat, losses: nat, rate: nat)

  /** A completed match in which the team is `team1`: a row of `team1_matches`. */
  function IsHome(t: Team): Match -> bool {
    (m: Match) => m.team1Id == t.id && m.status == Completed
  }

  /** A completed match in which the team is `team2`: a row of `team2_matches`. */
  function IsAway(t: Team): Match -> bool {
    (m: Match) => m.team2Id == t.id && m.status == Completed
  }

  function IsHomeWin(t: Team): Match -> bool {
    (m: Match) => IsHome(t)(m) && m.winnerId == Some(t.id)
  }

  function IsAwayWin(t: Team): Match -> bool {
    (m: Match) => IsAway(t)(m) && m.winnerId == Some(t.id)
  }

  /** `rows.filter(p).length` */
  function Count(rows: seq<Match>, p: Match -> bool): nat {
    if rows == [] then 0 else (if p(rows[0]) then 1 else 0) + Count(rows[1..], p)
  }

  lemma {:induction false} CountAppend(rows: seq<Match>, x: Match, p: Match -> bool)
    ensures Count(rows + [x], p) == Count(rows, p) + (if p(x) then 1 else 0)
  {
    if rows != [] {
      assert (rows + [x])[1..] == rows[1..] + [x];
      CountAppend(rows[1..], x, p);
    }
  }

  /** Filtering further never counts more rows. */
  lemma {:induction false} CountNarrower(rows: seq<Match>, p: Match -> bool, q: Match -> bool)
    requires forall m :: q(m) ==> p(m)
    ensures Count(rows, q) <= Count(rows, p)
  {
    if rows != [] {
      CountNarrower(rows[1..], p, q);
    }
  }

  /** Completed matches the team played, on either side. */
  function Played(t: Team, matches: seq<Match>): nat {
    Count(matches, IsHome(t)) + Count(matches, IsAway(t))
  }

  /** Completed matches the team won, on either side. */
  function Won(t: Team, matches: seq<Match>): (r: nat)
    ensures r <= Played(t, matches)
  {
    CountNarrower(matches, IsHome(t), IsHomeWin(t));
    CountNarrower(matches, IsAway(t), IsAwayWin(t));
    Count(matches, IsHomeWin(t)) + Count(matches, IsAwayWin(t))
  }

  /** Whole-number quotient, by repeated subtraction. */
  function Quotient(n: nat, d: nat): nat
    requires d > 0
    decreases n
  {
    if n < d then 0 else 1 + Quotient(n - d, d)
  }

  lemma {:induction false} QuotientBounds(n: nat, d: nat)
    requires d > 0
    ensures d * Quotient(n, d) <= n < d * (Quotient(n, d) + 1)
  {
    if n >= d {
      QuotientBounds(n - d, d);
    }
  }

  lemma {:induction false} QuotientAtMost(n: nat, d: nat, k: nat)
    requires d > 0 && n < d * (k + 1)
    ensures Quotient(n, d) <= k
  {
    if n >= d {
      assert k >= 1;
      QuotientAtMost(n - d, d, k - 1);
    }
  }

  lemma {:induction false} QuotientAtLeast(n: nat, d: nat, k: nat)
    requires d > 0 && d * k <= n
    ensures Quotient(n, d) >= k
  {
    if k > 0 {
      QuotientAtLeast(n - d, d, k - 1);
    }
  }

  /** `(wins / total * 100).toFixed(1)` as tenths of a percent, rounded half up; 0 with no matches. */
  function Rate(wins: nat, total: nat): (r: nat)
    requires wins <= total
    ensures total == 0 ==> r == 0
    ensures wins == total && total > 0 ==> r == 1000
    ensures r <= 1000
  {
    if total == 0 then 0
    else
      var n, d := 2000 * wins + total, 2 * total;
      QuotientAtMost(n, d, 1000);
      if wins == total then
        QuotientAtLeast(n, d, 1000);
        Quotient(n, d)
      else
        Quotient(n, d)
  }

  /**
   * The rate is '0.0' without matches, and otherwise the percentage `1000 * wins / total`
   * (in tenths) rounded to the nearest tenth, halves going up; it never exceeds 100.0.
   */
  lemma RateRounds(wins: nat, total: nat)
    requires wins <= total
    ensures total == 0 ==> Rate(wins, total) == 0
    ensures total > 0 ==> 2 * total * Rate(wins, total) <= 2000 * wins + total < 2 * total * (Rate(wins, total) + 1)
    ensures Rate(wins, total) <= 1000
  {
    if total > 0 {
      var n, d := 2000 * wins + total, 2 * total;
      QuotientBounds(n, d);
      QuotientAtMost(n, d, 1000);
    }
  }

  /** The row for one team. */
  function Stats(t: Team, matches: seq<Match>): (e: Entry)
    ensures e.id == t.id && e.name == t.name
    ensures e.wins == Won(t, matches) && e.points == e.wins
    ensures e.wins + e.losses == Played(t, matches)
    ensures e.rate == Rate(e.wins, e.wins + e.losses)
  {
    var wins, total := Won(t, matches), Played(t, matches);
    Entry(t.id, t.name, wins, wins, total - wins, Rate(wins, total))
  }

  /** The `teams.map(...)` step, one row per team in table order. */
  function Rows(teams: seq<Team>, matches: seq<Match>): (r: seq<Entry>)
    ensures |r| == |teams|
    ensures forall i :: 0 <= i < |r| ==> r[i] == Stats(teams[i], matches)
  {
    if teams == [] then [] else [Stats(teams[0], matches)] + Rows(teams[1..], matches)
  }

  /** The comparator: more points first, then the higher win rate. */
  function Ranks(): (Entry, Entry) -> bool {
    (a: Entry, b: Entry) => a.points > b.points || (a.points == b.points && a.rate >= b.rate)
  }

  lemma RanksIsTotalPreorder()
    ensures TotalPreorder(Ranks())
  {
  }

  function Get(teams: seq<Team>, matches: seq<Match>): (r: seq<Entry>)
    ensures |r| == |teams|
    ensures multiset(r) == multiset(Rows(teams, matches))
    ensures forall i, j :: 0 <= i < j < |r| ==> r[i].points >= r[j].points
    ensures forall i, j :: 0 <= i < j < |r| && r[i].points == r[j].points ==> r[i].rate >= r[j].rate
  {
    RanksIsTotalPreorder();
    SortSorted(Rows(teams, matches), Ranks());
    Sort(Rows(teams, matches), Ranks())
  }

  /** Every team gets exactly one row, and every row is some team's. */
  lemma OneEntryPerTeam(teams: seq<Team>, matches: seq<Match>, t: Team)
    ensures t in teams ==> Stats(t, matches) in Get(teams, matches)
    ensures forall e :: e in Get(teams, matches) ==> exists i :: 0 <= i < |teams| && e == Stats(teams[i], matches)
  {
    var rows := Rows(teams, matches);
    var r := Get(teams, matches);
    if t in teams {
      var i :| 0 <= i < |teams| && teams[i] == t;
      assert rows[i] in multiset(rows);
    }
    forall e | e in r ensures exists i :: 0 <= i < |teams| && e == Stats(teams[i], matches) {
      assert e in multiset(r);
      var i :| 0 <= i < |rows| && rows[i] == e;
    }
  }

  /** A match that is not completed changes no row. */
  lemma UnfinishedMatchIgnored(t: Team, matches: seq<Match>, m: Match)
    requires m.status != Completed
    ensures Stats(t, matches + [m]) == Stats(t, matches)
  {
    CountAppend(matches, m, IsHome(t));
    CountAppend(matches, m, IsAway(t));
    CountAppend(matches, m, IsHomeWin(t));
    CountAppend(matches, m, IsAwayWin(t));
  }

  /**
   * A completed match between two different teams adds one win to its winner and one
   * loss to the other side; a completed match with no winner is a loss for both sides.
   */
  lemma CompletedMatchCounted(t: Team, matches: seq<Match>, m: Match)
    requires m.status == Completed && m.team1Id != m.team2Id
    requires t.id == m.team1Id || t.id == m.team2Id
    ensures var before, after := Stats(t, matches), Stats(t, matches + [m]);
            if m.winnerId == Some(t.id) then after.wins == before.wins + 1 && after.losses == before.losses
            else after.wins == before.wins && after.losses == before.losses + 1
  {
    CountAppend(matches, m, IsHome(t));
    CountAppend(matches, m, IsAway(t));
    CountAppend(matches, m, IsHomeWin(t));
    CountAppend(matches, m, IsAwayWin(t));
  }

  /** A match between two other teams leaves this team's row as it was. */
  lemma OtherTeamsMatchIgnored(t: Team, matches: seq<Match>, m: Match)
    requires t.id != m.team1Id && t.id != m.team2Id
    ensures Stats(t, matches + [m]) == Stats(t, matches)
  {
    CountAppend(matches, m, IsHome(t));
    CountAppend(matches, m, IsAway(t));
    CountAppend(matches, m, IsHomeWin(t));
    CountAppend(matches, m, IsAwayWin(t));
  }
}
