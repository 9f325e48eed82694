/** Per-archer tallies of approved scores, grouped by a category key, and their
    ranking: the aggregation behind championship standings and winners
    (championshipController.js). */
module Standings {
  import opened Common
  import opened Scores

  /** A score record joined with its archer (and the archer's class), its division,
      its competition and its round, as the controllers' `include`s deliver it. */
  datatype ScoreFact = ScoreFact(
    scoreId: int, archerId: int, firstName: string, lastName: string,
    classId: Option<int>, className: Option<string>,
    divisionId: int, divisionName: string,
    competitionId: Option<int>, competitionName: string, roundName: string,
    status: Status, totalScore: int, dateShot: Date)

  /** One contribution to an archer's tally: `{ name, score, date }`. */
  datatype Entry = Entry(competition: string, score: int, date: Date)

  /** An archer's tally in one group: the archer, the running total and one entry per
      score counted (CompetitionCount is the number of entries). */
  datatype Tally = Tally(
    archerId: int, firstName: string, lastName: string, className: Option<string>,
    division: string, totalScore: int, entries: seq<Entry>)

  /** `${score.archer.class?.Name || "Unknown"} - ${score.division.Name}`, the category of
      the standings and of the leaderboard. */
  function CategoryKey(s: ScoreFact): string
  {
    OrElse(s.className, "Unknown") + " - " + s.divisionName
  }

  function EntryOf(s: ScoreFact): Entry
  {
    Entry(s.competitionName, s.totalScore, s.dateShot)
  }

  /** `${FirstName} ${LastName}` */
  function ArcherName(t: Tally): string
  {
    t.firstName + " " + t.lastName
  }

  // ---------------------------------------------------------------------
  // Building the tallies

  /** The tally created the first time an archer is met in a group. */
  function Start(s: ScoreFact): Tally
  {
    Tally(s.archerId, s.firstName, s.lastName, s.className, s.divisionName, 0, [])
  }

  /** `totalScore += score.TotalScore` and one more entry. */
  function Credit(t: Tally, s: ScoreFact): Tally
  {
    t.(totalScore := t.totalScore + s.totalScore, entries := t.entries + [EntryOf(s)])
  }

  predicate DistinctIds(ts: seq<Tally>)
  {
    forall i, j :: 0 <= i < j < |ts| ==> ts[i].archerId != ts[j].archerId
  }

  /** Credits `s` to its archer's tally in the group, creating the tally at the end
      when the archer has none yet. */
  function AddTally(ts: seq<Tally>, s: ScoreFact): seq<Tally>
  {
    if ts == [] then [Credit(Start(s), s)]
    else if ts[0].archerId == s.archerId then [Credit(ts[0], s)] + ts[1..]
    else [ts[0]] + AddTally(ts[1..], s)
  }

  /** The tallies of every group after folding `scores` in order. */
  function Tallies<K(==)>(scores: seq<ScoreFact>, key: ScoreFact -> K): map<K, seq<Tally>>
  {
    if scores == [] then map[]
    else
      var groups := Tallies(scores[..|scores| - 1], key);
      var s := scores[|scores| - 1];
      var k := key(s);
      groups[k := AddTally(if k in groups then groups[k] else [], s)]
  }

  /** The `forEach` over the scores that fills the nested dictionary. */
  method Aggregate<K(==)>(scores: seq<ScoreFact>, key: ScoreFact -> K) returns (groups: map<K, seq<Tally>>)
    ensures groups == Tallies(scores, key)
  {
    groups := map[];
    var i := 0;
    while i < |scores|
      invariant 0 <= i <= |scores|
      invariant groups == Tallies(scores[..i], key)
    {
      var s := scores[i];
      var k := key(s);
      var current := if k in groups then groups[k] else [];
      assert scores[..i + 1][..i] == scores[..i];
      groups := groups[k := AddTally(current, s)];
      i := i + 1;
    }
    assert scores[..i] == scores;
  }

  // ---------------------------------------------------------------------
  // What a tally holds

  /** The scores of group `k` shot by archer `a`, in order. */
  function Of<K(==)>(scores: seq<ScoreFact>, key: ScoreFact -> K, k: K, a: int): seq<ScoreFact>
  {
    if scores == [] then []
    else
      var s := scores[|scores| - 1];
      Of(scores[..|scores| - 1], key, k, a) + (if key(s) == k && s.archerId == a then [s] else [])
  }

  function Totals(ss: seq<ScoreFact>): seq<int>
  {
    if ss == [] then [] else Totals(ss[..|ss| - 1]) + [ss[|ss| - 1].totalScore]
  }

  function Entries(ss: seq<ScoreFact>): seq<Entry>
  {
    if ss == [] then [] else Entries(ss[..|ss| - 1]) + [EntryOf(ss[|ss| - 1])]
  }

  /** The tally of an archer's scores in a group: the archer's details from the first
      score, the sum of the TotalScores and one entry per score, in order. */
  function Summary(ss: seq<ScoreFact>): Tally
    requires ss != []
  {
    Tally(ss[0].archerId, ss[0].firstName, ss[0].lastName, ss[0].className, ss[0].divisionName,
          Sum(Totals(ss)), Entries(ss))
  }

  lemma SummaryExtend(ss: seq<ScoreFact>, s: ScoreFact)
    ensures ss == [] ==> Summary([s]) == Credit(Start(s), s)
    ensures ss != [] ==> Summary(ss + [s]) == Credit(Summary(ss), s)
  {
    var t := ss + [s];
    assert t[..|t| - 1] == ss;
    if ss == [] {
      assert [s][..0] == [];
      assert Totals([s]) == [s.totalScore];
      assert Entries([s]) == [EntryOf(s)];
      assert Sum([s.totalScore]) == s.totalScore by {
        assert [s.totalScore][..0] == [];
      }
    }
  }

  /** The tallies of one group are exactly the summaries, one per archer, of the
      group's scores. */
  predicate Summarises<K(==)>(ts: seq<Tally>, scores: seq<ScoreFact>, key: ScoreFact -> K, k: K)
  {
    DistinctIds(ts)
    && (forall t :: t in ts ==>
          Of(scores, key, k, t.archerId) != [] && t == Summary(Of(scores, key, k, t.archerId)))
    && (forall i :: 0 <= i < |scores| && key(scores[i]) == k ==>
          exists t :: t in ts && t.archerId == scores[i].archerId)
  }

  /** What AddTally does to the tallies `ts` of a group, giving `r`: the ids stay
      distinct, the other archers' tallies are kept, and the archer of `s` has exactly
      one tally, its old one or a fresh one credited with `s`. */
  predicate Credited(ts: seq<Tally>, s: ScoreFact, r: seq<Tally>)
  {
    DistinctIds(r)
    && (forall t :: t in r && t.archerId != s.archerId ==> t in ts)
    && (forall u :: u in ts && u.archerId != s.archerId ==> u in r)
    && (forall t :: t in r && t.archerId == s.archerId ==>
          (exists u :: u in ts && u.archerId == s.archerId && t == Credit(u, s))
          || ((forall u :: u in ts ==> u.archerId != s.archerId) && t == Credit(Start(s), s)))
    && (exists t :: t in r && t.archerId == s.archerId)
  }

  /** What AddTally does to the tallies of a group. */
  lemma {:induction false} AddTallyEffect(ts: seq<Tally>, s: ScoreFact)
    requires DistinctIds(ts)
    ensures Credited(ts, s, AddTally(ts, s))
  {
    if ts == [] {
      assert Credit(Start(s), s) in AddTally(ts, s);
    } else if ts[0].archerId == s.archerId {
      CreditedFirst(ts, s);
    } else {
      var rest := ts[1..];
      assert DistinctIds(rest) by {
        forall i, j | 0 <= i < j < |rest| ensures rest[i].archerId != rest[j].archerId {
          assert rest[i] == ts[i + 1] && rest[j] == ts[j + 1];
        }
      }
      AddTallyEffect(rest, s);
      CreditedPast(ts, s);
    }
  }

  /** The archer's tally is first: it is credited in place. */
  lemma CreditedFirst(ts: seq<Tally>, s: ScoreFact)
    requires DistinctIds(ts) && ts != [] && ts[0].archerId == s.archerId
    ensures Credited(ts, s, AddTally(ts, s))
  {
    var r := AddTally(ts, s);
    forall i, j | 0 <= i < j < |r| ensures r[i].archerId != r[j].archerId {
      assert r[j] == ts[j];
      if i > 0 {
        assert r[i] == ts[i];
      }
    }
    forall t | t in r && t.archerId != s.archerId ensures t in ts {
      var m :| 0 <= m < |r| && r[m] == t;
      assert m > 0 && ts[m] == t;
    }
    forall u | u in ts && u.archerId != s.archerId ensures u in r {
      var m :| 0 <= m < |ts| && ts[m] == u;
      assert m > 0 && r[m] == u;
    }
    forall t | t in r && t.archerId == s.archerId
      ensures exists u :: u in ts && u.archerId == s.archerId && t == Credit(u, s)
    {
      var m :| 0 <= m < |r| && r[m] == t;
      assert m == 0;
      assert t == Credit(ts[0], s);
    }
    assert r[0] in r;
  }

  /** The first tally is another archer's: it is kept, and the rest is updated. */
  lemma CreditedPast(ts: seq<Tally>, s: ScoreFact)
    requires DistinctIds(ts) && ts != [] && ts[0].archerId != s.archerId
    requires Credited(ts[1..], s, AddTally(ts[1..], s))
    ensures Credited(ts, s, AddTally(ts, s))
  {
    var rest, tail := ts[1..], AddTally(ts[1..], s);
    assert AddTally(ts, s) == [ts[0]] + tail;
    PastDistinct(ts, s, rest, tail);
    PastKept(ts, s, rest, tail);
    PastCredited(ts, s, rest, tail);
  }

  lemma PastDistinct(ts: seq<Tally>, s: ScoreFact, rest: seq<Tally>, tail: seq<Tally>)
    requires DistinctIds(ts) && ts != [] && ts[0].archerId != s.archerId && rest == ts[1..]
    requires DistinctIds(tail)
    requires forall t :: t in tail && t.archerId != s.archerId ==> t in rest
    ensures DistinctIds([ts[0]] + tail)
  {
    var r := [ts[0]] + tail;
    forall i, j | 0 <= i < j < |r| ensures r[i].archerId != r[j].archerId {
      assert r[j] == tail[j - 1];
      if i == 0 {
        if r[j].archerId != s.archerId {
          assert r[j] in rest;
          var m :| 0 <= m < |rest| && rest[m] == r[j];
          assert ts[m + 1] == r[j];
        }
      } else {
        assert r[i] == tail[i - 1];
      }
    }
  }

  lemma PastKept(ts: seq<Tally>, s: ScoreFact, rest: seq<Tally>, tail: seq<Tally>)
    requires ts != [] && rest == ts[1..]
    requires forall t :: t in tail && t.archerId != s.archerId ==> t in rest
    requires forall u :: u in rest && u.archerId != s.archerId ==> u in tail
    ensures forall t :: t in [ts[0]] + tail && t.archerId != s.archerId ==> t in ts
    ensures forall u :: u in ts && u.archerId != s.archerId ==> u in [ts[0]] + tail
  {
    forall u | u in ts && u.archerId != s.archerId ensures u in [ts[0]] + tail {
      if u != ts[0] {
        assert u in rest;
      }
    }
  }

  lemma PastCredited(ts: seq<Tally>, s: ScoreFact, rest: seq<Tally>, tail: seq<Tally>)
    requires ts != [] && ts[0].archerId != s.archerId && rest == ts[1..]
    requires forall t :: t in tail && t.archerId == s.archerId ==>
      (exists u :: u in rest && u.archerId == s.archerId && t == Credit(u, s))
      || ((forall u :: u in rest ==> u.archerId != s.archerId) && t == Credit(Start(s), s))
    requires exists t :: t in tail && t.archerId == s.archerId
    ensures forall t :: t in [ts[0]] + tail && t.archerId == s.archerId ==>
      (exists u :: u in ts && u.archerId == s.archerId && t == Credit(u, s))
      || ((forall u :: u in ts ==> u.archerId != s.archerId) && t == Credit(Start(s), s))
    ensures exists t :: t in [ts[0]] + tail && t.archerId == s.archerId
  {
    forall t | t in [ts[0]] + tail && t.archerId == s.archerId
      ensures (exists u :: u in ts && u.archerId == s.archerId && t == Credit(u, s))
              || ((forall u :: u in ts ==> u.archerId != s.archerId) && t == Credit(Start(s), s))
    {
      assert t in tail;
      if exists u :: u in rest && u.archerId == s.archerId && t == Credit(u, s) {
        var u :| u in rest && u.archerId == s.archerId && t == Credit(u, s);
        assert u in ts;
      } else {
        forall u | u in ts ensures u.archerId != s.archerId {
          if u != ts[0] {
            assert u in rest;
          }
        }
      }
    }
    var t :| t in tail && t.archerId == s.archerId;
    assert t in [ts[0]] + tail;
  }

  lemma OfExtend<K>(scores: seq<ScoreFact>, key: ScoreFact -> K, k: K, a: int)
    requires scores != []
    ensures Of(scores, key, k, a) ==
      Of(scores[..|scores| - 1], key, k, a)
      + (if key(scores[|scores| - 1]) == k && scores[|scores| - 1].archerId == a then [scores[|scores| - 1]] else [])
  {
  }

  /** The groups are exactly the keys of the scores. */
  lemma {:induction false} TalliesKeys<K>(scores: seq<ScoreFact>, key: ScoreFact -> K, k: K)
    ensures k in Tallies(scores, key) <==> exists i :: 0 <= i < |scores| && key(scores[i]) == k
  {
    if scores != [] {
      var p := scores[..|scores| - 1];
      TalliesKeys(p, key, k);
      if exists i :: 0 <= i < |p| && key(p[i]) == k {
        var i :| 0 <= i < |p| && key(p[i]) == k;
        assert scores[i] == p[i];
      }
      if exists i :: 0 <= i < |scores| && key(scores[i]) == k {
        var i :| 0 <= i < |scores| && key(scores[i]) == k;
        if i < |p| {
          assert p[i] == scores[i];
        }
      }
    }
  }

  /** A score of another group leaves a group's summaries as they are. */
  lemma SummarisesOther<K>(ts: seq<Tally>, scores: seq<ScoreFact>, key: ScoreFact -> K, k: K)
    requires scores != [] && key(scores[|scores| - 1]) != k
    requires Summarises(ts, scores[..|scores| - 1], key, k)
    ensures Summarises(ts, scores, key, k)
  {
    var p := scores[..|scores| - 1];
    forall t | t in ts
      ensures Of(scores, key, k, t.archerId) != [] && t == Summary(Of(scores, key, k, t.archerId))
    {
      OfExtend(scores, key, k, t.archerId);
      assert Of(scores, key, k, t.archerId) == Of(p, key, k, t.archerId);
    }
    forall i | 0 <= i < |scores| && key(scores[i]) == k
      ensures exists t: Tally :: t in ts && t.archerId == scores[i].archerId
    {
      assert i < |p| && p[i] == scores[i];
    }
  }

  /** Crediting a score of the group to its archer keeps the tallies the summaries. */
  lemma SummarisesCredit<K>(ts: seq<Tally>, scores: seq<ScoreFact>, key: ScoreFact -> K, k: K)
    requires scores != [] && key(scores[|scores| - 1]) == k
    requires Summarises(ts, scores[..|scores| - 1], key, k)
    ensures Summarises(AddTally(ts, scores[|scores| - 1]), scores, key, k)
  {
    var p := scores[..|scores| - 1];
    var s := scores[|scores| - 1];
    AddTallyEffect(ts, s);
    var r := AddTally(ts, s);
    forall t: Tally | t in r
      ensures Of(scores, key, k, t.archerId) != [] && t == Summary(Of(scores, key, k, t.archerId))
    {
      CreditedTally(ts, scores, key, k, t);
    }
    forall i | 0 <= i < |scores| && key(scores[i]) == k
      ensures exists t: Tally :: t in r && t.archerId == scores[i].archerId
    {
      CoveredAfterCredit(ts, scores, key, k, i);
    }
  }

  /** After crediting the last score, every archer with a score in the group still has
      a tally. */
  lemma CoveredAfterCredit<K>(ts: seq<Tally>, scores: seq<ScoreFact>, key: ScoreFact -> K, k: K, i: int)
    requires scores != [] && key(scores[|scores| - 1]) == k
    requires Summarises(ts, scores[..|scores| - 1], key, k)
    requires 0 <= i < |scores| && key(scores[i]) == k
    ensures exists t: Tally :: t in AddTally(ts, scores[|scores| - 1]) && t.archerId == scores[i].archerId
  {
    var p := scores[..|scores| - 1];
    var s := scores[|scores| - 1];
    AddTallyEffect(ts, s);
    if i < |p| {
      assert p[i] == scores[i];
      var u :| u in ts && u.archerId == p[i].archerId;
      if u.archerId != s.archerId {
        assert u in AddTally(ts, s);
      }
    }
  }

  lemma CreditedTally<K>(ts: seq<Tally>, scores: seq<ScoreFact>, key: ScoreFact -> K, k: K, t: Tally)
    requires scores != [] && key(scores[|scores| - 1]) == k
    requires Summarises(ts, scores[..|scores| - 1], key, k)
    requires t in AddTally(ts, scores[|scores| - 1])
    ensures Of(scores, key, k, t.archerId) != [] && t == Summary(Of(scores, key, k, t.archerId))
  {
    var p := scores[..|scores| - 1];
    var s := scores[|scores| - 1];
    AddTallyEffect(ts, s);
    OfExtend(scores, key, k, t.archerId);
    if t.archerId != s.archerId {
      assert t in ts;
      assert Of(scores, key, k, t.archerId) == Of(p, key, k, t.archerId) + [];
      assert Of(p, key, k, t.archerId) + [] == Of(p, key, k, t.archerId);
    } else if exists u :: u in ts && u.archerId == s.archerId && t == Credit(u, s) {
      var u :| u in ts && u.archerId == s.archerId && t == Credit(u, s);
      SummaryExtend(Of(p, key, k, u.archerId), s);
    } else {
      OfEmpty(ts, p, key, k, s.archerId);
      SummaryExtend([], s);
      assert Of(scores, key, k, t.archerId) == [] + [s];
    }
  }

  /** An archer without a tally in a summarised group has no scores in it. */
  lemma OfEmpty<K>(ts: seq<Tally>, scores: seq<ScoreFact>, key: ScoreFact -> K, k: K, a: int)
    requires Summarises(ts, scores, key, k)
    requires forall u :: u in ts ==> u.archerId != a
    ensures Of(scores, key, k, a) == []
  {
    var q := Of(scores, key, k, a);
    if q != [] {
      OfMember(scores, key, k, a, q[0]);
    }
  }

  /** Each group's tallies are the per-archer summaries of its scores: an archer's
      total is the sum of the TotalScore of their scores in the group, with one entry
      per score, and every archer with a score in the group has exactly one tally. */
  lemma {:induction false} TalliesExact<K>(scores: seq<ScoreFact>, key: ScoreFact -> K, k: K)
    requires k in Tallies(scores, key)
    ensures Summarises(Tallies(scores, key)[k], scores, key, k)
  {
    var p := scores[..|scores| - 1];
    var s := scores[|scores| - 1];
    var groups := Tallies(p, key);
    var all := Tallies(scores, key);
    if key(s) != k {
      assert all[k] == groups[k];
      TalliesExact(p, key, k);
      SummarisesOther(groups[k], scores, key, k);
    } else if k in groups {
      TalliesExact(p, key, k);
      SummarisesCredit(groups[k], scores, key, k);
    } else {
      TalliesKeys(p, key, k);
      assert Summarises([], p, key, k);
      SummarisesCredit([], scores, key, k);
    }
  }

  /** A score listed by Of is one of the scores, in the group, of that archer. */
  lemma {:induction false} OfMember<K>(scores: seq<ScoreFact>, key: ScoreFact -> K, k: K, a: int, x: ScoreFact)
    requires x in Of(scores, key, k, a)
    ensures exists i :: 0 <= i < |scores| && key(scores[i]) == k && scores[i].archerId == a && scores[i] == x
  {
    var p := scores[..|scores| - 1];
    if x in Of(p, key, k, a) {
      OfMember(p, key, k, a, x);
      var i :| 0 <= i < |p| && key(p[i]) == k && p[i].archerId == a && p[i] == x;
      assert scores[i] == p[i];
    } else {
      assert scores[|scores| - 1] == x;
    }
  }

  // ---------------------------------------------------------------------
  // Ranking

  /** The order of the formatted lists: higher total first. Archers with equal totals
      keep ascending ArcherID order, the order `Object.values` yields integer keys in,
      which the stable `sort` preserves. */
  predicate Precedes(a: Tally, b: Tally)
  {
    a.totalScore > b.totalScore || (a.totalScore == b.totalScore && a.archerId <= b.archerId)
  }

  predicate SortedByTotal(ts: seq<Tally>)
  {
    forall i, j :: 0 <= i < j < |ts| ==> Precedes(ts[i], ts[j])
  }

  lemma ConsSorted(h: Tally, rest: seq<Tally>)
    requires SortedByTotal(rest)
    requires forall x :: x in rest ==> Precedes(h, x)
    ensures SortedByTotal([h] + rest)
  {
    var r := [h] + rest;
    forall i, j | 0 <= i < j < |r| ensures Precedes(r[i], r[j]) {
      assert r[j] == rest[j - 1];
      if i > 0 {
        assert r[i] == rest[i - 1];
      }
    }
  }

  function Insert(t: Tally, ts: seq<Tally>): (r: seq<Tally>)
    requires SortedByTotal(ts)
    ensures SortedByTotal(r)
    ensures multiset(r) == multiset(ts) + multiset{t}
    ensures forall x :: x in r ==> x == t || x in ts
  {
    if ts == [] then [t]
    else if Precedes(t, ts[0]) then
      ConsSorted(t, ts);
      [t] + ts
    else
      var rest := Insert(t, ts[1..]);
      assert ts == [ts[0]] + ts[1..];
      ConsSorted(ts[0], rest);
      [ts[0]] + rest
  }

  /** `.sort((a, b) => b.totalScore - a.totalScore)` over the tallies of a group. */
  function SortByTotal(ts: seq<Tally>): (r: seq<Tally>)
    ensures SortedByTotal(r)
    ensures multiset(r) == multiset(ts)
    ensures |r| == |ts|
  {
    if ts == [] then []
    else
      assert ts == ts[..|ts| - 1] + [ts[|ts| - 1]];
      var r := Insert(ts[|ts| - 1], SortByTotal(ts[..|ts| - 1]));
      assert |r| == |multiset(r)|;
      r
  }

  /** A tally with its position: `{ ...item, rank: index + 1 }`. */
  datatype Ranked = Ranked(tally: Tally, rank: int)

  function WithRanks(ts: seq<Tally>): (r: seq<Ranked>)
    ensures |r| == |ts|
    ensures forall i :: 0 <= i < |ts| ==> r[i].tally == ts[i] && r[i].rank == i + 1
  {
    if ts == [] then [] else WithRanks(ts[..|ts| - 1]) + [Ranked(ts[|ts| - 1], |ts|)]
  }

  /** The formatted list of one group: sorted, then ranked 1..n by position; the ranks
      follow non-increasing totals and the list holds exactly the group's tallies. */
  function RankGroup(ts: seq<Tally>): (r: seq<Ranked>)
    ensures |r| == |ts|
    ensures forall i :: 0 <= i < |r| ==> r[i].rank == i + 1
    ensures forall i, j :: 0 <= i < j < |r| ==> r[i].tally.totalScore >= r[j].tally.totalScore
    ensures multiset(RankedTallies(r)) == multiset(ts)
  {
    var sorted := SortByTotal(ts);
    var r := WithRanks(sorted);
    assert RankedTallies(r) == sorted;
    r
  }

  function RankedTallies(r: seq<Ranked>): (ts: seq<Tally>)
    ensures |ts| == |r| && forall i :: 0 <= i < |r| ==> ts[i] == r[i].tally
  {
    if r == [] then [] else RankedTallies(r[..|r| - 1]) + [r[|r| - 1].tally]
  }

  /** `.slice(0, 3)` of the sorted tallies: at most three, the best ones, in order. */
  function TopThree(ts: seq<Tally>): (r: seq<Tally>)
    ensures |r| <= 3 && |r| <= |ts| && r == SortByTotal(ts)[..|r|]
    ensures |ts| <= 3 ==> |r| == |ts|
    ensures |ts| > 3 ==> |r| == 3
    ensures forall x, y :: x in r && y in multiset(ts) && y !in r ==> x.totalScore >= y.totalScore
  {
    var sorted := SortByTotal(ts);
    var n := if |sorted| < 3 then |sorted| else 3;
    var r := sorted[..n];
    forall x, y | x in r && y in multiset(ts) && y !in r ensures x.totalScore >= y.totalScore {
      var i :| 0 <= i < n && sorted[i] == x;
      assert y in multiset(sorted);
      var j :| 0 <= j < |sorted| && sorted[j] == y;
      assert j >= n;
    }
    r
  }

  /** The top three of tallies with distinct archers name each archer once. */
  lemma TopThreeDistinct(ts: seq<Tally>)
    requires DistinctIds(ts)
    ensures DistinctIds(TopThree(ts))
  {
    var sorted := SortByTotal(ts);
    var r := TopThree(ts);
    DistinctUnderPermutation(sorted, ts);
    forall i, j | 0 <= i < j < |r| ensures r[i].archerId != r[j].archerId {
      assert r[i] == sorted[i] && r[j] == sorted[j];
    }
  }

  /** A formatted group of an aggregation: ranked 1..n by position with non-increasing
      totals, each entry the summary of its archer's scores in the group, and every
      archer with a score in the group present, once. */
  predicate FormattedGroup<K(==)>(r: seq<Ranked>, scores: seq<ScoreFact>, key: ScoreFact -> K, k: K)
  {
    (forall i :: 0 <= i < |r| ==> r[i].rank == i + 1)
    && (forall i, j :: 0 <= i < j < |r| ==> r[i].tally.archerId != r[j].tally.archerId)
    && (forall i, j :: 0 <= i < j < |r| ==> r[i].tally.totalScore >= r[j].tally.totalScore)
    && (forall i :: 0 <= i < |r| ==>
          Of(scores, key, k, r[i].tally.archerId) != []
          && r[i].tally == Summary(Of(scores, key, k, r[i].tally.archerId)))
    && (forall i :: 0 <= i < |scores| && key(scores[i]) == k ==>
          exists j :: 0 <= j < |r| && r[j].tally.archerId == scores[i].archerId)
  }

  /** Ranking keeps the tallies: an entry of the ranked group is a tally and back. */
  lemma RankedMembers(ts: seq<Tally>)
    ensures forall x :: x in RankedTallies(RankGroup(ts)) <==> x in ts
  {
    var rt := RankedTallies(RankGroup(ts));
    forall x ensures x in rt <==> x in ts {
      assert x in rt <==> x in multiset(rt);
      assert x in ts <==> x in multiset(ts);
    }
  }

  /** Ranking the tallies of a group gives its formatted standings. */
  lemma RankGroupFormatted<K>(ts: seq<Tally>, scores: seq<ScoreFact>, key: ScoreFact -> K, k: K)
    requires Summarises(ts, scores, key, k)
    ensures FormattedGroup(RankGroup(ts), scores, key, k)
  {
    var r := RankGroup(ts);
    RankedMembers(ts);
    RankedSummaries(r, ts, scores, key, k);
    RankedCover(r, ts, scores, key, k);
    RankedDistinct(r, ts);
  }

  /** Ranked entries that permute tallies with distinct archers name each archer once. */
  lemma RankedDistinct(r: seq<Ranked>, ts: seq<Tally>)
    requires multiset(RankedTallies(r)) == multiset(ts) && DistinctIds(ts)
    ensures forall i, j :: 0 <= i < j < |r| ==> r[i].tally.archerId != r[j].tally.archerId
  {
    var rt := RankedTallies(r);
    DistinctUnderPermutation(rt, ts);
    forall i, j | 0 <= i < j < |r| ensures r[i].tally.archerId != r[j].tally.archerId {
      assert rt[i] == r[i].tally && rt[j] == r[j].tally;
    }
  }

  /** A permutation of tallies with distinct archers has distinct archers. */
  lemma {:induction false} DistinctUnderPermutation(a: seq<Tally>, b: seq<Tally>)
    requires multiset(a) == multiset(b) && DistinctIds(b)
    ensures DistinctIds(a)
    decreases |a|
  {
    if a != [] {
      var n := |a| - 1;
      var x := a[n];
      assert a == a[..n] + [x];
      assert multiset(a) == multiset(a[..n]) + multiset{x};
      assert x in multiset(b);
      var p :| 0 <= p < |b| && b[p] == x;
      var rest := Without(b, p);
      WithoutMultiset(b, p);
      WithoutDistinct(b, p);
      DistinctUnderPermutation(a[..n], rest);
      WithoutOthersDiffer(a[..n], b, p);
      SnocDistinct(a[..n], x);
    }
  }

  /** What remains of `b` after removing its entry at `p` names another archer. */
  lemma WithoutOthersDiffer(c: seq<Tally>, b: seq<Tally>, p: int)
    requires 0 <= p < |b| && DistinctIds(b) && multiset(c) == multiset(Without(b, p))
    ensures forall i :: 0 <= i < |c| ==> c[i].archerId != b[p].archerId
  {
    var rest := Without(b, p);
    forall i | 0 <= i < |c| ensures c[i].archerId != b[p].archerId {
      assert c[i] in multiset(rest);
      var q :| 0 <= q < |rest| && rest[q] == c[i];
      WithoutAt(b, p, q);
    }
  }

  lemma SnocDistinct(c: seq<Tally>, x: Tally)
    requires DistinctIds(c) && forall i :: 0 <= i < |c| ==> c[i].archerId != x.archerId
    ensures DistinctIds(c + [x])
  {
    var a := c + [x];
    forall i, j | 0 <= i < j < |a| ensures a[i].archerId != a[j].archerId {
      if j < |c| {
        assert a[i] == c[i] && a[j] == c[j];
      } else {
        assert a[i] == c[i];
      }
    }
  }

  /** `b` without its element at `p`. */
  function Without<T>(b: seq<T>, p: int): (r: seq<T>)
    requires 0 <= p < |b|
    ensures |r| == |b| - 1
  {
    b[..p] + b[p + 1..]
  }

  lemma WithoutAt<T>(b: seq<T>, p: int, i: int)
    requires 0 <= p < |b| && 0 <= i < |b| - 1
    ensures Without(b, p)[i] == b[if i < p then i else i + 1]
  {
  }

  lemma WithoutMultiset<T>(b: seq<T>, p: int)
    requires 0 <= p < |b|
    ensures multiset(Without(b, p)) == multiset(b) - multiset{b[p]}
  {
    assert b == b[..p] + [b[p]] + b[p + 1..];
    assert multiset(b) == multiset(b[..p]) + multiset{b[p]} + multiset(b[p + 1..]);
  }

  lemma WithoutDistinct(b: seq<Tally>, p: int)
    requires 0 <= p < |b| && DistinctIds(b)
    ensures DistinctIds(Without(b, p))
  {
    var rest := Without(b, p);
    forall i, j | 0 <= i < j < |rest| ensures rest[i].archerId != rest[j].archerId {
      WithoutAt(b, p, i);
      WithoutAt(b, p, j);
    }
  }

  /** Entries drawn from summaries of their archers' scores are such summaries. */
  lemma RankedSummaries<K>(r: seq<Ranked>, ts: seq<Tally>, scores: seq<ScoreFact>, key: ScoreFact -> K, k: K)
    requires forall x :: x in RankedTallies(r) ==> x in ts
    requires forall t :: t in ts ==>
      Of(scores, key, k, t.archerId) != [] && t == Summary(Of(scores, key, k, t.archerId))
    ensures forall i :: 0 <= i < |r| ==>
      Of(scores, key, k, r[i].tally.archerId) != [] && r[i].tally == Summary(Of(scores, key, k, r[i].tally.archerId))
  {
    var rt := RankedTallies(r);
    forall i | 0 <= i < |r|
      ensures Of(scores, key, k, r[i].tally.archerId) != []
              && r[i].tally == Summary(Of(scores, key, k, r[i].tally.archerId))
    {
      assert rt[i] == r[i].tally;
      assert r[i].tally in ts;
    }
  }

  /** Entries that include every tally cover every archer the tallies cover. */
  lemma RankedCover<K>(r: seq<Ranked>, ts: seq<Tally>, scores: seq<ScoreFact>, key: ScoreFact -> K, k: K)
    requires forall x :: x in ts ==> x in RankedTallies(r)
    requires forall i :: 0 <= i < |scores| && key(scores[i]) == k ==>
      exists t :: t in ts && t.archerId == scores[i].archerId
    ensures forall i :: 0 <= i < |scores| && key(scores[i]) == k ==>
      exists j :: 0 <= j < |r| && r[j].tally.archerId == scores[i].archerId
  {
    forall i | 0 <= i < |scores| && key(scores[i]) == k
      ensures exists j :: 0 <= j < |r| && r[j].tally.archerId == scores[i].archerId
    {
      RankedHas(r, ts, scores[i].archerId);
    }
  }

  /** An archer with a tally has a ranked entry. */
  lemma RankedHas(r: seq<Ranked>, ts: seq<Tally>, id: int)
    requires forall x :: x in ts ==> x in RankedTallies(r)
    requires exists t :: t in ts && t.archerId == id
    ensures exists j :: 0 <= j < |r| && r[j].tally.archerId == id
  {
    var rt := RankedTallies(r);
    var t: Tally :| t in ts && t.archerId == id;
    assert t in rt;
    var j :| 0 <= j < |rt| && rt[j] == t;
    assert r[j].tally == t;
  }
}
