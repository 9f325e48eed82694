/** Club championships (championshipController.js): a championship per year, the set
    of competitions linked to each, and the standings and winners computed from the
    approved scores of the linked competitions. */
module Championships {
  import opened Common
  import opened Scores
  import opened Standings

  datatype Championship = Championship(
    id: int, name: string, year: int, startDate: Option<Date>, endDate: Option<Date>)

  /** Some championship in `cs` other than `except` is for year `y`. */
  predicate YearTaken(cs: map<int, Championship>, y: int, except: int)
  {
    exists k :: k in cs && k != except && cs[k].year == y
  }

  /** Each championship is stored under its id, years are unique (the unique index on
      Year), and links join existing championships and competitions. */
  ghost predicate Consistent(cs: map<int, Championship>, competitions: set<int>, links: set<(int, int)>)
  {
    (forall k :: k in cs ==> cs[k].id == k)
    && (forall a, b :: a in cs && b in cs && a != b ==> cs[a].year != cs[b].year)
    && (forall l :: l in links ==> l.0 in cs && l.1 in competitions)
  }

  /** Saving a championship under its id with a year no other championship has keeps
      the tables consistent. */
  lemma SaveConsistent(cs: map<int, Championship>, competitions: set<int>, links: set<(int, int)>, u: Championship)
    requires Consistent(cs, competitions, links) && u.id in cs && !YearTaken(cs, u.year, u.id)
    ensures Consistent(cs[u.id := u], competitions, links)
  {
  }

  /** The ChampionshipCompetition rows of championship `id` after replacing them by the
      competitions `ids`. */
  function LinksFor(id: int, ids: seq<int>): set<(int, int)>
  {
    set x | x in ids :: (id, x)
  }

  predicate NoDuplicates(ids: seq<int>)
  {
    forall i, j :: 0 <= i < j < |ids| ==> ids[i] != ids[j]
  }

  /** The approved scores of the linked competitions, in the order the query returns them. */
  function Counted(facts: seq<ScoreFact>, linked: set<int>): (c: seq<ScoreFact>)
    ensures forall s :: s in c <==>
      s in facts && s.status == Approved && s.competitionId.Some? && s.competitionId.value in linked
  {
    if facts == [] then []
    else
      var s := facts[|facts| - 1];
      Counted(facts[..|facts| - 1], linked)
      + (if s.status == Approved && s.competitionId.Some? && s.competitionId.value in linked then [s] else [])
  }

  /** The class and division groups of the winners, with their fallbacks. */
  function WinnerKey(s: ScoreFact): (string, string)
  {
    (OrElse(s.className, "No Class"), OrElse(Some(s.divisionName), "No Division"))
  }

  /** The winners response: the nested class / division lists, and the message sent
      when no competition is linked. */
  datatype Winners = Winners(lists: map<string, map<string, seq<Tally>>>, message: Option<string>)

  /** A championship's top-three list: the best of its group's tallies, each archer at
      most once. */
  predicate TopOfGroup(r: seq<Tally>, scores: seq<ScoreFact>, k: (string, string))
  {
    |r| <= 3
    && DistinctIds(r)
    && (forall i, j :: 0 <= i < j < |r| ==> r[i].totalScore >= r[j].totalScore)
    && (forall t :: t in r ==>
          Of(scores, WinnerKey, k, t.archerId) != [] && t == Summary(Of(scores, WinnerKey, k, t.archerId)))
    && (forall i :: 0 <= i < |scores| && WinnerKey(scores[i]) == k ==>
          (exists t :: t in r && t.archerId == scores[i].archerId)
          || (|r| == 3 && forall t :: t in r ==> t.totalScore >= Sum(Totals(Of(scores, WinnerKey, k, scores[i].archerId)))))
  }

  /** The fields updateChampionship sets: Name and Year when truthy, the dates whenever
      given (null clears them). */
  function Amended(c: Championship, name: Field<string>, year: Field<int>, startDate: Field<Date>,
                   endDate: Field<Date>): Championship
  {
    c.(name := if TruthyStr(name) then name.v else c.name,
       year := if TruthyInt(year) then year.v else c.year,
       startDate := if Defined(startDate) then Stored(startDate) else c.startDate,
       endDate := if Defined(endDate) then Stored(endDate) else c.endDate)
  }

  class ChampionshipRegistry {
    var championships: map<int, Championship>
    /** The identifiers of the existing competitions. */
    var competitions: set<int>
    /** The ChampionshipCompetition rows, as (ChampionshipID, CompetitionID). */
    var links: set<(int, int)>

    /** The tables are consistent. */
    ghost predicate Valid()
      reads this
    {
      Consistent(championships, competitions, links)
    }

    constructor (competitions: set<int>)
      ensures Valid()
      ensures championships == map[] && this.competitions == competitions && links == {}
    {
      championships := map[];
      this.competitions := competitions;
      links := {};
    }

    /** The competitions linked to championship `id`. */
    function Linked(id: int): set<int>
      reads this
    {
      set l | l in links && l.0 == id :: l.1
    }

    /** createChampionship; `id` is the identifier the store assigns. A missing year or
        name is refused by the store (500). */
    method CreateChampionship(id: int, name: Field<string>, year: Field<int>,
                              startDate: Field<Date>, endDate: Field<Date>)
      returns (r: Result<Championship>)
      requires Valid() && id !in championships
      modifies this
      ensures Valid()
      ensures year.Val? && YearTaken(old(championships), year.v, id) ==>
        r == Err(BadRequest("Championship for this year already exists", []))
      ensures r.Ok? <==> year.Val? && name.Val? && !YearTaken(old(championships), year.v, id)
      ensures r.Err? ==> unchanged(this)
      ensures r.Err? && !(year.Val? && YearTaken(old(championships), year.v, id)) ==> r == Err(ServerError)
      ensures r.Ok? ==>
        r.value == Championship(id, name.v, year.v, if Truthy(startDate) then Some(startDate.v) else None,
                                if Truthy(endDate) then Some(endDate.v) else None)
        && championships == old(championships)[id := r.value]
        && links == old(links) && competitions == old(competitions)
    {
      if year.Val? && exists k :: k in championships && k != id && championships[k].year == year.v {
        return Err(BadRequest("Championship for this year already exists", []));
      }
      if !year.Val? || !name.Val? {
        return Err(ServerError);
      }
      var c := Championship(id, name.v, year.v, if startDate.Val? then Some(startDate.v) else None,
                            if endDate.Val? then Some(endDate.v) else None);
      championships := championships[id := c];
      r := Ok(c);
    }

    /** updateChampionship. Name and Year change only when truthy, the dates whenever
        given; a Year already used by another championship makes the save fail (500)
        with nothing written. A `competitionIds` array then replaces the links: the old
        rows are deleted first, and the new rows go in one insert that fails (500) when
        an id repeats or names no competition, leaving the championship with no links. */
    method UpdateChampionship(id: int, name: Field<string>, year: Field<int>, startDate: Field<Date>,
                              endDate: Field<Date>, competitionIds: Field<seq<int>>)
      returns (r: Result<Championship>)
      requires Valid()
      modifies this
      ensures Valid()
      ensures id !in old(championships) ==> r == Err(NotFound("Championship not found")) && unchanged(this)
      ensures id in old(championships) ==>
        var updated := Amended(old(championships)[id], name, year, startDate, endDate);
        (YearTaken(old(championships), updated.year, id) ==> r == Err(ServerError) && unchanged(this))
        && (!YearTaken(old(championships), updated.year, id) ==>
              championships == old(championships)[id := updated] && competitions == old(competitions)
              && (!competitionIds.Val? ==> r == Ok(updated) && links == old(links))
              && (competitionIds.Val? && (forall x :: x in competitionIds.v ==> x in competitions)
                  && NoDuplicates(competitionIds.v) ==>
                    r == Ok(updated) && links == RemoveLinks(old(links), id) + LinksFor(id, competitionIds.v))
              && (competitionIds.Val? && !((forall x :: x in competitionIds.v ==> x in competitions)
                  && NoDuplicates(competitionIds.v)) ==>
                    r == Err(ServerError) && links == RemoveLinks(old(links), id)))
    {
      if id !in championships {
        return Err(NotFound("Championship not found"));
      }
      var updated := Amended(championships[id], name, year, startDate, endDate);
      if YearTaken(championships, updated.year, id) {
        return Err(ServerError);
      }
      SaveConsistent(championships, competitions, links, updated);
      championships := championships[id := updated];
      if competitionIds.Val? {
        var saved := ReplaceLinks(id, competitionIds.v);
        if !saved {
          return Err(ServerError);
        }
      }
      r := Ok(updated);
    }

    /** The association update of updateChampionship: the championship's rows are
        destroyed, then the new ones go in one bulk insert, which fails when an id repeats
        or names no competition. */
    method ReplaceLinks(id: int, ids: seq<int>) returns (saved: bool)
      requires Valid() && id in championships
      modifies this
      ensures Valid()
      ensures championships == old(championships) && competitions == old(competitions)
      ensures saved <==> (forall x :: x in ids ==> x in competitions) && NoDuplicates(ids)
      ensures saved ==> links == RemoveLinks(old(links), id) + LinksFor(id, ids)
      ensures !saved ==> links == RemoveLinks(old(links), id)
    {
      links := RemoveLinks(links, id);
      if |ids| > 0 {
        if !((forall x :: x in ids ==> x in competitions) && NoDuplicates(ids)) {
          return false;
        }
        links := links + LinksFor(id, ids);
      }
      saved := true;
    }

    /** addCompetitionToChampionship. */
    method AddCompetition(id: int, competitionId: int) returns (r: Result<()>)
      requires Valid()
      modifies this
      ensures Valid()
      ensures id !in old(championships) ==> r == Err(NotFound("Championship not found"))
      ensures id in old(championships) && competitionId !in old(competitions) ==>
        r == Err(NotFound("Competition not found"))
      ensures id in old(championships) && competitionId in old(competitions) && (id, competitionId) in old(links) ==>
        r == Err(BadRequest("Competition already in championship", []))
      ensures r.Ok? <==>
        id in old(championships) && competitionId in old(competitions) && (id, competitionId) !in old(links)
      ensures r.Err? ==> unchanged(this)
      ensures r.Ok? ==>
        links == old(links) + {(id, competitionId)} && championships == old(championships)
        && competitions == old(competitions)
    {
      if id !in championships {
        return Err(NotFound("Championship not found"));
      }
      if competitionId !in competitions {
        return Err(NotFound("Competition not found"));
      }
      if (id, competitionId) in links {
        return Err(BadRequest("Competition already in championship", []));
      }
      links := links + {(id, competitionId)};
      r := Ok(());
    }

    /** removeCompetitionFromChampionship: deletes the link, whether or not the
        championship exists; 404 when there was no such link. */
    method RemoveCompetition(id: int, competitionId: int) returns (r: Result<()>)
      requires Valid()
      modifies this
      ensures Valid()
      ensures (id, competitionId) !in old(links) ==> r == Err(NotFound("Association not found")) && unchanged(this)
      ensures (id, competitionId) in old(links) ==>
        r == Ok(()) && links == old(links) - {(id, competitionId)}
        && championships == old(championships) && competitions == old(competitions)
    {
      if (id, competitionId) !in links {
        return Err(NotFound("Association not found"));
      }
      links := links - {(id, competitionId)};
      r := Ok(());
    }

    /** getChampionshipStandings over the joined score records `facts`: one formatted
        list per category of the approved scores of the linked competitions. */
    method ChampionshipStandings(id: int, facts: seq<ScoreFact>) returns (r: Result<map<string, seq<Ranked>>>)
      ensures id !in championships ==> r == Err(NotFound("Championship not found"))
      ensures id in championships ==> r.Ok?
      ensures r.Ok? ==> StandingsOf(r.value, Counted(facts, Linked(id)))
    {
      if id !in championships {
        return Err(NotFound("Championship not found"));
      }
      var counted := Counted(facts, Linked(id));
      var groups := Aggregate(counted, CategoryKey);
      FormatStandingsCorrect(counted);
      r := Ok(FormatStandings(groups));
    }

    /** getChampionshipWinners over the joined score records `facts`: the top three
        archers of each class and division, or an empty result with a message when no
        competition is linked. */
    method ChampionshipWinners(id: int, facts: seq<ScoreFact>) returns (r: Result<Winners>)
      ensures id !in championships ==> r == Err(NotFound("Championship not found"))
      ensures id in championships ==> r.Ok?
      ensures r.Ok? && Linked(id) == {} ==>
        r.value == Winners(map[], Some("No competitions linked to this championship"))
      ensures r.Ok? && Linked(id) != {} ==>
        r.value.message.None? && WinnersOf(r.value.lists, Counted(facts, Linked(id)))
    {
      if id !in championships {
        return Err(NotFound("Championship not found"));
      }
      var linked := Linked(id);
      if linked == {} {
        return Ok(Winners(map[], Some("No competitions linked to this championship")));
      }
      var counted := Counted(facts, linked);
      var groups := Aggregate(counted, WinnerKey);
      NestWinnersCorrect(counted);
      r := Ok(Winners(NestWinners(groups), None));
    }
  }

  /** The links left after deleting every row of championship `id`. */
  function RemoveLinks(links: set<(int, int)>, id: int): (rest: set<(int, int)>)
    ensures forall l :: l in rest <==> l in links && l.0 != id
  {
    set l | l in links && l.0 != id
  }

  // ---------------------------------------------------------------------
  // Standings

  /** The standings response: a category for every category of the counted scores,
      and each category's list formatted from exactly those scores. */
  ghost predicate StandingsOf(st: map<string, seq<Ranked>>, counted: seq<ScoreFact>)
  {
    (forall c :: c in st <==> exists i :: 0 <= i < |counted| && CategoryKey(counted[i]) == c)
    && (forall c :: c in st ==> FormattedGroup(st[c], counted, CategoryKey, c))
  }

  function FormatStandings(groups: map<string, seq<Tally>>): map<string, seq<Ranked>>
  {
    map c | c in groups :: RankGroup(groups[c])
  }

  lemma FormatStandingsCorrect(counted: seq<ScoreFact>)
    ensures StandingsOf(FormatStandings(Tallies(counted, CategoryKey)), counted)
  {
    var groups := Tallies(counted, CategoryKey);
    var st := FormatStandings(groups);
    forall c ensures c in st <==> exists i :: 0 <= i < |counted| && CategoryKey(counted[i]) == c {
      TalliesKeys(counted, CategoryKey, c);
    }
    forall c | c in st ensures FormattedGroup(st[c], counted, CategoryKey, c) {
      TalliesExact(counted, CategoryKey, c);
      RankGroupFormatted(groups[c], counted, CategoryKey, c);
    }
  }

  // ---------------------------------------------------------------------
  // Winners

  /** The winners lists: a class and division for every pair of the counted scores,
      and each list the top of exactly that pair's scores. */
  ghost predicate WinnersOf(w: map<string, map<string, seq<Tally>>>, counted: seq<ScoreFact>)
  {
    (forall c, d :: c in w && d in w[c] <==> exists i :: 0 <= i < |counted| && WinnerKey(counted[i]) == (c, d))
    && (forall c, d :: c in w && d in w[c] ==> TopOfGroup(w[c][d], counted, (c, d)))
  }

  function ClassesOf(groups: map<(string, string), seq<Tally>>): (cs: set<string>)
    ensures forall c :: c in cs <==> exists d :: (c, d) in groups
  {
    set g | g in groups :: g.0
  }

  function DivisionsOf(groups: map<(string, string), seq<Tally>>, c: string): (ds: set<string>)
    ensures forall d :: d in ds <==> (c, d) in groups
  {
    set g | g in groups && g.0 == c :: g.1
  }

  /** The class -> division nesting of the flat (class, division) groups, each list cut
      to its top three. */
  function NestWinners(groups: map<(string, string), seq<Tally>>): (w: map<string, map<string, seq<Tally>>>)
    ensures forall c, d :: c in w && d in w[c] <==> (c, d) in groups
    ensures forall c, d :: c in w && d in w[c] ==> w[c][d] == TopThree(groups[(c, d)])
  {
    map c | c in ClassesOf(groups) :: map d | d in DivisionsOf(groups, c) :: TopThree(groups[(c, d)])
  }

  lemma NestWinnersCorrect(counted: seq<ScoreFact>)
    ensures WinnersOf(NestWinners(Tallies(counted, WinnerKey)), counted)
  {
    var groups := Tallies(counted, WinnerKey);
    var w := NestWinners(groups);
    forall c, d ensures c in w && d in w[c] <==> exists i :: 0 <= i < |counted| && WinnerKey(counted[i]) == (c, d) {
      TalliesKeys(counted, WinnerKey, (c, d));
    }
    forall c, d | c in w && d in w[c] ensures TopOfGroup(w[c][d], counted, (c, d)) {
      TalliesExact(counted, WinnerKey, (c, d));
      TopThreeOfGroup(groups[(c, d)], counted, (c, d));
    }
  }

  lemma TopThreeOfGroup(ts: seq<Tally>, scores: seq<ScoreFact>, k: (string, string))
    requires Summarises(ts, scores, WinnerKey, k)
    ensures TopOfGroup(TopThree(ts), scores, k)
  {
    var r := TopThree(ts);
    var sorted := SortByTotal(ts);
    TopThreeDistinct(ts);
    forall t | t in r ensures t in ts {
      assert t in sorted;
      assert t in multiset(sorted);
    }
    forall i, j | 0 <= i < j < |r| ensures r[i].totalScore >= r[j].totalScore {
      assert r[i] == sorted[i] && r[j] == sorted[j];
      assert Precedes(sorted[i], sorted[j]);
    }
    forall i | 0 <= i < |scores| && WinnerKey(scores[i]) == k
      ensures (exists t :: t in r && t.archerId == scores[i].archerId)
              || (|r| == 3 && forall t :: t in r ==> t.totalScore >= Sum(Totals(Of(scores, WinnerKey, k, scores[i].archerId))))
    {
      LeftOutScoredLess(ts, scores, k, i);
    }
  }

  /** An archer of the group missing from the top three scored no more than each of them. */
  lemma LeftOutScoredLess(ts: seq<Tally>, scores: seq<ScoreFact>, k: (string, string), i: int)
    requires Summarises(ts, scores, WinnerKey, k)
    requires 0 <= i < |scores| && WinnerKey(scores[i]) == k
    ensures (exists t :: t in TopThree(ts) && t.archerId == scores[i].archerId)
            || (|TopThree(ts)| == 3
                && forall t :: t in TopThree(ts) ==> t.totalScore >= Sum(Totals(Of(scores, WinnerKey, k, scores[i].archerId))))
  {
    var r := TopThree(ts);
    var u: Tally :| u in ts && u.archerId == scores[i].archerId;
    if u !in r {
      assert u in multiset(ts);
      assert |ts| > 3;
      assert u == Summary(Of(scores, WinnerKey, k, u.archerId));
    } else {
      assert u in r && u.archerId == scores[i].archerId;
    }
  }
}
