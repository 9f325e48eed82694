/** Competitions (competitionController.js): the defaults of a new competition, the
    guarded field updates, the year filter of the listing, and the per-category
    leaderboard of a competition's approved scores. */
module Competitions {
  import opened Common
  import opened Scores
  import opened Standings

  /** The body of a create or update request. */
  datatype CompetitionRequest = CompetitionRequest(
    name: Field<string>, roundId: Field<int>, date: Field<Date>,
    startDate: Field<Date>, endDate: Field<Date>,
    location: Field<string>, description: Field<string>, status: Field<string>)

  /** A stored Competition row. */
  datatype CompetitionRow = CompetitionRow(
    id: int, name: string, roundId: Option<int>, date: Date,
    startDate: Option<Date>, endDate: Option<Date>,
    location: Option<string>, description: Option<string>, status: string)

  /** What createCompetition stores: RoundID, Location and Description null unless
      truthy, StartDate and EndDate falling back to Date, Status to "upcoming". Name and
      Date are NOT NULL columns, so a request without them is refused by the store. */
  function Created(id: int, q: CompetitionRequest): (r: Result<CompetitionRow>)
    ensures r.Ok? <==> q.name.Val? && q.date.Val?
    ensures r.Ok? ==>
      r.value.id == id && r.value.name == q.name.v && r.value.date == q.date.v
      && r.value.startDate == Some(if Truthy(q.startDate) then q.startDate.v else q.date.v)
      && r.value.endDate == Some(if Truthy(q.endDate) then q.endDate.v else q.date.v)
      && (r.value.roundId.Some? <==> TruthyInt(q.roundId))
      && (TruthyInt(q.roundId) ==> r.value.roundId == Some(q.roundId.v))
      && (r.value.location.Some? <==> TruthyStr(q.location))
      && (TruthyStr(q.location) ==> r.value.location == Some(q.location.v))
      && (r.value.description.Some? <==> TruthyStr(q.description))
      && (TruthyStr(q.description) ==> r.value.description == Some(q.description.v))
      && r.value.status != ""
      && r.value.status == (if TruthyStr(q.status) then q.status.v else "upcoming")
    ensures r.Err? ==> r.failure == ServerError
  {
    if !q.name.Val? || !q.date.Val? then Err(ServerError)
    else
      Ok(CompetitionRow(
        id, q.name.v, Stored(OrInt(q.roundId, Null)), q.date.v,
        Stored(Or(q.startDate, q.date)), Stored(Or(q.endDate, q.date)),
        Stored(OrStr(q.location, Null)), Stored(OrStr(q.description, Null)),
        OrStr(q.status, Val("upcoming")).v))
  }

  /** What updateCompetition writes: Name, Date and Status only when truthy, the other
      columns whenever the field is present (a `null` clears them). */
  function Revised(c: CompetitionRow, q: CompetitionRequest): CompetitionRow
  {
    c.(name := if TruthyStr(q.name) then q.name.v else c.name,
       roundId := if Defined(q.roundId) then Stored(q.roundId) else c.roundId,
       date := if Truthy(q.date) then q.date.v else c.date,
       startDate := if Defined(q.startDate) then Stored(q.startDate) else c.startDate,
       endDate := if Defined(q.endDate) then Stored(q.endDate) else c.endDate,
       location := if Defined(q.location) then Stored(q.location) else c.location,
       description := if Defined(q.description) then Stored(q.description) else c.description,
       status := if TruthyStr(q.status) then q.status.v else c.status)
  }

  predicate EmptyRequest(q: CompetitionRequest)
  {
    q == CompetitionRequest(Absent, Absent, Absent, Absent, Absent, Absent, Absent, Absent)
  }

  /** An update with an empty body changes nothing. */
  lemma RevisedEmpty(c: CompetitionRow, q: CompetitionRequest)
    ensures EmptyRequest(q) ==> Revised(c, q) == c
  {
  }

  /** Repeating an update changes nothing more. */
  lemma RevisedIdempotent(c: CompetitionRow, q: CompetitionRequest)
    ensures Revised(Revised(c, q), q) == Revised(c, q)
  {
  }

  class Competition {
    const id: int
    var name: string
    var roundId: Option<int>
    var date: Date
    var startDate: Option<Date>
    var endDate: Option<Date>
    var location: Option<string>
    var description: Option<string>
    var status: string

    function Row(): CompetitionRow
      reads this
    {
      CompetitionRow(id, name, roundId, date, startDate, endDate, location, description, status)
    }

    constructor (row: CompetitionRow)
      ensures Row() == row
    {
      id := row.id;
      name := row.name;
      roundId := row.roundId;
      date := row.date;
      startDate := row.startDate;
      endDate := row.endDate;
      location := row.location;
      description := row.description;
      status := row.status;
    }

    /** updateCompetition on a competition that was found. */
    method Update(q: CompetitionRequest)
      modifies this
      ensures Row() == Revised(old(Row()), q)
    {
      Store(Revised(Row(), q));
    }

    method Store(row: CompetitionRow)
      requires row.id == id
      modifies this
      ensures Row() == row
    {
      name, roundId, date := row.name, row.roundId, row.date;
      startDate, endDate := row.startDate, row.endDate;
      location, description, status := row.location, row.description, row.status;
    }
  }

  /** createCompetition; `id` is the identifier the store assigns. */
  method CreateCompetition(id: int, q: CompetitionRequest) returns (r: Result<Competition>)
    ensures Created(id, q).Err? ==> r == Err(ServerError)
    ensures Created(id, q).Ok? ==> r.Ok? && fresh(r.value) && r.value.Row() == Created(id, q).value
  {
    var row := Created(id, q);
    if row.Err? {
      return Err(ServerError);
    }
    var c := new Competition(row.value);
    r := Ok(c);
  }

  // ---------------------------------------------------------------------
  // Listing by year

  /** `Date BETWEEN '<year>-01-01' AND '<year>-12-31'` */
  predicate InYear(d: Date, year: int)
  {
    AtOrBefore(Date(year, 1, 1), d) && AtOrBefore(d, Date(year, 12, 31))
  }

  /** On calendar dates the window is exactly the dates of that year. */
  lemma InYearExact(d: Date, year: int)
    requires WellFormedDate(d)
    ensures InYear(d, year) <==> d.year == year
  {
    if d.year == year {
      assert AtOrBefore(Date(year, 1, 1), d) by {
        if d.month == 1 && d.day == 1 { assert d == Date(year, 1, 1); }
      }
      assert AtOrBefore(d, Date(year, 12, 31)) by {
        if d.month == 12 && d.day == 31 { assert d == Date(year, 12, 31); }
      }
    }
  }

  /** getAllCompetitions' year filter, applied when a year is given. */
  function ByYear(cs: seq<CompetitionRow>, year: Option<int>): (r: seq<CompetitionRow>)
    ensures forall c :: c in r <==> c in cs && (year.Some? ==> InYear(c.date, year.value))
    ensures year.None? ==> r == cs
  {
    if cs == [] then []
    else
      var c := cs[|cs| - 1];
      ByYear(cs[..|cs| - 1], year) + (if year.None? || InYear(c.date, year.value) then [c] else [])
  }

  lemma ByYearCalendar(cs: seq<CompetitionRow>, year: int)
    requires forall c :: c in cs ==> WellFormedDate(c.date)
    ensures forall c :: c in ByYear(cs, Some(year)) <==> c in cs && c.date.year == year
  {
    forall c | c in cs {
      InYearExact(c.date, year);
    }
  }

  // ---------------------------------------------------------------------
  // Leaderboard

  /** One leaderboard line. */
  datatype LeaderRow = LeaderRow(
    rank: int, archerId: int, archerName: string, className: Option<string>,
    division: string, round: string, score: int, date: Date)

  function LineOf(rank: int, s: ScoreFact): LeaderRow
  {
    LeaderRow(rank, s.archerId, s.firstName + " " + s.lastName, s.className,
              s.divisionName, s.roundName, s.totalScore, s.dateShot)
  }

  /** The records the leaderboard query returns: approved, of the competition, of the
      division when one is asked for, and of an archer of the class when one is asked for
      (an archer without a class is then left out). */
  predicate OnLeaderboard(s: ScoreFact, id: int, divisionId: Option<int>, classId: Option<int>)
  {
    s.status == Approved && s.competitionId == Some(id)
    && (divisionId.Some? ==> s.divisionId == divisionId.value)
    && (classId.Some? ==> s.classId == Some(classId.value))
  }

  function Selected(facts: seq<ScoreFact>, id: int, divisionId: Option<int>, classId: Option<int>): (r: seq<ScoreFact>)
    ensures forall s :: s in r <==> s in facts && OnLeaderboard(s, id, divisionId, classId)
    ensures |r| <= |facts|
  {
    if facts == [] then []
    else
      var s := facts[|facts| - 1];
      Selected(facts[..|facts| - 1], id, divisionId, classId)
      + (if OnLeaderboard(s, id, divisionId, classId) then [s] else [])
  }

  /** The records of category `c`, in arrival order. */
  function InCategory(ss: seq<ScoreFact>, c: string): (r: seq<ScoreFact>)
    ensures forall s :: s in r <==> s in ss && CategoryKey(s) == c
    ensures |r| <= |ss|
  {
    if ss == [] then []
    else
      var s := ss[|ss| - 1];
      InCategory(ss[..|ss| - 1], c) + (if CategoryKey(s) == c then [s] else [])
  }

  /** The lines of one category: rank j + 1 for the j-th record to arrive. */
  function Lines(ss: seq<ScoreFact>): (r: seq<LeaderRow>)
    ensures |r| == |ss|
    ensures forall j :: 0 <= j < |ss| ==> r[j] == LineOf(j + 1, ss[j])
  {
    seq(|ss|, j requires 0 <= j < |ss| => LineOf(j + 1, ss[j]))
  }

  /** getCompetitionLeaderboard over the joined score records `facts`, which the query
      delivers by TotalScore descending. The query's `categoryId` parameter is read
      but not used. */
  method Leaderboard(facts: seq<ScoreFact>, id: int, divisionId: Option<int>, classId: Option<int>)
    returns (board: map<string, seq<LeaderRow>>)
    ensures BoardOf(board, Selected(facts, id, divisionId, classId))
  {
    var scores := Selected(facts, id, divisionId, classId);
    board := map[];
    var i := 0;
    while i < |scores|
      invariant 0 <= i <= |scores|
      invariant BoardOf(board, scores[..i])
    {
      var s := scores[i];
      var key := CategoryKey(s);
      LeaderboardStep(board, scores, i);
      var lines := if key in board then board[key] else [];
      board := board[key := lines + [LineOf(|lines| + 1, s)]];
      i := i + 1;
    }
    assert scores[..i] == scores;
  }

  /** One turn of the leaderboard loop pushes record i onto its category's list. */
  lemma LeaderboardStep(board: map<string, seq<LeaderRow>>, scores: seq<ScoreFact>, i: int)
    requires 0 <= i < |scores| && BoardOf(board, scores[..i])
    ensures BoardOf(Pushed(board, scores[i]), scores[..i + 1])
  {
    var done := scores[..i];
    assert scores[..i + 1] == done + [scores[i]];
    BoardStep(board, done, scores[i]);
  }

  /** The leaderboard of the records `ss`: a category for each category among them,
      holding that category's lines. */
  ghost predicate BoardOf(board: map<string, seq<LeaderRow>>, ss: seq<ScoreFact>)
  {
    (forall c :: c in board <==> exists s :: s in ss && CategoryKey(s) == c)
    && (forall c :: c in board ==> board[c] == Lines(InCategory(ss, c)))
  }

  /** `acc[key].push({ rank: acc[key].length + 1, ... })` */
  function Pushed(board: map<string, seq<LeaderRow>>, s: ScoreFact): map<string, seq<LeaderRow>>
  {
    var key := CategoryKey(s);
    var lines := if key in board then board[key] else [];
    board[key := lines + [LineOf(|lines| + 1, s)]]
  }

  lemma BoardStep(board: map<string, seq<LeaderRow>>, ss: seq<ScoreFact>, s: ScoreFact)
    requires BoardOf(board, ss)
    ensures BoardOf(Pushed(board, s), ss + [s])
  {
    var next := Pushed(board, s);
    forall c ensures c in next <==> exists x :: x in ss + [s] && CategoryKey(x) == c {
      BoardKeyStep(board, ss, s, c);
    }
    forall c | c in next ensures next[c] == Lines(InCategory(ss + [s], c)) {
      AbsentCategoryEmpty(board, ss, c);
      BoardLinesStep(board, ss, s, c);
    }
  }

  lemma BoardKeyStep(board: map<string, seq<LeaderRow>>, ss: seq<ScoreFact>, s: ScoreFact, c: string)
    requires forall c :: c in board <==> exists s :: s in ss && CategoryKey(s) == c
    ensures c in Pushed(board, s) <==> exists x :: x in ss + [s] && CategoryKey(x) == c
  {
    if c in board {
      var x :| x in ss && CategoryKey(x) == c;
      assert x in ss + [s];
    }
    if c == CategoryKey(s) {
      assert s in ss + [s];
    }
  }

  /** A category missing from the board has no records yet. */
  lemma AbsentCategoryEmpty(board: map<string, seq<LeaderRow>>, ss: seq<ScoreFact>, c: string)
    requires BoardOf(board, ss)
    ensures c !in board ==> InCategory(ss, c) == []
    ensures c in board ==> board[c] == Lines(InCategory(ss, c))
  {
    var earlier := InCategory(ss, c);
    if earlier != [] {
      assert earlier[0] in earlier;
    }
  }

  /** Pushing record `s` extends the lines of its own category and no other. */
  lemma BoardLinesStep(board: map<string, seq<LeaderRow>>, ss: seq<ScoreFact>, s: ScoreFact, c: string)
    requires c !in board ==> InCategory(ss, c) == []
    requires c in board ==> board[c] == Lines(InCategory(ss, c))
    requires c in Pushed(board, s)
    ensures Pushed(board, s)[c] == Lines(InCategory(ss + [s], c))
  {
    InCategorySnoc(ss, s, c);
    var earlier := InCategory(ss, c);
    if c == CategoryKey(s) {
      var lines := if c in board then board[c] else [];
      assert lines == Lines(earlier);
      PushedAt(board, s);
      LinesSnoc(earlier, s);
    } else {
      assert InCategory(ss + [s], c) == earlier;
      assert Pushed(board, s)[c] == board[c];
    }
  }

  lemma PushedAt(board: map<string, seq<LeaderRow>>, s: ScoreFact)
    ensures var key := CategoryKey(s);
      var lines := if key in board then board[key] else [];
      Pushed(board, s)[key] == lines + [LineOf(|lines| + 1, s)]
  {
  }

  lemma InCategorySnoc(ss: seq<ScoreFact>, s: ScoreFact, c: string)
    ensures InCategory(ss + [s], c) == InCategory(ss, c) + (if CategoryKey(s) == c then [s] else [])
  {
    assert (ss + [s])[..|ss|] == ss;
  }

  lemma LinesSnoc(ss: seq<ScoreFact>, s: ScoreFact)
    ensures Lines(ss + [s]) == Lines(ss) + [LineOf(|ss| + 1, s)]
  {
    assert |Lines(ss + [s])| == |Lines(ss) + [LineOf(|ss| + 1, s)]|;
    forall j | 0 <= j < |ss| + 1
      ensures Lines(ss + [s])[j] == (Lines(ss) + [LineOf(|ss| + 1, s)])[j]
    {
      if j < |ss| {
        assert (ss + [s])[j] == ss[j];
      }
    }
  }

  // ---------------------------------------------------------------------
  // What the leaderboard promises

  /** The number of records of category `c` among the first `i`. */
  function Before(ss: seq<ScoreFact>, i: int, c: string): nat
    requires 0 <= i <= |ss|
  {
    |InCategory(ss[..i], c)|
  }

  /** The i-th record arrives in its own category at rank one more than the records of
      that category before it. */
  lemma {:induction false} PlacedOnce(ss: seq<ScoreFact>, i: int)
    requires 0 <= i < |ss|
    ensures Before(ss, i, CategoryKey(ss[i])) < |InCategory(ss, CategoryKey(ss[i]))|
    ensures InCategory(ss, CategoryKey(ss[i]))[Before(ss, i, CategoryKey(ss[i]))] == ss[i]
    ensures Lines(InCategory(ss, CategoryKey(ss[i])))[Before(ss, i, CategoryKey(ss[i]))]
            == LineOf(Before(ss, i, CategoryKey(ss[i])) + 1, ss[i])
  {
    var c := CategoryKey(ss[i]);
    InCategoryPrefix(ss, i + 1, c);
    assert ss[..i + 1][..i] == ss[..i];
    assert InCategory(ss[..i + 1], c) == InCategory(ss[..i], c) + [ss[i]];
  }

  /** The records of a category among a prefix are a prefix of those of the whole. */
  lemma {:induction false} InCategoryPrefix(ss: seq<ScoreFact>, n: int, c: string)
    requires 0 <= n <= |ss|
    ensures InCategory(ss[..n], c) <= InCategory(ss, c)
    decreases |ss| - n
  {
    if n < |ss| {
      InCategoryPrefix(ss, n + 1, c);
      var p := ss[..n + 1];
      assert p[..|p| - 1] == ss[..n];
      assert InCategory(ss[..n], c) <= InCategory(p, c);
    } else {
      assert ss[..n] == ss;
    }
  }

  predicate ByTotalDescending(ss: seq<ScoreFact>)
  {
    forall i, j :: 0 <= i < j < |ss| ==> ss[i].totalScore >= ss[j].totalScore
  }

  lemma {:induction false} SelectedDescending(ss: seq<ScoreFact>, id: int, divisionId: Option<int>, classId: Option<int>)
    requires ByTotalDescending(ss)
    ensures ByTotalDescending(Selected(ss, id, divisionId, classId))
  {
    if ss != [] {
      var p := ss[..|ss| - 1];
      SelectedDescending(p, id, divisionId, classId);
      forall x | x in Selected(p, id, divisionId, classId)
        ensures x.totalScore >= ss[|ss| - 1].totalScore
      {
        var k :| 0 <= k < |p| && p[k] == x;
      }
    }
  }

  lemma {:induction false} InCategoryDescending(ss: seq<ScoreFact>, c: string)
    requires ByTotalDescending(ss)
    ensures ByTotalDescending(InCategory(ss, c))
  {
    if ss != [] {
      var p := ss[..|ss| - 1];
      InCategoryDescending(p, c);
      forall x | x in InCategory(p, c)
        ensures x.totalScore >= ss[|ss| - 1].totalScore
      {
        var k :| 0 <= k < |p| && p[k] == x;
      }
    }
  }

  /** With the records delivered by TotalScore descending, every category of the
      leaderboard lists non-increasing scores by rank. */
  lemma LeaderboardDescending(facts: seq<ScoreFact>, id: int, divisionId: Option<int>, classId: Option<int>, c: string)
    requires ByTotalDescending(facts)
    ensures var ls := Lines(InCategory(Selected(facts, id, divisionId, classId), c));
      forall j, k :: 0 <= j < k < |ls| ==> ls[j].score >= ls[k].score
  {
    SelectedDescending(facts, id, divisionId, classId);
    InCategoryDescending(Selected(facts, id, divisionId, classId), c);
  }
}
