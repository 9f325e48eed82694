/** Rounds and their ranges, and the date-bounded equivalence rules between rounds
    (roundController.js): the mapping of submitted ranges onto RoundRange rows, the
    create and update of rounds, the base-differs-from-equivalent guard, and the two
    queries that pick the equivalence rules in force. */
module Rounds {
  import opened Common
  import opened Helpers

  // ---------------------------------------------------------------------
  // Text

  function DigitChar(d: int): char
    requires 0 <= d < 10
  {
    "0123456789"[d]
  }

  function Digits(n: nat): (s: string)
    ensures |s| >= 1 && forall i :: 0 <= i < |s| ==> '0' <= s[i] <= '9'
  {
    if n < 10 then [DigitChar(n)] else Digits(n / 10) + [DigitChar(n % 10)]
  }

  /** The decimal text of an integer, as a template literal renders it. */
  function Decimal(i: int): string
  {
    if i < 0 then "-" + Digits(-i) else Digits(i)
  }

  // ---------------------------------------------------------------------
  // Ranges

  /** One element of the `ranges` array of a request, in the client's field names. */
  datatype RangePayload = RangePayload(
    rangeNo: Field<int>, distance: Field<int>, numEnds: Field<int>, ends: Field<int>,
    targetSize: Field<int>, targetFace: Field<string>, scoringType: Field<string>,
    arrowsPerEnd: Field<int>)

  /** A range after the field mapping, before the store sees it: distance and ends are
      still whatever the request held. */
  datatype MappedRange = MappedRange(
    rangeNo: int, distance: Field<int>, ends: Field<int>,
    targetFace: string, scoringType: string, arrowsPerEnd: int)

  /** The target face of a submitted range: its size in centimetres when a size is
      given, else the face named, else the 122 cm face. */
  function FaceOf(p: RangePayload): (face: string)
    ensures face == (if TruthyInt(p.targetSize) then Decimal(p.targetSize.v) + "cm"
                     else if TruthyStr(p.targetFace) then p.targetFace.v else "122cm")
  {
    if TruthyInt(p.targetSize) then Decimal(p.targetSize.v) + "cm" else OrStr(p.targetFace, Val("122cm")).v
  }

  /** The field mapping of the `i`-th submitted range (0-based). */
  function MapRange(p: RangePayload, i: int): (m: MappedRange)
    ensures m.rangeNo == (if TruthyInt(p.rangeNo) then p.rangeNo.v else i + 1)
    ensures m.distance == p.distance
    ensures m.ends == (if TruthyInt(p.numEnds) then p.numEnds else p.ends)
    ensures m.targetFace == FaceOf(p)
    ensures m.scoringType == (if TruthyStr(p.scoringType) then p.scoringType.v else "10-zone")
    ensures m.arrowsPerEnd == (if TruthyInt(p.arrowsPerEnd) then p.arrowsPerEnd.v else 6)
  {
    MappedRange(
      OrInt(p.rangeNo, Val(i + 1)).v,
      p.distance,
      OrInt(p.numEnds, p.ends),
      FaceOf(p),
      OrStr(p.scoringType, Val("10-zone")).v,
      OrInt(p.arrowsPerEnd, Val(6)).v)
  }

  /** A range with no fallback in the request gets range number i + 1, the 122 cm face,
      10-zone scoring and six arrows per end. */
  lemma MapRangeDefaults(p: RangePayload, i: int)
    requires !TruthyInt(p.rangeNo) && !TruthyInt(p.targetSize) && !TruthyStr(p.targetFace)
    requires !TruthyStr(p.scoringType) && !TruthyInt(p.arrowsPerEnd)
    ensures MapRange(p, i).rangeNo == i + 1 && MapRange(p, i).targetFace == "122cm"
    ensures MapRange(p, i).scoringType == "10-zone" && MapRange(p, i).arrowsPerEnd == 6
  {
  }

  /** The field mapping applied to every submitted range, in order. */
  function Mapped(ps: seq<RangePayload>): (ms: seq<MappedRange>)
    ensures |ms| == |ps|
  {
    seq(|ps|, i requires 0 <= i < |ps| => MapRange(ps[i], i))
  }

  /** The i-th mapped range is the mapping of the i-th payload, at position i. */
  lemma MappedAt(ps: seq<RangePayload>, i: int)
    requires 0 <= i < |ps|
    ensures Mapped(ps)[i] == MapRange(ps[i], i)
  {
  }

  /** The createRound check `!distance || !ends`, negated. */
  predicate Complete(m: MappedRange)
  {
    TruthyInt(m.distance) && TruthyInt(m.ends)
  }

  /** The ScoringType enum of RoundRange. */
  predicate ScoringTypeName(s: string)
  {
    s == "10-zone" || s == "5-zone" || s == "X-ring" || s == "Imperial"
  }

  /** What the RoundRange table accepts: Ends in 1..50, ArrowsPerEnd in 1..12, a known
      scoring type. */
  predicate StorableRange(row: RangeRow)
  {
    1 <= row.ends <= 50 && 1 <= row.arrowsPerEnd <= 12 && ScoringTypeName(row.scoringType)
  }

  predicate DistinctRangeNos(rows: seq<RangeRow>)
  {
    forall i, j :: 0 <= i < j < |rows| ==> rows[i].rangeNo != rows[j].rangeNo
  }

  function RowOf(m: MappedRange): RangeRow
    requires m.distance.Val? && m.ends.Val?
  {
    RangeRow(m.rangeNo, m.distance.v, m.ends.v, m.targetFace, m.scoringType, m.arrowsPerEnd)
  }

  /** The store takes the row after `before` in the same round: NOT NULL distance and
      ends, the column checks, and the unique (RoundID, RangeNo) index. */
  predicate Accepted(m: MappedRange, before: seq<RangeRow>)
  {
    m.distance.Val? && m.ends.Val? && StorableRange(RowOf(m))
    && forall x :: x in before ==> x.rangeNo != m.rangeNo
  }

  /** The failure the loop reports at (0-based) position `k`. */
  function StopFailure(m: MappedRange, k: int, checked: bool): Failure
  {
    if checked && !Complete(m) then
      BadRequest("Range " + Decimal(k + 1) + ": distance and ends/numEnds are required", [])
    else ServerError
  }

  /** One turn of the creation loop on the range at (0-based) position `k`, after the rows
      `before`: the positional 400 when `checked` finds it incomplete, a 500 when the store
      refuses the row, and otherwise the row is added. */
  function StepOutcome(before: seq<RangeRow>, m: MappedRange, k: int, checked: bool): (seq<RangeRow>, Option<Failure>)
  {
    if checked && !Complete(m) then (before, Some(StopFailure(m, k, checked)))
    else if !Accepted(m, before) then (before, Some(ServerError))
    else (before + [RowOf(m)], None)
  }

  /** The ranges one pass of the creation loop leaves stored, and the failure that
      stops it. `checked` is createRound's completeness check (position counted from 1);
      a row the store refuses raises a 500. Rows created before the failure remain. */
  function Outcome(ms: seq<MappedRange>, checked: bool): (o: (seq<RangeRow>, Option<Failure>))
  {
    if ms == [] then ([], None)
    else
      var prev := Outcome(ms[..|ms| - 1], checked);
      if prev.1.Some? then prev
      else StepOutcome(prev.0, ms[|ms| - 1], |ms| - 1, checked)
  }

  /** A range passes the loop: complete when checked, and accepted after the ones before. */
  predicate Passes(ms: seq<MappedRange>, k: int, checked: bool)
    requires 0 <= k < |ms|
  {
    (checked ==> Complete(ms[k])) && Accepted(ms[k], Outcome(ms[..k], checked).0)
  }

  /** When every range passes, the loop stores every range, in order. */
  lemma {:induction false} OutcomeAll(ms: seq<MappedRange>, checked: bool)
    requires forall j :: 0 <= j < |ms| ==> Passes(ms, j, checked)
    ensures Outcome(ms, checked).1 == None
    ensures |Outcome(ms, checked).0| == |ms|
    ensures forall j :: 0 <= j < |ms| ==>
      ms[j].distance.Val? && ms[j].ends.Val? && Outcome(ms, checked).0[j] == RowOf(ms[j])
  {
    if ms != [] {
      var p := ms[..|ms| - 1];
      forall j | 0 <= j < |p| ensures Passes(p, j, checked) {
        assert ms[..j] == p[..j] && ms[j] == p[j];
        assert Passes(ms, j, checked) == Passes(p, j, checked);
      }
      OutcomeAll(p, checked);
      assert ms[..|p|] == p;
      assert Passes(ms, |p|, checked);
    }
  }

  /** When the first range that does not pass is at position `k`, the loop reports it
      there and leaves exactly the rows of the ranges before it. */
  lemma {:induction false} OutcomeStops(ms: seq<MappedRange>, checked: bool, k: int)
    requires 0 <= k < |ms|
    requires forall j :: 0 <= j < k ==> Passes(ms, j, checked)
    requires !Passes(ms, k, checked)
    ensures Outcome(ms, checked).1 == Some(StopFailure(ms[k], k, checked))
    ensures Outcome(ms, checked).0 == Outcome(ms[..k], checked).0
    decreases |ms|
  {
    var p := ms[..|ms| - 1];
    if k == |ms| - 1 {
      assert p == ms[..k];
      forall j | 0 <= j < k ensures Passes(p, j, checked) {
        assert ms[..j] == p[..j] && ms[j] == p[j];
        assert Passes(ms, j, checked) == Passes(p, j, checked);
      }
      OutcomeAll(p, checked);
    } else {
      forall j | 0 <= j <= k ensures Passes(p, j, checked) == Passes(ms, j, checked) {
        assert ms[..j] == p[..j] && ms[j] == p[j];
        assert Passes(ms, j, checked) == Passes(p, j, checked);
      }
      OutcomeStops(p, checked, k);
      assert p[..k] == ms[..k];
    }
  }

  /** One more turn of the loop. */
  lemma OutcomeStep(ms: seq<MappedRange>, checked: bool, i: int)
    requires 0 <= i < |ms|
    requires Outcome(ms[..i], checked).1.None?
    ensures Outcome(ms[..i + 1], checked) == StepOutcome(Outcome(ms[..i], checked).0, ms[i], i, checked)
  {
    assert ms[..i + 1][..i] == ms[..i];
  }

  /** Once the loop has failed, later ranges change nothing. */
  lemma {:induction false} OutcomeSticky(ms: seq<MappedRange>, checked: bool, n: int)
    requires 0 <= n <= |ms|
    requires Outcome(ms[..n], checked).1.Some?
    ensures Outcome(ms, checked) == Outcome(ms[..n], checked)
    decreases |ms|
  {
    if n == |ms| {
      assert ms[..n] == ms;
    } else {
      var p := ms[..|ms| - 1];
      assert p[..n] == ms[..n];
      OutcomeSticky(p, checked, n);
    }
  }

  /** Every row the loop stores is one the store accepts, with distinct range numbers. */
  lemma {:induction false} OutcomeStorable(ms: seq<MappedRange>, checked: bool)
    ensures DistinctRangeNos(Outcome(ms, checked).0)
    ensures forall j :: 0 <= j < |Outcome(ms, checked).0| ==> StorableRange(Outcome(ms, checked).0[j])
  {
    if ms != [] {
      OutcomeStorable(ms[..|ms| - 1], checked);
    }
  }

  /** The loop over the submitted ranges: the rows created, in order, and the failure
      that stops it. */
  method RangeLoop(ps: seq<RangePayload>, checked: bool) returns (rows: seq<RangeRow>, failure: Option<Failure>)
    ensures (rows, failure) == Outcome(Mapped(ps), checked)
  {
    ghost var ms := Mapped(ps);
    rows, failure := [], None;
    var i := 0;
    while i < |ps| && failure.None?
      invariant 0 <= i <= |ps|
      invariant (rows, failure) == Outcome(ms[..i], checked)
    {
      var m := MapRange(ps[i], i);
      MappedAt(ps, i);
      OutcomeStep(ms, checked, i);
      rows, failure := AddRange(rows, m, i, checked);
      i := i + 1;
    }
    if failure.Some? {
      OutcomeSticky(ms, checked, i);
    } else {
      assert ms[..i] == ms;
    }
  }

  /** One turn of the loop: the completeness check, then `RoundRange.create` after the
      rows `before`. */
  method AddRange(before: seq<RangeRow>, m: MappedRange, k: int, checked: bool)
    returns (rows: seq<RangeRow>, failure: Option<Failure>)
    ensures (rows, failure) == StepOutcome(before, m, k, checked)
  {
    rows := before;
    if checked && !Complete(m) {
      return rows, Some(BadRequest("Range " + Decimal(k + 1) + ": distance and ends/numEnds are required", []));
    }
    if !Accepted(m, rows) {
      return rows, Some(ServerError);
    }
    rows := rows + [RowOf(m)];
    failure := None;
  }

  // ---------------------------------------------------------------------
  // Rounds

  datatype RoundRow = RoundRow(name: string, description: Option<string>)

  /** A round other than `except` already has the name. */
  predicate NameTaken(rounds: map<int, RoundRow>, name: string, except: int)
  {
    exists k :: k in rounds && k != except && rounds[k].name == name
  }

  /** Round.Name is a unique column. */
  ghost predicate UniqueNames(rounds: map<int, RoundRow>)
  {
    forall a, b :: a in rounds && b in rounds && a != b ==> rounds[a].name != rounds[b].name
  }

  /** The rows a round's ranges may hold: distinct range numbers, and each one the
      RoundRange table accepts. */
  ghost predicate StorableRows(rows: seq<RangeRow>)
  {
    DistinctRangeNos(rows) && forall j :: 0 <= j < |rows| ==> StorableRange(rows[j])
  }

  ghost predicate StoredRangesValid(ranges: map<int, seq<RangeRow>>)
  {
    forall k :: k in ranges ==> StorableRows(ranges[k])
  }

  /** Saving a round under a name no other round has keeps the names unique. */
  lemma SaveUnique(rounds: map<int, RoundRow>, id: int, u: RoundRow)
    requires UniqueNames(rounds) && !NameTaken(rounds, u.name, id)
    ensures UniqueNames(rounds[id := u])
  {
  }

  /** A second write to the same key overwrites the first. */
  lemma StoreTwice<K, V>(m: map<K, V>, k: K, a: V, b: V)
    ensures m[k := a][k := b] == m[k := b]
  {
  }

  class RoundStore {
    var rounds: map<int, RoundRow>
    /** The RoundRange rows of each round, in the order they were created. */
    var ranges: map<int, seq<RangeRow>>

    /** Every round has its list of ranges, names are unique (Round.Name is a unique
        column), and the stored ranges satisfy the RoundRange constraints. */
    ghost predicate Valid()
      reads this
    {
      ranges.Keys == rounds.Keys && UniqueNames(rounds) && StoredRangesValid(ranges)
    }

    constructor ()
      ensures Valid() && rounds == map[] && ranges == map[]
    {
      rounds := map[];
      ranges := map[];
    }

    /** The range-creating loop of createRound (`checked`) and of updateRound, on a round
        whose ranges are empty. */
    method CreateRanges(id: int, ps: seq<RangePayload>, checked: bool) returns (failure: Option<Failure>)
      requires Valid() && id in rounds && ranges[id] == []
      modifies this
      ensures Valid()
      ensures rounds == old(rounds)
      ensures ranges == old(ranges)[id := Outcome(Mapped(ps), checked).0]
      ensures failure == Outcome(Mapped(ps), checked).1
    {
      var rows;
      rows, failure := RangeLoop(ps, checked);
      OutcomeStorable(Mapped(ps), checked);
      assert StorableRows(rows);
      ranges := ranges[id := rows];
    }

    /** createRound; `id` is the identifier the store assigns. The round is created before
        its ranges, outside a transaction: a range that stops the loop leaves the round
        and the ranges before it in place. */
    method CreateRound(id: int, name: Field<string>, description: Field<string>,
                       payload: Field<seq<RangePayload>>) returns (r: Result<int>)
      requires Valid() && id !in rounds
      modifies this
      ensures Valid()
      ensures !TruthyStr(name) || Blank(name.v) ==>
        r == Err(BadRequest("Round name is required", [])) && unchanged(this)
      ensures TruthyStr(name) && !Blank(name.v) && NameTaken(old(rounds), name.v, id) ==>
        r == Err(BadRequest("Round name already exists", [])) && unchanged(this)
      ensures TruthyStr(name) && !Blank(name.v) && !NameTaken(old(rounds), name.v, id) ==>
        var o := if payload.Val? then Outcome(Mapped(payload.v), true) else ([], None);
        rounds == old(rounds)[id := RoundRow(name.v, Stored(OrStr(description, Null)))]
        && ranges == old(ranges)[id := o.0]
        && r == (if o.1.None? then Ok(id) else Err(o.1.value))
    {
      if !(name.Val? && name.v != "") || Blank(name.v) {
        return Err(BadRequest("Round name is required", []));
      }
      if exists k :: k in rounds && k != id && rounds[k].name == name.v {
        return Err(BadRequest("Round name already exists", []));
      }
      var u := RoundRow(name.v, if description.Val? && description.v != "" then Some(description.v) else None);
      SaveUnique(rounds, id, u);
      assert StorableRows([]);
      rounds := rounds[id := u];
      ranges := ranges[id := []];
      var failure := None;
      if payload.Val? {
        failure := CreateRanges(id, payload.v, true);
        StoreTwice(old(ranges), id, [], Outcome(Mapped(payload.v), true).0);
      }
      r := if failure.None? then Ok(id) else Err(failure.value);
    }

    /** updateRound. The name changes when truthy and the description when present; a
        name another round has makes the save fail (500) with nothing written. A ranges
        array then replaces the round's ranges: the old rows are deleted and the new ones
        created one by one, without the completeness check of createRound. */
    method UpdateRound(id: int, name: Field<string>, description: Field<string>,
                       payload: Field<seq<RangePayload>>) returns (r: Result<()>)
      requires Valid()
      modifies this
      ensures Valid()
      ensures id !in old(rounds) ==> r == Err(NotFound("Round not found")) && unchanged(this)
      ensures id in old(rounds) ==>
        var c := old(rounds)[id];
        var u := RoundRow(if TruthyStr(name) then name.v else c.name,
                          if Defined(description) then Stored(description) else c.description);
        (NameTaken(old(rounds), u.name, id) ==> r == Err(ServerError) && unchanged(this))
        && (!NameTaken(old(rounds), u.name, id) ==>
              rounds == old(rounds)[id := u]
              && (!payload.Val? ==> ranges == old(ranges) && r == Ok(()))
              && (payload.Val? ==>
                    var o := Outcome(Mapped(payload.v), false);
                    ranges == old(ranges)[id := o.0] && r == (if o.1.None? then Ok(()) else Err(o.1.value))))
    {
      if id !in rounds {
        return Err(NotFound("Round not found"));
      }
      var u := rounds[id];
      if name.Val? && name.v != "" {
        u := u.(name := name.v);
      }
      if description != Absent {
        u := u.(description := Stored(description));
      }
      if exists k :: k in rounds && k != id && rounds[k].name == u.name {
        return Err(ServerError);
      }
      SaveUnique(rounds, id, u);
      rounds := rounds[id := u];
      r := Ok(());
      if payload.Val? {
        assert StorableRows([]);
        ranges := ranges[id := []];
        var failure := CreateRanges(id, payload.v, false);
        StoreTwice(old(ranges), id, [], Outcome(Mapped(payload.v), false).0);
        if failure.Some? {
          r := Err(failure.value);
        }
      }
    }
  }

  /** A submitted list whose every range passes replaces the round's ranges by exactly
      the mapped list. */
  lemma ReplacedExactly(ps: seq<RangePayload>, checked: bool)
    requires forall j :: 0 <= j < |ps| ==> Passes(Mapped(ps), j, checked)
    ensures Outcome(Mapped(ps), checked).1.None?
    ensures |Outcome(Mapped(ps), checked).0| == |ps|
    ensures forall j :: 0 <= j < |ps| ==>
      ps[j].distance.Val? && MapRange(ps[j], j).ends.Val?
      && Outcome(Mapped(ps), checked).0[j] == RowOf(MapRange(ps[j], j))
  {
    OutcomeAll(Mapped(ps), checked);
    forall j | 0 <= j < |ps|
      ensures ps[j].distance.Val? && MapRange(ps[j], j).ends.Val?
              && Outcome(Mapped(ps), checked).0[j] == RowOf(MapRange(ps[j], j))
    {
      MappedAt(ps, j);
    }
  }

  // ---------------------------------------------------------------------
  // Equivalence rules

  /** An EquivalentRound row: within the date window, archers of the category may shoot
      the equivalent round in place of the base round. */
  datatype Rule = Rule(
    baseRoundId: int, equivalentRoundId: int, categoryId: int, startDate: Date, endDate: Option<Date>)

  class RuleStore {
    var rules: map<int, Rule>

    /** The model-level validator: no rule maps a round onto itself. */
    ghost predicate Valid()
      reads this
    {
      forall k :: k in rules ==> rules[k].baseRoundId != rules[k].equivalentRoundId
    }

    constructor ()
      ensures Valid() && rules == map[]
    {
      rules := map[];
    }

    /** The row createEquivalentRound and updateEquivalentRound write; the NOT NULL
        columns must be present. */
    static function Written(base: Field<int>, equivalent: Field<int>, category: Field<int>,
                            start: Field<Date>, end: Field<Date>): (r: Result<Rule>)
      ensures r.Ok? <==> base.Val? && equivalent.Val? && category.Val? && start.Val?
      ensures r.Err? ==> r.failure == ServerError
      ensures r.Ok? ==>
        r.value.baseRoundId == base.v && r.value.equivalentRoundId == equivalent.v
        && r.value.categoryId == category.v && r.value.startDate == start.v
        && r.value.endDate == (if end.Val? then Some(end.v) else None)
    {
      if base.Val? && equivalent.Val? && category.Val? && start.Val? then
        Ok(Rule(base.v, equivalent.v, category.v, start.v, Stored(Or(end, Null))))
      else Err(ServerError)
    }

    /** createEquivalentRound; `id` is the identifier the store assigns. The ids are
        compared as sent, so two missing ids count as the same. */
    method CreateRule(id: int, base: Field<int>, equivalent: Field<int>, category: Field<int>,
                      start: Field<Date>, end: Field<Date>) returns (r: Result<Rule>)
      requires Valid() && id !in rules
      modifies this
      ensures Valid()
      ensures base == equivalent ==>
        r == Err(BadRequest("Base and equivalent rounds cannot be the same", [])) && unchanged(this)
      ensures base != equivalent ==> r == Written(base, equivalent, category, start, end)
      ensures r.Err? ==> unchanged(this)
      ensures r.Ok? ==> rules == old(rules)[id := r.value]
    {
      if base == equivalent {
        return Err(BadRequest("Base and equivalent rounds cannot be the same", []));
      }
      r := Written(base, equivalent, category, start, end);
      if r.Ok? {
        rules := rules[id := r.value];
      }
    }

    /** The row `equivalent.update` leaves from the stored rule `stored`: a field missing
        from the request keeps its stored value (undefined keys are dropped), a `null`
        in a NOT NULL column and a base equal to the equivalent after the merge are
        refused by the store, and EndDate is always written. */
    static function Updated(stored: Rule, base: Field<int>, equivalent: Field<int>, category: Field<int>,
                            start: Field<Date>, end: Field<Date>): (r: Result<Rule>)
      ensures r.Err? ==> r.failure == ServerError
      ensures (base.Null? || equivalent.Null? || category.Null? || start.Null?) ==> r.Err?
      ensures r.Ok? ==>
        r.value.baseRoundId == (if base.Val? then base.v else stored.baseRoundId)
        && r.value.equivalentRoundId == (if equivalent.Val? then equivalent.v else stored.equivalentRoundId)
        && r.value.categoryId == (if category.Val? then category.v else stored.categoryId)
        && r.value.startDate == (if start.Val? then start.v else stored.startDate)
        && r.value.endDate == (if end.Val? then Some(end.v) else None)
      ensures r.Ok? ==> r.value.baseRoundId != r.value.equivalentRoundId
      ensures r.Err? && !(base.Null? || equivalent.Null? || category.Null? || start.Null?) ==>
        (if base.Val? then base.v else stored.baseRoundId)
        == (if equivalent.Val? then equivalent.v else stored.equivalentRoundId)
    {
      if base.Null? || equivalent.Null? || category.Null? || start.Null? then Err(ServerError)
      else
        var merged := Rule(
          Keep(base, stored.baseRoundId), Keep(equivalent, stored.equivalentRoundId),
          Keep(category, stored.categoryId), Keep(start, stored.startDate), Stored(Or(end, Null)));
        if merged.baseRoundId == merged.equivalentRoundId then Err(ServerError) else Ok(merged)
    }

    /** An update that sends every NOT NULL column writes the same row as a creation. */
    static lemma FullUpdateIsWritten(stored: Rule, base: Field<int>, equivalent: Field<int>, category: Field<int>,
                                     start: Field<Date>, end: Field<Date>)
      requires base.Val? && equivalent.Val? && category.Val? && start.Val? && base.v != equivalent.v
      ensures Updated(stored, base, equivalent, category, start, end) == Written(base, equivalent, category, start, end)
    {
    }

    /** A request that resends the stored base round with an end date, and nothing else,
        passes UpdateRule's guard (one id is sent, the other is missing) and keeps the
        rule's other columns. A request sending only an end date never reaches the merge:
        both ids are missing, so they compare equal and UpdateRule answers 400. */
    static lemma BaseAndEndDateUpdate(stored: Rule, end: Field<Date>)
      requires stored.baseRoundId != stored.equivalentRoundId
      ensures Val(stored.baseRoundId) != Absent
      ensures Updated(stored, Val(stored.baseRoundId), Absent, Absent, Absent, end)
        == Ok(stored.(endDate := Stored(Or(end, Null))))
    {
    }

    /** updateEquivalentRound. */
    method UpdateRule(id: int, base: Field<int>, equivalent: Field<int>, category: Field<int>,
                      start: Field<Date>, end: Field<Date>) returns (r: Result<Rule>)
      requires Valid()
      modifies this
      ensures Valid()
      ensures id !in old(rules) ==> r == Err(NotFound("Equivalent round rule not found"))
      ensures id in old(rules) && base == equivalent ==>
        r == Err(BadRequest("Base and equivalent rounds cannot be the same", []))
      ensures id in old(rules) && base != equivalent ==>
        r == Updated(old(rules)[id], base, equivalent, category, start, end)
      ensures r.Err? ==> unchanged(this)
      ensures r.Ok? ==> rules == old(rules)[id := r.value]
    {
      if id !in rules {
        return Err(NotFound("Equivalent round rule not found"));
      }
      if base == equivalent {
        return Err(BadRequest("Base and equivalent rounds cannot be the same", []));
      }
      r := Updated(rules[id], base, equivalent, category, start, end);
      if r.Ok? {
        rules := rules[id := r.value];
      }
    }
  }

  /** getEquivalentRounds: the rules of base round `baseId` for the category whose window
      holds the date, in the order the store lists them. Both query parameters are
      required. */
  function EquivalentRounds(rules: seq<Rule>, baseId: int, categoryId: Option<int>, date: Option<Date>)
    : (r: Result<seq<Rule>>)
    ensures categoryId.None? || date.None? <==> r == Err(BadRequest("Category ID and date are required", []))
    ensures r.Ok? ==>
      |r.value| <= |rules|
      && forall x :: x in r.value <==>
           x in rules && x.baseRoundId == baseId && x.categoryId == categoryId.value
           && IsDateInRange(date.value, x.startDate, x.endDate)
  {
    if categoryId.None? || date.None? then Err(BadRequest("Category ID and date are required", []))
    else Ok(Matching(rules, baseId, categoryId.value, date.value))
  }

  function Matching(rules: seq<Rule>, baseId: int, categoryId: int, date: Date): (r: seq<Rule>)
    ensures |r| <= |rules|
    ensures forall x :: x in r <==>
      x in rules && x.baseRoundId == baseId && x.categoryId == categoryId
      && IsDateInRange(date, x.startDate, x.endDate)
  {
    if rules == [] then []
    else
      var x := rules[|rules| - 1];
      Matching(rules[..|rules| - 1], baseId, categoryId, date)
      + (if x.baseRoundId == baseId && x.categoryId == categoryId && IsDateInRange(date, x.startDate, x.endDate)
         then [x] else [])
  }

  /** The filter keeps the listed order and every copy: matching a concatenation is
      matching each part, and a single rule is kept iff it matches. */
  lemma {:induction false} MatchingAppend(a: seq<Rule>, b: seq<Rule>, baseId: int, categoryId: int, date: Date)
    ensures Matching(a + b, baseId, categoryId, date)
            == Matching(a, baseId, categoryId, date) + Matching(b, baseId, categoryId, date)
    decreases |b|
  {
    if b == [] {
      assert a + b == a;
    } else {
      var n := |b| - 1;
      assert a + b == (a + b[..n]) + [b[n]];
      assert b == b[..n] + [b[n]];
      var x := b[n];
      var t := if x.baseRoundId == baseId && x.categoryId == categoryId && IsDateInRange(date, x.startDate, x.endDate) then [x] else [];
      calc {
        Matching(a + b, baseId, categoryId, date);
        Matching((a + b[..n]) + [x], baseId, categoryId, date);
        { MatchingSnoc(a + b[..n], x, baseId, categoryId, date); }
        Matching(a + b[..n], baseId, categoryId, date) + t;
        { MatchingAppend(a, b[..n], baseId, categoryId, date); }
        (Matching(a, baseId, categoryId, date) + Matching(b[..n], baseId, categoryId, date)) + t;
        Matching(a, baseId, categoryId, date) + (Matching(b[..n], baseId, categoryId, date) + t);
        { MatchingSnoc(b[..n], x, baseId, categoryId, date); }
        Matching(a, baseId, categoryId, date) + Matching(b[..n] + [x], baseId, categoryId, date);
        Matching(a, baseId, categoryId, date) + Matching(b, baseId, categoryId, date);
      }
    }
  }

  lemma MatchingSnoc(c: seq<Rule>, x: Rule, baseId: int, categoryId: int, date: Date)
    ensures Matching(c + [x], baseId, categoryId, date) == Matching(c, baseId, categoryId, date) + (if x.baseRoundId == baseId && x.categoryId == categoryId && IsDateInRange(date, x.startDate, x.endDate) then [x] else [])
  {
    assert (c + [x])[..|c|] == c;
  }

  // ---------------------------------------------------------------------
  // Eligible rounds

  datatype ArcherInfo = ArcherInfo(
    firstName: string, lastName: string, classId: Option<int>, className: Option<string>,
    defaultDivisionId: Option<int>, divisionName: Option<string>)

  datatype CategoryRow = CategoryRow(categoryId: int, classId: int, divisionId: int, name: string)

  /** An EquivalentRound row joined with its base round, its equivalent round and its
      category. */
  datatype RuleFact = RuleFact(
    baseRoundId: int, baseRoundName: string, equivalentRoundId: int, equivalentRoundName: string,
    categoryId: int, categoryName: string, startDate: Date, endDate: Option<Date>)

  datatype Equivalent = Equivalent(roundId: int, roundName: string, category: string)

  /** One eligible base round: its equivalent rounds, one per rule, and the names of the
      categories of those rules without repetition. */
  datatype Group = Group(baseRoundId: int, baseRoundName: string, equivalents: seq<Equivalent>, categories: seq<string>)

  datatype Eligible = Eligible(
    archerName: string, className: string, divisionName: string,
    rounds: seq<Group>, totalRounds: Option<int>, message: Option<string>)

  /** The rule is in force on `today`: started, and not ended before. */
  predicate ActiveOn(r: RuleFact, today: Date)
  {
    AtOrBefore(r.startDate, today) && (r.endDate.None? || AtOrBefore(today, r.endDate.value))
  }

  /** The eligible-rounds query and isDateInRange agree on which rules are in force. */
  lemma ActiveIsInRange(r: RuleFact, today: Date)
    ensures ActiveOn(r, today) <==> IsDateInRange(today, r.startDate, r.endDate)
  {
  }

  /** The categories of the archer's class and default division. */
  function CategoryIds(cats: seq<CategoryRow>, a: ArcherInfo): (ids: seq<int>)
    requires a.classId.Some?
    ensures forall id :: id in ids <==>
      exists c :: c in cats && c.categoryId == id && c.classId == a.classId.value && Some(c.divisionId) == a.defaultDivisionId
  {
    if cats == [] then []
    else
      var c := cats[|cats| - 1];
      CategoryIds(cats[..|cats| - 1], a)
      + (if c.classId == a.classId.value && Some(c.divisionId) == a.defaultDivisionId then [c.categoryId] else [])
  }

  /** The rules in force on `today` for one of the categories, in the order listed. */
  function ActiveRules(rules: seq<RuleFact>, ids: seq<int>, today: Date): (r: seq<RuleFact>)
    ensures forall x :: x in r <==> x in rules && x.categoryId in ids && ActiveOn(x, today)
  {
    if rules == [] then []
    else
      var x := rules[|rules| - 1];
      ActiveRules(rules[..|rules| - 1], ids, today) + (if x.categoryId in ids && ActiveOn(x, today) then [x] else [])
  }

  /** The rules in force keep the listed order and every copy. */
  lemma {:induction false} ActiveRulesAppend(a: seq<RuleFact>, b: seq<RuleFact>, ids: seq<int>, today: Date)
    ensures ActiveRules(a + b, ids, today) == ActiveRules(a, ids, today) + ActiveRules(b, ids, today)
    decreases |b|
  {
    if b == [] {
      assert a + b == a;
    } else {
      var n := |b| - 1;
      assert a + b == (a + b[..n]) + [b[n]];
      assert b == b[..n] + [b[n]];
      var x := b[n];
      var t := if x.categoryId in ids && ActiveOn(x, today) then [x] else [];
      calc {
        ActiveRules(a + b, ids, today);
        ActiveRules((a + b[..n]) + [x], ids, today);
        { ActiveRulesSnoc(a + b[..n], x, ids, today); }
        ActiveRules(a + b[..n], ids, today) + t;
        { ActiveRulesAppend(a, b[..n], ids, today); }
        (ActiveRules(a, ids, today) + ActiveRules(b[..n], ids, today)) + t;
        ActiveRules(a, ids, today) + (ActiveRules(b[..n], ids, today) + t);
        { ActiveRulesSnoc(b[..n], x, ids, today); }
        ActiveRules(a, ids, today) + ActiveRules(b[..n] + [x], ids, today);
        ActiveRules(a, ids, today) + ActiveRules(b, ids, today);
      }
    }
  }

  lemma ActiveRulesSnoc(c: seq<RuleFact>, x: RuleFact, ids: seq<int>, today: Date)
    ensures ActiveRules(c + [x], ids, today) == ActiveRules(c, ids, today) + (if x.categoryId in ids && ActiveOn(x, today) then [x] else [])
  {
    assert (c + [x])[..|c|] == c;
  }

  function EquivalentOf(r: RuleFact): Equivalent
  {
    Equivalent(r.equivalentRoundId, r.equivalentRoundName, r.categoryName)
  }

  function NewGroup(r: RuleFact): Group
  {
    Group(r.baseRoundId, r.baseRoundName, [EquivalentOf(r)], [r.categoryName])
  }

  /** `equivalentRounds.push(...)` and `categories.add(...)` */
  function Extend(g: Group, r: RuleFact): Group
  {
    g.(equivalents := g.equivalents + [EquivalentOf(r)],
       categories := if r.categoryName in g.categories then g.categories else g.categories + [r.categoryName])
  }

  predicate DistinctBases(gs: seq<Group>)
  {
    forall i, j :: 0 <= i < j < |gs| ==> gs[i].baseRoundId != gs[j].baseRoundId
  }

  /** Adds a rule to the group of its base round, appending a new group when the base
      round has none yet (a Map keeps its keys in insertion order). */
  function AddRule(gs: seq<Group>, r: RuleFact): seq<Group>
  {
    if gs == [] then [NewGroup(r)]
    else if gs[0].baseRoundId == r.baseRoundId then [Extend(gs[0], r)] + gs[1..]
    else [gs[0]] + AddRule(gs[1..], r)
  }

  function Grouped(rs: seq<RuleFact>): seq<Group>
  {
    if rs == [] then [] else AddRule(Grouped(rs[..|rs| - 1]), rs[|rs| - 1])
  }

  /** The `forEach` over the rules in force that fills `roundsMap`. */
  method GroupByBase(rs: seq<RuleFact>) returns (groups: seq<Group>)
    ensures groups == Grouped(rs)
  {
    groups := [];
    var i := 0;
    while i < |rs|
      invariant 0 <= i <= |rs|
      invariant groups == Grouped(rs[..i])
    {
      assert rs[..i + 1][..i] == rs[..i];
      groups := AddRule(groups, rs[i]);
      i := i + 1;
    }
    assert rs[..i] == rs;
  }

  // What the grouping computes

  /** The base rounds of the rules, each once, in the order of their first rule. */
  function Bases(rs: seq<RuleFact>): (bs: seq<int>)
    ensures forall i, j :: 0 <= i < j < |bs| ==> bs[i] != bs[j]
    ensures forall b :: b in bs <==> exists x :: x in rs && x.baseRoundId == b
  {
    if rs == [] then []
    else
      var p := Bases(rs[..|rs| - 1]);
      var x := rs[|rs| - 1];
      if x.baseRoundId in p then p else p + [x.baseRoundId]
  }

  /** The equivalent rounds of base round `b`, one per rule, in order. */
  function EquivalentsOf(rs: seq<RuleFact>, b: int): (es: seq<Equivalent>)
    ensures forall e :: e in es <==> exists x :: x in rs && x.baseRoundId == b && EquivalentOf(x) == e
  {
    if rs == [] then []
    else
      var x := rs[|rs| - 1];
      EquivalentsOf(rs[..|rs| - 1], b) + (if x.baseRoundId == b then [EquivalentOf(x)] else [])
  }

  /** The category names of the rules of base round `b`, each once. */
  function CategoriesOf(rs: seq<RuleFact>, b: int): (ns: seq<string>)
    ensures forall i, j :: 0 <= i < j < |ns| ==> ns[i] != ns[j]
    ensures forall n :: n in ns <==> exists x :: x in rs && x.baseRoundId == b && x.categoryName == n
  {
    if rs == [] then []
    else
      var p := CategoriesOf(rs[..|rs| - 1], b);
      var x := rs[|rs| - 1];
      if x.baseRoundId == b && x.categoryName !in p then p + [x.categoryName] else p
  }

  /** The base round's name as the first of its rules gives it. */
  function BaseNameOf(rs: seq<RuleFact>, b: int): string
  {
    if rs == [] then ""
    else
      var x := rs[|rs| - 1];
      if x.baseRoundId == b && b !in Bases(rs[..|rs| - 1]) then x.baseRoundName
      else BaseNameOf(rs[..|rs| - 1], b)
  }

  function GroupOf(rs: seq<RuleFact>, b: int): Group
  {
    Group(b, BaseNameOf(rs, b), EquivalentsOf(rs, b), CategoriesOf(rs, b))
  }

  lemma {:induction false} AddRuleExisting(gs: seq<Group>, r: RuleFact, k: int)
    requires DistinctBases(gs) && 0 <= k < |gs| && gs[k].baseRoundId == r.baseRoundId
    ensures AddRule(gs, r) == gs[k := Extend(gs[k], r)]
  {
    if k > 0 {
      assert gs[0].baseRoundId != gs[k].baseRoundId;
      AddRuleExisting(gs[1..], r, k - 1);
      assert [gs[0]] + gs[1..][k - 1 := Extend(gs[k], r)] == gs[k := Extend(gs[k], r)];
    }
  }

  lemma {:induction false} AddRuleNew(gs: seq<Group>, r: RuleFact)
    requires forall i :: 0 <= i < |gs| ==> gs[i].baseRoundId != r.baseRoundId
    ensures AddRule(gs, r) == gs + [NewGroup(r)]
  {
    if gs != [] {
      AddRuleNew(gs[1..], r);
      assert [gs[0]] + (gs[1..] + [NewGroup(r)]) == gs + [NewGroup(r)];
    }
  }

  /** How one more rule changes the group of base round `b`. */
  lemma GroupOfStep(rs: seq<RuleFact>, b: int)
    requires rs != []
    ensures var p := rs[..|rs| - 1]; var r := rs[|rs| - 1];
      (r.baseRoundId != b ==> GroupOf(rs, b) == GroupOf(p, b))
      && (r.baseRoundId == b && b in Bases(p) ==> GroupOf(rs, b) == Extend(GroupOf(p, b), r))
      && (r.baseRoundId == b && b !in Bases(p) ==> GroupOf(rs, b) == NewGroup(r))
  {
    var p := rs[..|rs| - 1];
    var r := rs[|rs| - 1];
    if r.baseRoundId == b && b !in Bases(p) {
      FirstOfBase(p, b);
    }
  }

  /** A base round without rules has no equivalents and no categories yet. */
  lemma FirstOfBase(p: seq<RuleFact>, b: int)
    requires b !in Bases(p)
    ensures EquivalentsOf(p, b) == [] && CategoriesOf(p, b) == []
  {
    if CategoriesOf(p, b) != [] {
      assert CategoriesOf(p, b)[0] in CategoriesOf(p, b);
    }
  }

  /** The groups are the base rounds of the rules in force, each once and in the order
      of their first rule, each holding one equivalent round per rule and the names of
      the rules' categories without repetition. */
  lemma {:induction false} GroupedExact(rs: seq<RuleFact>)
    ensures |Grouped(rs)| == |Bases(rs)|
    ensures forall g :: 0 <= g < |Grouped(rs)| ==> Grouped(rs)[g] == GroupOf(rs, Bases(rs)[g])
  {
    if rs != [] {
      var p := rs[..|rs| - 1];
      var r := rs[|rs| - 1];
      var b := r.baseRoundId;
      GroupedExact(p);
      var gs := Grouped(p);
      assert Grouped(rs) == AddRule(gs, r);
      assert DistinctBases(gs) by {
        forall i, j | 0 <= i < j < |gs| ensures gs[i].baseRoundId != gs[j].baseRoundId {
          assert gs[i].baseRoundId == Bases(p)[i] && gs[j].baseRoundId == Bases(p)[j];
        }
      }
      if b in Bases(p) {
        var k :| 0 <= k < |Bases(p)| && Bases(p)[k] == b;
        assert gs[k].baseRoundId == b;
        AddRuleExisting(gs, r, k);
        assert Bases(rs) == Bases(p);
        forall g | 0 <= g < |Grouped(rs)| ensures Grouped(rs)[g] == GroupOf(rs, Bases(rs)[g]) {
          GroupOfStep(rs, Bases(p)[g]);
        }
      } else {
        forall i | 0 <= i < |gs| ensures gs[i].baseRoundId != b {
          assert gs[i].baseRoundId == Bases(p)[i];
        }
        AddRuleNew(gs, r);
        assert Bases(rs) == Bases(p) + [b];
        forall g | 0 <= g < |Grouped(rs)| ensures Grouped(rs)[g] == GroupOf(rs, Bases(rs)[g]) {
          GroupOfStep(rs, Bases(rs)[g]);
        }
      }
    }
  }

  /** The base rounds of a prefix of the rules come first, in the same order: the order
      of the groups is the order in which their base rounds are first met. */
  lemma {:induction false} BasesPrefix(rs: seq<RuleFact>, n: int)
    requires 0 <= n <= |rs|
    ensures Bases(rs[..n]) <= Bases(rs)
    decreases |rs| - n
  {
    if n < |rs| {
      BasesPrefix(rs, n + 1);
      var p := rs[..n + 1];
      assert p[..|p| - 1] == rs[..n];
    } else {
      assert rs[..n] == rs;
    }
  }

  /** getEligibleRounds. `cats` and `rules` are the Category and EquivalentRound rows. */
  method EligibleRounds(archer: Option<ArcherInfo>, cats: seq<CategoryRow>, rules: seq<RuleFact>, today: Date)
    returns (r: Result<Eligible>)
    ensures archer.None? ==> r == Err(NotFound("Archer not found"))
    ensures archer.Some? && (archer.value.classId.None? || archer.value.classId == Some(0)) ==>
      r == Err(BadRequest("Archer does not have a class assigned", []))
    ensures archer.Some? && archer.value.classId.Some? && archer.value.classId != Some(0) ==>
      var a := archer.value;
      var ids := CategoryIds(cats, a);
      r.Ok?
      && r.value.archerName == a.firstName + " " + a.lastName
      && r.value.className == OrElse(a.className, "N/A")
      && r.value.divisionName == OrElse(a.divisionName, "N/A")
      && (ids == [] ==> r.value.rounds == [] && r.value.message == Some("No categories found for your class")
                        && r.value.totalRounds.None?)
      && (ids != [] ==> r.value.rounds == Grouped(ActiveRules(rules, ids, today))
                        && r.value.totalRounds == Some(|r.value.rounds|) && r.value.message.None?)
  {
    if archer.None? {
      return Err(NotFound("Archer not found"));
    }
    var a := archer.value;
    if a.classId.None? || a.classId.value == 0 {
      return Err(BadRequest("Archer does not have a class assigned", []));
    }
    var ids := CategoryIds(cats, a);
    var name := a.firstName + " " + a.lastName;
    if ids == [] {
      return Ok(Eligible(name, OrElse(a.className, "N/A"), OrElse(a.divisionName, "N/A"), [],
                         None, Some("No categories found for your class")));
    }
    var groups := GroupByBase(ActiveRules(rules, ids, today));
    r := Ok(Eligible(name, OrElse(a.className, "N/A"), OrElse(a.divisionName, "N/A"), groups,
                     Some(|groups|), None));
  }
}
