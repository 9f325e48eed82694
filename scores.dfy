/** The score record lifecycle of scoreController.js: creating and updating a
    staged score with its ends and arrows, the approve / reject / status
    transitions, who may see which record, and the club records. */
module Scores {
  import opened Common
  import opened Helpers

  // ---------------------------------------------------------------------
  // Status

  /** The ScoreRecord.Status enum. */
  datatype Status = Staged | Pending | Approved | Rejected

  function StatusName(s: Status): string
  {
    match s
    case Staged => "staged"
    case Pending => "pending"
    case Approved => "approved"
    case Rejected => "rejected"
  }

  /** `validStatuses.includes(status)`, and the status it names. */
  function ParseStatus(text: string): (s: Option<Status>)
    ensures s.Some? <==> text in ["staged", "pending", "approved", "rejected"]
    ensures s.Some? ==> StatusName(s.value) == text
  {
    if text == "staged" then Some(Staged)
    else if text == "pending" then Some(Pending)
    else if text == "approved" then Some(Approved)
    else if text == "rejected" then Some(Rejected)
    else None
  }

  /** The two states a record may be approved or rejected from. */
  predicate Reviewable(s: Status)
  {
    s == Staged || s == Pending
  }

  // ---------------------------------------------------------------------
  // Stored ends and arrows

  datatype ArrowRow = ArrowRow(score: int, arrowOrder: int)

  datatype EndRow = EndRow(endNumber: int, totalScore: int, arrows: seq<ArrowRow>)

  function RowScores(arrows: seq<ArrowRow>): (s: seq<int>)
    ensures |s| == |arrows| && forall j :: 0 <= j < |arrows| ==> s[j] == arrows[j].score
  {
    if arrows == [] then [] else RowScores(arrows[..|arrows| - 1]) + [arrows[|arrows| - 1].score]
  }

  /** The End totals of stored ends, in order. */
  function EndTotals(ends: seq<EndRow>): (s: seq<int>)
    ensures |s| == |ends| && forall i :: 0 <= i < |ends| ==> s[i] == ends[i].totalScore
  {
    if ends == [] then [] else EndTotals(ends[..|ends| - 1]) + [ends[|ends| - 1].totalScore]
  }

  /** A stored end: its total is the sum of its arrows, each scoring 0 to 10. */
  predicate EndRowConsistent(e: EndRow)
  {
    e.totalScore == Sum(RowScores(e.arrows))
    && forall j :: 0 <= j < |e.arrows| ==> 0 <= e.arrows[j].score <= 10
  }

  /** The stored ends of a record with total `total`: the total is the sum of the End
      totals, and each End is consistent. */
  predicate ConsistentEnds(ends: seq<EndRow>, total: int)
  {
    total == Sum(EndTotals(ends))
    && forall i :: 0 <= i < |ends| ==> EndRowConsistent(ends[i])
  }

  // ---------------------------------------------------------------------
  // What the store accepts

  /** Arrow.Score is a non-null integer between 0 and 10, and Arrow.ArrowOrder is not
      null. */
  predicate StorableArrow(a: ArrowPayload)
  {
    a.score.Val? && 0 <= a.score.v <= 10 && a.arrowOrder.Val?
  }

  /** End.EndNumber is not null, and the arrows of the end exist, are storable and have
      distinct ArrowOrder (the unique index on (EndID, ArrowOrder)). */
  predicate StorableEnd(e: EndPayload)
  {
    e.endNumber.Val? && e.arrows.Val?
    && (forall j :: 0 <= j < |e.arrows.v| ==> StorableArrow(e.arrows.v[j]))
    && (forall j, l :: 0 <= j < l < |e.arrows.v| ==> e.arrows.v[j].arrowOrder != e.arrows.v[l].arrowOrder)
  }

  /** Every end is storable and the EndNumbers are distinct (the unique index on
      (ScoreRecordID, EndNumber)). */
  predicate StorableEnds(ends: seq<EndPayload>)
  {
    (forall i :: 0 <= i < |ends| ==> StorableEnd(ends[i]))
    && (forall i, k :: 0 <= i < k < |ends| ==> ends[i].endNumber != ends[k].endNumber)
  }

  // ---------------------------------------------------------------------
  // From submitted ends to stored rows

  /** The lower-case `score` of each arrow as it is added up (null counts as 0). */
  function LowerScores(arrows: seq<ArrowPayload>): (s: seq<int>)
    ensures |s| == |arrows| && forall j :: 0 <= j < |arrows| ==> s[j] == NumberOf(arrows[j].score)
  {
    if arrows == [] then [] else LowerScores(arrows[..|arrows| - 1]) + [NumberOf(arrows[|arrows| - 1].score)]
  }

  /** The lower-case scores of all arrows of all ends, end by end. */
  function AllLowerScores(ends: seq<EndPayload>): seq<int>
  {
    if ends == [] then []
    else
      var last := ends[|ends| - 1];
      AllLowerScores(ends[..|ends| - 1]) + (if last.arrows.Val? then LowerScores(last.arrows.v) else [])
  }

  /** The value sent for a NOT NULL integer column. A row whose field is missing or null
      is refused by the store (StorableEnds) and never kept, so 0 only stands in for it
      in rows that are discarded. */
  function ColumnOf(f: Field<int>): int
  {
    if f.Val? then f.v else 0
  }

  function ToArrowRows(arrows: seq<ArrowPayload>): (rows: seq<ArrowRow>)
    ensures |rows| == |arrows|
    ensures forall j :: 0 <= j < |arrows| ==> rows[j] == ArrowRow(NumberOf(arrows[j].score), ColumnOf(arrows[j].arrowOrder))
  {
    if arrows == [] then []
    else
      var a := arrows[|arrows| - 1];
      ToArrowRows(arrows[..|arrows| - 1]) + [ArrowRow(NumberOf(a.score), ColumnOf(a.arrowOrder))]
  }

  /** The End row created for a submitted end, its TotalScore the `reduce` over its arrows. */
  function ToEndRow(e: EndPayload): EndRow
  {
    var arrows := if e.arrows.Val? then e.arrows.v else [];
    EndRow(ColumnOf(e.endNumber), Sum(LowerScores(arrows)), ToArrowRows(arrows))
  }

  function ToEndRows(ends: seq<EndPayload>): (rows: seq<EndRow>)
    ensures |rows| == |ends|
  {
    if ends == [] then [] else ToEndRows(ends[..|ends| - 1]) + [ToEndRow(ends[|ends| - 1])]
  }

  /** The i-th End row is made from the i-th end. */
  lemma {:induction false} ToEndRowsAt(ends: seq<EndPayload>, i: int)
    requires 0 <= i < |ends|
    ensures ToEndRows(ends)[i] == ToEndRow(ends[i])
    decreases |ends|
  {
    var n := |ends| - 1;
    var before := ToEndRows(ends[..n]);
    assert ToEndRows(ends) == before + [ToEndRow(ends[n])];
    if i < n {
      ToEndRowsAt(ends[..n], i);
      assert ends[..n][i] == ends[i];
      assert (before + [ToEndRow(ends[n])])[i] == before[i];
    }
  }

  lemma RowScoresOfArrows(arrows: seq<ArrowPayload>)
    ensures RowScores(ToArrowRows(arrows)) == LowerScores(arrows)
  {
  }

  /** The rows made from storable ends are consistent: each End total is the sum of its
      Arrow scores and every score is between 0 and 10. */
  lemma StoredEndsConsistent(ends: seq<EndPayload>)
    requires StorableEnds(ends)
    ensures forall i :: 0 <= i < |ends| ==> EndRowConsistent(ToEndRows(ends)[i])
  {
    forall i | 0 <= i < |ends| ensures EndRowConsistent(ToEndRows(ends)[i]) {
      ToEndRowsAt(ends, i);
      RowScoresOfArrows(ends[i].arrows.v);
    }
  }

  /** The rows made from storable ends carry the EndNumber and ArrowOrder values sent,
      and an end or arrow without one is refused by the store. */
  lemma StoredNumbersAsSent(ends: seq<EndPayload>)
    ensures StorableEnds(ends) ==>
      forall i :: 0 <= i < |ends| ==>
        ToEndRows(ends)[i].endNumber == ends[i].endNumber.v
        && ToEndRows(ends)[i].arrows == ToArrowRows(ends[i].arrows.v)
        && forall j :: 0 <= j < |ends[i].arrows.v| ==>
             ToArrowRows(ends[i].arrows.v)[j].arrowOrder == ends[i].arrows.v[j].arrowOrder.v
    ensures (exists i :: 0 <= i < |ends| && !ends[i].endNumber.Val?) ==> !StorableEnds(ends)
    ensures (exists i, j :: 0 <= i < |ends| && ends[i].arrows.Val? && 0 <= j < |ends[i].arrows.v|
                            && !ends[i].arrows.v[j].arrowOrder.Val?) ==> !StorableEnds(ends)
  {
    if StorableEnds(ends) {
      forall i | 0 <= i < |ends|
        ensures ToEndRows(ends)[i].endNumber == ends[i].endNumber.v
                && ToEndRows(ends)[i].arrows == ToArrowRows(ends[i].arrows.v)
      {
        ToEndRowsAt(ends, i);
        assert StorableEnd(ends[i]);
      }
    }
  }

  /** The record total accumulated arrow by arrow equals the sum of the End totals. */
  lemma {:induction false} TotalsAgree(ends: seq<EndPayload>)
    ensures Sum(EndTotals(ToEndRows(ends))) == Sum(AllLowerScores(ends))
  {
    if ends != [] {
      var n := |ends| - 1;
      var last := ends[n];
      var arrows := if last.arrows.Val? then last.arrows.v else [];
      TotalsAgree(ends[..n]);
      EndRowsStep(ends, n);
      assert ends[..n + 1] == ends;
      assert ToEndRow(last).totalScore == Sum(LowerScores(arrows));
      assert AllLowerScores(ends) == AllLowerScores(ends[..n]) + LowerScores(arrows);
      SumAppend(AllLowerScores(ends[..n]), LowerScores(arrows));
    }
  }

  /** createScore's nested loop: `totalScore += arrow.score` over every arrow of every end. */
  method SumArrowScores(ends: seq<EndPayload>) returns (total: int)
    requires forall i :: 0 <= i < |ends| ==> ends[i].arrows.Val?
    ensures total == Sum(AllLowerScores(ends))
  {
    total := 0;
    var i := 0;
    while i < |ends|
      invariant 0 <= i <= |ends|
      invariant total == Sum(AllLowerScores(ends[..i]))
    {
      var arrows := ends[i].arrows.v;
      var endSum := SumEndScores(arrows);
      assert ends[..i + 1][..i] == ends[..i];
      assert AllLowerScores(ends[..i + 1]) == AllLowerScores(ends[..i]) + LowerScores(arrows);
      SumAppend(AllLowerScores(ends[..i]), LowerScores(arrows));
      total := total + endSum;
      i := i + 1;
    }
    assert ends[..i] == ends;
  }

  /** The inner loop of createScore over one end's arrows. */
  method SumEndScores(arrows: seq<ArrowPayload>) returns (total: int)
    ensures total == Sum(LowerScores(arrows))
  {
    total := 0;
    var j := 0;
    while j < |arrows|
      invariant 0 <= j <= |arrows|
      invariant total == Sum(LowerScores(arrows[..j]))
    {
      total := total + NumberOf(arrows[j].score);
      assert arrows[..j + 1][..j] == arrows[..j];
      j := j + 1;
    }
    assert arrows[..j] == arrows;
  }

  /** One more submitted end adds its End row and its End total. */
  lemma EndRowsStep(ends: seq<EndPayload>, i: int)
    requires 0 <= i < |ends|
    ensures ToEndRows(ends[..i + 1]) == ToEndRows(ends[..i]) + [ToEndRow(ends[i])]
    ensures Sum(EndTotals(ToEndRows(ends[..i + 1]))) == Sum(EndTotals(ToEndRows(ends[..i]))) + ToEndRow(ends[i]).totalScore
  {
    assert ends[..i + 1][..i] == ends[..i];
    var rows := ToEndRows(ends[..i]);
    var row := ToEndRow(ends[i]);
    assert (rows + [row])[..|rows|] == rows;
    assert EndTotals(rows + [row]) == EndTotals(rows) + [row.totalScore];
    assert (EndTotals(rows) + [row.totalScore])[..|rows|] == EndTotals(rows);
  }

  /** updateScore's loop: one End row per submitted end, and the record total
      accumulated end total by end total. */
  method BuildEndRows(ends: seq<EndPayload>) returns (rows: seq<EndRow>, total: int)
    requires forall i :: 0 <= i < |ends| ==> ends[i].arrows.Val?
    ensures rows == ToEndRows(ends)
    ensures total == Sum(EndTotals(rows))
  {
    rows := [];
    total := 0;
    var i := 0;
    while i < |ends|
      invariant 0 <= i <= |ends|
      invariant rows == ToEndRows(ends[..i])
      invariant total == Sum(EndTotals(rows))
    {
      var row, endTotal := BuildEndRow(ends[i]);
      EndRowsStep(ends, i);
      rows := rows + [row];
      total := total + endTotal;
      i := i + 1;
    }
    assert ends[..i] == ends;
  }

  /** One turn of the loop: the End row of one end, with its arrows, and the end total. */
  method BuildEndRow(e: EndPayload) returns (row: EndRow, endTotal: int)
    requires e.arrows.Val?
    ensures row == ToEndRow(e) && endTotal == row.totalScore
  {
    var arrows := e.arrows.v;
    endTotal := Sum(LowerScores(arrows));
    row := EndRow(ColumnOf(e.endNumber), endTotal, ToArrowRows(arrows));
  }

  /** The end replacement of updateScore, decided before anything is written: the
      round must exist (a null round throws), the ends must pass validation and the
      store must accept every new row. The result holds the new End rows and total. */
  method ReplacementEnds(newEnds: seq<EndPayload>, round: Option<seq<RangeRow>>)
    returns (r: Result<(seq<EndRow>, int)>)
    ensures round.None? ==> r == Err(ServerError)
    ensures round.Some? && StructureErrors(newEnds, round.value) != [] ==>
      r == Err(BadRequest("Invalid score structure", StructureErrors(newEnds, round.value)))
    ensures round.Some? && StructureErrors(newEnds, round.value) == [] && !StorableEnds(newEnds) ==>
      r == Err(ServerError)
    ensures r.Ok? <==> round.Some? && StructureErrors(newEnds, round.value) == [] && StorableEnds(newEnds)
    ensures r.Ok? ==>
      r.value.0 == ToEndRows(newEnds) && r.value.1 == Sum(AllLowerScores(newEnds))
      && ConsistentEnds(r.value.0, r.value.1)
  {
    if round.None? {
      return Err(ServerError);
    }
    var valid, errors := ValidateScoreStructure(newEnds, round.value);
    if !valid {
      return Err(BadRequest("Invalid score structure", errors));
    }
    if !StorableEnds(newEnds) {
      return Err(ServerError);
    }
    var rows, total := BuildEndRows(newEnds);
    TotalsAgree(newEnds);
    StoredEndsConsistent(newEnds);
    r := Ok((rows, total));
  }

  // ---------------------------------------------------------------------
  // The score record

  /** A snapshot of every column of a score record, with its ends. Timestamps are
      opaque integers supplied by the caller. */
  datatype ScoreRow = ScoreRow(
    id: int, archerId: int, roundId: int, divisionId: int, competitionId: Option<int>,
    dateShot: Date, status: Status, totalScore: int, notes: Option<string>,
    approvedBy: Option<int>, approvedAt: Option<int>, updatedAt: int, ends: seq<EndRow>)

  /** `${notes || ""}\nRejection reason: ${reason}` */
  function WithRejectionReason(notes: Option<string>, reason: string): string
  {
    OrElse(notes, "") + "\nRejection reason: " + reason
  }

  /** The earlier notes are kept in front of the appended reason, which ends the text. */
  lemma RejectionKeepsNotes(notes: string, reason: string)
    requires notes != ""
    ensures WithRejectionReason(Some(notes), reason)[..|notes|] == notes
    ensures var s := WithRejectionReason(Some(notes), reason); s[|s| - |reason|..] == reason
  {
    var s := WithRejectionReason(Some(notes), reason);
    assert s == notes + ("\nRejection reason: " + reason);
    assert s == (notes + "\nRejection reason: ") + reason;
  }

  class ScoreRecord {
    const id: int
    var archerId: int
    var roundId: int
    var divisionId: int
    var competitionId: Option<int>
    var dateShot: Date
    var status: Status
    var totalScore: int
    var notes: Option<string>
    var approvedBy: Option<int>
    var approvedAt: Option<int>
    var updatedAt: int
    var ends: seq<EndRow>

    function Row(): ScoreRow
      reads this
    {
      ScoreRow(id, archerId, roundId, divisionId, competitionId, dateShot, status, totalScore,
               notes, approvedBy, approvedAt, updatedAt, ends)
    }

    /** The record's TotalScore is the sum of its End totals, and each End is consistent. */
    ghost predicate Valid()
      reads this
    {
      ConsistentEnds(ends, totalScore)
    }

    constructor (row: ScoreRow)
      ensures Row() == row
    {
      id := row.id;
      archerId := row.archerId;
      roundId := row.roundId;
      divisionId := row.divisionId;
      competitionId := row.competitionId;
      dateShot := row.dateShot;
      status := row.status;
      totalScore := row.totalScore;
      notes := row.notes;
      approvedBy := row.approvedBy;
      approvedAt := row.approvedAt;
      updatedAt := row.updatedAt;
      ends := row.ends;
    }

    /** Writes every column of the record at once (`save`). */
    method Store(row: ScoreRow)
      requires row.id == id
      modifies this
      ensures Row() == row
    {
      archerId, roundId, divisionId, competitionId := row.archerId, row.roundId, row.divisionId, row.competitionId;
      dateShot, status, totalScore, notes := row.dateShot, row.status, row.totalScore, row.notes;
      approvedBy, approvedAt, updatedAt, ends := row.approvedBy, row.approvedAt, row.updatedAt, row.ends;
    }

    /** approveScore on a found record. */
    method Approve(callerId: int, now: int) returns (r: Result<()>)
      modifies this
      ensures Reviewable(old(status)) ==>
        r == Ok(()) && Row() == old(Row()).(status := Approved, approvedBy := Some(callerId),
                                              approvedAt := Some(now), updatedAt := now)
      ensures !Reviewable(old(status)) ==>
        r == Err(BadRequest("Score cannot be approved from current status", [])) && Row() == old(Row())
      ensures old(Valid()) ==> Valid()
    {
      if !(status == Staged || status == Pending) {
        return Err(BadRequest("Score cannot be approved from current status", []));
      }
      status := Approved;
      approvedBy := Some(callerId);
      approvedAt := Some(now);
      updatedAt := now;
      r := Ok(());
    }

    /** rejectScore on a found record; a truthy reason is appended to the notes. */
    method Reject(reason: Field<string>, now: int) returns (r: Result<()>)
      modifies this
      ensures Reviewable(old(status)) ==>
        r == Ok(()) && Row() == old(Row()).(status := Rejected, updatedAt := now,
          notes := if TruthyStr(reason) then Some(WithRejectionReason(old(notes), reason.v)) else old(notes))
      ensures !Reviewable(old(status)) ==>
        r == Err(BadRequest("Score cannot be rejected from current status", [])) && Row() == old(Row())
      ensures old(Valid()) ==> Valid()
    {
      if !(status == Staged || status == Pending) {
        return Err(BadRequest("Score cannot be rejected from current status", []));
      }
      status := Rejected;
      if reason.Val? && reason.v != "" {
        notes := Some(WithRejectionReason(notes, reason.v));
      }
      updatedAt := now;
      r := Ok(());
    }

    /** updateScoreStatus on a found record: any of the four states may be set. */
    method UpdateStatus(text: string, reason: Field<string>, callerId: int, now: int) returns (r: Result<()>)
      modifies this
      ensures ParseStatus(text).None? ==> r == Err(BadRequest("Invalid status value", [])) && Row() == old(Row())
      ensures ParseStatus(text) == Some(Approved) ==>
        r == Ok(()) && Row() == old(Row()).(status := Approved, approvedBy := Some(callerId),
                                              approvedAt := Some(now), updatedAt := now)
      ensures ParseStatus(text) == Some(Pending) || ParseStatus(text) == Some(Staged) ==>
        r == Ok(()) && Row() == old(Row()).(status := ParseStatus(text).value, approvedBy := None,
                                              approvedAt := None, updatedAt := now)
      ensures ParseStatus(text) == Some(Rejected) ==>
        r == Ok(()) && Row() == old(Row()).(status := Rejected, updatedAt := now,
          notes := if TruthyStr(reason) then Some(WithRejectionReason(old(notes), reason.v)) else old(notes))
      ensures old(Valid()) ==> Valid()
    {
      var s := ParseStatus(text);
      if s.None? {
        return Err(BadRequest("Invalid status value", []));
      }
      status := s.value;
      if s.value == Approved {
        approvedBy := Some(callerId);
        approvedAt := Some(now);
      } else if s.value == Pending || s.value == Staged {
        approvedBy := None;
        approvedAt := None;
      }
      if s.value == Rejected && reason.Val? && reason.v != "" {
        notes := Some(WithRejectionReason(notes, reason.v));
      }
      updatedAt := now;
      r := Ok(());
    }

    /** updateScore on a found record. `round` holds the ranges of the record's round
        (None when the round is gone). Everything runs in one transaction, so each
        failure leaves the record as it was; a row the store refuses is a 500. */
    method UpdateScore(callerId: int, newDate: Field<Date>, newEnds: Field<seq<EndPayload>>,
                       newNotes: Field<string>, round: Option<seq<RangeRow>>, now: int)
      returns (r: Result<()>)
      modifies this
      ensures old(archerId) != callerId ==> r == Err(Forbidden("Access denied")) && Row() == old(Row())
      ensures old(archerId) == callerId && old(status) != Staged ==>
        r == Err(BadRequest("Only staged scores can be updated", [])) && Row() == old(Row())
      ensures old(archerId) == callerId && old(status) == Staged && newEnds.Val? && round.None? ==>
        r == Err(ServerError) && Row() == old(Row())
      ensures old(archerId) == callerId && old(status) == Staged && newEnds.Val? && round.Some?
              && StructureErrors(newEnds.v, round.value) != [] ==>
        r == Err(BadRequest("Invalid score structure", StructureErrors(newEnds.v, round.value)))
        && Row() == old(Row())
      ensures old(archerId) == callerId && old(status) == Staged && newEnds.Val? && round.Some?
              && StructureErrors(newEnds.v, round.value) == [] && !StorableEnds(newEnds.v) ==>
        r == Err(ServerError) && Row() == old(Row())
      ensures r.Ok? <==>
        old(archerId) == callerId && old(status) == Staged
        && (newEnds.Val? ==> round.Some? && StructureErrors(newEnds.v, round.value) == [] && StorableEnds(newEnds.v))
      ensures r.Ok? ==> Row() == old(Row()).(
        ends := if newEnds.Val? then ToEndRows(newEnds.v) else old(ends),
        totalScore := if newEnds.Val? then Sum(AllLowerScores(newEnds.v)) else old(totalScore),
        dateShot := if newDate.Val? then newDate.v else old(dateShot),
        notes := if Defined(newNotes) then Stored(newNotes) else old(notes),
        updatedAt := now)
      ensures r.Ok? && newEnds.Val? ==> Valid()
      ensures old(Valid()) ==> Valid()
    {
      if archerId != callerId {
        return Err(Forbidden("Access denied"));
      }
      if status != Staged {
        return Err(BadRequest("Only staged scores can be updated", []));
      }
      var newRows, newTotal := ends, totalScore;
      if newEnds.Val? {
        var replaced := ReplacementEnds(newEnds.v, round);
        if replaced.Err? {
          return Err(replaced.failure);
        }
        newRows, newTotal := replaced.value.0, replaced.value.1;
      }
      var date := if newDate.Val? then newDate.v else dateShot;
      var text := if newNotes != Absent then Stored(newNotes) else notes;
      Store(Row().(ends := newRows, totalScore := newTotal, dateShot := date, notes := text, updatedAt := now));
      r := Ok(());
    }
  }

  /** createScore. `round` holds the ranges of the round `roundId` names (None when there
      is no such round); the record gets the identifier `id`. A transaction wraps the
      writes, so a row the store refuses (no division, no date, an arrow score that is
      missing, null or outside 0..10, a repeated end or arrow number) creates nothing. */
  method CreateScore(id: int, callerId: int, roundId: int, round: Option<seq<RangeRow>>,
                     divisionId: Field<int>, competitionId: Field<int>, dateShot: Field<Date>,
                     ends: Field<seq<EndPayload>>, notes: Field<string>, now: int)
    returns (r: Result<ScoreRecord>)
    ensures round.None? ==> r == Err(NotFound("Round not found"))
    ensures round.Some? && !ends.Val? ==> r == Err(ServerError)
    ensures round.Some? && ends.Val? && StructureErrors(ends.v, round.value) != [] ==>
      r == Err(BadRequest("Invalid score structure", StructureErrors(ends.v, round.value)))
    ensures r.Ok? <==>
      round.Some? && ends.Val? && StructureErrors(ends.v, round.value) == []
      && StorableEnds(ends.v) && divisionId.Val? && dateShot.Val?
    ensures r.Err? && round.Some? && ends.Val? && StructureErrors(ends.v, round.value) == [] ==>
      r == Err(ServerError)
    ensures r.Ok? ==>
      fresh(r.value) && r.value.Valid()
      && r.value.Row() == ScoreRow(id, callerId, roundId, divisionId.v,
                                   if TruthyInt(competitionId) then Some(competitionId.v) else None,
                                   dateShot.v, Staged, Sum(AllLowerScores(ends.v)),
                                   if TruthyStr(notes) then Some(notes.v) else None,
                                   None, None, now, ToEndRows(ends.v))
  {
    if round.None? {
      return Err(NotFound("Round not found"));
    }
    if !ends.Val? {
      return Err(ServerError);
    }
    var valid, errors := ValidateScoreStructure(ends.v, round.value);
    if !valid {
      return Err(BadRequest("Invalid score structure", errors));
    }
    ValidIff(ends.v, round.value);
    var totalScore := SumArrowScores(ends.v);
    if !divisionId.Val? || !dateShot.Val? || !StorableEnds(ends.v) {
      return Err(ServerError);
    }
    var rows, endsTotal := BuildEndRows(ends.v);
    TotalsAgree(ends.v);
    StoredEndsConsistent(ends.v);
    var competition := if competitionId.Val? && competitionId.v != 0 then Some(competitionId.v) else None;
    var storedNotes := if notes.Val? && notes.v != "" then Some(notes.v) else None;
    var rec := new ScoreRecord(ScoreRow(id, callerId, roundId, divisionId.v, competition, dateShot.v,
                                        Staged, totalScore, storedNotes, None, None, now, rows));
    r := Ok(rec);
  }

  // ---------------------------------------------------------------------
  // Who sees which record

  /** The archer filter of the score listing: every approved record, and the caller's
      own staged or approved ones. An own pending record is not listed. */
  predicate ListedForArcher(r: ScoreRow, callerId: int)
  {
    r.status == Approved || (r.archerId == callerId && (r.status == Staged || r.status == Approved))
  }

  predicate Listed(role: Role, callerId: int, r: ScoreRow)
  {
    role != Archer || ListedForArcher(r, callerId)
  }

  /** The access check of getScoreById: an archer reads only approved records and their own. */
  predicate Readable(role: Role, callerId: int, r: ScoreRow)
  {
    !(role == Archer && r.archerId != callerId && r.status != Approved)
  }

  /** The records of a listing the caller is shown, in their order. */
  function ListScores(rows: seq<ScoreRow>, role: Role, callerId: int): (out: seq<ScoreRow>)
    ensures forall r :: r in out <==> r in rows && Listed(role, callerId, r)
    ensures role == Archer ==> forall r :: r in out <==>
      r in rows && (r.status == Approved || (r.archerId == callerId && r.status == Staged))
    ensures forall r :: r in out ==> Readable(role, callerId, r)
    ensures |out| <= |rows|
  {
    if rows == [] then []
    else
      var last := rows[|rows| - 1];
      ListScores(rows[..|rows| - 1], role, callerId) + (if Listed(role, callerId, last) then [last] else [])
  }

  /** getScoreById once the record has been looked up. */
  function GetScoreById(found: Option<ScoreRow>, role: Role, callerId: int): (r: Result<ScoreRow>)
    ensures found.None? ==> r == Err(NotFound("Score not found"))
    ensures found.Some? ==> (r == Ok(found.value) <==> Readable(role, callerId, found.value))
    ensures found.Some? && r.Err? ==> r == Err(Forbidden("Access denied"))
    ensures found.Some? && role == Archer ==>
      (r.Ok? <==> found.value.status == Approved || found.value.archerId == callerId)
    ensures found.Some? && IsStaff(role) ==> r.Ok?
  {
    if found.None? then Err(NotFound("Score not found"))
    else if role == Archer && found.value.archerId != callerId && found.value.status != Approved then
      Err(Forbidden("Access denied"))
    else Ok(found.value)
  }

  /** The two archer checks disagree on an own pending record: it can be read by id but
      is not listed. */
  lemma OwnPendingReadableNotListed(r: ScoreRow, callerId: int)
    requires r.archerId == callerId && r.status == Pending
    ensures Readable(Archer, callerId, r) && !Listed(Archer, callerId, r)
  {
  }

  // ---------------------------------------------------------------------
  // Club records

  /** The (RoundID, DivisionID) group of a record. */
  function Key(r: ScoreRow): (int, int)
  {
    (r.roundId, r.divisionId)
  }

  /** An approved record, in the requested division when one is given. */
  predicate RecordCandidate(r: ScoreRow, division: Option<int>)
  {
    r.status == Approved && (division.None? || r.divisionId == division.value)
  }

  function Candidates(rows: seq<ScoreRow>, division: Option<int>): (c: seq<ScoreRow>)
    ensures forall r :: r in c <==> r in rows && RecordCandidate(r, division)
  {
    if rows == [] then []
    else
      var last := rows[|rows| - 1];
      Candidates(rows[..|rows| - 1], division) + (if RecordCandidate(last, division) then [last] else [])
  }

  /** The record of group `key`: the highest TotalScore, and among those the earliest DateShot. */
  function Best(rows: seq<ScoreRow>, key: (int, int)): (best: ScoreRow)
    requires exists r :: r in rows && Key(r) == key
    ensures best in rows && Key(best) == key
    ensures forall r :: r in rows && Key(r) == key ==> r.totalScore <= best.totalScore
    ensures forall r :: r in rows && Key(r) == key && r.totalScore == best.totalScore ==>
      AtOrBefore(best.dateShot, r.dateShot)
  {
    var prefix := rows[..|rows| - 1];
    var last := rows[|rows| - 1];
    assert rows == prefix + [last];
    if !(exists r :: r in prefix && Key(r) == key) then last
    else
      var b := Best(prefix, key);
      if Key(last) == key
         && (last.totalScore > b.totalScore || (last.totalScore == b.totalScore && Before(last.dateShot, b.dateShot)))
      then last
      else b
  }

  /** getClubRecords: one record per (RoundID, DivisionID) group of approved records. */
  function ClubRecords(rows: seq<ScoreRow>, division: Option<int>): (records: map<(int, int), ScoreRow>)
    ensures records.Keys == set r | r in rows && RecordCandidate(r, division) :: Key(r)
    ensures forall k :: k in records ==>
      records[k] in rows && RecordCandidate(records[k], division) && Key(records[k]) == k
    ensures forall k, r :: k in records && r in rows && RecordCandidate(r, division) && Key(r) == k ==>
      r.totalScore <= records[k].totalScore
      && (r.totalScore == records[k].totalScore ==> AtOrBefore(records[k].dateShot, r.dateShot))
  {
    var c := Candidates(rows, division);
    map k | k in (set r | r in c :: Key(r)) :: Best(c, k)
  }
}
