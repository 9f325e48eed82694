/** The shared scoring helpers: age and class computation, score totals,
    structural validation of a submitted score, and date windows. */
module Helpers {
  import opened Common

  // ---------------------------------------------------------------------
  // calculateAge

  /** The (month, day) of `a` comes strictly before that of `b` within a year. */
  predicate MonthDayBefore(a: Date, b: Date)
  {
    a.month < b.month || (a.month == b.month && a.day < b.day)
  }

  /** The n-th birthday of someone born on `dob`. */
  function Anniversary(dob: Date, n: int): Date
  {
    Date(dob.year + n, dob.month, dob.day)
  }

  /** Completed years at `ref`: the age-th birthday has been reached, the next one has not.
      The reference date is a parameter (the source defaults it to the current date). */
  function CalculateAge(dob: Date, ref: Date): (age: int)
    ensures AtOrBefore(Anniversary(dob, age), ref)
    ensures Before(ref, Anniversary(dob, age + 1))
    ensures age == ref.year - dob.year - 1 <==> MonthDayBefore(ref, dob)
  {
    var age := ref.year - dob.year;
    if MonthDayBefore(ref, dob) then age - 1 else age
  }

  /** The two postconditions of CalculateAge determine the age. */
  lemma AgeIsUnique(dob: Date, ref: Date, n: int)
    requires AtOrBefore(Anniversary(dob, n), ref) && Before(ref, Anniversary(dob, n + 1))
    ensures n == CalculateAge(dob, ref)
  {
  }

  // ---------------------------------------------------------------------
  // determineClass

  /** The ages at which the next class begins. */
  const ClassThresholds: seq<int> := [14, 16, 18, 21, 50, 60, 70]

  /** The class names, youngest first, for a gender. */
  function ClassNames(gender: string): seq<string>
  {
    ["Under 14 " + gender, "Under 16 " + gender, "Under 18 " + gender, "Under 21 " + gender,
     gender + " Open", "50+ " + gender, "60+ " + gender, "70+ " + gender]
  }

  /** The number of thresholds in `ts` that `age` has reached. */
  function Reached(ts: seq<int>, age: int): (k: nat)
    ensures k <= |ts|
  {
    if ts == [] then 0
    else Reached(ts[..|ts| - 1], age) + (if ts[|ts| - 1] <= age then 1 else 0)
  }

  predicate StrictlyAscending(ts: seq<int>)
  {
    forall i, j :: 0 <= i < j < |ts| ==> ts[i] < ts[j]
  }

  /** `age` lies in bracket k: at or above threshold k-1 and below threshold k. */
  predicate InBracket(ts: seq<int>, age: int, k: int)
  {
    0 <= k <= |ts| && (k == 0 || ts[k - 1] <= age) && (k == |ts| || age < ts[k])
  }

  function DetermineClass(age: int, gender: string): (name: string)
    ensures name == ClassNames(gender)[Reached(ClassThresholds, age)]
  {
    ReachedClassThresholds(age);
    if age < 14 then "Under 14 " + gender
    else if age < 16 then "Under 16 " + gender
    else if age < 18 then "Under 18 " + gender
    else if age < 21 then "Under 21 " + gender
    else if age < 50 then gender + " Open"
    else if age < 60 then "50+ " + gender
    else if age < 70 then "60+ " + gender
    else "70+ " + gender
  }

  lemma ReachedClassThresholds(age: int)
    ensures Reached(ClassThresholds, age) ==
      (if age < 14 then 0 else if age < 16 then 1 else if age < 18 then 2 else if age < 21 then 3
       else if age < 50 then 4 else if age < 60 then 5 else if age < 70 then 6 else 7)
  {
    var t := ClassThresholds;
    assert t[..1][..0] == [];
    assert Reached(t[..1], age) == (if 14 <= age then 1 else 0);
    assert t[..2][..1] == t[..1];
    assert Reached(t[..2], age) == Reached(t[..1], age) + (if 16 <= age then 1 else 0);
    assert t[..3][..2] == t[..2];
    assert Reached(t[..3], age) == Reached(t[..2], age) + (if 18 <= age then 1 else 0);
    assert t[..4][..3] == t[..3];
    assert Reached(t[..4], age) == Reached(t[..3], age) + (if 21 <= age then 1 else 0);
    assert t[..5][..4] == t[..4];
    assert Reached(t[..5], age) == Reached(t[..4], age) + (if 50 <= age then 1 else 0);
    assert t[..6][..5] == t[..5];
    assert Reached(t[..6], age) == Reached(t[..5], age) + (if 60 <= age then 1 else 0);
    assert t[..6] == t[..|t| - 1];
    assert Reached(t, age) == Reached(t[..6], age) + (if 70 <= age then 1 else 0);
  }

  /** Every age falls in the bracket Reached names. */
  lemma {:induction false} ReachedInBracket(ts: seq<int>, age: int)
    requires StrictlyAscending(ts)
    ensures InBracket(ts, age, Reached(ts, age))
  {
    if ts != [] {
      var p := ts[..|ts| - 1];
      assert StrictlyAscending(p);
      ReachedInBracket(p, age);
      var k := Reached(p, age);
      if ts[|ts| - 1] > age && k < |p| {
        assert p[k] == ts[k];
      }
    }
  }

  /** Each age falls in exactly one bracket, the one Reached names. */
  lemma BracketIsUnique(ts: seq<int>, age: int, k: int)
    requires StrictlyAscending(ts)
    ensures InBracket(ts, age, k) <==> k == Reached(ts, age)
  {
    ReachedInBracket(ts, age);
  }

  /** An older archer is never put in a younger bracket. */
  lemma {:induction false} ReachedMonotone(ts: seq<int>, a: int, b: int)
    requires a <= b
    ensures Reached(ts, a) <= Reached(ts, b)
  {
    if ts != [] {
      ReachedMonotone(ts[..|ts| - 1], a, b);
    }
  }

  /** The class table of determineClass: exactly one bracket per age, monotone in age. */
  lemma DetermineClassBrackets(a: int, b: int, gender: string)
    requires a <= b
    ensures InBracket(ClassThresholds, a, Reached(ClassThresholds, a))
    ensures forall k :: InBracket(ClassThresholds, a, k) ==> k == Reached(ClassThresholds, a)
    ensures Reached(ClassThresholds, a) <= Reached(ClassThresholds, b)
  {
    assert StrictlyAscending(ClassThresholds);
    ReachedInBracket(ClassThresholds, a);
    forall k | InBracket(ClassThresholds, a, k) ensures k == Reached(ClassThresholds, a) {
      BracketIsUnique(ClassThresholds, a, k);
    }
    ReachedMonotone(ClassThresholds, a, b);
  }

  // ---------------------------------------------------------------------
  // Submitted ends and arrows

  /** One submitted arrow. The validator and calculateTotalScore read the
      PascalCase `Score`, while the score controller reads and stores the
      lower-case `score`; both are kept, as the request body carries whichever
      the client sent. */
  datatype ArrowPayload = ArrowPayload(Score: Field<int>, score: Field<int>, arrowOrder: Field<int>)

  /** One submitted end; `endNumber` and `arrows` may be missing or null. */
  datatype EndPayload = EndPayload(endNumber: Field<int>, arrows: Field<seq<ArrowPayload>>)

  // ---------------------------------------------------------------------
  // calculateTotalScore

  /** `sum + x` in JavaScript for a field: undefined gives NaN (None), null counts as 0. */
  function Numeric(f: Field<int>): Option<int>
  {
    match f
    case Absent => None
    case Null => Some(0)
    case Val(v) => Some(v)
  }

  /** The number a field contributes when it is numeric. */
  function NumberOf(f: Field<int>): int
  {
    if f.Val? then f.v else 0
  }

  /** The PascalCase scores of some arrows, null read as 0. */
  function PascalScores(arrows: seq<ArrowPayload>): seq<int>
  {
    if arrows == [] then [] else PascalScores(arrows[..|arrows| - 1]) + [NumberOf(arrows[|arrows| - 1].Score)]
  }

  /** The PascalCase scores of all arrows of all ends, end by end. */
  function AllPascalScores(ends: seq<EndPayload>): seq<int>
  {
    if ends == [] then []
    else
      var last := ends[|ends| - 1];
      AllPascalScores(ends[..|ends| - 1]) + (if last.arrows.Val? then PascalScores(last.arrows.v) else [])
  }

  /** Every end has an arrow array and every arrow a defined `Score`. */
  predicate PascalNumeric(ends: seq<EndPayload>)
  {
    forall i :: 0 <= i < |ends| ==>
      (ends[i].arrows.Val? && forall j :: 0 <= j < |ends[i].arrows.v| ==> !ends[i].arrows.v[j].Score.Absent?)
  }

  /** `end.arrows.reduce((sum, arrow) => sum + arrow.Score, 0)`; None is NaN. */
  function PascalEndTotal(arrows: seq<ArrowPayload>): (total: Option<int>)
    ensures total.Some? <==> forall j :: 0 <= j < |arrows| ==> !arrows[j].Score.Absent?
    ensures total.Some? ==> total.value == Sum(PascalScores(arrows))
  {
    if arrows == [] then Some(0)
    else
      var prefix := PascalEndTotal(arrows[..|arrows| - 1]);
      var last := Numeric(arrows[|arrows| - 1].Score);
      if prefix.Some? && last.Some? then Some(prefix.value + last.value) else None
  }

  /** calculateTotalScore: None when the result is not a number (an arrow without
      `Score` gives NaN, an end without `arrows` throws). */
  function CalculateTotalScore(ends: seq<EndPayload>): (total: Option<int>)
    ensures total.Some? <==> PascalNumeric(ends)
    ensures total.Some? ==> total.value == Sum(AllPascalScores(ends))
    ensures ends == [] ==> total == Some(0)
  {
    if ends == [] then Some(0)
    else
      var last := ends[|ends| - 1];
      var prefix := CalculateTotalScore(ends[..|ends| - 1]);
      PascalNumericStep(ends);
      if !last.arrows.Val? then None
      else
        var endScore := PascalEndTotal(last.arrows.v);
        if prefix.Some? && endScore.Some? then
          SumAppend(AllPascalScores(ends[..|ends| - 1]), PascalScores(last.arrows.v));
          Some(prefix.value + endScore.value)
        else None
  }

  /** Every end numeric: the earlier ends are, and the last has arrows, each with a `Score`. */
  lemma PascalNumericStep(ends: seq<EndPayload>)
    requires ends != []
    ensures var last := ends[|ends| - 1];
      PascalNumeric(ends) <==>
        PascalNumeric(ends[..|ends| - 1]) && last.arrows.Val?
        && forall j :: 0 <= j < |last.arrows.v| ==> !last.arrows.v[j].Score.Absent?
  {
    var p := ends[..|ends| - 1];
    assert forall i :: 0 <= i < |p| ==> p[i] == ends[i];
  }

  // ---------------------------------------------------------------------
  // validateScoreStructure

  /** The number of arrows the validator demands per end, whatever the range's ArrowsPerEnd. */
  const ArrowsRequired: int := 6

  /** `round.ranges.reduce((sum, range) => sum + range.Ends, 0)` */
  function TotalEnds(ranges: seq<RangeRow>): int
  {
    if ranges == [] then 0 else TotalEnds(ranges[..|ranges| - 1]) + ranges[|ranges| - 1].ends
  }

  /** `arrow.Score < 0 || arrow.Score > 10`: false for undefined, and null compares as 0. */
  predicate ScoreOutOfRange(f: Field<int>)
  {
    f.Val? && (f.v < 0 || f.v > 10)
  }

  /** The negation of `!end.arrows || end.arrows.length !== 6`. */
  predicate HasRequiredArrows(e: EndPayload)
  {
    e.arrows.Val? && |e.arrows.v| == ArrowsRequired
  }

  function CountErrors(ends: seq<EndPayload>, ranges: seq<RangeRow>): seq<StructureError>
  {
    if |ends| != TotalEnds(ranges) then [EndCountMismatch(TotalEnds(ranges), |ends|)] else []
  }

  /** The score errors of the arrows of end number `endNo` (1-based), in arrow order. */
  function ArrowErrors(arrows: seq<ArrowPayload>, endNo: int): seq<StructureError>
  {
    if arrows == [] then []
    else
      var n := |arrows|;
      ArrowErrors(arrows[..n - 1], endNo)
      + (if ScoreOutOfRange(arrows[n - 1].Score) then [InvalidArrowScore(endNo, n, arrows[n - 1].Score.v)] else [])
  }

  function EndErrors(e: EndPayload, endNo: int): seq<StructureError>
  {
    (if HasRequiredArrows(e) then [] else [ArrowCountMismatch(endNo)])
    + (if e.arrows.Val? then ArrowErrors(e.arrows.v, endNo) else [])
  }

  /** The lists of a sequence of lists, joined in order. */
  function Flatten<T>(ss: seq<seq<T>>): seq<T>
  {
    if ss == [] then [] else Flatten(ss[..|ss| - 1]) + ss[|ss| - 1]
  }

  /** The errors of each end, numbered from 1. */
  function PerEnd(ends: seq<EndPayload>): (r: seq<seq<StructureError>>)
    ensures |r| == |ends| && forall i :: 0 <= i < |ends| ==> r[i] == EndErrors(ends[i], i + 1)
  {
    seq(|ends|, i requires 0 <= i < |ends| => EndErrors(ends[i], i + 1))
  }

  /** The errors of all ends, in end order. */
  function EndsErrors(ends: seq<EndPayload>): seq<StructureError>
  {
    Flatten(PerEnd(ends))
  }

  lemma FlattenSnoc<T>(ss: seq<seq<T>>, s: seq<T>)
    ensures Flatten(ss + [s]) == Flatten(ss) + s
  {
    assert (ss + [s])[..|ss|] == ss;
  }

  /** An element of one of the lists is in the joined list. */
  lemma {:induction false} FlattenIn<T>(ss: seq<seq<T>>, i: int, x: T)
    requires 0 <= i < |ss| && x in ss[i]
    ensures x in Flatten(ss)
    decreases |ss|
  {
    var p := ss[..|ss| - 1];
    if i < |p| {
      assert p[i] == ss[i];
      FlattenIn(p, i, x);
    }
  }

  /** Every element of the joined list comes from one of the lists, found here. */
  lemma {:induction false} FlattenFrom<T>(ss: seq<seq<T>>, x: T) returns (i: int)
    requires x in Flatten(ss)
    ensures 0 <= i < |ss| && x in ss[i]
    decreases |ss|
  {
    var p := ss[..|ss| - 1];
    if x in ss[|ss| - 1] {
      i := |ss| - 1;
    } else {
      i := FlattenFrom(p, x);
      assert p[i] == ss[i];
    }
  }

  /** The full error list validateScoreStructure reports. */
  function StructureErrors(ends: seq<EndPayload>, ranges: seq<RangeRow>): seq<StructureError>
  {
    CountErrors(ends, ranges) + EndsErrors(ends)
  }

  /** The score error, if any, of the arrow at 0-based position j of end number `endNo`. */
  function ArrowError(arrows: seq<ArrowPayload>, j: int, endNo: int): seq<StructureError>
    requires 0 <= j < |arrows|
  {
    if ScoreOutOfRange(arrows[j].Score) then [InvalidArrowScore(endNo, j + 1, arrows[j].Score.v)] else []
  }

  lemma ArrowErrorsStep(arrows: seq<ArrowPayload>, j: int, endNo: int)
    requires 0 <= j < |arrows|
    ensures ArrowErrors(arrows[..j + 1], endNo) == ArrowErrors(arrows[..j], endNo) + ArrowError(arrows, j, endNo)
  {
    assert arrows[..j + 1][..j] == arrows[..j];
  }

  lemma EndsErrorsStep(ends: seq<EndPayload>, i: int)
    requires 0 <= i < |ends|
    ensures EndsErrors(ends[..i + 1]) == EndsErrors(ends[..i]) + EndErrors(ends[i], i + 1)
  {
    var before := PerEnd(ends[..i]);
    assert PerEnd(ends[..i + 1]) == before + [EndErrors(ends[i], i + 1)];
    FlattenSnoc(before, EndErrors(ends[i], i + 1));
  }

  lemma AppendAssoc<T>(a: seq<T>, b: seq<T>, c: seq<T>)
    ensures (a + b) + c == a + (b + c)
  {
  }

  /** The callback of `ends.forEach`: the errors of end number `endNo`, with the inner
      `end.arrows.forEach` over its arrows. */
  method CheckEnd(end: EndPayload, endNo: int) returns (errors: seq<StructureError>)
    ensures errors == EndErrors(end, endNo)
  {
    errors := [];
    if !end.arrows.Val? || |end.arrows.v| != ArrowsRequired {
      errors := errors + [ArrowCountMismatch(endNo)];
    }
    ghost var afterCount := errors;
    if end.arrows.Val? {
      var arrows := end.arrows.v;
      var arrowIndex := 0;
      while arrowIndex < |arrows|
        invariant 0 <= arrowIndex <= |arrows|
        invariant errors == afterCount + ArrowErrors(arrows[..arrowIndex], endNo)
      {
        var s := arrows[arrowIndex].Score;
        ghost var prev := errors;
        if s.Val? && (s.v < 0 || s.v > 10) {
          errors := errors + [InvalidArrowScore(endNo, arrowIndex + 1, s.v)];
        }
        assert errors == prev + ArrowError(arrows, arrowIndex, endNo);
        ArrowErrorsStep(arrows, arrowIndex, endNo);
        AppendAssoc(afterCount, ArrowErrors(arrows[..arrowIndex], endNo), ArrowError(arrows, arrowIndex, endNo));
        arrowIndex := arrowIndex + 1;
      }
      assert arrows[..|arrows|] == arrows;
    }
  }

  method ValidateScoreStructure(ends: seq<EndPayload>, ranges: seq<RangeRow>)
    returns (valid: bool, errors: seq<StructureError>)
    ensures errors == StructureErrors(ends, ranges)
    ensures valid <==> errors == []
  {
    errors := [];
    var totalEnds := TotalEnds(ranges);
    if |ends| != totalEnds {
      errors := errors + [EndCountMismatch(totalEnds, |ends|)];
    }
    var index := 0;
    while index < |ends|
      invariant 0 <= index <= |ends|
      invariant errors == CountErrors(ends, ranges) + EndsErrors(ends[..index])
    {
      var endErrors := CheckEnd(ends[index], index + 1);
      EndsErrorsStep(ends, index);
      AppendAssoc(CountErrors(ends, ranges), EndsErrors(ends[..index]), endErrors);
      errors := errors + endErrors;
      index := index + 1;
    }
    assert ends[..|ends|] == ends;
    valid := |errors| == 0;
  }

  // ---------------------------------------------------------------------
  // Properties of the validator

  /** An arrow-score error is reported for exactly the arrows whose `Score` is out of
      [0, 10], naming the end and the 1-based arrow position. */
  lemma {:induction false} ArrowErrorsExact(arrows: seq<ArrowPayload>, endNo: int, e: StructureError)
    ensures e in ArrowErrors(arrows, endNo) <==>
      exists j :: 0 <= j < |arrows| && ScoreOutOfRange(arrows[j].Score)
                  && e == InvalidArrowScore(endNo, j + 1, arrows[j].Score.v)
  {
    if arrows != [] {
      var p := arrows[..|arrows| - 1];
      ArrowErrorsExact(p, endNo, e);
      if e in ArrowErrors(p, endNo) {
        var j :| 0 <= j < |p| && ScoreOutOfRange(p[j].Score) && e == InvalidArrowScore(endNo, j + 1, p[j].Score.v);
        assert arrows[j] == p[j];
      }
      if exists j :: 0 <= j < |arrows| && ScoreOutOfRange(arrows[j].Score)
                     && e == InvalidArrowScore(endNo, j + 1, arrows[j].Score.v) {
        var j :| 0 <= j < |arrows| && ScoreOutOfRange(arrows[j].Score)
                 && e == InvalidArrowScore(endNo, j + 1, arrows[j].Score.v);
        if j < |p| {
          assert p[j] == arrows[j];
        }
      }
    }
  }

  /** Errors from all ends are accumulated: an error is reported iff some end
      (numbered from 1) produces it. */
  lemma EndsErrorsExact(ends: seq<EndPayload>, e: StructureError)
    ensures e in EndsErrors(ends) <==> exists i :: 0 <= i < |ends| && e in EndErrors(ends[i], i + 1)
  {
    if e in EndsErrors(ends) {
      var i := EndsErrorsFrom(ends, e);
    }
    if exists i :: 0 <= i < |ends| && e in EndErrors(ends[i], i + 1) {
      var i :| 0 <= i < |ends| && e in EndErrors(ends[i], i + 1);
      EndsErrorsIn(ends, i, e);
    }
  }

  /** An error of end i (0-based) is among the errors of all ends. */
  lemma EndsErrorsIn(ends: seq<EndPayload>, i: int, x: StructureError)
    requires 0 <= i < |ends| && x in EndErrors(ends[i], i + 1)
    ensures x in EndsErrors(ends)
  {
    FlattenIn(PerEnd(ends), i, x);
  }

  /** Every error among those of all ends comes from one end, found here. */
  lemma EndsErrorsFrom(ends: seq<EndPayload>, x: StructureError) returns (i: int)
    requires x in EndsErrors(ends)
    ensures 0 <= i < |ends| && x in EndErrors(ends[i], i + 1)
  {
    i := FlattenFrom(PerEnd(ends), x);
  }

  /** What one end contributes: its count error when it lacks 6 arrows, and otherwise
      only score errors of its own arrows. */
  lemma EndErrorMember(end: EndPayload, endNo: int, x: StructureError)
    ensures x == ArrowCountMismatch(endNo) && !HasRequiredArrows(end) ==> x in EndErrors(end, endNo)
    ensures x in EndErrors(end, endNo) && x.ArrowCountMismatch? ==>
      x == ArrowCountMismatch(endNo) && !HasRequiredArrows(end)
    ensures x in EndErrors(end, endNo) && !x.ArrowCountMismatch? ==>
      end.arrows.Val? && x in ArrowErrors(end.arrows.v, endNo)
  {
    if x in EndErrors(end, endNo) && x.ArrowCountMismatch? && end.arrows.Val? {
      if x in ArrowErrors(end.arrows.v, endNo) {
        ArrowErrorsExact(end.arrows.v, endNo, x);
      }
    }
  }

  /** Apart from the end-count error, the errors reported are those of the ends. */
  lemma StructureErrorsOfEnds(ends: seq<EndPayload>, ranges: seq<RangeRow>, x: StructureError)
    requires !x.EndCountMismatch?
    ensures x in StructureErrors(ends, ranges) <==> x in EndsErrors(ends)
  {
    assert x !in CountErrors(ends, ranges);
  }

  /** An end whose arrows are missing or not exactly 6 yields one positioned count
      error, and an end with 6 arrows none, whatever ArrowsPerEnd its range configures. */
  lemma ArrowCountErrorPerEnd(ends: seq<EndPayload>, ranges: seq<RangeRow>, k: int)
    ensures ArrowCountMismatch(k) in StructureErrors(ends, ranges) <==>
      1 <= k <= |ends| && !HasRequiredArrows(ends[k - 1])
  {
    StructureErrorsOfEnds(ends, ranges, ArrowCountMismatch(k));
    if 1 <= k <= |ends| && !HasRequiredArrows(ends[k - 1]) {
      CountErrorOfEnd(ends, k);
    }
    if ArrowCountMismatch(k) in EndsErrors(ends) {
      CountErrorFromEnd(ends, k);
    }
  }

  lemma CountErrorOfEnd(ends: seq<EndPayload>, k: int)
    requires 1 <= k <= |ends| && !HasRequiredArrows(ends[k - 1])
    ensures ArrowCountMismatch(k) in EndsErrors(ends)
  {
    EndErrorMember(ends[k - 1], k, ArrowCountMismatch(k));
    EndsErrorsIn(ends, k - 1, ArrowCountMismatch(k));
  }

  lemma CountErrorFromEnd(ends: seq<EndPayload>, k: int)
    requires ArrowCountMismatch(k) in EndsErrors(ends)
    ensures 1 <= k <= |ends| && !HasRequiredArrows(ends[k - 1])
  {
    var i := EndsErrorsFrom(ends, ArrowCountMismatch(k));
    EndErrorMember(ends[i], i + 1, ArrowCountMismatch(k));
  }

  /** Arrow j of end k scores s, a number outside 0..10. */
  predicate ScoredOutOfRange(ends: seq<EndPayload>, k: int, j: int, s: int)
  {
    1 <= k <= |ends| && ends[k - 1].arrows.Val? && 1 <= j <= |ends[k - 1].arrows.v|
    && ends[k - 1].arrows.v[j - 1].Score == Val(s) && (s < 0 || s > 10)
  }

  /** Each out-of-range arrow score yields an error naming its 1-based end and
      arrow; scores 0 and 10, undefined and null scores yield none. */
  lemma ArrowScoreErrorPerArrow(ends: seq<EndPayload>, ranges: seq<RangeRow>, k: int, j: int, s: int)
    ensures InvalidArrowScore(k, j, s) in StructureErrors(ends, ranges) <==>
      1 <= k <= |ends| && ends[k - 1].arrows.Val? && 1 <= j <= |ends[k - 1].arrows.v|
      && ends[k - 1].arrows.v[j - 1].Score == Val(s) && (s < 0 || s > 10)
  {
    StructureErrorsOfEnds(ends, ranges, InvalidArrowScore(k, j, s));
    if InvalidArrowScore(k, j, s) in EndsErrors(ends) {
      ScoreErrorFromArrow(ends, k, j, s);
    }
    if ScoredOutOfRange(ends, k, j, s) {
      ScoreErrorOfArrow(ends, k, j, s);
    }
  }

  lemma ScoreErrorOfArrow(ends: seq<EndPayload>, k: int, j: int, s: int)
    requires ScoredOutOfRange(ends, k, j, s)
    ensures InvalidArrowScore(k, j, s) in EndsErrors(ends)
  {
    var e := InvalidArrowScore(k, j, s);
    ScoreErrorAt(ends[k - 1].arrows.v, k, k, j, s);
    EndArrowErrorIn(ends[k - 1], k, e);
    EndsErrorsIn(ends, k - 1, e);
  }

  lemma ScoreErrorFromArrow(ends: seq<EndPayload>, k: int, j: int, s: int)
    requires InvalidArrowScore(k, j, s) in EndsErrors(ends)
    ensures ScoredOutOfRange(ends, k, j, s)
  {
    var e := InvalidArrowScore(k, j, s);
    var i := EndsErrorsFrom(ends, e);
    EndErrorMember(ends[i], i + 1, e);
    ScoreErrorAt(ends[i].arrows.v, i + 1, k, j, s);
  }

  /** A score error of an end's arrows is an error of that end. */
  lemma EndArrowErrorIn(end: EndPayload, endNo: int, x: StructureError)
    requires end.arrows.Val? && x in ArrowErrors(end.arrows.v, endNo)
    ensures x in EndErrors(end, endNo)
  {
  }

  /** The score error of end `endNo` naming arrow j and score s is there exactly when the
      j-th arrow scores s, out of range, and the end is numbered k. */
  lemma ScoreErrorAt(arrows: seq<ArrowPayload>, endNo: int, k: int, j: int, s: int)
    ensures InvalidArrowScore(k, j, s) in ArrowErrors(arrows, endNo) <==>
      k == endNo && 1 <= j <= |arrows| && arrows[j - 1].Score == Val(s) && (s < 0 || s > 10)
  {
    var e := InvalidArrowScore(k, j, s);
    ArrowErrorsExact(arrows, endNo, e);
    if k == endNo && 1 <= j <= |arrows| && arrows[j - 1].Score == Val(s) && (s < 0 || s > 10) {
      assert ScoreOutOfRange(arrows[j - 1].Score) && e == InvalidArrowScore(endNo, (j - 1) + 1, arrows[j - 1].Score.v);
    }
  }

  /** Exactly one end-count error, first in the list, when the number of ends differs
      from the sum of the ranges' Ends; none otherwise. */
  lemma EndCountErrorOnce(ends: seq<EndPayload>, ranges: seq<RangeRow>)
    ensures |ends| != TotalEnds(ranges) ==>
      StructureErrors(ends, ranges)[0] == EndCountMismatch(TotalEnds(ranges), |ends|)
    ensures forall e :: e in EndsErrors(ends) ==> !e.EndCountMismatch?
  {
    forall e | e in EndsErrors(ends) ensures !e.EndCountMismatch? {
      var i := EndsErrorsFrom(ends, e);
      EndErrorMember(ends[i], i + 1, e);
      if ends[i].arrows.Val? && e in ArrowErrors(ends[i].arrows.v, i + 1) {
        ArrowErrorsExact(ends[i].arrows.v, i + 1, e);
      }
    }
  }

  /** An end passes iff it has exactly 6 arrows, none with an out-of-range `Score`. */
  predicate WellFormedEnd(e: EndPayload)
  {
    HasRequiredArrows(e) && forall j :: 0 <= j < |e.arrows.v| ==> !ScoreOutOfRange(e.arrows.v[j].Score)
  }

  /** The submission is valid iff it has the round's number of ends and every end is well formed. */
  lemma ValidIff(ends: seq<EndPayload>, ranges: seq<RangeRow>)
    ensures StructureErrors(ends, ranges) == [] <==>
      |ends| == TotalEnds(ranges) && forall i :: 0 <= i < |ends| ==> WellFormedEnd(ends[i])
  {
    if StructureErrors(ends, ranges) == [] {
      forall i | 0 <= i < |ends| ensures WellFormedEnd(ends[i]) {
        NoErrorsWellFormed(ends, ranges, i);
      }
    }
    if |ends| == TotalEnds(ranges) && forall i :: 0 <= i < |ends| ==> WellFormedEnd(ends[i]) {
      WellFormedNoErrors(ends);
    }
  }

  lemma NoErrorsWellFormed(ends: seq<EndPayload>, ranges: seq<RangeRow>, i: int)
    requires StructureErrors(ends, ranges) == [] && 0 <= i < |ends|
    ensures WellFormedEnd(ends[i])
  {
    ArrowCountErrorPerEnd(ends, ranges, i + 1);
    forall j | 0 <= j < |ends[i].arrows.v| ensures !ScoreOutOfRange(ends[i].arrows.v[j].Score) {
      if ScoreOutOfRange(ends[i].arrows.v[j].Score) {
        ArrowScoreErrorPerArrow(ends, ranges, i + 1, j + 1, ends[i].arrows.v[j].Score.v);
      }
    }
  }

  lemma WellFormedNoErrors(ends: seq<EndPayload>)
    requires forall i :: 0 <= i < |ends| ==> WellFormedEnd(ends[i])
    ensures EndsErrors(ends) == []
  {
    if EndsErrors(ends) != [] {
      var e := EndsErrors(ends)[0];
      var i := EndsErrorsFrom(ends, e);
      EndErrorMember(ends[i], i + 1, e);
      ArrowErrorsExact(ends[i].arrows.v, i + 1, e);
    }
  }

  /** With lower-case `score` payloads (no `Score`), no arrow-score error can be
      reported, whatever the scores are: the range check never fires. */
  lemma LowerCaseScoresUnchecked(ends: seq<EndPayload>, ranges: seq<RangeRow>)
    requires forall i :: 0 <= i < |ends| && ends[i].arrows.Val? ==>
      forall j :: 0 <= j < |ends[i].arrows.v| ==> ends[i].arrows.v[j].Score.Absent?
    ensures forall e :: e in StructureErrors(ends, ranges) ==> !e.InvalidArrowScore?
  {
    forall e | e in StructureErrors(ends, ranges) && e.InvalidArrowScore?
      ensures false
    {
      ArrowScoreErrorPerArrow(ends, ranges, e.endNo, e.arrowNo, e.score);
    }
  }

  // ---------------------------------------------------------------------
  // isDateInRange

  /** The closed window [start, end]; a null end leaves the window open. */
  function IsDateInRange(date: Date, start: Date, end: Option<Date>): (inRange: bool)
    ensures inRange <==> AtOrBefore(start, date) && (end.None? || AtOrBefore(date, end.value))
  {
    if Before(date, start) then false
    else if end.None? then true
    else AtOrBefore(date, end.value)
  }
}
