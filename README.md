# Archery club backend: a Dafny model

This project models the core of an archery club's web backend. Archers shoot rounds
(sequences of ranges, each of a number of ends of arrows). They stage score records, which
recorders approve or reject. Approved scores feed competition leaderboards, club
championship standings and winners, and club records. Rules of equivalent rounds say which
other rounds an archer of a category may shoot in place of a base round during a window of
dates.

The model covers these parts of the code:

- **common.dfy** (`Common`): values shared by every controller.
  - A JSON request field is `Absent` (`undefined`), `Null` or `Val`, with JavaScript truthiness (`0` and `""` are falsy).
  - Calendar dates as (year, month, day).
  - The HTTP failures (401, 403, 404, 400 with details, and 500 for anything the store refuses).
  - The Role enum, a sum, and the characters `trim` removes.
- **helpers.dfy** (`Helpers`): `calculateAge`, `determineClass`, `calculateTotalScore`, `validateScoreStructure` (a method with its loops, proved equal to a specification function) and `isDateInRange`.
- **scores.dfy** (`Scores`): the score-record controller.
  - Staging a score and the totals it stores.
  - Approving, rejecting and setting the status of a record, as a `ScoreRecord` class whose methods update its fields.
  - Editing a staged record.
  - Who sees which record.
  - Club records.
- **standings.dfy** (`Standings`): aggregation of approved scores per archer within a category key, the descending sort with its tie order, ranks, and the top three.
- **championships.dfy** (`Championships`): the `ChampionshipRegistry` class.
  - Championships, with one per year.
  - The championship-to-competition links, and their replacement.
  - Standings and winners computed from the linked competitions.
- **competitions.dfy** (`Competitions`): creating a competition with its defaults; the guarded update as a `Competition` class; the year filter; the leaderboard loop.
- **rounds.dfy** (`Rounds`): the round store.
  - Creating and updating a round: the range-field mapping, and validation that stops at the first bad range.
  - Equivalence rules and their guard; the equivalent-rounds query.
  - Grouping an archer's eligible rounds by base round.
- **archers.dfy** (`Archers`): creating an archer from PascalCase or camelCase fields; the profile update rules; the symbolic password column; the score history and its access filter.
- **rolecheck.dfy** (`Middleware`): the role gate in front of a route.

Clocks become parameters (`today`, `now`). The database becomes maps and sequences held by
classes. The store rules of the score, range, rule, archer and championship tables (NOT NULL
columns, enums, ranges of values, unique columns) are explicit predicates whose failure is a
500. The Competition table is the exception; its gaps are listed under "## Left out".

## Model

| member | source | states |
|---|---|---|
| Common.ParseRole | backend/models/Archer.js:41-44 | a text parses to a role exactly when it is "admin", "recorder" or "archer", and parses to the role of that name |
| Common.ParseRoleName | backend/models/Archer.js:41-44 | every role is recovered from its stored text |
| Helpers.CalculateAge | backend/utils/helpers.js:7-20 | the age-th birthday falls at or before the reference date and the next one after it; the age is the year difference minus 1 exactly when the reference (month, day) precedes the birth (month, day) |
| Helpers.AgeIsUnique | backend/utils/helpers.js:11-17 | any n whose birthday bounds hold is the computed age, so the age is determined |
| Helpers.DetermineClass | backend/utils/helpers.js:27-45 | the class is the name, among the eight for the gender, indexed by how many of the thresholds 14, 16, 18, 21, 50, 60, 70 the age has reached |
| Helpers.ReachedClassThresholds | backend/utils/helpers.js:28-44 | the count of reached thresholds for each age interval of the if-chain |
| Helpers.ReachedInBracket | backend/utils/helpers.js:27-45 | for strictly ascending thresholds every age lies in the bracket the count names |
| Helpers.BracketIsUnique | backend/utils/helpers.js:27-45 | an age lies in exactly one bracket |
| Helpers.ReachedMonotone | backend/utils/helpers.js:27-45 | an older age never falls in a younger bracket |
| Helpers.DetermineClassBrackets | backend/utils/helpers.js:27-45 | for the club's thresholds, determineClass is total, and each age falls in exactly one bracket, monotonically in age |
| Helpers.PascalEndTotal | backend/utils/helpers.js:53-55 | an end's arrow sum is a number iff every arrow has a `Score`, and is the sum of those scores |
| Helpers.CalculateTotalScore | backend/utils/helpers.js:52-57 | the total is the sum over ends of the sums of arrow `Score`s; it is 0 for no ends; it is a number only when every arrow has a `Score` |
| Helpers.ValidateScoreStructure | backend/utils/helpers.js:65-99 | the loop collects exactly the errors of the specification (count error first, then per end and per arrow in order) and `valid` holds iff there are none |
| Helpers.ArrowErrorsExact | backend/utils/helpers.js:82-91 | an arrow-score error is reported iff some arrow's score is below 0 or above 10, naming that end and the 1-based arrow |
| Helpers.EndsErrorsExact | backend/utils/helpers.js:76-93 | the errors of every end are accumulated, not only the first end's |
| Helpers.CheckEnd | backend/utils/helpers.js:76-92 | the callback for one end collects exactly that end's errors: the arrow-count error first, then one score error per out-of-range arrow, in arrow order |
| Helpers.ArrowCountErrorPerEnd | backend/utils/helpers.js:76-79 | end k gets an arrow-count error iff it has no arrows or not exactly 6, whatever the range's ArrowsPerEnd |
| Helpers.ArrowScoreErrorPerArrow | backend/utils/helpers.js:82-91 | arrow j of end k gets an error iff its `Score` is a number below 0 or above 10; 0 and 10 are accepted |
| Helpers.EndCountErrorOnce | backend/utils/helpers.js:69-73 | an end count different from the sum of the ranges' Ends gives exactly one count error, placed first |
| Helpers.ValidIff | backend/utils/helpers.js:95-98 | no errors iff the end count matches and every end has 6 arrows with scores in 0..10 |
| Helpers.LowerCaseScoresUnchecked | backend/utils/helpers.js:84 | ends whose arrows carry only a lowercase `score` never get an arrow-score error |
| Helpers.IsDateInRange | backend/utils/helpers.js:108-117 | true iff the start is at or before the date and the end is null or at or after the date (inclusive) |
| Scores.ParseStatus | backend/models/ScoreRecord.js:37-40 | exactly the four enum texts parse, each to the status of that name |
| Scores.SumArrowScores | backend/controllers/scoreController.js:170-175 | the loop's total is the sum of every arrow's `score` over all ends |
| Scores.SumEndScores | backend/controllers/scoreController.js:172-174 | the inner loop adds up exactly the lower-case `score`s of one end's arrows, null counting as 0 |
| Scores.BuildEndRows | backend/controllers/scoreController.js:302-331 | the loop builds the stored ends of the payload and a total equal to the sum of their End totals |
| Scores.BuildEndRow | backend/controllers/scoreController.js:303-327 | one turn of the loop builds the End row of the submitted end and returns its total |
| Scores.StoredEndsConsistent | backend/controllers/scoreController.js:195-204 | each stored End's TotalScore is the sum of the scores of its stored arrows |
| Scores.StoredNumbersAsSent | backend/controllers/scoreController.js:199-213 | the stored rows carry the EndNumber and ArrowOrder values sent; an end or arrow without one makes the store refuse the ends |
| Scores.TotalsAgree | backend/controllers/scoreController.js:170-198 | the sum of the End totals equals the sum of all arrow scores, so the record total agrees with its ends |
| Scores.ReplacementEnds | backend/controllers/scoreController.js:279-331 | new ends are refused with the validator's details when invalid; refused with 500 when the round is missing or the store rejects an end or arrow (a missing or null EndNumber, ArrowOrder or score, a score outside 0..10, a repeated number); otherwise they are exactly the payload's ends with a consistent total |
| Scores.RejectionKeepsNotes | backend/controllers/scoreController.js:420-422 | the rejection reason is appended after the existing notes, which are kept unchanged in front |
| Scores.ScoreRecord.Approve | backend/controllers/scoreController.js:378-388 | from staged or pending: status approved, ApprovedBy the caller, and ApprovedAt and UpdatedAt now, nothing else changed; otherwise 400 with the record unchanged |
| Scores.ScoreRecord.Reject | backend/controllers/scoreController.js:414-425 | from staged or pending: status rejected, the notes extended by the reason when one is given, otherwise unchanged; otherwise 400 with the record unchanged |
| Scores.ScoreRecord.UpdateStatus | backend/controllers/scoreController.js:446-479 | an unknown status is 400 with no change; approved sets the approver; pending and staged clear both approver fields; rejected leaves them and appends a given reason |
| Scores.ScoreRecord.UpdateScore | backend/controllers/scoreController.js:265-339 | 403 unless the caller owns the record and 400 unless it is staged, both before any change; with ends, all ends are replaced and the total recomputed; DateShot only if a date is given, Notes only if defined; a failure leaves the record unchanged |
| Scores.CreateScore | backend/controllers/scoreController.js:150-222 | 404 for an unknown round and 400 with the validator's details for a bad structure; a 500 when the store refuses a column (a missing EndNumber or ArrowOrder among them); otherwise a fresh staged record of the caller, whose total is the sum of arrow scores and whose ends are consistent |
| Scores.ListScores | backend/controllers/scoreController.js:37-43 | an archer is listed every approved record and their own staged or approved ones, never another's unapproved one; staff are listed everything |
| Scores.GetScoreById | backend/controllers/scoreController.js:119-130 | 404 when missing; an archer reads a record iff it is approved or their own; staff read any |
| Scores.OwnPendingReadableNotListed | backend/controllers/scoreController.js:38-43 | an archer's own pending record can be read by id but is not listed |
| Scores.Candidates | backend/controllers/scoreController.js:548-549 | the candidates are exactly the approved records in the requested division |
| Scores.Best | backend/controllers/scoreController.js:570-587 | the chosen record has its key, the maximal total among those records, and the earliest DateShot among the maxima |
| Scores.ClubRecords | backend/controllers/scoreController.js:548-593 | one record per (RoundID, DivisionID) present among approved records; each is approved, has the group's maximal total and the earliest date among equal maxima |
| Standings.Aggregate | backend/controllers/championshipController.js:378-409 | the loop builds exactly the tallies of the specification for every key |
| Standings.TalliesKeys | backend/controllers/championshipController.js:381-388 | a category appears iff some counted score has that key |
| Standings.TalliesExact | backend/controllers/championshipController.js:380-409 | within a category there is one tally per archer who scored in it; its total is the sum of their TotalScores and it has one competition entry per score |
| Standings.AddTallyEffect | backend/controllers/championshipController.js:390-408 | crediting a score keeps the ids distinct and every other archer's tally, and leaves the archer exactly one tally: the old one credited, or a fresh one when there was none |
| Standings.SortByTotal | backend/controllers/championshipController.js:414-415 | the sort result is ordered by non-increasing total (ties by ascending archer id) and is a permutation of its input |
| Standings.RankGroup | backend/controllers/championshipController.js:413-420 | the ranks run 1..n by position, the totals are non-increasing and the entries are a permutation of the tallies |
| Standings.TopThree | backend/controllers/championshipController.js:536-537 | at most three entries, the first of the sorted list, and none of the rest has a higher total |
| Standings.RankGroupFormatted | backend/controllers/championshipController.js:413-420 | the ranked group of a category's tallies holds each scoring archer exactly once (no two entries share an archer id) with their summary, ranked 1..n by non-increasing total |
| Standings.DistinctUnderPermutation | backend/controllers/championshipController.js:390-415 | re-ordering tallies keyed by distinct archer ids keeps the ids distinct, so the sorted group still has one entry per archer |
| Championships.Counted | backend/controllers/championshipController.js:360-364 | the counted scores are exactly the approved ones of the linked competitions |
| Championships.ChampionshipRegistry.CreateChampionship | backend/controllers/championshipController.js:152-165 | 400 when a championship already has that Year; otherwise created iff Name and Year are given, with absent dates stored as null; on failure nothing changes |
| Championships.ChampionshipRegistry.UpdateChampionship | backend/controllers/championshipController.js:185-215 | 404 when missing; Name and Year change only if truthy, dates only if defined; a Year held by another championship is a 500 with nothing written; a competitionIds array makes the links exactly those ids (a bad id or duplicate leaves the links removed) |
| Championships.ChampionshipRegistry.AddCompetition | backend/controllers/championshipController.js:268-295 | 404 for a missing championship or competition, 400 for an existing link, with the links unchanged; otherwise the links gain exactly that pair |
| Championships.ChampionshipRegistry.RemoveCompetition | backend/controllers/championshipController.js:313-322 | an existing link is removed and nothing else changes; an absent one is 404 |
| Championships.ChampionshipRegistry.ChampionshipStandings | backend/controllers/championshipController.js:341-420 | 404 when missing; otherwise one ranked, descending group per category key, built from the approved scores of the linked competitions |
| Championships.ChampionshipRegistry.ChampionshipWinners | backend/controllers/championshipController.js:440-537 | 404 when missing; no linked competition gives empty winners with a message; otherwise class→division lists, each the top three of that group, distinct archers |
| Championships.RemoveLinks | backend/controllers/championshipController.js:203-205 | exactly the championship's links are deleted |
| Championships.ChampionshipRegistry.ReplaceLinks | backend/controllers/championshipController.js:199-215 | the old links of the championship are removed; the new ones are added iff every id names a competition and none repeats; other championships' links are kept |
| Championships.FormatStandingsCorrect | backend/controllers/championshipController.js:377-420 | formatting the tallies of the counted scores gives, per category, one entry per scoring archer, each the summary of that archer's scores, ranked by non-increasing total |
| Championships.NestWinners | backend/controllers/championshipController.js:522-539 | a class→division pair appears iff its group exists, holding the group's top three |
| Championships.NestWinnersCorrect | backend/controllers/championshipController.js:491-539 | the nested winners have one list per (class or "No Class", division or "No Division") with counted scores, each the top three of its archers by total, no archer listed twice |
| Championships.TopThreeOfGroup | backend/controllers/championshipController.js:527-537 | the top three of a group are distinct archers of that group with their exact totals and count, non-increasing, and any archer left out scored no more than each listed one |
| Standings.TopThreeDistinct | backend/controllers/championshipController.js:390-415 | the top three of tallies keyed by distinct archers name each archer at most once |
| Competitions.Created | backend/controllers/competitionController.js:101-110 | created iff name and date are given; Name and Date are the given ones; StartDate and EndDate are the given dates, else the date; Status is the given truthy text, else "upcoming"; RoundID, Location and Description are the given truthy values, else null |
| Competitions.RevisedEmpty | backend/controllers/competitionController.js:136-143 | a request without fields leaves the competition unchanged |
| Competitions.RevisedIdempotent | backend/controllers/competitionController.js:136-143 | applying the same update twice equals applying it once |
| Competitions.Competition.Update | backend/controllers/competitionController.js:136-145 | each field changes only under its guard (truthy for name, date and status, defined for the rest); all other fields are unchanged |
| Competitions.CreateCompetition | backend/controllers/competitionController.js:97-110 | a fresh competition holding the created row, or 500 |
| Competitions.InYearExact | backend/controllers/competitionController.js:24-28 | a well-formed date lies between year-01-01 and year-12-31 iff its year is that year |
| Competitions.ByYear | backend/controllers/competitionController.js:24-28 | with a year, exactly the competitions dated in that year's bounds; without one, all of them |
| Competitions.ByYearCalendar | backend/controllers/competitionController.js:24-28 | for well-formed dates, the year filter keeps exactly the competitions of that calendar year |
| Competitions.Selected | backend/controllers/competitionController.js:187-203 | exactly the approved records of that competition, in the division and class when given |
| Competitions.InCategory | backend/controllers/competitionController.js:211-218 | exactly the records of one category key, in order |
| Competitions.Lines | backend/controllers/competitionController.js:220-231 | the j-th line of a category has rank j+1 and shows the j-th record |
| Competitions.Leaderboard | backend/controllers/competitionController.js:211-234 | the loop builds one list per category key present, holding that category's records in arrival order with ranks 1..k |
| Competitions.PlacedOnce | backend/controllers/competitionController.js:211-231 | every selected record appears under its category key at its arrival position among that category's records |
| Competitions.SelectedDescending | backend/controllers/competitionController.js:207 | the selection keeps the query's descending order by total |
| Competitions.InCategoryDescending | backend/controllers/competitionController.js:207 | a category's records keep the descending order |
| Competitions.LeaderboardDescending | backend/controllers/competitionController.js:207-234 | given input ordered by total descending, each category's scores are non-increasing by rank |
| Rounds.MapRange | backend/controllers/roundController.js:128-133 | rangeNo is the given one or i+1; ends is numEnds else ends; targetFace is "<targetSize>cm", else targetFace, else "122cm"; scoringType defaults to "10-zone" and arrowsPerEnd to 6 |
| Rounds.MapRangeDefaults | backend/controllers/roundController.js:128-133 | a range without optional fields gets position i+1, "122cm", "10-zone" and 6 arrows |
| Rounds.FaceOf | backend/controllers/roundController.js:131 | the face is "<targetSize>cm" for a truthy size, else the truthy targetFace, else "122cm" |
| Rounds.MappedAt | backend/controllers/roundController.js:123-133 | the i-th mapped range is the mapping of the i-th payload at position i |
| Rounds.OutcomeAll | backend/controllers/roundController.js:123-152 | when every range passes, all are stored, in order, with no failure |
| Rounds.OutcomeStops | backend/controllers/roundController.js:135-141 | the first failing range stops the loop with its 1-based positional 400 (or 500 for a store refusal), keeping the ranges stored before it |
| Rounds.OutcomeStorable | backend/models/RoundRange.js:26-55 | every stored range has Ends 1..50, ArrowsPerEnd 1..12, a scoring type of the enum, and a RangeNo unique in its round |
| Rounds.AddRange | backend/controllers/roundController.js:135-151 | one turn: the positional 400 for an incomplete range when checked, a 500 when the store refuses the row, otherwise the row is appended |
| Rounds.RangeLoop | backend/controllers/roundController.js:123-152 | the loop returns exactly the rows and the failure of the specification of the mapped payload |
| Rounds.RoundStore.CreateRanges | backend/controllers/roundController.js:121-152 | the loop leaves the round's ranges and the failure exactly as the specification of the mapped payload says |
| Rounds.RoundStore.CreateRound | backend/controllers/roundController.js:101-152 | 400 for a missing or blank name and for a duplicate, with nothing stored; otherwise the round is stored, and then its ranges up to the first failure, which stays (no transaction) |
| Rounds.RoundStore.UpdateRound | backend/controllers/roundController.js:192-228 | 404 when missing; Name only if truthy, Description if defined; a ranges array deletes every old range and stores the mapped list; without an array the ranges are untouched |
| Rounds.ReplacedExactly | backend/controllers/roundController.js:203-228 | when every new range passes, the stored ranges are exactly the mapped new list |
| Rounds.RuleStore.Written | backend/controllers/roundController.js:360-366 | a rule is stored iff base, equivalent, category and start are given, and then holds exactly those values; a missing EndDate becomes null |
| Rounds.RuleStore.CreateRule | backend/controllers/roundController.js:354-366 | base equal to equivalent is 400 and nothing is written; otherwise the written rule is added |
| Rounds.RuleStore.Updated | backend/controllers/roundController.js:406-412 | a missing field keeps its stored column; a null in a NOT NULL column, or a merged base equal to the merged equivalent (backend/models/EquivalentRound.js:40-48), is a 500; otherwise the given values are written and EndDate is always rewritten |
| Rounds.RuleStore.FullUpdateIsWritten | backend/controllers/roundController.js:360-366 | an update carrying every NOT NULL column writes the same row a creation would |
| Rounds.RuleStore.BaseAndEndDateUpdate | backend/controllers/roundController.js:400-412 | a request that resends the stored base round and an end date passes the equal-ids guard and keeps equivalent, category and start, rewriting only EndDate |
| Rounds.RuleStore.UpdateRule | backend/controllers/roundController.js:395-412 | 404 when missing, then 400 for base equal to equivalent as sent, with nothing written; otherwise the stored rule merged with the request, or a 500 with nothing written; no rule ever maps a round onto itself |
| Rounds.EquivalentRounds | backend/controllers/roundController.js:306-337 | 400 without categoryId or date; otherwise exactly the rules of that base and category whose window contains the date by isDateInRange |
| Rounds.Matching | backend/controllers/roundController.js:312-337 | the filter keeps exactly the matching rules whose window contains the date |
| Rounds.MatchingAppend | backend/controllers/roundController.js:312-337 | the filter of a concatenation is the concatenation of the filters, so the store's order and every copy are kept |
| Rounds.ActiveIsInRange | backend/controllers/roundController.js:505-509 | a rule is active today iff isDateInRange(today, start, end) |
| Rounds.CategoryIds | backend/controllers/roundController.js:482-486 | exactly the categories of the archer's class and default division |
| Rounds.ActiveRules | backend/controllers/roundController.js:502-510 | exactly the rules of those categories active today |
| Rounds.ActiveRulesAppend | backend/controllers/roundController.js:502-510 | the rules in force of a concatenation are those of each part, in order |
| Rounds.GroupByBase | backend/controllers/roundController.js:527-546 | the forEach builds exactly the specified groups |
| Rounds.Bases | backend/controllers/roundController.js:529-538 | the base rounds of the rules, each exactly once |
| Rounds.EquivalentsOf | backend/controllers/roundController.js:541-544 | a base round's equivalents are exactly the equivalent rounds of the rules of that base |
| Rounds.CategoriesOf | backend/controllers/roundController.js:545 | a base round's category names are those of its rules, without repetition |
| Rounds.GroupedExact | backend/controllers/roundController.js:527-553 | one group per distinct base round (as many groups as bases, the g-th for the g-th base), each holding that base's equivalents and its deduplicated category names |
| Rounds.EligibleRounds | backend/controllers/roundController.js:462-563 | 404 for no archer; 400 for no class; no category gives an empty list with a message; otherwise the grouped active rules, with totalRounds the number of groups |
| Archers.ParseGender | backend/models/Archer.js:25-28 | exactly "Male" and "Female" parse, each to the gender of that name |
| Archers.CreatedSecret | backend/models/Archer.js:66-71 | a non-empty password is stored hashed once, so it is the only candidate the compare accepts |
| Archers.PasswordChangeLocksOut | backend/controllers/archerController.js:226-229 | as written, a password change is hashed by the controller and again by the update hook, so no password the user knows, not even the new one, verifies |
| Archers.UpdatedSecret | backend/models/Archer.js:72-77 | the intended stored value of a new password verifies exactly that password |
| Archers.ClassFor | backend/controllers/archerController.js:126-128 | the ClassID of the class named by determineClass(calculateAge(dob), gender), if that class exists |
| Archers.Final | backend/controllers/archerController.js:110-117 | a truthy PascalCase field wins over its camelCase twin; the role is always set, defaulting to "archer"; the division is null unless a truthy one is given |
| Archers.Created | backend/controllers/archerController.js:120-139 | 400 iff the final email is already registered; else created iff every NOT NULL column is present, the enums hold and the email is valid; the row carries the final fields and the ClassID of the computed class, or null |
| Archers.CreatedDefaults | backend/controllers/archerController.js:116-117 | without a role in either spelling the archer is an archer; without a truthy division it has none |
| Archers.Revised | backend/controllers/archerController.js:192-231 | the update applies iff the enums and a new email validate; only truthy name, email, gender and date of birth are copied, and every other field is kept |
| Archers.RoleRule | backend/controllers/archerController.js:207-208 | only an admin changes the role, and then to the role named |
| Archers.DivisionRule | backend/controllers/archerController.js:209-223 | a given DivisionID is kept for an archer and becomes null for staff (by the role after the update); an admin making someone staff clears it; otherwise it is unchanged |
| Archers.PasswordRule | backend/controllers/archerController.js:226-229 | a non-blank password becomes the only one that verifies; otherwise the stored secret is unchanged |
| Archers.ClassRule | backend/controllers/archerController.js:196-203 | a new date of birth moves the archer to the class of the new age and the request's gender (else the stored one) when that class exists; otherwise the class stays |
| Archers.RevisedEmpty | backend/controllers/archerController.js:192-231 | an empty update changes only UpdatedAt |
| Archers.RevisedIdempotent | backend/controllers/archerController.js:192-231 | sending the same update twice gives the profile one sending gives |
| Archers.ArcherRegistry.CreateArcher | backend/controllers/archerController.js:120-140 | the table gains exactly the created row, or is unchanged; emails stay unique |
| Archers.ArcherRegistry.UpdateArcher | backend/controllers/archerController.js:178-233 | 403 for an archer editing someone else and 404 for an unknown id, both with nothing changed; otherwise exactly the revised row replaces the old one, or 500 with nothing changed when the store refuses it or another archer has the email |
| Archers.History | backend/controllers/archerController.js:290-308 | exactly the given archer's records that meet the status, date-window and round conditions |
| Archers.HistoryAppend | backend/controllers/archerController.js:290-308 | the history of a concatenation is the histories of its parts, so the store's order and every record are kept |
| Archers.ArcherScores | backend/controllers/archerController.js:283-310 | 403 unless the caller is the archer or staff; otherwise the archer's records under the filters; an archer without a status filter sees only approved and staged records |
| Archers.OwnHistoryAgreesWithListing | backend/controllers/archerController.js:292-297 | an archer's unfiltered history is exactly their own records among those the score listing shows them |
| Archers.PendingOnlyOnRequest | backend/controllers/archerController.js:292-297 | an own pending record is left out of the unfiltered history but returned when status "pending" is asked for |
| Middleware.Roles | backend/middleware/roleCheck.js:11 | a single role becomes a one-element list; an array is used as is |
| Middleware.RoleCheck | backend/middleware/roleCheck.js:6-20 | no caller is 401; a role outside the list is 403 with no call of `next`; a role in the list calls `next` exactly once and sends no response |
| Middleware.SingleIsOneElementList | backend/middleware/roleCheck.js:11 | `roleCheck("x")` behaves exactly as `roleCheck(["x"])` |
| Middleware.MoreRolesAdmitMore | backend/middleware/roleCheck.js:13 | extending the allowed list never turns away a caller who was let through |
| Middleware.StaffGate | backend/routes/archers.js:12 | the staff gate admits exactly admins and recorders |
| Middleware.AdminGate | backend/routes/archers.js:21 | the admin gate admits admins only |

## Findings

| source | as written | input that shows it | evidently intended | confidence | as-written member | corrected member |
|---|---|---|---|---|---|---|
| backend/controllers/archerController.js:226-229 | the controller stores `bcrypt.hash(Password)` in PasswordHash, and the model's `beforeUpdate` hook (backend/models/Archer.js:72-77) hashes the changed column again | any profile update with Password "secret": the column then holds hash(hash("secret")), and logging in with "secret" fails | the new password is hashed once, as on creation, so that it verifies | high, not executed | Archers.PasswordChangeLocksOut | Archers.UpdatedSecret |

The update rules (`Archers.Revised`, `Archers.PasswordRule`) use the corrected value.

## Notes on the code as written

- The validator and `calculateTotalScore` read an arrow's `Score` (backend/utils/helpers.js:54, :84). The score controller reads and writes `score` (backend/controllers/scoreController.js:173, :196, :214). The model keeps both fields of an arrow payload. With lowercase payloads the range check never fires (`Helpers.LowerCaseScoresUnchecked`), and the store's 0..10 check on Arrow.Score (backend/models/Arrow.js:16-23) then refuses the record with a 500.
- The archer listing filter admits the caller's own staged and approved records, not their pending ones (backend/controllers/scoreController.js:41). Reading by id admits any own record (`Scores.OwnPendingReadableNotListed`).
- The Competition model at backend/models/Competition.js declares no RoundID, StartDate, EndDate or Status attribute, although migrations add the columns. Sequelize leaves keys that are not attributes out of the INSERT and the UPDATE. The model records the values the controller passes (see "## Left out").
- `updateEquivalentRound` compares the ids as sent (backend/controllers/roundController.js:400). A request that omits both, such as one sending only an end date, compares `undefined` with `undefined` and is refused with the 400 "Base and equivalent rounds cannot be the same" (`Rounds.RuleStore.UpdateRule`). Only a request carrying at least one id reaches the merge.
- `getEligibleRounds` treats a ClassID of 0 as missing (`!archer.ClassID`). The model does the same.

## Left out

- Competitions.Created: stores RoundID, StartDate, EndDate and Status as the controller passes them. The Competition model declares none of the four (backend/models/Competition.js:4-37), so the deployed code leaves them at the column defaults. The Status enum of the migration is not checked either.
- Competitions.Competition.Update: writes RoundID, StartDate, EndDate and Status under their guards. The deployed code never persists these four, for the same reason.
- Helpers.CalculateAge: reads the date of birth as a calendar date. The source parses a "YYYY-MM-DD" text as UTC midnight and reads it with local getters (backend/utils/helpers.js:8-17). In a time zone behind UTC the birthday then falls a day early. The model holds for time zones at or ahead of UTC.
- Express plumbing, routes and the `auth` middleware: the caller's id and role are parameters.
- Sequelize joins (`include`), ordering, `limit`/`offset` and the `search` LIKE filter of listings. Results are in store order.
- Transactions: createScore and updateScore either commit entirely or leave the record unchanged. createRound and updateRound have no transaction, and the model keeps the partial state.
- `getAllScores` filters other than the archer visibility rule; `getScoreById`'s join and ordering of ends.
- The getAll*, getById and delete* operations of every controller (for example deleteChampionship, deleteRound, deleteArcher and getStagedScores): they are plain lookups and deletions with a 404.
- getPersonalBests and listEquivalentRounds: they are not part of the modelled core.
- The 404 lookup that precedes the ScoreRecord and Competition instance methods. Approve, Reject, UpdateStatus, UpdateScore and Competition.Update act on a found record.
- Scores.ScoreRecord.UpdateStatus: checks the status text before the missing-record 404, as the source does; the lookup itself is outside the method.
- Foreign keys: referenced rows (rounds, divisions, classes, categories) are assumed to exist. The exception is ChampionshipCompetition, whose unknown competition ids give a 500.
- Collation: round names, emails and status texts are compared exactly. MySQL's case-insensitive comparison is not modelled.
- Whitespace for `trim`: the model knows the ASCII whitespace, no-break space, line and paragraph separators and the byte-order mark, not every Unicode space.
- targetSize is modelled as an integer rendered in decimal. A fractional or string size is not modelled.
- Time of day: rules active "today" are compared by date only. The SQL comparison of a DATE with the current DATETIME is not modelled.
- Rounds.RangeLoop: the range rows are collected in a local sequence and stored in one assignment when the loop ends; the source creates them one at a time. Without concurrent requests the final state is the same.
- Rounds.RuleStore.Updated: an instance `update` drops keys whose value is `undefined`, as Sequelize versions 5 and 6 do; the library version is not pinned in the repository.
- The leaderboard's `categoryId` query parameter is read but unused in the source, and so in the model.
- bcrypt and JWT: hashing is a symbolic one-way constructor, and the random salt is not modelled. Login (authController.js) is not modelled apart from the compare predicate.
- Archers.Created: the `isEmail` validator is a parameter; its definition is not modelled.
- Archers.ArcherRegistry.CreateArcher: the new ArcherID is given by the caller (auto-increment is not modelled).
- Archers.ArcherScores: query parameters are present when given and non-empty; a non-numeric archer id (`parseInt` giving NaN) is not modelled; the order by DateShot is not modelled.
- The `req.user` object of the role gate is reduced to the caller's role: `Middleware.RoleCheck` takes `None` for no authenticated user.
- Console logging.
