/** The archer controller: creating an archer from a request that may spell its
    fields in PascalCase or camelCase, the rules of a profile update, the password
    column and its hashing, and the access filter of an archer's score history. */
module Archers {
  import opened Common
  import opened Helpers
  import opened Scores

  // ---------------------------------------------------------------------
  // Columns

  /** The Archer.Gender enum. */
  datatype Gender = Male | Female

  function GenderName(g: Gender): string
  {
    match g
    case Male => "Male"
    case Female => "Female"
  }

  /** The gender a text names, if it is one of the enum's values. */
  function ParseGender(text: string): (g: Option<Gender>)
    ensures g.Some? <==> text in ["Male", "Female"]
    ensures g.Some? ==> GenderName(g.value) == text
  {
    if text == "Male" then Some(Male)
    else if text == "Female" then Some(Female)
    else None
  }

  /** The PasswordHash column, kept symbolic: bcrypt is an opaque one-way function, so
      a stored value is the plain text or a hash of an earlier value. */
  datatype Secret = Plain(text: string) | Hashed(of: Secret)

  /** `bcrypt.compare(candidate, stored)`: the stored value is one hash of the candidate. */
  predicate Verifies(candidate: string, stored: Secret)
  {
    stored == Hashed(Plain(candidate))
  }

  /** The `beforeCreate` hook: a truthy PasswordHash is hashed once. */
  function CreatedSecret(password: string): (s: Secret)
    ensures password != "" ==> forall q :: Verifies(q, s) <==> q == password
  {
    if password != "" then Hashed(Plain(password)) else Plain(password)
  }

  /** The PasswordHash an update stores as written: the controller hashes the new
      password, and the `beforeUpdate` hook hashes the changed column once more. */
  function UpdatedSecretAsWritten(password: string): Secret
  {
    Hashed(Hashed(Plain(password)))
  }

  /** After a password change as written, no password the user knows is accepted, the
      new one included. (The symbolic Secret has no text for the intermediate hash; a
      real bcrypt digest would verify only against that text, which nobody is shown.) */
  lemma PasswordChangeLocksOut(password: string, candidate: string)
    ensures !Verifies(candidate, UpdatedSecretAsWritten(password))
    ensures !Verifies(password, UpdatedSecretAsWritten(password))
  {
  }

  /** The PasswordHash an update is meant to store: the new password hashed once (the
      controller leaves the hashing to the hook). */
  function UpdatedSecret(password: string): (s: Secret)
    ensures forall q :: Verifies(q, s) <==> q == password
  {
    Hashed(Plain(password))
  }

  /** One row of the Archer table. Timestamps are opaque integers supplied by the caller. */
  datatype ArcherRow = ArcherRow(
    id: int, firstName: string, lastName: string, dateOfBirth: Date, gender: Gender,
    email: string, password: Secret, role: Role, defaultDivisionId: Option<int>,
    classId: Option<int>, createdAt: int, updatedAt: int)

  /** The ClassID of the class named by `determineClass(calculateAge(dob), gender)`, if
      the Class table (`classes`, by name) holds one. */
  function ClassFor(classes: map<string, int>, dob: Date, gender: string, today: Date): (c: Option<int>)
    ensures c.Some? <==> DetermineClass(CalculateAge(dob, today), gender) in classes
    ensures c.Some? ==> c.value == classes[DetermineClass(CalculateAge(dob, today), gender)]
  {
    var name := DetermineClass(CalculateAge(dob, today), gender);
    if name in classes then Some(classes[name]) else None
  }

  // ---------------------------------------------------------------------
  // createArcher

  /** The request fields under one spelling. `division` is `DivisionID` in PascalCase and
      `defaultDivisionId` in camelCase. */
  datatype Spelling = Spelling(
    firstName: Field<string>, lastName: Field<string>, dateOfBirth: Field<Date>,
    gender: Field<string>, email: Field<string>, password: Field<string>,
    role: Field<string>, division: Field<int>)

  datatype CreateRequest = CreateRequest(pascal: Spelling, camel: Spelling)

  /** The `final…` values: the PascalCase field when truthy, else the camelCase one;
      the role falls back to "archer" and the division to null. */
  function Final(q: CreateRequest): (f: Spelling)
    ensures TruthyStr(q.pascal.firstName) ==> f.firstName == q.pascal.firstName
    ensures !TruthyStr(q.pascal.firstName) ==> f.firstName == q.camel.firstName
    ensures TruthyStr(q.pascal.email) ==> f.email == q.pascal.email
    ensures !TruthyStr(q.pascal.email) ==> f.email == q.camel.email
    ensures Truthy(q.pascal.dateOfBirth) ==> f.dateOfBirth == q.pascal.dateOfBirth
    ensures !Truthy(q.pascal.dateOfBirth) ==> f.dateOfBirth == q.camel.dateOfBirth
    ensures TruthyStr(f.role)
    ensures !TruthyStr(q.pascal.role) && !TruthyStr(q.camel.role) ==> f.role == Val("archer")
    ensures f.division.Null? || TruthyInt(f.division)
    ensures !TruthyInt(q.pascal.division) && !TruthyInt(q.camel.division) ==> f.division == Null
  {
    Spelling(
      OrStr(q.pascal.firstName, q.camel.firstName), OrStr(q.pascal.lastName, q.camel.lastName),
      Or(q.pascal.dateOfBirth, q.camel.dateOfBirth), OrStr(q.pascal.gender, q.camel.gender),
      OrStr(q.pascal.email, q.camel.email), OrStr(q.pascal.password, q.camel.password),
      OrStr(OrStr(q.pascal.role, q.camel.role), Val("archer")),
      OrInt(OrInt(q.pascal.division, q.camel.division), Null))
  }

  /** Some archer other than `except` has this email. */
  predicate EmailTaken(archers: map<int, ArcherRow>, email: string, except: int)
  {
    exists k :: k in archers && k != except && archers[k].email == email
  }

  /** What the Archer model accepts: every NOT NULL column present, the enums among
      their values and an Email that passes `isEmail` (the validator is a parameter). */
  predicate Storable(f: Spelling, isEmail: string -> bool)
  {
    f.firstName.Val? && f.lastName.Val? && f.dateOfBirth.Val?
    && f.gender.Val? && ParseGender(f.gender.v).Some?
    && f.email.Val? && isEmail(f.email.v)
    && f.password.Val? && f.role.Val? && ParseRole(f.role.v).Some?
  }

  /** The outcome of createArcher against the archers stored so far. */
  function Created(archers: map<int, ArcherRow>, id: int, q: CreateRequest, classes: map<string, int>,
                   today: Date, now: int, isEmail: string -> bool): (r: Result<ArcherRow>)
    ensures var f := Final(q);
      (r == Err(BadRequest("Email already registered", [])) <==>
        f.email.Val? && EmailTaken(archers, f.email.v, id))
    ensures var f := Final(q);
      (r.Ok? <==> !(f.email.Val? && EmailTaken(archers, f.email.v, id)) && Storable(f, isEmail))
    ensures r.Err? ==> r.failure == ServerError || r.failure == BadRequest("Email already registered", [])
    ensures r.Ok? ==> var f := Final(q); var a := r.value;
      a.id == id && a.firstName == f.firstName.v && a.lastName == f.lastName.v
      && a.dateOfBirth == f.dateOfBirth.v && GenderName(a.gender) == f.gender.v
      && a.email == f.email.v && a.password == CreatedSecret(f.password.v)
      && RoleName(a.role) == f.role.v && a.defaultDivisionId == Stored(f.division)
      && a.classId == ClassFor(classes, f.dateOfBirth.v, f.gender.v, today)
      && a.createdAt == now && a.updatedAt == now
  {
    var f := Final(q);
    if f.email.Val? && EmailTaken(archers, f.email.v, id) then Err(BadRequest("Email already registered", []))
    else if !Storable(f, isEmail) then Err(ServerError)
    else
      Ok(ArcherRow(id, f.firstName.v, f.lastName.v, f.dateOfBirth.v, ParseGender(f.gender.v).value,
                   f.email.v, CreatedSecret(f.password.v), ParseRole(f.role.v).value,
                   Stored(f.division), ClassFor(classes, f.dateOfBirth.v, f.gender.v, today), now, now))
  }

  /** An archer created without a role in either spelling is an archer, and one created
      without a truthy division in either spelling has no default division. */
  lemma CreatedDefaults(archers: map<int, ArcherRow>, id: int, q: CreateRequest, classes: map<string, int>,
                        today: Date, now: int, isEmail: string -> bool)
    requires Created(archers, id, q, classes, today, now, isEmail).Ok?
    ensures var a := Created(archers, id, q, classes, today, now, isEmail).value;
      (!TruthyStr(q.pascal.role) && !TruthyStr(q.camel.role) ==> a.role == Archer)
      && (!TruthyInt(q.pascal.division) && !TruthyInt(q.camel.division) ==> a.defaultDivisionId == None)
  {
    var a := Created(archers, id, q, classes, today, now, isEmail).value;
    if !TruthyStr(q.pascal.role) && !TruthyStr(q.camel.role) {
      assert RoleName(a.role) == "archer";
    }
  }

  // ---------------------------------------------------------------------
  // updateArcher

  datatype UpdateRequest = UpdateRequest(
    firstName: Field<string>, lastName: Field<string>, email: Field<string>,
    dateOfBirth: Field<Date>, gender: Field<string>, role: Field<string>,
    divisionId: Field<int>, password: Field<string>)

  const EmptyUpdate := UpdateRequest(Absent, Absent, Absent, Absent, Absent, Absent, Absent, Absent)

  /** `Role && isAdmin`: the request changes the role. */
  predicate ChangesRole(q: UpdateRequest, isAdmin: bool)
  {
    TruthyStr(q.role) && isAdmin
  }

  /** `Password && Password.trim() !== ""` */
  predicate ChangesPassword(q: UpdateRequest)
  {
    TruthyStr(q.password) && !Blank(q.password.v)
  }

  /** The update `archer.update(updateData)` receives passes the model's validation: the
      enums hold a value of theirs and a new Email passes `isEmail`. */
  predicate Applicable(q: UpdateRequest, isAdmin: bool, isEmail: string -> bool)
  {
    (TruthyStr(q.gender) ==> ParseGender(q.gender.v).Some?)
    && (ChangesRole(q, isAdmin) ==> ParseRole(q.role.v).Some?)
    && (TruthyStr(q.email) ==> isEmail(q.email.v))
  }

  /** The Gender `determineClass` is given: `Gender || archer.Gender`. */
  function GenderText(a: ArcherRow, q: UpdateRequest): string
  {
    if TruthyStr(q.gender) then q.gender.v else GenderName(a.gender)
  }

  /** The profile after the update (`None` when the store refuses it). Only truthy fields
      are copied; a new date of birth recomputes the class when the Class table has it;
      the role changes only for an admin caller, and a staff role clears the division;
      a defined DivisionID is kept only for an archer and becomes null otherwise; a
      non-blank password replaces the stored one. */
  function Revised(a: ArcherRow, q: UpdateRequest, isAdmin: bool, classes: map<string, int>,
                   today: Date, now: int, isEmail: string -> bool): (r: Option<ArcherRow>)
    ensures r.Some? <==> Applicable(q, isAdmin, isEmail)
    ensures r.Some? ==> var b := r.value;
      b.id == a.id && b.createdAt == a.createdAt && b.updatedAt == now
      && (TruthyStr(q.firstName) ==> b.firstName == q.firstName.v)
      && (!TruthyStr(q.firstName) ==> b.firstName == a.firstName)
      && (TruthyStr(q.lastName) ==> b.lastName == q.lastName.v)
      && (!TruthyStr(q.lastName) ==> b.lastName == a.lastName)
      && (TruthyStr(q.email) ==> b.email == q.email.v)
      && (!TruthyStr(q.email) ==> b.email == a.email)
      && (TruthyStr(q.gender) ==> GenderName(b.gender) == q.gender.v)
      && (!TruthyStr(q.gender) ==> b.gender == a.gender)
      && (Truthy(q.dateOfBirth) ==> b.dateOfBirth == q.dateOfBirth.v)
      && (!Truthy(q.dateOfBirth) ==> b.dateOfBirth == a.dateOfBirth)
  {
    if !Applicable(q, isAdmin, isEmail) then None
    else
      var role := RevisedRole(a, q, isAdmin);
      Some(ArcherRow(
        a.id,
        if TruthyStr(q.firstName) then q.firstName.v else a.firstName,
        if TruthyStr(q.lastName) then q.lastName.v else a.lastName,
        if Truthy(q.dateOfBirth) then q.dateOfBirth.v else a.dateOfBirth,
        if TruthyStr(q.gender) then ParseGender(q.gender.v).value else a.gender,
        if TruthyStr(q.email) then q.email.v else a.email,
        if ChangesPassword(q) then UpdatedSecret(q.password.v) else a.password,
        role, RevisedDivision(a, q, isAdmin, role), RevisedClass(a, q, classes, today), a.createdAt, now))
  }

  /** The class after the update: recomputed from a new date of birth when the Class
      table has the class it names, else unchanged. */
  function RevisedClass(a: ArcherRow, q: UpdateRequest, classes: map<string, int>, today: Date): Option<int>
  {
    if Truthy(q.dateOfBirth) && ClassFor(classes, q.dateOfBirth.v, GenderText(a, q), today).Some?
    then ClassFor(classes, q.dateOfBirth.v, GenderText(a, q), today) else a.classId
  }

  function RevisedRole(a: ArcherRow, q: UpdateRequest, isAdmin: bool): Role
    requires ChangesRole(q, isAdmin) ==> ParseRole(q.role.v).Some?
  {
    if ChangesRole(q, isAdmin) then ParseRole(q.role.v).value else a.role
  }

  /** The default division after the update, given the role after it. */
  function RevisedDivision(a: ArcherRow, q: UpdateRequest, isAdmin: bool, role: Role): Option<int>
  {
    if Defined(q.divisionId) then (if role == Archer then Stored(q.divisionId) else None)
    else if ChangesRole(q, isAdmin) && IsStaff(role) then None
    else a.defaultDivisionId
  }

  /** Only an admin changes a role, and then to the role the request names. */
  lemma RoleRule(a: ArcherRow, q: UpdateRequest, isAdmin: bool, classes: map<string, int>,
                 today: Date, now: int, isEmail: string -> bool)
    requires Revised(a, q, isAdmin, classes, today, now, isEmail).Some?
    ensures var b := Revised(a, q, isAdmin, classes, today, now, isEmail).value;
      (!ChangesRole(q, isAdmin) ==> b.role == a.role)
      && (ChangesRole(q, isAdmin) ==> RoleName(b.role) == q.role.v)
  {
  }

  /** The default division after an update: with a DivisionID in the request, that
      division for an archer and none for staff (judged by the role after the update);
      without one, none when an admin has just made the archer staff, else unchanged. */
  lemma DivisionRule(a: ArcherRow, q: UpdateRequest, isAdmin: bool, classes: map<string, int>,
                     today: Date, now: int, isEmail: string -> bool)
    requires Revised(a, q, isAdmin, classes, today, now, isEmail).Some?
    ensures var b := Revised(a, q, isAdmin, classes, today, now, isEmail).value;
      (Defined(q.divisionId) && b.role == Archer ==> b.defaultDivisionId == Stored(q.divisionId))
      && (Defined(q.divisionId) && IsStaff(b.role) ==> b.defaultDivisionId == None)
      && (ChangesRole(q, isAdmin) && IsStaff(b.role) ==> b.defaultDivisionId == None)
      && (!Defined(q.divisionId) && !(ChangesRole(q, isAdmin) && IsStaff(b.role)) ==>
            b.defaultDivisionId == a.defaultDivisionId)
  {
  }

  /** A non-blank password becomes the only one accepted; any other leaves the stored
      secret as it was. */
  lemma PasswordRule(a: ArcherRow, q: UpdateRequest, isAdmin: bool, classes: map<string, int>,
                     today: Date, now: int, isEmail: string -> bool)
    requires Revised(a, q, isAdmin, classes, today, now, isEmail).Some?
    ensures var b := Revised(a, q, isAdmin, classes, today, now, isEmail).value;
      (ChangesPassword(q) ==> forall c :: Verifies(c, b.password) <==> c == q.password.v)
      && (!ChangesPassword(q) ==> b.password == a.password)
  {
  }

  /** A new date of birth moves the archer to the class of the new age and the request's
      gender (or the stored one) when the Class table has it; otherwise the class stays. */
  lemma ClassRule(a: ArcherRow, q: UpdateRequest, isAdmin: bool, classes: map<string, int>,
                  today: Date, now: int, isEmail: string -> bool)
    requires Revised(a, q, isAdmin, classes, today, now, isEmail).Some?
    ensures var b := Revised(a, q, isAdmin, classes, today, now, isEmail).value;
      var name := DetermineClass(CalculateAge(b.dateOfBirth, today), GenderText(a, q));
      (Truthy(q.dateOfBirth) && name in classes ==> b.classId == Some(classes[name]))
      && (!Truthy(q.dateOfBirth) || name !in classes ==> b.classId == a.classId)
  {
  }

  /** An update without fields only touches UpdatedAt. */
  lemma RevisedEmpty(a: ArcherRow, isAdmin: bool, classes: map<string, int>, today: Date, now: int,
                     isEmail: string -> bool)
    ensures Revised(a, EmptyUpdate, isAdmin, classes, today, now, isEmail) == Some(a.(updatedAt := now))
  {
  }

  /** Sending the same update twice leaves the profile as one sending does. */
  lemma RevisedIdempotent(a: ArcherRow, q: UpdateRequest, isAdmin: bool, classes: map<string, int>,
                          today: Date, now: int, isEmail: string -> bool)
    requires Revised(a, q, isAdmin, classes, today, now, isEmail).Some?
    ensures var b := Revised(a, q, isAdmin, classes, today, now, isEmail).value;
      Revised(b, q, isAdmin, classes, today, now, isEmail) == Some(b)
  {
  }

  // ---------------------------------------------------------------------
  // The Archer table

  class ArcherRegistry {
    var archers: map<int, ArcherRow>

    /** Every row sits under its ArcherID and no two archers share an Email (the column
        is unique). */
    ghost predicate Valid()
      reads this
    {
      (forall k :: k in archers ==> archers[k].id == k)
      && (forall j, k :: j in archers && k in archers && j != k ==> archers[j].email != archers[k].email)
    }

    constructor ()
      ensures archers == map[] && Valid()
    {
      archers := map[];
    }

    /** createArcher with the new row's ArcherID chosen by the caller (auto-increment). */
    method CreateArcher(id: int, q: CreateRequest, classes: map<string, int>, today: Date, now: int,
                        isEmail: string -> bool) returns (r: Result<ArcherRow>)
      requires Valid() && id !in archers
      modifies this
      ensures Valid()
      ensures r == Created(old(archers), id, q, classes, today, now, isEmail)
      ensures r.Ok? ==> archers == old(archers)[id := r.value]
      ensures r.Err? ==> archers == old(archers)
    {
      r := Created(archers, id, q, classes, today, now, isEmail);
      if r.Ok? {
        archers := archers[id := r.value];
      }
    }

    /** updateArcher: 403 for an archer editing someone else, 404 for an unknown id, then
        one update of the row, which the unique Email column refuses (500) when another
        archer has the new address. */
    method UpdateArcher(callerId: int, callerRole: Role, id: int, q: UpdateRequest,
                        classes: map<string, int>, today: Date, now: int, isEmail: string -> bool)
      returns (r: Result<ArcherRow>)
      requires Valid()
      modifies this
      ensures Valid()
      ensures callerId != id && callerRole == Archer ==>
        r == Err(Forbidden("Access denied")) && archers == old(archers)
      ensures (callerId == id || IsStaff(callerRole)) && id !in old(archers) ==>
        r == Err(NotFound("Archer not found")) && archers == old(archers)
      ensures (callerId == id || IsStaff(callerRole)) && id in old(archers) ==>
        var b := Revised(old(archers)[id], q, callerRole == Admin, classes, today, now, isEmail);
        (b.Some? && !EmailTaken(old(archers), b.value.email, id) ==>
          r == Ok(b.value) && archers == old(archers)[id := b.value])
        && (!(b.Some? && !EmailTaken(old(archers), b.value.email, id)) ==>
          r == Err(ServerError) && archers == old(archers))
    {
      if callerId != id && callerRole != Admin && callerRole != Recorder {
        return Err(Forbidden("Access denied"));
      }
      if id !in archers {
        return Err(NotFound("Archer not found"));
      }
      var b := Revised(archers[id], q, callerRole == Admin, classes, today, now, isEmail);
      if b.None? || EmailTaken(archers, b.value.email, id) {
        return Err(ServerError);
      }
      archers := archers[id := b.value];
      r := Ok(b.value);
    }
  }

  // ---------------------------------------------------------------------
  // getArcherScores

  /** The query of a score history. Each parameter is present when given and non-empty. */
  datatype HistoryQuery = HistoryQuery(
    status: Option<string>, startDate: Option<Date>, endDate: Option<Date>, roundId: Option<int>)

  /** The Status condition: the requested status, or for an archer caller without one
      approved or staged records. */
  predicate StatusAdmitted(r: ScoreRow, callerRole: Role, q: HistoryQuery)
  {
    if q.status.Some? then StatusName(r.status) == q.status.value
    else callerRole != Archer || r.status == Approved || r.status == Staged
  }

  /** The whole `where` of the history query for archer `id`. */
  predicate InHistory(r: ScoreRow, id: int, callerRole: Role, q: HistoryQuery)
  {
    r.archerId == id && StatusAdmitted(r, callerRole, q)
    && (q.startDate.Some? ==> AtOrBefore(q.startDate.value, r.dateShot))
    && (q.endDate.Some? ==> AtOrBefore(r.dateShot, q.endDate.value))
    && (q.roundId.Some? ==> r.roundId == q.roundId.value)
  }

  function History(rows: seq<ScoreRow>, id: int, callerRole: Role, q: HistoryQuery): (out: seq<ScoreRow>)
    ensures forall r :: r in out <==> r in rows && InHistory(r, id, callerRole, q)
    ensures |out| <= |rows|
  {
    if rows == [] then []
    else
      var last := rows[|rows| - 1];
      History(rows[..|rows| - 1], id, callerRole, q) + (if InHistory(last, id, callerRole, q) then [last] else [])
  }

  /** The history keeps the store's order and every record: the history of a
      concatenation is the histories of its parts, and one record is kept iff it
      qualifies. */
  lemma {:induction false} HistoryAppend(a: seq<ScoreRow>, b: seq<ScoreRow>, id: int, callerRole: Role, q: HistoryQuery)
    ensures History(a + b, id, callerRole, q) == History(a, id, callerRole, q) + History(b, id, callerRole, q)
    decreases |b|
  {
    if b == [] {
      assert a + b == a;
    } else {
      var n := |b| - 1;
      assert a + b == (a + b[..n]) + [b[n]];
      assert b == b[..n] + [b[n]];
      var x := b[n];
      var t := if InHistory(x, id, callerRole, q) then [x] else [];
      calc {
        History(a + b, id, callerRole, q);
        History((a + b[..n]) + [x], id, callerRole, q);
        { HistorySnoc(a + b[..n], x, id, callerRole, q); }
        History(a + b[..n], id, callerRole, q) + t;
        { HistoryAppend(a, b[..n], id, callerRole, q); }
        (History(a, id, callerRole, q) + History(b[..n], id, callerRole, q)) + t;
        History(a, id, callerRole, q) + (History(b[..n], id, callerRole, q) + t);
        { HistorySnoc(b[..n], x, id, callerRole, q); }
        History(a, id, callerRole, q) + History(b[..n] + [x], id, callerRole, q);
        History(a, id, callerRole, q) + History(b, id, callerRole, q);
      }
    }
  }

  lemma HistorySnoc(c: seq<ScoreRow>, x: ScoreRow, id: int, callerRole: Role, q: HistoryQuery)
    ensures History(c + [x], id, callerRole, q) == History(c, id, callerRole, q) + (if InHistory(x, id, callerRole, q) then [x] else [])
  {
    assert (c + [x])[..|c|] == c;
  }

  /** getArcherScores over the stored records (the order by DateShot is not modelled). */
  function ArcherScores(rows: seq<ScoreRow>, callerId: int, callerRole: Role, id: int, q: HistoryQuery)
    : (res: Result<seq<ScoreRow>>)
    ensures res.Err? <==> callerId != id && !IsStaff(callerRole)
    ensures res.Err? ==> res.failure == Forbidden("Access denied")
    ensures res.Ok? ==> forall r :: r in res.value <==> r in rows && InHistory(r, id, callerRole, q)
    ensures res.Ok? ==> forall r :: r in res.value ==> r.archerId == id
    ensures res.Ok? && callerRole == Archer && q.status.None? ==>
      forall r :: r in res.value ==> r.status == Approved || r.status == Staged
  {
    if callerId != id && callerRole != Admin && callerRole != Recorder then Err(Forbidden("Access denied"))
    else Ok(History(rows, id, callerRole, q))
  }

  /** An archer's own unfiltered history holds exactly the records of theirs that the
      archer listing of scores shows them. */
  lemma OwnHistoryAgreesWithListing(rows: seq<ScoreRow>, callerId: int)
    ensures var res := ArcherScores(rows, callerId, Archer, callerId, HistoryQuery(None, None, None, None));
      res.Ok? && forall r :: r in res.value <==> r in ListScores(rows, Archer, callerId) && r.archerId == callerId
  {
  }

  /** An archer who asks for status "pending" sees their own pending records, which the
      unfiltered history leaves out. */
  lemma PendingOnlyOnRequest(rows: seq<ScoreRow>, callerId: int, r: ScoreRow)
    requires r in rows && r.archerId == callerId && r.status == Pending
    ensures r in ArcherScores(rows, callerId, Archer, callerId, HistoryQuery(Some("pending"), None, None, None)).value
    ensures r !in ArcherScores(rows, callerId, Archer, callerId, HistoryQuery(None, None, None, None)).value
  {
  }
}
