/** Values shared by every part of the archery club model: optional values,
    JSON request fields, calendar dates, request outcomes and roles. */
module Common {

  datatype Option<T> = None | Some(value: T)

  /** A field of a JSON request body as a controller sees it: missing
      (`undefined`), explicitly `null`, or carrying a value. */
  datatype Field<T> = Absent | Null | Val(v: T)

  /** `f !== undefined` */
  predicate Defined<T>(f: Field<T>)
  {
    !f.Absent?
  }

  /** What a nullable column receives when a defined field is stored: `null` or the value. */
  function Stored<T>(f: Field<T>): Option<T>
  {
    if f.Val? then Some(f.v) else None
  }

  /** JavaScript truthiness of a numeric field (`0` is falsy). */
  predicate TruthyInt(f: Field<int>)
  {
    f.Val? && f.v != 0
  }

  /** JavaScript truthiness of a string field (`""` is falsy). */
  predicate TruthyStr(f: Field<string>)
  {
    f.Val? && f.v != ""
  }

  /** JavaScript truthiness of a field holding an object, array or date (never falsy). */
  predicate Truthy<T>(f: Field<T>)
  {
    f.Val?
  }

  /** `a || b` on numeric fields. */
  function OrInt(a: Field<int>, b: Field<int>): Field<int>
  {
    if TruthyInt(a) then a else b
  }

  /** `a || b` on string fields. */
  function OrStr(a: Field<string>, b: Field<string>): Field<string>
  {
    if TruthyStr(a) then a else b
  }

  /** `a || b` on object fields. */
  function Or<T>(a: Field<T>, b: Field<T>): Field<T>
  {
    if Truthy(a) then a else b
  }

  /** The value a column holds after an instance `update` given field `f`: a missing
      field is dropped from the update and the stored value stays. */
  function Keep<T>(f: Field<T>, stored: T): T
  {
    if f.Val? then f.v else stored
  }

  /** `x || fallback` for a nullable string (`null` and `""` are falsy). */
  function OrElse(s: Option<string>, fallback: string): string
  {
    if s.Some? && s.value != "" then s.value else fallback
  }

  /** The characters `String.prototype.trim` removes that the model knows of. */
  predicate Whitespace(c: char)
  {
    c == ' ' || c == '\t' || c == '\n' || c == '\r' || c == '\U{B}' || c == '\U{C}'
    || c == '\U{A0}' || c == '\U{2028}' || c == '\U{2029}' || c == '\U{FEFF}'
  }

  /** `!s.trim()` */
  predicate Blank(s: string)
  {
    forall i :: 0 <= i < |s| ==> Whitespace(s[i])
  }

  /** A calendar date (DATEONLY column); months and days counted from 1. */
  datatype Date = Date(year: int, month: int, day: int)

  predicate WellFormedDate(d: Date)
  {
    1 <= d.month <= 12 && 1 <= d.day <= 31
  }

  /** Strict chronological order of dates. */
  predicate Before(a: Date, b: Date)
  {
    a.year < b.year
    || (a.year == b.year && a.month < b.month)
    || (a.year == b.year && a.month == b.month && a.day < b.day)
  }

  predicate AtOrBefore(a: Date, b: Date)
  {
    Before(a, b) || a == b
  }

  /** The roles of the Archer.Role enum. */
  datatype Role = Admin | Recorder | Archer

  /** The text of a role as the Role column stores it. */
  function RoleName(r: Role): string
  {
    match r
    case Admin => "admin"
    case Recorder => "recorder"
    case Archer => "archer"
  }

  /** The role a text names, if it is one of the enum's values. */
  function ParseRole(text: string): (r: Option<Role>)
    ensures r.Some? <==> text in ["admin", "recorder", "archer"]
    ensures r.Some? ==> RoleName(r.value) == text
  {
    if text == "admin" then Some(Admin)
    else if text == "recorder" then Some(Recorder)
    else if text == "archer" then Some(Archer)
    else None
  }

  /** Every role survives the trip through its stored text. */
  lemma ParseRoleName(r: Role)
    ensures ParseRole(RoleName(r)) == Some(r)
  {
  }

  predicate IsStaff(r: Role)
  {
    r == Admin || r == Recorder
  }

  /** A stored RoundRange row (what a round's `ranges` hold). */
  datatype RangeRow = RangeRow(
    rangeNo: int, distance: int, ends: int,
    targetFace: string, scoringType: string, arrowsPerEnd: int)

  /** A positioned complaint about a submitted score (the text of the message is not modelled). */
  datatype StructureError =
    | EndCountMismatch(expected: int, got: int)
    | ArrowCountMismatch(endNo: int)
    | InvalidArrowScore(endNo: int, arrowNo: int, score: int)

  /** The HTTP error responses of the controllers. ServerError is the 500 of an
      exception, in particular one raised by the store when it refuses a row. */
  datatype Failure =
    | Unauthorized(message: string)
    | Forbidden(message: string)
    | NotFound(message: string)
    | BadRequest(message: string, details: seq<StructureError>)
    | ServerError

  function StatusCode(f: Failure): int
  {
    match f
    case Unauthorized(_) => 401
    case Forbidden(_) => 403
    case NotFound(_) => 404
    case BadRequest(_, _) => 400
    case ServerError => 500
  }

  datatype Result<T> = Ok(value: T) | Err(failure: Failure)

  function Sum(s: seq<int>): int
  {
    if s == [] then 0 else Sum(s[..|s| - 1]) + s[|s| - 1]
  }

  lemma {:induction false} SumAppend(s: seq<int>, t: seq<int>)
    ensures Sum(s + t) == Sum(s) + Sum(t)
  {
    if t == [] {
      assert s + t == s;
    } else {
      assert (s + t)[..|s + t| - 1] == s + t[..|t| - 1];
      SumAppend(s, t[..|t| - 1]);
    }
  }
}
