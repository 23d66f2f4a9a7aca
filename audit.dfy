// The per-row validator `validate_row` and the collector
// `run_anomaly_checks` of src/abc_user_audit/cli.py.
//
// Each check is specified by a function giving the anomalies it appends;
// `RowAnomalies` chains them in the validator's order, and the two methods
// build the same sequences the way the source does, by appending to an
// accumulator.

module Audit {
  import opened Text
  import opened Calendar

  datatype Option<T> = None | Some(value: T)

  /** What `row.get(key)` hands back: Python's `None` when the key is
      absent, a float NaN for an empty CSV cell, or a string. */
  datatype PyValue = PyNone | NaN | Str(s: string)

  /** One record of the loaded table. `cells` maps each column present in
      the CSV to its stripped string, or to `None` for a NaN cell; the two
      parsed dates are what `pd.to_datetime(..., errors="coerce")` produced,
      `None` standing for NaT. */
  datatype Row = Row(
    cells: map<string, Option<string>>,
    birthParsed: Option<CalendarDate>,
    createdParsed: Option<CalendarDate>)

  /** The `Anomaly` dataclass. */
  datatype Anomaly = Anomaly(rowId: string, column: Option<string>, value: Option<string>, issue: string)

  /** Outcome of `validate_email(s)`: returns, or raises
      `EmailNotValidError` whose text is `reason`. */
  datatype EmailVerdict = EmailValid | EmailNotValid(reason: string)

  /** Outcome of `parse_phone(s, region="US")` followed by
      `is_valid_number`: `NumberParseException` with text `message`, or a
      parsed number and whether it is valid. */
  datatype PhoneVerdict = NumberParseError(message: string) | PhoneNumber(isValid: bool)

  /** The two validation libraries the source calls into. */
  datatype Validators = Validators(validateEmail: string -> EmailVerdict, parsePhone: string -> PhoneVerdict)

  const RequiredColumns: seq<string> :=
    ["first_name", "last_name", "email", "phone", "status", "birth_date", "created_at"]

  const AllowedStatuses: set<string> := {"active", "cancelled"}

  const MinimumAge: nat := 18

  const MissingValueIssue := "missing value"
  const InvalidEmailPrefix := "invalid email: "
  const InvalidPhoneIssue := "invalid phone number"
  const StatusIssue := "status not in allowed set"
  const UnparseableBirthIssue := "unparseable birth_date"
  const UnparseableCreatedIssue := "unparseable created_at"
  const PrecedesIssue := "created_at precedes birth_date"
  const UnderAgeIssue := "user is under 18 at account creation"

  // ---------------------------------------------------------------------
  // Python values
  // ---------------------------------------------------------------------

  function FromCell(c: Option<string>): PyValue
  {
    match c
    case None => NaN
    case Some(s) => Str(s)
  }

  /** `row.get(col)`. */
  function Get(row: Row, col: string): (v: PyValue)
    ensures v == PyNone <==> col !in row.cells
    ensures v == NaN <==> col in row.cells && row.cells[col] == None
    ensures col in row.cells && row.cells[col].Some? ==> v == Str(row.cells[col].value)
  {
    if col in row.cells then FromCell(row.cells[col]) else PyNone
  }

  /** `row.get(col, default)`. */
  function GetOr(row: Row, col: string, default: string): (v: PyValue)
    ensures v != PyNone
    ensures col !in row.cells ==> v == Str(default)
    ensures col in row.cells ==> v == Get(row, col)
  {
    if col in row.cells then FromCell(row.cells[col]) else Str(default)
  }

  /** `pd.isna(v)`: true of `None` and of NaN. */
  predicate IsNA(v: PyValue)
  {
    !v.Str?
  }

  /** `str(v)`. */
  function PyStr(v: PyValue): string
  {
    match v
    case PyNone => "None"
    case NaN => "nan"
    case Str(s) => s
  }

  /** `str(row.get("id", "unknown"))`, the tag of every anomaly of the row. */
  function RowId(row: Row): (id: string)
    ensures "id" !in row.cells ==> id == "unknown"
    ensures "id" in row.cells && row.cells["id"] == None ==> id == "nan"
    ensures "id" in row.cells && row.cells["id"].Some? ==> id == row.cells["id"].value
  {
    PyStr(GetOr(row, "id", "unknown"))
  }

  // ---------------------------------------------------------------------
  // The checks, one specification function each, in validator order
  // ---------------------------------------------------------------------

  /** Check 1 for one column: NA, or blank once stripped. */
  predicate IsMissing(row: Row, col: string)
  {
    IsNA(Get(row, col)) || Strip(PyStr(Get(row, col))) == ""
  }

  function MissingValue(rowId: string, col: string): Anomaly
  {
    Anomaly(rowId, Some(col), None, MissingValueIssue)
  }

  /** Check 1 over the columns `cols`, in their order. */
  function MissingFields(row: Row, cols: seq<string>): seq<Anomaly>
  {
    if cols == [] then []
    else
      MissingFields(row, cols[..|cols| - 1])
        + (if IsMissing(row, cols[|cols| - 1]) then [MissingValue(RowId(row), cols[|cols| - 1])] else [])
  }

  /** Check 2: a non-NA email that `validate_email` rejects. */
  function EmailFindings(row: Row, v: Validators): seq<Anomaly>
  {
    var email := Get(row, "email");
    if IsNA(email) then []
    else
      match v.validateEmail(PyStr(email))
      case EmailValid => []
      case EmailNotValid(reason) =>
        [Anomaly(RowId(row), Some("email"), Some(PyStr(email)), InvalidEmailPrefix + reason)]
  }

  /** Check 3: a non-NA phone that does not parse, or parses to an invalid number. */
  function PhoneFindings(row: Row, v: Validators): seq<Anomaly>
  {
    var phone := Get(row, "phone");
    if IsNA(phone) then []
    else
      match v.parsePhone(PyStr(phone))
      case PhoneNumber(isValid) =>
        if isValid then [] else [Anomaly(RowId(row), Some("phone"), Some(PyStr(phone)), InvalidPhoneIssue)]
      case NumberParseError(message) =>
        [Anomaly(RowId(row), Some("phone"), Some(PyStr(phone)), InvalidPhoneIssue + ": " + message)]
  }

  /** `str(row.get("status", "")).lower()`. */
  function StatusValue(row: Row): (s: string)
    ensures "status" !in row.cells ==> s == ""
    ensures "status" in row.cells && row.cells["status"] == None ==> s == "nan"
    ensures "status" in row.cells && row.cells["status"].Some? ==> s == Lower(row.cells["status"].value)
  {
    Lower(PyStr(GetOr(row, "status", "")))
  }

  /** Check 4: a non-empty lower-cased status outside the allowed set. */
  function StatusFindings(row: Row): seq<Anomaly>
  {
    var status := StatusValue(row);
    if status != "" && status !in AllowedStatuses then
      [Anomaly(RowId(row), Some("status"), Some(status), StatusIssue)]
    else []
  }

  /** Check 5: each date that did not parse, with its raw text. */
  function ParseFindings(row: Row): seq<Anomaly>
  {
    (if row.birthParsed.None? then
       [Anomaly(RowId(row), Some("birth_date"), Some(PyStr(Get(row, "birth_date"))), UnparseableBirthIssue)]
     else [])
    + (if row.createdParsed.None? then
         [Anomaly(RowId(row), Some("created_at"), Some(PyStr(Get(row, "created_at"))), UnparseableCreatedIssue)]
       else [])
  }

  /** Check 6: when both dates parsed, creation before birth, or else fewer
      than 18 whole years between them. */
  function DateFindings(row: Row): seq<Anomaly>
  {
    match (row.birthParsed, row.createdParsed)
    case (Some(birth), Some(created)) =>
      if Before(created, birth) then
        [Anomaly(RowId(row), Some("created_at"), Some(PyStr(Get(row, "created_at"))), PrecedesIssue)]
      else if WholeYears(birth, created) < MinimumAge then
        [Anomaly(RowId(row), Some("birth_date"), Some(PyStr(Get(row, "birth_date"))), UnderAgeIssue)]
      else []
    case _ => []
  }

  /** What `validate_row(row)` returns: the six checks' anomalies in order. */
  function RowAnomalies(row: Row, v: Validators): seq<Anomaly>
  {
    MissingFields(row, RequiredColumns) + EmailFindings(row, v) + PhoneFindings(row, v)
      + StatusFindings(row) + ParseFindings(row) + DateFindings(row)
  }

  /** What `run_anomaly_checks(df)` collects: the rows' anomalies, row after row. */
  function CollectAnomalies(rows: seq<Row>, v: Validators): seq<Anomaly>
  {
    if rows == [] then []
    else CollectAnomalies(rows[..|rows| - 1], v) + RowAnomalies(rows[|rows| - 1], v)
  }

  // ---------------------------------------------------------------------
  // The source's procedures
  // ---------------------------------------------------------------------

  /** `validate_row`: runs the checks in order, each appending what it
      finds to one accumulator, as the `add` closure does. */
  method ValidateRow(row: Row, v: Validators) returns (anomalies: seq<Anomaly>)
    ensures anomalies == RowAnomalies(row, v)
  {
    anomalies := [];
    var rowId := PyStr(GetOr(row, "id", "unknown"));
    anomalies := CheckRequiredFields(row, rowId, anomalies);
    assert anomalies == MissingFields(row, RequiredColumns);
    anomalies := CheckEmail(row, v, rowId, anomalies);
    anomalies := CheckPhone(row, v, rowId, anomalies);
    anomalies := CheckStatus(row, rowId, anomalies);
    anomalies := CheckDates(row, rowId, anomalies);
  }

  /** The "Required fields" loop of `validate_row`. */
  method CheckRequiredFields(row: Row, rowId: string, acc: seq<Anomaly>) returns (anomalies: seq<Anomaly>)
    requires rowId == RowId(row)
    ensures anomalies == acc + MissingFields(row, RequiredColumns)
  {
    anomalies := acc;
    for i := 0 to |RequiredColumns|
      invariant anomalies == acc + MissingFields(row, RequiredColumns[..i])
    {
      var col := RequiredColumns[i];
      var cell := Get(row, col);
      if IsNA(cell) || Strip(PyStr(cell)) == "" {
        anomalies := anomalies + [Anomaly(rowId, Some(col), None, MissingValueIssue)];
      }
      assert RequiredColumns[..i + 1][..i] == RequiredColumns[..i];
    }
    assert RequiredColumns[..|RequiredColumns|] == RequiredColumns;
  }

  /** The "Email validity" block of `validate_row`. */
  method CheckEmail(row: Row, v: Validators, rowId: string, acc: seq<Anomaly>) returns (anomalies: seq<Anomaly>)
    requires rowId == RowId(row)
    ensures anomalies == acc + EmailFindings(row, v)
  {
    anomalies := acc;
    var emailValue := Get(row, "email");
    if !IsNA(emailValue) {
      match v.validateEmail(PyStr(emailValue))
      case EmailValid =>
      case EmailNotValid(reason) =>
        anomalies := anomalies + [Anomaly(rowId, Some("email"), Some(PyStr(emailValue)), InvalidEmailPrefix + reason)];
    }
  }

  /** The "Phone validity" block of `validate_row`. */
  method CheckPhone(row: Row, v: Validators, rowId: string, acc: seq<Anomaly>) returns (anomalies: seq<Anomaly>)
    requires rowId == RowId(row)
    ensures anomalies == acc + PhoneFindings(row, v)
  {
    anomalies := acc;
    var phoneValue := Get(row, "phone");
    if !IsNA(phoneValue) {
      match v.parsePhone(PyStr(phoneValue))
      case PhoneNumber(isValid) =>
        if !isValid {
          anomalies := anomalies + [Anomaly(rowId, Some("phone"), Some(PyStr(phoneValue)), InvalidPhoneIssue)];
        }
      case NumberParseError(message) =>
        anomalies := anomalies + [Anomaly(rowId, Some("phone"), Some(PyStr(phoneValue)), InvalidPhoneIssue + ": " + message)];
    }
  }

  /** The "Status validity" block of `validate_row`. */
  method CheckStatus(row: Row, rowId: string, acc: seq<Anomaly>) returns (anomalies: seq<Anomaly>)
    requires rowId == RowId(row)
    ensures anomalies == acc + StatusFindings(row)
  {
    anomalies := acc;
    var statusValue := Lower(PyStr(GetOr(row, "status", "")));
    if statusValue != "" && statusValue !in AllowedStatuses {
      anomalies := anomalies + [Anomaly(rowId, Some("status"), Some(statusValue), StatusIssue)];
    }
  }

  /** The "Date parsing and age checks" block of `validate_row`. */
  method CheckDates(row: Row, rowId: string, acc: seq<Anomaly>) returns (anomalies: seq<Anomaly>)
    requires rowId == RowId(row)
    ensures anomalies == acc + ParseFindings(row) + DateFindings(row)
  {
    anomalies := acc;
    var birth := row.birthParsed;
    var created := row.createdParsed;
    if birth.None? {
      anomalies := anomalies + [Anomaly(rowId, Some("birth_date"), Some(PyStr(Get(row, "birth_date"))), UnparseableBirthIssue)];
    }
    if created.None? {
      anomalies := anomalies + [Anomaly(rowId, Some("created_at"), Some(PyStr(Get(row, "created_at"))), UnparseableCreatedIssue)];
    }
    assert anomalies == acc + ParseFindings(row);
    if birth.Some? && created.Some? {
      if Before(created.value, birth.value) {
        anomalies := anomalies + [Anomaly(rowId, Some("created_at"), Some(PyStr(Get(row, "created_at"))), PrecedesIssue)];
      } else {
        var ageYears := WholeYears(birth.value, created.value);
        if ageYears < MinimumAge {
          anomalies := anomalies + [Anomaly(rowId, Some("birth_date"), Some(PyStr(Get(row, "birth_date"))), UnderAgeIssue)];
        }
      }
    }
  }

  /** One more row appends that row's anomalies to those collected so far. */
  lemma CollectStep(rows: seq<Row>, i: nat, v: Validators)
    requires i < |rows|
    ensures CollectAnomalies(rows[..i + 1], v) == CollectAnomalies(rows[..i], v) + RowAnomalies(rows[i], v)
  {
    assert rows[..i + 1][..i] == rows[..i];
  }

  /** `run_anomaly_checks`: validates the rows in table order and extends
      one list with each row's anomalies. */
  method RunAnomalyChecks(rows: seq<Row>, v: Validators) returns (allAnomalies: seq<Anomaly>)
    ensures allAnomalies == CollectAnomalies(rows, v)
  {
    allAnomalies := [];
    for i := 0 to |rows|
      invariant allAnomalies == CollectAnomalies(rows[..i], v)
    {
      var rowAnomalies := ValidateRow(rows[i], v);
      CollectStep(rows, i, v);
      allAnomalies := allAnomalies + rowAnomalies;
    }
    assert rows[..|rows|] == rows;
  }
}
