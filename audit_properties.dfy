// What the validator and the collector promise, proved about the
// specification functions of module Audit (and so, through the methods'
// postconditions, about `validate_row` and `run_anomaly_checks`).

module AuditProperties {
  import opened Text
  import opened Calendar
  import opened Audit

  // ---------------------------------------------------------------------
  // Helpers: positions in a column list, and the anomalies of one column
  // other than "missing value"
  // ---------------------------------------------------------------------

  predicate Distinct(cols: seq<string>)
  {
    forall i, j | 0 <= i < j < |cols| :: cols[i] != cols[j]
  }

  /** Position of `x` in `s`. */
  function IndexOf(s: seq<string>, x: string): (k: nat)
    requires x in s
    ensures k < |s| && s[k] == x
    ensures Distinct(s) ==> forall j | 0 <= j < |s| && s[j] == x :: j == k
  {
    if s[0] == x then 0 else 1 + IndexOf(s[1..], x)
  }

  /** The anomalies of `s` on column `col` other than "missing value", in order. */
  function Reports(s: seq<Anomaly>, col: string): (r: seq<Anomaly>)
    ensures forall a :: a in r <==> a in s && a.column == Some(col) && a.issue != MissingValueIssue
  {
    if s == [] then []
    else (if s[0].column == Some(col) && s[0].issue != MissingValueIssue then [s[0]] else [])
           + Reports(s[1..], col)
  }

  lemma {:induction false} ReportsAppend(a: seq<Anomaly>, b: seq<Anomaly>, col: string)
    ensures Reports(a + b, col) == Reports(a, col) + Reports(b, col)
  {
    if a == [] {
      assert a + b == b;
    } else {
      assert (a + b)[0] == a[0];
      assert (a + b)[1..] == a[1..] + b;
      ReportsAppend(a[1..], b, col);
    }
  }

  /** The checks after the first, in order. */
  function LaterFindings(row: Row, v: Validators): seq<Anomaly>
  {
    EmailFindings(row, v) + PhoneFindings(row, v) + StatusFindings(row) + ParseFindings(row) + DateFindings(row)
  }

  // ---------------------------------------------------------------------
  // Facts about the column names and issue texts
  // ---------------------------------------------------------------------

  lemma RequiredColumnsDistinct()
    ensures Distinct(RequiredColumns)
  {
  }

  /** No issue of checks 2-6 reads "missing value". */
  lemma LaterIssuesAreNotMissing(reason: string, message: string)
    ensures InvalidEmailPrefix + reason != MissingValueIssue
    ensures InvalidPhoneIssue != MissingValueIssue
    ensures InvalidPhoneIssue + ": " + message != MissingValueIssue
    ensures StatusIssue != MissingValueIssue
    ensures UnparseableBirthIssue != MissingValueIssue
    ensures UnparseableCreatedIssue != MissingValueIssue
    ensures PrecedesIssue != MissingValueIssue
    ensures UnderAgeIssue != MissingValueIssue
  {
  }

  // ---------------------------------------------------------------------
  // Check 1: required fields
  // ---------------------------------------------------------------------

  /** Every anomaly of check 1 is a "missing value" on one of the listed
      columns that is missing, with no value and the row's id. */
  lemma {:induction false} MissingFieldsShape(row: Row, cols: seq<string>)
    ensures forall a | a in MissingFields(row, cols) ::
      && a.column.Some? && a.column.value in cols && IsMissing(row, a.column.value)
      && a == MissingValue(RowId(row), a.column.value)
  {
    if cols != [] {
      MissingFieldsShape(row, cols[..|cols| - 1]);
    }
  }

  /** Over distinct columns, check 1 reports each missing column exactly
      once and no other. */
  lemma {:induction false} MissingFieldsCount(row: Row, cols: seq<string>, col: string)
    requires Distinct(cols)
    ensures multiset(MissingFields(row, cols))[MissingValue(RowId(row), col)]
      == if col in cols && IsMissing(row, col) then 1 else 0
  {
    if cols != [] {
      var init := cols[..|cols| - 1];
      var last := cols[|cols| - 1];
      MissingFieldsCount(row, init, col);
      assert cols == init + [last];
      assert col in cols <==> col in init || col == last;
      if col == last {
        assert col !in init;
      }
    }
  }

  /** Dropping the last column keeps the positions of the others. */
  lemma IndexOfInit(cols: seq<string>, x: string)
    requires Distinct(cols) && cols != [] && x in cols[..|cols| - 1]
    ensures IndexOf(cols, x) == IndexOf(cols[..|cols| - 1], x) < |cols| - 1
  {
    var p := IndexOf(cols[..|cols| - 1], x);
    assert cols[p] == x;
  }

  /** Each anomaly of `m` is on a column of `cols`, and their columns
      appear in `m` in the order of `cols`. */
  predicate InColumnOrder(m: seq<Anomaly>, cols: seq<string>)
  {
    && (forall i | 0 <= i < |m| :: m[i].column.Some? && m[i].column.value in cols)
    && forall i, j | 0 <= i < j < |m| ::
         IndexOf(cols, m[i].column.value) < IndexOf(cols, m[j].column.value)
  }

  /** Check 1 lists its anomalies in the order of the columns. */
  lemma {:induction false} MissingFieldsOrdered(row: Row, cols: seq<string>)
    requires Distinct(cols)
    ensures InColumnOrder(MissingFields(row, cols), cols)
  {
    MissingFieldsShape(row, cols);
    if cols != [] {
      var init := cols[..|cols| - 1];
      var last := cols[|cols| - 1];
      assert Distinct(init);
      MissingFieldsOrdered(row, init);
      MissingFieldsShape(row, init);
      var m0 := MissingFields(row, init);
      var m := MissingFields(row, cols);
      forall i, j | 0 <= i < j < |m|
        ensures m[i].column.Some? && m[j].column.Some? && m[i].column.value in cols && m[j].column.value in cols
        ensures IndexOf(cols, m[i].column.value) < IndexOf(cols, m[j].column.value)
      {
        assert m[i] == m0[i] && m[i] in m0;
        IndexOfInit(cols, m[i].column.value);
        if j < |m0| {
          assert m[j] == m0[j] && m[j] in m0;
          IndexOfInit(cols, m[j].column.value);
          assert IndexOf(init, m0[i].column.value) < IndexOf(init, m0[j].column.value);
        } else {
          assert m[j] == MissingValue(RowId(row), last);
          assert IndexOf(cols, last) == |cols| - 1;
        }
      }
    }
  }

  /** `a` is a report of checks 2-6 of `row` on column `col`. */
  predicate IsReport(a: Anomaly, row: Row, col: string)
  {
    a.column == Some(col) && a.issue != MissingValueIssue && a.rowId == RowId(row) && a.value.Some?
  }

  lemma EmailFindingsShape(row: Row, v: Validators)
    ensures forall a | a in EmailFindings(row, v) :: IsReport(a, row, "email")
  {
    var email := PyStr(Get(row, "email"));
    var reason := match v.validateEmail(email) case EmailNotValid(r) => r case EmailValid => "";
    LaterIssuesAreNotMissing(reason, "");
  }

  lemma PhoneFindingsShape(row: Row, v: Validators)
    ensures forall a | a in PhoneFindings(row, v) :: IsReport(a, row, "phone")
  {
    var phone := PyStr(Get(row, "phone"));
    var message := match v.parsePhone(phone) case NumberParseError(m) => m case PhoneNumber(_) => "";
    LaterIssuesAreNotMissing("", message);
  }

  lemma StatusFindingsShape(row: Row)
    ensures forall a | a in StatusFindings(row) :: IsReport(a, row, "status")
  {
    LaterIssuesAreNotMissing("", "");
  }

  lemma DateFindingsShape(row: Row)
    ensures forall a | a in ParseFindings(row) + DateFindings(row) ::
      IsReport(a, row, "birth_date") || IsReport(a, row, "created_at")
  {
    LaterIssuesAreNotMissing("", "");
  }

  /** The anomalies of checks 2-6: none is a "missing value", each carries
      the row's id, a required column and a value. */
  lemma LaterFindingsShape(row: Row, v: Validators)
    ensures forall a | a in LaterFindings(row, v) ::
      && a.issue != MissingValueIssue && a.rowId == RowId(row)
      && a.column.Some? && a.column.value in RequiredColumns && a.value.Some?
  {
    EmailFindingsShape(row, v);
    PhoneFindingsShape(row, v);
    StatusFindingsShape(row);
    DateFindingsShape(row);
    var e, p, s, pd := EmailFindings(row, v), PhoneFindings(row, v), StatusFindings(row), ParseFindings(row) + DateFindings(row);
    assert LaterFindings(row, v) == e + p + s + pd;
    forall a: Anomaly | a in e + p + s + pd
      ensures && a.issue != MissingValueIssue && a.rowId == RowId(row)
              && a.column.Some? && a.column.value in RequiredColumns && a.value.Some?
    {
      if a in e {
        assert RequiredColumns[2] == "email";
      } else if a in p {
        assert RequiredColumns[3] == "phone";
      } else if a in s {
        assert RequiredColumns[4] == "status";
      } else {
        assert RequiredColumns[5] == "birth_date" && RequiredColumns[6] == "created_at";
      }
    }
  }

  /** Regrouping appended anomaly lists, as the accumulator's appends allow. */
  lemma AppendAssociates(a: seq<Anomaly>, b: seq<Anomaly>, c: seq<Anomaly>)
    ensures a + b + c == a + (b + c)
  {
  }

  lemma LastOfAppend(a: seq<Row>, b: seq<Row>)
    requires b != []
    ensures (a + b)[..|a + b| - 1] == a + b[..|b| - 1]
    ensures (a + b)[|a + b| - 1] == b[|b| - 1]
  {
  }

  lemma RowAnomaliesSplit(row: Row, v: Validators)
    ensures RowAnomalies(row, v) == MissingFields(row, RequiredColumns) + LaterFindings(row, v)
  {
    var m, e, p, s, pa, d := MissingFields(row, RequiredColumns), EmailFindings(row, v), PhoneFindings(row, v),
      StatusFindings(row), ParseFindings(row), DateFindings(row);
    AppendAssociates(m, e, p);
    AppendAssociates(m, e + p, s);
    AppendAssociates(m, e + p + s, pa);
    AppendAssociates(m, e + p + s + pa, d);
  }

  /** The "missing value" anomalies come first, one per missing required
      column in the order first_name ... created_at; no later anomaly is a
      "missing value". */
  lemma MissingValuesFirst(row: Row, v: Validators)
    ensures var all := RowAnomalies(row, v);
      var k := |MissingFields(row, RequiredColumns)|;
      && k <= |all|
      && (forall i | 0 <= i < |all| :: all[i].issue == MissingValueIssue <==> i < k)
      && InColumnOrder(all[..k], RequiredColumns)
  {
    RequiredColumnsDistinct();
    RowAnomaliesSplit(row, v);
    LaterFindingsShape(row, v);
    MissingFieldsShape(row, RequiredColumns);
    MissingFieldsOrdered(row, RequiredColumns);
    var all := RowAnomalies(row, v);
    var m := MissingFields(row, RequiredColumns);
    var later := LaterFindings(row, v);
    forall i | 0 <= i < |all| ensures all[i].issue == MissingValueIssue <==> i < |m| {
      if i < |m| {
        assert all[i] == m[i] && m[i] in m;
      } else {
        assert all[i] == later[i - |m|] && later[i - |m|] in later;
      }
    }
    assert all[..|m|] == m;
  }

  /** Each required column that is missing or blank yields exactly one
      `(col, "missing value", None)` anomaly; one that is present yields
      none; and every "missing value" anomaly is one of these. */
  lemma MissingValueReportedOnce(row: Row, v: Validators, col: string)
    requires col in RequiredColumns
    ensures multiset(RowAnomalies(row, v))[MissingValue(RowId(row), col)] == if IsMissing(row, col) then 1 else 0
    ensures forall a | a in RowAnomalies(row, v) && a.issue == MissingValueIssue ::
      a.column.Some? && a.column.value in RequiredColumns && IsMissing(row, a.column.value)
      && a == MissingValue(RowId(row), a.column.value)
  {
    RequiredColumnsDistinct();
    RowAnomaliesSplit(row, v);
    LaterFindingsShape(row, v);
    MissingFieldsShape(row, RequiredColumns);
    MissingFieldsCount(row, RequiredColumns, col);
    assert MissingValue(RowId(row), col) !in LaterFindings(row, v);
  }

  /** A required column's "missing value" anomaly is present exactly when
      the column is missing or blank. */
  lemma MissingValueIn(row: Row, v: Validators, col: string)
    requires col in RequiredColumns
    ensures MissingValue(RowId(row), col) in RowAnomalies(row, v) <==> IsMissing(row, col)
  {
    MissingValueReportedOnce(row, v, col);
  }

  // ---------------------------------------------------------------------
  // Row id and columns
  // ---------------------------------------------------------------------

  /** Every anomaly of a row carries that row's id (`str(id)`, "nan" for a
      NaN id, "unknown" without an id column) and names one of the seven
      required columns. */
  lemma EveryAnomalyCarriesRowId(row: Row, v: Validators)
    ensures forall a | a in RowAnomalies(row, v) ::
      a.rowId == RowId(row) && a.column.Some? && a.column.value in RequiredColumns
  {
    RowAnomaliesSplit(row, v);
    LaterFindingsShape(row, v);
    MissingFieldsShape(row, RequiredColumns);
  }

  // ---------------------------------------------------------------------
  // Checks 2-6, column by column
  // ---------------------------------------------------------------------

  lemma ColumnNamesDiffer()
    ensures "email" != "phone" && "email" != "status" && "email" != "birth_date" && "email" != "created_at"
    ensures "phone" != "status" && "phone" != "birth_date" && "phone" != "created_at"
    ensures "status" != "birth_date" && "status" != "created_at" && "birth_date" != "created_at"
  {
  }

  lemma ReportsConcat(a: seq<Anomaly>, b: seq<Anomaly>, c: seq<Anomaly>, d: seq<Anomaly>, e: seq<Anomaly>, f: seq<Anomaly>, col: string)
    ensures Reports(a + b + c + d + e + f, col)
      == Reports(a, col) + Reports(b, col) + Reports(c, col) + Reports(d, col) + Reports(e, col) + Reports(f, col)
  {
    ReportsAppend(a, b, col);
    ReportsAppend(a + b, c, col);
    ReportsAppend(a + b + c, d, col);
    ReportsAppend(a + b + c + d, e, col);
    ReportsAppend(a + b + c + d + e, f, col);
  }

  /** When the first four parts report nothing on `col`, the last two report
      everything. */
  lemma ReportsOfLastTwo(a: seq<Anomaly>, b: seq<Anomaly>, c: seq<Anomaly>, d: seq<Anomaly>, e: seq<Anomaly>, f: seq<Anomaly>, col: string)
    requires Reports(a, col) == [] && Reports(b, col) == [] && Reports(c, col) == [] && Reports(d, col) == []
    ensures Reports(a + b + c + d + e + f, col) == Reports(e, col) + Reports(f, col)
  {
    ReportsConcat(a, b, c, d, e, f, col);
  }

  /** A sequence with nothing to report on `col` reports nothing. */
  lemma ReportsNone(s: seq<Anomaly>, col: string)
    requires forall a | a in s :: a.column != Some(col) || a.issue == MissingValueIssue
    ensures Reports(s, col) == []
  {
    if Reports(s, col) != [] {
      assert Reports(s, col)[0] in Reports(s, col);
    }
  }

  /** A sequence made only of reports on `col` is its own report. */
  lemma {:induction false} ReportsAll(s: seq<Anomaly>, col: string)
    requires forall a | a in s :: a.column == Some(col) && a.issue != MissingValueIssue
    ensures Reports(s, col) == s
  {
    if s != [] {
      assert s[0] in s;
      forall a | a in s[1..] ensures a.column == Some(col) && a.issue != MissingValueIssue {
        assert a in s;
      }
      ReportsAll(s[1..], col);
    }
  }

  /** Check 1 reports nothing but missing values, on any column. */
  lemma MissingFieldsReportNothing(row: Row, col: string)
    ensures Reports(MissingFields(row, RequiredColumns), col) == []
  {
    MissingFieldsShape(row, RequiredColumns);
    ReportsNone(MissingFields(row, RequiredColumns), col);
  }

  /** Check 2 reports on email only. */
  lemma EmailFindingsReportOn(row: Row, v: Validators, col: string)
    ensures Reports(EmailFindings(row, v), col) == if col == "email" then EmailFindings(row, v) else []
  {
    EmailFindingsShape(row, v);
    if col == "email" {
      ReportsAll(EmailFindings(row, v), col);
    } else {
      ReportsNone(EmailFindings(row, v), col);
    }
  }

  /** Check 3 reports on phone only. */
  lemma PhoneFindingsReportOn(row: Row, v: Validators, col: string)
    ensures Reports(PhoneFindings(row, v), col) == if col == "phone" then PhoneFindings(row, v) else []
  {
    PhoneFindingsShape(row, v);
    if col == "phone" {
      ReportsAll(PhoneFindings(row, v), col);
    } else {
      ReportsNone(PhoneFindings(row, v), col);
    }
  }

  /** Check 4 reports on status only. */
  lemma StatusFindingsReportOn(row: Row, col: string)
    ensures Reports(StatusFindings(row), col) == if col == "status" then StatusFindings(row) else []
  {
    StatusFindingsShape(row);
    if col == "status" {
      ReportsAll(StatusFindings(row), col);
    } else {
      ReportsNone(StatusFindings(row), col);
    }
  }

  /** Checks 5 and 6 report on the two date columns only. */
  lemma DateFindingsReportNothingOn(row: Row, col: string)
    requires col != "birth_date" && col != "created_at"
    ensures Reports(ParseFindings(row), col) == [] && Reports(DateFindings(row), col) == []
  {
    DateFindingsShape(row);
    ReportsNone(ParseFindings(row), col);
    ReportsNone(DateFindings(row), col);
  }

  /** The non-"missing value" anomalies on email are exactly those of check 2. */
  lemma EmailReportsAreCheck2(row: Row, v: Validators)
    ensures Reports(RowAnomalies(row, v), "email") == EmailFindings(row, v)
  {
    ReportsConcat(MissingFields(row, RequiredColumns), EmailFindings(row, v), PhoneFindings(row, v),
      StatusFindings(row), ParseFindings(row), DateFindings(row), "email");
    ColumnNamesDiffer();
    MissingFieldsReportNothing(row, "email");
    EmailFindingsReportOn(row, v, "email");
    PhoneFindingsReportOn(row, v, "email");
    StatusFindingsReportOn(row, "email");
    DateFindingsReportNothingOn(row, "email");
  }

  /** An email anomaly appears only for a non-NA email that the validator
      rejects, at most once, with the original text and an issue starting
      with "invalid email: ". */
  lemma EmailReports(row: Row, v: Validators)
    ensures var r := Reports(RowAnomalies(row, v), "email");
      var email := Get(row, "email");
      && |r| <= 1
      && (|r| == 1 <==> !IsNA(email) && v.validateEmail(PyStr(email)).EmailNotValid?)
      && (|r| == 1 ==>
            && r[0].rowId == RowId(row) && r[0].value == Some(PyStr(email))
            && InvalidEmailPrefix <= r[0].issue
            && r[0].issue == InvalidEmailPrefix + v.validateEmail(PyStr(email)).reason)
  {
    EmailReportsAreCheck2(row, v);
  }

  /** A non-NA blank email is reported twice when the validator rejects it:
      as missing, and as an invalid email. */
  lemma BlankEmailReportedTwice(row: Row, v: Validators)
    requires "email" in row.cells && row.cells["email"].Some?
    requires Strip(row.cells["email"].value) == ""
    requires v.validateEmail(row.cells["email"].value).EmailNotValid?
    ensures MissingValue(RowId(row), "email") in RowAnomalies(row, v)
    ensures |Reports(RowAnomalies(row, v), "email")| == 1
  {
    assert RequiredColumns[2] == "email";
    MissingValueIn(row, v, "email");
    EmailReports(row, v);
  }

  /** The non-"missing value" anomalies on phone are exactly those of check 3. */
  lemma PhoneReportsAreCheck3(row: Row, v: Validators)
    ensures Reports(RowAnomalies(row, v), "phone") == PhoneFindings(row, v)
  {
    ReportsConcat(MissingFields(row, RequiredColumns), EmailFindings(row, v), PhoneFindings(row, v),
      StatusFindings(row), ParseFindings(row), DateFindings(row), "phone");
    ColumnNamesDiffer();
    MissingFieldsReportNothing(row, "phone");
    EmailFindingsReportOn(row, v, "phone");
    PhoneFindingsReportOn(row, v, "phone");
    StatusFindingsReportOn(row, "phone");
    DateFindingsReportNothingOn(row, "phone");
  }

  /** A non-NA phone yields at most one phone anomaly: "invalid phone
      number" when it parses to an invalid number, "invalid phone number:
      <message>" when it does not parse, never both. */
  lemma PhoneReports(row: Row, v: Validators)
    ensures var r := Reports(RowAnomalies(row, v), "phone");
      var phone := Get(row, "phone");
      var verdict := v.parsePhone(PyStr(phone));
      && |r| <= 1
      && (|r| == 1 <==> !IsNA(phone) && verdict != PhoneNumber(true))
      && (|r| == 1 ==>
            && r[0].rowId == RowId(row) && r[0].value == Some(PyStr(phone))
            && (verdict.PhoneNumber? ==> r[0].issue == InvalidPhoneIssue)
            && (verdict.NumberParseError? ==> r[0].issue == InvalidPhoneIssue + ": " + verdict.message))
  {
    PhoneReportsAreCheck3(row, v);
  }

  /** The non-"missing value" anomalies on status are exactly those of check 4. */
  lemma StatusReportsAreCheck4(row: Row, v: Validators)
    ensures Reports(RowAnomalies(row, v), "status") == StatusFindings(row)
  {
    ReportsConcat(MissingFields(row, RequiredColumns), EmailFindings(row, v), PhoneFindings(row, v),
      StatusFindings(row), ParseFindings(row), DateFindings(row), "status");
    ColumnNamesDiffer();
    MissingFieldsReportNothing(row, "status");
    EmailFindingsReportOn(row, v, "status");
    PhoneFindingsReportOn(row, v, "status");
    StatusFindingsReportOn(row, "status");
    DateFindingsReportNothingOn(row, "status");
  }

  /** The status is lower-cased; a non-empty status outside {"active",
      "cancelled"} yields exactly one anomaly carrying the lower-cased text,
      any other status none. */
  lemma StatusReports(row: Row, v: Validators)
    ensures var r := Reports(RowAnomalies(row, v), "status");
      var status := StatusValue(row);
      && |r| <= 1
      && (|r| == 1 <==> status != "" && status !in AllowedStatuses)
      && (|r| == 1 ==> r[0] == Anomaly(RowId(row), Some("status"), Some(status), StatusIssue))
  {
    StatusReportsAreCheck4(row, v);
  }

  lemma LowerExamples()
    ensures Lower("Active") == "active"
    ensures Lower("Pending") == "pending"
    ensures Lower("nan") == "nan"
  {
    assert Lower("Active")[0] == 'a';
  }

  lemma StatusTexts()
    ensures "active" in AllowedStatuses && "cancelled" in AllowedStatuses
    ensures "pending" !in AllowedStatuses && "nan" !in AllowedStatuses && "" !in AllowedStatuses
  {
    assert "pending"[0] != "active"[0] && "pending"[0] != "cancelled"[0];
    assert |"nan"| != |"active"| && "nan"[0] != "cancelled"[0];
  }

  /** "Active" passes the status check, whatever its casing. */
  lemma MixedCaseStatusAccepted(row: Row, v: Validators)
    requires "status" in row.cells && row.cells["status"] == Some("Active")
    ensures Reports(RowAnomalies(row, v), "status") == []
  {
    StatusReports(row, v);
    LowerExamples();
    StatusTexts();
    assert StatusValue(row) == "active";
  }

  /** An unknown status is reported once, lower-cased. */
  lemma UnknownStatusReported(row: Row, v: Validators)
    requires "status" in row.cells && row.cells["status"] == Some("Pending")
    ensures Reports(RowAnomalies(row, v), "status")
      == [Anomaly(RowId(row), Some("status"), Some("pending"), StatusIssue)]
  {
    StatusReports(row, v);
    LowerExamples();
    StatusTexts();
    assert StatusValue(row) == "pending";
  }

  /** Without a status column the status check is silent (the default is "");
      a NaN status, by contrast, is stringified to "nan" and reported on top
      of its "missing value". */
  lemma AbsentAndNaNStatus(row: Row, v: Validators)
    ensures "status" !in row.cells ==> Reports(RowAnomalies(row, v), "status") == []
    ensures "status" in row.cells && row.cells["status"] == None ==>
      && MissingValue(RowId(row), "status") in RowAnomalies(row, v)
      && Reports(RowAnomalies(row, v), "status")
           == [Anomaly(RowId(row), Some("status"), Some("nan"), StatusIssue)]
  {
    StatusReports(row, v);
    LowerExamples();
    StatusTexts();
    if "status" in row.cells && row.cells["status"] == None {
      assert RequiredColumns[4] == "status";
      MissingValueIn(row, v, "status");
      assert StatusValue(row) == "nan";
    }
  }

  /** Anomalies of checks 5 and 6 are found in the row's anomalies exactly
      when those checks produce them. */
  lemma DateAnomalyMembership(row: Row, v: Validators, x: Anomaly)
    requires x.column == Some("birth_date") || x.column == Some("created_at")
    requires x.issue != MissingValueIssue
    ensures x in RowAnomalies(row, v) <==> x in ParseFindings(row) + DateFindings(row)
  {
    MissingFieldsShape(row, RequiredColumns);
    EmailFindingsShape(row, v);
    PhoneFindingsShape(row, v);
    StatusFindingsShape(row);
    ColumnNamesDiffer();
  }

  /** Each date that did not parse is reported on its own column with its
      raw text, independently of the other date. */
  lemma UnparseableDatesReported(row: Row, v: Validators)
    ensures (Anomaly(RowId(row), Some("birth_date"), Some(PyStr(Get(row, "birth_date"))), UnparseableBirthIssue)
               in RowAnomalies(row, v)) <==> row.birthParsed.None?
    ensures (Anomaly(RowId(row), Some("created_at"), Some(PyStr(Get(row, "created_at"))), UnparseableCreatedIssue)
               in RowAnomalies(row, v)) <==> row.createdParsed.None?
  {
    LaterIssuesAreNotMissing("", "");
    DateAnomalyMembership(row, v,
      Anomaly(RowId(row), Some("birth_date"), Some(PyStr(Get(row, "birth_date"))), UnparseableBirthIssue));
    DateAnomalyMembership(row, v,
      Anomaly(RowId(row), Some("created_at"), Some(PyStr(Get(row, "created_at"))), UnparseableCreatedIssue));
    ParseChecksReport(row);
  }

  /** `UnparseableDatesReported` for the anomalies of checks 5 and 6 alone. */
  lemma ParseChecksReport(row: Row)
    ensures (Anomaly(RowId(row), Some("birth_date"), Some(PyStr(Get(row, "birth_date"))), UnparseableBirthIssue)
               in ParseFindings(row) + DateFindings(row)) <==> row.birthParsed.None?
    ensures (Anomaly(RowId(row), Some("created_at"), Some(PyStr(Get(row, "created_at"))), UnparseableCreatedIssue)
               in ParseFindings(row) + DateFindings(row)) <==> row.createdParsed.None?
  {
    assert UnparseableBirthIssue != UnderAgeIssue by {
      assert UnparseableBirthIssue[1] != UnderAgeIssue[1];
    }
    assert UnparseableCreatedIssue != PrecedesIssue by {
      assert UnparseableCreatedIssue[0] != PrecedesIssue[0];
    }
    assert UnparseableBirthIssue != UnparseableCreatedIssue by {
      assert UnparseableBirthIssue[13] != UnparseableCreatedIssue[13];
    }
  }

  /** The consistency check of the two dates runs only when both parsed and
      reports at most one anomaly: "created_at precedes birth_date" when the
      creation date is earlier, otherwise "user is under 18" exactly when
      the creation date falls before the 18th anniversary of the birth date. */
  lemma DateConsistency(row: Row, v: Validators)
    ensures var all := RowAnomalies(row, v);
      var precedes := Anomaly(RowId(row), Some("created_at"), Some(PyStr(Get(row, "created_at"))), PrecedesIssue);
      var underAge := Anomaly(RowId(row), Some("birth_date"), Some(PyStr(Get(row, "birth_date"))), UnderAgeIssue);
      && (precedes in all <==>
            row.birthParsed.Some? && row.createdParsed.Some?
            && Before(row.createdParsed.value, row.birthParsed.value))
      && (underAge in all <==>
            row.birthParsed.Some? && row.createdParsed.Some?
            && !Before(row.createdParsed.value, row.birthParsed.value)
            && Before(row.createdParsed.value, AddYears(row.birthParsed.value, MinimumAge)))
      && !(precedes in all && underAge in all)
  {
    var precedes := Anomaly(RowId(row), Some("created_at"), Some(PyStr(Get(row, "created_at"))), PrecedesIssue);
    var underAge := Anomaly(RowId(row), Some("birth_date"), Some(PyStr(Get(row, "birth_date"))), UnderAgeIssue);
    LaterIssuesAreNotMissing("", "");
    DateAnomalyMembership(row, v, precedes);
    DateAnomalyMembership(row, v, underAge);
    DateChecksConsistency(row);
  }

  /** `DateConsistency` for the anomalies of checks 5 and 6 alone. */
  lemma DateChecksConsistency(row: Row)
    ensures var all := ParseFindings(row) + DateFindings(row);
      var precedes := Anomaly(RowId(row), Some("created_at"), Some(PyStr(Get(row, "created_at"))), PrecedesIssue);
      var underAge := Anomaly(RowId(row), Some("birth_date"), Some(PyStr(Get(row, "birth_date"))), UnderAgeIssue);
      && (precedes in all <==>
            row.birthParsed.Some? && row.createdParsed.Some?
            && Before(row.createdParsed.value, row.birthParsed.value))
      && (underAge in all <==>
            row.birthParsed.Some? && row.createdParsed.Some?
            && !Before(row.createdParsed.value, row.birthParsed.value)
            && Before(row.createdParsed.value, AddYears(row.birthParsed.value, MinimumAge)))
      && !(precedes in all && underAge in all)
  {
    assert UnparseableBirthIssue != UnderAgeIssue by {
      assert UnparseableBirthIssue[1] != UnderAgeIssue[1];
    }
    assert UnparseableCreatedIssue != PrecedesIssue by {
      assert UnparseableCreatedIssue[0] != PrecedesIssue[0];
    }
    if row.birthParsed.Some? && row.createdParsed.Some? && !Before(row.createdParsed.value, row.birthParsed.value) {
      UnderAgeIffBeforeAnniversary(row.birthParsed.value, row.createdParsed.value, MinimumAge);
    }
  }

  /** The under-age condition of check 6: both dates parsed, creation not
      before birth, and before the 18th anniversary. */
  predicate UnderAge(row: Row)
  {
    && row.birthParsed.Some? && row.createdParsed.Some?
    && !Before(row.createdParsed.value, row.birthParsed.value)
    && Before(row.createdParsed.value, AddYears(row.birthParsed.value, MinimumAge))
  }

  /** The precedence condition of check 6: both dates parsed, creation before birth. */
  predicate CreatedBeforeBirth(row: Row)
  {
    row.birthParsed.Some? && row.createdParsed.Some? && Before(row.createdParsed.value, row.birthParsed.value)
  }

  /** A one-anomaly list reports that anomaly exactly when it is on `col`
      and not a "missing value". */
  lemma ReportsSingleton(x: Anomaly, col: string)
    ensures Reports([x], col) == if x.column == Some(col) && x.issue != MissingValueIssue then [x] else []
  {
    assert [x][1..] == [];
  }

  /** Check 5 reports on birth_date exactly that date's unparseable
      anomaly when it did not parse. */
  lemma ParseFindingsReportBirth(row: Row)
    ensures Reports(ParseFindings(row), "birth_date") ==
      if row.birthParsed.None? then
        [Anomaly(RowId(row), Some("birth_date"), Some(PyStr(Get(row, "birth_date"))), UnparseableBirthIssue)]
      else []
  {
    var birth := Anomaly(RowId(row), Some("birth_date"), Some(PyStr(Get(row, "birth_date"))), UnparseableBirthIssue);
    var created := Anomaly(RowId(row), Some("created_at"), Some(PyStr(Get(row, "created_at"))), UnparseableCreatedIssue);
    LaterIssuesAreNotMissing("", "");
    assert "birth_date"[0] != "created_at"[0];
    ReportsAppend(if row.birthParsed.None? then [birth] else [], if row.createdParsed.None? then [created] else [], "birth_date");
    ReportsSingleton(birth, "birth_date");
    ReportsSingleton(created, "birth_date");
  }

  /** Check 5 reports on created_at exactly that date's unparseable
      anomaly when it did not parse. */
  lemma ParseFindingsReportCreated(row: Row)
    ensures Reports(ParseFindings(row), "created_at") ==
      if row.createdParsed.None? then
        [Anomaly(RowId(row), Some("created_at"), Some(PyStr(Get(row, "created_at"))), UnparseableCreatedIssue)]
      else []
  {
    var birth := Anomaly(RowId(row), Some("birth_date"), Some(PyStr(Get(row, "birth_date"))), UnparseableBirthIssue);
    var created := Anomaly(RowId(row), Some("created_at"), Some(PyStr(Get(row, "created_at"))), UnparseableCreatedIssue);
    LaterIssuesAreNotMissing("", "");
    assert "birth_date"[0] != "created_at"[0];
    ReportsAppend(if row.birthParsed.None? then [birth] else [], if row.createdParsed.None? then [created] else [], "created_at");
    ReportsSingleton(birth, "created_at");
    ReportsSingleton(created, "created_at");
  }

  /** Check 6 reports the precedence anomaly on created_at exactly when
      creation precedes birth, and the under-age anomaly on birth_date
      exactly when the user is under 18; nothing else. */
  lemma CrossDateReports(row: Row)
    ensures Reports(DateFindings(row), "birth_date") ==
      if UnderAge(row) then
        [Anomaly(RowId(row), Some("birth_date"), Some(PyStr(Get(row, "birth_date"))), UnderAgeIssue)]
      else []
    ensures Reports(DateFindings(row), "created_at") ==
      if CreatedBeforeBirth(row) then
        [Anomaly(RowId(row), Some("created_at"), Some(PyStr(Get(row, "created_at"))), PrecedesIssue)]
      else []
  {
    LaterIssuesAreNotMissing("", "");
    ColumnNamesDiffer();
    if row.birthParsed.Some? && row.createdParsed.Some? {
      var birth, created := row.birthParsed.value, row.createdParsed.value;
      if Before(created, birth) {
        ReportsSingleton(DateFindings(row)[0], "birth_date");
        ReportsSingleton(DateFindings(row)[0], "created_at");
      } else {
        UnderAgeIffBeforeAnniversary(birth, created, MinimumAge);
        if WholeYears(birth, created) < MinimumAge {
          ReportsSingleton(DateFindings(row)[0], "birth_date");
          ReportsSingleton(DateFindings(row)[0], "created_at");
        }
      }
    }
  }

  /** The anomalies on birth_date other than "missing value": the
      unparseable one when the date did not parse, then the under-age one
      when the user is under 18, and nothing else. */
  lemma BirthDateReports(row: Row, v: Validators)
    ensures Reports(RowAnomalies(row, v), "birth_date") ==
      (if row.birthParsed.None? then
         [Anomaly(RowId(row), Some("birth_date"), Some(PyStr(Get(row, "birth_date"))), UnparseableBirthIssue)]
       else [])
      + (if UnderAge(row) then
           [Anomaly(RowId(row), Some("birth_date"), Some(PyStr(Get(row, "birth_date"))), UnderAgeIssue)]
         else [])
  {
    ColumnNamesDiffer();
    MissingFieldsReportNothing(row, "birth_date");
    EmailFindingsReportOn(row, v, "birth_date");
    PhoneFindingsReportOn(row, v, "birth_date");
    StatusFindingsReportOn(row, "birth_date");
    ReportsOfLastTwo(MissingFields(row, RequiredColumns), EmailFindings(row, v), PhoneFindings(row, v),
      StatusFindings(row), ParseFindings(row), DateFindings(row), "birth_date");
    ParseFindingsReportBirth(row);
    CrossDateReports(row);
  }

  /** The anomalies on created_at other than "missing value": the
      unparseable one when the date did not parse, then the precedence one
      when creation precedes birth, and nothing else. */
  lemma CreatedAtReports(row: Row, v: Validators)
    ensures Reports(RowAnomalies(row, v), "created_at") ==
      (if row.createdParsed.None? then
         [Anomaly(RowId(row), Some("created_at"), Some(PyStr(Get(row, "created_at"))), UnparseableCreatedIssue)]
       else [])
      + (if CreatedBeforeBirth(row) then
           [Anomaly(RowId(row), Some("created_at"), Some(PyStr(Get(row, "created_at"))), PrecedesIssue)]
         else [])
  {
    ColumnNamesDiffer();
    MissingFieldsReportNothing(row, "created_at");
    EmailFindingsReportOn(row, v, "created_at");
    PhoneFindingsReportOn(row, v, "created_at");
    StatusFindingsReportOn(row, "created_at");
    ReportsOfLastTwo(MissingFields(row, RequiredColumns), EmailFindings(row, v), PhoneFindings(row, v),
      StatusFindings(row), ParseFindings(row), DateFindings(row), "created_at");
    ParseFindingsReportCreated(row);
    CrossDateReports(row);
  }

  // ---------------------------------------------------------------------
  // Whole rows
  // ---------------------------------------------------------------------

  /** The contact and status fields are all present and accepted. */
  predicate ContactsValid(row: Row, v: Validators)
  {
    && (forall col | col in RequiredColumns :: !IsMissing(row, col))
    && v.validateEmail(PyStr(Get(row, "email"))) == EmailValid
    && v.parsePhone(PyStr(Get(row, "phone"))) == PhoneNumber(true)
    && StatusValue(row) in AllowedStatuses
  }

  /** Both dates parsed and the user was at least 18 when the account was created. */
  predicate DatesConsistent(row: Row)
  {
    && row.birthParsed.Some? && row.createdParsed.Some?
    && !Before(row.createdParsed.value, row.birthParsed.value)
    && !Before(row.createdParsed.value, AddYears(row.birthParsed.value, MinimumAge))
  }

  lemma {:induction false} NoMissingFields(row: Row, cols: seq<string>)
    ensures MissingFields(row, cols) == [] <==> forall col | col in cols :: !IsMissing(row, col)
  {
    MissingFieldsShape(row, cols);
    if cols != [] {
      var init := cols[..|cols| - 1];
      NoMissingFields(row, init);
      assert cols == init + [cols[|cols| - 1]];
    }
  }

  /** When each of checks 2-6 finds nothing. */
  lemma LaterChecksSilentIff(row: Row, v: Validators)
    ensures EmailFindings(row, v) == [] <==>
      IsNA(Get(row, "email")) || v.validateEmail(PyStr(Get(row, "email"))) == EmailValid
    ensures PhoneFindings(row, v) == [] <==>
      IsNA(Get(row, "phone")) || v.parsePhone(PyStr(Get(row, "phone"))) == PhoneNumber(true)
    ensures StatusFindings(row) == [] <==> StatusValue(row) == "" || StatusValue(row) in AllowedStatuses
    ensures ParseFindings(row) == [] <==> row.birthParsed.Some? && row.createdParsed.Some?
    ensures row.birthParsed.Some? && row.createdParsed.Some? ==>
      (DateFindings(row) == [] <==> DatesConsistent(row))
    ensures !(row.birthParsed.Some? && row.createdParsed.Some?) ==> DateFindings(row) == []
  {
    if row.birthParsed.Some? && row.createdParsed.Some? && !Before(row.createdParsed.value, row.birthParsed.value) {
      UnderAgeIffBeforeAnniversary(row.birthParsed.value, row.createdParsed.value, MinimumAge);
    }
  }

  /** With every contact and status field valid, checks 1-4 find nothing. */
  lemma ContactsValidFindNothing(row: Row, v: Validators)
    requires ContactsValid(row, v)
    ensures MissingFields(row, RequiredColumns) == []
    ensures EmailFindings(row, v) == [] && PhoneFindings(row, v) == [] && StatusFindings(row) == []
  {
    NoMissingFields(row, RequiredColumns);
    LaterChecksSilentIff(row, v);
  }

  /** The six checks' lists, appended, are empty exactly when each is; and
      empty first four leave the last two. */
  lemma EmptyConcat(a: seq<Anomaly>, b: seq<Anomaly>, c: seq<Anomaly>, d: seq<Anomaly>, e: seq<Anomaly>, f: seq<Anomaly>)
    ensures a + b + c + d + e + f == [] <==> a == [] && b == [] && c == [] && d == [] && e == [] && f == []
    ensures a == [] && b == [] && c == [] && d == [] ==> a + b + c + d + e + f == e + f
  {
  }

  /** A row yields no anomaly exactly when every required field is present
      and valid and the dates are consistent. */
  lemma CleanRowIff(row: Row, v: Validators)
    ensures RowAnomalies(row, v) == [] <==> ContactsValid(row, v) && DatesConsistent(row)
  {
    EmptyConcat(MissingFields(row, RequiredColumns), EmailFindings(row, v), PhoneFindings(row, v),
      StatusFindings(row), ParseFindings(row), DateFindings(row));
    NoMissingFields(row, RequiredColumns);
    LaterChecksSilentIff(row, v);
    if MissingFields(row, RequiredColumns) == [] {
      assert "status" in RequiredColumns && "email" in RequiredColumns && "phone" in RequiredColumns;
      assert !IsMissing(row, "status") && !IsMissing(row, "email") && !IsMissing(row, "phone");
      assert StatusValue(row) != "";
    }
  }

  /** Born 1 January 2000, account created 1 January 2015, everything else
      valid: one anomaly, "user is under 18" on birth_date. */
  lemma UnderEighteenExample(row: Row, v: Validators)
    requires ContactsValid(row, v)
    requires row.birthParsed.Some? && row.birthParsed.value == Date(2000, 1, 1)
    requires row.createdParsed.Some? && row.createdParsed.value == Date(2015, 1, 1)
    ensures RowAnomalies(row, v)
      == [Anomaly(RowId(row), Some("birth_date"), Some(PyStr(Get(row, "birth_date"))), UnderAgeIssue)]
  {
    ContactsValidFindNothing(row, v);
    EmptyConcat(MissingFields(row, RequiredColumns), EmailFindings(row, v), PhoneFindings(row, v),
      StatusFindings(row), ParseFindings(row), DateFindings(row));
    FifteenYears();
  }

  /** Account created 1 January 1999 for a user born 1 January 2000,
      everything else valid: exactly one anomaly, and it is the precedence
      one, not the under-age one. */
  lemma CreatedBeforeBirthExample(row: Row, v: Validators)
    requires ContactsValid(row, v)
    requires row.birthParsed.Some? && row.birthParsed.value == Date(2000, 1, 1)
    requires row.createdParsed.Some? && row.createdParsed.value == Date(1999, 1, 1)
    ensures RowAnomalies(row, v)
      == [Anomaly(RowId(row), Some("created_at"), Some(PyStr(Get(row, "created_at"))), PrecedesIssue)]
  {
    ContactsValidFindNothing(row, v);
    EmptyConcat(MissingFields(row, RequiredColumns), EmailFindings(row, v), PhoneFindings(row, v),
      StatusFindings(row), ParseFindings(row), DateFindings(row));
  }

  /** A NaN date cell (which pandas parses to NaT) is reported twice: as a
      missing value, and as unparseable with the text "nan". */
  lemma NaNBirthDateReportedTwice(row: Row, v: Validators)
    requires "birth_date" in row.cells && row.cells["birth_date"] == None
    requires row.birthParsed == None
    ensures MissingValue(RowId(row), "birth_date") in RowAnomalies(row, v)
    ensures Anomaly(RowId(row), Some("birth_date"), Some("nan"), UnparseableBirthIssue) in RowAnomalies(row, v)
  {
    assert RequiredColumns[5] == "birth_date";
    MissingValueIn(row, v, "birth_date");
    UnparseableDatesReported(row, v);
  }

  // ---------------------------------------------------------------------
  // The collector
  // ---------------------------------------------------------------------

  /** Collecting over two tables one after the other gives the two results
      one after the other. */
  lemma {:induction false} CollectAppend(a: seq<Row>, b: seq<Row>, v: Validators)
    ensures CollectAnomalies(a + b, v) == CollectAnomalies(a, v) + CollectAnomalies(b, v)
  {
    if b == [] {
      assert a + b == a;
    } else {
      LastOfAppend(a, b);
      CollectAppend(a, b[..|b| - 1], v);
      AppendAssociates(CollectAnomalies(a, v), CollectAnomalies(b[..|b| - 1], v), RowAnomalies(b[|b| - 1], v));
    }
  }

  /** Row `k`'s anomalies sit, contiguous and in check order, between those
      of the rows before it and those of the rows after it. */
  lemma CollectPreservesRowOrder(rows: seq<Row>, v: Validators, k: nat)
    requires k < |rows|
    ensures CollectAnomalies(rows, v)
      == CollectAnomalies(rows[..k], v) + RowAnomalies(rows[k], v) + CollectAnomalies(rows[k + 1..], v)
  {
    assert rows == rows[..k] + [rows[k]] + rows[k + 1..];
    CollectAppend(rows[..k] + [rows[k]], rows[k + 1..], v);
    CollectAppend(rows[..k], [rows[k]], v);
    assert CollectAnomalies([rows[k]], v) == RowAnomalies(rows[k], v) by {
      assert [rows[k]][..0] == [];
    }
  }

  /** An empty table yields no anomaly. */
  lemma CollectEmpty(v: Validators)
    ensures CollectAnomalies([], v) == []
  {
  }

  /** Every collected anomaly carries the id of a row of the table. */
  lemma {:induction false} CollectedRowIds(rows: seq<Row>, v: Validators)
    ensures forall a | a in CollectAnomalies(rows, v) :: exists r | r in rows :: a.rowId == RowId(r)
  {
    if rows != [] {
      var init := rows[..|rows| - 1];
      var last := rows[|rows| - 1];
      CollectedRowIds(init, v);
      EveryAnomalyCarriesRowId(last, v);
      forall a | a in CollectAnomalies(rows, v) ensures exists r | r in rows :: a.rowId == RowId(r) {
        if a in CollectAnomalies(init, v) {
          var r :| r in init && a.rowId == RowId(r);
          assert r in rows;
        } else {
          assert last in rows;
        }
      }
    }
  }

  /** Running the checks twice over the same table gives the same sequence. */
  method AuditTwice(rows: seq<Row>, v: Validators) returns (first: seq<Anomaly>, second: seq<Anomaly>)
    ensures first == second
    ensures rows == [] ==> first == []
  {
    first := RunAnomalyChecks(rows, v);
    second := RunAnomalyChecks(rows, v);
  }
}
