# User-audit row validator

A model of the anomaly checks in `src/abc_user_audit/cli.py`. That file audits a legacy export of user records.

`validate_row` takes one record and runs six checks in a fixed order. Each finding is appended to a list as an `Anomaly(row_id, column, value, issue)`. The checks are:

1. required-field presence;
2. email validity;
3. phone validity;
4. status membership in `{"active", "cancelled"}`;
5. date parseability;
6. the cross-date checks (creation before birth, under 18 at creation).

`run_anomaly_checks` applies the validator to every row of the table and concatenates the results.

The project has four modules:

- **`Text`** (`text.dfy`): Python's `str.strip()` (its `isspace` set) and `str.lower()`.
- **`Calendar`** (`calendar.dfy`): Gregorian dates and their order. It also defines `AddYears` (dateutil's `+ relativedelta(years=n)`, which clamps 29 February to 28 February) and `WholeYears`, the value of `relativedelta(created, birth).years`.
- **`Audit`** (`audit.dfy`): the record, the `Anomaly` datatype, `ALLOWED_STATUSES` and one specification function per check. `RowAnomalies` chains the checks in order and `CollectAnomalies` collects them over a table.
  - The methods `ValidateRow` (one `Check*` method per block) and `RunAnomalyChecks` build their results the way the source does, by appending to an accumulator. Each is proved equal to its specification function.
- **`AuditProperties`** (`audit_properties.dfy`): what the validator and the collector promise, proved about those functions.

How the model represents the source's values:

- **Records.** A record is a map from column name to `Option<string>`:
  - an absent key is `row.get` returning `None`;
  - `None` in the map is a NaN cell;
  - `Some(s)` is the stripped text.
- **Parsed dates.** They are given as `Option<CalendarDate>`. `None` stands for NaT.
- **Libraries.** The email and phone libraries are the two function fields of `Validators`:
  - `validate_email` either accepts the text or raises with a reason;
  - `parse_phone` + `is_valid_number` either raise a parse error with a message or give a number together with whether it is valid.
- **`str()` of a cell.** `PyStr` gives `"None"` for an absent key and `"nan"` for a NaN cell.

The model follows the code in these corner cases:

- A NaN status is stringified to `"nan"`. It is then reported as "status not in allowed set" with value `"nan"`, on top of its "missing value" (`AbsentAndNaNStatus`).
- An absent status column defaults to `""` and is not reported by check 4.
- A NaN email or phone is skipped by checks 2 and 3, but a present blank one is still passed to the validator. A blank email can therefore be reported twice (`BlankEmailReportedTwice`).
- A NaN date cell is reported both as missing and as unparseable with the text `"nan"` (`NaNBirthDateReportedTwice`). When the date column is absent altogether, the unparseable-date anomaly carries `"None"`.

## Model

| member | source | states |
|---|---|---|
| Audit.Anomaly | src/abc_user_audit/cli.py:15-20 | the anomaly record: row id, optional column, optional offending value, issue text |
| Audit.AllowedStatuses | src/abc_user_audit/cli.py:12 | the two accepted statuses, `active` and `cancelled`. Stated by `AuditProperties.StatusReports` and `AuditProperties.MixedCaseStatusAccepted` |
| Audit.RequiredColumns | src/abc_user_audit/cli.py:47 | the seven required columns in their checking order. Stated by `AuditProperties.RequiredColumnsDistinct` and `AuditProperties.MissingFieldsOrdered` |
| Audit.Get | src/abc_user_audit/cli.py:48 | `row.get(col)` is Python's `None` exactly when the key is absent, NaN exactly when the cell is NaN, and the cell's text when the cell holds one |
| Audit.GetOr | src/abc_user_audit/cli.py:70 | `row.get(col, default)` is never `None`: the default for an absent key, otherwise the cell |
| Audit.RowId | src/abc_user_audit/cli.py:39-44 | the row tag is `"unknown"` without an id column, `"nan"` for a NaN id, and the id text otherwise |
| Audit.StatusValue | src/abc_user_audit/cli.py:70 | the checked status is `""` for an absent column, `"nan"` for a NaN cell, and the lower-cased text otherwise |
| Audit.ValidateRow | src/abc_user_audit/cli.py:37-90 | the accumulated anomalies are exactly `RowAnomalies`: checks 1-6 in order |
| Audit.CheckRequiredFields | src/abc_user_audit/cli.py:46-49 | the loop over the seven columns appends exactly check 1's anomalies (loop invariant over the prefix of columns) |
| Audit.CheckEmail | src/abc_user_audit/cli.py:51-57 | the email block appends exactly check 2's anomalies |
| Audit.CheckPhone | src/abc_user_audit/cli.py:59-67 | the phone block appends exactly check 3's anomalies |
| Audit.CheckStatus | src/abc_user_audit/cli.py:69-72 | the status block appends exactly check 4's anomalies |
| Audit.CheckDates | src/abc_user_audit/cli.py:74-88 | the date block appends exactly the anomalies of checks 5 and 6 |
| Audit.RunAnomalyChecks | src/abc_user_audit/cli.py:93-97 | the loop over the rows yields `CollectAnomalies`: each row's anomalies, row after row |
| Audit.IsNA | src/abc_user_audit/cli.py:48 | `pd.isna(v)`: true of `None` and NaN, false of a string. Its consequences are stated by `AuditProperties.EmailReports` and `AuditProperties.PhoneReports` (a NaN email or phone is never validated) |
| Audit.PyStr | src/abc_user_audit/cli.py:43 | `str(v)`: `"None"`, `"nan"` or the text. Stated by `Audit.RowId` and `Audit.StatusValue`, and by `AuditProperties.NaNBirthDateReportedTwice` for a NaN date |
| Audit.IsMissing | src/abc_user_audit/cli.py:48 | a required column is missing when NA or blank after `strip()`. Stated by `AuditProperties.MissingValueReportedOnce` and `AuditProperties.MissingValueIn` |
| Audit.MissingFields | src/abc_user_audit/cli.py:46-49 | check 1 over a column list. Stated by `AuditProperties.MissingFieldsShape`, `MissingFieldsCount`, `MissingFieldsOrdered` and `NoMissingFields` |
| Audit.EmailFindings | src/abc_user_audit/cli.py:51-57 | check 2. Stated by `AuditProperties.EmailReports` and `AuditProperties.LaterChecksSilentIff` |
| Audit.PhoneFindings | src/abc_user_audit/cli.py:59-67 | check 3. Stated by `AuditProperties.PhoneReports` and `AuditProperties.LaterChecksSilentIff` |
| Audit.StatusFindings | src/abc_user_audit/cli.py:69-72 | check 4. Stated by `AuditProperties.StatusReports`, `MixedCaseStatusAccepted`, `UnknownStatusReported` and `AbsentAndNaNStatus` |
| Audit.ParseFindings | src/abc_user_audit/cli.py:75-80 | check 5. Stated by `AuditProperties.UnparseableDatesReported`, `AuditProperties.ParseFindingsReportBirth` and `AuditProperties.ParseFindingsReportCreated` |
| Audit.DateFindings | src/abc_user_audit/cli.py:82-88 | check 6. Stated by `AuditProperties.DateConsistency`, `AuditProperties.CrossDateReports`, `AuditProperties.LaterChecksSilentIff` and the two date examples |
| Audit.RowAnomalies | src/abc_user_audit/cli.py:37-90 | what `validate_row` returns. Stated by `AuditProperties.MissingValuesFirst`, `EveryAnomalyCarriesRowId`, the per-column report lemmas and `CleanRowIff` |
| Audit.CollectAnomalies | src/abc_user_audit/cli.py:93-97 | what `run_anomaly_checks` collects. Stated by `Audit.CollectStep` and `AuditProperties.CollectAppend`, `CollectPreservesRowOrder` and `CollectedRowIds` |
| Audit.CollectStep | src/abc_user_audit/cli.py:95-96 | one more row appends exactly that row's anomalies to those collected so far |
| Text.IsSpace | src/abc_user_audit/cli.py:48 | the characters `str.isspace()` accepts, which `strip()` removes. Stated through `Text.TrimLeft`, `Text.TrimRight` and `Text.StripEmptyIffBlank` |
| Text.Strip | src/abc_user_audit/cli.py:48 | `str.strip()`. Stated by `Text.StripEmptyIffBlank` and `Text.StripKeepsTrimmed` |
| Calendar.IsLeapYear | src/abc_user_audit/cli.py:86 | the Gregorian leap-year rule. Stated by `Calendar.DaysInMonth` and `Calendar.LeapDayBirthday` |
| Calendar.Before | src/abc_user_audit/cli.py:83 | `created < birth` on dates. Stated by `Calendar.BeforeTransitive` and `Calendar.BeforeTrichotomy` |
| Text.TrimLeft | src/abc_user_audit/cli.py:48 | removes a blank prefix only, and leaves nothing that starts with whitespace |
| Text.TrimRight | src/abc_user_audit/cli.py:48 | removes a blank suffix only, and leaves nothing that ends with whitespace |
| Text.StripEmptyIffBlank | src/abc_user_audit/cli.py:48 | `s.strip() == ""` holds exactly when every character of `s` is whitespace |
| Text.StripKeepsTrimmed | src/abc_user_audit/cli.py:48 | a string with no whitespace at either end strips to itself |
| Text.LowerChar | src/abc_user_audit/cli.py:70 | upper-case ASCII letters map to their lower-case letters; every other character is unchanged |
| Text.Lower | src/abc_user_audit/cli.py:70 | lower-casing keeps the length |
| Text.LowerIdempotent | src/abc_user_audit/cli.py:70 | lower-casing twice gives the same as lower-casing once |
| Text.LowerOfLowerCase | src/abc_user_audit/cli.py:70 | a string without upper-case letters is unchanged by lower-casing |
| Calendar.DaysInMonth | src/abc_user_audit/cli.py:86 | months have 28-31 days; February has 29 exactly in leap years |
| Calendar.BeforeTransitive | src/abc_user_audit/cli.py:83 | the date comparison `<` is transitive |
| Calendar.BeforeTrichotomy | src/abc_user_audit/cli.py:83 | the date comparison `<` is a strict total order |
| Calendar.AddYears | src/abc_user_audit/cli.py:86 | adding n years keeps the month and the day, except that 29 February becomes 28 February in a common year |
| Calendar.AnniversariesIncrease | src/abc_user_audit/cli.py:86 | later anniversaries fall on later dates |
| Calendar.WholeYears | src/abc_user_audit/cli.py:86 | `relativedelta(created, birth).years`: the n-th anniversary has been reached by `created` and the (n+1)-th has not |
| Calendar.WholeYearsIsLargest | src/abc_user_audit/cli.py:86 | no later anniversary has been reached, so the count is the largest one |
| Calendar.UnderAgeIffBeforeAnniversary | src/abc_user_audit/cli.py:86-87 | age < 18 exactly when `created` falls before the 18th anniversary of `birth` |
| Calendar.WholeYearsByMonthDay | src/abc_user_audit/cli.py:86 | for births other than 29 February: the difference of the years, less one before the month/day anniversary |
| Calendar.LeapDayBirthday | src/abc_user_audit/cli.py:86 | a 29 February 2000 birth turns 18 on 28 February 2018 |
| Calendar.FifteenYears | src/abc_user_audit/cli.py:86 | 2000-01-01 to 2015-01-01 is 15 whole years; one day earlier it is 14 |
| AuditProperties.RequiredColumnsDistinct | src/abc_user_audit/cli.py:47 | the seven required columns are pairwise distinct |
| AuditProperties.LaterIssuesAreNotMissing | src/abc_user_audit/cli.py:57-88 | no issue text of checks 2-6 is "missing value" |
| AuditProperties.MissingFieldsShape | src/abc_user_audit/cli.py:46-49 | every check-1 anomaly is `(col, None, "missing value")` for a listed column that is missing or blank |
| AuditProperties.MissingFieldsCount | src/abc_user_audit/cli.py:46-49 | over distinct columns, check 1 reports each missing column exactly once and no other column |
| AuditProperties.MissingFieldsOrdered | src/abc_user_audit/cli.py:47 | check 1 lists its anomalies in the order of the columns |
| AuditProperties.NoMissingFields | src/abc_user_audit/cli.py:46-49 | check 1 finds nothing exactly when no listed column is missing |
| AuditProperties.LaterFindingsShape | src/abc_user_audit/cli.py:51-88 | anomalies of checks 2-6 carry the row id, a required column and a value, and none is "missing value" |
| AuditProperties.RowAnomaliesSplit | src/abc_user_audit/cli.py:37-90 | a row's anomalies are check 1's followed by those of checks 2-6 |
| AuditProperties.MissingValuesFirst | src/abc_user_audit/cli.py:46-49 | "missing value" anomalies form exactly the prefix of the row's list, in column order |
| AuditProperties.MissingValueReportedOnce | src/abc_user_audit/cli.py:46-49 | each required column has one "missing value" anomaly if missing or blank and none otherwise; every "missing value" anomaly is one of these |
| AuditProperties.MissingValueIn | src/abc_user_audit/cli.py:48-49 | a column's "missing value" anomaly is present exactly when the column is missing or blank |
| AuditProperties.EveryAnomalyCarriesRowId | src/abc_user_audit/cli.py:39-44 | every anomaly of a row carries that row's id and names one of the seven required columns |
| AuditProperties.ColumnNamesDiffer | src/abc_user_audit/cli.py:47 | the five checked column names are pairwise different |
| AuditProperties.ReportsAppend | src/abc_user_audit/cli.py:42 | the anomalies on one column of an appended list are those of the two parts, in order |
| AuditProperties.MissingFieldsReportNothing | src/abc_user_audit/cli.py:46-49 | check 1 reports nothing other than "missing value" |
| AuditProperties.EmailFindingsReportOn | src/abc_user_audit/cli.py:51-57 | check 2 reports on the email column only |
| AuditProperties.PhoneFindingsReportOn | src/abc_user_audit/cli.py:59-67 | check 3 reports on the phone column only |
| AuditProperties.StatusFindingsReportOn | src/abc_user_audit/cli.py:69-72 | check 4 reports on the status column only |
| AuditProperties.DateFindingsReportNothingOn | src/abc_user_audit/cli.py:74-88 | checks 5 and 6 report on the two date columns only |
| AuditProperties.EmailReportsAreCheck2 | src/abc_user_audit/cli.py:51-57 | the row's email anomalies other than "missing value" are exactly check 2's |
| AuditProperties.EmailReports | src/abc_user_audit/cli.py:51-57 | at most one email anomaly; it appears exactly when the email is not NA and is rejected, and it carries the original text and `"invalid email: " + reason` |
| AuditProperties.BlankEmailReportedTwice | src/abc_user_audit/cli.py:48-57 | a present blank email that the validator rejects is reported both as missing and as invalid |
| AuditProperties.PhoneReportsAreCheck3 | src/abc_user_audit/cli.py:59-67 | the row's phone anomalies other than "missing value" are exactly check 3's |
| AuditProperties.PhoneReports | src/abc_user_audit/cli.py:59-67 | at most one phone anomaly; it appears exactly when the phone is not NA and not a valid number. The issue is "invalid phone number" for an invalid parse and "invalid phone number: msg" for a parse error |
| AuditProperties.StatusReportsAreCheck4 | src/abc_user_audit/cli.py:69-72 | the row's status anomalies other than "missing value" are exactly check 4's |
| AuditProperties.StatusReports | src/abc_user_audit/cli.py:69-72 | at most one status anomaly; it appears exactly when the lower-cased status is non-empty and outside the allowed set, and it carries the lower-cased text |
| AuditProperties.StatusTexts | src/abc_user_audit/cli.py:12 | "active" and "cancelled" are allowed; "pending", "nan" and "" are not |
| AuditProperties.MixedCaseStatusAccepted | src/abc_user_audit/cli.py:69-72 | status "Active" yields no status anomaly |
| AuditProperties.UnknownStatusReported | src/abc_user_audit/cli.py:69-72 | status "Pending" yields one anomaly with value "pending" |
| AuditProperties.AbsentAndNaNStatus | src/abc_user_audit/cli.py:69-72 | an absent status column yields no status anomaly; a NaN status yields "missing value" and a status anomaly with value "nan" |
| AuditProperties.DateAnomalyMembership | src/abc_user_audit/cli.py:74-88 | a date-column anomaly other than "missing value" is in the row's list exactly when checks 5 and 6 produce it |
| AuditProperties.UnparseableDatesReported | src/abc_user_audit/cli.py:75-80 | each date is reported as unparseable, with its raw text, exactly when its parsed value is NA, independently of the other date |
| AuditProperties.ParseChecksReport | src/abc_user_audit/cli.py:75-80 | the same, for the anomalies of checks 5 and 6 alone |
| AuditProperties.DateConsistency | src/abc_user_audit/cli.py:82-88 | "created_at precedes birth_date" appears exactly when both dates parsed and created < birth. "Under 18" appears exactly when both dates parsed, created ≥ birth and created is before the 18th anniversary. Never both |
| AuditProperties.DateChecksConsistency | src/abc_user_audit/cli.py:82-88 | the same, for the anomalies of checks 5 and 6 alone |
| AuditProperties.LaterChecksSilentIff | src/abc_user_audit/cli.py:51-88 | when each of checks 2-6 finds nothing, both directions; check 6 finds nothing unless both dates parsed |
| AuditProperties.ParseFindingsReportBirth | src/abc_user_audit/cli.py:77-78 | check 5 reports on birth_date exactly the unparseable-birth anomaly, with the raw text, when the parsed birth date is NA, and nothing otherwise |
| AuditProperties.ParseFindingsReportCreated | src/abc_user_audit/cli.py:79-80 | check 5 reports on created_at exactly the unparseable-created anomaly, with the raw text, when the parsed creation date is NA, and nothing otherwise |
| AuditProperties.CrossDateReports | src/abc_user_audit/cli.py:82-88 | check 6 reports on birth_date exactly the under-18 anomaly when both dates parsed, created ≥ birth and created is before the 18th anniversary, and on created_at exactly the precedence anomaly when both parsed and created < birth |
| AuditProperties.BirthDateReports | src/abc_user_audit/cli.py:74-88 | everything a whole row reports on birth_date besides "missing value": the unparseable anomaly when the parsed date is NA, then the under-18 anomaly when both dates parsed, created ≥ birth and created is before the 18th anniversary |
| AuditProperties.CreatedAtReports | src/abc_user_audit/cli.py:74-88 | everything a whole row reports on created_at besides "missing value": the unparseable anomaly when the parsed date is NA, then the precedence anomaly when both dates parsed and created < birth |
| AuditProperties.ContactsValidFindNothing | src/abc_user_audit/cli.py:46-72 | with every required field present and valid, checks 1-4 find nothing |
| AuditProperties.CleanRowIff | src/abc_user_audit/cli.py:37-90 | a row yields no anomaly exactly when every required field is present and accepted and the user was at least 18 at creation |
| AuditProperties.UnderEighteenExample | src/abc_user_audit/cli.py:82-88 | born 2000-01-01, created 2015-01-01, everything else valid: exactly the under-18 anomaly on birth_date |
| AuditProperties.CreatedBeforeBirthExample | src/abc_user_audit/cli.py:82-88 | created before birth, everything else valid: exactly the precedence anomaly, not the under-18 one |
| AuditProperties.NaNBirthDateReportedTwice | src/abc_user_audit/cli.py:77-78 | a NaN birth date is reported as missing and as unparseable with text "nan" |
| AuditProperties.CollectAppend | src/abc_user_audit/cli.py:93-97 | collecting over two tables one after the other gives their results one after the other |
| AuditProperties.CollectPreservesRowOrder | src/abc_user_audit/cli.py:95-96 | row k's anomalies sit, contiguous and in order, between those of the rows before it and those after it |
| AuditProperties.CollectEmpty | src/abc_user_audit/cli.py:93-97 | an empty table yields no anomaly |
| AuditProperties.CollectedRowIds | src/abc_user_audit/cli.py:93-97 | every collected anomaly carries the id of some row of the table |
| AuditProperties.AuditTwice | src/abc_user_audit/cli.py:93-97 | two runs over the same table, with the same validator verdicts, give the same sequence; an empty table gives an empty one |

## Left out

- `load_users` (cli.py:23-34): CSV reading, cell stripping and pandas `to_datetime` format inference. The stripped cells and the parsed dates are inputs of the model.
- AuditProperties.AuditTwice: assumes the same email verdict for the same text in both runs. `validate_email` at cli.py:55 runs with its default deliverability check, which looks the domain up in DNS. A domain that does not resolve is rejected, while a DNS timeout lets the address through. So in the source the same email can be accepted in one run and rejected in another. The model fixes one verdict per text, through `Validators.validateEmail`.
- The internals of `email_validator` and `phonenumbers`. These libraries are outside this model, so their verdicts are the function parameters in `Validators`.
- `run_expectations` (cli.py:100-125): a wrapper over the great_expectations library.
- `main` (cli.py:128-156): argument parsing, printing and CSV writing.
- The DataFrame built at cli.py:97: the collector's result is the sequence of anomalies.
- Time of day on the parsed timestamps: dates are (year, month, day), so two timestamps on the same calendar day compare equal here. The outputs differ only when the parsed birth_date carries a time later in the day than created_at's. (1) On the same calendar day, the source reports "created_at precedes birth_date", while the model reports "user is under 18 at account creation". (2) On the 18th anniversary, `relativedelta` counts 17 whole years, so the source reports "under 18", while the model reports nothing.
- The range of pandas timestamps (years 1677-2262): years are unbounded integers here.
- Text.LowerChar: maps only the ASCII capitals 'A'-'Z'. Python's `str.lower()` also lower-cases non-ASCII capitals ('Ä' becomes 'ä', and 'İ' becomes two characters). A status with such letters is compared differently here.
- Text.Lower: maps ASCII letters only, while Python's `str.lower()` also lower-cases non-ASCII letters. Its contract states only the length. The per-character mapping is its definition, and the lemmas `Text.LowerIdempotent` and `Text.LowerOfLowerCase` state what follows from it.
- Calendar.WholeYears: is defined only for `created` on or after `birth`. That is the only case the validator asks for, because line 83 handles the other one first.
