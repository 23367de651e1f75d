/**
 * `FileService`, the older orchestrator. It has the same shape as the
 * current one, with these differences:
 *  - the header must contain "sold_date" or "rent_date" exactly
 *    (case-sensitive, and headers are not lower-cased for binding);
 *  - the result holds bare listings without their row text;
 *  - its own errors (undetected schema, a caught exception) carry no row data.
 */
module LegacyFileService {
  import opened Common
  import opened OreCore
  import opened CsvReading
  import ValidationGate
  import NumberFormat
  import LegacySoldListing
  import LegacyLeasedListing
  import CsvTransmorgrifier

  type Source = CsvSource<LegacySoldListing.Row, LegacyLeasedListing.Row>
  type Row = DataRow<LegacySoldListing.Row, LegacyLeasedListing.Row>

  /** An error with the row it came from, when there is one (`RowData` is null otherwise). */
  datatype Error = Error(message: string, rowData: Option<string>)

  class ParsedFileResult {
    var listings: seq<Listing>
    var errors: seq<Error>

    constructor()
      ensures listings == [] && errors == []
    {
      listings := [];
      errors := [];
    }

    method AddListing(listing: Listing)
      modifies this
      ensures listings == old(listings) + [listing] && errors == old(errors)
    {
      listings := listings + [listing];
    }

    method AddError(error: Error)
      modifies this
      ensures errors == old(errors) + [error] && listings == old(listings)
    {
      errors := errors + [error];
    }
  }

  // ------------------------------------------------------------ header

  const SoldSentinel := "sold_date"
  const RentSentinel := "rent_date"

  /** `headers.Contains(name)`: ordinal, case-sensitive. */
  function DetectSchema(headers: seq<string>): Option<Schema> {
    if SoldSentinel in headers then Some(SoldFile)
    else if RentSentinel in headers then Some(RentalFile)
    else None
  }

  /** What exact detection calls a sold file, the current (ignore-case) detection does too. */
  lemma ExactSoldIsSold(headers: seq<string>)
    ensures DetectSchema(headers) == Some(SoldFile) ==> CsvTransmorgrifier.DetectSchema(headers) == Some(SoldFile)
  {
    if SoldSentinel in headers {
      var i :| 0 <= i < |headers| && headers[i] == SoldSentinel;
      assert EqualsOrdinalIgnoreCase(headers[i], CsvTransmorgrifier.SoldSentinel);
    }
  }

  /** On an all-lower-case header the two generations detect the same schema. */
  lemma LowerCaseDetectionAgrees(headers: seq<string>)
    requires forall i | 0 <= i < |headers| :: IsLowerCase(headers[i])
    ensures DetectSchema(headers) == CsvTransmorgrifier.DetectSchema(headers)
  {
    ExactMatchOnLowerCase(headers, SoldSentinel);
    ExactMatchOnLowerCase(headers, RentSentinel);
  }

  /** Among lower-case headers, matching a lower-case name ignoring case is matching it exactly. */
  lemma ExactMatchOnLowerCase(headers: seq<string>, name: string)
    requires forall i | 0 <= i < |headers| :: IsLowerCase(headers[i])
    requires IsLowerCase(name)
    ensures name in headers <==> CsvTransmorgrifier.HasColumnIgnoreCase(headers, name)
  {
    if CsvTransmorgrifier.HasColumnIgnoreCase(headers, name) {
      var i :| 0 <= i < |headers| && EqualsOrdinalIgnoreCase(headers[i], name);
      CsvTransmorgrifier.IgnoreCaseLowers(headers[i], name);
      LowerCaseIsFixed(headers[i]);
    }
    if name in headers {
      var i :| 0 <= i < |headers| && headers[i] == name;
      assert EqualsOrdinalIgnoreCase(headers[i], name);
    }
  }

  /** But an upper-case sentinel is found only by the current generation. */
  lemma UpperCaseSentinelIsMissed()
    ensures DetectSchema(["SOLD_DATE"]) == None
    ensures CsvTransmorgrifier.DetectSchema(["SOLD_DATE"]) == Some(SoldFile)
  {
    assert "SOLD_DATE" != SoldSentinel && "SOLD_DATE" != RentSentinel;
    assert EqualsOrdinalIgnoreCase(["SOLD_DATE"][0], CsvTransmorgrifier.SoldSentinel);
  }

  // ------------------------------------------------------------ callbacks

  function FaultError(fault: ReaderFault): Error {
    Error(FaultMessage(fault), Some(FaultRawRecord(fault)))
  }

  function FaultErrors(faults: seq<ReaderFault>): (r: seq<Error>)
    ensures |r| == |faults| && forall k | 0 <= k < |faults| :: r[k] == FaultError(faults[k])
  {
    seq(|faults|, k requires 0 <= k < |faults| => FaultError(faults[k]))
  }

  /** The callbacks `InitializeCsvReaderConfiguration` installs, each appending one error with the raw record. */
  method ReportFault(result: ParsedFileResult, fault: ReaderFault)
    modifies result
    ensures result.errors == old(result.errors) + [FaultError(fault)]
    ensures result.listings == old(result.listings)
  {
    match fault
    case BadDataFound(rawRow, rawRecord) =>
      result.AddError(Error(BadDataPrefix + NumberFormat.IntToString(rawRow) + "'", Some(rawRecord)));
    case MissingFieldFound(headerNames, index, rawRecord) =>
      result.AddError(Error(MissingFieldPrefix + JoinWith("', '", headerNames) + "'] at index '" +
                            NumberFormat.IntToString(index) + "' was not found.", Some(rawRecord)));
    case ReadingExceptionOccurred(message, rawRecord) =>
      result.AddError(Error(ReadingExceptionPrefix + message, Some(rawRecord)));
  }

  lemma FaultErrorsStep(faults: seq<ReaderFault>, k: nat)
    requires k < |faults|
    ensures FaultErrors(faults[..k + 1]) == FaultErrors(faults[..k]) + [FaultError(faults[k])]
  {
    var lhs, rhs := FaultErrors(faults[..k + 1]), FaultErrors(faults[..k]) + [FaultError(faults[k])];
    assert |lhs| == |rhs|;
    forall j | 0 <= j < |lhs| ensures lhs[j] == rhs[j] {
      if j < k {
        assert faults[..k + 1][j] == faults[..k][j];
      }
    }
  }

  method ReportFaults(result: ParsedFileResult, faults: seq<ReaderFault>)
    modifies result
    ensures result.errors == old(result.errors) + FaultErrors(faults)
    ensures result.listings == old(result.listings)
  {
    for k := 0 to |faults|
      invariant result.errors == old(result.errors) + FaultErrors(faults[..k])
      invariant result.listings == old(result.listings)
    {
      ReportFault(result, faults[k]);
      FaultErrorsStep(faults, k);
    }
    assert faults[..|faults|] == faults;
  }

  // ------------------------------------------------------------ rows

  function RowListing(schema: Schema, row: Row, c: Collaborators): Option<Listing> {
    match schema
    case SoldFile =>
      if row.asSold.record.Some?
      then Some(LegacySoldListing.SoldOreListing(row.asSold.record.value, c)) else None
    case RentalFile =>
      if row.asRental.record.Some?
      then Some(LegacyLeasedListing.LeasedOreListing(row.asRental.record.value, c)) else None
  }

  function RowsErrors(schema: Schema, rows: seq<Row>): seq<Error> {
    if rows == [] then []
    else RowsErrors(schema, rows[..|rows| - 1]) + FaultErrors(RowFaults(schema, rows[|rows| - 1]))
  }

  function RowResults(schema: Schema, row: Row, c: Collaborators): seq<Listing> {
    match RowListing(schema, row, c)
    case Some(l) => [l]
    case None => []
  }

  /** The listings the loop collects: one per row that binds, in row order. */
  function RowsParsed(schema: Schema, rows: seq<Row>, c: Collaborators): seq<Listing> {
    Collect(rows, RowResultsOf(schema, c))
  }

  function RowResultsOf(schema: Schema, c: Collaborators): Row -> seq<Listing> {
    (row: Row) => RowResults(schema, row, c)
  }

  /** `ParseCsvDataRow`: binds the row as the schema's record type and converts the record, if any. */
  method ParseCsvDataRow(schema: Schema, row: Row, result: ParsedFileResult, c: Collaborators)
    returns (listing: Option<Listing>)
    modifies result
    ensures listing == RowListing(schema, row, c)
    ensures result.errors == old(result.errors) + FaultErrors(RowFaults(schema, row))
    ensures result.listings == old(result.listings)
  {
    if schema == SoldFile {
      ReportFaults(result, row.asSold.faults);
      if row.asSold.record.Some? {
        var l := LegacySoldListing.ToOreListing(row.asSold.record.value, c);
        listing := Some(l);
      } else {
        listing := None;
      }
    } else {
      ReportFaults(result, row.asRental.faults);
      if row.asRental.record.Some? {
        var l := LegacyLeasedListing.ToOreListing(row.asRental.record.value, c);
        listing := Some(l);
      } else {
        listing := None;
      }
    }
  }

  // ------------------------------------------------------------ validation

  function IsValid(c: Collaborators): Listing -> bool {
    (l: Listing) => c.validate(l).isValid
  }

  function RejectionError(c: Collaborators): Listing -> Error {
    (l: Listing) => Error(
      "Listing '" + c.describe(l) + "' failed validation: " + JoinWith(". ", c.validate(l).errorMessages),
      Some(c.serialize(l)))
  }

  function Accepted(listings: seq<Listing>, c: Collaborators): seq<Listing> {
    ValidationGate.Accepted(listings, IsValid(c))
  }

  function Rejected(listings: seq<Listing>, c: Collaborators): seq<Error> {
    ValidationGate.Rejected(listings, IsValid(c), RejectionError(c))
  }

  /** Validation messages are the only ones that start "Listing '". */
  predicate IsValidationError(e: Error) {
    |e.message| >= 9 && e.message[..9] == "Listing '"
  }

  /** The undetected-schema error also starts "Listing", but not "Listing '". */
  lemma UndetectedIsNoValidationError()
    ensures !IsValidationError(Error(CsvTransmorgrifier.UndetectedMessage, None))
  {
    CsvTransmorgrifier.UndetectedMessageStart();
    assert "Listing '"[8] == '\'';
  }

  lemma RejectedAreValidationErrors(listings: seq<Listing>, c: Collaborators)
    ensures forall k | 0 <= k < |Rejected(listings, c)| :: IsValidationError(Rejected(listings, c)[k])
  {
    ValidationGate.PartitionLaw(listings, IsValid(c), RejectionError(c));
    forall k | 0 <= k < |Rejected(listings, c)| ensures IsValidationError(Rejected(listings, c)[k]) {
      var e := Rejected(listings, c)[k];
      assert e in Rejected(listings, c);
      var j :| 0 <= j < |listings| && e == RejectionError(c)(listings[j]);
    }
  }

  /** `ValidateListings`: each listing goes to the listings if valid, else to the errors, in order. */
  method ValidateListings(listings: seq<Listing>, result: ParsedFileResult, c: Collaborators)
    modifies result
    ensures result.listings == old(result.listings) + Accepted(listings, c)
    ensures result.errors == old(result.errors) + Rejected(listings, c)
  {
    for k := 0 to |listings|
      invariant result.listings == old(result.listings) + Accepted(listings[..k], c)
      invariant result.errors == old(result.errors) + Rejected(listings[..k], c)
    {
      var listing := listings[k];
      ValidationGate.Step(listings, k, IsValid(c), RejectionError(c));
      var validationResult := c.validate(listing);
      if validationResult.isValid {
        result.AddListing(listing);
        ValidationGate.AppendAssociates(old(result.listings), Accepted(listings[..k], c), [listing]);
      } else {
        var errorMessages := JoinWith(". ", validationResult.errorMessages);
        var errorMessage := "Listing '" + c.describe(listing) + "' failed validation: " + errorMessages;
        var error := Error(errorMessage, Some(c.serialize(listing)));
        assert error == RejectionError(c)(listing);
        result.AddError(error);
        ValidationGate.AppendAssociates(old(result.errors), Rejected(listings[..k], c), [error]);
      }
    }
    assert listings[..|listings|] == listings;
  }

  // ------------------------------------------------------------ whole parse

  datatype Parsed = Parsed(listings: seq<Listing>, errors: seq<Error>)

  /** The result ParseFileAsync returns for a reader script. */
  function ParseOutcome(source: Source, c: Collaborators): Parsed {
    var headerErrors := FaultErrors(source.header.faults);
    match source.header
    case HeaderThrew(_, message) => Parsed([], headerErrors + [Error(message, None)])
    case HeaderRecord(_, names) =>
      match DetectSchema(names)
      case None => Parsed([], headerErrors + [Error(CsvTransmorgrifier.UndetectedMessage, None)])
      case Some(schema) =>
        var readerErrors := ReaderErrors(source, schema);
        var parsed := RowsParsed(schema, source.rows, c);
        if source.failure.Some?
        then Parsed([], readerErrors + [Error(source.failure.value, None)])
        else Parsed(Accepted(parsed, c), readerErrors + Rejected(parsed, c))
  }

  /** What the callbacks append while the file is read: the header line's errors, then each row's. */
  function ReaderErrors(source: Source, schema: Schema): seq<Error> {
    FaultErrors(source.header.faults) + RowsErrors(schema, source.rows)
  }

  lemma RowsStep(schema: Schema, rows: seq<Row>, i: nat, c: Collaborators)
    requires i < |rows|
    ensures RowsErrors(schema, rows[..i + 1]) == RowsErrors(schema, rows[..i]) + FaultErrors(RowFaults(schema, rows[i]))
    ensures RowsParsed(schema, rows[..i + 1], c) == RowsParsed(schema, rows[..i], c) + RowResults(schema, rows[i], c)
  {
    assert rows[..i + 1][..i] == rows[..i];
  }

  /** `ParseFileAsync`: a null reader throws; anything else returns a result, exceptions inside becoming errors. */
  method ParseFileAsync(streamReader: Option<Source>, c: Collaborators) returns (r: Outcome<ParsedFileResult>)
    ensures streamReader.None? ==> r == Threw(ArgumentNullException("streamReader"))
    ensures streamReader.Some? ==>
              r.Returned? && fresh(r.value) &&
              r.value.listings == ParseOutcome(streamReader.value, c).listings &&
              r.value.errors == ParseOutcome(streamReader.value, c).errors
  {
    if streamReader.None? {
      return Threw(ArgumentNullException("streamReader"));
    }
    var source := streamReader.value;

    var result := new ParsedFileResult();
    r := Returned(result);

    ReportFaults(result, source.header.faults);
    if source.header.HeaderThrew? {
      result.AddError(Error(source.header.message, None));
      return;
    }
    var headers := source.header.names;

    var schema: Schema;
    if SoldSentinel in headers {
      schema := SoldFile;
    } else if RentSentinel in headers {
      schema := RentalFile;
    } else {
      result.AddError(Error(CsvTransmorgrifier.UndetectedMessage, None));
      return;
    }

    var listings: seq<Listing> := [];
    var rows := source.rows;
    var i := 0;
    while i < |rows|
      invariant 0 <= i <= |rows|
      invariant result.errors == FaultErrors(source.header.faults) + RowsErrors(schema, rows[..i])
      invariant listings == RowsParsed(schema, rows[..i], c)
      invariant result.listings == []
    {
      RowsStep(schema, rows, i, c);
      var listing := ParseCsvDataRow(schema, rows[i], result, c);
      ValidationGate.AppendAssociates(FaultErrors(source.header.faults), RowsErrors(schema, rows[..i]),
                                      FaultErrors(RowFaults(schema, rows[i])));
      if listing.Some? {
        listings := listings + [listing.value];
      }
      assert RowResults(schema, rows[i], c) == (if listing.Some? then [listing.value] else []);
      i := i + 1;
    }
    assert rows[..i] == rows;

    if source.failure.Some? {
      result.AddError(Error(source.failure.value, None));
      return;
    }

    ValidateListings(listings, result, c);
  }

  // ------------------------------------------------------------ laws

  lemma RowsParsedAppend(schema: Schema, a: seq<Row>, b: seq<Row>, c: Collaborators)
    ensures RowsParsed(schema, a + b, c) == RowsParsed(schema, a, c) + RowsParsed(schema, b, c)
  {
    CollectAppend(a, b, RowResultsOf(schema, c));
  }

  lemma RowResultsLaw(schema: Schema, row: Row, c: Collaborators)
    ensures RowResults(schema, row, c) == if RowBinds(schema, row) then [RowListing(schema, row, c).value] else []
  {
  }

  /** There are as many parsed listings as rows that bind. */
  lemma {:induction false} RowCountLaw(schema: Schema, rows: seq<Row>, c: Collaborators)
    ensures |RowsParsed(schema, rows, c)| == BoundRows(schema, rows)
  {
    if rows != [] {
      RowCountLaw(schema, rows[1..], c);
      RowsParsedAppend(schema, [rows[0]], rows[1..], c);
      assert [rows[0]] + rows[1..] == rows;
      CollectOne(rows[0], RowResultsOf(schema, c));
      RowResultsLaw(schema, rows[0], c);
    }
  }

  /** A row that does not bind adds no listing; one that binds adds its listing, in row order. */
  lemma RowLoopLaw(schema: Schema, a: seq<Row>, row: Row, b: seq<Row>, c: Collaborators)
    ensures RowsParsed(schema, a + [row] + b, c) ==
              RowsParsed(schema, a, c) +
              (if RowBinds(schema, row) then [RowListing(schema, row, c).value] else []) +
              RowsParsed(schema, b, c)
  {
    RowsParsedAppend(schema, a + [row], b, c);
    RowsParsedAppend(schema, a, [row], c);
    CollectOne(row, RowResultsOf(schema, c));
    RowResultsLaw(schema, row, c);
  }

  lemma {:induction false} RowsErrorsAreReaderErrors(schema: Schema, rows: seq<Row>)
    ensures forall k | 0 <= k < |RowsErrors(schema, rows)| ::
              !IsValidationError(RowsErrors(schema, rows)[k]) && RowsErrors(schema, rows)[k].rowData.Some?
  {
    if rows != [] {
      var init := rows[..|rows| - 1];
      RowsErrorsAreReaderErrors(schema, init);
      FaultErrorsAreReaderErrors(RowFaults(schema, rows[|rows| - 1]));
    }
  }

  /** No error a callback appends looks like a validation error, and each carries its raw record. */
  lemma FaultErrorsAreReaderErrors(faults: seq<ReaderFault>)
    ensures forall k | 0 <= k < |FaultErrors(faults)| ::
              !IsValidationError(FaultErrors(faults)[k]) && FaultErrors(faults)[k].rowData.Some?
  {
    forall k | 0 <= k < |faults| ensures !IsValidationError(FaultErrors(faults)[k]) {
      FaultMessageKinds(faults[k]);
    }
  }

  /** Neither the header line's errors nor the rows' look like a validation error, and each has row data. */
  lemma ReaderErrorsAreReaderErrors(source: Source, schema: Schema)
    ensures forall k | 0 <= k < |ReaderErrors(source, schema)| ::
              !IsValidationError(ReaderErrors(source, schema)[k]) && ReaderErrors(source, schema)[k].rowData.Some?
  {
    var h, r := FaultErrors(source.header.faults), RowsErrors(schema, source.rows);
    FaultErrorsAreReaderErrors(source.header.faults);
    RowsErrorsAreReaderErrors(schema, source.rows);
    forall k | 0 <= k < |h + r| ensures !IsValidationError((h + r)[k]) && (h + r)[k].rowData.Some? {
      if k < |h| {
        assert (h + r)[k] == h[k];
      } else {
        assert (h + r)[k] == r[k - |h|];
      }
    }
  }

  /** Once a validation error appears among the errors, every later error is one too. */
  lemma ReaderErrorsPrecedeValidationErrors(source: Source, c: Collaborators)
    requires source.header.HeaderRecord? && DetectSchema(source.header.names).Some? && source.failure.None?
    ensures var errors := ParseOutcome(source, c).errors;
            forall i, j | 0 <= i < j < |errors| :: IsValidationError(errors[i]) ==> IsValidationError(errors[j])
  {
    var schema := DetectSchema(source.header.names).value;
    var readerErrors := ReaderErrors(source, schema);
    var rejected := Rejected(RowsParsed(schema, source.rows, c), c);
    ReaderErrorsAreReaderErrors(source, schema);
    RejectedAreValidationErrors(RowsParsed(schema, source.rows, c), c);
    var errors := readerErrors + rejected;
    forall k | 0 <= k < |errors| ensures IsValidationError(errors[k]) <==> k >= |readerErrors| {
      if k < |readerErrors| {
        assert errors[k] == readerErrors[k];
      } else {
        assert errors[k] == rejected[k - |readerErrors|];
      }
    }
  }

  /**
   * Every bound row's listing is accepted or becomes a validation error,
   * never both; an error is reported exactly for each invalid listing, with
   * its description, the joined messages, and the serialized listing as row data.
   */
  lemma ParseCountLaw(source: Source, c: Collaborators)
    requires source.header.HeaderRecord? && DetectSchema(source.header.names).Some? && source.failure.None?
    ensures var schema := DetectSchema(source.header.names).value;
            var out := ParseOutcome(source, c);
            var parsed := RowsParsed(schema, source.rows, c);
            |out.listings| <= BoundRows(schema, source.rows) &&
            |out.errors| == |ReaderErrors(source, schema)| + (BoundRows(schema, source.rows) - |out.listings|) &&
            (forall l :: l in out.listings <==> l in parsed && c.validate(l).isValid) &&
            (forall e :: e in Rejected(parsed, c) <==>
               exists k | 0 <= k < |parsed| ::
                 !c.validate(parsed[k]).isValid &&
                 e == Error("Listing '" + c.describe(parsed[k]) + "' failed validation: " +
                            JoinWith(". ", c.validate(parsed[k]).errorMessages), Some(c.serialize(parsed[k]))))
  {
    var schema := DetectSchema(source.header.names).value;
    var parsed := RowsParsed(schema, source.rows, c);
    RowCountLaw(schema, source.rows, c);
    ValidationGate.PartitionLaw(parsed, IsValid(c), RejectionError(c));
  }

  /**
   * A header without either exact sentinel: the errors the header line
   * reported, then one fixed error without row data; no listing, and no
   * data row read.
   */
  lemma UndetectedSchemaLaw(source: Source, c: Collaborators, rows: seq<Row>, failure: Option<string>)
    requires source.header.HeaderRecord? && DetectSchema(source.header.names).None?
    ensures ParseOutcome(source, c) ==
            Parsed([], FaultErrors(source.header.faults) + [Error(CsvTransmorgrifier.UndetectedMessage, None)])
    ensures ParseOutcome(source.(rows := rows, failure := failure), c) == ParseOutcome(source, c)
  {
  }

  /**
   * A caught exception adds one error with its message and no row data:
   * for the header (an empty file has no header record) it follows the
   * errors the header line reported and there are no listings; during the
   * rows, the reader errors before it are kept and no listing survives.
   */
  lemma ExceptionLaw(source: Source, c: Collaborators)
    ensures source.header.HeaderThrew? ==>
              ParseOutcome(source, c) == Parsed([], FaultErrors(source.header.faults) + [Error(source.header.message, None)])
    ensures source.header.HeaderRecord? && DetectSchema(source.header.names).Some? && source.failure.Some? ==>
              var schema := DetectSchema(source.header.names).value;
              var out := ParseOutcome(source, c);
              out.listings == [] &&
              out.errors == ReaderErrors(source, schema) + [Error(source.failure.value, None)] &&
              forall k | 0 <= k < |out.errors| - 1 :: out.errors[k].rowData.Some?
  {
    if source.header.HeaderRecord? && DetectSchema(source.header.names).Some? && source.failure.Some? {
      ReaderErrorsAreReaderErrors(source, DetectSchema(source.header.names).value);
    }
  }
}
