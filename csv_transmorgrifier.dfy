/**
 * `CsvTransmorgrifier`, the current orchestrator: it reads the header,
 * decides from it whether the file holds sold or rental rows, converts
 * every data row that binds, and sends the listings through the validation
 * gate. Reader callbacks and the loop append to one `ParsedResult`.
 */
module CsvTransmorgrifier {
  import opened Common
  import opened OreCore
  import opened CsvReading
  import ValidationGate
  import NumberFormat
  import CsvListingCsvMap
  import CsvResidentialListing
  import CsvRentalListing
  import CsvResidentialListingCsvMap
  import CsvRentalListingCsvMap

  type Source = CsvSource<CsvResidentialListing.Row, CsvRentalListing.Row>
  type Row = DataRow<CsvResidentialListing.Row, CsvRentalListing.Row>

  datatype ParsedError = ParsedError(message: string, invalidData: string)

  /** A parsed listing with the reader's text for the row it came from. */
  datatype ListingResult = ListingResult(listing: Listing, sourceData: string)

  class ParsedResult {
    var listings: seq<ListingResult>
    var errors: seq<ParsedError>

    constructor()
      ensures listings == [] && errors == []
    {
      listings := [];
      errors := [];
    }

    method AddListing(listing: ListingResult)
      modifies this
      ensures listings == old(listings) + [listing] && errors == old(errors)
    {
      listings := listings + [listing];
    }

    method AddError(error: ParsedError)
      modifies this
      ensures errors == old(errors) + [error] && listings == old(listings)
    {
      errors := errors + [error];
    }
  }

  // ------------------------------------------------------------ header

  const SoldSentinel := "sold_date"
  const RentSentinel := "rent_date"

  const UndetectedHead := "Listing csv header is missing the field "
  const UndetectedTail := ". As such, we cannot determine what type of csv file this is suppose to be."

  /** "Listing csv header is missing the field 'sold_date' or 'rent_date'. As such, ...". */
  const UndetectedMessage :=
    UndetectedHead + "'sold_date'" + " or " + "'rent_date'" + UndetectedTail
  const UndetectedData := "csv headers"
  const ExceptionData := "reading csv data."

  /** `headers.Contains(name, StringComparer.OrdinalIgnoreCase)`. */
  predicate HasColumnIgnoreCase(headers: seq<string>, name: string) {
    exists i | 0 <= i < |headers| :: EqualsOrdinalIgnoreCase(headers[i], name)
  }

  /** The schema the header selects: sold if it has "sold_date" (in any case), else rental if it has "rent_date". */
  function DetectSchema(headers: seq<string>): Option<Schema> {
    if HasColumnIgnoreCase(headers, SoldSentinel) then Some(SoldFile)
    else if HasColumnIgnoreCase(headers, RentSentinel) then Some(RentalFile)
    else None
  }

  /** The headers as written in capitals. */
  function UpperHeaders(headers: seq<string>): (r: seq<string>)
    ensures |r| == |headers| && forall i | 0 <= i < |headers| :: r[i] == ToUpper(headers[i])
  {
    seq(|headers|, i requires 0 <= i < |headers| => ToUpper(headers[i]))
  }

  lemma UpperIgnoresCase(s: string, name: string)
    ensures EqualsOrdinalIgnoreCase(ToUpper(s), name) <==> EqualsOrdinalIgnoreCase(s, name)
  {
  }

  /** Detection ignores the case of the header ("SOLD_DATE" selects the sold schema like "sold_date"). */
  lemma DetectSchemaIgnoresCase(headers: seq<string>)
    ensures DetectSchema(UpperHeaders(headers)) == DetectSchema(headers)
  {
    var upper := UpperHeaders(headers);
    forall i | 0 <= i < |headers|
      ensures EqualsOrdinalIgnoreCase(upper[i], SoldSentinel) <==> EqualsOrdinalIgnoreCase(headers[i], SoldSentinel)
      ensures EqualsOrdinalIgnoreCase(upper[i], RentSentinel) <==> EqualsOrdinalIgnoreCase(headers[i], RentSentinel)
    {
      UpperIgnoresCase(headers[i], SoldSentinel);
      UpperIgnoresCase(headers[i], RentSentinel);
    }
  }

  /** Both sentinels present: the sold schema wins. */
  lemma SoldWinsOverRental(headers: seq<string>, i: nat, j: nat)
    requires i < |headers| && j < |headers|
    requires EqualsOrdinalIgnoreCase(headers[i], SoldSentinel) && EqualsOrdinalIgnoreCase(headers[j], RentSentinel)
    ensures DetectSchema(headers) == Some(SoldFile)
  {
  }

  /** A character equal to a non-capital one up to case lower-cases to it. */
  lemma IgnoreCaseCharLowers(c: char, d: char)
    requires ToUpperChar(c) == ToUpperChar(d) && !('A' <= d <= 'Z')
    ensures ToLowerChar(c) == d
  {
  }

  /** A header equal to a lower-case name up to case is that name once prepared for matching. */
  lemma IgnoreCaseLowers(s: string, name: string)
    requires EqualsOrdinalIgnoreCase(s, name) && IsLowerCase(name)
    ensures ToLower(s) == name
  {
    forall i | 0 <= i < |s| ensures ToLower(s)[i] == name[i] {
      IgnoreCaseCharLowers(s[i], name[i]);
    }
  }

  /**
   * The sentinel that selects a schema is the date column that schema's
   * map binds by name: a detected header always has the column its rows
   * read their date from.
   */
  lemma DetectedSchemaBindsDate(headers: seq<string>)
    ensures DetectSchema(headers) == Some(SoldFile) ==>
              CsvListingCsvMap.ColumnOf(headers, CsvResidentialListingCsvMap.DateColumn).Some?
    ensures DetectSchema(headers) == Some(RentalFile) ==>
              CsvListingCsvMap.ColumnOf(headers, CsvRentalListingCsvMap.DateColumn).Some?
  {
    if DetectSchema(headers) == Some(SoldFile) {
      MatchedColumnIsBound(headers, SoldSentinel);
    } else if DetectSchema(headers) == Some(RentalFile) {
      MatchedColumnIsBound(headers, RentSentinel);
    }
  }

  /** A lower-case name that some header matches ignoring case is bound to a column. */
  lemma MatchedColumnIsBound(headers: seq<string>, name: string)
    requires HasColumnIgnoreCase(headers, name) && IsLowerCase(name)
    ensures CsvListingCsvMap.ColumnOf(headers, name).Some?
  {
    var i :| 0 <= i < |headers| && EqualsOrdinalIgnoreCase(headers[i], name);
    IgnoreCaseLowers(headers[i], name);
  }

  // ------------------------------------------------------------ callbacks

  /** The error a reader callback appends. */
  function FaultError(fault: ReaderFault): ParsedError {
    ParsedError(FaultMessage(fault), FaultRawRecord(fault))
  }

  function FaultErrors(faults: seq<ReaderFault>): (r: seq<ParsedError>)
    ensures |r| == |faults| && forall k | 0 <= k < |faults| :: r[k] == FaultError(faults[k])
  {
    seq(|faults|, k requires 0 <= k < |faults| => FaultError(faults[k]))
  }

  /** The callbacks `InitializeCsvReaderConfiguration` installs, each appending one error. */
  method ReportFault(result: ParsedResult, fault: ReaderFault)
    modifies result
    ensures result.errors == old(result.errors) + [FaultError(fault)]
    ensures result.listings == old(result.listings)
  {
    match fault
    case BadDataFound(rawRow, rawRecord) =>
      result.AddError(ParsedError(BadDataPrefix + NumberFormat.IntToString(rawRow) + "'", rawRecord));
    case MissingFieldFound(headerNames, index, rawRecord) =>
      result.AddError(ParsedError(MissingFieldPrefix + JoinWith("', '", headerNames) + "'] at index '" +
                                  NumberFormat.IntToString(index) + "' was not found.", rawRecord));
    case ReadingExceptionOccurred(message, rawRecord) =>
      result.AddError(ParsedError(ReadingExceptionPrefix + message, rawRecord));
  }

  lemma FaultErrorsStep(faults: seq<ReaderFault>, k: nat)
    requires k < |faults|
    ensures FaultErrors(faults[..k + 1]) == FaultErrors(faults[..k]) + [FaultError(faults[k])]
  {
    var lhs, rhs := FaultErrors(faults[..k + 1]), FaultErrors(faults[..k]) + [FaultError(faults[k])];
    assert |lhs| == |rhs|;
    forall j | 0 <= j < |lhs| ensures lhs[j] == rhs[j] {
      if j < k {
        assert faults[..k + 1][j] == faults[..k][j];
      }
    }
  }

  /** The callbacks fired while one record binds, in the order the reader reports them. */
  method ReportFaults(result: ParsedResult, faults: seq<ReaderFault>)
    modifies result
    ensures result.errors == old(result.errors) + FaultErrors(faults)
    ensures result.listings == old(result.listings)
  {
    for k := 0 to |faults|
      invariant result.errors == old(result.errors) + FaultErrors(faults[..k])
      invariant result.listings == old(result.listings)
    {
      ReportFault(result, faults[k]);
      FaultErrorsStep(faults, k);
    }
    assert faults[..|faults|] == faults;
  }

  // ------------------------------------------------------------ rows

  /** `ParseCsvDataRow`: the converted listing, or None when the row did not bind. */
  function RowListing(schema: Schema, row: Row, c: Collaborators): Option<Listing> {
    match schema
    case SoldFile =>
      if row.asSold.record.Some?
      then Some(CsvResidentialListing.ResidentialOreListing(row.asSold.record.value, c)) else None
    case RentalFile =>
      if row.asRental.record.Some?
      then Some(CsvRentalListing.RentalOreListing(row.asRental.record.value, c)) else None
  }

  /** The reader errors the rows produce, in row order. */
  function RowsErrors(schema: Schema, rows: seq<Row>): seq<ParsedError> {
    if rows == [] then []
    else RowsErrors(schema, rows[..|rows| - 1]) + FaultErrors(RowFaults(schema, rows[|rows| - 1]))
  }

  /** The listing results the loop collects: one per row that binds, in row order. */
  function RowsParsed(schema: Schema, rows: seq<Row>, c: Collaborators): seq<ListingResult> {
    Collect(rows, RowResultsOf(schema, c))
  }

  function RowResultsOf(schema: Schema, c: Collaborators): Row -> seq<ListingResult> {
    (row: Row) => RowResults(schema, row, c)
  }

  /**
   * `ParseCsvDataRow`: binds the row as the schema's record type (its
   * callbacks reporting any faults) and converts the record, if any.
   */
  method ParseCsvDataRow(schema: Schema, row: Row, result: ParsedResult, c: Collaborators)
    returns (listing: Option<Listing>)
    modifies result
    ensures listing == RowListing(schema, row, c)
    ensures result.errors == old(result.errors) + FaultErrors(RowFaults(schema, row))
    ensures result.listings == old(result.listings)
  {
    if schema == SoldFile {
      ReportFaults(result, row.asSold.faults);
      if row.asSold.record.Some? {
        var l := CsvResidentialListing.ToOreListing(row.asSold.record.value, c);
        listing := Some(l);
      } else {
        listing := None;
      }
    } else {
      ReportFaults(result, row.asRental.faults);
      if row.asRental.record.Some? {
        var l := CsvRentalListing.ToOreListing(row.asRental.record.value, c);
        listing := Some(l);
      } else {
        listing := None;
      }
    }
  }

  // ------------------------------------------------------------ validation

  function IsValid(c: Collaborators): ListingResult -> bool {
    (lr: ListingResult) => c.validate(lr.listing).isValid
  }

  /** The error for a listing that fails validation: its description, the joined messages, the serialized listing. */
  function RejectionError(c: Collaborators): ListingResult -> ParsedError {
    (lr: ListingResult) => ParsedError(
      "Listing '" + c.describe(lr.listing) + "' failed validation: " +
      JoinWith(". ", c.validate(lr.listing).errorMessages),
      c.serialize(lr.listing))
  }

  function Accepted(listingResults: seq<ListingResult>, c: Collaborators): seq<ListingResult> {
    ValidationGate.Accepted(listingResults, IsValid(c))
  }

  function Rejected(listingResults: seq<ListingResult>, c: Collaborators): seq<ParsedError> {
    ValidationGate.Rejected(listingResults, IsValid(c), RejectionError(c))
  }

  /** Validation messages are the only ones that start "Listing '". */
  predicate IsValidationError(e: ParsedError) {
    |e.message| >= 9 && e.message[..9] == "Listing '"
  }

  /** The undetected-schema error also starts "Listing", but not "Listing '". */
  lemma UndetectedIsNoValidationError()
    ensures !IsValidationError(ParsedError(UndetectedMessage, UndetectedData))
  {
    UndetectedMessageStart();
    assert "Listing '"[8] == '\'';
  }

  lemma UndetectedMessageStart()
    ensures |UndetectedMessage| > 9 && UndetectedMessage[8] == 'c'
  {
    assert UndetectedMessage[8] == UndetectedHead[8];
  }

  lemma RejectedAreValidationErrors(listingResults: seq<ListingResult>, c: Collaborators)
    ensures forall k | 0 <= k < |Rejected(listingResults, c)| :: IsValidationError(Rejected(listingResults, c)[k])
  {
    ValidationGate.PartitionLaw(listingResults, IsValid(c), RejectionError(c));
    forall k | 0 <= k < |Rejected(listingResults, c)| ensures IsValidationError(Rejected(listingResults, c)[k]) {
      var e := Rejected(listingResults, c)[k];
      assert e in Rejected(listingResults, c);
      var j :| 0 <= j < |listingResults| && e == RejectionError(c)(listingResults[j]);
    }
  }

  /** `ValidateListings`: each listing goes to the listings if valid, else to the errors, in order. */
  method ValidateListings(listingResults: seq<ListingResult>, result: ParsedResult, c: Collaborators)
    modifies result
    ensures result.listings == old(result.listings) + Accepted(listingResults, c)
    ensures result.errors == old(result.errors) + Rejected(listingResults, c)
  {
    for k := 0 to |listingResults|
      invariant result.listings == old(result.listings) + Accepted(listingResults[..k], c)
      invariant result.errors == old(result.errors) + Rejected(listingResults[..k], c)
    {
      var listingResult := listingResults[k];
      ValidationGate.Step(listingResults, k, IsValid(c), RejectionError(c));
      var validationResult := c.validate(listingResult.listing);
      if validationResult.isValid {
        result.AddListing(listingResult);
        ValidationGate.AppendAssociates(old(result.listings), Accepted(listingResults[..k], c), [listingResult]);
      } else {
        var errorMessages := JoinWith(". ", validationResult.errorMessages);
        var errorMessage := "Listing '" + c.describe(listingResult.listing) + "' failed validation: " + errorMessages;
        var rowData := c.serialize(listingResult.listing);
        var error := ParsedError(errorMessage, rowData);
        assert error == RejectionError(c)(listingResult);
        result.AddError(error);
        ValidationGate.AppendAssociates(old(result.errors), Rejected(listingResults[..k], c), [error]);
      }
    }
    assert listingResults[..|listingResults|] == listingResults;
  }

  // ------------------------------------------------------------ whole parse

  datatype Parsed = Parsed(listings: seq<ListingResult>, errors: seq<ParsedError>)

  /** The result ParseAsync returns for a reader script. */
  function ParseOutcome(source: Source, c: Collaborators): Parsed {
    var headerErrors := FaultErrors(source.header.faults);
    match source.header
    case HeaderThrew(_, message) => Parsed([], headerErrors + [ParsedError(message, ExceptionData)])
    case HeaderRecord(_, names) =>
      match DetectSchema(names)
      case None => Parsed([], headerErrors + [ParsedError(UndetectedMessage, UndetectedData)])
      case Some(schema) =>
        var readerErrors := ReaderErrors(source, schema);
        var parsed := RowsParsed(schema, source.rows, c);
        if source.failure.Some?
        then Parsed([], readerErrors + [ParsedError(source.failure.value, ExceptionData)])
        else Parsed(Accepted(parsed, c), readerErrors + Rejected(parsed, c))
  }

  /** What the callbacks append while the file is read: the header line's errors, then each row's. */
  function ReaderErrors(source: Source, schema: Schema): seq<ParsedError> {
    FaultErrors(source.header.faults) + RowsErrors(schema, source.rows)
  }

  /** One more row read: its reader errors and its listing result come after those of the rows before it. */
  lemma RowsStep(schema: Schema, rows: seq<Row>, i: nat, c: Collaborators)
    requires i < |rows|
    ensures RowsErrors(schema, rows[..i + 1]) == RowsErrors(schema, rows[..i]) + FaultErrors(RowFaults(schema, rows[i]))
    ensures RowsParsed(schema, rows[..i + 1], c) == RowsParsed(schema, rows[..i], c) + RowResults(schema, rows[i], c)
  {
    assert rows[..i + 1][..i] == rows[..i];
  }

  /** `ParseAsync`: a null reader throws; anything else returns a result, exceptions inside becoming errors. */
  method ParseAsync(textReader: Option<Source>, c: Collaborators) returns (r: Outcome<ParsedResult>)
    ensures textReader.None? ==> r == Threw(ArgumentNullException("textReader"))
    ensures textReader.Some? ==>
              r.Returned? && fresh(r.value) &&
              r.value.listings == ParseOutcome(textReader.value, c).listings &&
              r.value.errors == ParseOutcome(textReader.value, c).errors
  {
    if textReader.None? {
      return Threw(ArgumentNullException("textReader"));
    }
    var source := textReader.value;

    var result := new ParsedResult();
    r := Returned(result);

    ReportFaults(result, source.header.faults);
    if source.header.HeaderThrew? {
      result.AddError(ParsedError(source.header.message, ExceptionData));
      return;
    }
    var headers := source.header.names;

    var schema: Schema;
    if HasColumnIgnoreCase(headers, SoldSentinel) {
      schema := SoldFile;
    } else if HasColumnIgnoreCase(headers, RentSentinel) {
      schema := RentalFile;
    } else {
      result.AddError(ParsedError(UndetectedMessage, UndetectedData));
      return;
    }

    var listingResults: seq<ListingResult> := [];
    var rows := source.rows;
    var i := 0;
    while i < |rows|
      invariant 0 <= i <= |rows|
      invariant result.errors == FaultErrors(source.header.faults) + RowsErrors(schema, rows[..i])
      invariant listingResults == RowsParsed(schema, rows[..i], c)
      invariant result.listings == []
    {
      RowsStep(schema, rows, i, c);
      var listing := ParseCsvDataRow(schema, rows[i], result, c);
      ValidationGate.AppendAssociates(FaultErrors(source.header.faults), RowsErrors(schema, rows[..i]),
                                      FaultErrors(RowFaults(schema, rows[i])));
      if listing.Some? {
        listingResults := listingResults + [ListingResult(listing.value, rows[i].readerText)];
      }
      assert RowResults(schema, rows[i], c) ==
             (if listing.Some? then [ListingResult(listing.value, rows[i].readerText)] else []);
      i := i + 1;
    }
    assert rows[..i] == rows;

    if source.failure.Some? {
      result.AddError(ParsedError(source.failure.value, ExceptionData));
      return;
    }

    ValidateListings(listingResults, result, c);
  }

  /** `Parse`: blank data is an ArgumentException; otherwise the text is read and parsed. */
  method Parse(data: Option<string>, read: string -> Source, c: Collaborators) returns (r: Outcome<ParsedResult>)
    ensures IsNullOrWhiteSpace(data) ==> r == Threw(ArgumentException("data"))
    ensures !IsNullOrWhiteSpace(data) ==>
              r.Returned? && fresh(r.value) &&
              r.value.listings == ParseOutcome(read(data.value), c).listings &&
              r.value.errors == ParseOutcome(read(data.value), c).errors
  {
    if IsNullOrWhiteSpace(data) {
      return Threw(ArgumentException("data"));
    }
    r := ParseAsync(Some(read(data.value)), c);
  }

  // ------------------------------------------------------------ laws

  /** `ParseCsvDataRow`'s contribution to the listing results: one pair when the row binds, none otherwise. */
  function RowResults(schema: Schema, row: Row, c: Collaborators): seq<ListingResult> {
    match RowListing(schema, row, c)
    case Some(l) => [ListingResult(l, row.readerText)]
    case None => []
  }

  /** The listing results of consecutive stretches of rows concatenate. */
  lemma RowsParsedAppend(schema: Schema, a: seq<Row>, b: seq<Row>, c: Collaborators)
    ensures RowsParsed(schema, a + b, c) == RowsParsed(schema, a, c) + RowsParsed(schema, b, c)
  {
    CollectAppend(a, b, RowResultsOf(schema, c));
  }

  /** A row yields a listing result exactly when it binds; the result pairs its listing with the reader's text. */
  lemma RowResultsLaw(schema: Schema, row: Row, c: Collaborators)
    ensures RowResults(schema, row, c) ==
              if RowBinds(schema, row) then [ListingResult(RowListing(schema, row, c).value, row.readerText)] else []
  {
  }

  /** There are as many listing results as rows that bind. */
  lemma {:induction false} RowCountLaw(schema: Schema, rows: seq<Row>, c: Collaborators)
    ensures |RowsParsed(schema, rows, c)| == BoundRows(schema, rows)
  {
    if rows != [] {
      RowCountLaw(schema, rows[1..], c);
      RowsParsedAppend(schema, [rows[0]], rows[1..], c);
      assert [rows[0]] + rows[1..] == rows;
      CollectOne(rows[0], RowResultsOf(schema, c));
      RowResultsLaw(schema, rows[0], c);
    }
  }

  /**
   * The row loop: a row that does not bind adds no listing, a row that
   * binds adds exactly one (its listing with the reader's text for it),
   * in row order.
   */
  lemma RowLoopLaw(schema: Schema, a: seq<Row>, row: Row, b: seq<Row>, c: Collaborators)
    ensures RowsParsed(schema, a + [row] + b, c) ==
              RowsParsed(schema, a, c) +
              (if RowBinds(schema, row) then [ListingResult(RowListing(schema, row, c).value, row.readerText)] else []) +
              RowsParsed(schema, b, c)
  {
    RowsParsedAppend(schema, a + [row], b, c);
    RowsParsedAppend(schema, a, [row], c);
    CollectOne(row, RowResultsOf(schema, c));
    RowResultsLaw(schema, row, c);
  }

  lemma {:induction false} RowsErrorsAreReaderErrors(schema: Schema, rows: seq<Row>)
    ensures forall k | 0 <= k < |RowsErrors(schema, rows)| :: !IsValidationError(RowsErrors(schema, rows)[k])
  {
    if rows != [] {
      var init := rows[..|rows| - 1];
      RowsErrorsAreReaderErrors(schema, init);
      FaultErrorsAreReaderErrors(RowFaults(schema, rows[|rows| - 1]));
    }
  }

  /** No error a callback appends looks like a validation error. */
  lemma FaultErrorsAreReaderErrors(faults: seq<ReaderFault>)
    ensures forall k | 0 <= k < |FaultErrors(faults)| :: !IsValidationError(FaultErrors(faults)[k])
  {
    forall k | 0 <= k < |faults| ensures !IsValidationError(FaultErrors(faults)[k]) {
      FaultMessageKinds(faults[k]);
    }
  }

  /** Neither the header line's errors nor the rows' look like a validation error. */
  lemma ReaderErrorsAreReaderErrors(source: Source, schema: Schema)
    ensures forall k | 0 <= k < |ReaderErrors(source, schema)| :: !IsValidationError(ReaderErrors(source, schema)[k])
  {
    var h, r := FaultErrors(source.header.faults), RowsErrors(schema, source.rows);
    FaultErrorsAreReaderErrors(source.header.faults);
    RowsErrorsAreReaderErrors(schema, source.rows);
    forall k | 0 <= k < |h + r| ensures !IsValidationError((h + r)[k]) {
      if k < |h| {
        assert (h + r)[k] == h[k];
      } else {
        assert (h + r)[k] == r[k - |h|];
      }
    }
  }

  /**
   * Validation errors come last: once a validation error appears in the
   * result's errors, every later error is one too, and there are as many
   * of them as listings that failed validation.
   */
  lemma ReaderErrorsPrecedeValidationErrors(source: Source, c: Collaborators)
    requires source.header.HeaderRecord? && DetectSchema(source.header.names).Some? && source.failure.None?
    ensures var errors := ParseOutcome(source, c).errors;
            forall i, j | 0 <= i < j < |errors| :: IsValidationError(errors[i]) ==> IsValidationError(errors[j])
  {
    var schema := DetectSchema(source.header.names).value;
    var readerErrors := ReaderErrors(source, schema);
    var rejected := Rejected(RowsParsed(schema, source.rows, c), c);
    ReaderErrorsAreReaderErrors(source, schema);
    RejectedAreValidationErrors(RowsParsed(schema, source.rows, c), c);
    var errors := readerErrors + rejected;
    forall k | 0 <= k < |errors| ensures IsValidationError(errors[k]) <==> k >= |readerErrors| {
      if k < |readerErrors| {
        assert errors[k] == readerErrors[k];
      } else {
        assert errors[k] == rejected[k - |readerErrors|];
      }
    }
  }

  /**
   * A parse that reaches validation accounts for every bound row: each
   * becomes an accepted listing or a validation error, never both, in row
   * order; the other errors are the reader's.
   */
  lemma ParseCountLaw(source: Source, c: Collaborators)
    requires source.header.HeaderRecord? && DetectSchema(source.header.names).Some? && source.failure.None?
    ensures var schema := DetectSchema(source.header.names).value;
            var out := ParseOutcome(source, c);
            |out.listings| <= BoundRows(schema, source.rows) &&
            |out.errors| == |ReaderErrors(source, schema)| + (BoundRows(schema, source.rows) - |out.listings|) &&
            (forall lr :: lr in out.listings <==> lr in RowsParsed(schema, source.rows, c) && c.validate(lr.listing).isValid)
  {
    var schema := DetectSchema(source.header.names).value;
    var parsed := RowsParsed(schema, source.rows, c);
    RowCountLaw(schema, source.rows, c);
    ValidationGate.PartitionLaw(parsed, IsValid(c), RejectionError(c));
  }

  /**
   * The error a failed validation leaves: exactly one per invalid listing,
   * carrying "Listing '<listing>' failed validation: " and the validator's
   * messages joined with ". ", with the serialized listing as its data.
   */
  lemma RejectionLaw(listingResults: seq<ListingResult>, c: Collaborators)
    ensures |Accepted(listingResults, c)| + |Rejected(listingResults, c)| == |listingResults|
    ensures forall e :: e in Rejected(listingResults, c) <==>
              exists k | 0 <= k < |listingResults| ::
                !c.validate(listingResults[k].listing).isValid &&
                e == ParsedError("Listing '" + c.describe(listingResults[k].listing) + "' failed validation: " +
                                 JoinWith(". ", c.validate(listingResults[k].listing).errorMessages),
                                 c.serialize(listingResults[k].listing))
  {
    ValidationGate.PartitionLaw(listingResults, IsValid(c), RejectionError(c));
  }

  /**
   * A header without either sentinel: the errors the header line reported,
   * then one fixed error naming both columns, with "csv headers" as its
   * data; no listing, and no data row read (the rows and any later
   * exception make no difference).
   */
  lemma UndetectedSchemaLaw(source: Source, c: Collaborators, rows: seq<Row>, failure: Option<string>)
    requires source.header.HeaderRecord? && DetectSchema(source.header.names).None?
    ensures ParseOutcome(source, c) ==
            Parsed([], FaultErrors(source.header.faults) + [ParsedError(UndetectedMessage, "csv headers")])
    ensures ParseOutcome(source.(rows := rows, failure := failure), c) == ParseOutcome(source, c)
    ensures Contains(UndetectedMessage, "'sold_date'") && Contains(UndetectedMessage, "'rent_date'")
  {
    UndetectedMessageNamesSentinels();
  }

  /** The undetected-schema message names both sentinel columns. */
  lemma UndetectedMessageNamesSentinels()
    ensures Contains(UndetectedMessage, "'sold_date'") && Contains(UndetectedMessage, "'rent_date'")
  {
    assert UndetectedMessage == UndetectedHead + "'sold_date'" + (" or " + "'rent_date'" + UndetectedTail);
    ContainsMiddle(UndetectedHead, "'sold_date'", " or " + "'rent_date'" + UndetectedTail);
    ContainsMiddle(UndetectedHead + "'sold_date'" + " or ", "'rent_date'", UndetectedTail);
  }

  /**
   * An exception is caught: the header's exception leaves the errors the
   * header line reported and then one error; one during the rows keeps the
   * reader errors reported before it, adds one error with the exception's
   * message and "reading csv data.", and no listing survives because
   * validation never runs.
   */
  lemma ExceptionLaw(source: Source, c: Collaborators)
    ensures source.header.HeaderThrew? ==>
              ParseOutcome(source, c) ==
              Parsed([], FaultErrors(source.header.faults) + [ParsedError(source.header.message, "reading csv data.")])
    ensures source.header.HeaderRecord? && DetectSchema(source.header.names).Some? && source.failure.Some? ==>
              var schema := DetectSchema(source.header.names).value;
              var out := ParseOutcome(source, c);
              var completed := ParseOutcome(source.(failure := None), c);
              out.listings == [] &&
              |out.errors| == |ReaderErrors(source, schema)| + 1 &&
              out.errors[..|out.errors| - 1] == completed.errors[..|ReaderErrors(source, schema)|] &&
              out.errors[|out.errors| - 1] == ParsedError(source.failure.value, "reading csv data.")
  {
    if source.header.HeaderRecord? && DetectSchema(source.header.names).Some? && source.failure.Some? {
      var schema := DetectSchema(source.header.names).value;
      var readerErrors := ReaderErrors(source, schema);
      var completed := ParseOutcome(source.(failure := None), c);
      assert completed.errors[..|readerErrors|] == readerErrors;
      assert (readerErrors + [ParsedError(source.failure.value, ExceptionData)])[..|readerErrors|] == readerErrors;
    }
  }
}
