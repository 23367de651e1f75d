/**
 * What the CSV reader (CsvHelper) hands the orchestrators, as values.
 * Tokenizing, quoting and text-to-value conversion happen inside the
 * library; the model starts from their outcome:
 *  - the header record, or the message of the exception reading it threw,
 *    with the faults the callbacks reported while the header line was read;
 *  - for each data row, what `GetRecord<T>` gives under each row type:
 *    the faults it reported through the configured callbacks, then the
 *    record or null;
 *  - the reader's `ToString()` text at that row;
 *  - optionally, the message of an exception thrown after the rows given.
 * The two orchestrators share the callbacks' message formats.
 */
module CsvReading {
  import opened Common
  import NumberFormat

  /** The three callbacks: BadDataFound, MissingFieldFound, ReadingExceptionOccurred. */
  datatype ReaderFault =
    | BadDataFound(rawRow: int, rawRecord: string)
    | MissingFieldFound(headerNames: seq<string>, index: int, rawRecord: string)
    | ReadingExceptionOccurred(message: string, rawRecord: string)

  /** One `GetRecord<T>` call: the faults reported while binding, then the record (None is null). */
  datatype Binding<T> = Binding(faults: seq<ReaderFault>, record: Option<T>)

  /** A data row, as either row type would bind it, and the reader's text at that row. */
  datatype DataRow<S, R> = DataRow(asSold: Binding<S>, asRental: Binding<R>, readerText: string)

  /**
   * `Read(); ReadHeader();` either yields the header record or throws.
   * The callbacks are installed before the header is read, so parsing the
   * header line can report faults too (a stray quote, say), in either case.
   */
  datatype Header =
    | HeaderThrew(faults: seq<ReaderFault>, message: string)
    | HeaderRecord(faults: seq<ReaderFault>, names: seq<string>)

  /**
   * A whole reader script. `failure` is the message of an exception that
   * escapes after `rows` (from `ReadAsync` on the next line, say).
   */
  datatype CsvSource<S, R> = CsvSource(header: Header, rows: seq<DataRow<S, R>>, failure: Option<string>)

  const BadDataPrefix := "Bad data found on row '"
  const MissingFieldPrefix := "Field with names ['"
  const ReadingExceptionPrefix := "Reading exception: "

  /** The message each callback composes. */
  function FaultMessage(fault: ReaderFault): string {
    match fault
    case BadDataFound(rawRow, _) =>
      BadDataPrefix + NumberFormat.IntToString(rawRow) + "'"
    case MissingFieldFound(headerNames, index, _) =>
      MissingFieldPrefix + JoinWith("', '", headerNames) + "'] at index '" +
      NumberFormat.IntToString(index) + "' was not found."
    case ReadingExceptionOccurred(message, _) =>
      ReadingExceptionPrefix + message
  }

  /** The row text each callback attaches: the context's raw record. */
  function FaultRawRecord(fault: ReaderFault): string {
    fault.rawRecord
  }

  /**
   * The three kinds of message start differently ('B', 'F', 'R'), and none
   * starts like a validation message ("Listing '...").
   */
  lemma FaultMessageKinds(fault: ReaderFault)
    ensures |FaultMessage(fault)| > 0
    ensures FaultMessage(fault)[0] == (match fault
                                       case BadDataFound(_, _) => 'B'
                                       case MissingFieldFound(_, _, _) => 'F'
                                       case ReadingExceptionOccurred(_, _) => 'R')
    ensures FaultMessage(fault)[0] != 'L'
  {
    match fault
    case BadDataFound(_, _) =>
      assert FaultMessage(fault)[0] == BadDataPrefix[0];
    case MissingFieldFound(_, _, _) =>
      assert FaultMessage(fault)[0] == MissingFieldPrefix[0];
    case ReadingExceptionOccurred(_, _) =>
      assert FaultMessage(fault)[0] == ReadingExceptionPrefix[0];
  }

  /** A bad-data message names the row: different rows give different messages. */
  lemma BadDataMessageNamesRow(row1: int, row2: int, record1: string, record2: string)
    ensures FaultMessage(BadDataFound(row1, record1)) == FaultMessage(BadDataFound(row2, record2)) <==> row1 == row2
  {
    var s1, s2 := NumberFormat.IntToString(row1), NumberFormat.IntToString(row2);
    WrapInjective(BadDataPrefix, s1, s2, "'");
    NumberFormat.IntToStringRoundTrip(row1);
    NumberFormat.IntToStringRoundTrip(row2);
  }

  /** A reading-exception message carries the exception's own message, recoverable after the prefix. */
  lemma ReadingExceptionMessageRoundTrip(message: string, record: string)
    ensures var m := FaultMessage(ReadingExceptionOccurred(message, record));
            |m| == |ReadingExceptionPrefix| + |message| &&
            m[..|ReadingExceptionPrefix|] == ReadingExceptionPrefix && m[|ReadingExceptionPrefix|..] == message
  {
  }

  /** What the file holds, as the header announced it (`isASoldListing`). */
  datatype Schema = SoldFile | RentalFile

  /** The faults binding a row as the schema's record type reports. */
  function RowFaults<S, R>(schema: Schema, row: DataRow<S, R>): seq<ReaderFault> {
    match schema
    case SoldFile => row.asSold.faults
    case RentalFile => row.asRental.faults
  }

  /** `GetRecord` gave a record (not null) for the row under the schema's record type. */
  predicate RowBinds<S, R>(schema: Schema, row: DataRow<S, R>) {
    match schema
    case SoldFile => row.asSold.record.Some?
    case RentalFile => row.asRental.record.Some?
  }

  /** How many rows bind, counted from the front. */
  function BoundRows<S, R>(schema: Schema, rows: seq<DataRow<S, R>>): nat {
    if rows == [] then 0 else (if RowBinds(schema, rows[0]) then 1 else 0) + BoundRows(schema, rows[1..])
  }

  /**
   * What a loop that appends `f(item)` for each item, in order, has collected
   * (defined from the end, the way the loop appends).
   */
  function Collect<T, U>(items: seq<T>, f: T -> seq<U>): seq<U> {
    if items == [] then [] else Collect(items[..|items| - 1], f) + f(items[|items| - 1])
  }

  /** Collecting over consecutive stretches of items concatenates. */
  lemma {:induction false} CollectAppend<T, U>(a: seq<T>, b: seq<T>, f: T -> seq<U>)
    ensures Collect(a + b, f) == Collect(a, f) + Collect(b, f)
    decreases |b|
  {
    if b == [] {
      assert a + b == a;
    } else {
      var b' := b[..|b| - 1];
      assert (a + b)[..|a + b| - 1] == a + b';
      assert (a + b)[|a + b| - 1] == b[|b| - 1];
      CollectAppend(a, b', f);
    }
  }

  lemma CollectOne<T, U>(x: T, f: T -> seq<U>)
    ensures Collect([x], f) == f(x)
  {
    assert [x][..0] == [];
  }
}
