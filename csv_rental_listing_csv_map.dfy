/**
 * `CsvRentalListingCsvMap`: the shared table plus the two rental
 * columns at positions 12 and 13. Its date column is the header the
 * reader looks for to recognise a rental file.
 */
module CsvRentalListingCsvMap {
  import opened Common
  import opened CsvListingCsvMap

  const DateColumn := "rent_date"

  const Maps: seq<MemberMap> := SchemaMaps(LeasedOn, DateColumn, RentPrice, "rent_price")

  /**
   * The complete table for a rental row: 19 properties on 19 distinct
   * lower-case names, using every position 0 to 18 exactly once.
   */
  lemma MapsWellFormed()
    ensures |Maps| == 19
    ensures Distinct(Names(Maps)) && Distinct(Members(Maps)) && Distinct(IndexList(Maps))
    ensures LowerCaseNames(Maps)
    ensures forall k: nat :: UsesIndex(Maps, k) <==> k < 19
  {
    ColumnsExtendBase();
    SchemaMapsWellFormed(LeasedOn, DateColumn, RentPrice, "rent_price");
  }

  /** Its date and price columns are new properties on new lower-case names. */
  lemma ColumnsExtendBase()
    ensures ExtendsBase(LeasedOn, DateColumn, RentPrice, "rent_price")
  {
    LaterMembersNotShared(LeasedOn);
    LaterMembersNotShared(RentPrice);
    forall i | 0 <= i < |BaseMaps| ensures BaseMaps[i].name != DateColumn && BaseMaps[i].name != "rent_price" {
      BaseNameNotDate(i);
    }
  }

  lemma BaseNameNotDate(i: nat)
    requires i < |BaseMaps|
    ensures BaseMaps[i].name != "rent_date" && BaseMaps[i].name != "rent_price"
  {
  }

  /** The date column is bound (to LeasedOn, at position 12) and is lower-case. */
  lemma DateColumnIsMapped()
    ensures exists i | 0 <= i < |Maps| :: Maps[i] == MemberMap(LeasedOn, DateColumn, Some(12))
    ensures IsLowerCase(DateColumn)
  {
    assert Maps[17] == MemberMap(LeasedOn, DateColumn, Some(12));
  }
}
