/**
 * `CsvResidentialListingCsvMap`: the shared table plus the two sold
 * columns at positions 12 and 13. Its date column is the header the
 * reader looks for to recognise a sold file.
 */
module CsvResidentialListingCsvMap {
  import opened Common
  import opened CsvListingCsvMap

  const DateColumn := "sold_date"

  const Maps: seq<MemberMap> := SchemaMaps(SoldOn, DateColumn, SoldPrice, "sold_price")

  /**
   * The complete table for a sold row: 19 properties on 19 distinct
   * lower-case names, using every position 0 to 18 exactly once.
   */
  lemma MapsWellFormed()
    ensures |Maps| == 19
    ensures Distinct(Names(Maps)) && Distinct(Members(Maps)) && Distinct(IndexList(Maps))
    ensures LowerCaseNames(Maps)
    ensures forall k: nat :: UsesIndex(Maps, k) <==> k < 19
  {
    ColumnsExtendBase();
    SchemaMapsWellFormed(SoldOn, DateColumn, SoldPrice, "sold_price");
  }

  /** Its date and price columns are new properties on new lower-case names. */
  lemma ColumnsExtendBase()
    ensures ExtendsBase(SoldOn, DateColumn, SoldPrice, "sold_price")
  {
    LaterMembersNotShared(SoldOn);
    LaterMembersNotShared(SoldPrice);
    forall i | 0 <= i < |BaseMaps| ensures BaseMaps[i].name != DateColumn && BaseMaps[i].name != "sold_price" {
      BaseNameNotDate(i);
    }
  }

  lemma BaseNameNotDate(i: nat)
    requires i < |BaseMaps|
    ensures BaseMaps[i].name != "sold_date" && BaseMaps[i].name != "sold_price"
  {
  }

  /** The date column is bound (to SoldOn, at position 12) and is lower-case. */
  lemma DateColumnIsMapped()
    ensures exists i | 0 <= i < |Maps| :: Maps[i] == MemberMap(SoldOn, DateColumn, Some(12))
    ensures IsLowerCase(DateColumn)
  {
    assert Maps[17] == MemberMap(SoldOn, DateColumn, Some(12));
  }
}
