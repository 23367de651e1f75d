/**
 * `CsvResidentialListing`: a sold row and its conversion to a
 * `ResidentialListing` (shared fields first, then dates, status, pricing
 * and the "Sold: ..." title).
 */
module CsvResidentialListing {
  import opened Common
  import opened OreCore
  import CsvListing
  import NumberFormat

  datatype Row = Row(fields: CsvListing.Fields, soldOn: DateTime, soldPrice: Int32)

  /** `$"Sold: {rentalPriceText}."`. */
  function SoldTitle(soldPrice: Int32): string {
    "Sold: " + CsvListing.PriceText(soldPrice) + "."
  }

  /**
   * The title says "price undisclosed" exactly when the price is not
   * positive (zero or negative); otherwise it carries the price, written
   * with thousands separators as N0 does, which reads back as the price itself.
   */
  lemma SoldTitleLaw(soldPrice: Int32)
    ensures SoldTitle(soldPrice) == "Sold: price undisclosed." <==> soldPrice <= 0
    ensures soldPrice > 0 ==>
              var t := SoldTitle(soldPrice);
              |t| > 8 && t[..7] == "Sold: $" && t[|t| - 1] == '.' &&
              t[7..|t| - 1] == NumberFormat.N0(soldPrice as nat) && NumberFormat.ThousandsGrouped(t[7..|t| - 1]) &&
              NumberFormat.DigitsValue(NumberFormat.RemoveCommas(t[7..|t| - 1])) == soldPrice as int
  {
    SoldTitleUndisclosed(soldPrice);
    if soldPrice > 0 {
      SoldTitlePriced(soldPrice);
    }
  }

  lemma SoldTitleUndisclosed(soldPrice: Int32)
    ensures SoldTitle(soldPrice) == "Sold: price undisclosed." <==> soldPrice <= 0
  {
    var pt := CsvListing.PriceText(soldPrice);
    assert SoldTitle(soldPrice) == "Sold: " + pt + ".";
    CsvListing.PriceTextUndisclosed(soldPrice);
    WrapInjective("Sold: ", pt, "price undisclosed", ".");
    assert "Sold: price undisclosed." == "Sold: " + "price undisclosed" + ".";
  }

  /** For a positive price, the title is the prefix, "$", the N0 text of the price and ".". */
  lemma SoldTitleOfPrice(soldPrice: Int32)
    requires soldPrice > 0
    ensures SoldTitle(soldPrice) == "Sold: $" + NumberFormat.N0(soldPrice as nat) + "."
  {
    assert "Sold: " + "$" == "Sold: $";
    assert CsvListing.PriceText(soldPrice) == "$" + NumberFormat.N0(soldPrice as nat);
  }

  lemma SoldTitlePriced(soldPrice: Int32)
    requires soldPrice > 0
    ensures var t := SoldTitle(soldPrice);
            |t| > 8 && t[..7] == "Sold: $" && t[|t| - 1] == '.' &&
            t[7..|t| - 1] == NumberFormat.N0(soldPrice as nat) && NumberFormat.ThousandsGrouped(t[7..|t| - 1]) &&
            NumberFormat.DigitsValue(NumberFormat.RemoveCommas(t[7..|t| - 1])) == soldPrice as int
  {
    CsvListing.PriceTextLaw(soldPrice);
    CsvListing.WrappedPriceText("Sold: ", CsvListing.PriceText(soldPrice), '.');
    assert "Sold: " + "$" == "Sold: $";
  }

  /** The listing ToOreListing returns for a sold row. */
  function ResidentialOreListing(row: Row, c: Collaborators): Listing {
    CsvListing.CopiedListing(row.fields, NewListing(Residential), c).(
      createdOn := row.soldOn,
      updatedOn := row.soldOn,
      statusType := Sold,
      sourceStatus := Some(StatusTypeName(Sold)),
      propertyType := c.toPropertyType(row.fields.propertyType),
      pricing := Some(SalePricing(Some(row.soldOn), Some(row.soldPrice as int))),
      title := Some(SoldTitle(row.soldPrice)))
  }

  /**
   * What a sold row becomes: a residential listing created and updated on
   * the sold date, status Sold with source status "Sold", sale pricing
   * holding the sold date and price unchanged, the property type the
   * collaborator maps the row's type to, the sold title ("price undisclosed"
   * exactly when the price is not positive, else the N0 text of the price),
   * and the shared fields exactly as CopyOverListingData sets them.
   */
  lemma ResidentialOreListingLaw(row: Row, c: Collaborators)
    ensures var l := ResidentialOreListing(row, c);
      l.kind == Residential &&
      l.createdOn == row.soldOn && l.updatedOn == row.soldOn &&
      l.statusType == Sold && l.sourceStatus == Some("Sold") &&
      l.pricing == Some(SalePricing(Some(row.soldOn), Some(row.soldPrice as int))) &&
      l.propertyType == c.toPropertyType(row.fields.propertyType) &&
      l.title.Some? && (l.title.value == "Sold: price undisclosed." <==> row.soldPrice <= 0) &&
      (row.soldPrice > 0 ==> l.title.value == "Sold: $" + NumberFormat.N0(row.soldPrice as nat) + ".")
    ensures var l := ResidentialOreListing(row, c);
      var shared := CsvListing.CopiedListing(row.fields, NewListing(Residential), c);
      l.id == shared.id && l.agencyId == shared.agencyId && l.address == shared.address &&
      l.agents == shared.agents && l.features == shared.features
  {
    SoldTitleUndisclosed(row.soldPrice);
    if row.soldPrice > 0 {
      SoldTitleOfPrice(row.soldPrice);
    }
  }

  /** `CsvResidentialListing.ToOreListing`. */
  method ToOreListing(row: Row, c: Collaborators) returns (listing: Listing)
    ensures listing == ResidentialOreListing(row, c)
  {
    listing := NewListing(Residential);

    listing := CsvListing.CopyOverListingData(row.fields, listing, c);

    listing := listing.(createdOn := row.soldOn);
    listing := listing.(updatedOn := row.soldOn);
    listing := listing.(statusType := Sold);
    listing := listing.(sourceStatus := Some(StatusTypeName(Sold)));

    listing := listing.(propertyType := c.toPropertyType(row.fields.propertyType));

    listing := listing.(pricing := Some(SalePricing(Some(row.soldOn), Some(row.soldPrice as int))));

    var rentalPriceText := if row.soldPrice > 0 then "$" + NumberFormat.N0(row.soldPrice as nat)
                           else "price undisclosed";
    listing := listing.(title := Some("Sold: " + rentalPriceText + "."));
  }
}
