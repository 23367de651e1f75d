/**
 * The older generation's sold row (`SoldListing`) and its conversion to a
 * `ResidentialListing`. Unlike the current builder it leaves the source
 * status unset; its title text is the same.
 */
module LegacySoldListing {
  import opened Common
  import opened OreCore
  import NumberFormat
  import LegacyListing
  import CsvResidentialListing

  datatype Row = Row(fields: LegacyListing.Fields, soldOn: DateTime, soldPrice: Int32)

  /** The listing the legacy ToOreListing returns for a sold row. */
  function SoldOreListing(row: Row, c: Collaborators): Listing {
    LegacyListing.CopiedListing(row.fields, NewListing(Residential)).(
      createdOn := row.soldOn,
      updatedOn := row.soldOn,
      statusType := Sold,
      propertyType := c.toPropertyType(row.fields.propertyType),
      pricing := Some(SalePricing(Some(row.soldOn), Some(row.soldPrice as int))),
      title := Some(CsvResidentialListing.SoldTitle(row.soldPrice)))
  }

  /**
   * A sold row becomes a residential listing created and updated on the
   * sold date, status Sold, no source status, sale pricing holding the sold
   * date and price, the mapped property type, and "Sold: price undisclosed."
   * exactly when the price is not positive; the title is otherwise
   * "Sold: $", the N0 text of the price and ".".
   */
  lemma SoldOreListingLaw(row: Row, c: Collaborators)
    ensures var l := SoldOreListing(row, c);
      l.kind == Residential &&
      l.createdOn == row.soldOn && l.updatedOn == row.soldOn &&
      l.statusType == Sold && l.sourceStatus.None? &&
      l.pricing == Some(SalePricing(Some(row.soldOn), Some(row.soldPrice as int))) &&
      l.propertyType == c.toPropertyType(row.fields.propertyType) &&
      l.title.Some? && (l.title.value == "Sold: price undisclosed." <==> row.soldPrice <= 0) &&
      (row.soldPrice > 0 ==> l.title.value == "Sold: $" + NumberFormat.N0(row.soldPrice as nat) + ".")
    ensures var l := SoldOreListing(row, c);
      var shared := LegacyListing.CopiedListing(row.fields, NewListing(Residential));
      l.id == shared.id && l.agencyId == shared.agencyId && l.address == shared.address &&
      l.agents == shared.agents && l.features == shared.features
  {
    CsvResidentialListing.SoldTitleUndisclosed(row.soldPrice);
    if row.soldPrice > 0 {
      CsvResidentialListing.SoldTitleOfPrice(row.soldPrice);
    }
  }

  /** `SoldListing.ToOreListing`. */
  method ToOreListing(row: Row, c: Collaborators) returns (listing: Listing)
    ensures listing == SoldOreListing(row, c)
  {
    listing := NewListing(Residential);

    listing := LegacyListing.CopyOverListingData(row.fields, listing);

    listing := listing.(createdOn := row.soldOn);
    listing := listing.(updatedOn := row.soldOn);
    listing := listing.(statusType := Sold);

    listing := listing.(propertyType := c.toPropertyType(row.fields.propertyType));

    listing := listing.(pricing := Some(SalePricing(Some(row.soldOn), Some(row.soldPrice as int))));

    var rentalPriceText := if row.soldPrice > 0 then "$" + NumberFormat.N0(row.soldPrice as nat)
                           else "price undisclosed";
    listing := listing.(title := Some("Sold: " + rentalPriceText + "."));
  }
}
