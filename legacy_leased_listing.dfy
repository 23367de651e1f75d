/**
 * The older generation's leased row (`LeasedListing`) and its conversion
 * to a `RentalListing`. Unlike the current builder it leaves the source
 * status unset; its title text is the same.
 */
module LegacyLeasedListing {
  import opened Common
  import opened OreCore
  import NumberFormat
  import LegacyListing
  import CsvRentalListing

  datatype Row = Row(fields: LegacyListing.Fields, leasedOn: DateTime, rentPrice: Int32)

  /** The listing the legacy ToOreListing returns for a leased row. */
  function LeasedOreListing(row: Row, c: Collaborators): Listing {
    LegacyListing.CopiedListing(row.fields, NewListing(Rental)).(
      createdOn := row.leasedOn,
      updatedOn := row.leasedOn,
      statusType := Leased,
      propertyType := c.toPropertyType(row.fields.propertyType),
      pricing := Some(RentalPricing(row.rentPrice as int, Some(row.leasedOn))),
      title := Some(CsvRentalListing.RentedTitle(row.rentPrice)))
  }

  /**
   * A leased row becomes a rental listing created and updated on the leased
   * date, status Leased, no source status, rental pricing with the rent and
   * the leased date, the mapped property type, and "Rented: price
   * undisclosed." exactly when the rent is not positive; the title is
   * otherwise "Rented: $", the N0 text of the rent and ".".
   */
  lemma LeasedOreListingLaw(row: Row, c: Collaborators)
    ensures var l := LeasedOreListing(row, c);
      l.kind == Rental &&
      l.createdOn == row.leasedOn && l.updatedOn == row.leasedOn &&
      l.statusType == Leased && l.sourceStatus.None? &&
      l.pricing == Some(RentalPricing(row.rentPrice as int, Some(row.leasedOn))) &&
      l.propertyType == c.toPropertyType(row.fields.propertyType) &&
      l.title.Some? && (l.title.value == "Rented: price undisclosed." <==> row.rentPrice <= 0) &&
      (row.rentPrice > 0 ==> l.title.value == "Rented: $" + NumberFormat.N0(row.rentPrice as nat) + ".")
    ensures var l := LeasedOreListing(row, c);
      var shared := LegacyListing.CopiedListing(row.fields, NewListing(Rental));
      l.id == shared.id && l.agencyId == shared.agencyId && l.address == shared.address &&
      l.agents == shared.agents && l.features == shared.features
  {
    CsvRentalListing.RentedTitleUndisclosed(row.rentPrice);
    if row.rentPrice > 0 {
      CsvRentalListing.RentedTitleOfPrice(row.rentPrice);
    }
  }

  /** `LeasedListing.ToOreListing`. */
  method ToOreListing(row: Row, c: Collaborators) returns (listing: Listing)
    ensures listing == LeasedOreListing(row, c)
  {
    listing := NewListing(Rental);

    listing := LegacyListing.CopyOverListingData(row.fields, listing);

    listing := listing.(createdOn := row.leasedOn);
    listing := listing.(updatedOn := row.leasedOn);
    listing := listing.(statusType := Leased);

    listing := listing.(propertyType := c.toPropertyType(row.fields.propertyType));

    listing := listing.(pricing := Some(RentalPricing(row.rentPrice as int, Some(row.leasedOn))));

    var rentalPriceText := if row.rentPrice > 0 then "$" + NumberFormat.N0(row.rentPrice as nat)
                           else "price undisclosed";
    listing := listing.(title := Some("Rented: " + rentalPriceText + "."));
  }
}
