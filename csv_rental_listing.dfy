/**
 * `CsvRentalListing`: a rental row and its conversion to a `RentalListing`
 * (shared fields first, then dates, status, pricing and the "Rented: ..."
 * title).
 */
module CsvRentalListing {
  import opened Common
  import opened OreCore
  import CsvListing
  import NumberFormat

  datatype Row = Row(fields: CsvListing.Fields, leasedOn: DateTime, rentPrice: Int32)

  /** `$"Rented: {rentalPriceText}."`. */
  function RentedTitle(rentPrice: Int32): string {
    "Rented: " + CsvListing.PriceText(rentPrice) + "."
  }

  /**
   * The title says "price undisclosed" exactly when the rent is not
   * positive; otherwise it carries the rent, written with thousands
   * separators, which reads back as the rent itself.
   */
  lemma RentedTitleLaw(rentPrice: Int32)
    ensures RentedTitle(rentPrice) == "Rented: price undisclosed." <==> rentPrice <= 0
    ensures rentPrice > 0 ==>
              var t := RentedTitle(rentPrice);
              |t| > 10 && t[..9] == "Rented: $" && t[|t| - 1] == '.' &&
              t[9..|t| - 1] == NumberFormat.N0(rentPrice as nat) && NumberFormat.ThousandsGrouped(t[9..|t| - 1]) &&
              NumberFormat.DigitsValue(NumberFormat.RemoveCommas(t[9..|t| - 1])) == rentPrice as int
  {
    RentedTitleUndisclosed(rentPrice);
    if rentPrice > 0 {
      RentedTitlePriced(rentPrice);
    }
  }

  lemma RentedTitleUndisclosed(rentPrice: Int32)
    ensures RentedTitle(rentPrice) == "Rented: price undisclosed." <==> rentPrice <= 0
  {
    var pt := CsvListing.PriceText(rentPrice);
    assert RentedTitle(rentPrice) == "Rented: " + pt + ".";
    CsvListing.PriceTextUndisclosed(rentPrice);
    WrapInjective("Rented: ", pt, "price undisclosed", ".");
    assert "Rented: price undisclosed." == "Rented: " + "price undisclosed" + ".";
  }

  /** For a positive price, the title is the prefix, "$", the N0 text of the price and ".". */
  lemma RentedTitleOfPrice(rentPrice: Int32)
    requires rentPrice > 0
    ensures RentedTitle(rentPrice) == "Rented: $" + NumberFormat.N0(rentPrice as nat) + "."
  {
    assert "Rented: " + "$" == "Rented: $";
    assert CsvListing.PriceText(rentPrice) == "$" + NumberFormat.N0(rentPrice as nat);
  }

  lemma RentedTitlePriced(rentPrice: Int32)
    requires rentPrice > 0
    ensures var t := RentedTitle(rentPrice);
            |t| > 10 && t[..9] == "Rented: $" && t[|t| - 1] == '.' &&
            t[9..|t| - 1] == NumberFormat.N0(rentPrice as nat) && NumberFormat.ThousandsGrouped(t[9..|t| - 1]) &&
            NumberFormat.DigitsValue(NumberFormat.RemoveCommas(t[9..|t| - 1])) == rentPrice as int
  {
    CsvListing.PriceTextLaw(rentPrice);
    CsvListing.WrappedPriceText("Rented: ", CsvListing.PriceText(rentPrice), '.');
    assert "Rented: " + "$" == "Rented: $";
  }

  /** The listing ToOreListing returns for a rental row. */
  function RentalOreListing(row: Row, c: Collaborators): Listing {
    CsvListing.CopiedListing(row.fields, NewListing(Rental), c).(
      createdOn := row.leasedOn,
      updatedOn := row.leasedOn,
      statusType := Leased,
      sourceStatus := Some(StatusTypeName(Leased)),
      propertyType := c.toPropertyType(row.fields.propertyType),
      pricing := Some(RentalPricing(row.rentPrice as int, Some(row.leasedOn))),
      title := Some(RentedTitle(row.rentPrice)))
  }

  /**
   * What a rental row becomes: a rental listing created and updated on the
   * leased date, status Leased with source status "Leased", rental pricing
   * with the rent as rental price and the leased date as rented-on date,
   * the property type the collaborator maps the row's type to, the rented
   * title ("price undisclosed" exactly when the rent is not positive, else
   * the N0 text of the rent), and the shared fields exactly as
   * CopyOverListingData sets them.
   */
  lemma RentalOreListingLaw(row: Row, c: Collaborators)
    ensures var l := RentalOreListing(row, c);
      l.kind == Rental &&
      l.createdOn == row.leasedOn && l.updatedOn == row.leasedOn &&
      l.statusType == Leased && l.sourceStatus == Some("Leased") &&
      l.pricing == Some(RentalPricing(row.rentPrice as int, Some(row.leasedOn))) &&
      l.propertyType == c.toPropertyType(row.fields.propertyType) &&
      l.title.Some? && (l.title.value == "Rented: price undisclosed." <==> row.rentPrice <= 0) &&
      (row.rentPrice > 0 ==> l.title.value == "Rented: $" + NumberFormat.N0(row.rentPrice as nat) + ".")
    ensures var l := RentalOreListing(row, c);
      var shared := CsvListing.CopiedListing(row.fields, NewListing(Rental), c);
      l.id == shared.id && l.agencyId == shared.agencyId && l.address == shared.address &&
      l.agents == shared.agents && l.features == shared.features
  {
    RentedTitleUndisclosed(row.rentPrice);
    if row.rentPrice > 0 {
      RentedTitleOfPrice(row.rentPrice);
    }
  }

  /** `CsvRentalListing.ToOreListing`. */
  method ToOreListing(row: Row, c: Collaborators) returns (listing: Listing)
    ensures listing == RentalOreListing(row, c)
  {
    listing := NewListing(Rental);

    listing := CsvListing.CopyOverListingData(row.fields, listing, c);

    listing := listing.(createdOn := row.leasedOn);
    listing := listing.(updatedOn := row.leasedOn);
    listing := listing.(statusType := Leased);
    listing := listing.(sourceStatus := Some(StatusTypeName(Leased)));

    listing := listing.(propertyType := c.toPropertyType(row.fields.propertyType));

    listing := listing.(pricing := Some(RentalPricing(row.rentPrice as int, Some(row.leasedOn))));

    var rentalPriceText := if row.rentPrice > 0 then "$" + NumberFormat.N0(row.rentPrice as nat)
                           else "price undisclosed";
    listing := listing.(title := Some("Rented: " + rentalPriceText + "."));
  }
}
