/**
 * The older generation's row DTO (`OpenRealEstate.NET...Csv.Listing`) and
 * its shared conversion. It differs from the current `CsvListing` in three
 * ways: absent street parts are "" instead of null, the display address is
 * never set, and the agents arrive already collected (by the column map's
 * converter) and are mapped one-to-one.
 */
module LegacyListing {
  import opened Common
  import opened OreCore
  import NumberFormat
  import StreetSplit
  import CsvListing

  /** The DTO's own agent: a name and a phone number, copied from the row verbatim. */
  datatype CsvAgent = CsvAgent(name: Option<string>, phoneNumber: Option<string>)

  datatype Fields = Fields(
    id: Int32,
    stateCode: Option<string>,
    latitude: Decimal,
    longitude: Decimal,
    imageUrl: Option<string>,
    propertyType: Option<string>,
    street: Option<string>,
    suburb: Option<string>,
    postcode: Option<string>,
    bedrooms: Byte,
    bathrooms: Byte,
    carSpaces: Byte,
    agencyName: Option<string>,
    agents: seq<CsvAgent>)

  // ---------------------------------------------------------------- street

  /** The (StreetNumber, Street) pair the legacy split stores; absent parts are "". */
  function LegacyStreetParts(street: Option<string>): (string, string) {
    var streetSplit := if IsNullOrWhiteSpace(street) then None else Some(StreetSplit.Split(street.value));
    if streetSplit.Some? && |streetSplit.value| > 0 then
      if |streetSplit.value| == 1 then ("", StreetSplit.Join(streetSplit.value))
      else (streetSplit.value[0], StreetSplit.Join(streetSplit.value[1..]))
    else ("", "")
  }

  function OrEmpty(s: Option<string>): string {
    if s.Some? then s.value else ""
  }

  /**
   * The two generations split a street alike: the legacy pair is the
   * current one with null read as "" (so the legacy split never stores null).
   */
  lemma LegacyStreetPartsAgree(street: Option<string>)
    ensures LegacyStreetParts(street) ==
              (OrEmpty(CsvListing.StreetParts(street).0), OrEmpty(CsvListing.StreetParts(street).1))
  {
  }

  /**
   * The cases the legacy tests build as "<number> <street>": a blank number
   * and a blank or one-word street, or a number and a street in collapsed
   * form; the street number and street come back, blank ones as "".
   */
  lemma LegacyStreetPartsOfTestShape(number: string, name: string)
    requires (number == "" && (name == "" || (StreetSplit.IsToken(name) && exists i | 0 <= i < |name| :: !IsWhiteSpace(name[i])))) ||
             (StreetSplit.IsToken(number) && (exists i | 0 <= i < |number| :: !IsWhiteSpace(number[i])) &&
              StreetSplit.Collapsed(name) && name != [])
    ensures LegacyStreetParts(Some(number + " " + name)) == (number, name)
  {
    var s := number + " " + name;
    LegacyStreetPartsAgree(Some(s));
    if number == "" {
      assert s == " " + name;
      assert s[1..] == name;
      if name == "" {
        assert IsWhiteSpace(s[0]);
        assert IsNullOrWhiteSpace(Some(s));
      } else {
        CsvListing.NotBlankWhenTokenIsNot(name, []);
        assert name + [] == name;
        var i :| 0 <= i < |name| && !IsWhiteSpace(name[i]);
        assert s[i + 1] == name[i];
        StreetSplit.SplitAfterToken(name, []);
        assert StreetSplit.Split(s) == StreetSplit.Split(name);
      }
    } else {
      CsvListing.StreetPartsOfNumberAndStreet(number, name);
    }
  }

  /** Sets StreetNumber and Street from the free-text street ("" where a part is absent). */
  method CalculateStreetNumberAndStreet(street: Option<string>, address: Address) returns (updated: Address)
    ensures updated.streetNumber == Some(LegacyStreetParts(street).0)
    ensures updated.street == Some(LegacyStreetParts(street).1)
    ensures updated == address.(streetNumber := updated.streetNumber, street := updated.street)
  {
    var streetSplit: Option<seq<string>> :=
      if IsNullOrWhiteSpace(street) then None else Some(StreetSplit.Split(street.value));

    var streetNumber := "";
    var streetName := "";

    if streetSplit.Some? && |streetSplit.value| > 0 {
      if |streetSplit.value| == 1 {
        streetName := StreetSplit.Join(streetSplit.value);
      } else {
        streetNumber := streetSplit.value[0];
        streetName := StreetSplit.Join(streetSplit.value[1..]);
      }
    }

    updated := address.(streetNumber := Some(streetNumber), street := Some(streetName));
  }

  // ---------------------------------------------------------------- copy

  /** `from agent in Agents select new Core.Agent {...}`: one agent per DTO agent, in order. */
  function ListingAgents(agents: seq<CsvAgent>): (r: seq<Agent>)
    ensures |r| == |agents|
    ensures forall k | 0 <= k < |agents| ::
              r[k] == Agent(agents[k].name, [Communication(Mobile, agents[k].phoneNumber)])
  {
    seq(|agents|, k requires 0 <= k < |agents| => Agent(agents[k].name, [Communication(Mobile, agents[k].phoneNumber)]))
  }

  function LegacyAddress(fields: Fields): Address {
    var (num, name) := LegacyStreetParts(fields.street);
    Address(Some(num), Some(name), fields.suburb, fields.stateCode, fields.postcode, Some("AU"),
            Some(fields.latitude), Some(fields.longitude), None)
  }

  /** The listing after the legacy CopyOverListingData. */
  function CopiedListing(fields: Fields, listing: Listing): Listing {
    listing.(
      id := Some(NumberFormat.IntToString(fields.id as int)),
      agencyId := fields.agencyName,
      address := Some(LegacyAddress(fields)),
      agents := ListingAgents(fields.agents),
      features := Some(Features(fields.bedrooms as int, fields.bathrooms as int,
                                Some(CarParking(fields.carSpaces as int)))))
  }

  /**
   * The legacy address is the current one without a display address and
   * with "" for absent street parts, given the same row values.
   */
  lemma LegacyAddressAgrees(fields: Fields, current: CsvListing.Fields, toFormattedAddress: Address -> string)
    requires current.street == fields.street && current.suburb == fields.suburb &&
             current.stateCode == fields.stateCode && current.postcode == fields.postcode &&
             current.latitude == fields.latitude && current.longitude == fields.longitude
    ensures var a := CsvListing.ListingAddress(current, toFormattedAddress);
            LegacyAddress(fields) ==
              a.(streetNumber := Some(OrEmpty(a.streetNumber)), street := Some(OrEmpty(a.street)), displayAddress := None)
  {
    LegacyStreetPartsAgree(fields.street);
  }

  /** What the legacy CopyOverListingData sets, and what it leaves as it was. */
  lemma CopiedListingLaw(fields: Fields, listing: Listing)
    ensures var l := CopiedListing(fields, listing);
      l.address.Some? && l.address.value.countryIsoCode == Some("AU") &&
      l.address.value.displayAddress.None? &&
      l.address.value.streetNumber == Some(LegacyStreetParts(fields.street).0) &&
      l.address.value.street == Some(LegacyStreetParts(fields.street).1) &&
      l.address.value.suburb == fields.suburb && l.address.value.state == fields.stateCode &&
      l.address.value.postcode == fields.postcode &&
      l.address.value.latitude == Some(fields.latitude) && l.address.value.longitude == Some(fields.longitude) &&
      l.agencyId == fields.agencyName &&
      |l.agents| == |fields.agents| &&
      (forall k | 0 <= k < |l.agents| ::
         l.agents[k].name == fields.agents[k].name && |l.agents[k].communications| == 1 &&
         l.agents[k].communications[0] == Communication(Mobile, fields.agents[k].phoneNumber)) &&
      l.features == Some(Features(fields.bedrooms as int, fields.bathrooms as int, Some(CarParking(fields.carSpaces as int)))) &&
      l.kind == listing.kind && l.pricing == listing.pricing && l.title == listing.title &&
      l.statusType == listing.statusType && l.sourceStatus == listing.sourceStatus &&
      l.createdOn == listing.createdOn && l.updatedOn == listing.updatedOn &&
      l.propertyType == listing.propertyType
    ensures CopiedListing(fields, listing).id.Some? &&
            var s := CopiedListing(fields, listing).id.value;
            (if s[0] == '-' then -NumberFormat.DigitsValue(s[1..]) else NumberFormat.DigitsValue(s)) == fields.id as int
  {
    NumberFormat.IntToStringRoundTrip(fields.id as int);
  }

  /** Fills the shared fields of a freshly allocated listing from the row. */
  method CopyOverListingData(fields: Fields, listing: Listing) returns (result: Listing)
    ensures result == CopiedListing(fields, listing)
  {
    result := listing.(id := Some(NumberFormat.IntToString(fields.id as int)), agencyId := fields.agencyName);

    var address := Address(None, None, fields.suburb, fields.stateCode, fields.postcode, Some("AU"),
                           Some(fields.latitude), Some(fields.longitude), None);
    address := CalculateStreetNumberAndStreet(fields.street, address);
    result := result.(address := Some(address));

    result := result.(agents := ListingAgents(fields.agents));

    result := result.(features := Some(Features(fields.bedrooms as int, fields.bathrooms as int,
                                                Some(CarParking(fields.carSpaces as int)))));
  }
}
