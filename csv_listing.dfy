/**
 * `CsvListing`, the row DTO of the current generation, and the part of the
 * conversion shared by sold and rental rows: `CopyOverListingData` (id,
 * agency, address, agents, features) and `CalculateStreetNumberAndStreet`
 * (the rough street split, leaving absent parts null).
 */
module CsvListing {
  import opened Common
  import opened OreCore
  import opened AgentSlots
  import NumberFormat
  import StreetSplit

  /** The columns every row has, as the binder left them (strings may be null). */
  datatype Fields = Fields(
    id: Int32,
    stateCode: Option<string>,
    latitude: Decimal,
    longitude: Decimal,
    imageUrl: Option<string>,
    propertyType: Option<string>,
    street: Option<string>,
    suburb: Option<string>,
    postcode: Option<string>,
    bedrooms: Byte,
    bathrooms: Byte,
    carSpaces: Byte,
    agencyName: Option<string>,
    agent1Name: Option<string>,
    agent1Phone: Option<string>,
    agent2Name: Option<string>,
    agent2Phone: Option<string>)

  // ---------------------------------------------------------------- street

  /** The (StreetNumber, Street) pair CalculateStreetNumberAndStreet stores; absent parts are null. */
  function StreetParts(street: Option<string>): (Option<string>, Option<string>) {
    if IsNullOrWhiteSpace(street) then (None, None)
    else
      var tokens := StreetSplit.Split(street.value);
      if |tokens| == 0 then (None, None)
      else if |tokens| == 1 then (None, Some(tokens[0]))
      else (Some(tokens[0]), Some(StreetSplit.Join(tokens[1..])))
  }

  /** Text that is not all white space has a non-space character, hence a token. */
  lemma {:induction false} NonBlankHasToken(s: string, i: nat)
    requires i < |s| && !IsWhiteSpace(s[i])
    ensures |StreetSplit.Split(s)| >= 1
    decreases |s|
  {
    if s[0] == ' ' {
      assert i > 0;
      NonBlankHasToken(s[1..], i - 1);
    }
  }

  /**
   * The three cases of the split: a blank street leaves both parts null; a
   * non-blank street always yields a street name; a street number appears
   * exactly when there are at least two space-separated tokens.
   */
  lemma StreetPartsCases(street: Option<string>)
    ensures StreetParts(street).1.None? <==> IsNullOrWhiteSpace(street)
    ensures StreetParts(street).0.Some? <==>
              !IsNullOrWhiteSpace(street) && |StreetSplit.Split(street.value)| >= 2
  {
    if !IsNullOrWhiteSpace(street) {
      var s := street.value;
      var i :| 0 <= i < |s| && !IsWhiteSpace(s[i]);
      NonBlankHasToken(s, i);
    }
  }

  /** A street without spaces is all street name ("asdsadsad" gives no number). */
  lemma StreetPartsOfSingleToken(name: string)
    requires StreetSplit.IsToken(name) && exists i | 0 <= i < |name| :: !IsWhiteSpace(name[i])
    ensures StreetParts(Some(name)) == (None, Some(name))
  {
    NotBlankWhenTokenIsNot(name, []);
    assert name + [] == name;
    StreetSplit.SplitAfterToken(name, []);
  }

  /**
   * With a street number, number + " " + street is the input with its
   * spaces trimmed and every run of spaces collapsed to one.
   */
  lemma StreetPartsRejoin(street: Option<string>)
    requires StreetParts(street).0.Some?
    ensures var (num, name) := StreetParts(street);
            name.Some? && num.value + " " + name.value == StreetSplit.Join(StreetSplit.Split(street.value))
  {
    var tokens := StreetSplit.Split(street.value);
    assert |tokens| >= 2;
    assert StreetSplit.Join(tokens) == tokens[0] + " " + StreetSplit.Join(tokens[1..]);
  }

  lemma NotBlankWhenTokenIsNot(n: string, s: string)
    requires exists i | 0 <= i < |n| :: !IsWhiteSpace(n[i])
    ensures !IsNullOrWhiteSpace(Some(n + s))
  {
    var i :| 0 <= i < |n| && !IsWhiteSpace(n[i]);
    assert (n + s)[i] == n[i];
  }

  /**
   * Splitting is the inverse of writing "<number> <street>": a number
   * without spaces followed by a street in collapsed form comes back apart
   * ("unit-5 Smith and High Street" gives "unit-5" and "Smith and High Street").
   */
  lemma StreetPartsOfNumberAndStreet(number: string, name: string)
    requires StreetSplit.IsToken(number) && exists i | 0 <= i < |number| :: !IsWhiteSpace(number[i])
    requires StreetSplit.Collapsed(name) && name != []
    ensures StreetParts(Some(number + " " + name)) == (Some(number), Some(name))
  {
    var s := number + " " + name;
    NotBlankWhenTokenIsNot(number, " " + name);
    assert s == number + (" " + name);
    StreetSplit.SplitAfterToken(number, " " + name);
    assert (" " + name)[1..] == name;
    assert (" " + name)[0] == ' ';
    StreetSplit.JoinSplitOfCollapsed(name);
    var tokens := StreetSplit.Split(s);
    assert tokens == [number] + StreetSplit.Split(name);
    assert StreetSplit.Split(name) != [];
    assert tokens[1..] == StreetSplit.Split(name);
  }

  /**
   * Sets StreetNumber and Street from the free-text street, then the
   * display address, formatted from the address as it stands once both
   * street parts are set.
   */
  method CalculateStreetNumberAndStreet(street: Option<string>, address: Address,
                                        toFormattedAddress: Address -> string)
    returns (updated: Address)
    ensures (updated.streetNumber, updated.street) == StreetParts(street)
    ensures updated.displayAddress ==
              Some(toFormattedAddress(address.(streetNumber := updated.streetNumber, street := updated.street)))
    ensures updated == address.(streetNumber := updated.streetNumber, street := updated.street,
                                displayAddress := updated.displayAddress)
  {
    var streetSplit: Option<seq<string>> :=
      if IsNullOrWhiteSpace(street) then None else Some(StreetSplit.Split(street.value));

    var streetNumber: Option<string> := None;
    var streetName: Option<string> := None;

    if streetSplit.Some? && |streetSplit.value| > 0 {
      if |streetSplit.value| == 1 {
        streetName := Some(streetSplit.value[0]);
      } else {
        streetNumber := Some(streetSplit.value[0]);
        streetName := Some(StreetSplit.Join(streetSplit.value[1..]));
      }
    }

    updated := address.(streetNumber := streetNumber, street := streetName);
    updated := updated.(displayAddress := Some(toFormattedAddress(updated)));
  }

  // ---------------------------------------------------------------- agents

  /** The two agent slots of a row, slot 1 first. */
  function Slots(fields: Fields): seq<AgentSlot> {
    [AgentSlot(fields.agent1Name, fields.agent1Phone), AgentSlot(fields.agent2Name, fields.agent2Phone)]
  }

  /** The LINQ projection from a kept slot to an OpenRealEstate agent with one mobile number. */
  function ToMobileAgent(slot: AgentSlot): Agent {
    Agent(slot.name, [Communication(Mobile, slot.phone)])
  }

  function ToMobileAgents(slots: seq<AgentSlot>): (agents: seq<Agent>)
    ensures |agents| == |slots|
    ensures forall k | 0 <= k < |slots| :: agents[k] == ToMobileAgent(slots[k])
  {
    if slots == [] then [] else [ToMobileAgent(slots[0])] + ToMobileAgents(slots[1..])
  }

  /** The agents of a row: one per complete slot, slot order, one Mobile communication each. */
  function RowAgents(fields: Fields): seq<Agent> {
    ToMobileAgents(KeptSlots(Slots(fields)))
  }

  lemma RowAgentsLaw(fields: Fields)
    ensures var agents := RowAgents(fields);
      |agents| <= 2 &&
      (forall k | 0 <= k < |agents| ::
         |agents[k].communications| == 1 &&
         agents[k].communications[0].communicationType == Mobile &&
         !IsNullOrWhiteSpace(agents[k].name) &&
         !IsNullOrWhiteSpace(agents[k].communications[0].details)) &&
      (IsComplete(AgentSlot(fields.agent1Name, fields.agent1Phone)) ==>
         |agents| > 0 && agents[0] == Agent(fields.agent1Name, [Communication(Mobile, fields.agent1Phone)])) &&
      (IsComplete(AgentSlot(fields.agent2Name, fields.agent2Phone)) ==>
         |agents| > 0 && agents[|agents| - 1] == Agent(fields.agent2Name, [Communication(Mobile, fields.agent2Phone)])) &&
      (|agents| == 2 <==> IsComplete(Slots(fields)[0]) && IsComplete(Slots(fields)[1]))
  {
    TwoSlots(Slots(fields)[0], Slots(fields)[1]);
  }

  // ---------------------------------------------------------------- copy

  /** The address CopyOverListingData builds, before the street parts are calculated. */
  function BaseAddress(fields: Fields): Address {
    Address(None, None, fields.suburb, fields.stateCode, fields.postcode, Some("AU"),
            Some(fields.latitude), Some(fields.longitude), None)
  }

  /** The address once CalculateStreetNumberAndStreet has run. */
  function ListingAddress(fields: Fields, toFormattedAddress: Address -> string): Address {
    var (num, name) := StreetParts(fields.street);
    var a := BaseAddress(fields).(streetNumber := num, street := name);
    a.(displayAddress := Some(toFormattedAddress(a)))
  }

  /** The listing after CopyOverListingData: the shared fields set, the rest as they were. */
  function CopiedListing(fields: Fields, listing: Listing, c: Collaborators): Listing {
    listing.(
      id := Some(NumberFormat.IntToString(fields.id as int)),
      agencyId := fields.agencyName,
      address := Some(ListingAddress(fields, c.toFormattedAddress)),
      agents := RowAgents(fields),
      features := Some(Features(fields.bedrooms as int, fields.bathrooms as int,
                                Some(CarParking(fields.carSpaces as int)))))
  }

  /** What CopyOverListingData promises about the fields it sets and the ones it leaves. */
  lemma CopiedListingLaw(fields: Fields, listing: Listing, c: Collaborators)
    ensures var l := CopiedListing(fields, listing, c);
      l.address.Some? && l.address.value.countryIsoCode == Some("AU") &&
      l.address.value.suburb == fields.suburb && l.address.value.state == fields.stateCode &&
      l.address.value.postcode == fields.postcode &&
      l.address.value.latitude == Some(fields.latitude) && l.address.value.longitude == Some(fields.longitude) &&
      (l.address.value.streetNumber, l.address.value.street) == StreetParts(fields.street) &&
      l.address.value.displayAddress == Some(c.toFormattedAddress(l.address.value.(displayAddress := None))) &&
      l.agencyId == fields.agencyName &&
      l.features.Some? && l.features.value.carParking == Some(CarParking(fields.carSpaces as int)) &&
      l.features.value.bedrooms == fields.bedrooms as int && l.features.value.bathrooms == fields.bathrooms as int &&
      l.agents == RowAgents(fields) &&
      l.kind == listing.kind && l.pricing == listing.pricing && l.title == listing.title &&
      l.statusType == listing.statusType && l.sourceStatus == listing.sourceStatus &&
      l.createdOn == listing.createdOn && l.updatedOn == listing.updatedOn &&
      l.propertyType == listing.propertyType
    ensures CopiedListing(fields, listing, c).id.Some? &&
            var s := CopiedListing(fields, listing, c).id.value;
            (if s[0] == '-' then -NumberFormat.DigitsValue(s[1..]) else NumberFormat.DigitsValue(s)) == fields.id as int
  {
    NumberFormat.IntToStringRoundTrip(fields.id as int);
  }

  /** Fills the shared fields of a freshly allocated listing from the row. */
  method CopyOverListingData(fields: Fields, listing: Listing, c: Collaborators) returns (result: Listing)
    ensures result == CopiedListing(fields, listing, c)
  {
    result := listing.(id := Some(NumberFormat.IntToString(fields.id as int)), agencyId := fields.agencyName);

    var address := BaseAddress(fields);
    address := CalculateStreetNumberAndStreet(fields.street, address, c.toFormattedAddress);
    result := result.(address := Some(address));

    var agents: seq<AgentSlot> := [];
    if !IsNullOrWhiteSpace(fields.agent1Name) && !IsNullOrWhiteSpace(fields.agent1Phone) {
      agents := agents + [AgentSlot(fields.agent1Name, fields.agent1Phone)];
    }
    if !IsNullOrWhiteSpace(fields.agent2Name) && !IsNullOrWhiteSpace(fields.agent2Phone) {
      agents := agents + [AgentSlot(fields.agent2Name, fields.agent2Phone)];
    }
    assert agents == KeptSlots(Slots(fields)) by {
      assert Slots(fields)[1..] == [Slots(fields)[1]];
      assert Slots(fields)[1..][1..] == [];
    }
    result := result.(agents := ToMobileAgents(agents));

    result := result.(features := Some(Features(fields.bedrooms as int, fields.bathrooms as int,
                                                Some(CarParking(fields.carSpaces as int)))));
  }

  /** The price text both titles embed: "$" and the grouped price, or "price undisclosed" when not positive. */
  function PriceText(price: Int32): string {
    if price > 0 then "$" + NumberFormat.N0(price as nat) else "price undisclosed"
  }

  /** Where the parts of a price text wrapped in a title sit. */
  lemma WrappedPriceText(prefix: string, pt: string, suffix: char)
    requires |pt| > 1 && pt[0] == '$'
    ensures var t := prefix + pt + [suffix];
            |t| == |prefix| + |pt| + 1 && t[..|prefix| + 1] == prefix + "$" &&
            t[|t| - 1] == suffix && t[|prefix| + 1..|t| - 1] == pt[1..]
  {
    var t := prefix + pt + [suffix];
    assert t[..|prefix| + 1] == prefix + [pt[0]];
    assert t[|prefix| + 1..|t| - 1] == pt[1..];
  }

  /**
   * "price undisclosed" exactly for a price that is not positive; else "$"
   * and the price grouped by thousands, a text that reads back as the price.
   */
  lemma PriceTextLaw(price: Int32)
    ensures PriceText(price) == "price undisclosed" <==> price <= 0
    ensures price > 0 ==>
              var t := PriceText(price);
              |t| > 1 && t[0] == '$' && t[1..] == NumberFormat.N0(price as nat) &&
              NumberFormat.ThousandsGrouped(t[1..]) &&
              NumberFormat.DigitsValue(NumberFormat.RemoveCommas(t[1..])) == price as int
  {
    PriceTextUndisclosed(price);
    if price > 0 {
      var t := PriceText(price);
      assert t[1..] == NumberFormat.N0(price as nat);
      NumberFormat.N0Value(price as nat);
      NumberFormat.N0Grouped(price as nat);
    }
  }

  lemma PriceTextUndisclosed(price: Int32)
    ensures PriceText(price) == "price undisclosed" <==> price <= 0
  {
    if price > 0 {
      assert PriceText(price)[0] == '$';
      assert "price undisclosed"[0] == 'p';
    }
  }
}
