/**
 * The OpenRealEstate domain objects the CSV builders fill in, and the
 * external collaborators they call. The domain library is not part of this
 * model: its classes appear here as the values the builders leave in them
 * (no builder reads a listing back or shares it), and its helpers
 * (property-type lookup, address formatting, validation, ToString and JSON
 * serialization) are functions passed in as one `Collaborators` value.
 */
module OreCore {
  import opened Common

  datatype StatusType = Unknown | Available | Sold | Leased | Withdrawn | OffMarket | Deleted

  /** `StatusType.ToString()`. */
  function StatusTypeName(s: StatusType): string {
    match s
    case Unknown => "Unknown"
    case Available => "Available"
    case Sold => "Sold"
    case Leased => "Leased"
    case Withdrawn => "Withdrawn"
    case OffMarket => "OffMarket"
    case Deleted => "Deleted"
  }

  datatype CommunicationType = Email | Fax | Landline | Mobile | Web

  datatype Communication = Communication(communicationType: CommunicationType, details: Option<string>)

  datatype Agent = Agent(name: Option<string>, communications: seq<Communication>)

  datatype Address = Address(
    streetNumber: Option<string>,
    street: Option<string>,
    suburb: Option<string>,
    state: Option<string>,
    postcode: Option<string>,
    countryIsoCode: Option<string>,
    latitude: Option<Decimal>,
    longitude: Option<Decimal>,
    displayAddress: Option<string>)

  datatype CarParking = CarParking(garages: int)

  datatype Features = Features(bedrooms: int, bathrooms: int, carParking: Option<CarParking>)

  /** `SalePricing` of a residential listing, `RentalPricing` of a rental listing. */
  datatype Pricing =
    | SalePricing(soldOn: Option<DateTime>, soldPrice: Option<int>)
    | RentalPricing(rentalPrice: int, rentedOn: Option<DateTime>)

  /** The enumeration PropertyTypeHelpers maps free text to; opaque here. */
  datatype PropertyType = PropertyType(code: nat)

  /** Which `Listing` subclass the builder allocated. */
  datatype ListingKind = Residential | Rental

  datatype Listing = Listing(
    kind: ListingKind,
    id: Option<string>,
    agencyId: Option<string>,
    address: Option<Address>,
    agents: seq<Agent>,
    features: Option<Features>,
    createdOn: DateTime,
    updatedOn: DateTime,
    statusType: StatusType,
    sourceStatus: Option<string>,
    propertyType: PropertyType,
    pricing: Option<Pricing>,
    title: Option<string>)

  /** `new ResidentialListing()` / `new RentalListing()`: nothing set yet. */
  function NewListing(kind: ListingKind): (l: Listing)
    ensures l.kind == kind && l.id.None? && l.address.None? && l.pricing.None? && l.title.None?
    ensures l.sourceStatus.None? && l.statusType == Unknown
  {
    Listing(kind, None, None, None, [], None, MinDateTime, MinDateTime, Unknown, None,
            PropertyType(0), None, None)
  }

  /** What `ValidatorMediator.Validate` reports. */
  datatype ValidationResult = ValidationResult(isValid: bool, errorMessages: seq<string>)

  datatype Collaborators = Collaborators(
    /** PropertyTypeHelpers.ToPropertyType */
    toPropertyType: Option<string> -> PropertyType,
    /** Address.ToFormattedAddress(isPostCodeIncluded: true) */
    toFormattedAddress: Address -> string,
    /** ValidatorMediator.Validate */
    validate: Listing -> ValidationResult,
    /** Listing.ToString(), as interpolated into messages */
    describe: Listing -> string,
    /** JsonConvertHelpers.SerializeObject */
    serialize: Listing -> string)
}
