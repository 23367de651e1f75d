# OpenRealEstate CSV transmorgrifiers, modelled in Dafny

This project models the pipeline that turns a CSV file of Australian
real-estate rows into OpenRealEstate `Listing`s, and proves its behaviour.
It covers both generations of the library:

- the current one, `OpenRealEstate.Transmorgrifiers.Csv` (`CsvTransmorgrifier`);
- the older one, `OpenRealEstate.NET.Transmorgrifiers.Csv` (`FileService`).

Each generation runs the same steps:

1. It reads the header record and picks the schema. A sold file has a
   `sold_date` column and a rental file has a `rent_date` column; sold wins
   when both are present. No sentinel means one fixed error and no rows read.
   The callbacks of step 2 are already installed, so faults in the header
   line itself come first among the errors.
2. Each data row is bound to the schema's DTO through a column table. The
   reader reports bad data, missing fields and reading exceptions through
   three callbacks, and each callback appends an error.
3. A DTO that binds becomes a `Listing`. The shared fields are copied, the
   street is split roughly on spaces, and agents are kept only when both
   name and phone are filled in. Dates, status, pricing and the
   "Sold: $N." / "Rented: price undisclosed." title depend on the schema.
4. The validation gate then runs over the built listings. Each goes either
   to the result's listings (valid) or to its errors (invalid), in order.
5. Any exception inside the parse becomes one more error. Only a null
   input (and, for `Parse`, blank text) throws.

Modules, one per source file, plus shared ones:

| module | models |
|---|---|
| `Common` | .NET strings and values used (null, `IsNullOrWhiteSpace`, invariant case mapping, `string.Join`, `int`, `byte`), the argument exceptions |
| `NumberFormat` | `int.ToString()` and the `N0` format (en culture), with round-trip lemmas |
| `StreetSplit` | `Split(new[] {' '}, RemoveEmptyEntries)` and `string.Join(" ", …)` with their laws |
| `OreCore` | the OpenRealEstate domain values the builders fill, and the external collaborators |
| `AgentSlots` | the "keep a slot iff name and phone are both non-blank" filter shared by both generations |
| `CsvListing`, `CsvResidentialListing`, `CsvRentalListing` | the current DTOs and their `ToOreListing` builders |
| `CsvListingCsvMap`, `CsvResidentialListingCsvMap`, `CsvRentalListingCsvMap` | the current column tables, and binding by lower-cased header name |
| `CsvReading` | what the CSV reader hands the orchestrators (header, per-row bindings and faults), and the callback messages |
| `ValidationGate` | the validation loop as a stable partition |
| `CsvTransmorgrifier` | `Parse`, `ParseAsync`, the callbacks, `ParseCsvDataRow`, `ValidateListings`, with the `ParsedResult` accumulator as a class |
| `LegacyListing`, `LegacySoldListing`, `LegacyLeasedListing` | the older DTOs and builders |
| `LegacySoldListingCsvMap` | the older name-only column table and its agent converter |
| `LegacyFileService` | `ParseFileAsync` and its helpers, with the `ParsedFileResult` accumulator as a class |

The reader is modelled as a script of values (`CsvReading.CsvSource`): the
header record, or the message of the exception reading it threw, each with
the faults reported while the header line was read; for every
data row, the faults and the record that binding it under each DTO type
gives; and an optional exception raised after those rows. The
orchestrator methods run a `while` loop over that script and append to the
accumulator's two `seq` fields in place. Each method is proved equal to a
specification function (`ParseOutcome`), and the laws are lemmas about that
function.

## Model

| member | source | states |
|---|---|---|
| `Common.ToLower` | src/OpenRealEstate.Transmorgrifiers.Csv/CsvTransmorgrifier.cs:136 | `ToLowerInvariant` keeps the length and lower-cases each character in place (ASCII letters) |
| `Common.ToUpper` | tests/OpenRealEstate.Transmorgrifiers.Csv.Tests/CsvTransmorgrifierTests/ParseAsyncTests.cs:16 | upper-casing a header keeps the length and upper-cases each character in place (ASCII letters) |
| `Common.LowerCaseIsFixed` | src/OpenRealEstate.Transmorgrifiers.Csv/CsvTransmorgrifier.cs:136 | lower-casing a header that is already lower case leaves it unchanged |
| `Common.WrapInjective` | src/OpenRealEstate.Transmorgrifiers.Csv/CsvTransmorgrifier.cs:115 | messages built from one fixed prefix and suffix are equal exactly when their inserted parts are equal |
| `Common.ContainsMiddle` | src/OpenRealEstate.Transmorgrifiers.Csv/CsvTransmorgrifier.cs:71 | the middle part of a concatenated message occurs in it |
| `NumberFormat.Digits` | src/OpenRealEstate.Transmorgrifiers.Csv/CsvListing.cs:40 | a natural number's decimal text is non-empty and made only of digits |
| `NumberFormat.DigitsRoundTrip` | src/OpenRealEstate.Transmorgrifiers.Csv/CsvListing.cs:40 | reading back the decimal digits of `n` gives `n` |
| `NumberFormat.IntToString` | src/OpenRealEstate.Transmorgrifiers.Csv/CsvListing.cs:40 | `Id.ToString()` is non-empty and starts with '-' exactly for negative ids |
| `NumberFormat.IntToStringRoundTrip` | src/OpenRealEstate.Transmorgrifiers.Csv/CsvListing.cs:40 | parsing `Id.ToString()` back (sign, then digits) gives the id |
| `NumberFormat.RemoveCommas` | src/OpenRealEstate.Transmorgrifiers.Csv/CsvResidentialListing.cs:32 | the result has no comma |
| `NumberFormat.N0Ungrouped` | src/OpenRealEstate.Transmorgrifiers.Csv/CsvResidentialListing.cs:32 | the `N0` text with its group separators removed is the plain decimal text |
| `NumberFormat.N0Value` | src/OpenRealEstate.Transmorgrifiers.Csv/CsvResidentialListing.cs:32 | the `N0` text denotes the price it formats |
| `NumberFormat.N0Grouped` | src/OpenRealEstate.Transmorgrifiers.Csv/CsvResidentialListing.cs:32 | the `N0` text has a comma exactly at every fourth place counted from the end, and never at the start: groups of three digits |
| `NumberFormat.GroupAppended` | src/OpenRealEstate.Transmorgrifiers.Csv/CsvResidentialListing.cs:32 | appending a comma and a three-digit group to grouped text keeps it grouped |
| `NumberFormat.N0Example` | src/OpenRealEstate.Transmorgrifiers.Csv/CsvResidentialListing.cs:32 | an illustration: the `N0` text of 277000 is "277,000"; the general facts are `N0Grouped` and `N0Value` |
| `StreetSplit.TokenLength` | src/OpenRealEstate.Transmorgrifiers.Csv/CsvListing.cs:105 | the first token runs up to the first space or to the end |
| `StreetSplit.Split` | src/OpenRealEstate.Transmorgrifiers.Csv/CsvListing.cs:105 | every entry of the split is non-empty and has no space |
| `StreetSplit.SplitAfterToken` | src/OpenRealEstate.Transmorgrifiers.Csv/CsvListing.cs:105 | a token followed by a space (or the end) is the first entry of the split |
| `StreetSplit.SplitJoin` | src/OpenRealEstate.Transmorgrifiers.Csv/CsvListing.cs:105-122 | splitting the space-join of tokens gives the tokens back |
| `StreetSplit.JoinIsCollapsed` | src/OpenRealEstate.Transmorgrifiers.Csv/CsvListing.cs:122 | the space-join of tokens has no leading, trailing or doubled space |
| `StreetSplit.SplitKeepsText` | src/OpenRealEstate.Transmorgrifiers.Csv/CsvListing.cs:105 | the split drops only spaces: the entries concatenated are the input without its spaces |
| `StreetSplit.JoinKeepsText` | src/OpenRealEstate.Transmorgrifiers.Csv/CsvListing.cs:122 | joining adds only spaces |
| `StreetSplit.JoinSplitOfCollapsed` | src/OpenRealEstate.Transmorgrifiers.Csv/CsvListing.cs:105-122 | a text with single inner spaces and none at the ends is its own split-and-join |
| `StreetSplit.JoinSplitNormalises` | src/OpenRealEstate.Transmorgrifiers.Csv/CsvListing.cs:105-122 | split-then-join trims and collapses space runs, keeps every other character, is idempotent, and is the only collapsed text with the same split |
| `StreetSplit.TabIsNotASeparator` | src/OpenRealEstate.Transmorgrifiers.Csv/CsvListing.cs:105 | an illustration: a tab does not separate tokens, while runs of spaces do and vanish; the general facts are `Split` and `SplitKeepsText` |
| `AgentSlots.KeptSlots` | src/OpenRealEstate.Transmorgrifiers.Csv/CsvListing.cs:56-69 | at most as many agents as slots, each complete and taken from the slots |
| `AgentSlots.KeptSlotsAppend` | src/OpenRealEstate.Transmorgrifiers.Csv/CsvListing.cs:56-69 | the slots are filtered one at a time, in order |
| `AgentSlots.KeptIffComplete` | src/OpenRealEstate.Transmorgrifiers.Csv/CsvListing.cs:58-65 | a slot is kept exactly when its name and phone are both non-blank |
| `AgentSlots.TwoSlots` | src/OpenRealEstate.Transmorgrifiers.Csv/CsvListing.cs:56-69 | with two slots: at most two agents, two exactly when both are complete, none exactly when neither is, agent 1 first and agent 2 last when kept |
| `CsvListing.StreetPartsCases` | src/OpenRealEstate.Transmorgrifiers.Csv/CsvListing.cs:103-128 | the street is null exactly for a null or blank input; the street number is set exactly when there are two or more tokens |
| `CsvListing.NonBlankHasToken` | src/OpenRealEstate.Transmorgrifiers.Csv/CsvListing.cs:103-111 | a street with a non-white-space character splits into at least one token |
| `CsvListing.StreetPartsOfSingleToken` | src/OpenRealEstate.Transmorgrifiers.Csv/CsvListing.cs:113-117 | one token gives a null street number and that token as the street |
| `CsvListing.StreetPartsRejoin` | src/OpenRealEstate.Transmorgrifiers.Csv/CsvListing.cs:118-123 | with two or more tokens, number + " " + street is the input trimmed with its space runs collapsed |
| `CsvListing.NotBlankWhenTokenIsNot` | src/OpenRealEstate.Transmorgrifiers.Csv/CsvListing.cs:103 | a street starting with a non-blank token is not blank |
| `CsvListing.StreetPartsOfNumberAndStreet` | src/OpenRealEstate.Transmorgrifiers.Csv/CsvListing.cs:118-123 | "n s" with a token n and a collapsed s gives back (n, s), e.g. "smith street" gives ("smith", "street") |
| `CsvListing.CalculateStreetNumberAndStreet` | src/OpenRealEstate.Transmorgrifiers.Csv/CsvListing.cs:95-133 | sets the street number and street to the split, then the display address from the completed address, and changes nothing else |
| `CsvListing.ToMobileAgents` | src/OpenRealEstate.Transmorgrifiers.Csv/CsvListing.cs:70-82 | one agent per kept slot, in order, with that slot's name and one Mobile communication holding its phone |
| `CsvListing.RowAgentsLaw` | src/OpenRealEstate.Transmorgrifiers.Csv/CsvListing.cs:56-82 | at most two agents, each with non-blank name and phone and one Mobile communication; agent 1 first and agent 2 last when complete; two exactly when both slots are complete |
| `CsvListing.CopiedListingLaw` | src/OpenRealEstate.Transmorgrifiers.Csv/CsvListing.cs:40-131 | id is the id's text, agency is copied, address is "AU" with suburb, state, postcode, lat/lng copied, street parts from the split and the display address formatted from the finished address; bedrooms, bathrooms and garages copied; the agents are the kept agent slots, in order; the property type and every other field unchanged |
| `CsvListing.CopyOverListingData` | src/OpenRealEstate.Transmorgrifiers.Csv/CsvListing.cs:33-93 | the listing after the field-by-field copy is `CopiedListing` |
| `CsvListing.PriceTextLaw` | src/OpenRealEstate.Transmorgrifiers.Csv/CsvResidentialListing.cs:31-33 | "price undisclosed" exactly when the price is at most 0; otherwise "$" followed by the price's `N0` text, which is grouped in threes and reads back as the price |
| `CsvListing.PriceTextUndisclosed` | src/OpenRealEstate.Transmorgrifiers.Csv/CsvResidentialListing.cs:31-33 | the text is "price undisclosed" exactly when the price is at most 0 |
| `CsvResidentialListing.SoldTitleLaw` | src/OpenRealEstate.Transmorgrifiers.Csv/CsvResidentialListing.cs:31-35 | "Sold: price undisclosed." exactly when the sold price is at most 0 (negatives included); otherwise "Sold: $" + the price's `N0` text (grouped in threes, reading back as the price) + "." |
| `CsvResidentialListing.SoldTitleUndisclosed` | src/OpenRealEstate.Transmorgrifiers.Csv/CsvResidentialListing.cs:31-35 | the title is "Sold: price undisclosed." exactly when the sold price is at most 0 |
| `CsvResidentialListing.SoldTitlePriced` | src/OpenRealEstate.Transmorgrifiers.Csv/CsvResidentialListing.cs:31-35 | for a positive sold price the title starts "Sold: $", ends in ".", and between them is the price's `N0` text, grouped in threes and reading back as the price |
| `CsvResidentialListing.SoldTitleOfPrice` | src/OpenRealEstate.Transmorgrifiers.Csv/CsvResidentialListing.cs:31-35 | for a positive sold price the title is exactly "Sold: $" + the price's `N0` text + "." |
| `CsvResidentialListing.ResidentialOreListingLaw` | src/OpenRealEstate.Transmorgrifiers.Csv/CsvResidentialListing.cs:14-35 | a residential listing created and updated on the sold date, status Sold and source status "Sold", sale pricing copied, the property type mapped from the row's type, the title "Sold: price undisclosed." exactly when the price is at most 0 and otherwise "Sold: $" + the price's `N0` text + "."; shared fields as `CopyOverListingData` sets them |
| `CsvResidentialListing.ToOreListing` | src/OpenRealEstate.Transmorgrifiers.Csv/CsvResidentialListing.cs:12-38 | the listing built step by step is `ResidentialOreListing` |
| `CsvRentalListing.RentedTitleLaw` | src/OpenRealEstate.Transmorgrifiers.Csv/CsvRentalListing.cs:31-35 | "Rented: price undisclosed." exactly when the rent is at most 0; otherwise "Rented: $" + the rent's `N0` text (grouped in threes, reading back as the rent) + "." |
| `CsvRentalListing.RentedTitleUndisclosed` | src/OpenRealEstate.Transmorgrifiers.Csv/CsvRentalListing.cs:31-35 | the title is "Rented: price undisclosed." exactly when the rent is at most 0 |
| `CsvRentalListing.RentedTitlePriced` | src/OpenRealEstate.Transmorgrifiers.Csv/CsvRentalListing.cs:31-35 | for a positive rent the title starts "Rented: $", ends in ".", and between them is the rent's `N0` text, grouped in threes and reading back as the rent |
| `CsvRentalListing.RentedTitleOfPrice` | src/OpenRealEstate.Transmorgrifiers.Csv/CsvRentalListing.cs:31-35 | for a positive rent the title is exactly "Rented: $" + the rent's `N0` text + "." |
| `CsvRentalListing.RentalOreListingLaw` | src/OpenRealEstate.Transmorgrifiers.Csv/CsvRentalListing.cs:14-35 | a rental listing created and updated on the leased date, status Leased and source status "Leased", rent and rented-on date copied, the property type mapped from the row's type, the title "Rented: price undisclosed." exactly when the rent is at most 0 and otherwise "Rented: $" + the rent's `N0` text + "."; shared fields as `CopyOverListingData` sets them |
| `CsvRentalListing.ToOreListing` | src/OpenRealEstate.Transmorgrifiers.Csv/CsvRentalListing.cs:12-38 | the listing built step by step is `RentalOreListing` |
| `CsvListingCsvMap.Names` | src/OpenRealEstate.Transmorgrifiers.Csv/CsvListingCsvMap.cs:9-26 | the column names, entry by entry |
| `CsvListingCsvMap.Members` | src/OpenRealEstate.Transmorgrifiers.Csv/CsvListingCsvMap.cs:9-26 | the bound fields, entry by entry |
| `CsvListingCsvMap.IndexList` | src/OpenRealEstate.Transmorgrifiers.Csv/CsvListingCsvMap.cs:9-26 | the column indices, entry by entry |
| `CsvListingCsvMap.DistinctAppend` | src/OpenRealEstate.Transmorgrifiers.Csv/CsvResidentialListingCsvMap.cs:7-8 | two tables without duplicates and without shared keys combine into one without duplicates |
| `CsvListingCsvMap.KeysAppend` | src/OpenRealEstate.Transmorgrifiers.Csv/CsvResidentialListingCsvMap.cs:7-8 | a combined table's names, fields and indices are those of its parts |
| `CsvListingCsvMap.BaseMapsWellFormed` | src/OpenRealEstate.Transmorgrifiers.Csv/CsvListingCsvMap.cs:9-26 | 17 fields, bound to 17 distinct lower-case names and distinct indices, exactly 0-11 and 14-18 |
| `CsvListingCsvMap.BaseMembersDistinct` | src/OpenRealEstate.Transmorgrifiers.Csv/CsvListingCsvMap.cs:9-26 | no field is mapped twice |
| `CsvListingCsvMap.BaseMembersInOrder` | src/OpenRealEstate.Transmorgrifiers.Csv/CsvListingCsvMap.cs:9-26 | the shared table's fields are distinct; stated through the fields' declaration order, which is strictly increasing along the table, used to prove `BaseMembersDistinct` |
| `CsvListingCsvMap.BaseIndicesDistinct` | src/OpenRealEstate.Transmorgrifiers.Csv/CsvListingCsvMap.cs:9-26 | no index is used twice |
| `CsvListingCsvMap.BaseNamesLowerCase` | src/OpenRealEstate.Transmorgrifiers.Csv/CsvListingCsvMap.cs:9-26 | every column name is lower case |
| `CsvListingCsvMap.BaseNamesDistinct` | src/OpenRealEstate.Transmorgrifiers.Csv/CsvListingCsvMap.cs:9-26 | no column name is used twice |
| `CsvListingCsvMap.BaseNameDiffersFromLater` | src/OpenRealEstate.Transmorgrifiers.Csv/CsvListingCsvMap.cs:9-26 | each column name of the shared table differs from every name declared after it |
| `CsvListingCsvMap.BaseIndicesExact` | src/OpenRealEstate.Transmorgrifiers.Csv/CsvListingCsvMap.cs:9-26 | entry i has index i below 12 and i + 2 after, so 12 and 13 are left free |
| `CsvListingCsvMap.AgentColumns` | src/OpenRealEstate.Transmorgrifiers.Csv/CsvListingCsvMap.cs:23-26 | the agent slots bind to agent_name/agent_phone (15, 16) and agent_2_name/agent_2_phone (17, 18) |
| `CsvListingCsvMap.SchemaMapsWellFormed` | src/OpenRealEstate.Transmorgrifiers.Csv/CsvListingCsvMap.cs:9-26 | the shared table plus a date column at 12 and a price column at 13, with new lower-case names and new fields, has 19 entries, distinct lower-case names, distinct fields and indices exactly 0..18 |
| `CsvListingCsvMap.SchemaKeysDistinct` | src/OpenRealEstate.Transmorgrifiers.Csv/CsvListingCsvMap.cs:9-26 | such a table has no repeated name and no field mapped twice |
| `CsvListingCsvMap.SchemaIndicesDistinct` | src/OpenRealEstate.Transmorgrifiers.Csv/CsvListingCsvMap.cs:9-26 | such a table uses no index twice |
| `CsvListingCsvMap.SchemaIndicesCovered` | src/OpenRealEstate.Transmorgrifiers.Csv/CsvListingCsvMap.cs:9-26 | such a table uses exactly the indices 0..18 |
| `CsvListingCsvMap.LaterMembersNotShared` | src/OpenRealEstate.Transmorgrifiers.Csv/CsvListingCsvMap.cs:9-26 | a field declared after the shared ones is not in the shared table |
| `CsvListingCsvMap.ColumnOf` | src/OpenRealEstate.Transmorgrifiers.Csv/CsvTransmorgrifier.cs:136 | a name binds to the first header that lower-cases to it, and to none when no header does |
| `CsvListingCsvMap.ToLowerOfUpper` | src/OpenRealEstate.Transmorgrifiers.Csv/CsvTransmorgrifier.cs:136 | lower-casing an upper-cased header gives the lower-cased header |
| `CsvListingCsvMap.ColumnOfIgnoresCase` | src/OpenRealEstate.Transmorgrifiers.Csv/CsvTransmorgrifier.cs:136 | headers that agree after lower-casing bind every name to the same column |
| `CsvListingCsvMap.UpperCaseHeaderBindsAlike` | tests/OpenRealEstate.Transmorgrifiers.Csv.Tests/CsvTransmorgrifierTests/ParseAsyncTests.cs:16 | an upper-cased header binds every field to the same text |
| `CsvListingCsvMap.ReorderedColumnsBindAlike` | tests/OpenRealEstate.Transmorgrifiers.Csv.Tests/CsvTransmorgrifierTests/ParseAsyncTests.cs:17 | reordering the columns (header and row together) binds every field to the same text |
| `CsvResidentialListingCsvMap.MapsWellFormed` | src/OpenRealEstate.Transmorgrifiers.Csv/CsvResidentialListingCsvMap.cs:7-8 | with the shared table: 19 entries, distinct lower-case names, distinct fields, indices exactly 0..18 |
| `CsvResidentialListingCsvMap.ColumnsExtendBase` | src/OpenRealEstate.Transmorgrifiers.Csv/CsvResidentialListingCsvMap.cs:7-8 | SoldOn and SoldPrice are new fields and "sold_date" and "sold_price" new lower-case names for the shared table |
| `CsvResidentialListingCsvMap.BaseNameNotDate` | src/OpenRealEstate.Transmorgrifiers.Csv/CsvResidentialListingCsvMap.cs:7-8 | no shared column is named sold_date or sold_price |
| `CsvResidentialListingCsvMap.DateColumnIsMapped` | src/OpenRealEstate.Transmorgrifiers.Csv/CsvResidentialListingCsvMap.cs:7 | SoldOn binds to "sold_date" at 12, and that name is lower case |
| `CsvRentalListingCsvMap.MapsWellFormed` | src/OpenRealEstate.Transmorgrifiers.Csv/CsvRentalListingCsvMap.cs:7-8 | with the shared table: 19 entries, distinct lower-case names, distinct fields, indices exactly 0..18 |
| `CsvRentalListingCsvMap.ColumnsExtendBase` | src/OpenRealEstate.Transmorgrifiers.Csv/CsvRentalListingCsvMap.cs:7-8 | LeasedOn and RentPrice are new fields and "rent_date" and "rent_price" new lower-case names for the shared table |
| `CsvRentalListingCsvMap.BaseNameNotDate` | src/OpenRealEstate.Transmorgrifiers.Csv/CsvRentalListingCsvMap.cs:7-8 | no shared column is named rent_date or rent_price |
| `CsvRentalListingCsvMap.DateColumnIsMapped` | src/OpenRealEstate.Transmorgrifiers.Csv/CsvRentalListingCsvMap.cs:7 | LeasedOn binds to "rent_date" at 12, and that name is lower case |
| `CsvReading.FaultMessageKinds` | src/OpenRealEstate.Transmorgrifiers.Csv/CsvTransmorgrifier.cs:113-131 | the three callback messages start with 'B', 'F' and 'R', never like a validation message |
| `CsvReading.BadDataMessageNamesRow` | src/OpenRealEstate.Transmorgrifiers.Csv/CsvTransmorgrifier.cs:115 | two bad-data messages are equal exactly when they name the same row |
| `CsvReading.ReadingExceptionMessageRoundTrip` | src/OpenRealEstate.Transmorgrifiers.Csv/CsvTransmorgrifier.cs:129 | the reading-exception message is the prefix followed by the exception's own message |
| `CsvReading.CollectAppend` | src/OpenRealEstate.Transmorgrifiers.Csv/CsvTransmorgrifier.cs:78-91 | what the row loop collects over consecutive stretches of rows is the concatenation, in order |
| `CsvReading.CollectOne` | src/OpenRealEstate.Transmorgrifiers.Csv/CsvTransmorgrifier.cs:80-90 | the loop over a single row collects exactly that row's contribution |
| `ValidationGate.Accepted` | src/OpenRealEstate.Transmorgrifiers.Csv/CsvTransmorgrifier.cs:182-188 | no more listings accepted than given |
| `ValidationGate.Rejected` | src/OpenRealEstate.Transmorgrifiers.Csv/CsvTransmorgrifier.cs:189-198 | no more errors than listings given |
| `ValidationGate.AcceptedAppend` | src/OpenRealEstate.Transmorgrifiers.Csv/CsvTransmorgrifier.cs:182-199 | accepting is done item by item in order |
| `ValidationGate.RejectedAppend` | src/OpenRealEstate.Transmorgrifiers.Csv/CsvTransmorgrifier.cs:182-199 | rejecting is done item by item in order |
| `ValidationGate.Step` | src/OpenRealEstate.Transmorgrifiers.Csv/CsvTransmorgrifier.cs:184-198 | one more listing joins the accepted listings when valid, otherwise adds its error, and nothing else changes |
| `ValidationGate.AcceptedMembers` | src/OpenRealEstate.Transmorgrifiers.Csv/CsvTransmorgrifier.cs:185-188 | a listing is accepted exactly when it was given and is valid |
| `ValidationGate.RejectedMembers` | src/OpenRealEstate.Transmorgrifiers.Csv/CsvTransmorgrifier.cs:189-198 | every error comes from an invalid listing, and every invalid listing gives its error |
| `ValidationGate.CountLaw` | src/OpenRealEstate.Transmorgrifiers.Csv/CsvTransmorgrifier.cs:182-199 | as many accepted as valid listings, and an error for each of the others |
| `ValidationGate.PartitionLaw` | src/OpenRealEstate.Transmorgrifiers.Csv/CsvTransmorgrifier.cs:182-199 | each listing lands in exactly one list: accepted iff valid, an error iff invalid, with the counts to match |
| `CsvTransmorgrifier.ParsedResult.AddListing` | src/OpenRealEstate.Transmorgrifiers.Csv/CsvTransmorgrifier.cs:187 | appends one listing result and leaves the errors |
| `CsvTransmorgrifier.ParsedResult.AddError` | src/OpenRealEstate.Transmorgrifiers.Csv/CsvTransmorgrifier.cs:73-130 | appends one error and leaves the listings |
| `CsvTransmorgrifier.UpperHeaders` | tests/OpenRealEstate.Transmorgrifiers.Csv.Tests/CsvTransmorgrifierTests/ParseAsyncTests.cs:16 | the header with every name upper-cased |
| `CsvTransmorgrifier.UpperIgnoresCase` | src/OpenRealEstate.Transmorgrifiers.Csv/CsvTransmorgrifier.cs:60-64 | upper-casing a header does not change whether it matches a sentinel ignoring case |
| `CsvTransmorgrifier.DetectSchemaIgnoresCase` | src/OpenRealEstate.Transmorgrifiers.Csv/CsvTransmorgrifier.cs:60-67 | an upper-cased header is detected as the same schema |
| `CsvTransmorgrifier.SoldWinsOverRental` | src/OpenRealEstate.Transmorgrifiers.Csv/CsvTransmorgrifier.cs:60-67 | a header with both sentinels, in any case, is a sold file |
| `CsvTransmorgrifier.IgnoreCaseCharLowers` | src/OpenRealEstate.Transmorgrifiers.Csv/CsvTransmorgrifier.cs:136 | a character matching a non-capital one ignoring case lower-cases to it |
| `CsvTransmorgrifier.IgnoreCaseLowers` | src/OpenRealEstate.Transmorgrifiers.Csv/CsvTransmorgrifier.cs:136 | a header matching a lower-case name ignoring case lower-cases to that name |
| `CsvTransmorgrifier.DetectedSchemaBindsDate` | src/OpenRealEstate.Transmorgrifiers.Csv/CsvTransmorgrifier.cs:60-67 | a detected schema's date column is always bound, so its table is used only when the sentinel is present; this holds because case mapping is taken to be ASCII-only, where the ignore-case match and lower-casing agree |
| `CsvTransmorgrifier.MatchedColumnIsBound` | src/OpenRealEstate.Transmorgrifiers.Csv/CsvTransmorgrifier.cs:136 | a lower-case column name that some header matches ignoring case binds to a column |
| `CsvTransmorgrifier.FaultErrors` | src/OpenRealEstate.Transmorgrifiers.Csv/CsvTransmorgrifier.cs:113-131 | one error per reported fault, in order |
| `CsvTransmorgrifier.ReportFault` | src/OpenRealEstate.Transmorgrifiers.Csv/CsvTransmorgrifier.cs:113-131 | each callback appends exactly its message with the raw record, and adds no listing |
| `CsvTransmorgrifier.ReportFaults` | src/OpenRealEstate.Transmorgrifiers.Csv/CsvTransmorgrifier.cs:113-131 | a row's faults are appended in the order reported |
| `CsvTransmorgrifier.ParseCsvDataRow` | src/OpenRealEstate.Transmorgrifiers.Csv/CsvTransmorgrifier.cs:148-167 | binds the row as the schema's DTO, appends its faults, and returns its listing or null |
| `CsvTransmorgrifier.RejectedAreValidationErrors` | src/OpenRealEstate.Transmorgrifiers.Csv/CsvTransmorgrifier.cs:195 | every validation error's message starts with "Listing '" |
| `CsvTransmorgrifier.UndetectedIsNoValidationError` | src/OpenRealEstate.Transmorgrifiers.Csv/CsvTransmorgrifier.cs:71 | the undetected-schema error starts "Listing c", so it is not a validation error |
| `CsvTransmorgrifier.ValidateListings` | src/OpenRealEstate.Transmorgrifiers.Csv/CsvTransmorgrifier.cs:169-200 | appends the accepted listing results to the listings and the rejection errors to the errors |
| `CsvTransmorgrifier.RowsStep` | src/OpenRealEstate.Transmorgrifiers.Csv/CsvTransmorgrifier.cs:78-91 | one more row adds its faults and its listing result, if any, at the end |
| `CsvTransmorgrifier.ParseAsync` | src/OpenRealEstate.Transmorgrifiers.Csv/CsvTransmorgrifier.cs:37-104 | a null reader throws ArgumentNullException("textReader"); otherwise the result returned is `ParseOutcome` of the reader's script |
| `CsvTransmorgrifier.Parse` | src/OpenRealEstate.Transmorgrifiers.Csv/CsvTransmorgrifier.cs:20-35 | null or blank text throws ArgumentException("data") before a result exists; other text parses as ParseAsync does |
| `CsvTransmorgrifier.RowsParsedAppend` | src/OpenRealEstate.Transmorgrifiers.Csv/CsvTransmorgrifier.cs:78-91 | the rows are parsed one after another, in order |
| `CsvTransmorgrifier.RowResultsLaw` | src/OpenRealEstate.Transmorgrifiers.Csv/CsvTransmorgrifier.cs:80-90 | a row adds a listing result (with the reader's text) exactly when it binds |
| `CsvTransmorgrifier.RowCountLaw` | src/OpenRealEstate.Transmorgrifiers.Csv/CsvTransmorgrifier.cs:78-91 | there are as many listing results as rows that bind |
| `CsvTransmorgrifier.RowLoopLaw` | src/OpenRealEstate.Transmorgrifiers.Csv/CsvTransmorgrifier.cs:78-91 | a row that binds to null adds nothing; any other adds exactly its listing and text, at its place in row order |
| `CsvTransmorgrifier.RowsErrorsAreReaderErrors` | src/OpenRealEstate.Transmorgrifiers.Csv/CsvTransmorgrifier.cs:113-131 | no reader error looks like a validation error |
| `CsvTransmorgrifier.FaultErrorsAreReaderErrors` | src/OpenRealEstate.Transmorgrifiers.Csv/CsvTransmorgrifier.cs:113-131 | no callback error, whatever the fault, starts like a validation error |
| `CsvTransmorgrifier.ReaderErrorsAreReaderErrors` | src/OpenRealEstate.Transmorgrifiers.Csv/CsvTransmorgrifier.cs:47-91 | neither the header line's callback errors nor the rows' start like a validation error |
| `CsvTransmorgrifier.ReaderErrorsPrecedeValidationErrors` | src/OpenRealEstate.Transmorgrifiers.Csv/CsvTransmorgrifier.cs:47-94 | after the first validation error, every error is a validation error |
| `CsvTransmorgrifier.ParseCountLaw` | src/OpenRealEstate.Transmorgrifiers.Csv/CsvTransmorgrifier.cs:78-199 | at most one listing per bound row; the reader errors (the header line's, then the rows') plus one error per rejected listing; a result is kept exactly when it was parsed and is valid |
| `CsvTransmorgrifier.RejectionLaw` | src/OpenRealEstate.Transmorgrifiers.Csv/CsvTransmorgrifier.cs:182-199 | accepted plus rejected is all; an error is reported exactly for an invalid listing, as "Listing '<listing>' failed validation: " + messages joined by ". ", with the serialized listing |
| `CsvTransmorgrifier.UndetectedSchemaLaw` | src/OpenRealEstate.Transmorgrifiers.Csv/CsvTransmorgrifier.cs:68-75 | no sentinel: the header line's callback errors, then the fixed error naming 'sold_date' and 'rent_date' with "csv headers", and nothing else; no listing, and the data rows are never looked at |
| `CsvTransmorgrifier.UndetectedMessageNamesSentinels` | src/OpenRealEstate.Transmorgrifiers.Csv/CsvTransmorgrifier.cs:71 | the undetected-schema message names both 'sold_date' and 'rent_date' |
| `CsvTransmorgrifier.ExceptionLaw` | src/OpenRealEstate.Transmorgrifiers.Csv/CsvTransmorgrifier.cs:97-103 | an exception thrown by the reader appends one error with its message and "reading csv data."; the reader errors before it (the header line's, then the rows') are kept and no listing is returned |
| `LegacyListing.LegacyStreetPartsAgree` | src/OpenRealEstate.NET.Transmorgrifiers.Csv/Listing.cs:84-109 | the older split is the current one with null read as "" |
| `LegacyListing.LegacyStreetPartsOfTestShape` | tests/OpenRealEstate.NET.Transmorgrifiers.Csv.Tests/ToResidentialListingTests.cs:75-103 | "n s" gives back n (or "" when blank) and s (or "" when blank), e.g. "unit-5 Smith and High Street" |
| `LegacyListing.CalculateStreetNumberAndStreet` | src/OpenRealEstate.NET.Transmorgrifiers.Csv/Listing.cs:76-110 | sets the street number and street from the split, "" for absent parts, and changes nothing else |
| `LegacyListing.ListingAgents` | src/OpenRealEstate.NET.Transmorgrifiers.Csv/Listing.cs:51-63 | one agent per DTO agent, in order, with one Mobile communication holding its phone |
| `LegacyListing.LegacyAddressAgrees` | src/OpenRealEstate.NET.Transmorgrifiers.Csv/Listing.cs:38-49 | the older address is the current one without a display address and with "" for absent street parts |
| `LegacyListing.CopiedListingLaw` | src/OpenRealEstate.NET.Transmorgrifiers.Csv/Listing.cs:35-73 | id, agency, "AU" address without display address, street number and street from the older split, agents one-to-one, features copied; the property type and every other field unchanged |
| `LegacyListing.CopyOverListingData` | src/OpenRealEstate.NET.Transmorgrifiers.Csv/Listing.cs:28-74 | the listing after the field-by-field copy is the older `CopiedListing` |
| `LegacySoldListing.SoldOreListingLaw` | src/OpenRealEstate.NET.Transmorgrifiers.Csv/SoldListing.cs:14-34 | a residential listing on the sold date, status Sold, source status never set, sale pricing copied, the property type mapped from the row's type, the title "Sold: price undisclosed." exactly when the price is at most 0 and otherwise "Sold: $" + the price's `N0` text + "."; shared fields from the older copy |
| `LegacySoldListing.ToOreListing` | src/OpenRealEstate.NET.Transmorgrifiers.Csv/SoldListing.cs:12-37 | the listing built step by step is `SoldOreListing` |
| `LegacyLeasedListing.LeasedOreListingLaw` | src/OpenRealEstate.NET.Transmorgrifiers.Csv/LeasedListing.cs:14-34 | a rental listing on the leased date, status Leased, source status never set, rent and date copied, the property type mapped from the row's type, the title "Rented: price undisclosed." exactly when the rent is at most 0 and otherwise "Rented: $" + the rent's `N0` text + "."; shared fields from the older copy |
| `LegacyLeasedListing.ToOreListing` | src/OpenRealEstate.NET.Transmorgrifiers.Csv/LeasedListing.cs:12-37 | the listing built step by step is `LeasedOreListing` |
| `LegacySoldListingCsvMap.MapsWellFormed` | src/OpenRealEstate.NET.Transmorgrifiers.Csv/SoldListingCsvMap.cs:10-24 | 15 fields bound by distinct lower-case names without an index, each the same name as in the current sold table |
| `LegacySoldListingCsvMap.NamesDistinct` | src/OpenRealEstate.NET.Transmorgrifiers.Csv/SoldListingCsvMap.cs:10-24 | no column name repeats |
| `LegacySoldListingCsvMap.MembersDistinct` | src/OpenRealEstate.NET.Transmorgrifiers.Csv/SoldListingCsvMap.cs:10-24 | no field is mapped twice |
| `LegacySoldListingCsvMap.NamesLowerCase` | src/OpenRealEstate.NET.Transmorgrifiers.Csv/SoldListingCsvMap.cs:10-24 | every column name is lower case |
| `LegacySoldListingCsvMap.AgreesWithCurrent` | src/OpenRealEstate.NET.Transmorgrifiers.Csv/SoldListingCsvMap.cs:10-24 | each entry is the current sold table's entry for that field, without its index |
| `LegacySoldListingCsvMap.ConvertedAgents` | src/OpenRealEstate.NET.Transmorgrifiers.Csv/SoldListingCsvMap.cs:33-59 | one DTO agent per kept slot, in order, name and phone verbatim |
| `LegacySoldListingCsvMap.ConvertAgents` | src/OpenRealEstate.NET.Transmorgrifiers.Csv/SoldListingCsvMap.cs:26-60 | the collection built by the two guarded `Add`s is `ConvertedAgents` of the two slots |
| `LegacySoldListingCsvMap.ConvertedAgentsLaw` | src/OpenRealEstate.NET.Transmorgrifiers.Csv/SoldListingCsvMap.cs:35-57 | agent 1 (2) is added exactly when its name and phone are non-blank; at most two, agent 1 before agent 2, values verbatim |
| `LegacyFileService.ParsedFileResult.AddListing` | src/OpenRealEstate.NET.Transmorgrifiers.Csv/FileService.cs:173 | appends one listing and leaves the errors |
| `LegacyFileService.ParsedFileResult.AddError` | src/OpenRealEstate.NET.Transmorgrifiers.Csv/FileService.cs:48-117 | appends one error and leaves the listings |
| `LegacyFileService.ExactSoldIsSold` | src/OpenRealEstate.NET.Transmorgrifiers.Csv/FileService.cs:37-40 | a header the exact test calls sold is sold for the current (ignore-case) test too |
| `LegacyFileService.LowerCaseDetectionAgrees` | src/OpenRealEstate.NET.Transmorgrifiers.Csv/FileService.cs:37-54 | on all-lower-case headers the exact and the ignore-case detection pick the same schema (or none) |
| `LegacyFileService.UpperCaseSentinelIsMissed` | src/OpenRealEstate.NET.Transmorgrifiers.Csv/FileService.cs:37-54 | a header "SOLD_DATE" is undetected here but a sold file for the current generation |
| `LegacyFileService.FaultErrors` | src/OpenRealEstate.NET.Transmorgrifiers.Csv/FileService.cs:90-117 | one error per reported fault, in order |
| `LegacyFileService.ReportFault` | src/OpenRealEstate.NET.Transmorgrifiers.Csv/FileService.cs:90-117 | each callback appends its message with the raw record as row data, and adds no listing |
| `LegacyFileService.ReportFaults` | src/OpenRealEstate.NET.Transmorgrifiers.Csv/FileService.cs:90-117 | a row's faults are appended in the order reported |
| `LegacyFileService.ParseCsvDataRow` | src/OpenRealEstate.NET.Transmorgrifiers.Csv/FileService.cs:133-153 | binds the row as the schema's DTO, appends its faults, and returns its listing or null |
| `LegacyFileService.RejectedAreValidationErrors` | src/OpenRealEstate.NET.Transmorgrifiers.Csv/FileService.cs:181 | every validation error's message starts with "Listing '" |
| `LegacyFileService.UndetectedIsNoValidationError` | src/OpenRealEstate.NET.Transmorgrifiers.Csv/FileService.cs:51 | the undetected-schema error starts "Listing c", so it is not a validation error |
| `LegacyFileService.ValidateListings` | src/OpenRealEstate.NET.Transmorgrifiers.Csv/FileService.cs:155-189 | appends the accepted listings to the listings and the rejection errors to the errors |
| `LegacyFileService.RowsStep` | src/OpenRealEstate.NET.Transmorgrifiers.Csv/FileService.cs:57-66 | one more row adds its faults and its listing, if any, at the end |
| `LegacyFileService.ParseFileAsync` | src/OpenRealEstate.NET.Transmorgrifiers.Csv/FileService.cs:14-81 | a null reader throws ArgumentNullException("streamReader"); otherwise the result returned is `ParseOutcome` of the reader's script |
| `LegacyFileService.RowsParsedAppend` | src/OpenRealEstate.NET.Transmorgrifiers.Csv/FileService.cs:57-66 | the rows are parsed one after another, in order |
| `LegacyFileService.RowResultsLaw` | src/OpenRealEstate.NET.Transmorgrifiers.Csv/FileService.cs:59-65 | a row adds a listing exactly when it binds |
| `LegacyFileService.RowCountLaw` | src/OpenRealEstate.NET.Transmorgrifiers.Csv/FileService.cs:57-66 | there are as many parsed listings as rows that bind |
| `LegacyFileService.RowLoopLaw` | src/OpenRealEstate.NET.Transmorgrifiers.Csv/FileService.cs:57-66 | a row that binds to null adds nothing; any other adds exactly its listing, at its place in row order |
| `LegacyFileService.RowsErrorsAreReaderErrors` | src/OpenRealEstate.NET.Transmorgrifiers.Csv/FileService.cs:90-117 | no reader error looks like a validation error, and each carries row data |
| `LegacyFileService.FaultErrorsAreReaderErrors` | src/OpenRealEstate.NET.Transmorgrifiers.Csv/FileService.cs:90-117 | no callback error starts like a validation error, and each carries its raw record as row data |
| `LegacyFileService.ReaderErrorsAreReaderErrors` | src/OpenRealEstate.NET.Transmorgrifiers.Csv/FileService.cs:24-66 | neither the header line's callback errors nor the rows' start like a validation error, and each has row data |
| `LegacyFileService.ReaderErrorsPrecedeValidationErrors` | src/OpenRealEstate.NET.Transmorgrifiers.Csv/FileService.cs:24-69 | after the first validation error, every error is a validation error |
| `LegacyFileService.ParseCountLaw` | src/OpenRealEstate.NET.Transmorgrifiers.Csv/FileService.cs:57-188 | at most one listing per bound row; the reader errors (the header line's, then the rows') plus one per rejected listing; a listing is kept iff parsed and valid; an error is reported exactly for an invalid listing, with its message and the serialized listing as row data |
| `LegacyFileService.UndetectedSchemaLaw` | src/OpenRealEstate.NET.Transmorgrifiers.Csv/FileService.cs:45-54 | no exact sentinel: the header line's callback errors, then the fixed error with no row data, and nothing else; no listing, and the data rows are never looked at |
| `LegacyFileService.ExceptionLaw` | src/OpenRealEstate.NET.Transmorgrifiers.Csv/FileService.cs:72-78 | an exception thrown by the reader appends one error with its message and no row data; an unreadable header (an empty file) gives no listing and that error after the header line's callback errors; the reader errors before it are kept |

## Left out

- CsvHelper itself is not modelled: tokenizing, quoting, `Read`/`ReadHeader`/`ReadAsync`, and text-to-value conversion. The reader is a script of values (`CsvReading.CsvSource`). What binding a row gives is an input, not computed from the row's text through the column tables. The tables are modelled separately, with name lookup (`CsvListingCsvMap.ColumnOf`, `FieldText`).
- The library's own exception texts (e.g. "No header record was found.") are inputs: the header's exception message and `CsvSource.failure`.
- `csvReader.ToString()`, stored as a listing result's source data, is an input per row (`DataRow.readerText`).
- `async`/`await` and `Task.Run(...).GetAwaiter().GetResult()` only suspend. There is no concurrency, so the methods are sequential.
- `ValidatorMediator.Validate`, `JsonConvertHelpers.SerializeObject`, `Listing.ToString()`, `Address.ToFormattedAddress` and `PropertyTypeHelpers.ToPropertyType` are external. They are the function fields of `OreCore.Collaborators`. The model takes none of the five to throw. In the source, an exception from the validator, the serializer or `Listing.ToString()` inside `ValidateListings` would be caught and appended as one more error, keeping the listings already accepted; the model does not capture that outcome.
- Invariant case mapping covers only ASCII letters. Non-ASCII letters are left unchanged.
- `N0` is fixed to the en culture (comma groups of three); other cultures are not modelled.
- Decimal latitude/longitude and `DateTime` values are only copied; they are opaque values.
- Listings are values. The builders' in-place field assignments become a method building the value step by step. Aliasing of the listing object is not modelled.
- `LeasedListingCsvMap` (older generation) is not modelled. The older rental DTO is built from given fields.
- In the older generation, the column tables bind headers exactly as written (no lower-casing). Only its detection step is modelled for case sensitivity.
- The unused `existingListing` and `areBadCharactersRemoved` parameters of `Parse` have no effect and are not modelled.
- The null checks on internal arguments (`listing`, `address`, `csvReader`, `listingResults`, `result`, `parsedFileResult`) cannot fire from the entry points. They are not modelled.
- Counts for the sample CSV fixtures are not modelled.
- `CsvTransmorgrifier.ExceptionLaw`, `LegacyFileService.ExceptionLaw`: an exception is modelled as occurring only after whole rows. The case of an exception thrown part-way through one row's callbacks is not modelled.
