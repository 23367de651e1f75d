/**
 * `SoldListingCsvMap`, the older generation's sold column table: fifteen
 * properties bound by name only (no positions), plus a converter that
 * collects the row's two agent slots into the DTO's agent list.
 */
module LegacySoldListingCsvMap {
  import opened Common
  import opened AgentSlots
  import opened CsvListingCsvMap
  import CsvResidentialListingCsvMap
  import LegacyListing

  const Maps: seq<MemberMap> := [
    MemberMap(Id, "id", None),
    MemberMap(StateCode, "state_code", None),
    MemberMap(Latitude, "lat", None),
    MemberMap(Longitude, "lng", None),
    MemberMap(ImageUrl, "image", None),
    MemberMap(PropertyType, "type", None),
    MemberMap(Street, "address", None),
    MemberMap(Suburb, "suburb_name", None),
    MemberMap(Postcode, "postcode", None),
    MemberMap(Bedrooms, "bedrooms", None),
    MemberMap(Bathrooms, "bathrooms", None),
    MemberMap(CarSpaces, "car_spaces", None),
    MemberMap(SoldOn, "sold_date", None),
    MemberMap(SoldPrice, "sold_price", None),
    MemberMap(AgencyName, "agency_name", None)
  ]

  /** Two entries sit at two different places in the current sold table, whose names are distinct. */
  lemma NamesDistinct()
    ensures Distinct(Names(Maps))
  {
    var current := CsvResidentialListingCsvMap.Maps;
    AgreesWithCurrent();
    CsvResidentialListingCsvMap.MapsWellFormed();
    forall i, j | 0 <= i < j < |Maps| ensures Names(Maps)[i] != Names(Maps)[j] {
      assert Names(current)[CurrentPosition(i)] != Names(current)[CurrentPosition(j)];
    }
  }

  lemma MembersDistinct()
    ensures Distinct(Members(Maps))
  {
    var current := CsvResidentialListingCsvMap.Maps;
    AgreesWithCurrent();
    CsvResidentialListingCsvMap.MapsWellFormed();
    forall i, j | 0 <= i < j < |Maps| ensures Members(Maps)[i] != Members(Maps)[j] {
      assert Members(current)[CurrentPosition(i)] != Members(current)[CurrentPosition(j)];
    }
  }

  /** Where each legacy entry sits in the current sold table. */
  function CurrentPosition(i: nat): nat {
    if i < 12 then i else if i == 12 then 17 else if i == 13 then 18 else 12
  }

  /**
   * The fifteen scalar properties bind to fifteen distinct lower-case names,
   * none by position; each is the name the current sold table gives the
   * same property.
   */
  lemma MapsWellFormed()
    ensures |Maps| == 15
    ensures Distinct(Names(Maps)) && Distinct(Members(Maps)) && LowerCaseNames(Maps)
    ensures forall i | 0 <= i < |Maps| :: Maps[i].index.None?
    ensures forall i | 0 <= i < |Maps| ::
              CurrentPosition(i) < |CsvResidentialListingCsvMap.Maps| &&
              Maps[i] == CsvResidentialListingCsvMap.Maps[CurrentPosition(i)].(index := None)
  {
    NamesDistinct();
    MembersDistinct();
    NamesLowerCase();
    AgreesWithCurrent();
  }

  lemma NamesLowerCase()
    ensures LowerCaseNames(Maps)
  {
    AgreesWithCurrent();
    CsvResidentialListingCsvMap.MapsWellFormed();
  }

  lemma AgreesWithCurrent()
    ensures forall i | 0 <= i < |Maps| ::
              CurrentPosition(i) < |CsvResidentialListingCsvMap.Maps| &&
              Maps[i] == CsvResidentialListingCsvMap.Maps[CurrentPosition(i)].(index := None)
  {
    var current := CsvResidentialListingCsvMap.Maps;
    assert |current| == 19;
    forall i | 0 <= i < |Maps|
      ensures CurrentPosition(i) < |current| && Maps[i] == current[CurrentPosition(i)].(index := None)
    {
      if i < 12 {
        assert current[i] == BaseMaps[i];
      } else if i == 14 {
        assert current[12] == BaseMaps[12];
      } else {
        assert current[17] == MemberMap(SoldOn, "sold_date", Some(12));
        assert current[18] == MemberMap(SoldPrice, "sold_price", Some(13));
      }
    }
  }

  function AsCsvAgent(slot: AgentSlot): LegacyListing.CsvAgent {
    LegacyListing.CsvAgent(slot.name, slot.phone)
  }

  /** The agents the converter collects from the kept slots. */
  function ConvertedAgents(slots: seq<AgentSlot>): (agents: seq<LegacyListing.CsvAgent>)
    ensures |agents| == |KeptSlots(slots)|
    ensures forall k | 0 <= k < |agents| :: agents[k] == AsCsvAgent(KeptSlots(slots)[k])
  {
    var kept := KeptSlots(slots);
    seq(|kept|, k requires 0 <= k < |kept| => AsCsvAgent(kept[k]))
  }

  /**
   * The `ConvertUsing` lambda: the fields of agent_name, agent_phone,
   * agent_2_name and agent_2_phone (null when absent) give at most two
   * agents, each added only when both its name and phone are non-blank.
   */
  method ConvertAgents(agent1Name: Option<string>, agent1Phone: Option<string>,
                       agent2Name: Option<string>, agent2Phone: Option<string>)
    returns (agents: seq<LegacyListing.CsvAgent>)
    ensures agents == ConvertedAgents([AgentSlot(agent1Name, agent1Phone), AgentSlot(agent2Name, agent2Phone)])
  {
    var slots := [AgentSlot(agent1Name, agent1Phone), AgentSlot(agent2Name, agent2Phone)];
    ghost var kept: seq<AgentSlot> := [];
    agents := [];

    if !IsNullOrWhiteSpace(agent1Name) && !IsNullOrWhiteSpace(agent1Phone) {
      var agent := LegacyListing.CsvAgent(agent1Name, agent1Phone);
      agents := agents + [agent];
      kept := kept + [slots[0]];
    }

    if !IsNullOrWhiteSpace(agent2Name) && !IsNullOrWhiteSpace(agent2Phone) {
      var agent := LegacyListing.CsvAgent(agent2Name, agent2Phone);
      agents := agents + [agent];
      kept := kept + [slots[1]];
    }

    assert kept == KeptSlots(slots) by {
      assert slots[1..] == [slots[1]] && slots[1..][1..] == [];
    }
    assert |agents| == |kept| && forall k | 0 <= k < |agents| :: agents[k] == AsCsvAgent(kept[k]);
  }

  /**
   * At most two agents, agent 1 before agent 2, each present exactly when
   * its slot is complete, names and phones copied verbatim.
   */
  lemma ConvertedAgentsLaw(agent1Name: Option<string>, agent1Phone: Option<string>,
                           agent2Name: Option<string>, agent2Phone: Option<string>)
    ensures var slot1, slot2 := AgentSlot(agent1Name, agent1Phone), AgentSlot(agent2Name, agent2Phone);
            var agents := ConvertedAgents([slot1, slot2]);
            |agents| <= 2 &&
            (|agents| == 2 <==> IsComplete(slot1) && IsComplete(slot2)) &&
            (agents == [] <==> !IsComplete(slot1) && !IsComplete(slot2)) &&
            (IsComplete(slot1) ==> agents[0] == LegacyListing.CsvAgent(agent1Name, agent1Phone)) &&
            (IsComplete(slot2) ==> agents[|agents| - 1] == LegacyListing.CsvAgent(agent2Name, agent2Phone))
  {
    TwoSlots(AgentSlot(agent1Name, agent1Phone), AgentSlot(agent2Name, agent2Phone));
  }
}
