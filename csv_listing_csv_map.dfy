/**
 * `CsvListingCsvMap`: the column table shared by both row shapes of the
 * current generation. Each entry binds a DTO property to a column name and
 * a position; indices 12 and 13 are left to the sold/rental tables. The
 * reader lower-cases every header before matching it against these names.
 */
module CsvListingCsvMap {
  import opened Common

  /** The DTO properties a column can bind to. */
  datatype Member =
    | Id | StateCode | Latitude | Longitude | ImageUrl | PropertyType | Street | Suburb | Postcode
    | Bedrooms | Bathrooms | CarSpaces | AgencyName | Agent1Name | Agent1Phone | Agent2Name | Agent2Phone
    | SoldOn | SoldPrice | LeasedOn | RentPrice

  /** One `Map(m => m.<member>).Name(<name>)[.Index(<index>)]` declaration. */
  datatype MemberMap = MemberMap(member: Member, name: string, index: Option<nat>)

  const BaseMaps: seq<MemberMap> := [
    MemberMap(Id, "id", Some(0)),
    MemberMap(StateCode, "state_code", Some(1)),
    MemberMap(Latitude, "lat", Some(2)),
    MemberMap(Longitude, "lng", Some(3)),
    MemberMap(ImageUrl, "image", Some(4)),
    MemberMap(PropertyType, "type", Some(5)),
    MemberMap(Street, "address", Some(6)),
    MemberMap(Suburb, "suburb_name", Some(7)),
    MemberMap(Postcode, "postcode", Some(8)),
    MemberMap(Bedrooms, "bedrooms", Some(9)),
    MemberMap(Bathrooms, "bathrooms", Some(10)),
    MemberMap(CarSpaces, "car_spaces", Some(11)),
    MemberMap(AgencyName, "agency_name", Some(14)),
    MemberMap(Agent1Name, "agent_name", Some(15)),
    MemberMap(Agent1Phone, "agent_phone", Some(16)),
    MemberMap(Agent2Name, "agent_2_name", Some(17)),
    MemberMap(Agent2Phone, "agent_2_phone", Some(18))
  ]

  /** No two positions of `keys` hold the same key. */
  predicate Distinct<K(==)>(keys: seq<K>) {
    forall i, j | 0 <= i < j < |keys| :: keys[i] != keys[j]
  }

  function Names(maps: seq<MemberMap>): (r: seq<string>)
    ensures |r| == |maps| && forall i | 0 <= i < |maps| :: r[i] == maps[i].name
  {
    seq(|maps|, i requires 0 <= i < |maps| => maps[i].name)
  }

  function Members(maps: seq<MemberMap>): (r: seq<Member>)
    ensures |r| == |maps| && forall i | 0 <= i < |maps| :: r[i] == maps[i].member
  {
    seq(|maps|, i requires 0 <= i < |maps| => maps[i].member)
  }

  function IndexList(maps: seq<MemberMap>): (r: seq<Option<nat>>)
    ensures |r| == |maps| && forall i | 0 <= i < |maps| :: r[i] == maps[i].index
  {
    seq(|maps|, i requires 0 <= i < |maps| => maps[i].index)
  }

  /** Two key lists without repeats and without a key in common concatenate without repeats. */
  lemma DistinctAppend<K>(a: seq<K>, b: seq<K>)
    requires Distinct(a) && Distinct(b)
    requires forall i, j | 0 <= i < |a| && 0 <= j < |b| :: a[i] != b[j]
    ensures Distinct(a + b)
  {
    var ab := a + b;
    forall i, j | 0 <= i < j < |ab| ensures ab[i] != ab[j] {
      if j < |a| {
        assert ab[i] == a[i] && ab[j] == a[j];
      } else if i >= |a| {
        assert ab[i] == b[i - |a|] && ab[j] == b[j - |a|];
      } else {
        assert ab[i] == a[i] && ab[j] == b[j - |a|];
      }
    }
  }

  lemma KeysAppend(a: seq<MemberMap>, b: seq<MemberMap>)
    ensures Names(a + b) == Names(a) + Names(b)
    ensures Members(a + b) == Members(a) + Members(b)
    ensures IndexList(a + b) == IndexList(a) + IndexList(b)
  {
  }

  /** Every name is already lower-case, so it can match a lower-cased header. */
  predicate LowerCaseNames(maps: seq<MemberMap>) {
    forall i | 0 <= i < |maps| :: IsLowerCase(maps[i].name)
  }

  /** Some entry of the table binds position `k`. */
  predicate UsesIndex(maps: seq<MemberMap>, k: nat) {
    exists i | 0 <= i < |maps| :: maps[i].index == Some(k)
  }

  /**
   * The 17 shared properties bind to 17 distinct lower-case names at 17
   * distinct positions: 0 to 18 without 12 and 13.
   */
  lemma BaseMapsWellFormed()
    ensures |BaseMaps| == 17
    ensures Distinct(Names(BaseMaps)) && Distinct(Members(BaseMaps)) && Distinct(IndexList(BaseMaps))
    ensures LowerCaseNames(BaseMaps)
    ensures forall i | 0 <= i < |BaseMaps| :: BaseMaps[i].index.Some?
    ensures forall k: nat :: UsesIndex(BaseMaps, k) <==> k < 19 && k != 12 && k != 13
  {
    BaseNamesDistinct();
    BaseMembersDistinct();
    BaseIndicesDistinct();
    BaseNamesLowerCase();
    BaseIndicesExact();
  }

  /** A member's position in the declaration of `Member`. */
  function Ordinal(m: Member): nat {
    match m
    case Id => 0 case StateCode => 1 case Latitude => 2 case Longitude => 3 case ImageUrl => 4
    case PropertyType => 5 case Street => 6 case Suburb => 7 case Postcode => 8 case Bedrooms => 9
    case Bathrooms => 10 case CarSpaces => 11 case AgencyName => 12 case Agent1Name => 13
    case Agent1Phone => 14 case Agent2Name => 15 case Agent2Phone => 16
    case SoldOn => 17 case SoldPrice => 18 case LeasedOn => 19 case RentPrice => 20
  }

  /** The shared table lists the members in their declaration order. */
  lemma BaseMemberOrdinal(i: int)
    requires 0 <= i < |BaseMaps|
    ensures Ordinal(BaseMaps[i].member) == i
  {
    if i == 0 {} else if i == 1 {} else if i == 2 {} else if i == 3 {} else if i == 4 {} else if i == 5 {} else if i == 6 {} else if i == 7 {} else if i == 8 {} else if i == 9 {} else if i == 10 {} else if i == 11 {} else if i == 12 {} else if i == 13 {} else if i == 14 {} else if i == 15 {} else {}
  }

  lemma BaseMembersInOrder()
    ensures forall i | 0 <= i < |BaseMaps| :: Ordinal(BaseMaps[i].member) == i
  {
    forall i | 0 <= i < |BaseMaps| ensures Ordinal(BaseMaps[i].member) == i {
      BaseMemberOrdinal(i);
    }
  }

  lemma BaseMembersDistinct()
    ensures Distinct(Members(BaseMaps))
  {
    BaseMembersInOrder();
    forall i, j | 0 <= i < j < |BaseMaps| ensures Members(BaseMaps)[i] != Members(BaseMaps)[j] {
      assert Ordinal(BaseMaps[i].member) != Ordinal(BaseMaps[j].member);
    }
  }

  lemma BaseIndicesDistinct()
    ensures Distinct(IndexList(BaseMaps))
  {
    BaseIndicesExact();
  }

  lemma BaseNamesLowerCase()
    ensures LowerCaseNames(BaseMaps)
  {
    forall i | 0 <= i < |BaseMaps| ensures IsLowerCase(BaseMaps[i].name) {
      BaseNameLowerCase(i);
    }
  }

  lemma BaseNameLowerCase(i: nat)
    requires i < |BaseMaps|
    ensures IsLowerCase(BaseMaps[i].name)
  {
    if i < 6 {
      FirstNamesLowerCase(i);
    } else if i < 12 {
      MiddleNamesLowerCase(i);
    } else {
      LastNamesLowerCase(i);
    }
  }

  lemma FirstNamesLowerCase(i: nat)
    requires i < 6
    ensures IsLowerCase(BaseMaps[i].name)
  {
    assert BaseMaps[i].name in ["id", "state_code", "lat", "lng", "image", "type"];
  }

  lemma MiddleNamesLowerCase(i: nat)
    requires 6 <= i < 12
    ensures IsLowerCase(BaseMaps[i].name)
  {
    assert BaseMaps[i].name in ["address", "suburb_name", "postcode", "bedrooms", "bathrooms", "car_spaces"];
  }

  lemma LastNamesLowerCase(i: nat)
    requires 12 <= i < |BaseMaps|
    ensures IsLowerCase(BaseMaps[i].name)
  {
    if i < 14 {
      assert BaseMaps[i].name in ["agency_name", "agent_name"];
    } else {
      assert BaseMaps[i].name in ["agent_phone", "agent_2_name", "agent_2_phone"];
    }
  }

  /** Each shared column name differs from every name after it in the table. */
  lemma BaseNameDiffersFromLater(i: nat)
    requires i < |BaseMaps|
    ensures forall j | i < j < |BaseMaps| :: BaseMaps[i].name != BaseMaps[j].name
  {
    if i == 0 {} else if i == 1 {} else if i == 2 {} else if i == 3 {} else if i == 4 {} else if i == 5 {} else if i == 6 {} else if i == 7 {} else if i == 8 {} else if i == 9 {} else if i == 10 {} else if i == 11 {} else if i == 12 {} else if i == 13 {} else if i == 14 {} else if i == 15 {} else {}
  }

  lemma BaseNamesDistinct()
    ensures Distinct(Names(BaseMaps))
  {
    forall i, j | 0 <= i < j < |BaseMaps| ensures Names(BaseMaps)[i] != Names(BaseMaps)[j] {
      BaseNameDiffersFromLater(i);
    }
  }

  /** Positions 0 to 11, then 14 to 18, in declaration order. */
  lemma BaseIndicesExact()
    ensures forall i | 0 <= i < |BaseMaps| :: BaseMaps[i].index == Some(if i < 12 then i else i + 2)
    ensures forall k: nat :: UsesIndex(BaseMaps, k) <==> k < 19 && k != 12 && k != 13
  {
    forall k: nat | k < 19 && k != 12 && k != 13 ensures UsesIndex(BaseMaps, k) {
      var i := if k < 12 then k else k - 2;
      assert BaseMaps[i].index == Some(k);
    }
  }

  /** The two agent slots bind to agent_name/agent_phone and agent_2_name/agent_2_phone. */
  lemma AgentColumns()
    ensures MemberMap(Agent1Name, "agent_name", Some(15)) in BaseMaps
    ensures MemberMap(Agent1Phone, "agent_phone", Some(16)) in BaseMaps
    ensures MemberMap(Agent2Name, "agent_2_name", Some(17)) in BaseMaps
    ensures MemberMap(Agent2Phone, "agent_2_phone", Some(18)) in BaseMaps
  {
    assert BaseMaps[13] == MemberMap(Agent1Name, "agent_name", Some(15));
    assert BaseMaps[14] == MemberMap(Agent1Phone, "agent_phone", Some(16));
    assert BaseMaps[15] == MemberMap(Agent2Name, "agent_2_name", Some(17));
    assert BaseMaps[16] == MemberMap(Agent2Phone, "agent_2_phone", Some(18));
  }

  // ------------------------------------------------ the two schema tables

  /** A schema's table: the shared entries, then its date column at 12 and its price column at 13. */
  function SchemaMaps(date: Member, dateName: string, price: Member, priceName: string): seq<MemberMap> {
    BaseMaps + [MemberMap(date, dateName, Some(12)), MemberMap(price, priceName, Some(13))]
  }

  /** The two schema columns are new properties on new lower-case names. */
  predicate ExtendsBase(date: Member, dateName: string, price: Member, priceName: string) {
    date != price && dateName != priceName && IsLowerCase(dateName) && IsLowerCase(priceName) &&
    (forall i | 0 <= i < |BaseMaps| :: BaseMaps[i].member != date && BaseMaps[i].member != price) &&
    (forall i | 0 <= i < |BaseMaps| :: BaseMaps[i].name != dateName && BaseMaps[i].name != priceName)
  }

  /**
   * A schema's complete table: 19 properties on 19 distinct lower-case
   * names, using every position 0 to 18 exactly once.
   */
  lemma SchemaMapsWellFormed(date: Member, dateName: string, price: Member, priceName: string)
    requires ExtendsBase(date, dateName, price, priceName)
    ensures var maps := SchemaMaps(date, dateName, price, priceName);
            |maps| == 19 &&
            Distinct(Names(maps)) && Distinct(Members(maps)) && Distinct(IndexList(maps)) &&
            LowerCaseNames(maps) &&
            forall k: nat :: UsesIndex(maps, k) <==> k < 19
  {
    SchemaKeysDistinct(date, dateName, price, priceName);
    SchemaIndicesDistinct(date, dateName, price, priceName);
    SchemaNamesLowerCase(date, dateName, price, priceName);
    SchemaIndicesCovered(date, dateName, price, priceName);
  }

  lemma SchemaKeysDistinct(date: Member, dateName: string, price: Member, priceName: string)
    requires ExtendsBase(date, dateName, price, priceName)
    ensures var maps := SchemaMaps(date, dateName, price, priceName);
            Distinct(Names(maps)) && Distinct(Members(maps))
  {
    var extra := [MemberMap(date, dateName, Some(12)), MemberMap(price, priceName, Some(13))];
    KeysAppend(BaseMaps, extra);
    SchemaNamesDistinct(Names(extra), dateName, priceName);
    SchemaMembersDistinct(Members(extra), date, price);
  }

  lemma SchemaNamesDistinct(names: seq<string>, dateName: string, priceName: string)
    requires names == [dateName, priceName] && dateName != priceName
    requires forall i | 0 <= i < |BaseMaps| :: BaseMaps[i].name != dateName && BaseMaps[i].name != priceName
    ensures Distinct(Names(BaseMaps) + names)
  {
    BaseNamesDistinct();
    forall i, j | 0 <= i < |BaseMaps| && 0 <= j < 2 ensures Names(BaseMaps)[i] != names[j] {
    }
    DistinctAppend(Names(BaseMaps), names);
  }

  lemma SchemaMembersDistinct(members: seq<Member>, date: Member, price: Member)
    requires members == [date, price] && date != price
    requires forall i | 0 <= i < |BaseMaps| :: BaseMaps[i].member != date && BaseMaps[i].member != price
    ensures Distinct(Members(BaseMaps) + members)
  {
    BaseMembersDistinct();
    forall i, j | 0 <= i < |BaseMaps| && 0 <= j < 2 ensures Members(BaseMaps)[i] != members[j] {
    }
    DistinctAppend(Members(BaseMaps), members);
  }

  lemma SchemaIndicesDistinct(date: Member, dateName: string, price: Member, priceName: string)
    ensures Distinct(IndexList(SchemaMaps(date, dateName, price, priceName)))
  {
    var extra := [MemberMap(date, dateName, Some(12)), MemberMap(price, priceName, Some(13))];
    KeysAppend(BaseMaps, extra);
    BaseIndicesDistinct();
    BaseIndicesExact();
    DistinctAppend(IndexList(BaseMaps), IndexList(extra));
  }

  lemma SchemaNamesLowerCase(date: Member, dateName: string, price: Member, priceName: string)
    requires IsLowerCase(dateName) && IsLowerCase(priceName)
    ensures LowerCaseNames(SchemaMaps(date, dateName, price, priceName))
  {
    var maps := SchemaMaps(date, dateName, price, priceName);
    BaseNamesLowerCase();
    assert maps[17].name == dateName && maps[18].name == priceName;
    assert forall i | 0 <= i < 17 :: maps[i] == BaseMaps[i];
  }

  lemma SchemaIndicesCovered(date: Member, dateName: string, price: Member, priceName: string)
    ensures var maps := SchemaMaps(date, dateName, price, priceName);
            forall k: nat :: UsesIndex(maps, k) <==> k < 19
  {
    var maps := SchemaMaps(date, dateName, price, priceName);
    BaseIndicesExact();
    forall k: nat | k < 19 ensures UsesIndex(maps, k) {
      if k == 12 {
        assert maps[17].index == Some(k);
      } else if k == 13 {
        assert maps[18].index == Some(k);
      } else {
        assert UsesIndex(BaseMaps, k);
        var i :| 0 <= i < |BaseMaps| && BaseMaps[i].index == Some(k);
        assert maps[i].index == Some(k);
      }
    }
    forall k: nat | UsesIndex(maps, k) ensures k < 19 {
      var i :| 0 <= i < |maps| && maps[i].index == Some(k);
      if i < 17 {
        assert maps[i] == BaseMaps[i];
        assert UsesIndex(BaseMaps, k);
      }
    }
  }

  /** Members declared after the shared ones are not in the shared table. */
  lemma LaterMembersNotShared(m: Member)
    requires Ordinal(m) >= |BaseMaps|
    ensures forall i | 0 <= i < |BaseMaps| :: BaseMaps[i].member != m
  {
    BaseMembersInOrder();
  }

  // ------------------------------------------------------- binding by name

  /**
   * The column a name binds to: the first header that equals the name once
   * prepared for matching (`PrepareHeaderForMatch`, lower-casing here).
   */
  function ColumnOf(header: seq<string>, name: string): (r: Option<nat>)
    ensures r.Some? ==> r.value < |header| && ToLower(header[r.value]) == name &&
                        forall j | 0 <= j < r.value :: ToLower(header[j]) != name
    ensures r.None? ==> forall j | 0 <= j < |header| :: ToLower(header[j]) != name
  {
    if header == [] then None
    else if ToLower(header[0]) == name then Some(0)
    else match ColumnOf(header[1..], name)
      case None => None
      case Some(k) => Some(k + 1)
  }

  /** The text a row holds for a name, if the header has that column and the row is long enough. */
  function FieldText(header: seq<string>, row: seq<string>, name: string): Option<string> {
    match ColumnOf(header, name)
    case Some(k) => if k < |row| then Some(row[k]) else None
    case None => None
  }

  lemma ToLowerOfUpper(s: string)
    ensures ToLower(ToUpper(s)) == ToLower(s)
  {
  }

  /** Headers that agree once lower-cased bind every name to the same column. */
  lemma {:induction false} ColumnOfIgnoresCase(header1: seq<string>, header2: seq<string>, name: string)
    requires |header1| == |header2|
    requires forall i | 0 <= i < |header1| :: ToLower(header1[i]) == ToLower(header2[i])
    ensures ColumnOf(header1, name) == ColumnOf(header2, name)
  {
    if header1 != [] {
      ColumnOfIgnoresCase(header1[1..], header2[1..], name);
    }
  }

  /** A header row written in capitals ("SOLD_DATE") binds exactly like the lower-case one. */
  lemma UpperCaseHeaderBindsAlike(header: seq<string>, row: seq<string>, name: string)
    ensures var upper := seq(|header|, i requires 0 <= i < |header| => ToUpper(header[i]));
            FieldText(upper, row, name) == FieldText(header, row, name)
  {
    var upper := seq(|header|, i requires 0 <= i < |header| => ToUpper(header[i]));
    forall i | 0 <= i < |header| ensures ToLower(upper[i]) == ToLower(header[i]) {
      ToLowerOfUpper(header[i]);
    }
    ColumnOfIgnoresCase(upper, header, name);
  }

  /** `q` undoes `p` on positions 0..n-1: p is a permutation with inverse q. */
  predicate IsPermutation(p: seq<nat>, q: seq<nat>) {
    |p| == |q| &&
    (forall i | 0 <= i < |p| :: p[i] < |p| && q[p[i]] == i) &&
    (forall k | 0 <= k < |q| :: q[k] < |q| && p[q[k]] == k)
  }

  /**
   * Columns in another order: if the header names are distinct once
   * lower-cased, moving the header and the row's fields by the same
   * permutation leaves the text bound to every name unchanged.
   */
  lemma ReorderedColumnsBindAlike(header: seq<string>, row: seq<string>, p: seq<nat>, q: seq<nat>, name: string)
    requires |header| == |row| && IsPermutation(p, q) && |p| == |header|
    requires forall i, j | 0 <= i < j < |header| :: ToLower(header[i]) != ToLower(header[j])
    ensures var header2 := seq(|p|, i requires 0 <= i < |p| => header[p[i]]);
            var row2 := seq(|p|, i requires 0 <= i < |p| => row[p[i]]);
            FieldText(header2, row2, name) == FieldText(header, row, name)
  {
    var header2 := seq(|p|, i requires 0 <= i < |p| => header[p[i]]);
    var row2 := seq(|p|, i requires 0 <= i < |p| => row[p[i]]);
    match ColumnOf(header, name)
    case None => {
      forall i | 0 <= i < |header2| ensures ToLower(header2[i]) != name {
        assert header2[i] == header[p[i]];
      }
      assert ColumnOf(header2, name).None?;
    }
    case Some(k) => {
      var i := q[k];
      assert header2[i] == header[k];
      assert ColumnOf(header2, name) == Some(i);
      assert row2[i] == row[k];
    }
  }
}
