/**
 * The cascading row editor: a table of personnel records whose province, city and district
 * cells are chained drop-downs. Choosing a province clears the row's city and district,
 * choosing a city clears the row's district, and each drop-down offers the catalog entry of
 * the row's current parent code.
 */
module DomTable {
  import opened RegionData

  datatype Option<T> = None | Some(value: T)

  /** One table row; an unset cell is `None`. */
  datatype DataRecord = DataRecord(
    key: string,
    personnelNo: string,
    province: Option<string>,
    city: Option<string>,
    district: Option<string>)

  /** The three editable columns, from the top of the hierarchy down. */
  datatype Level = ProvinceLevel | CityLevel | DistrictLevel

  function Rank(level: Level): nat {
    match level
    case ProvinceLevel => 0
    case CityLevel => 1
    case DistrictLevel => 2
  }

  /** The cell of a row at a level. */
  function Field(r: DataRecord, level: Level): Option<string> {
    match level
    case ProvinceLevel => r.province
    case CityLevel => r.city
    case DistrictLevel => r.district
  }

  /** The form's initial rows: two people, no cell chosen. */
  function InitialData(): seq<DataRecord> {
    [ DataRecord("1", "1001", None, None, None),
      DataRecord("2", "1002", None, None, None) ]
  }

  /** The row after choosing `v` at `level`: the chosen cell holds `v`, the cells below it
      are cleared, and the cells above it, the key and the personnel number are kept. */
  function Choose(r: DataRecord, level: Level, v: string): (c: DataRecord)
    ensures Field(c, level) == Some(v)
    ensures forall l :: Rank(l) > Rank(level) ==> Field(c, l) == None
    ensures forall l :: Rank(l) < Rank(level) ==> Field(c, l) == Field(r, l)
    ensures c.key == r.key && c.personnelNo == r.personnelNo
  {
    match level
    case ProvinceLevel => r.(province := Some(v), city := None, district := None)
    case CityLevel => r.(city := Some(v), district := None)
    case DistrictLevel => r.(district := Some(v))
  }

  /** `(catalog[code] || [])`: the entry of a set code, or no options. */
  function Lookup(catalog: map<string, seq<Area>>, code: Option<string>): seq<Area> {
    if code.Some? && code.value in catalog then catalog[code.value] else []
  }

  /** The options of the city drop-down of a row. */
  function CityOptions(r: DataRecord): seq<Area> {
    Lookup(Cities(), r.province)
  }

  /** The options of the district drop-down of a row. */
  function DistrictOptions(r: DataRecord): seq<Area> {
    Lookup(Districts(), r.city)
  }

  /** The options of the drop-down of a row at a level; every row gets all provinces. */
  function OptionsAt(r: DataRecord, level: Level): seq<Area> {
    match level
    case ProvinceLevel => Provinces()
    case CityLevel => CityOptions(r)
    case DistrictLevel => DistrictOptions(r)
  }

  /** `records?.[i]?.province`: the province of row i, unset when there is no such row. */
  function ProvinceAt(rows: seq<DataRecord>, i: nat): Option<string> {
    if i < |rows| then rows[i].province else None
  }

  /** The `shouldUpdate` test of row i's city cell: it is re-derived when that row's
      province differs between the previous and the current rows. */
  predicate CityCellStale(prev: seq<DataRecord>, cur: seq<DataRecord>, i: nat) {
    ProvinceAt(prev, i) != ProvinceAt(cur, i)
  }

  /** A `required` rule: the cell holds a non-empty value. */
  predicate Filled(cell: Option<string>) {
    cell.Some? && cell.value != ""
  }

  /** A row passes validation when its province, city and district are all filled. */
  predicate RowPasses(r: DataRecord) {
    Filled(r.province) && Filled(r.city) && Filled(r.district)
  }

  /** Every cell that is set holds one of the options its drop-down offers. */
  predicate Consistent(r: DataRecord) {
    (r.province.Some? ==> r.province.value in ValueSet(Provinces())) &&
    (r.city.Some? ==> r.city.value in ValueSet(CityOptions(r))) &&
    (r.district.Some? ==> r.district.value in ValueSet(DistrictOptions(r)))
  }

  predicate AllConsistent(rows: seq<DataRecord>) {
    forall j :: 0 <= j < |rows| ==> Consistent(rows[j])
  }

  /** The two initial rows have distinct keys, nothing chosen, no row passes validation,
      and the city and district drop-downs offer nothing yet. */
  lemma InitialShape()
    ensures |InitialData()| == 2
    ensures InitialData()[0].key == "1" && InitialData()[0].personnelNo == "1001"
    ensures InitialData()[1].key == "2" && InitialData()[1].personnelNo == "1002"
    ensures forall j, l :: 0 <= j < 2 ==> Field(InitialData()[j], l) == None
    ensures forall j :: 0 <= j < 2 ==> !RowPasses(InitialData()[j]) && Consistent(InitialData()[j])
    ensures forall j :: 0 <= j < 2 ==> CityOptions(InitialData()[j]) == [] && DistrictOptions(InitialData()[j]) == []
  {
  }

  /** The city drop-down offers something exactly when the row's province is one of the
      ten province codes, and then it offers that province's two cities, whose codes
      extend the province code with `-`. */
  lemma CityOptionsSpec(r: DataRecord)
    ensures CityOptions(r) != [] <==> r.province.Some? && r.province.value in ValueSet(Provinces())
    ensures |CityOptions(r)| == 0 || |CityOptions(r)| == 2
    ensures forall o :: o in CityOptions(r) ==> r.province.Some? && r.province.value + "-" <= o.value
  {
    assert Parents(1) == Provinces();
    if r.province.Some? {
      CatalogLookup(1, r.province.value);
    }
  }

  /** The district drop-down offers something exactly when the row's city is one of the
      twenty city codes, and then it offers that city's two districts, whose codes extend
      the city code with `-`. */
  lemma DistrictOptionsSpec(r: DataRecord)
    ensures DistrictOptions(r) != [] <==> r.city.Some? && r.city.value in ValueSet(LevelList(1))
    ensures |DistrictOptions(r)| == 0 || |DistrictOptions(r)| == 2
    ensures forall o :: o in DistrictOptions(r) ==> r.city.Some? && r.city.value + "-" <= o.value
  {
    assert Parents(2) == LevelList(1);
    if r.city.Some? {
      CatalogLookup(2, r.city.value);
    }
  }

  /** Every offered city has districts to offer, so a row can always be completed. */
  lemma OfferedCityHasDistricts(r: DataRecord, c: string)
    requires c in ValueSet(CityOptions(r))
    ensures r.province.Some?
    ensures c in Districts() && |Districts()[c]| == 2
  {
    ValueSetMembers(CityOptions(r));
    var n :| 0 <= n < |CityOptions(r)| && CityOptions(r)[n].value == c;
    var p := r.province.value;
    var m: map<string, seq<Area>> := Catalog(1);
    assert p in m && m[p][n].value == c;
    NextKeysAreChildren(1);
    assert c in Catalog(2);
    CatalogLookup(2, c);
  }

  /** The province drop-down is the same full list of ten provinces for every row,
      whatever the rows hold, so two rows may choose the same province. */
  lemma ProvinceOptionsShared(rows: seq<DataRecord>, i: nat, j: nat, p: string)
    requires i < |rows| && j < |rows| && rows[i].province == Some(p) && Consistent(rows[i])
    ensures |OptionsAt(rows[j], ProvinceLevel)| == 10
    ensures p in ValueSet(OptionsAt(rows[j], ProvinceLevel))
    ensures Consistent(Choose(rows[j], ProvinceLevel, p))
  {
  }

  /** Choosing an offered option keeps a consistent row consistent. */
  lemma ChooseKeepsConsistent(r: DataRecord, level: Level, v: string)
    requires Consistent(r) && v in ValueSet(OptionsAt(r, level))
    ensures Consistent(Choose(r, level, v))
  {
  }

  /** Choosing an offered option in one row keeps every row consistent. */
  lemma EditKeepsAllConsistent(rows: seq<DataRecord>, i: nat, level: Level, v: string)
    requires AllConsistent(rows) && i < |rows| && v in ValueSet(OptionsAt(rows[i], level))
    ensures AllConsistent(rows[i := Choose(rows[i], level, v)])
  {
  }

  /** In a consistent row the chosen codes form a chain: the city extends the province
      code with `-` and the district extends the city code with `-`. */
  lemma ConsistentChain(r: DataRecord)
    requires Consistent(r)
    ensures r.city.Some? ==> r.province.Some? && r.province.value + "-" <= r.city.value
    ensures r.district.Some? ==> r.city.Some? && r.city.value + "-" <= r.district.value
  {
    CityOptionsSpec(r);
    DistrictOptionsSpec(r);
    if r.city.Some? {
      ValueSetMembers(CityOptions(r));
      var n :| 0 <= n < |CityOptions(r)| && CityOptions(r)[n].value == r.city.value;
      assert CityOptions(r)[n] in CityOptions(r);
    }
    if r.district.Some? {
      ValueSetMembers(DistrictOptions(r));
      var n :| 0 <= n < |DistrictOptions(r)| && DistrictOptions(r)[n].value == r.district.value;
      assert DistrictOptions(r)[n] in DistrictOptions(r);
    }
  }

  /** Choosing a province or a city leaves the row failing validation until a district
      is chosen again; choosing a district completes the row exactly when its province
      and city are filled and the district is non-empty. */
  lemma ChooseValidation(r: DataRecord, level: Level, v: string)
    ensures level != DistrictLevel ==> !RowPasses(Choose(r, level, v))
    ensures level == DistrictLevel ==>
      (RowPasses(Choose(r, level, v)) <==> Filled(r.province) && Filled(r.city) && v != "")
  {
  }

  /** A consistent row whose district is chosen passes validation: every code on the
      chain is non-empty. */
  lemma ConsistentCompletePasses(r: DataRecord)
    requires Consistent(r) && r.district.Some?
    ensures RowPasses(r)
  {
    ConsistentChain(r);
    ProvinceCodePrefix(r.province.value);
  }

  /** Choosing a province in row i marks only row i's city cell for re-derivation, and
      only when the province actually changes. */
  lemma ProvinceEditStale(rows: seq<DataRecord>, i: nat, v: string, j: nat)
    requires i < |rows|
    ensures CityCellStale(rows, rows[i := Choose(rows[i], ProvinceLevel, v)], j) <==>
      j == i && rows[i].province != Some(v)
  {
  }

  /** Choosing a city or a district marks no city cell for re-derivation. */
  lemma LowerEditNotStale(rows: seq<DataRecord>, i: nat, level: Level, v: string, j: nat)
    requires i < |rows| && level != ProvinceLevel
    ensures !CityCellStale(rows, rows[i := Choose(rows[i], level, v)], j)
  {
  }

  /** Choosing the same value twice has the effect of choosing it once. */
  lemma ChooseIdempotent(r: DataRecord, level: Level, v: string)
    ensures Choose(Choose(r, level, v), level, v) == Choose(r, level, v)
  {
  }

  /** The form store: the table's rows, edited in place through the drop-downs. */
  class EditorForm {
    const records: array<DataRecord>

    /** The form starts from the initial rows. */
    constructor ()
      ensures fresh(records) && records[..] == InitialData()
    {
      var a := new DataRecord[2];
      a[0] := DataRecord("1", "1001", None, None, None);
      a[1] := DataRecord("2", "1002", None, None, None);
      records := a;
    }

    /** The user picks province `value` in row `index`: the form stores it, then the
        change handler clears the row's city and district. */
    method SelectProvince(index: nat, value: string)
      requires index < records.Length
      modifies records
      ensures records[..] == old(records[..])[index := Choose(old(records[index]), ProvinceLevel, value)]
    {
      records[index] := records[index].(province := Some(value));
      records[index] := records[index].(city := None, district := None);
    }

    /** The user picks city `value` in row `index`: the form stores it, then the change
        handler clears the row's district. */
    method SelectCity(index: nat, value: string)
      requires index < records.Length
      modifies records
      ensures records[..] == old(records[..])[index := Choose(old(records[index]), CityLevel, value)]
    {
      records[index] := records[index].(city := Some(value));
      records[index] := records[index].(district := None);
    }

    /** The user picks district `value` in row `index`: the form stores it; nothing is
        cleared. */
    method SelectDistrict(index: nat, value: string)
      requires index < records.Length
      modifies records
      ensures records[..] == old(records[..])[index := Choose(old(records[index]), DistrictLevel, value)]
    {
      records[index] := records[index].(district := Some(value));
    }
  }
}
