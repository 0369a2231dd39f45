/**
 * `CityRepository`: the same operations over the Cities table. Adding or saving a
 * city whose CountryId names no stored country violates the foreign key and fails
 * as Unexpected, like any other storage fault.
 */
module CityRepositories {
  import opened Nullable
  import opened Errors
  import opened Results
  import opened Guids
  import opened Query
  import opened Tables
  import opened CityEntity
  import opened Storage

  function CityNotFoundMessage(id: Guid): string
  {
    "City with ID " + GuidText(id) + " not found."
  }

  /** What `GetByIdAsync` answers for a table, an id and a possible storage fault. */
  function LookupCity(cities: seq<CityRow>, id: Guid, fault: Option<string>): (r: Result<CityRow>)
    ensures r.IsSuccess() <==> fault.None? && HasKey(cities, CityKey, id)
    ensures r.Success? ==> r.value.id == id && r.value in cities
    ensures fault.Some? ==> r == Result.Failure(Unexpected(fault.value))
    ensures fault.None? && !HasKey(cities, CityKey, id) ==> r == Result.Failure(NotFound(CityNotFoundMessage(id)))
  {
    if fault.Some? then Result.Failure(Unexpected(fault.value))
    else
      match Find(cities, CityKey, id)
      case None => Result.Failure(NotFound(CityNotFoundMessage(id)))
      case Some(row) => Result.Success(row)
  }

  /** Why SaveChanges refuses to store `row`, if it does: its key, then its foreign key. */
  function WriteConflict(db: Database, row: CityRow, inserting: bool): (m: Option<string>)
    reads db
    ensures m.None? <==> (inserting != HasKey(db.cities, CityKey, row.id)) && HasKey(db.countries, CountryKey, row.countryId)
  {
    if inserting && HasKey(db.cities, CityKey, row.id) then Some(DuplicateKeyMessage)
    else if !inserting && !HasKey(db.cities, CityKey, row.id) then Some(MissingRowMessage)
    else if !HasKey(db.countries, CountryKey, row.countryId) then Some(ForeignKeyMessage)
    else None
  }

  class CityRepository {
    const db: Database

    constructor (db: Database)
      ensures this.db == db
    {
      this.db := db;
    }

    /** `GetAllAsync`: every stored city the predicate accepts, in store order. */
    method GetAllAsync(matches: CityRow -> bool) returns (rows: seq<CityRow>)
      ensures forall i :: 0 <= i < |rows| ==> rows[i] in db.cities && matches(rows[i])
      ensures forall i :: 0 <= i < |db.cities| && matches(db.cities[i]) ==> db.cities[i] in rows
      ensures rows == Filter(db.cities, matches)
    {
      rows := Filter(db.cities, matches);
    }

    /** `GetPagedAsync`: normalise page and pageSize, count the matches, take the page. */
    method GetPagedAsync(matches: CityRow -> bool, page: int, pageSize: int) returns (r: PaginationResult<CityRow>)
      ensures r == Paginate(db.cities, matches, page, pageSize)
    {
      var p := if page > 1 then page else 1;
      var size := if pageSize < MaxPageSize then pageSize else MaxPageSize;
      size := if size > 1 then size else 1;
      var query := Filter(db.cities, matches);
      var totalCount := |query|;
      var items := Slice(query, p, size);
      r := PaginationResult(items, totalCount, p, size);
    }

    /** `GetByIdAsync`: the stored city as an entity, NotFound, or the fault as Unexpected. */
    method GetByIdAsync(id: Guid, fault: Option<string>) returns (r: Result<City>)
      ensures r.IsSuccess() == LookupCity(db.cities, id, fault).IsSuccess()
      ensures r.Failure? ==> r.error == LookupCity(db.cities, id, fault).error
      ensures r.Success? ==> fresh(r.value) && r.value.Row() == LookupCity(db.cities, id, fault).value
    {
      if fault.Some? {
        return Result.Failure(Unexpected(fault.value));
      }
      var found := Find(db.cities, CityKey, id);
      if found.None? {
        return Result.Failure(NotFound(CityNotFoundMessage(id)));
      }
      var city := new City.Load(found.value);
      return Result.Success(city);
    }

    /** `AddAsync`: append the entity's row unless a fault, its key or its foreign key prevents it. */
    method AddAsync(city: City, fault: Option<string>) returns (r: Result<City>)
      requires db.Consistent()
      modifies db
      ensures db.Consistent() && db.countries == old(db.countries)
      ensures r.IsSuccess() <==> fault.None? && old(WriteConflict(db, city.Row(), true)).None?
      ensures r.Success? ==> r.value == city && db.cities == old(db.cities) + [city.Row()]
      ensures r.Failure? ==> db.cities == old(db.cities)
                             && r.error == Unexpected(if fault.Some? then fault.value else old(WriteConflict(db, city.Row(), true)).value)
    {
      if fault.Some? {
        return Result.Failure(Unexpected(fault.value));
      }
      var conflict := WriteConflict(db, city.Row(), true);
      if conflict.Some? {
        return Result.Failure(Unexpected(conflict.value));
      }
      AppendKeepsUnique(db.cities, CityKey, city.Row());
      db.cities := db.cities + [city.Row()];
      return Result.Success(city);
    }

    /** `UpdateAsync`: overwrite the stored row unless a fault, a missing row or the foreign key prevents it. */
    method UpdateAsync(city: City, fault: Option<string>) returns (r: Result<City>)
      requires db.Consistent()
      modifies db
      ensures db.Consistent() && db.countries == old(db.countries)
      ensures r.IsSuccess() <==> fault.None? && old(WriteConflict(db, city.Row(), false)).None?
      ensures r.Success? ==> r.value == city && db.cities == Replace(old(db.cities), CityKey, city.Row())
      ensures r.Failure? ==> db.cities == old(db.cities)
                             && r.error == Unexpected(if fault.Some? then fault.value else old(WriteConflict(db, city.Row(), false)).value)
    {
      if fault.Some? {
        return Result.Failure(Unexpected(fault.value));
      }
      var conflict := WriteConflict(db, city.Row(), false);
      if conflict.Some? {
        return Result.Failure(Unexpected(conflict.value));
      }
      var row := city.Row();
      ReplaceKeepsKeys(db.cities, CityKey, row);
      db.cities := Replace(db.cities, CityKey, row);
      forall i | 0 <= i < |db.cities| ensures HasKey(db.countries, CountryKey, db.cities[i].countryId) {
        assert db.cities[i] == row || db.cities[i] == old(db.cities)[i];
      }
      return Result.Success(city);
    }

    /** `DeleteAsync`: remove the city; no other row changes. */
    method DeleteAsync(id: Guid, fault: Option<string>) returns (r: Outcome)
      requires db.Consistent()
      modifies db
      ensures db.Consistent() && db.countries == old(db.countries)
      ensures r.IsSuccess() <==> fault.None? && HasKey(old(db.cities), CityKey, id)
      ensures r.Success? ==> db.cities == Without(old(db.cities), CityKey, id)
      ensures r.Failure? ==> db.cities == old(db.cities)
      ensures r.Failure? ==> r.error == if fault.Some? then Unexpected(fault.value) else NotFound(CityNotFoundMessage(id))
    {
      if fault.Some? {
        return Outcome.Failure(Unexpected(fault.value));
      }
      var found := Find(db.cities, CityKey, id);
      if found.None? {
        return Outcome.Failure(NotFound(CityNotFoundMessage(id)));
      }
      FilterKeepsUnique(db.cities, CityKey, KeyOtherThan(CityKey, id));
      db.cities := Without(db.cities, CityKey, id);
      forall i | 0 <= i < |db.cities| ensures HasKey(db.countries, CountryKey, db.cities[i].countryId) {
        var j :| 0 <= j < |old(db.cities)| && old(db.cities)[j] == db.cities[i];
      }
      return Outcome.Success;
    }
  }
}
