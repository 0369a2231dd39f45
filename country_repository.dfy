/**
 * `CountryRepository`: paged and filtered reads, lookup by id, add, update and
 * delete over the Countries table. Each storage call may fault (`fault`); a fault is
 * caught and reported as an Unexpected failure, and leaves the tables as they were.
 */
module CountryRepositories {
  import opened Nullable
  import opened Errors
  import opened Results
  import opened Guids
  import opened Query
  import opened Tables
  import opened CountryEntity
  import opened Storage

  function CountryNotFoundMessage(id: Guid): string
  {
    "Country with ID " + GuidText(id) + " not found."
  }

  /** What `GetByIdAsync` answers for a table, an id and a possible storage fault. */
  function LookupCountry(countries: seq<CountryRow>, id: Guid, fault: Option<string>): (r: Result<CountryRow>)
    ensures r.IsSuccess() <==> fault.None? && HasKey(countries, CountryKey, id)
    ensures r.Success? ==> r.value.id == id && r.value in countries
    ensures fault.Some? ==> r == Result.Failure(Unexpected(fault.value))
    ensures fault.None? && !HasKey(countries, CountryKey, id) ==> r == Result.Failure(NotFound(CountryNotFoundMessage(id)))
  {
    if fault.Some? then Result.Failure(Unexpected(fault.value))
    else
      match Find(countries, CountryKey, id)
      case None => Result.Failure(NotFound(CountryNotFoundMessage(id)))
      case Some(row) => Result.Success(row)
  }

  class CountryRepository {
    const db: Database

    constructor (db: Database)
      ensures this.db == db
    {
      this.db := db;
    }

    /** `GetAllAsync`: every stored country the predicate accepts, in store order. */
    method GetAllAsync(matches: CountryRow -> bool) returns (rows: seq<CountryRow>)
      ensures forall i :: 0 <= i < |rows| ==> rows[i] in db.countries && matches(rows[i])
      ensures forall i :: 0 <= i < |db.countries| && matches(db.countries[i]) ==> db.countries[i] in rows
      ensures rows == Filter(db.countries, matches)
    {
      rows := Filter(db.countries, matches);
    }

    /** `GetPagedAsync`: normalise page and pageSize, count the matches, take the page. */
    method GetPagedAsync(matches: CountryRow -> bool, page: int, pageSize: int) returns (r: PaginationResult<CountryRow>)
      ensures r == Paginate(db.countries, matches, page, pageSize)
    {
      var p := if page > 1 then page else 1;
      var size := if pageSize < MaxPageSize then pageSize else MaxPageSize;
      size := if size > 1 then size else 1;
      var query := Filter(db.countries, matches);
      var totalCount := |query|;
      var items := Slice(query, p, size);
      r := PaginationResult(items, totalCount, p, size);
    }

    /** `GetByIdAsync`: the stored country as an entity, NotFound, or the fault as Unexpected. */
    method GetByIdAsync(id: Guid, fault: Option<string>) returns (r: Result<Country>)
      ensures r.IsSuccess() == LookupCountry(db.countries, id, fault).IsSuccess()
      ensures r.Failure? ==> r.error == LookupCountry(db.countries, id, fault).error
      ensures r.Success? ==> fresh(r.value) && r.value.Row() == LookupCountry(db.countries, id, fault).value
    {
      if fault.Some? {
        return Result.Failure(Unexpected(fault.value));
      }
      var found := Find(db.countries, CountryKey, id);
      if found.None? {
        return Result.Failure(NotFound(CountryNotFoundMessage(id)));
      }
      var country := new Country.Load(found.value);
      return Result.Success(country);
    }

    /** `AddAsync`: append the entity's row; a fault or a key already in use fails as Unexpected. */
    method AddAsync(country: Country, fault: Option<string>) returns (r: Result<Country>)
      requires db.Consistent()
      modifies db
      ensures db.Consistent() && db.cities == old(db.cities)
      ensures r.IsSuccess() <==> fault.None? && !HasKey(old(db.countries), CountryKey, country.id)
      ensures r.Success? ==> r.value == country && db.countries == old(db.countries) + [country.Row()]
      ensures r.Failure? ==> db.countries == old(db.countries)
                             && r.error == Unexpected(if fault.Some? then fault.value else DuplicateKeyMessage)
    {
      if fault.Some? {
        return Result.Failure(Unexpected(fault.value));
      }
      if HasKey(db.countries, CountryKey, country.id) {
        return Result.Failure(Unexpected(DuplicateKeyMessage));
      }
      AppendKeepsUnique(db.countries, CountryKey, country.Row());
      db.countries := db.countries + [country.Row()];
      assert forall i :: 0 <= i < |old(db.countries)| ==> db.countries[i] == old(db.countries)[i];
      forall i | 0 <= i < |db.cities| ensures HasKey(db.countries, CountryKey, db.cities[i].countryId) {
        var k :| 0 <= k < |old(db.countries)| && CountryKey(old(db.countries)[k]) == db.cities[i].countryId;
        assert CountryKey(db.countries[k]) == db.cities[i].countryId;
      }
      return Result.Success(country);
    }

    /** `UpdateAsync`: overwrite the stored row with the entity's; a missing row fails as Unexpected. */
    method UpdateAsync(country: Country, fault: Option<string>) returns (r: Result<Country>)
      requires db.Consistent()
      modifies db
      ensures db.Consistent() && db.cities == old(db.cities)
      ensures r.IsSuccess() <==> fault.None? && HasKey(old(db.countries), CountryKey, country.id)
      ensures r.Success? ==> r.value == country && db.countries == Replace(old(db.countries), CountryKey, country.Row())
      ensures r.Failure? ==> db.countries == old(db.countries)
                             && r.error == Unexpected(if fault.Some? then fault.value else MissingRowMessage)
    {
      if fault.Some? {
        return Result.Failure(Unexpected(fault.value));
      }
      if !HasKey(db.countries, CountryKey, country.id) {
        return Result.Failure(Unexpected(MissingRowMessage));
      }
      ReplaceKeepsKeys(db.countries, CountryKey, country.Row());
      db.countries := Replace(db.countries, CountryKey, country.Row());
      return Result.Success(country);
    }

    /** `DeleteAsync`: remove the country and, by the cascade rule, every city of it. */
    method DeleteAsync(id: Guid, fault: Option<string>) returns (r: Outcome)
      requires db.Consistent()
      modifies db
      ensures db.Consistent()
      ensures r.IsSuccess() <==> fault.None? && HasKey(old(db.countries), CountryKey, id)
      ensures r.Success? ==> db.countries == Without(old(db.countries), CountryKey, id)
                             && db.cities == Cascade(old(db.cities), id)
      ensures r.Failure? ==> db.countries == old(db.countries) && db.cities == old(db.cities)
      ensures r.Failure? ==> r.error == if fault.Some? then Unexpected(fault.value) else NotFound(CountryNotFoundMessage(id))
    {
      if fault.Some? {
        return Outcome.Failure(Unexpected(fault.value));
      }
      var found := Find(db.countries, CountryKey, id);
      if found.None? {
        return Outcome.Failure(NotFound(CountryNotFoundMessage(id)));
      }
      FilterKeepsUnique(db.countries, CountryKey, KeyOtherThan(CountryKey, id));
      FilterKeepsUnique(db.cities, CityKey, OutsideCountry(id));
      CascadeKeepsForeignKey(db.countries, db.cities, id);
      db.countries, db.cities := Without(db.countries, CountryKey, id), Cascade(db.cities, id);
      return Outcome.Success;
    }
  }
}
