/**
 * `CityService`: like the country service, plus a check that the referenced country
 * exists, made before the city itself is validated or saved.
 */
module CityServices {
  import opened Nullable
  import opened Errors
  import opened Results
  import opened Text
  import opened Guids
  import opened Query
  import opened Tables
  import opened CountryEntity
  import opened CityEntity
  import opened Storage
  import opened CountryRepositories
  import opened CityRepositories

  /** `CityResponseDto`, projected from the stored row. */
  datatype CityResponse = CityResponse(id: Guid, name: string, countryId: Guid)

  function ToResponse(row: CityRow): CityResponse
  {
    CityResponse(row.id, row.name, row.countryId)
  }

  const InvalidCountryIdMessage: string := "Invalid country id"

  /**
   * The predicate `GetCitiesAsync` builds, one branch for each combination of a
   * blank or non-blank search and an absent or present country filter. The four
   * branches amount to two independent filters: on the name, and on the country.
   */
  function CityPredicate(search: Option<string>, countryId: Option<Guid>): (r: CityRow -> bool)
    ensures forall row :: r(row) <==>
              (IsNullOrWhiteSpace(search) || Contains(ToLower(row.name), ToLower(Trim(search.value))))
              && (countryId.None? || row.countryId == countryId.value)
  {
    if IsNullOrWhiteSpace(search) && countryId.None? then
      (row: CityRow) => true
    else if IsNullOrWhiteSpace(search) then
      (row: CityRow) => Some(row.countryId) == countryId
    else if countryId.None? then
      var term := ToLower(Trim(search.value));
      (row: CityRow) => Contains(ToLower(row.name), term)
    else
      var term := ToLower(Trim(search.value));
      (row: CityRow) => Contains(ToLower(row.name), term) && row.countryId == countryId.value
  }

  /** The name search ignores the case of the term, whatever the country filter. */
  lemma CitySearchIgnoresCase(term: string, countryId: Option<Guid>, row: CityRow)
    ensures CityPredicate(Some(ToUpper(term)), countryId)(row) == CityPredicate(Some(term), countryId)(row)
  {
    ToUpperNormalises(term);
    TrimUpper(term);
    LowerOfUpper(Trim(term));
    assert ToLower(Trim(ToUpper(term))) == ToLower(Trim(term));
  }

  /** A stored city is found by its own name within its own country. */
  lemma CitySearchFindsOwnName(row: CityRow)
    requires CityEntity.ValidRow(row)
    ensures CityPredicate(Some(row.name), Some(row.countryId))(row)
  {
    assert !IsWhiteSpace(row.name[0]);
    assert Trim(row.name) == row.name;
    assert Contains(ToLower(row.name), ToLower(row.name));
  }

  /**
   * Every stored country has a non-empty id, so the existence check already rejects
   * an empty CountryId: "CountryId is required." is never what creating a city answers.
   */
  lemma EmptyCountryIdNotFound(countries: seq<CountryRow>, fault: Option<string>)
    requires Every(countries, CountryEntity.ValidRow)
    ensures !LookupCountry(countries, EmptyGuid, fault).IsSuccess()
  {
  }

  class CityService {
    const cityRepository: CityRepository
    const countryRepository: CountryRepository

    constructor (cityRepository: CityRepository, countryRepository: CountryRepository)
      ensures this.cityRepository == cityRepository && this.countryRepository == countryRepository
    {
      this.cityRepository := cityRepository;
      this.countryRepository := countryRepository;
    }

    /** Both repositories work on the same database, as they share one context. */
    predicate SharedStore()
      reads this
    {
      cityRepository.db == countryRepository.db
    }

    /**
     * `GetCitiesAsync`: a page of the cities the predicate accepts; with a country
     * filter, every city listed belongs to that country. A fault becomes Unexpected.
     */
    method GetCitiesAsync(search: Option<string>, countryId: Option<Guid>, page: int, pageSize: int, fault: Option<string>)
      returns (r: Result<PaginationResult<CityResponse>>)
      ensures fault.Some? ==> r == Result.Failure(Unexpected(fault.value))
      ensures fault.None? ==>
                r == Result.Success(MapPage(Paginate(cityRepository.db.cities, CityPredicate(search, countryId), page, pageSize), ToResponse))
      ensures r.Success? && countryId.Some? ==>
                forall i :: 0 <= i < |r.value.items| ==> r.value.items[i].countryId == countryId.value
    {
      if fault.Some? {
        return Result.Failure(Unexpected(fault.value));
      }
      var matches := CityPredicate(search, countryId);
      var pagedResult := cityRepository.GetPagedAsync(matches, page, pageSize);
      forall i | 0 <= i < |pagedResult.items| && countryId.Some?
        ensures pagedResult.items[i].countryId == countryId.value
      {
        assert matches(pagedResult.items[i]);
      }
      return Result.Success(MapPage(pagedResult, ToResponse));
    }

    /** `GetCityByIdAsync`: the repository's failure passes through unchanged. */
    method GetCityByIdAsync(id: Guid, fault: Option<string>) returns (r: Result<CityResponse>)
      ensures r.IsSuccess() <==> fault.None? && HasKey(cityRepository.db.cities, CityKey, id)
      ensures r.Failure? ==> r.error == LookupCity(cityRepository.db.cities, id, fault).error
      ensures r.Success? ==> r.value == ToResponse(LookupCity(cityRepository.db.cities, id, fault).value)
                             && r.value.id == id
    {
      var result := cityRepository.GetByIdAsync(id, fault);
      if result.Failure? {
        return Result.Failure(result.error);
      }
      return Result.Success(ToResponse(result.value.Row()));
    }

    /** `ValidateCountryExistsAsync`: any lookup failure, a fault included, reads as "Invalid country id". */
    method ValidateCountryExistsAsync(countryId: Guid, fault: Option<string>) returns (r: Outcome)
      ensures r.IsSuccess() <==> fault.None? && HasKey(countryRepository.db.countries, CountryKey, countryId)
      ensures r.Failure? ==> r.error == NotFound(InvalidCountryIdMessage)
    {
      var countryExists := countryRepository.GetByIdAsync(countryId, fault);
      if countryExists.Failure? {
        return Outcome.Failure(NotFound(InvalidCountryIdMessage));
      }
      return Outcome.Success;
    }

    /**
     * `CreateCityAsync`: the country check comes first, then the entity's validation,
     * then the insert; the first failure is returned and nothing is stored.
     */
    method CreateCityAsync(name: Option<string>, countryId: Guid, freshId: Guid, lookupFault: Option<string>, addFault: Option<string>)
      returns (r: Result<CityResponse>)
      requires freshId != EmptyGuid && SharedStore()
      requires cityRepository.db.Consistent() && cityRepository.db.AllValid()
      modifies cityRepository.db
      ensures cityRepository.db.Consistent() && cityRepository.db.AllValid()
      ensures cityRepository.db.countries == old(cityRepository.db.countries)
      ensures !(lookupFault.None? && HasKey(old(cityRepository.db.countries), CountryKey, countryId)) ==>
                r == Result.Failure(NotFound(InvalidCountryIdMessage))
                && cityRepository.db.cities == old(cityRepository.db.cities)
      ensures lookupFault.None? && HasKey(old(cityRepository.db.countries), CountryKey, countryId) ==>
                var check := CityEntity.Validate(name, countryId);
                if !check.IsSuccess() then
                  r == Result.Failure(check.error) && check.error.message != CountryIdRequiredMessage
                  && cityRepository.db.cities == old(cityRepository.db.cities)
                else if addFault.None? && !HasKey(old(cityRepository.db.cities), CityKey, freshId) then
                  var row := CityRow(freshId, Trim(name.value), countryId);
                  r == Result.Success(ToResponse(row)) && cityRepository.db.cities == old(cityRepository.db.cities) + [row]
                else
                  r == Result.Failure(Unexpected(if addFault.Some? then addFault.value else DuplicateKeyMessage))
                  && cityRepository.db.cities == old(cityRepository.db.cities)
    {
      var countryValidation := ValidateCountryExistsAsync(countryId, lookupFault);
      if countryValidation.Failure? {
        return Result.Failure(countryValidation.error);
      }
      EmptyCountryIdNotFound(countryRepository.db.countries, lookupFault);
      var cityResult := City.Create(freshId, name, countryId);
      if cityResult.Failure? {
        return Result.Failure(cityResult.error);
      }
      ghost var before := cityRepository.db.cities;
      var result := cityRepository.AddAsync(cityResult.value, addFault);
      if result.Failure? {
        return Result.Failure(result.error);
      }
      EveryAppend(before, CityEntity.ValidRow, cityResult.value.Row());
      return Result.Success(ToResponse(result.value.Row()));
    }

    /**
     * `UpdateCityAsync`: look the city up, check the new country exists, apply the
     * entity's Update, save; the first failure is returned and nothing is stored.
     */
    method UpdateCityAsync(id: Guid, name: Option<string>, countryId: Guid,
                           getFault: Option<string>, lookupFault: Option<string>, saveFault: Option<string>)
      returns (r: Result<CityResponse>)
      requires SharedStore()
      requires cityRepository.db.Consistent() && cityRepository.db.AllValid()
      modifies cityRepository.db
      ensures cityRepository.db.Consistent() && cityRepository.db.AllValid()
      ensures cityRepository.db.countries == old(cityRepository.db.countries)
      ensures var found := LookupCity(old(cityRepository.db.cities), id, getFault);
              var known := lookupFault.None? && HasKey(old(cityRepository.db.countries), CountryKey, countryId);
              var check := CityEntity.Validate(name, countryId);
              if !found.IsSuccess() then
                r == Result.Failure(found.error) && cityRepository.db.cities == old(cityRepository.db.cities)
              else if !known then
                r == Result.Failure(NotFound(InvalidCountryIdMessage)) && cityRepository.db.cities == old(cityRepository.db.cities)
              else if !check.IsSuccess() then
                r == Result.Failure(check.error) && cityRepository.db.cities == old(cityRepository.db.cities)
              else if saveFault.Some? then
                r == Result.Failure(Unexpected(saveFault.value)) && cityRepository.db.cities == old(cityRepository.db.cities)
              else
                var row := CityRow(id, Trim(name.value), countryId);
                r == Result.Success(ToResponse(row))
                && cityRepository.db.cities == Replace(old(cityRepository.db.cities), CityKey, row)
    {
      var getResult := cityRepository.GetByIdAsync(id, getFault);
      if getResult.Failure? {
        return Result.Failure(getResult.error);
      }
      assert getResult.value.id == id && HasKey(cityRepository.db.cities, CityKey, id);
      var countryValidation := ValidateCountryExistsAsync(countryId, lookupFault);
      if countryValidation.Failure? {
        return Result.Failure(countryValidation.error);
      }
      assert HasKey(cityRepository.db.countries, CountryKey, countryId);
      var existing := getResult.value;
      ghost var before := cityRepository.db.cities;
      EveryMember(before, CityEntity.ValidRow, existing.Row());
      var updateValidation := existing.Update(name, countryId);
      if updateValidation.Failure? {
        return Result.Failure(updateValidation.error);
      }
      assert existing.Row() == CityRow(id, Trim(name.value), countryId);
      assert WriteConflict(cityRepository.db, existing.Row(), false).None?;
      var updateResult := cityRepository.UpdateAsync(existing, saveFault);
      if updateResult.Failure? {
        return Result.Failure(updateResult.error);
      }
      EveryReplace(before, CityKey, CityEntity.ValidRow, existing.Row());
      return Result.Success(ToResponse(updateResult.value.Row()));
    }

    /** `DeleteCityAsync`: the repository's result, unchanged. */
    method DeleteCityAsync(id: Guid, fault: Option<string>) returns (r: Outcome)
      requires cityRepository.db.Consistent() && cityRepository.db.AllValid()
      modifies cityRepository.db
      ensures cityRepository.db.Consistent() && cityRepository.db.AllValid()
      ensures cityRepository.db.countries == old(cityRepository.db.countries)
      ensures r.IsSuccess() <==> fault.None? && HasKey(old(cityRepository.db.cities), CityKey, id)
      ensures r.Success? ==> cityRepository.db.cities == Without(old(cityRepository.db.cities), CityKey, id)
      ensures r.Failure? ==> cityRepository.db.cities == old(cityRepository.db.cities)
      ensures r.Failure? ==> r.error == if fault.Some? then Unexpected(fault.value) else NotFound(CityNotFoundMessage(id))
    {
      ghost var cities := cityRepository.db.cities;
      r := cityRepository.DeleteAsync(id, fault);
      if r.Success? {
        EverySubset(cities, cityRepository.db.cities, CityEntity.ValidRow);
      }
    }
  }
}
