/**
 * `CountryService`: builds the search predicate for listing, and chains entity
 * validation and repository calls, returning the first failure unchanged.
 */
module CountryServices {
  import opened Nullable
  import opened Errors
  import opened Results
  import opened Text
  import opened Guids
  import opened Query
  import opened Tables
  import opened CountryEntity
  import opened Storage
  import opened CountryRepositories

  /** `CountryResponseDto`, projected from the stored row (its Cities list is not modelled). */
  datatype CountryResponse = CountryResponse(id: Guid, name: string, code: Option<string>)

  function ToResponse(row: CountryRow): CountryResponse
  {
    CountryResponse(row.id, row.name, row.code)
  }

  /**
   * The predicate `GetCountriesAsync` passes to the repository: everything for a
   * blank search, otherwise a case-insensitive substring match of the trimmed term
   * on the name, or on the code when there is one.
   */
  function SearchPredicate(search: Option<string>): (r: CountryRow -> bool)
    ensures forall row :: r(row) <==>
              IsNullOrWhiteSpace(search)
              || Contains(ToLower(row.name), ToLower(Trim(search.value)))
              || (row.code.Some? && row.code.value != [] && Contains(ToLower(row.code.value), ToLower(Trim(search.value))))
  {
    if IsNullOrWhiteSpace(search) then
      (row: CountryRow) => true
    else
      var term := ToLower(Trim(search.value));
      (row: CountryRow) => Contains(ToLower(row.name), term)
                           || (!IsNullOrEmpty(row.code) && Contains(ToLower(row.code.value), term))
  }

  /** The search ignores the case of the term: upper-casing it changes no answer. */
  lemma SearchIgnoresCase(term: string, row: CountryRow)
    ensures SearchPredicate(Some(ToUpper(term)))(row) == SearchPredicate(Some(term))(row)
  {
    ToUpperNormalises(term);
    TrimUpper(term);
    LowerOfUpper(Trim(term));
  }

  /**
   * A created country is found again by searching for the name it was created with,
   * and, when it has a code, by searching for that code ("fr" finds the stored "FR").
   */
  lemma SearchFindsCreated(freshId: Guid, name: Option<string>, code: Option<string>)
    requires CountryEntity.Validate(name, code).IsSuccess()
    ensures SearchPredicate(name)(CountryRow(freshId, NormalName(name.value), NormalCode(code)))
    ensures !IsNullOrWhiteSpace(code) ==> SearchPredicate(code)(CountryRow(freshId, NormalName(name.value), NormalCode(code)))
  {
    assert Contains(ToLower(Trim(name.value)), ToLower(Trim(name.value)));
    if !IsNullOrWhiteSpace(code) {
      var t := Trim(code.value);
      LowerOfUpper(t);
      assert Contains(ToLower(t), ToLower(t));
      assert ToUpper(t) != [];
    }
  }

  class CountryService {
    const repository: CountryRepository

    constructor (repository: CountryRepository)
      ensures this.repository == repository
    {
      this.repository := repository;
    }

    /**
     * `GetCountriesAsync`: page and pageSize go to the repository unchanged; a fault
     * anywhere in listing becomes an Unexpected failure.
     */
    method GetCountriesAsync(search: Option<string>, page: int, pageSize: int, fault: Option<string>)
      returns (r: Result<PaginationResult<CountryResponse>>)
      ensures fault.Some? ==> r == Result.Failure(Unexpected(fault.value))
      ensures fault.None? ==>
                r == Result.Success(MapPage(Paginate(repository.db.countries, SearchPredicate(search), page, pageSize), ToResponse))
    {
      if fault.Some? {
        return Result.Failure(Unexpected(fault.value));
      }
      var matches := SearchPredicate(search);
      var pagedResult := repository.GetPagedAsync(matches, page, pageSize);
      return Result.Success(MapPage(pagedResult, ToResponse));
    }

    /** `GetCountryByIdAsync`: the repository's failure passes through unchanged. */
    method GetCountryByIdAsync(id: Guid, fault: Option<string>) returns (r: Result<CountryResponse>)
      ensures r.IsSuccess() <==> fault.None? && HasKey(repository.db.countries, CountryKey, id)
      ensures r.Failure? ==> r.error == LookupCountry(repository.db.countries, id, fault).error
      ensures r.Success? ==> r.value == ToResponse(LookupCountry(repository.db.countries, id, fault).value)
    {
      var result := repository.GetByIdAsync(id, fault);
      if result.Failure? {
        return Result.Failure(result.error);
      }
      return Result.Success(ToResponse(result.value.Row()));
    }

    /**
     * `CreateCountryAsync`: a validation failure is returned unchanged and nothing is
     * added; otherwise the new country is added once and any add failure returned.
     */
    method CreateCountryAsync(name: Option<string>, code: Option<string>, freshId: Guid, fault: Option<string>)
      returns (r: Result<CountryResponse>)
      requires freshId != EmptyGuid
      requires repository.db.Consistent() && repository.db.AllValid()
      modifies repository.db
      ensures repository.db.Consistent() && repository.db.AllValid()
      ensures repository.db.cities == old(repository.db.cities)
      ensures !CountryEntity.Validate(name, code).IsSuccess() ==>
                r == Result.Failure(CountryEntity.Validate(name, code).error)
                && repository.db.countries == old(repository.db.countries)
      ensures CountryEntity.Validate(name, code).IsSuccess() ==>
                var row := CountryRow(freshId, NormalName(name.value), NormalCode(code));
                if fault.None? && !HasKey(old(repository.db.countries), CountryKey, freshId) then
                  r == Result.Success(ToResponse(row)) && repository.db.countries == old(repository.db.countries) + [row]
                else
                  r == Result.Failure(Unexpected(if fault.Some? then fault.value else DuplicateKeyMessage))
                  && repository.db.countries == old(repository.db.countries)
    {
      var countryResult := Country.Create(freshId, name, code);
      if countryResult.Failure? {
        return Result.Failure(countryResult.error);
      }
      var country := countryResult.value;
      ghost var before := repository.db.countries;
      var result := repository.AddAsync(country, fault);
      if result.Failure? {
        return Result.Failure(result.error);
      }
      EveryAppend(before, CountryEntity.ValidRow, country.Row());
      return Result.Success(ToResponse(result.value.Row()));
    }

    /**
     * `UpdateCountryAsync`: look the country up, apply the entity's Update, save. The
     * lookup failure or the validation failure is returned before anything is saved.
     */
    method UpdateCountryAsync(id: Guid, name: Option<string>, code: Option<string>, getFault: Option<string>, saveFault: Option<string>)
      returns (r: Result<CountryResponse>)
      requires repository.db.Consistent() && repository.db.AllValid()
      modifies repository.db
      ensures repository.db.Consistent() && repository.db.AllValid()
      ensures repository.db.cities == old(repository.db.cities)
      ensures var found := LookupCountry(old(repository.db.countries), id, getFault);
              var check := CountryEntity.Validate(name, code);
              if !found.IsSuccess() then
                r == Result.Failure(found.error) && repository.db.countries == old(repository.db.countries)
              else if !check.IsSuccess() then
                r == Result.Failure(check.error) && repository.db.countries == old(repository.db.countries)
              else if saveFault.Some? then
                r == Result.Failure(Unexpected(saveFault.value)) && repository.db.countries == old(repository.db.countries)
              else
                var row := CountryRow(id, NormalName(name.value), NormalCode(code));
                r == Result.Success(ToResponse(row))
                && repository.db.countries == Replace(old(repository.db.countries), CountryKey, row)
    {
      var getResult := repository.GetByIdAsync(id, getFault);
      if getResult.Failure? {
        return Result.Failure(getResult.error);
      }
      assert getResult.value.id == id && HasKey(repository.db.countries, CountryKey, id);
      var existing := getResult.value;
      ghost var before := repository.db.countries;
      EveryMember(before, CountryEntity.ValidRow, existing.Row());
      var updateValidation := existing.Update(name, code);
      if updateValidation.Failure? {
        return Result.Failure(updateValidation.error);
      }
      var updateResult := repository.UpdateAsync(existing, saveFault);
      if updateResult.Failure? {
        return Result.Failure(updateResult.error);
      }
      EveryReplace(before, CountryKey, CountryEntity.ValidRow, existing.Row());
      return Result.Success(ToResponse(updateResult.value.Row()));
    }

    /** `DeleteCountryAsync`: the repository's result, unchanged; the cascade removes the cities. */
    method DeleteCountryAsync(id: Guid, fault: Option<string>) returns (r: Outcome)
      requires repository.db.Consistent() && repository.db.AllValid()
      modifies repository.db
      ensures repository.db.Consistent() && repository.db.AllValid()
      ensures r.IsSuccess() <==> fault.None? && HasKey(old(repository.db.countries), CountryKey, id)
      ensures r.Success? ==> repository.db.countries == Without(old(repository.db.countries), CountryKey, id)
                             && repository.db.cities == Cascade(old(repository.db.cities), id)
      ensures r.Failure? ==> repository.db.countries == old(repository.db.countries)
                             && repository.db.cities == old(repository.db.cities)
      ensures r.Failure? ==> r.error == if fault.Some? then Unexpected(fault.value) else NotFound(CountryNotFoundMessage(id))
    {
      ghost var countries, cities := repository.db.countries, repository.db.cities;
      r := repository.DeleteAsync(id, fault);
      if r.Success? {
        EverySubset(countries, repository.db.countries, CountryEntity.ValidRow);
        EverySubset(cities, repository.db.cities, CityEntity.ValidRow);
      }
    }
  }
}
