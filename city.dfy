/**
 * The `City` entity: a validating factory and an in-place validating update. That the
 * country exists is the service's concern; the entity only refuses `Guid.Empty`.
 */
module CityEntity {
  import opened Nullable
  import opened Errors
  import opened Results
  import opened Text
  import opened Guids

  const MaxNameLength: int := 100

  const NameRequiredMessage: string := "City name is required."
  const NameTooLongMessage: string := "City name must not exceed 100 characters."
  const CountryIdRequiredMessage: string := "CountryId is required."

  /** What the database stores for a city; `countryId` is the foreign key to its country. */
  datatype CityRow = CityRow(id: Guid, name: string, countryId: Guid)

  /**
   * The checks shared by Create and Update, in order: name required, raw name length
   * (`string.Length`, in UTF-16 code units), country id.
   */
  function Validate(name: Option<string>, countryId: Guid): (r: Outcome)
    ensures r.IsSuccess() <==> !IsNullOrWhiteSpace(name) && Utf16Length(name.value) <= MaxNameLength && countryId != EmptyGuid
    ensures r.Failure? ==> Kind(r.error) == Some(ValidationKind)
  {
    if IsNullOrWhiteSpace(name) then Outcome.Failure(Validation(NameRequiredMessage))
    else if Utf16Length(name.value) > MaxNameLength then Outcome.Failure(Validation(NameTooLongMessage))
    else if countryId == EmptyGuid then Outcome.Failure(Validation(CountryIdRequiredMessage))
    else Outcome.Success
  }

  /** The Empty country id is reported only once both name checks pass. */
  lemma ValidateReportsFirstFailure(name: Option<string>, countryId: Guid)
    ensures IsNullOrWhiteSpace(name) ==> Validate(name, countryId) == Outcome.Failure(Validation(NameRequiredMessage))
    ensures !IsNullOrWhiteSpace(name) && Utf16Length(name.value) > MaxNameLength ==>
              Validate(name, countryId) == Outcome.Failure(Validation(NameTooLongMessage))
    ensures !IsNullOrWhiteSpace(name) && Utf16Length(name.value) <= MaxNameLength && countryId == EmptyGuid ==>
              Validate(name, countryId) == Outcome.Failure(Validation(CountryIdRequiredMessage))
  {
  }

  predicate ValidFields(name: string, countryId: Guid)
  {
    0 < |name| && Utf16Length(name) <= MaxNameLength && IsTrimmed(name) && countryId != EmptyGuid
  }

  /** A stored city: a non-Empty id and valid fields. */
  predicate ValidRow(row: CityRow)
  {
    row.id != EmptyGuid && ValidFields(row.name, row.countryId)
  }

  /** Whatever passes validation gives a valid city once the name is trimmed. */
  lemma TrimmedIsValid(name: Option<string>, countryId: Guid)
    requires Validate(name, countryId).IsSuccess()
    ensures ValidFields(Trim(name.value), countryId)
  {
    TrimShortens(name.value);
  }

  /** A valid city's own fields pass validation and are left as they are. */
  lemma ValidIsTrimmed(name: string, countryId: Guid)
    requires ValidFields(name, countryId)
    ensures Validate(Some(name), countryId).IsSuccess() && Trim(name) == name
  {
    assert !IsWhiteSpace(name[0]);
  }

  class City {
    var id: Guid
    var name: string
    var countryId: Guid

    predicate Valid()
      reads this
    {
      ValidFields(name, countryId)
    }

    function Row(): CityRow
      reads this
    {
      CityRow(id, name, countryId)
    }

    /** The private constructor: a fresh id, the trimmed name, the given country. */
    constructor Normalised(freshId: Guid, name: string, countryId: Guid)
      ensures Row() == CityRow(freshId, Trim(name), countryId)
    {
      this.id := freshId;
      this.name := Trim(name);
      this.countryId := countryId;
    }

    /** An entity materialised from its stored row. */
    constructor Load(row: CityRow)
      ensures Row() == row
    {
      this.id := row.id;
      this.name := row.name;
      this.countryId := row.countryId;
    }

    /** `City.Create`: validate, then construct; `freshId` stands for `Guid.NewGuid()`. */
    static method Create(freshId: Guid, name: Option<string>, countryId: Guid) returns (r: Result<City>)
      ensures r.IsSuccess() == Validate(name, countryId).IsSuccess()
      ensures r.Failure? ==> r.error == Validate(name, countryId).error
      ensures r.Success? ==> fresh(r.value) && r.value.Valid()
                             && r.value.Row() == CityRow(freshId, Trim(name.value), countryId)
    {
      var check := Validate(name, countryId);
      if check.Failure? {
        return Result.Failure(check.error);
      }
      var city := new City.Normalised(freshId, name.value, countryId);
      TrimmedIsValid(name, countryId);
      return Result.Success(city);
    }

    /** `City.Update`: the same checks; on success Name and CountryId are replaced in place. */
    method Update(name: Option<string>, countryId: Guid) returns (r: Outcome)
      modifies this`name, this`countryId
      ensures r == Validate(name, countryId)
      ensures r.Failure? ==> this.name == old(this.name) && this.countryId == old(this.countryId)
      ensures r.Success? ==> Valid() && this.name == Trim(name.value) && this.countryId == countryId
    {
      r := Validate(name, countryId);
      if r.Failure? {
        return;
      }
      this.name := Trim(name.value);
      this.countryId := countryId;
      TrimmedIsValid(name, countryId);
    }
  }
}
