/**
 * The `Country` entity: a validating factory, an in-place validating update, and
 * the row the database keeps for it.
 */
module CountryEntity {
  import opened Nullable
  import opened Errors
  import opened Results
  import opened Text
  import opened Guids

  const MaxNameLength: int := 100
  /**
   * The entity admits codes of up to 10 characters. The create and update request
   * types declare `[StringLength(3)]` and the database column `HasMaxLength(3)`; this
   * model follows the entity's own rule.
   */
  const MaxCodeLength: int := 10

  const NameRequiredMessage: string := "Country name is required."
  const NameTooLongMessage: string := "Country name must not exceed 100 characters."
  const CodeTooLongMessage: string := "Country code must not exceed 10 characters."

  /** What the database stores for a country (the Cities navigation is held by the city rows). */
  datatype CountryRow = CountryRow(id: Guid, name: string, code: Option<string>)

  /**
   * The checks shared by Create and Update, in the source's order: name required,
   * raw name length, raw code length. Lengths are `string.Length`, in UTF-16 code
   * units. Only the first failing check is reported.
   */
  function Validate(name: Option<string>, code: Option<string>): (r: Outcome)
    ensures r.IsSuccess() <==>
              !IsNullOrWhiteSpace(name) && Utf16Length(name.value) <= MaxNameLength
              && (IsNullOrWhiteSpace(code) || Utf16Length(code.value) <= MaxCodeLength)
    ensures r.Failure? ==> Kind(r.error) == Some(ValidationKind)
  {
    if IsNullOrWhiteSpace(name) then Outcome.Failure(Validation(NameRequiredMessage))
    else if Utf16Length(name.value) > MaxNameLength then Outcome.Failure(Validation(NameTooLongMessage))
    else if !IsNullOrWhiteSpace(code) && Utf16Length(code.value) > MaxCodeLength then Outcome.Failure(Validation(CodeTooLongMessage))
    else Outcome.Success
  }

  /** Which message a failing validation reports: the first check that fails, whatever follows. */
  lemma ValidateReportsFirstFailure(name: Option<string>, code: Option<string>)
    ensures IsNullOrWhiteSpace(name) ==> Validate(name, code) == Outcome.Failure(Validation(NameRequiredMessage))
    ensures !IsNullOrWhiteSpace(name) && Utf16Length(name.value) > MaxNameLength ==>
              Validate(name, code) == Outcome.Failure(Validation(NameTooLongMessage))
    ensures !IsNullOrWhiteSpace(name) && Utf16Length(name.value) <= MaxNameLength && !IsNullOrWhiteSpace(code) && Utf16Length(code.value) > MaxCodeLength ==>
              Validate(name, code) == Outcome.Failure(Validation(CodeTooLongMessage))
  {
  }

  /**
   * The length limits apply to the raw input: a name of 99 letters with a space on
   * each side (101 characters, 99 once trimmed) is refused.
   */
  lemma RawNameLengthCounts()
    ensures Validate(Some([' '] + seq(99, _ => 'a') + [' ']), None) == Outcome.Failure(Validation(NameTooLongMessage))
    ensures |Trim([' '] + seq(99, _ => 'a') + [' '])| <= MaxNameLength
  {
    var s := [' '] + seq(99, _ => 'a') + [' '];
    assert !IsWhiteSpace(s[1]);
  }

  /**
   * Length is counted in UTF-16 code units: sixty characters from outside the Basic
   * Multilingual Plane (U+1F600) take 120 code units and are refused as too long.
   */
  lemma AstralNameCountsTwice()
    ensures Validate(Some(seq(60, _ => '\U{1F600}')), None) == Outcome.Failure(Validation(NameTooLongMessage))
  {
    var s := seq(60, _ => '\U{1F600}');
    assert !IsWhiteSpace(s[0]);
  }

  /** The stored name: trimmed. */
  function NormalName(name: string): string
  {
    Trim(name)
  }

  /** The stored code: null when blank, otherwise trimmed and upper-cased. */
  function NormalCode(code: Option<string>): (r: Option<string>)
    ensures r.None? <==> IsNullOrWhiteSpace(code)
  {
    if IsNullOrWhiteSpace(code) then None else Some(ToUpper(Trim(code.value)))
  }

  /** The invariant of every country the factory or the update produces. */
  predicate ValidFields(name: string, code: Option<string>)
  {
    0 < |name| && Utf16Length(name) <= MaxNameLength && IsTrimmed(name)
    && (code.Some? ==> 0 < |code.value| && Utf16Length(code.value) <= MaxCodeLength
                       && IsTrimmed(code.value) && IsUpper(code.value))
  }

  predicate ValidRow(row: CountryRow)
  {
    row.id != EmptyGuid && ValidFields(row.name, row.code)
  }

  /** Whatever passes validation normalises to a valid country. */
  lemma NormalisedIsValid(name: Option<string>, code: Option<string>)
    requires Validate(name, code).IsSuccess()
    ensures ValidFields(NormalName(name.value), NormalCode(code))
  {
    TrimShortens(name.value);
    if !IsNullOrWhiteSpace(code) {
      ToUpperNormalises(Trim(code.value));
      TrimShortens(code.value);
      ToUpperKeepsUtf16Length(Trim(code.value));
    }
  }

  /** A valid country's own fields pass validation and normalise to themselves. */
  lemma ValidIsNormalised(name: string, code: Option<string>)
    requires ValidFields(name, code)
    ensures Validate(Some(name), code).IsSuccess()
    ensures NormalName(name) == name && NormalCode(code) == code
  {
    assert !IsAllWhiteSpace(name) by { assert !IsWhiteSpace(name[0]); }
    if code.Some? {
      assert !IsWhiteSpace(code.value[0]);
      ToUpperNormalises(code.value);
    }
  }

  class Country {
    var id: Guid
    var name: string
    var code: Option<string>

    predicate Valid()
      reads this
    {
      ValidFields(name, code)
    }

    function Row(): CountryRow
      reads this
    {
      CountryRow(id, name, code)
    }

    /** The private constructor: a fresh id, the trimmed name, the normalised code. */
    constructor Normalised(freshId: Guid, name: string, code: Option<string>)
      ensures Row() == CountryRow(freshId, NormalName(name), NormalCode(code))
    {
      this.id := freshId;
      this.name := Trim(name);
      this.code := if IsNullOrWhiteSpace(code) then None else Some(ToUpper(Trim(code.value)));
    }

    /** An entity materialised from its stored row. */
    constructor Load(row: CountryRow)
      ensures Row() == row
    {
      this.id := row.id;
      this.name := row.name;
      this.code := row.code;
    }

    /** `Country.Create`: validate, then construct; `freshId` stands for `Guid.NewGuid()`. */
    static method Create(freshId: Guid, name: Option<string>, code: Option<string>) returns (r: Result<Country>)
      ensures r.IsSuccess() == Validate(name, code).IsSuccess()
      ensures r.Failure? ==> r.error == Validate(name, code).error
      ensures r.Success? ==> fresh(r.value) && r.value.Valid()
                             && r.value.Row() == CountryRow(freshId, NormalName(name.value), NormalCode(code))
    {
      var check := Validate(name, code);
      if check.Failure? {
        return Result.Failure(check.error);
      }
      var country := new Country.Normalised(freshId, name.value, code);
      NormalisedIsValid(name, code);
      return Result.Success(country);
    }

    /** `Country.Update`: the same checks; on success Name and Code are replaced in place. */
    method Update(name: Option<string>, code: Option<string>) returns (r: Outcome)
      modifies this`name, this`code
      ensures r == Validate(name, code)
      ensures r.Failure? ==> this.name == old(this.name) && this.code == old(this.code)
      ensures r.Success? ==> Valid() && this.name == NormalName(name.value) && this.code == NormalCode(code)
    {
      r := Validate(name, code);
      if r.Failure? {
        return;
      }
      this.name := Trim(name.value);
      this.code := if IsNullOrWhiteSpace(code) then None else Some(ToUpper(Trim(code.value)));
      NormalisedIsValid(name, code);
    }
  }
}
