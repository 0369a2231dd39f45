# CountriesApp domain and service layer in Dafny

This project models the core of CountriesApp, a small web API that manages countries and their cities. It covers four pieces:

- **The result kernel.** `Result`, `Result<T>` and `Error`, with its four factories: NotFound, ValidationError, Conflict and Unexpected.
- **The entities.** `Country` and `City` validate their input when created or updated. They normalise it: trim the name, upper-case the code.
- **The repositories.** They list a table through a predicate and a clamped page and page size. They also get, add, update and delete rows. Deleting a country deletes its cities, as the schema's cascade rule says.
- **The services.** They build the search predicates and chain entity and repository calls. Each chain stops at the first failure. Before it validates a city, the city service checks that the city's country exists.

How the model is built:

- **Entities are classes.** `Country` and `City` carry the fields that their `Update` methods assign in place.
- **The store is a `Database` object.** It holds two sequences of value rows, `CountryRow` and `CityRow`, in insertion order; the source fixes no order, as "## Left out" says. Both repositories share it, as they share one database context in the application. Its invariants are:
  - `Consistent()`: keys are unique and every city's country exists.
  - `AllValid()`: every stored row satisfies its entity's rules.

  Every state-changing repository method preserves `Consistent()`. Like the source's repositories, they store whatever entity they are given, so `AllValid()` is kept by the services: every state-changing service method preserves both invariants.
- **Storage is deterministic.** A fault the database may raise during a call is an explicit `Option<string>` parameter; it stands for the exception message. `SaveChanges` refuses a duplicate key, a missing row on update and a broken foreign key. Each refusal becomes an Unexpected error with a fixed message.
- **Ids are natural numbers.** `Guid` is `nat`, and `Guid.Empty` is 0. The id `Guid.NewGuid()` would draw is passed in as a parameter.
- **Strings are sequences of Unicode characters.** Any character may occur. `Length` counts UTF-16 code units, so a character outside the Basic Multilingual Plane counts twice. Whitespace is the Latin-1 set: the ASCII whitespace characters, U+0085 and U+00A0. Case mapping covers ASCII letters only.

Module layout, one file each:

| file | module | models |
|---|---|---|
| `nullable.dfy` | `Nullable` | nullable values |
| `errors.dfy` | `Errors` | the `Error` record |
| `results.dfy` | `Results` | `Result` and `Result<T>` |
| `text.dfy` | `Text` | trimming, case mapping, substring tests, UTF-16 length |
| `guids.dfy` | `Guids` | ids |
| `query.dfy` | `Query` | filtering and pagination |
| `tables.dfy` | `Tables` | keyed tables |
| `country.dfy` | `CountryEntity` | `Country` |
| `city.dfy` | `CityEntity` | `City` |
| `storage.dfy` | `Storage` | the database context and cascade |
| `country_repository.dfy` | `CountryRepositories` | `CountryRepository` |
| `city_repository.dfy` | `CityRepositories` | `CityRepository` |
| `country_service.dfy` | `CountryServices` | `CountryService` |
| `city_service.dfy` | `CityServices` | `CityService` |

## Model

| member | source | states |
|---|---|---|
| Results.Outcome.ErrorOrNull | CountriesApp.Domain/Shared/Result.cs:3-12 | The Error property is null exactly when the result is a success; on failure it is the failure's own error. |
| Results.SuccessHasNoError | CountriesApp.Domain/Shared/Result.cs:14-21 | `Result.Success()` has IsSuccess true (so it converts to true) and a null Error. |
| Results.FailureKeepsError | CountriesApp.Domain/Shared/Result.cs:23-30 | `Result.Failure(e)` has IsSuccess false and Error exactly e. |
| Results.Result.ErrorOrNull | CountriesApp.Domain/Shared/Result.cs:32-40 | For `Result<T>`, too, Error is null exactly when the result is a success. |
| Results.Result.ValueOrDefault | CountriesApp.Domain/Shared/Result.cs:39 | The implicit conversion to `T?` gives the value on success and default (null) on failure. |
| Results.Result.AsOutcome | CountriesApp.Domain/Shared/Result.cs:32 | Seen as the base `Result`, a `Result<T>` keeps its IsSuccess and its Error. |
| Results.GenericConstructors | CountriesApp.Domain/Shared/Result.cs:42-60 | `Success(v)`: IsSuccess, Value v, no Error. `Failure(e)`: not IsSuccess, Error e, Value default. |
| Errors.Kind | CountriesApp.Domain/Shared/Error.cs:2-7 | Recovers the factory kind whose code an error carries; None exactly when no factory's code matches. |
| Errors.NotFound | CountriesApp.Domain/Shared/Error.cs:4 | Builds an error with code "NotFound" and the message unchanged. |
| Errors.Validation | CountriesApp.Domain/Shared/Error.cs:5 | Builds an error with code "ValidationError" and the message unchanged. |
| Errors.Conflict | CountriesApp.Domain/Shared/Error.cs:6 | Builds an error with code "Conflict" and the message unchanged. |
| Errors.Unexpected | CountriesApp.Domain/Shared/Error.cs:7 | Builds an error with code "Unexpected" and the message unchanged. |
| Errors.CodesDistinct | CountriesApp.Domain/Shared/Error.cs:4-7 | The four factory codes are pairwise distinct. |
| Errors.FactoriesDisjoint | CountriesApp.Domain/Shared/Error.cs:2-7 | Errors built by different factories are never equal, whatever their messages. Record equality is equality of code and message. |
| Text.IsNullOrWhiteSpace | CountriesApp.Domain/Entities/Country.cs:23 | A string is null-or-whitespace exactly when it is null or nothing is left once it is trimmed. |
| Text.Trim | CountriesApp.Domain/Entities/Country.cs:12 | The trimmed string has no whitespace at either end and is no longer than the input. It is an infix of the input with only whitespace before and after it. It is empty exactly when the input is all whitespace. An already trimmed string is unchanged. |
| Text.TrimIsInfix | CountriesApp.Domain/Entities/Country.cs:12 | What trimming keeps is an infix of the input with only whitespace on either side of it. |
| Text.TrimIdempotent | CountriesApp.Domain/Entities/Country.cs:12 | Trimming twice is trimming once. |
| Text.ToUpper | CountriesApp.Domain/Entities/Country.cs:13 | `ToUpperInvariant` keeps the length and maps each character on its own. |
| Text.ToLower | CountriesApp.Application/Services/CountryService.cs:21-23 | `ToLower` and `ToLowerInvariant` keep the length and map each character on its own. |
| Text.ToUpperNormalises | CountriesApp.Domain/Entities/Country.cs:13 | Upper-casing gives an upper-case string. A trimmed string stays trimmed and a blank one stays blank; an upper-case string is unchanged. |
| Text.LowerOfUpper | CountriesApp.Application/Services/CountryService.cs:21-23 | Lower-casing after upper-casing is lower-casing, so stored upper-case codes still match a lower-cased term. |
| Text.TrimUpper | CountriesApp.Application/Services/CountryService.cs:21 | Trimming and upper-casing commute, because case mapping keeps whitespace. |
| Text.TrimStartUpper | CountriesApp.Application/Services/CountryService.cs:21 | Trimming the start commutes with upper-casing (proof by induction). |
| Text.TrimEndUpper | CountriesApp.Application/Services/CountryService.cs:21 | Trimming the end commutes with upper-casing (proof by induction). |
| Text.Contains | CountriesApp.Application/Services/CountryService.cs:22-23 | A string contains each of its prefixes, itself and the empty string included. A string it contains is never longer than it. |
| Text.Utf16Length | CountriesApp.Domain/Entities/Country.cs:28 | `Length` lies between the number of characters and twice that. It equals the number of characters when all of them are in the Basic Multilingual Plane, and twice that when none is. |
| Text.Utf16LengthAppend | CountriesApp.Domain/Entities/Country.cs:28 | The code units of a concatenation are those of its parts added up (proof by induction). |
| Text.Utf16LengthInfix | CountriesApp.Domain/Entities/Country.cs:28 | An infix has no more code units than the string it is taken from. |
| Text.TrimShortens | CountriesApp.Domain/Entities/Country.cs:12 | Trimming never increases the code-unit length, so a name that passed the length check still fits once trimmed. |
| Text.ToUpperKeepsUtf16Length | CountriesApp.Domain/Entities/Country.cs:13 | Upper-casing keeps the code-unit length, so a code that passed the length check still fits once upper-cased (proof by induction). |
| CountryEntity.Validate | CountriesApp.Domain/Entities/Country.cs:21-37 | Succeeds iff the name is not blank, its raw length in UTF-16 code units is at most 100, and the code is blank or its raw length is at most 10. Every failure is a ValidationError. |
| CountryEntity.ValidateReportsFirstFailure | CountriesApp.Domain/Entities/Country.cs:23-36 | The checks run in the order name required, name length, code length; only the first failing check's message is reported. |
| CountryEntity.RawNameLengthCounts | CountriesApp.Domain/Entities/Country.cs:28-31 | An example of the raw-length rule that Validate states for all inputs: a 101-character name that trims to 99 characters is refused with "Country name must not exceed 100 characters.". |
| CountryEntity.AstralNameCountsTwice | CountriesApp.Domain/Entities/Country.cs:28-31 | An example of counting in UTF-16 code units: a name of 60 characters U+1F600 has Length 120 and is refused as too long. |
| CountryEntity.NormalCode | CountriesApp.Domain/Entities/Country.cs:13 | The stored code is null exactly when the given code is blank. |
| CountryEntity.NormalisedIsValid | CountriesApp.Domain/Entities/Country.cs:9-14 | Whatever passes validation normalises to a non-empty trimmed name of at most 100 code units. The code becomes null, or a non-empty trimmed upper-case string of at most 10 code units. |
| CountryEntity.ValidIsNormalised | CountriesApp.Domain/Entities/Country.cs:21-40 | A valid country's own fields pass validation again and normalise to themselves. |
| CountryEntity.Country.Normalised | CountriesApp.Domain/Entities/Country.cs:9-14 | The private constructor: the given id, the name trimmed, the code null when blank and trimmed and upper-cased otherwise. |
| CountryEntity.Country.Create | CountriesApp.Domain/Entities/Country.cs:21-40 | Fails with exactly the validation error. Otherwise returns a fresh, valid country with the normalised fields. |
| CountryEntity.Country.Update | CountriesApp.Domain/Entities/Country.cs:42-63 | Returns the validation outcome. On failure Name and Code are unchanged. On success they are normalised as by the constructor; only Name and Code may change. |
| CityEntity.Validate | CountriesApp.Domain/Entities/City.cs:21-37 | Succeeds iff the name is not blank, its raw length in UTF-16 code units is at most 100, and the country id is not Empty. Every failure is a ValidationError. |
| CityEntity.ValidateReportsFirstFailure | CountriesApp.Domain/Entities/City.cs:23-36 | Name required, then name length, then "CountryId is required."; the last only after both name checks pass. |
| CityEntity.TrimmedIsValid | CountriesApp.Domain/Entities/City.cs:9-14 | Whatever passes validation gives a non-empty trimmed name of at most 100 code units and a non-Empty country id. |
| CityEntity.ValidIsTrimmed | CountriesApp.Domain/Entities/City.cs:21-40 | A valid city's own fields pass validation again and are unchanged by trimming. |
| CityEntity.City.Normalised | CountriesApp.Domain/Entities/City.cs:9-14 | The private constructor: the given id, the name trimmed, the country id as given. |
| CityEntity.City.Create | CountriesApp.Domain/Entities/City.cs:21-40 | Fails with exactly the validation error. Otherwise returns a fresh, valid city with the trimmed name and the given country id. |
| CityEntity.City.Update | CountriesApp.Domain/Entities/City.cs:42-63 | Returns the validation outcome. On failure Name and CountryId are unchanged. On success they are the trimmed name and the new id; only those two fields may change. |
| Query.Filter | CountriesApp.Infrastructure/Repositories/CountryRepository.cs:24 | The filtered sequence is no longer than the table. It holds only stored elements the predicate accepts, and every stored element it accepts. |
| Query.FilterAppend | CountriesApp.Infrastructure/Repositories/CountryRepository.cs:24 | Filtering a concatenation is filtering each part and concatenating: the matches keep the table's order (proof by induction). |
| Query.FilterCounts | CountriesApp.Infrastructure/Repositories/CountryRepository.cs:24 | Each accepted element occurs in the result exactly as often as in the table, and each rejected one not at all; so TotalCount counts every stored match once (proof by induction). |
| Query.ClampPage | CountriesApp.Infrastructure/Repositories/CountryRepository.cs:21 | The page becomes max(1, page). |
| Query.ClampPageSize | CountriesApp.Infrastructure/Repositories/CountryRepository.cs:22 | The page size is clamped into [1, 100]; a size already in range is kept. |
| Query.SkipCount | CountriesApp.Infrastructure/Repositories/CountryRepository.cs:27 | The number of matches skipped before a clamped page is never negative, and is 0 for the first page. |
| Query.Slice | CountriesApp.Infrastructure/Repositories/CountryRepository.cs:26-29 | Skip (page-1)*pageSize, then take pageSize. Item i of the page is match skip+i, and the page holds at most pageSize items. It is empty when the skip is past the end. |
| Query.Paginate | CountriesApp.Infrastructure/Repositories/CountryRepository.cs:19-38 | Reports the clamped page and page size and TotalCount = the number of matches. It has at most pageSize and at most TotalCount items; each is a stored element that matches. |
| Query.PagesUpToIsPrefix | CountriesApp.Infrastructure/Repositories/CountryRepository.cs:26-29 | Pages 1 to n, concatenated, are exactly the first n*pageSize matches (or all of them). |
| Query.PageCount | CountriesApp.Infrastructure/Repositories/CountryRepository.cs:26-29 | The least number of pages that holds all the matches. |
| Query.PagesReconstruct | CountriesApp.Infrastructure/Repositories/CountryRepository.cs:26-29 | Consecutive pages partition the filtered sequence: together they rebuild it, in order. |
| Query.SkipGrows | CountriesApp.Infrastructure/Repositories/CountryRepository.cs:27 | A later page starts at least one whole page further on. |
| Query.PagesDisjoint | CountriesApp.Infrastructure/Repositories/CountryRepository.cs:26-29 | Over matches without repetitions, two different pages share no item. |
| Query.PageBeyondEndIsEmpty | CountriesApp.Infrastructure/Repositories/CountryRepository.cs:26-37 | A page past the last match has no items but still reports the requested page. |
| Query.MapPage | CountriesApp.Application/Services/CountryService.cs:27 | Mapping a page to response objects keeps TotalCount, Page and PageSize and maps the items one by one. |
| Query.SkipCountWrapsToFirstPage | CountriesApp.Infrastructure/Repositories/CountryRepository.cs:27 | The skip as written, in 32-bit arithmetic, wraps to 0 for page 1073741825 and pageSize 4, so that request is served the first page. |
| Tables.Find | CountriesApp.Infrastructure/Repositories/CountryRepository.cs:44 | The lookup by primary key finds a row exactly when one has the key; the row found has that key and is in the table. |
| Tables.FindUnique | CountriesApp.Infrastructure/Repositories/CountryRepository.cs:44 | With unique keys, the lookup finds the one row with that key. |
| Tables.Replace | CountriesApp.Infrastructure/Repositories/CountryRepository.cs:75-76 | Marking an entity modified and saving overwrites the row with its key; every other row is unchanged. |
| Tables.ReplaceKeepsKeys | CountriesApp.Infrastructure/Repositories/CountryRepository.cs:75-76 | Overwriting a row keeps the table's keys, so they stay unique. |
| Tables.AppendKeepsUnique | CountriesApp.Infrastructure/Repositories/CountryRepository.cs:61-62 | Adding a row whose key is new keeps the keys unique. |
| Tables.FilterKeepsUnique | CountriesApp.Infrastructure/Repositories/CountryRepository.cs:24 | Filtering a table with unique keys keeps them unique. |
| Tables.Without | CountriesApp.Infrastructure/Repositories/CountryRepository.cs:95-96 | Removing a key leaves no row with it and keeps every other row. An absent key changes nothing. |
| Tables.EveryAppend | CountriesApp.Infrastructure/Repositories/CountryRepository.cs:61-62 | Adding a row that satisfies a table's row invariant keeps the invariant; this is how adding a created entity keeps every stored row valid. |
| Tables.EveryReplace | CountriesApp.Infrastructure/Repositories/CountryRepository.cs:75-76 | Overwriting a row with one that satisfies the row invariant keeps it. |
| Tables.EverySubset | CountriesApp.Infrastructure/Repositories/CountryRepository.cs:95-96 | Removing rows, by deletion or by cascade, keeps the row invariant. |
| Tables.StorePages | CountriesApp.Infrastructure/Repositories/CountryRepository.cs:19-38 | Over a store with unique keys, two different pages share no row, and consecutive pages rebuild the query result. |
| Storage.Cascade | CountriesApp.Infrastructure/Data/CountriesAppDbContext.cs:25-28 | The cascade removes exactly the cities of the deleted country and keeps every other city. |
| Storage.Database.constructor | CountriesApp.Infrastructure/Data/CountriesAppDbContext.cs:9-10 | An empty database is consistent and valid. |
| Storage.CascadeKeepsForeignKey | CountriesApp.Infrastructure/Data/CountriesAppDbContext.cs:25-28 | Removing a country together with its cities leaves every remaining city's country in the table. |
| CountryRepositories.LookupCountry | CountriesApp.Infrastructure/Repositories/CountryRepository.cs:40-55 | Success iff there is no fault and a row has the id, and the row has that id. NotFound "Country with ID … not found." when absent; a fault gives Unexpected. |
| CountryRepositories.CountryRepository.GetAllAsync | CountriesApp.Infrastructure/Repositories/CountryRepository.cs:14-17 | The list is the stored countries the predicate accepts, each once and in store order (Filter over the table). So every country returned is stored and matches, and every stored match is returned. |
| CountryRepositories.CountryRepository.GetPagedAsync | CountriesApp.Infrastructure/Repositories/CountryRepository.cs:19-38 | The page is the paginated query over the stored countries. |
| CountryRepositories.CountryRepository.GetByIdAsync | CountriesApp.Infrastructure/Repositories/CountryRepository.cs:40-55 | Answers as LookupCountry does; on success, an entity loaded from the stored row. |
| CountryRepositories.CountryRepository.AddAsync | CountriesApp.Infrastructure/Repositories/CountryRepository.cs:57-69 | Success with the same entity iff there is no fault and the id is new; the row is then appended. On failure nothing changes; cities are never touched. |
| CountryRepositories.CountryRepository.UpdateAsync | CountriesApp.Infrastructure/Repositories/CountryRepository.cs:71-83 | Success with the same entity iff there is no fault and the row exists; the row is then overwritten. On failure nothing changes. |
| CountryRepositories.CountryRepository.DeleteAsync | CountriesApp.Infrastructure/Repositories/CountryRepository.cs:85-103 | Success iff there is no fault and the id is stored; the country and, by cascade, its cities are then removed. Otherwise the store is unchanged and the error is NotFound or Unexpected. |
| CityRepositories.LookupCity | CountriesApp.Infrastructure/Repositories/CityRepository.cs:40-55 | Success iff there is no fault and a row has the id. NotFound "City with ID … not found." when absent; a fault gives Unexpected. |
| CityRepositories.WriteConflict | CountriesApp.Infrastructure/Data/CountriesAppDbContext.cs:23-28 | Saving a city row is refused exactly when its key clashes (duplicate on insert, missing on update) or its country does not exist. |
| CityRepositories.CityRepository.GetAllAsync | CountriesApp.Infrastructure/Repositories/CityRepository.cs:14-17 | The list is the stored cities the predicate accepts, each once and in store order (Filter over the table). So every city returned is stored and matches, and every stored match is returned. |
| CityRepositories.CityRepository.GetPagedAsync | CountriesApp.Infrastructure/Repositories/CityRepository.cs:19-38 | The page is the paginated query over the stored cities. |
| CityRepositories.CityRepository.GetByIdAsync | CountriesApp.Infrastructure/Repositories/CityRepository.cs:40-55 | Answers as LookupCity does; on success, an entity loaded from the stored row. |
| CityRepositories.CityRepository.AddAsync | CountriesApp.Infrastructure/Repositories/CityRepository.cs:57-69 | Success with the same entity iff there is no fault and no write conflict; the row is then appended. On failure nothing changes; countries are never touched. |
| CityRepositories.CityRepository.UpdateAsync | CountriesApp.Infrastructure/Repositories/CityRepository.cs:71-83 | Success with the same entity iff there is no fault and no write conflict; the row is then overwritten. On failure nothing changes. |
| CityRepositories.CityRepository.DeleteAsync | CountriesApp.Infrastructure/Repositories/CityRepository.cs:85-103 | Success iff there is no fault and the id is stored; only that city is removed. Otherwise the store is unchanged and the error is NotFound or Unexpected. |
| CountryServices.SearchPredicate | CountriesApp.Application/Services/CountryService.cs:17-24 | A blank search accepts every country. A non-blank one accepts a country iff its lower-cased name contains the trimmed, lower-cased term, or its code is non-empty and contains it. |
| CountryServices.SearchIgnoresCase | CountriesApp.Application/Services/CountryService.cs:21-23 | Upper-casing the search term changes no answer. |
| CountryServices.SearchFindsCreated | CountriesApp.Application/Services/CountryService.cs:21-23 | A country created from a name and code is found by searching for that name, and for that code when one was given. |
| CountryServices.CountryService.GetCountriesAsync | CountriesApp.Application/Services/CountryService.cs:13-35 | A fault gives Unexpected. Otherwise the result is the mapped page of the search, with page and pageSize passed on unchanged. |
| CountryServices.CountryService.GetCountryByIdAsync | CountriesApp.Application/Services/CountryService.cs:37-47 | Success iff there is no fault and the country is stored; a failure is the repository's error unchanged. |
| CountryServices.CountryService.CreateCountryAsync | CountriesApp.Application/Services/CountryService.cs:49-65 | A validation failure is returned unchanged and nothing is added. Otherwise the normalised row is added once, or the add failure is returned. The store stays consistent and valid. |
| CountryServices.CountryService.UpdateCountryAsync | CountriesApp.Application/Services/CountryService.cs:67-90 | Lookup failure, then validation failure, then save failure: each is returned with the store unchanged. Otherwise the row is overwritten with the normalised fields. |
| CountryServices.CountryService.DeleteCountryAsync | CountriesApp.Application/Services/CountryService.cs:92-103 | The repository's result, unchanged: the country and its cities go, or nothing changes and NotFound or Unexpected is returned. |
| CityServices.CityPredicate | CountriesApp.Application/Services/CityService.cs:17-36 | The four-case predicate accepts a city iff (the search is blank or the lower-cased name contains the trimmed, lower-cased term) and (no country filter or the city's country is the one given). |
| CityServices.CitySearchIgnoresCase | CountriesApp.Application/Services/CityService.cs:29-35 | Upper-casing the search term changes no answer, with or without a country filter. |
| CityServices.CitySearchFindsOwnName | CountriesApp.Application/Services/CityService.cs:32-36 | A stored city is found by its own name within its own country. |
| CityServices.EmptyCountryIdNotFound | CountriesApp.Application/Services/CityService.cs:63-65 | Over valid countries the Empty id is never found, so the country check answers "Invalid country id" before "CountryId is required." could be reached. |
| CityServices.CityService.GetCitiesAsync | CountriesApp.Application/Services/CityService.cs:13-47 | A fault gives Unexpected. Otherwise the result is the mapped page of the four-case predicate; with a country filter every city listed belongs to that country. |
| CityServices.CityService.GetCityByIdAsync | CountriesApp.Application/Services/CityService.cs:49-59 | Success iff there is no fault and the city is stored; a failure is the repository's error unchanged. |
| CityServices.CityService.ValidateCountryExistsAsync | CountriesApp.Application/Services/CityService.cs:125-132 | Success iff the country lookup succeeds; any lookup failure, a fault included, becomes NotFound "Invalid country id". |
| CityServices.CityService.CreateCityAsync | CountriesApp.Application/Services/CityService.cs:61-81 | Country check first (NotFound "Invalid country id"), then validation (never "CountryId is required."), then a single add. Each failure leaves the store unchanged; the store stays consistent and valid. |
| CityServices.CityService.UpdateCityAsync | CountriesApp.Application/Services/CityService.cs:83-110 | City lookup, country check, validation, save, in that order. The first failure is returned with the store unchanged; otherwise the row is overwritten with the trimmed name and the new country. |
| CityServices.CityService.DeleteCityAsync | CountriesApp.Application/Services/CityService.cs:112-123 | The repository's result, unchanged: only that city goes, or nothing changes and NotFound or Unexpected is returned. |

The predicates `Text.IsWhiteSpace`, `Text.IsAllWhiteSpace`, `Text.IsNullOrEmpty` (`string.IsNullOrEmpty`, used on the code at CountriesApp.Application/Services/CountryService.cs:23) and `Text.IsTrimmed` have no row of their own. They are what the rows of `Text.Trim`, `Text.IsNullOrWhiteSpace` and `CountryServices.SearchPredicate` are stated in.

## Left out

- Asynchrony, Entity Framework query translation and AutoMapper are not modelled. A repository call is a synchronous method over the in-memory `Database`, and DTO mapping is a field projection (`ToResponse`, `MapPage`).
- Exceptions are not modelled: a fault is an explicit `Option<string>` parameter for each storage call. The exception message texts of the database provider become fixed stand-ins (`DuplicateKeyMessage`, `ForeignKeyMessage`, `MissingRowMessage`).
- CountryServices.CountryService.GetCountriesAsync: the listing fault is a single parameter of the service method, since the repository's paged query has no failure path of its own. CityServices.CityService.GetCitiesAsync does the same.
- CountryRepositories.CountryRepository.GetByIdAsync: Entity Framework's identity map, which returns the already tracked object, is not modelled. Each lookup materialises a fresh entity from the stored row, and the update methods then write that entity's row back.
- The navigation properties `Country.Cities` and `City.Country` are not modelled. Only the foreign key `CountryId` and the cascade rule are.
- The public parameterless constructors that exist for Entity Framework are not modelled. Rows loaded from the store use `Load`.
- Guid format and randomness are not modelled: ids are natural numbers, Empty is 0, and a fresh id is a parameter. Country and city creation in the services require the fresh id to be non-Empty, as `Guid.NewGuid()` practically guarantees, and `AllValid()` includes a non-Empty id for every stored country and city. GuidText, which renders ids inside the not-found messages, uses decimal digits rather than the Guid text format.
- Text.IsWhiteSpace: only the Latin-1 whitespace characters (the ASCII ones, U+0085 and U+00A0) count as whitespace. .NET's `char.IsWhiteSpace` also accepts the Unicode space separators (U+1680, U+2000 to U+200A, U+2028, U+2029, U+202F, U+205F, U+3000); a name made only of those is refused by the source but accepted here, and those characters are not trimmed.
- Text.ToUpper, Text.ToLower: case mapping covers ASCII letters only. Culture-invariant mapping of other letters (`é` to `É`, say) is not modelled, so CountryServices.SearchIgnoresCase and CityServices.CitySearchIgnoresCase speak of ASCII case only.
- The column limits in the schema (a name of 100 characters, a code of 3) and the `[StringLength]` attributes on the request types are not enforced by the code modelled. The entity's limit of 10 for the code is the one modelled.
- `PaginationResult.cs` and its `TotalPages` are not part of this model. `PaginationResult` here carries the four properties the repositories set.
- Query.PagesDisjoint, Query.PagesReconstruct, Tables.StorePages, CountryRepositories.CountryRepository.GetAllAsync and CityRepositories.CityRepository.GetAllAsync: the model keeps each table in insertion order and reads it in that order. The source orders nothing: the queries have no `OrderBy`, and SQL Server may return the rows in any order, in practice by clustered key, that is, random Guid order. So "in store order", and the facts that pages are disjoint and rebuild the result, hold here for one fixed order. For the source they hold only while the database returns the same order on every query.
- Concurrency between requests is not modelled; the source does no locking.
- The HTTP layer, authentication, rate limiting, caching and logging are not part of this model.

## Findings

| source | as written | input that shows it | evidently intended | confidence | as-written member | corrected member |
|---|---|---|---|---|---|---|
| CountriesApp.Infrastructure/Repositories/CountryRepository.cs:27 | `(page - 1) * pageSize` is computed in 32-bit `int` and wraps silently; only page's lower bound is clamped. CityRepository.cs:27 does the same. | page = 1073741825, pageSize = 4: the skip wraps to 0 and the first page's items are returned. | Skip (page-1)*pageSize matches exactly, so a page past the end is empty. | not executed | Query.SkipCountWrapsToFirstPage | Query.PageBeyondEndIsEmpty |
