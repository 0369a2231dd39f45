/**
 * The database behind both repositories: the Countries and Cities tables, in
 * insertion order. Keys are unique, every city's CountryId names a stored country
 * (the foreign key), and deleting a country deletes its cities (the cascade rule).
 */
module Storage {
  import opened Guids
  import opened Query
  import opened Tables
  import opened CountryEntity
  import opened CityEntity

  /** Messages standing for the provider's exception text when SaveChanges fails. */
  const DuplicateKeyMessage: string := "Violation of PRIMARY KEY constraint."
  const ForeignKeyMessage: string := "The INSERT or UPDATE statement conflicted with the FOREIGN KEY constraint."
  const MissingRowMessage: string := "The database operation was expected to affect 1 row(s), but actually affected 0 row(s)."

  function CountryKey(row: CountryRow): Guid
  {
    row.id
  }

  function CityKey(row: CityRow): Guid
  {
    row.id
  }

  /** The cities that survive the deletion of country `countryId`. */
  function OutsideCountry(countryId: Guid): CityRow -> bool
  {
    (row: CityRow) => row.countryId != countryId
  }

  /** The cascade: the remaining cities, in order, none of them in the deleted country. */
  function Cascade(cities: seq<CityRow>, countryId: Guid): (r: seq<CityRow>)
    ensures forall i :: 0 <= i < |r| ==> r[i].countryId != countryId && r[i] in cities
    ensures forall i :: 0 <= i < |cities| && cities[i].countryId != countryId ==> cities[i] in r
  {
    Filter(cities, OutsideCountry(countryId))
  }

  class Database {
    var countries: seq<CountryRow>
    var cities: seq<CityRow>

    constructor ()
      ensures countries == [] && cities == [] && Consistent() && AllValid()
    {
      countries := [];
      cities := [];
    }

    /** What the database itself enforces: primary keys and the foreign key. */
    predicate Consistent()
      reads this
    {
      && UniqueKeys(countries, CountryKey)
      && UniqueKeys(cities, CityKey)
      && forall i :: 0 <= i < |cities| ==> HasKey(countries, CountryKey, cities[i].countryId)
    }

    /** What the entities guarantee of everything the services store. */
    predicate AllValid()
      reads this
    {
      Every(countries, CountryEntity.ValidRow) && Every(cities, CityEntity.ValidRow)
    }
  }

  /** After the cascade, removing the country row keeps the foreign key intact. */
  lemma CascadeKeepsForeignKey(countries: seq<CountryRow>, cities: seq<CityRow>, countryId: Guid)
    requires forall i :: 0 <= i < |cities| ==> HasKey(countries, CountryKey, cities[i].countryId)
    ensures forall i :: 0 <= i < |Cascade(cities, countryId)| ==>
              HasKey(Without(countries, CountryKey, countryId), CountryKey, Cascade(cities, countryId)[i].countryId)
  {
    var rest := Cascade(cities, countryId);
    var kept := Without(countries, CountryKey, countryId);
    forall i | 0 <= i < |rest| ensures HasKey(kept, CountryKey, rest[i].countryId) {
      var c := rest[i];
      var j :| 0 <= j < |cities| && cities[j] == c;
      var k :| 0 <= k < |countries| && CountryKey(countries[k]) == c.countryId;
      assert countries[k] in kept;
      var m :| 0 <= m < |kept| && kept[m] == countries[k];
    }
  }
}
