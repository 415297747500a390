/**
 * The city directory: the continent > country > state > city table
 * flattened into one list of tagged cities sorted by name, and the
 * case-insensitive city search over that list.
 */
module Locations {
  import opened JsValues
  import opened Seqs

  /** A city of the table; coordinates are carried along unchanged. */
  datatype City = City(name: string, lat: real, lng: real)

  /** A state or province and its cities, in table order. */
  datatype State = State(name: string, cities: seq<City>)

  datatype Country = Country(name: string, states: seq<State>)

  datatype Continent = Continent(name: string, countries: seq<Country>)

  /** A city of `getAllCities`: the city's own fields plus where it lies. */
  datatype LocatedCity = LocatedCity(
    name: string,
    lat: real,
    lng: real,
    state: string,
    country: string,
    continent: string,
    fullLocation: string)

  /** The object pushed for one city: `{ ...city, state, country, continent, fullLocation }`. */
  function Tag(city: City, state: string, country: string, continent: string): LocatedCity
  {
    LocatedCity(city.name, city.lat, city.lng, state, country, continent, city.name + ", " + state + ", " + country)
  }

  // ---------------------------------------------------------------- the flattening

  /** The cities of one state, tagged, in order. */
  function TagAll(cities: seq<City>, state: string, country: string, continent: string): (r: seq<LocatedCity>)
    ensures |r| == |cities|
  {
    if cities == [] then []
    else TagAll(cities[..|cities| - 1], state, country, continent) + [Tag(cities[|cities| - 1], state, country, continent)]
  }

  /** The tagged cities of some states of one country, state by state. */
  function CitiesOfStates(states: seq<State>, country: string, continent: string): seq<LocatedCity>
  {
    if states == [] then []
    else
      var s := states[|states| - 1];
      CitiesOfStates(states[..|states| - 1], country, continent) + TagAll(s.cities, s.name, country, continent)
  }

  /** The tagged cities of some countries of one continent, country by country. */
  function CitiesOfCountries(countries: seq<Country>, continent: string): seq<LocatedCity>
  {
    if countries == [] then []
    else
      var c := countries[|countries| - 1];
      CitiesOfCountries(countries[..|countries| - 1], continent) + CitiesOfStates(c.states, c.name, continent)
  }

  /** The tagged cities of some continents, continent by continent: the list before sorting. */
  function Flatten(continents: seq<Continent>): seq<LocatedCity>
  {
    if continents == [] then []
    else
      var k := continents[|continents| - 1];
      Flatten(continents[..|continents| - 1]) + CitiesOfCountries(k.countries, k.name)
  }

  /** `a.name.localeCompare(b.name) <= 0`, with character-code order standing in for the locale's. */
  function ByName(): (LocatedCity, LocatedCity) -> bool
  {
    (a: LocatedCity, b: LocatedCity) => StrLe(a.name, b.name)
  }

  /** `getAllCities()` as a value. */
  function AllCities(data: seq<Continent>): seq<LocatedCity>
  {
    Sort(Flatten(data), ByName())
  }

  // ---------------------------------------------------------------- the nested loops

  /** `citiesArray.forEach(city => cities.push(...))` for one state. */
  method PushStateCities(cities: seq<LocatedCity>, state: State, country: string, continent: string)
    returns (out: seq<LocatedCity>)
    ensures out == cities + TagAll(state.cities, state.name, country, continent)
  {
    out := cities;
    var i := 0;
    while i < |state.cities|
      invariant 0 <= i <= |state.cities|
      invariant out == cities + TagAll(state.cities[..i], state.name, country, continent)
    {
      assert state.cities[..i + 1][..i] == state.cities[..i];
      out := out + [Tag(state.cities[i], state.name, country, continent)];
      i := i + 1;
    }
    assert state.cities[..i] == state.cities;
  }

  /** `Object.entries(states).forEach(...)` for one country. */
  method PushCountryCities(cities: seq<LocatedCity>, country: Country, continent: string)
    returns (out: seq<LocatedCity>)
    ensures out == cities + CitiesOfStates(country.states, country.name, continent)
  {
    out := cities;
    var i := 0;
    while i < |country.states|
      invariant 0 <= i <= |country.states|
      invariant out == cities + CitiesOfStates(country.states[..i], country.name, continent)
    {
      assert country.states[..i + 1][..i] == country.states[..i];
      out := PushStateCities(out, country.states[i], country.name, continent);
      i := i + 1;
    }
    assert country.states[..i] == country.states;
  }

  /** `Object.entries(countries).forEach(...)` for one continent. */
  method PushContinentCities(cities: seq<LocatedCity>, continent: Continent)
    returns (out: seq<LocatedCity>)
    ensures out == cities + CitiesOfCountries(continent.countries, continent.name)
  {
    out := cities;
    var i := 0;
    while i < |continent.countries|
      invariant 0 <= i <= |continent.countries|
      invariant out == cities + CitiesOfCountries(continent.countries[..i], continent.name)
    {
      assert continent.countries[..i + 1][..i] == continent.countries[..i];
      out := PushCountryCities(out, continent.countries[i], continent.name);
      i := i + 1;
    }
    assert continent.countries[..i] == continent.countries;
  }

  /** `getAllCities`: push every city of every continent, then sort by name. */
  method GetAllCities(data: seq<Continent>) returns (cities: seq<LocatedCity>)
    ensures cities == AllCities(data)
  {
    cities := [];
    var i := 0;
    while i < |data|
      invariant 0 <= i <= |data|
      invariant cities == Flatten(data[..i])
    {
      assert data[..i + 1][..i] == data[..i];
      cities := PushContinentCities(cities, data[i]);
      i := i + 1;
    }
    assert data[..i] == data;
    cities := Sort(cities, ByName());
  }

  // ---------------------------------------------------------------- what the flattening holds

  /** A tagged city of one state is one of its cities with that state's names. */
  lemma {:induction false} TagAllExact(cities: seq<City>, state: string, country: string, continent: string)
    ensures forall x :: x in TagAll(cities, state, country, continent) <==>
      exists d :: 0 <= d < |cities| && x == Tag(cities[d], state, country, continent)
  {
    if cities != [] {
      var n := |cities| - 1;
      TagAllExact(cities[..n], state, country, continent);
      forall x | x in TagAll(cities, state, country, continent)
        ensures exists d :: 0 <= d < |cities| && x == Tag(cities[d], state, country, continent)
      {
        if x in TagAll(cities[..n], state, country, continent) {
          var d :| 0 <= d < n && x == Tag(cities[..n][d], state, country, continent);
          assert cities[..n][d] == cities[d];
        }
      }
      forall d | 0 <= d < |cities| ensures Tag(cities[d], state, country, continent) in TagAll(cities, state, country, continent) {
        if d < n {
          assert cities[..n][d] == cities[d];
        }
      }
    }
  }

  /** A tagged city of some states comes from one of them, and every state's cities are there. */
  lemma {:induction false} CitiesOfStatesExact(states: seq<State>, country: string, continent: string)
    ensures forall x :: x in CitiesOfStates(states, country, continent) <==>
      exists c :: 0 <= c < |states| && x in TagAll(states[c].cities, states[c].name, country, continent)
  {
    if states != [] {
      var n := |states| - 1;
      CitiesOfStatesExact(states[..n], country, continent);
      forall x | x in CitiesOfStates(states, country, continent)
        ensures exists c :: 0 <= c < |states| && x in TagAll(states[c].cities, states[c].name, country, continent)
      {
        if x in CitiesOfStates(states[..n], country, continent) {
          var c :| 0 <= c < n && x in TagAll(states[..n][c].cities, states[..n][c].name, country, continent);
          assert states[..n][c] == states[c];
        }
      }
      forall c, x | 0 <= c < |states| && x in TagAll(states[c].cities, states[c].name, country, continent)
        ensures x in CitiesOfStates(states, country, continent)
      {
        if c < n {
          assert states[..n][c] == states[c];
        }
      }
    }
  }

  /** A tagged city of some countries comes from one of them, and every country's cities are there. */
  lemma {:induction false} CitiesOfCountriesExact(countries: seq<Country>, continent: string)
    ensures forall x :: x in CitiesOfCountries(countries, continent) <==>
      exists b :: 0 <= b < |countries| && x in CitiesOfStates(countries[b].states, countries[b].name, continent)
  {
    if countries != [] {
      var n := |countries| - 1;
      CitiesOfCountriesExact(countries[..n], continent);
      forall x | x in CitiesOfCountries(countries, continent)
        ensures exists b :: 0 <= b < |countries| && x in CitiesOfStates(countries[b].states, countries[b].name, continent)
      {
        if x in CitiesOfCountries(countries[..n], continent) {
          var b :| 0 <= b < n && x in CitiesOfStates(countries[..n][b].states, countries[..n][b].name, continent);
          assert countries[..n][b] == countries[b];
        }
      }
      forall b, x | 0 <= b < |countries| && x in CitiesOfStates(countries[b].states, countries[b].name, continent)
        ensures x in CitiesOfCountries(countries, continent)
      {
        if b < n {
          assert countries[..n][b] == countries[b];
        }
      }
    }
  }

  /** A flattened city comes from one of the continents. */
  lemma {:induction false} FlattenSource(continents: seq<Continent>, x: LocatedCity)
    requires x in Flatten(continents)
    ensures exists a :: 0 <= a < |continents| && x in CitiesOfCountries(continents[a].countries, continents[a].name)
  {
    var n := |continents| - 1;
    if x in Flatten(continents[..n]) {
      FlattenSource(continents[..n], x);
      var a :| 0 <= a < n && x in CitiesOfCountries(continents[..n][a].countries, continents[..n][a].name);
      assert continents[..n][a] == continents[a];
    } else {
      assert x in CitiesOfCountries(continents[n].countries, continents[n].name);
    }
  }

  /** Every city of continent `a` is among the flattened cities. */
  lemma {:induction false} FlattenHas(continents: seq<Continent>, a: nat, x: LocatedCity)
    requires a < |continents| && x in CitiesOfCountries(continents[a].countries, continents[a].name)
    ensures x in Flatten(continents)
  {
    var n := |continents| - 1;
    if a < n {
      assert continents[..n][a] == continents[a];
      FlattenHas(continents[..n], a, x);
    }
  }

  /** A flattened city comes from one continent, and every continent's cities are there. */
  lemma FlattenExact(continents: seq<Continent>)
    ensures forall x :: x in Flatten(continents) <==>
      exists a :: 0 <= a < |continents| && x in CitiesOfCountries(continents[a].countries, continents[a].name)
  {
    forall x | x in Flatten(continents)
      ensures exists a :: 0 <= a < |continents| && x in CitiesOfCountries(continents[a].countries, continents[a].name)
    {
      FlattenSource(continents, x);
    }
    forall a, x | 0 <= a < |continents| && x in CitiesOfCountries(continents[a].countries, continents[a].name)
      ensures x in Flatten(continents)
    {
      FlattenHas(continents, a, x);
    }
  }

  /** `x` is city `d` of state `c` of country `b` of continent `a`, tagged with those names. */
  ghost predicate TaggedAt(data: seq<Continent>, x: LocatedCity, a: int, b: int, c: int, d: int)
  {
    && 0 <= a < |data|
    && 0 <= b < |data[a].countries|
    && 0 <= c < |data[a].countries[b].states|
    && 0 <= d < |data[a].countries[b].states[c].cities|
    && x == Tag(data[a].countries[b].states[c].cities[d],
                data[a].countries[b].states[c].name, data[a].countries[b].name, data[a].name)
  }

  /**
   * `getAllCities` lists every city of the table, tagged with its own
   * state, country and continent, and nothing else; each carries
   * `name, state, country` as its full location.
   */
  lemma AllCitiesExact(data: seq<Continent>)
    ensures forall x :: x in AllCities(data) <==> exists a, b, c, d :: TaggedAt(data, x, a, b, c, d)
    ensures forall x :: x in AllCities(data) ==> x.fullLocation == x.name + ", " + x.state + ", " + x.country
  {
    SortMembers(Flatten(data), ByName());
    FlattenExact(data);
    forall x | x in Flatten(data) ensures exists a, b, c, d :: TaggedAt(data, x, a, b, c, d) {
      var a :| 0 <= a < |data| && x in CitiesOfCountries(data[a].countries, data[a].name);
      CitiesOfCountriesExact(data[a].countries, data[a].name);
      var b :| 0 <= b < |data[a].countries| &&
        x in CitiesOfStates(data[a].countries[b].states, data[a].countries[b].name, data[a].name);
      var country := data[a].countries[b];
      CitiesOfStatesExact(country.states, country.name, data[a].name);
      var c :| 0 <= c < |country.states| &&
        x in TagAll(country.states[c].cities, country.states[c].name, country.name, data[a].name);
      var state := country.states[c];
      TagAllExact(state.cities, state.name, country.name, data[a].name);
      var d :| 0 <= d < |state.cities| && x == Tag(state.cities[d], state.name, country.name, data[a].name);
      assert TaggedAt(data, x, a, b, c, d);
    }
    forall x, a, b, c, d | TaggedAt(data, x, a, b, c, d) ensures x in Flatten(data) {
      var country := data[a].countries[b];
      var state := country.states[c];
      TagAllExact(state.cities, state.name, country.name, data[a].name);
      CitiesOfStatesExact(country.states, country.name, data[a].name);
      CitiesOfCountriesExact(data[a].countries, data[a].name);
    }
  }

  /** The number of cities in the table. */
  function CityCount(data: seq<Continent>): nat
  {
    if data == [] then 0 else CityCount(data[..|data| - 1]) + CountryCityCount(data[|data| - 1].countries)
  }

  function CountryCityCount(countries: seq<Country>): nat
  {
    if countries == [] then 0
    else CountryCityCount(countries[..|countries| - 1]) + StateCityCount(countries[|countries| - 1].states)
  }

  function StateCityCount(states: seq<State>): nat
  {
    if states == [] then 0 else StateCityCount(states[..|states| - 1]) + |states[|states| - 1].cities|
  }

  /** `getAllCities` lists as many cities as the table holds: each once. */
  lemma {:induction false} AllCitiesCount(data: seq<Continent>)
    ensures |AllCities(data)| == CityCount(data)
  {
    FlattenCount(data);
  }

  lemma {:induction false} FlattenCount(data: seq<Continent>)
    ensures |Flatten(data)| == CityCount(data)
  {
    if data != [] {
      FlattenCount(data[..|data| - 1]);
      CountriesCount(data[|data| - 1].countries, data[|data| - 1].name);
    }
  }

  lemma {:induction false} CountriesCount(countries: seq<Country>, continent: string)
    ensures |CitiesOfCountries(countries, continent)| == CountryCityCount(countries)
  {
    if countries != [] {
      var c := countries[|countries| - 1];
      CountriesCount(countries[..|countries| - 1], continent);
      StatesCount(c.states, c.name, continent);
    }
  }

  lemma {:induction false} StatesCount(states: seq<State>, country: string, continent: string)
    ensures |CitiesOfStates(states, country, continent)| == StateCityCount(states)
  {
    if states != [] {
      StatesCount(states[..|states| - 1], country, continent);
    }
  }

  /** The name order is a total preorder, so `getAllCities` comes out sorted by name. */
  lemma AllCitiesSorted(data: seq<Continent>)
    ensures Sorted(AllCities(data), ByName())
    ensures forall i, j :: 0 <= i < j < |AllCities(data)| ==> StrLe(AllCities(data)[i].name, AllCities(data)[j].name)
  {
    forall a: LocatedCity, b: LocatedCity ensures ByName()(a, b) || ByName()(b, a) {
      StrLeTotal(a.name, b.name);
    }
    forall a: LocatedCity, b: LocatedCity, c: LocatedCity | ByName()(a, b) && ByName()(b, c) ensures ByName()(a, c) {
      StrLeTransitive(a.name, b.name, c.name);
    }
    SortSorted(Flatten(data), ByName());
  }

  // ---------------------------------------------------------------- search

  /** A city matches when the lower-cased query occurs in its lower-cased name, state, country or full location. */
  predicate Matches(city: LocatedCity, searchTerm: string)
  {
    || Contains(ToLower(city.name), searchTerm)
    || Contains(ToLower(city.state), searchTerm)
    || Contains(ToLower(city.country), searchTerm)
    || Contains(ToLower(city.fullLocation), searchTerm)
  }

  /** `searchCities(query)`: the first 20 matching cities of `getAllCities`. */
  function SearchCities(data: seq<Continent>, query: string): seq<LocatedCity>
  {
    var searchTerm := ToLower(query);
    Take(Filter(AllCities(data), (city: LocatedCity) => Matches(city, searchTerm)), 20)
  }

  /**
   * The search returns at most 20 cities, each matching the lower-cased
   * query, in the order of `getAllCities`; with fewer than 20 results it
   * returns every matching city.
   */
  lemma SearchCitiesSound(data: seq<Continent>, query: string)
    ensures var r := SearchCities(data, query);
      && |r| <= 20
      && (forall x :: x in r ==> x in AllCities(data) && Matches(x, ToLower(query)))
      && IsSubsequence(r, AllCities(data))
      && (|r| < 20 ==> forall x :: x in AllCities(data) && Matches(x, ToLower(query)) ==> x in r)
  {
    var all := AllCities(data);
    var p := (city: LocatedCity) => Matches(city, ToLower(query));
    var matching := Filter(all, p);
    var r := SearchCities(data, query);
    FilterMembers(all, p);
    FilterIsSubsequence(all, p);
    TakeOfSubsequence(matching, all, 20);
    forall x | x in r ensures x in all && Matches(x, ToLower(query)) {
      var k :| 0 <= k < |r| && r[k] == x;
      assert x == matching[k];
    }
    if |r| < 20 {
      assert r == matching;
      forall x | x in all && Matches(x, ToLower(query)) ensures x in r {
        var k :| 0 <= k < |all| && all[k] == x;
      }
    }
  }
}
