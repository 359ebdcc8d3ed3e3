/**
 * City voting: the `city_votes` table seeded with ten default cities, one
 * vote per city per browser (remembered in local storage), and the list
 * re-sorted by votes after each vote (src/components/CityVoting.tsx).
 */
module CityVoting {
  import opened Wrappers
  import opened Sorting

  /** One row of `city_votes`; `id` stands for the store's UUID. */
  datatype City = City(id: nat, cityName: string, country: string, voteCount: int)

  /** An entry of the built-in default city list. */
  datatype DefaultCity = DefaultCity(name: string, country: string, flag: string)

  const Globe := "\U{1F30D}"

  const InitialCities: seq<DefaultCity> := [
    DefaultCity("New York", "USA", "\U{1F1FA}\U{1F1F8}"),
    DefaultCity("Los Angeles", "USA", "\U{1F1FA}\U{1F1F8}"),
    DefaultCity("London", "UK", "\U{1F1EC}\U{1F1E7}"),
    DefaultCity("Paris", "France", "\U{1F1EB}\U{1F1F7}"),
    DefaultCity("Tokyo", "Japan", "\U{1F1EF}\U{1F1F5}"),
    DefaultCity("Toronto", "Canada", "\U{1F1E8}\U{1F1E6}"),
    DefaultCity("Sydney", "Australia", "\U{1F1E6}\U{1F1FA}"),
    DefaultCity("Berlin", "Germany", "\U{1F1E9}\U{1F1EA}"),
    DefaultCity("Barcelona", "Spain", "\U{1F1EA}\U{1F1F8}"),
    DefaultCity("Dubai", "UAE", "\U{1F1E6}\U{1F1EA}")
  ]

  /** `initialCities.find(c => c.name === name)?.flag || globe` over the list `l`. */
  function FlagIn(l: seq<DefaultCity>, name: string): (f: string)
    ensures forall k :: (0 <= k < |l| && l[k].name == name && l[k].flag != ""
                         && forall j :: 0 <= j < k ==> l[j].name != name) ==> f == l[k].flag
    ensures (forall k :: 0 <= k < |l| ==> l[k].name != name) ==> f == Globe
  {
    if l == [] then Globe
    else if l[0].name == name then (if l[0].flag != "" then l[0].flag else Globe)
    else
      assert forall k :: 1 <= k < |l| ==> l[k] == l[1..][k - 1];
      FlagIn(l[1..], name)
  }

  /** `getCityFlag` */
  function CityFlag(name: string): string {
    FlagIn(InitialCities, name)
  }

  function VoteCount(c: City): int { c.voteCount }

  ghost predicate UniqueNames(t: seq<City>) {
    forall i, j :: 0 <= i < j < |t| ==> t[i].cityName != t[j].cityName
  }

  ghost predicate UniqueCityIds(t: seq<City>) {
    forall i, j :: 0 <= i < j < |t| ==> t[i].id != t[j].id
  }

  ghost predicate CityIdsBelow(t: seq<City>, bound: nat) {
    forall i :: 0 <= i < |t| ==> t[i].id < bound
  }

  /** Whether some row of `t` has the name: the conflict the upsert's `onConflict: 'city_name'` detects. */
  function HasCityName(t: seq<City>, name: string): bool {
    if t == [] then false else t[0].cityName == name || HasCityName(t[1..], name)
  }

  lemma {:induction false} HasCityNameIff(t: seq<City>, name: string)
    ensures HasCityName(t, name) <==> exists k :: 0 <= k < |t| && t[k].cityName == name
  {
    if t != [] {
      HasCityNameIff(t[1..], name);
      if HasCityName(t[1..], name) {
        var k :| 0 <= k < |t[1..]| && t[1..][k].cityName == name;
        assert t[k + 1].cityName == name;
      }
      if exists k :: 0 <= k < |t| && t[k].cityName == name {
        var k :| 0 <= k < |t| && t[k].cityName == name;
        if k > 0 {
          assert t[1..][k - 1].cityName == name;
        }
      }
    }
  }

  lemma HasCityNameAppend(t: seq<City>, c: City, name: string)
    ensures HasCityName(t + [c], name) <==> HasCityName(t, name) || c.cityName == name
  {
    HasCityNameIff(t, name);
    HasCityNameIff(t + [c], name);
    if HasCityName(t, name) {
      var k :| 0 <= k < |t| && t[k].cityName == name;
      assert (t + [c])[k] == t[k];
    }
    if HasCityName(t + [c], name) && c.cityName != name {
      var k :| 0 <= k < |t| + 1 && (t + [c])[k].cityName == name;
      assert t[k] == (t + [c])[k];
    }
    if c.cityName == name {
      assert (t + [c])[|t|] == c;
    }
  }

  /** `cities.find(c => c.id === id)` */
  function FindCity(cs: seq<City>, id: nat): (r: Option<City>)
    ensures r.Some? ==> r.value in cs && r.value.id == id
    ensures r.None? ==> forall k :: 0 <= k < |cs| ==> cs[k].id != id
  {
    if cs == [] then None
    else if cs[0].id == id then Some(cs[0])
    else
      assert forall k :: 1 <= k < |cs| ==> cs[k] == cs[1..][k - 1];
      FindCity(cs[1..], id)
  }

  /** `.update({ vote_count: n }).eq('id', id)` on the table. */
  function SetVotes(t: seq<City>, id: nat, n: int): (r: seq<City>)
    ensures |r| == |t|
    ensures forall k :: 0 <= k < |t| ==> r[k] == if t[k].id == id then t[k].(voteCount := n) else t[k]
  {
    seq(|t|, k requires 0 <= k < |t| => if t[k].id == id then t[k].(voteCount := n) else t[k])
  }

  /** The local list with the city `id` given one more vote. */
  function Bump(cs: seq<City>, id: nat): (r: seq<City>)
    ensures |r| == |cs|
    ensures forall k :: 0 <= k < |cs| ==> r[k] == if cs[k].id == id then cs[k].(voteCount := cs[k].voteCount + 1) else cs[k]
  {
    seq(|cs|, k requires 0 <= k < |cs| => if cs[k].id == id then cs[k].(voteCount := cs[k].voteCount + 1) else cs[k])
  }

  /** The local list after a vote: bumped, then re-sorted by votes, most first. */
  function AfterVote(cs: seq<City>, id: nat): seq<City> {
    SortDesc(Bump(cs, id), VoteCount)
  }

  /**
   * A vote for the city at index `k` leaves the list sorted by votes and
   * changes exactly that city, by one vote: the list holds the same cities as
   * before except that one, which now has one vote more.
   */
  lemma VoteEffect(cs: seq<City>, id: nat, k: nat)
    requires UniqueCityIds(cs) && k < |cs| && cs[k].id == id
    ensures SortedDesc(AfterVote(cs, id), VoteCount)
    ensures multiset(AfterVote(cs, id))
            == multiset(cs) - multiset{cs[k]} + multiset{cs[k].(voteCount := cs[k].voteCount + 1)}
  {
    SortDescSorted(Bump(cs, id), VoteCount);
    assert Bump(cs, id) == cs[k := cs[k].(voteCount := cs[k].voteCount + 1)];
  }

  /** A row the seeding inserted: a default city's name and country, no votes. */
  ghost predicate SeededFrom(c: City, defaults: seq<DefaultCity>) {
    c.voteCount == 0 && exists j :: 0 <= j < |defaults| && c.cityName == defaults[j].name && c.country == defaults[j].country
  }

  /** The component's state, the `city_votes` table and the browser's local storage. */
  class CityVotingView {
    var cities: seq<City>
    var isLoading: bool
    var votedCities: set<string>
    /** The `votedCities` entry of local storage, if one has been written. */
    var storedVoted: Option<set<string>>
    var table: seq<City>
    var nextId: nat

    ghost predicate Valid()
      reads this
    {
      UniqueNames(table) && UniqueCityIds(table) && CityIdsBelow(table, nextId)
    }

    constructor (t: seq<City>, nextIdInStore: nat, stored: Option<set<string>>)
      requires UniqueNames(t) && UniqueCityIds(t) && CityIdsBelow(t, nextIdInStore)
      ensures Valid() && table == t && nextId == nextIdInStore && storedVoted == stored
      ensures cities == [] && isLoading && votedCities == {}
    {
      cities, isLoading, votedCities := [], true, {};
      storedVoted, table, nextId := stored, t, nextIdInStore;
    }

    /** `loadVotedCities`: adopts the stored set when there is one. */
    method LoadVotedCities()
      modifies this
      ensures votedCities == if storedVoted.Some? then storedVoted.value else old(votedCities)
      ensures cities == old(cities) && table == old(table) && storedVoted == old(storedVoted)
      ensures nextId == old(nextId) && isLoading == old(isLoading)
    {
      if storedVoted.Some? {
        votedCities := storedVoted.value;
      }
    }

    /** `saveVotedCity`: adds the name and writes the whole set back. */
    method SaveVotedCity(name: string)
      modifies this
      ensures votedCities == old(votedCities) + {name} && storedVoted == Some(votedCities)
      ensures cities == old(cities) && table == old(table) && nextId == old(nextId) && isLoading == old(isLoading)
    {
      votedCities := votedCities + {name};
      storedVoted := Some(votedCities);
    }

    /** `fetchCities`: the whole table, most votes first; a failed query keeps the list. */
    method FetchCities(queryFails: bool)
      modifies this
      ensures !isLoading
      ensures cities == if queryFails then old(cities) else SortDesc(table, VoteCount)
      ensures table == old(table) && nextId == old(nextId)
      ensures votedCities == old(votedCities) && storedVoted == old(storedVoted)
    {
      if !queryFails {
        cities := SortDesc(table, VoteCount);
      }
      isLoading := false;
    }

    /**
     * `initializeCities`: upserts each default city with 0 votes, ignoring a
     * name already present, then fetches. `upsertFails[i]` says whether the
     * i-th upsert failed, which the source does not check.
     */
    method InitializeCities(upsertFails: seq<bool>, fetchFails: bool)
      requires Valid() && |upsertFails| == |InitialCities|
      modifies this
      ensures Valid()
      ensures |old(table)| <= |table| && table[..|old(table)|] == old(table)
      ensures forall k :: |old(table)| <= k < |table| ==>
                SeededFrom(table[k], InitialCities)
      ensures forall i :: 0 <= i < |InitialCities| && !upsertFails[i] ==> HasCityName(table, InitialCities[i].name)
      ensures cities == if fetchFails then old(cities) else SortDesc(table, VoteCount)
      ensures !isLoading && votedCities == old(votedCities) && storedVoted == old(storedVoted)
    {
      UpsertAll(InitialCities, upsertFails);
      FetchCities(fetchFails);
    }

    /** The upsert loop over a list of default cities: each new name is inserted with no votes. */
    method UpsertAll(defaults: seq<DefaultCity>, upsertFails: seq<bool>)
      requires Valid() && |upsertFails| == |defaults|
      modifies this`table, this`nextId
      ensures Valid()
      ensures |old(table)| <= |table| && table[..|old(table)|] == old(table)
      ensures forall k :: |old(table)| <= k < |table| ==>
                SeededFrom(table[k], defaults)
      ensures forall j :: 0 <= j < |defaults| && !upsertFails[j] ==> HasCityName(table, defaults[j].name)
    {
      var i := 0;
      while i < |defaults|
        invariant 0 <= i <= |defaults|
        invariant Valid()
        invariant |old(table)| <= |table| && table[..|old(table)|] == old(table)
        invariant forall k :: |old(table)| <= k < |table| ==>
                    SeededFrom(table[k], defaults)
        invariant forall j :: 0 <= j < i && !upsertFails[j] ==> HasCityName(table, defaults[j].name)
      {
        ghost var before, id := table, nextId;
        UpsertCity(defaults[i].name, defaults[i].country, upsertFails[i]);
        if table != before {
          var added := City(id, defaults[i].name, defaults[i].country, 0);
          assert table == before + [added];
          assert table[..|old(table)|] == before[..|old(table)|];
          forall j | 0 <= j < i && !upsertFails[j] ensures HasCityName(table, defaults[j].name) {
            HasCityNameAppend(before, added, defaults[j].name);
          }
          forall k | |old(table)| <= k < |table|
            ensures SeededFrom(table[k], defaults)
          {
            if k == |before| {
              assert table[k].cityName == defaults[i].name && table[k].country == defaults[i].country;
            } else {
              assert table[k] == before[k];
            }
          }
        }
        i := i + 1;
      }
    }

    /**
     * One `upsert` with `ignoreDuplicates`: a name not yet in the table gets a
     * new row with no votes, an existing name is left alone.
     */
    method UpsertCity(name: string, country: string, fails: bool)
      requires Valid()
      modifies this`table, this`nextId
      ensures Valid()
      ensures table == if fails || HasCityName(old(table), name) then old(table)
                       else old(table) + [City(old(nextId), name, country, 0)]
      ensures !fails ==> HasCityName(table, name)
    {
      if !fails && !HasCityName(table, name) {
        HasCityNameIff(table, name);
        HasCityNameAppend(table, City(nextId, name, country, 0), name);
        table := table + [City(nextId, name, country, 0)];
        nextId := nextId + 1;
      }
    }

    /**
     * `handleVote`: refused for a name already voted for or an id not in the
     * list; otherwise the table row is set to the listed count plus one and,
     * if that write succeeds, the list is bumped and re-sorted and the name
     * remembered.
     */
    method HandleVote(cityId: nat, cityName: string, updateFails: bool)
      requires Valid()
      modifies this
      ensures Valid() && old(votedCities) <= votedCities
      ensures isLoading == old(isLoading) && nextId == old(nextId)
      ensures cityName in old(votedCities) || FindCity(old(cities), cityId).None? || updateFails ==>
                cities == old(cities) && table == old(table)
                && votedCities == old(votedCities) && storedVoted == old(storedVoted)
      ensures cityName !in old(votedCities) && FindCity(old(cities), cityId).Some? && !updateFails ==>
                table == SetVotes(old(table), cityId, FindCity(old(cities), cityId).value.voteCount + 1)
                && cities == AfterVote(old(cities), cityId)
                && votedCities == old(votedCities) + {cityName} && storedVoted == Some(votedCities)
    {
      if cityName in votedCities {
        return;
      }
      var city := FindCity(cities, cityId);
      if city.None? {
        return;
      }
      if updateFails {
        return;
      }
      table := SetVotes(table, cityId, city.value.voteCount + 1);
      cities := AfterVote(cities, cityId);
      SaveVotedCity(cityName);
    }
  }
}
