/** PokemonGridBuilder.cs: builds the compact records shown in one page of the main
    grid, and completes a record with its abilities and evolution chain when the
    details panel opens. The controller singleton is the builder's `controller`;
    GetPokemonsData and GetPokemonData are its GetPokemons and GetPokemon(int). */
module GridBuilder {
  import opened Wrappers
  import opened Sequences
  import opened Text
  import opened PokeApi
  import opened CompactData
  import opened Catalog
  import opened Controller

  /** maxElementsInGrid: the number of entries on one page of the grid. */
  const MaxElementsInGrid := 9

  /** The half-open id window [start, end) of a grid page. */
  function GridWindow(page: int): (r: (int, int))
    ensures r.1 - r.0 == MaxElementsInGrid
    ensures page >= 1 <==> r.0 >= 1
  {
    var start := (page - 1) * MaxElementsInGrid + 1;
    (start, start + MaxElementsInGrid)
  }

  /** The page whose window holds the id. */
  function PageOf(id: int): int {
    (id - 1) / MaxElementsInGrid + 1
  }

  /** The pages tile the ids: every id lies in the window of exactly one page, and
      consecutive pages have adjacent windows. */
  lemma GridWindowsTile(id: int, page: int)
    ensures GridWindow(PageOf(id)).0 <= id < GridWindow(PageOf(id)).1
    ensures GridWindow(page).0 <= id < GridWindow(page).1 ==> page == PageOf(id)
    ensures GridWindow(page + 1).0 == GridWindow(page).1
  {
    var q := (id - 1) / MaxElementsInGrid;
    assert id - 1 == q * MaxElementsInGrid + (id - 1) % MaxElementsInGrid;
    if GridWindow(page).0 <= id < GridWindow(page).1 {
      var d := id - 1 - (page - 1) * MaxElementsInGrid;
      assert 0 <= d < MaxElementsInGrid;
    }
  }

  /** The records of a grid page: one per entry, in entry order, each holding the
      entry's base data with its official artwork as sprite and no extended data. */
  ghost predicate Built(ds: seq<PokemonCompactData>, es: seq<Entry>)
    reads ds
  {
    && |ds| == |es|
    && (forall k :: 0 <= k < |ds| ==> ds[k].baseData == Some(BaseDataOf(es[k], es[k].officialArtwork)))
    && (forall k :: 0 <= k < |ds| ==> ds[k].extendedData == None)
  }

  /** What the details panel receives for an entry's ability slots: one record per
      slot, in order, carrying the ability's name and its description. */
  function AbilitiesOf(remote: Remote, slots: seq<AbilitySlot>, language: string): seq<AbilityCompactData>
    decreases |slots|
  {
    if slots == [] then []
    else
      var s := slots[|slots| - 1];
      AbilitiesOf(remote, slots[..|slots| - 1], language)
        + [AbilityCompactData(s.abilityName, Description(remote, s.abilityName, language))]
  }

  lemma {:induction false} AbilitiesOfProjection(remote: Remote, slots: seq<AbilitySlot>, language: string)
    ensures |AbilitiesOf(remote, slots, language)| == |slots|
    ensures forall k :: 0 <= k < |slots| ==>
      AbilitiesOf(remote, slots, language)[k]
        == AbilityCompactData(slots[k].abilityName, Description(remote, slots[k].abilityName, language))
    decreases |slots|
  {
    if slots != [] {
      AbilitiesOfProjection(remote, slots[..|slots| - 1], language);
    }
  }

  /** How completing a record ends, given its base data: the fault it throws, if
      any, and the extended data it leaves behind. The extended data is reset to
      chain id 0 with no abilities before anything is fetched; the abilities are
      then filled in place, so a later fault leaves them there. A null entry or a
      null chain surfaces as a NullReferenceException. */
  ghost function ExtendedOutcome(remote: Remote, baseData: Option<PokemonBaseData>, language: string)
    : (Option<Fault>, PokemonExtendedData)
    requires Consistent(remote)
  {
    if baseData.None? || baseData.value.id !in remote.pokemonById then
      (Some(NullReference), PokemonExtendedData(0, []))
    else
      var entry := remote.pokemonById[baseData.value.id];
      var abilities := AbilitiesOf(remote, entry.abilities, language);
      match Resolve(remote, entry.speciesUrl)
      case Thrown(f) => (Some(f), PokemonExtendedData(0, abilities))
      case Done(None) => (Some(NullReference), PokemonExtendedData(0, abilities))
      case Done(Some(chain)) => (None, PokemonExtendedData(chain.evolutionId, abilities))
  }

  /** A record completed without a fault holds the id of a chain the service
      serves and resolves, namely the chain of the entry's species, and one
      ability record per ability slot of the entry, in order, named after the
      ability and described in the requested language. */
  lemma ExtendedOutcomeComplete(remote: Remote, baseData: Option<PokemonBaseData>, language: string)
    requires Consistent(remote)
    ensures var (fault, extended) := ExtendedOutcome(remote, baseData, language);
      fault.None? ==>
        && baseData.Some? && baseData.value.id in remote.pokemonById
        && var entry := remote.pokemonById[baseData.value.id];
           && Resolve(remote, entry.speciesUrl).Done?
           && Resolve(remote, entry.speciesUrl).value.Some?
           && Resolve(remote, entry.speciesUrl).value.value.evolutionId == extended.evolutionChainId
           && extended.evolutionChainId in remote.chains
           && ChainIds(remote, remote.chains[extended.evolutionChainId].chain).Some?
           && |extended.abilities| == |entry.abilities|
           && forall k :: 0 <= k < |entry.abilities| ==>
                extended.abilities[k]
                  == AbilityCompactData(entry.abilities[k].abilityName,
                                        Description(remote, entry.abilities[k].abilityName, language))
  {
    if baseData.Some? && baseData.value.id in remote.pokemonById {
      var entry := remote.pokemonById[baseData.value.id];
      AbilitiesOfProjection(remote, entry.abilities, language);
    }
  }

  /** The description requests of the ability slots, one per slot, in order. */
  function AbilityRequests(slots: seq<AbilitySlot>): seq<Request> {
    seq(|slots|, k requires 0 <= k < |slots| => AbilityByName(slots[k].abilityName))
  }

  /** What completing a record does to the controller's cache and log: the record's
      entry by id through the cache, one description request per ability slot, then
      the chain resolution of the entry's species; a null record or entry stops first. */
  function ExtendedFetch(remote: Remote, cache: seq<Entry>, memo: seq<EvolutionChainCompactData>,
                         log: seq<Request>, baseData: Option<PokemonBaseData>): (seq<Entry>, seq<Request>)
  {
    if baseData.None? then (cache, log)
    else
      var fetched := IdStep(remote, cache, log, baseData.value.id);
      if baseData.value.id !in remote.pokemonById then fetched
      else
        var entry := remote.pokemonById[baseData.value.id];
        ChainFetch(remote, fetched.0, memo, fetched.1 + AbilityRequests(entry.abilities), entry.speciesUrl)
  }

  /** The memo after completing a record: the chain of its entry's species, when the
      entry is served and the chain resolves to a new id. */
  function ExtendedMemo(remote: Remote, memo: seq<EvolutionChainCompactData>, baseData: Option<PokemonBaseData>)
    : seq<EvolutionChainCompactData>
    requires Consistent(remote)
  {
    if baseData.None? || baseData.value.id !in remote.pokemonById then memo
    else MemoAfter(remote, memo, remote.pokemonById[baseData.value.id].speciesUrl)
  }

  /** Completing a record caches its served entry, and with it every served species of
      the chain when the chain is new, keeping the cache good. */
  lemma ExtendedFetchCaches(remote: Remote, cache: seq<Entry>, memo: seq<EvolutionChainCompactData>,
                            log: seq<Request>, baseData: Option<PokemonBaseData>)
    requires GoodCache(remote, cache)
    ensures var s := ExtendedFetch(remote, cache, memo, log, baseData);
      && GoodCache(remote, s.0) && cache <= s.0 && log <= s.1
      && (baseData.Some? && baseData.value.id in remote.pokemonById ==>
            FindById(s.0, baseData.value.id) == Some(remote.pokemonById[baseData.value.id]))
  {
    if baseData.Some? {
      var id := baseData.value.id;
      var fetched := IdStep(remote, cache, log, id);
      IdStepCaches(remote, cache, log, id);
      if id in remote.pokemonById {
        var entry := remote.pokemonById[id];
        var lookedUp := fetched.1 + AbilityRequests(entry.abilities);
        var s := ExtendedFetch(remote, cache, memo, log, baseData);
        var document := ChainDocument(remote, entry.speciesUrl);
        if document.Done? && document.value.Some? && MemoLookup(memo, document.value.value.id).None? {
          ChainFillCaches(remote, fetched.0, lookedUp + LookupRequests(remote, entry.speciesUrl),
                          document.value.value.chain);
        } else {
          assert s.0 == fetched.0;
        }
        assert fetched.0 + s.0[|fetched.0|..] == s.0;
        FindByIdExtend(fetched.0, s.0[|fetched.0|..], id);
      }
    }
  }

  class PokemonGridBuilder {
    /** PokeAPIController.Instance. */
    const controller: PokeAPIController
    /** _pokemonsData: the records of the page built last. */
    var pokemonsData: seq<PokemonCompactData>

    constructor (controller: PokeAPIController)
      ensures this.controller == controller && pokemonsData == []
    {
      this.controller := controller;
      pokemonsData := [];
    }

    /** CreatePokemonsGrid: clears the records, fetches the page's window through
        the controller and builds one record per returned entry, in order. For a
        window the controller rejects, GetPokemons answers null and the foreach
        over it throws. */
    method CreatePokemonsGrid(page: int) returns (r: Outcome<seq<PokemonCompactData>>)
      requires controller.Valid()
      modifies this`pokemonsData, controller`pokemons, controller`maxPokemonCount, controller`requests
      ensures controller.Valid()
      ensures var (start, end) := GridWindow(page);
        (controller.pokemons, controller.requests)
        == RangeFill(controller.remote, old(controller.pokemons), old(controller.requests),
                     old(controller.maxPokemonCount), start, end)
      ensures controller.maxPokemonCount == controller.remote.count
      ensures controller.evolutionChains == old(controller.evolutionChains)
      ensures controller.pokemonNames == old(controller.pokemonNames)
      ensures var (start, end) := GridWindow(page);
        && (r.Thrown? <==> !(1 <= start && end <= controller.remote.count))
        && (r.Thrown? ==> r.fault == NullReference && pokemonsData == [])
        && (r.Done? ==> r.value == pokemonsData && Built(pokemonsData, RangeEntries(controller.remote, start, end)))
      ensures NoDup(pokemonsData)
    {
      pokemonsData := [];
      var (startIndex, endIndex) := GridWindow(page);
      var pokemons := controller.GetPokemons(startIndex, endIndex);
      if pokemons.None? {
        return Thrown(NullReference);
      }
      AddRecords(pokemons.value);
      return Done(pokemonsData);
    }

    /** The foreach of CreatePokemonsGrid: one new record per entry, in order,
        appended to the cleared records. */
    method AddRecords(pokemons: seq<Entry>)
      requires pokemonsData == []
      modifies this`pokemonsData
      ensures Built(pokemonsData, pokemons)
      ensures NoDup(pokemonsData)
    {
      for k := 0 to |pokemons|
        invariant Built(pokemonsData, pokemons[..k])
        invariant NoDup(pokemonsData)
      {
        assert pokemons[..k + 1] == pokemons[..k] + [pokemons[k]];
        var pokemonData := AddRecord(pokemons[k], pokemons[..k]);
      }
      assert pokemons[..|pokemons|] == pokemons;
    }

    /** One pass of the foreach of CreatePokemonsGrid: a new record for the entry
        follows the records built so far, which stay as they are. */
    method AddRecord(pokemon: Entry, ghost done: seq<Entry>) returns (pokemonData: PokemonCompactData)
      requires Built(pokemonsData, done) && NoDup(pokemonsData)
      modifies this`pokemonsData
      ensures fresh(pokemonData) && pokemonsData == old(pokemonsData) + [pokemonData]
      ensures Built(pokemonsData, done + [pokemon]) && NoDup(pokemonsData)
    {
      ghost var before := pokemonsData;
      pokemonData := InitPokemonBaseData(pokemon);
      NoDupSnoc(before, pokemonData);
    }

    /** InitPokemonBaseData: a new record holding the entry's base data, with its
        official artwork as sprite, appended to the page's records. */
    method InitPokemonBaseData(pokemon: Entry) returns (pokemonData: PokemonCompactData)
      modifies this`pokemonsData
      ensures fresh(pokemonData)
      ensures pokemonsData == old(pokemonsData) + [pokemonData]
      ensures pokemonData.baseData == Some(BaseDataOf(pokemon, pokemon.officialArtwork))
      ensures pokemonData.extendedData == None
    {
      var spriteUrl := pokemon.officialArtwork;
      pokemonData := new PokemonCompactData();
      pokemonData.InitPokemonBaseData(pokemon, spriteUrl);
      pokemonsData := pokemonsData + [pokemonData];
    }

    /** InitPokemonExtendedData: completes a record of the current page with the
        descriptions of its entry's abilities, fetched one by one, and the id of
        its evolution chain. A record not on the page makes First throw and is
        left untouched. */
    method InitPokemonExtendedData(pokemonData: PokemonCompactData, language: string)
      returns (r: Outcome<PokemonCompactData>)
      requires controller.Valid()
      modifies pokemonData, controller`pokemons, controller`evolutionChains, controller`requests
      ensures controller.Valid()
      ensures controller.pokemonNames == old(controller.pokemonNames)
      ensures controller.maxPokemonCount == old(controller.maxPokemonCount)
      ensures pokemonData !in pokemonsData ==>
        && controller.pokemons == old(controller.pokemons) && controller.requests == old(controller.requests)
        && controller.evolutionChains == old(controller.evolutionChains)
      ensures pokemonData in pokemonsData ==>
        && (controller.pokemons, controller.requests)
           == ExtendedFetch(controller.remote, old(controller.pokemons), old(controller.evolutionChains),
                            old(controller.requests), old(pokemonData.baseData))
        && controller.evolutionChains
           == ExtendedMemo(controller.remote, old(controller.evolutionChains), old(pokemonData.baseData))
      ensures pokemonData !in pokemonsData ==>
        r == Thrown(InvalidOperation) && pokemonData.extendedData == old(pokemonData.extendedData)
      ensures pokemonData in pokemonsData ==>
        var (fault, extended) := ExtendedOutcome(controller.remote, pokemonData.baseData, language);
        && pokemonData.extendedData == Some(extended)
        && (fault.Some? ==> r == Thrown(fault.value))
        && (fault.None? ==> r == Done(pokemonData))
      ensures pokemonData.baseData == old(pokemonData.baseData)
    {
      if pokemonData !in pokemonsData {
        return Thrown(InvalidOperation);
      }
      r := CompleteRecord(pokemonData, language);
    }

    /** The body of InitPokemonExtendedData once First has found the record: the
        extended data starts empty, the entry is fetched by id, its abilities are
        described one by one and its species' chain is resolved; a null base data,
        entry or chain throws NullReference. */
    method CompleteRecord(pokemonData: PokemonCompactData, language: string)
      returns (r: Outcome<PokemonCompactData>)
      requires controller.Valid()
      modifies pokemonData, controller`pokemons, controller`evolutionChains, controller`requests
      ensures controller.Valid()
      ensures (controller.pokemons, controller.requests)
           == ExtendedFetch(controller.remote, old(controller.pokemons), old(controller.evolutionChains),
                            old(controller.requests), old(pokemonData.baseData))
      ensures controller.evolutionChains
           == ExtendedMemo(controller.remote, old(controller.evolutionChains), old(pokemonData.baseData))
      ensures var (fault, extended) := ExtendedOutcome(controller.remote, pokemonData.baseData, language);
        && pokemonData.extendedData == Some(extended)
        && (fault.Some? ==> r == Thrown(fault.value))
        && (fault.None? ==> r == Done(pokemonData))
      ensures pokemonData.baseData == old(pokemonData.baseData)
    {
      var pokemonCompactData := pokemonData;
      pokemonCompactData.extendedData := Some(PokemonExtendedData(0, []));
      if pokemonData.baseData.None? {
        return Thrown(NullReference);
      }
      var pokemonId := pokemonData.baseData.value.id;
      ghost var memo := controller.evolutionChains;
      ghost var fetched := IdStep(controller.remote, controller.pokemons, controller.requests, pokemonId);
      var pokemon := controller.GetPokemonById(pokemonId);
      assert (controller.pokemons, controller.requests) == fetched;
      if pokemon.None? {
        return Thrown(NullReference);
      }
      var abilities := DescribeAbilities(pokemonCompactData, pokemon.value.abilities, language);
      assert controller.requests == fetched.1 + AbilityRequests(pokemon.value.abilities);
      var evolutionChain := controller.GetPokemonEvolutionChain(pokemon.value.speciesUrl);
      assert (controller.pokemons, controller.requests)
          == ChainFetch(controller.remote, fetched.0, memo, fetched.1 + AbilityRequests(pokemon.value.abilities),
                        pokemon.value.speciesUrl);
      if evolutionChain.Thrown? {
        return Thrown(evolutionChain.fault);
      }
      if evolutionChain.value.None? {
        return Thrown(NullReference);
      }
      pokemonData.InitPokemonExtendedData(evolutionChain.value.value.evolutionId, abilities);
      return Done(pokemonData);
    }

    /** The foreach of InitPokemonExtendedData: one description request per ability
        slot, in order, each record added to the abilities list that the record's
        extended data already holds. */
    method DescribeAbilities(pokemonCompactData: PokemonCompactData, slots: seq<AbilitySlot>, language: string)
      returns (abilities: seq<AbilityCompactData>)
      requires pokemonCompactData.extendedData == Some(PokemonExtendedData(0, []))
      modifies pokemonCompactData, controller`requests
      ensures abilities == AbilitiesOf(controller.remote, slots, language)
      ensures controller.requests == old(controller.requests) + AbilityRequests(slots)
      ensures pokemonCompactData.extendedData == Some(PokemonExtendedData(0, abilities))
      ensures pokemonCompactData.baseData == old(pokemonCompactData.baseData)
    {
      abilities := [];
      for k := 0 to |slots|
        invariant abilities == AbilitiesOf(controller.remote, slots[..k], language)
        invariant controller.requests == old(controller.requests) + AbilityRequests(slots[..k])
        invariant pokemonCompactData.extendedData == Some(PokemonExtendedData(0, abilities))
        invariant pokemonCompactData.baseData == old(pokemonCompactData.baseData)
      {
        var slot := slots[k];
        var descriptionUrl := controller.GetAbilityDescription(slot.abilityName, language);
        assert slots[..k + 1][..k] == slots[..k];
        assert AbilityRequests(slots[..k + 1]) == AbilityRequests(slots[..k]) + [AbilityByName(slot.abilityName)];
        abilities := abilities + [AbilityCompactData(slot.abilityName, descriptionUrl)];
        pokemonCompactData.extendedData := Some(PokemonExtendedData(0, abilities));
      }
      assert slots[..|slots|] == slots;
    }
  }
}
