/** PokeAPIController.cs: the catalog cache and resolution layer. It caches fetched
    entries (append-only), validates and fetches id ranges, prefetches pages ahead
    of the user, searches the name index by prefix, and resolves evolution chains,
    memoised by chain id. The remote service is the oracle `remote`; every call made
    to it is recorded in the ghost log `requests`. */
module Controller {
  import opened Wrappers
  import opened Sequences
  import opened Text
  import opened PokeApi
  import opened CompactData
  import opened Catalog

  class PokeAPIController {
    /** The remote service (PokeApiClient). */
    const remote: Remote
    /** The entry cache, in insertion order; it only ever grows. */
    var pokemons: seq<Entry>
    /** The name index, loaded once by Initialize. */
    var pokemonNames: seq<string>
    /** The memo of resolved evolution chains. */
    var evolutionChains: seq<EvolutionChainCompactData>
    /** The total number of entries, 0 until it has been fetched. */
    var maxPokemonCount: int
    /** Every call made to the remote service, in order. */
    ghost var requests: seq<Request>

    ghost predicate Valid()
      reads this`pokemons, this`pokemonNames, this`evolutionChains, this`maxPokemonCount
    {
      && Consistent(remote)
      && CacheAgrees(remote, pokemons)
      && UniqueNames(pokemons)
      && MemoAgrees(remote, evolutionChains)
      && NoDup(pokemonNames)
      && (maxPokemonCount == 0 || maxPokemonCount == remote.count)
    }

    constructor (remote: Remote)
      requires Consistent(remote)
      ensures Valid() && this.remote == remote
      ensures pokemons == [] && pokemonNames == [] && evolutionChains == []
      ensures maxPokemonCount == 0 && requests == []
    {
      this.remote := remote;
      pokemons := [];
      pokemonNames := [];
      evolutionChains := [];
      maxPokemonCount := 0;
      requests := [];
    }

    /** Initialize / FetchAllPokemonNames: loads the name index from one page of
        10000 names. */
    method Initialize()
      requires Valid()
      modifies this`pokemonNames, this`requests
      ensures Valid()
      ensures pokemonNames == remote.names
      ensures requests == old(requests) + [NamedPage(10000, 0)]
    {
      requests := requests + [NamedPage(10000, 0)];
      pokemonNames := remote.names;
    }

    /** GetPokemonCount: the total reported by a one-element page. */
    method GetPokemonCount() returns (count: int)
      modifies this`requests
      ensures count == remote.count
      ensures requests == old(requests) + [NamedPage(1, 0)]
    {
      requests := requests + [NamedPage(1, 0)];
      count := remote.count;
    }

    /** GetPokemon(int): a cache hit is returned with no remote call; on a miss the
        service is asked once and a non-null answer is appended to the cache. Either
        way the caller gets what the service holds under `id`. */
    method GetPokemonById(id: int) returns (r: Option<Entry>)
      requires Valid()
      modifies this`pokemons, this`requests
      ensures Valid()
      ensures r == Get(remote.pokemonById, id)
      ensures FindById(old(pokemons), id).Some? ==> pokemons == old(pokemons) && requests == old(requests)
      ensures FindById(old(pokemons), id).None? ==>
        pokemons == old(pokemons) + AsSeq(r) && requests == old(requests) + [PokemonById(id)]
      ensures r.Some? ==> FindById(pokemons, id) == r
      ensures old(pokemons) <= pokemons && old(requests) <= requests
    {
      var cached := FindById(pokemons, id);
      if cached.Some? {
        CacheAgreesMember(remote, pokemons, cached.value);
        return cached;
      }
      requests := requests + [PokemonById(id)];
      r := Get(remote.pokemonById, id);
      if r.Some? {
        MissByIdMissByName(remote, pokemons, id);
        AppendKeepsCache(remote, pokemons, r.value);
        FindByIdAppend(pokemons, r.value, id);
        pokemons := pokemons + [r.value];
      }
    }

    /** ValidateRange: fetches the total count only while it is still 0, then
        rejects exactly the ranges with start < 1 or end > count. */
    method ValidateRange(startIndex: int, endIndex: int) returns (ok: bool)
      requires Valid()
      modifies this`maxPokemonCount, this`requests
      ensures Valid()
      ensures maxPokemonCount == remote.count
      ensures requests == old(requests) + (if old(maxPokemonCount) == 0 then [NamedPage(1, 0)] else [])
      ensures ok <==> 1 <= startIndex && endIndex <= remote.count
    {
      if maxPokemonCount == 0 {
        maxPokemonCount := GetPokemonCount();
      }
      if startIndex < 1 || endIndex > maxPokemonCount {
        return false;
      }
      return true;
    }

    /** GetPokemons: null for an invalid range, with no entry requested; otherwise
        the entries for ids startIndex .. endIndex-1, fetched one by one through the
        cache in ascending order, null answers skipped. */
    method GetPokemons(startIndex: int, endIndex: int) returns (r: Option<seq<Entry>>)
      requires Valid()
      modifies this`pokemons, this`maxPokemonCount, this`requests
      ensures Valid()
      ensures r == if 1 <= startIndex && endIndex <= remote.count
                   then Some(RangeEntries(remote, startIndex, endIndex)) else None
      ensures r.None? ==>
        (pokemons == old(pokemons)
         && requests == old(requests) + (if old(maxPokemonCount) == 0 then [NamedPage(1, 0)] else []))
      ensures (pokemons, requests)
           == RangeFill(remote, old(pokemons), old(requests), old(maxPokemonCount), startIndex, endIndex)
      ensures old(pokemons) <= pokemons && old(requests) <= requests
      ensures maxPokemonCount == remote.count
    {
      var isRangeValid := ValidateRange(startIndex, endIndex);
      if !isRangeValid {
        return None;
      }
      var pokemonList: seq<Entry> := [];
      var id := startIndex;
      while id < endIndex
        invariant startIndex <= id
        invariant Valid() && maxPokemonCount == remote.count
        invariant pokemonList + RangeEntries(remote, id, endIndex) == RangeEntries(remote, startIndex, endIndex)
        invariant IdsFill(remote, pokemons, requests, id, endIndex)
               == IdsFill(remote, old(pokemons), old(requests) + CountRequest(old(maxPokemonCount)), startIndex, endIndex)
        invariant old(pokemons) <= pokemons && old(requests) <= requests
      {
        ghost var before := pokemonList;
        ghost var (cache, log) := (pokemons, requests);
        var pokemon := GetPokemonById(id);
        assert (pokemons, requests) == IdStep(remote, cache, log, id);
        if pokemon.Some? {
          pokemonList := pokemonList + [pokemon.value];
        }
        assert pokemonList == before + AsSeq(pokemon);
        RangeEntriesStep(remote, before, id, endIndex);
        id := id + 1;
      }
      assert RangeEntries(remote, id, endIndex) == [];
      assert pokemonList + [] == pokemonList;
      return Some(pokemonList);
    }

    /** FetchPokemonsOnAnotherThread, run sequentially: refreshes the count, then
        fetches one window per batch, moving one page forward per batch, for
        PlannedBatches batches or until the token is observed after a batch.
        `gridSize` is Common.maxPokemonsInGrid and `maxPages`
        Common.maxPagesToFetchOnOneRequest. Returns the windows fetched, in order. */
    method FetchPokemonsOnAnotherThread(page: int, gridSize: int, maxPages: int, token: Token)
      returns (windows: seq<(int, int)>)
      requires Valid()
      modifies this`pokemons, this`maxPokemonCount, this`requests
      ensures Valid()
      ensures |windows| == BatchesRun(PlannedBatches(page, gridSize, maxPages, remote.count), token)
      ensures windows == PrefetchWindows(page, |windows|, gridSize, remote.count)
      ensures (pokemons, requests) == WindowsFill(remote, old(pokemons), old(requests) + [NamedPage(1, 0)], windows)
      ensures old(pokemons) <= pokemons && old(requests) <= requests
      ensures maxPokemonCount == remote.count
    {
      maxPokemonCount := GetPokemonCount();
      var currentPage := page;
      var startIndex, endIndex := PrefetchWindow(currentPage, gridSize, maxPokemonCount).0,
                                  PrefetchWindow(currentPage, gridSize, maxPokemonCount).1;
      var pokemonsLeft := Min(gridSize * maxPages, endIndex - startIndex);
      ghost var planned := pokemonsLeft;
      assert planned == PlannedBatches(page, gridSize, maxPages, remote.count);
      windows := [];
      while pokemonsLeft > 0
        invariant Valid() && maxPokemonCount == remote.count
        invariant currentPage == page + |windows|
        invariant (startIndex, endIndex) == PrefetchWindow(currentPage, gridSize, remote.count)
        invariant pokemonsLeft == planned - |windows|
        invariant |windows| <= (if planned < 0 then 0 else planned)
        invariant windows == PrefetchWindows(page, |windows|, gridSize, remote.count)
        invariant token.RaisedBefore? ==> token.checks >= |windows|
        invariant (pokemons, requests) == WindowsFill(remote, old(pokemons), old(requests) + [NamedPage(1, 0)], windows)
        invariant old(pokemons) <= pokemons && old(requests) <= requests
      {
        var pokemonsBatch := GetPokemons(startIndex, endIndex);
        WindowsFillSnoc(remote, old(pokemons), old(requests) + [NamedPage(1, 0)], windows, (startIndex, endIndex));
        windows := windows + [(startIndex, endIndex)];
        currentPage := currentPage + 1;
        startIndex, endIndex := PrefetchWindow(currentPage, gridSize, maxPokemonCount).0,
                                PrefetchWindow(currentPage, gridSize, maxPokemonCount).1;
        pokemonsLeft := pokemonsLeft - 1;
        if token.ObservedAt(|windows| - 1) {
          break;
        }
      }
    }

    /** GetPokemon(string): as GetPokemonById, keyed by name. */
    method GetPokemonByName(name: string) returns (r: Option<Entry>)
      requires Valid()
      modifies this`pokemons, this`requests
      ensures Valid()
      ensures r == Get(remote.pokemonByName, name)
      ensures FindByName(old(pokemons), name).Some? ==> pokemons == old(pokemons) && requests == old(requests)
      ensures FindByName(old(pokemons), name).None? ==>
        pokemons == old(pokemons) + AsSeq(r) && requests == old(requests) + [PokemonByName(name)]
      ensures r.Some? ==> FindByName(pokemons, name) == r
      ensures old(pokemons) <= pokemons && old(requests) <= requests
    {
      var cached := FindByName(pokemons, name);
      if cached.Some? {
        CachedEntryByName(remote, pokemons, cached.value);
        return cached;
      }
      requests := requests + [PokemonByName(name)];
      r := Get(remote.pokemonByName, name);
      if r.Some? {
        AppendKeepsCache(remote, pokemons, r.value);
        FindByNameAppend(pokemons, r.value, name);
        pokemons := pokemons + [r.value];
      }
    }

    /** GetPokemonEvolutionChain(int): the memoised chain with this id, if any; no
        remote call and no state change. */
    function GetPokemonEvolutionChainById(evolutionId: int): (r: Option<EvolutionChainCompactData>)
      reads this
      ensures r.Some? ==> r.value in evolutionChains && r.value.evolutionId == evolutionId
      ensures r.None? ==> forall c {:trigger c in evolutionChains} :: c in evolutionChains ==> c.evolutionId != evolutionId
      ensures Valid() && r.Some? ==>
        evolutionId in remote.chains
        && ChainIds(remote, remote.chains[evolutionId].chain) == Some(r.value.evolutionElementsIds)
    {
      MemoLookupMisses(evolutionChains, evolutionId);
      MemoLookup(evolutionChains, evolutionId)
    }

    /** GetPokemonEvolutionChain(string): resolves the chain of the species at
        `speciesUrl`. An already memoised chain id is answered from the memo, which
        gives the same value as resolving afresh; a null species, chain or root
        memoises nothing. */
    method GetPokemonEvolutionChain(speciesUrl: string) returns (r: Outcome<Option<EvolutionChainCompactData>>)
      requires Valid()
      modifies this`pokemons, this`evolutionChains, this`requests
      ensures Valid()
      ensures r == Resolve(remote, speciesUrl)
      ensures evolutionChains == MemoAfter(remote, old(evolutionChains), speciesUrl)
      ensures (pokemons, requests) == ChainFetch(remote, old(pokemons), old(evolutionChains), old(requests), speciesUrl)
      ensures r.Done? && r.value.Some? ==> MemoLookup(evolutionChains, r.value.value.evolutionId) == r.value
      ensures old(requests) + LookupRequests(remote, speciesUrl) <= requests && old(pokemons) <= pokemons
      ensures r.Done? && r.value.Some? && MemoLookup(old(evolutionChains), r.value.value.evolutionId).Some? ==>
        requests == old(requests) + LookupRequests(remote, speciesUrl) && pokemons == old(pokemons)
    {
      var document := FetchChainDocument(speciesUrl);
      if document.Thrown? {
        return Thrown(document.fault);
      }
      if document.value.None? {
        return Done(None);
      }
      var evolutionChain := document.value.value;
      var evolutionId := evolutionChain.id;
      var evolutionChainData := MemoLookup(evolutionChains, evolutionId);
      if evolutionChainData.Some? {
        return Done(evolutionChainData);
      }
      evolutionChainData := MemoiseChain(evolutionId, evolutionChain.chain);
      if evolutionChainData.Some? {
        MemoLookupAppend(old(evolutionChains), evolutionChainData.value, evolutionId);
      }
      return Done(evolutionChainData);
    }

    /** The first half of GetPokemonEvolutionChain(string): the species request and,
        for a served species whose chain URL parses, the chain request. */
    method FetchChainDocument(speciesUrl: string) returns (r: Outcome<Option<EvolutionChain>>)
      modifies this`requests
      ensures r == ChainDocument(remote, speciesUrl)
      ensures requests == old(requests) + LookupRequests(remote, speciesUrl)
    {
      var speciesId := SegmentId(speciesUrl);
      if speciesId.None? {
        return Thrown(FormatError);
      }
      requests := requests + [SpeciesById(speciesId.value)];
      var species := Get(remote.species, speciesId.value);
      if species.None? {
        return Done(None);
      }
      var evolutionChainId := SegmentId(species.value.evolutionChainUrl);
      if evolutionChainId.None? {
        return Thrown(FormatError);
      }
      requests := requests + [ChainById(evolutionChainId.value)];
      return Done(Get(remote.chains, evolutionChainId.value));
    }

    /** The second half of GetPokemonEvolutionChain(string), once the chain document
        is known and its id is not memoised: the root's entry is fetched through the
        cache (null aborts with nothing memoised), the walk collects the rest, and the
        completed chain is memoised. */
    method MemoiseChain(evolutionId: int, chain: ChainLink) returns (r: Option<EvolutionChainCompactData>)
      requires Valid()
      requires evolutionId in remote.chains && remote.chains[evolutionId].chain == chain
      modifies this`pokemons, this`evolutionChains, this`requests
      ensures Valid()
      ensures r.Some? <==> ChainIds(remote, chain).Some?
      ensures r.Some? ==> r.value == EvolutionChainCompactData(evolutionId, ChainIds(remote, chain).value)
      ensures evolutionChains == old(evolutionChains) + AsSeq(r)
      ensures (pokemons, requests) == ChainFill(remote, old(pokemons), old(requests), chain)
      ensures old(pokemons) <= pokemons && old(requests) <= requests
    {
      var pokemon := GetPokemonByName(chain.speciesName);
      if pokemon.None? {
        return None;
      }
      var ids := WalkChain(pokemon.value.id, chain);
      r := Some(EvolutionChainCompactData(evolutionId, ids));
      MemoAppendAgrees(remote, evolutionChains, r.value);
      evolutionChains := evolutionChains + [r.value];
    }

    /** The do-while walk of GetPokemonEvolutionChain(string): starting from the
        root's id, follows EvolvesTo[0] until a link has no successor, fetching each
        species' entry through the cache and keeping the ids of the non-null ones. */
    method WalkChain(rootId: int, chain: ChainLink) returns (ids: seq<int>)
      requires Valid()
      modifies this`pokemons, this`requests
      ensures Valid()
      ensures ids == [rootId] + ChainTail(remote, chain)
      ensures (pokemons, requests) == NamesFill(remote, old(pokemons), old(requests), FirstBranch(chain))
      ensures old(pokemons) <= pokemons && old(requests) <= requests
    {
      ids := [rootId];
      var link := chain;
      if link.evolvesTo == [] {
        return;
      }
      while link.evolvesTo != []
        invariant Valid()
        invariant ids + ChainTail(remote, link) == [rootId] + ChainTail(remote, chain)
        invariant NamesFill(remote, pokemons, requests, FirstBranch(link))
               == NamesFill(remote, old(pokemons), old(requests), FirstBranch(chain))
        invariant old(pokemons) <= pokemons && old(requests) <= requests
        decreases link
      {
        var next := link.evolvesTo[0];
        ghost var before := ids;
        ghost var (cache, log) := (pokemons, requests);
        var pokemon := GetPokemonByName(next.speciesName);
        assert (pokemons, requests) == NameStep(remote, cache, log, next.speciesName);
        assert FirstBranch(link)[1..] == FirstBranch(next);
        if pokemon.Some? {
          ids := ids + [pokemon.value.id];
        }
        assert ids == before + NameIds(remote, next.speciesName);
        ChainTailStep(remote, before, link);
        link := next;
      }
      assert ids + [] == ids;
    }

    /** FindPokemonsStartingWith: the matching names of the index (case-insensitive
        prefix, index order); null when there is none; the cached entries of the
        matched names when every one is cached; otherwise those followed by the
        service's entries of the missing names, fetched one by one in index order.
        The token is checked on entry, before fetching starts and before each
        fetch; once it is observed the search throws, keeping what it fetched. */
    method FindPokemonsStartingWith(name: string, token: Token) returns (r: Outcome<Option<seq<Entry>>>)
      requires Valid()
      modifies this`pokemons, this`requests
      ensures Valid()
      ensures var found := Matches(pokemonNames, name);
              var missing := Missing(old(pokemons), found);
              var fetches := SearchFetches(found, missing, token);
              && (r.Thrown? <==> token.RaisedBefore? && token.checks < SearchChecks(found, missing))
              && (r.Thrown? ==> r.fault == OperationCanceled)
              && (r.Done? ==> r.value == if found == [] then None
                                         else Some(CachedMatches(old(pokemons), found) + Fetched(remote, missing)))
              && pokemons == old(pokemons) + Fetched(remote, missing[..fetches])
              && requests == old(requests) + NameRequests(missing[..fetches])
    {
      if token.ObservedAt(0) {
        return Thrown(OperationCanceled);
      }
      var foundNames := Filter(pokemonNames, MatchesQuery(name));
      if foundNames == [] {
        return Done(None);
      }
      var foundPokemons := Filter(pokemons, NamedIn(foundNames));
      FilterNoDup(pokemonNames, MatchesQuery(name));
      AllCachedIffCountsMatch(pokemons, foundNames);
      ghost var missing := Missing(pokemons, foundNames);
      if |foundNames| == |foundPokemons| {
        assert missing[..0] == [] && foundPokemons + Fetched(remote, missing) == foundPokemons;
        return Done(Some(foundPokemons));
      }
      if token.ObservedAt(1) {
        assert missing[..0] == [];
        return Thrown(OperationCanceled);
      }
      var fetched := FetchMissing(foundNames, foundPokemons, token);
      if fetched.Thrown? {
        return Thrown(fetched.fault);
      }
      return Done(Some(foundPokemons + fetched.value));
    }

    /** The foreach of FindPokemonsStartingWith, entered once the first two checks
        have passed and some matched name is not cached: each matched name without a
        cached match is fetched through the cache, in index order, after a check of
        the token; the non-null answers are collected in order. */
    method FetchMissing(foundNames: seq<string>, foundPokemons: seq<Entry>, token: Token)
      returns (r: Outcome<seq<Entry>>)
      requires Valid()
      requires NoDup(foundNames) && foundPokemons == CachedMatches(pokemons, foundNames)
      requires Missing(pokemons, foundNames) != [] && !token.ObservedAt(1)
      modifies this`pokemons, this`requests
      ensures Valid()
      ensures var missing := Missing(old(pokemons), foundNames);
              var fetches := SearchFetches(foundNames, missing, token);
              && (r.Thrown? <==> token.RaisedBefore? && token.checks < SearchChecks(foundNames, missing))
              && (r.Thrown? ==> r.fault == OperationCanceled)
              && (r.Done? ==> r.value == Fetched(remote, missing))
              && pokemons == old(pokemons) + Fetched(remote, missing[..fetches])
              && requests == old(requests) + NameRequests(missing[..fetches])
    {
      ghost var missing := Missing(pokemons, foundNames);
      var cancelled, pokemonsToFetch, fetchedNames, i := VisitMatches(foundNames, foundPokemons, token);
      if cancelled {
        CancelledFetches(foundNames, missing, fetchedNames, foundNames[i], token);
        return Thrown(OperationCanceled);
      }
      assert foundNames[..|foundNames|] == foundNames;
      CompletedFetches(foundNames, missing, token);
      return Done(pokemonsToFetch);
    }

    /** The foreach of FindPokemonsStartingWith: visits the matched names in order
        until a check of the token observes the cancellation (at the i-th name) or
        every name is visited. */
    method VisitMatches(foundNames: seq<string>, foundPokemons: seq<Entry>, token: Token)
      returns (cancelled: bool, pokemonsToFetch: seq<Entry>, ghost fetchedNames: seq<string>, i: nat)
      requires Valid()
      requires NoDup(foundNames) && foundPokemons == CachedMatches(pokemons, foundNames)
      requires !token.ObservedAt(1)
      modifies this`pokemons, this`requests
      ensures Valid()
      ensures Visited(old(pokemons), old(requests), foundNames, foundPokemons, i, token, 2 + |fetchedNames|,
                      fetchedNames, pokemonsToFetch)
      ensures cancelled ==>
        && i < |foundNames| && token.ObservedAt(2 + |fetchedNames|)
        && fetchedNames + [foundNames[i]] <= Missing(old(pokemons), foundNames)
      ensures !cancelled ==> i == |foundNames|
    {
      pokemonsToFetch, fetchedNames := [], [];
      var checks := 2;
      i := 0;
      while i < |foundNames|
        invariant Valid()
        invariant Visited(old(pokemons), old(requests), foundNames, foundPokemons, i, token, checks, fetchedNames, pokemonsToFetch)
      {
        cancelled, pokemonsToFetch, checks, fetchedNames :=
          VisitMatch(old(pokemons), old(requests), foundNames, foundPokemons, i, token, checks, fetchedNames, pokemonsToFetch);
        if cancelled {
          return;
        }
        i := i + 1;
      }
      cancelled := false;
    }

    /** The state of the foreach of FindPokemonsStartingWith after the first i
        matched names: the names fetched so far are the missing ones among them,
        their entries were collected and appended to the cache and their requests
        logged, and the check made before each fetch passed. */
    ghost predicate Visited(base: seq<Entry>, log: seq<Request>, foundNames: seq<string>, foundPokemons: seq<Entry>,
                            i: nat, token: Token, checks: int, fetchedNames: seq<string>, collected: seq<Entry>)
      reads this
    {
      && i <= |foundNames|
      && fetchedNames == Filter(foundNames[..i], NotCachedIn(foundPokemons))
      && collected == Fetched(remote, fetchedNames) && pokemons == base + collected
      && requests == log + NameRequests(fetchedNames)
      && checks == 2 + |fetchedNames| && !token.ObservedAt(checks - 1)
    }

    /** One pass of the foreach of FindPokemonsStartingWith over the i-th matched
        name: a name with a cached match is skipped; otherwise the token is checked
        (an observed cancellation ends the search) and the name is fetched through
        the cache, which misses, a non-null answer being collected after the
        entries fetched so far. */
    method VisitMatch(ghost base: seq<Entry>, ghost log: seq<Request>, foundNames: seq<string>,
                      foundPokemons: seq<Entry>, i: nat, token: Token, checks: nat,
                      ghost fetchedNames: seq<string>, collected: seq<Entry>)
      returns (cancelled: bool, collected': seq<Entry>, checks': nat, ghost fetchedNames': seq<string>)
      requires Valid() && i < |foundNames| && NoDup(foundNames)
      requires foundPokemons == CachedMatches(base, foundNames)
      requires Visited(base, log, foundNames, foundPokemons, i, token, checks, fetchedNames, collected)
      modifies this`pokemons, this`requests
      ensures Valid()
      ensures cancelled ==>
        && token.ObservedAt(checks) && pokemons == old(pokemons) && requests == old(requests)
        && checks' == checks && fetchedNames' == fetchedNames && collected' == collected
        && fetchedNames + [foundNames[i]] <= Missing(base, foundNames)
      ensures !cancelled ==> Visited(base, log, foundNames, foundPokemons, i + 1, token, checks', fetchedNames', collected')
    {
      var pokemonName := foundNames[i];
      SearchStep(foundNames, i, foundPokemons);
      cancelled, collected', checks', fetchedNames' := false, collected, checks, fetchedNames;
      if FindByName(foundPokemons, pokemonName).None? {
        if token.ObservedAt(checks) {
          return true, collected, checks, fetchedNames;
        }
        NoDupNotBefore(foundNames, i);
        SearchMiss(remote, base, foundNames, fetchedNames, pokemonName);
        var pokemon := GetPokemonByName(pokemonName);
        collected' := collected + AsSeq(pokemon);
        AppendAssoc(base, collected, AsSeq(pokemon));
        AppendAssoc(log, NameRequests(fetchedNames), [PokemonByName(pokemonName)]);
        FetchedSnoc(remote, fetchedNames, pokemonName);
        fetchedNames' := fetchedNames + [pokemonName];
        checks' := checks + 1;
      }
    }

    /** GetAbilityDescription: one request for the ability; its effect text in
        `language` (Common.language), or the empty string when the service has no
        such ability or no entry in that language. */
    method GetAbilityDescription(abilityName: string, language: string) returns (r: string)
      modifies this`requests
      ensures requests == old(requests) + [AbilityByName(abilityName)]
      ensures r == Description(remote, abilityName, language)
    {
      requests := requests + [AbilityByName(abilityName)];
      var ability := Get(remote.abilities, abilityName);
      if ability.None? {
        return "";
      }
      return EffectIn(ability.value.effectEntries, language);
    }
  }
}
