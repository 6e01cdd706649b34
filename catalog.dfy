/** The specification side of PokeAPIController.cs: lookups over the entry cache,
    what the service returns for an id range, the prefetch windows, the name
    search and the evolution-chain walk, each as a function over the remote
    service's contents, with the lemmas the controller's methods rely on. */
module Catalog {
  import opened Wrappers
  import opened Sequences
  import opened Text
  import opened PokeApi
  import opened CompactData

  // ----- Cache lookups (Enumerable.FirstOrDefault over the cache) -----

  /** The first cached entry with the given id: the earlier entries' answer if they
      have one, otherwise the last entry when it carries the id. */
  function FindById(cache: seq<Entry>, id: int): (r: Option<Entry>)
    ensures r.Some? ==> r.value in cache && r.value.id == id
    decreases |cache|
  {
    if cache == [] then None
    else
      var earlier := FindById(cache[..|cache| - 1], id);
      if earlier.Some? then earlier
      else if cache[|cache| - 1].id == id then Some(cache[|cache| - 1])
      else None
  }

  /** The first cached entry with the given name, built as FindById. */
  function FindByName(cache: seq<Entry>, name: string): (r: Option<Entry>)
    ensures r.Some? ==> r.value in cache && r.value.name == name
    decreases |cache|
  {
    if cache == [] then None
    else
      var earlier := FindByName(cache[..|cache| - 1], name);
      if earlier.Some? then earlier
      else if cache[|cache| - 1].name == name then Some(cache[|cache| - 1])
      else None
  }

  /** The lookup by id misses exactly when no cached entry has that id. */
  lemma {:induction false} FindByIdMisses(cache: seq<Entry>, id: int)
    ensures FindById(cache, id).None? <==> forall e {:trigger e in cache} :: e in cache ==> e.id != id
    decreases |cache|
  {
    if cache != [] {
      var earlier := cache[..|cache| - 1];
      FindByIdMisses(earlier, id);
      assert cache == earlier + [cache[|cache| - 1]];
    }
  }

  /** The lookup by name misses exactly when no cached entry has that name. */
  lemma {:induction false} FindByNameMisses(cache: seq<Entry>, name: string)
    ensures FindByName(cache, name).None? <==> forall e {:trigger e in cache} :: e in cache ==> e.name != name
    decreases |cache|
  {
    if cache != [] {
      var earlier := cache[..|cache| - 1];
      FindByNameMisses(earlier, name);
      assert cache == earlier + [cache[|cache| - 1]];
    }
  }

  /** Appending an entry changes no answer of the lookup by id, except that an id
      missed so far is now answered by the new entry when it carries that id. */
  lemma FindByIdAppend(cache: seq<Entry>, e: Entry, id: int)
    ensures FindById(cache + [e], id)
         == if FindById(cache, id).Some? then FindById(cache, id) else if e.id == id then Some(e) else None
  {
    assert (cache + [e])[..|cache|] == cache;
  }

  /** Appending an entry changes no answer of the lookup by name, except that a name
      missed so far is now answered by the new entry when it carries that name. */
  lemma FindByNameAppend(cache: seq<Entry>, e: Entry, name: string)
    ensures FindByName(cache + [e], name)
         == if FindByName(cache, name).Some? then FindByName(cache, name) else if e.name == name then Some(e) else None
  {
    assert (cache + [e])[..|cache|] == cache;
  }

  /** FirstOrDefault semantics: the entry found by id is the earliest one with that id. */
  lemma {:induction false} FindByIdIsFirst(cache: seq<Entry>, id: int, k: nat)
    requires k < |cache| && cache[k].id == id
    ensures FindById(cache, id).Some?
    ensures exists j :: 0 <= j <= k && cache[j] == FindById(cache, id).value
                        && forall i :: 0 <= i < j ==> cache[i].id != id
    decreases |cache|
  {
    var earlier := cache[..|cache| - 1];
    if k < |cache| - 1 {
      assert earlier[k] == cache[k];
      FindByIdIsFirst(earlier, id, k);
      var j :| 0 <= j <= k && earlier[j] == FindById(earlier, id).value
               && forall i :: 0 <= i < j ==> earlier[i].id != id;
      assert cache[j] == earlier[j];
      forall i | 0 <= i < j ensures cache[i].id != id {
        assert cache[i] == earlier[i];
      }
    } else if FindById(earlier, id).Some? {
      var e := FindById(earlier, id).value;
      var j :| 0 <= j < |earlier| && earlier[j] == e;
      FindByIdIsFirst(earlier, id, j);
      var j' :| 0 <= j' <= j && earlier[j'] == e && forall i :: 0 <= i < j' ==> earlier[i].id != id;
      assert cache[j'] == earlier[j'];
      forall i | 0 <= i < j' ensures cache[i].id != id {
        assert cache[i] == earlier[i];
      }
    } else {
      FindByIdMisses(earlier, id);
      forall i | 0 <= i < k ensures cache[i].id != id {
        assert cache[i] == earlier[i] && earlier[i] in earlier;
      }
    }
  }

  /** FirstOrDefault semantics: the entry found by name is the earliest one with that name. */
  lemma {:induction false} FindByNameIsFirst(cache: seq<Entry>, name: string, k: nat)
    requires k < |cache| && cache[k].name == name
    ensures FindByName(cache, name).Some?
    ensures exists j :: 0 <= j <= k && cache[j] == FindByName(cache, name).value
                        && forall i :: 0 <= i < j ==> cache[i].name != name
    decreases |cache|
  {
    var earlier := cache[..|cache| - 1];
    if k < |cache| - 1 {
      assert earlier[k] == cache[k];
      FindByNameIsFirst(earlier, name, k);
      var j :| 0 <= j <= k && earlier[j] == FindByName(earlier, name).value
               && forall i :: 0 <= i < j ==> earlier[i].name != name;
      assert cache[j] == earlier[j];
      forall i | 0 <= i < j ensures cache[i].name != name {
        assert cache[i] == earlier[i];
      }
    } else if FindByName(earlier, name).Some? {
      var e := FindByName(earlier, name).value;
      var j :| 0 <= j < |earlier| && earlier[j] == e;
      FindByNameIsFirst(earlier, name, j);
      var j' :| 0 <= j' <= j && earlier[j'] == e && forall i :: 0 <= i < j' ==> earlier[i].name != name;
      assert cache[j'] == earlier[j'];
      forall i | 0 <= i < j' ensures cache[i].name != name {
        assert cache[i] == earlier[i];
      }
    } else {
      FindByNameMisses(earlier, name);
      forall i | 0 <= i < k ensures cache[i].name != name {
        assert cache[i] == earlier[i] && earlier[i] in earlier;
      }
    }
  }

  /** The names of the given entries, in order. */
  function NamesOf(es: seq<Entry>): (r: seq<string>)
    ensures |r| == |es|
    decreases |es|
  {
    if es == [] then [] else NamesOf(es[..|es| - 1]) + [es[|es| - 1].name]
  }

  /** The k-th name is the k-th entry's name; so a name occurs exactly when some
      entry carries it. */
  lemma {:induction false} NamesOfIndex(es: seq<Entry>)
    ensures forall k :: 0 <= k < |es| ==> NamesOf(es)[k] == es[k].name
    ensures forall n :: n in NamesOf(es) <==> exists e :: e in es && e.name == n
    decreases |es|
  {
    if es != [] {
      var t := es[..|es| - 1];
      NamesOfIndex(t);
      assert es == t + [es[|es| - 1]];
      assert NamesOf(es) == NamesOf(t) + [es[|es| - 1].name];
    }
  }

  /** The service holds `e` under its id. */
  ghost predicate ServedById(remote: Remote, e: Entry) {
    e.id in remote.pokemonById && remote.pokemonById[e.id] == e
  }

  /** Every cached entry is the one the service holds under its id. */
  ghost predicate CacheAgrees(remote: Remote, cache: seq<Entry>)
    decreases |cache|
  {
    cache != [] ==> CacheAgrees(remote, cache[..|cache| - 1]) && ServedById(remote, cache[|cache| - 1])
  }

  /** CacheAgrees holds of each cached entry. */
  lemma {:induction false} CacheAgreesMember(remote: Remote, cache: seq<Entry>, e: Entry)
    requires CacheAgrees(remote, cache) && e in cache
    ensures ServedById(remote, e)
    decreases |cache|
  {
    if e != cache[|cache| - 1] {
      assert cache == cache[..|cache| - 1] + [cache[|cache| - 1]];
      CacheAgreesMember(remote, cache[..|cache| - 1], e);
    }
  }

  /** Under a consistent service, a cached entry is also the one held under its name. */
  lemma CachedEntryByName(remote: Remote, cache: seq<Entry>, e: Entry)
    requires Consistent(remote) && CacheAgrees(remote, cache) && e in cache
    ensures e.name in remote.pokemonByName && remote.pokemonByName[e.name] == e
  {
    CacheAgreesMember(remote, cache, e);
  }

  /** An id the cache misses is also missed by the name of the entry served under it. */
  lemma MissByIdMissByName(remote: Remote, cache: seq<Entry>, id: int)
    requires Consistent(remote) && CacheAgrees(remote, cache)
    requires id in remote.pokemonById && FindById(cache, id).None?
    ensures FindByName(cache, remote.pokemonById[id].name).None?
  {
    var hit := FindByName(cache, remote.pokemonById[id].name);
    if hit.Some? {
      CachedEntryByName(remote, cache, hit.value);
      FindByIdMisses(cache, id);
      assert false;
    }
  }

  /** No two cached entries share a name: the lookup by each entry's name misses
      among the entries before it. */
  ghost predicate UniqueNames(cache: seq<Entry>)
    decreases |cache|
  {
    cache != [] ==>
      UniqueNames(cache[..|cache| - 1]) && FindByName(cache[..|cache| - 1], cache[|cache| - 1].name).None?
  }

  /** UniqueNames is distinctness of the cached names. */
  lemma {:induction false} UniqueNamesNoDup(cache: seq<Entry>)
    requires UniqueNames(cache)
    ensures NoDup(NamesOf(cache))
    decreases |cache|
  {
    if cache != [] {
      var t := cache[..|cache| - 1];
      var name := cache[|cache| - 1].name;
      UniqueNamesNoDup(t);
      FindByNameMisses(t, name);
      NamesOfIndex(t);
      assert NamesOf(cache) == NamesOf(t) + [name];
      NoDupSnoc(NamesOf(t), name);
    }
  }

  /** Appending the service's entry for a name not yet cached keeps the cache
      agreeing with the service and free of duplicate names. */
  lemma AppendKeepsCache(remote: Remote, cache: seq<Entry>, e: Entry)
    requires CacheAgrees(remote, cache) && UniqueNames(cache)
    requires ServedById(remote, e)
    requires FindByName(cache, e.name).None?
    ensures CacheAgrees(remote, cache + [e]) && UniqueNames(cache + [e])
  {
    assert (cache + [e])[..|cache|] == cache;
  }

  // ----- Range validation and range fetch -----

  /** The service's entries for ids start .. end-1, ascending, skipping ids it does not serve. */
  function RangeEntries(remote: Remote, start: int, end: int): seq<Entry>
    decreases end - start
  {
    if start >= end then [] else AsSeq(Get(remote.pokemonById, start)) + RangeEntries(remote, start + 1, end)
  }

  /** A range fetch returns at most one entry per id of the range, only ids of the
      range, in strictly ascending order. */
  lemma {:induction false} RangeEntriesAscending(remote: Remote, start: int, end: int)
    requires IdKeyed(remote)
    ensures var r := RangeEntries(remote, start, end);
      && |r| <= (if start < end then end - start else 0)
      && (forall k :: 0 <= k < |r| ==> start <= r[k].id < end)
      && (forall j, k :: 0 <= j < k < |r| ==> r[j].id < r[k].id)
    decreases end - start
  {
    if start < end {
      RangeEntriesAscending(remote, start + 1, end);
      var head := AsSeq(Get(remote.pokemonById, start));
      var tail := RangeEntries(remote, start + 1, end);
      assert forall k :: 0 <= k < |tail| ==> (head + tail)[|head| + k] == tail[k];
    }
  }

  /** A range fetch returns exactly the entries the service holds under the ids of
      the range: it misses none and adds none. */
  lemma {:induction false} RangeEntriesExact(remote: Remote, start: int, end: int)
    ensures forall i :: start <= i < end && i in remote.pokemonById ==>
      remote.pokemonById[i] in RangeEntries(remote, start, end)
    ensures forall e :: e in RangeEntries(remote, start, end) ==>
      exists i :: start <= i < end && i in remote.pokemonById && remote.pokemonById[i] == e
    decreases end - start
  {
    if start < end {
      RangeEntriesExact(remote, start + 1, end);
    }
  }

  /** When the service serves every id of the range, the fetch returns exactly
      end - start entries, the k-th having id start + k. */
  lemma {:induction false} RangeEntriesFull(remote: Remote, start: int, end: int)
    requires IdKeyed(remote) && start <= end
    requires forall i :: start <= i < end ==> i in remote.pokemonById
    ensures |RangeEntries(remote, start, end)| == end - start
    ensures forall k :: 0 <= k < end - start ==> RangeEntries(remote, start, end)[k].id == start + k
    decreases end - start
  {
    if start < end {
      RangeEntriesFull(remote, start + 1, end);
      var r := RangeEntries(remote, start, end);
      assert r == [remote.pokemonById[start]] + RangeEntries(remote, start + 1, end);
    }
  }

  /** One step of a range fetch: the entry for `start` (if any) moves from the
      remaining range onto the list already built. */
  lemma RangeEntriesStep(remote: Remote, list: seq<Entry>, start: int, end: int)
    requires start < end
    ensures list + RangeEntries(remote, start, end)
         == (list + AsSeq(Get(remote.pokemonById, start))) + RangeEntries(remote, start + 1, end)
  {
    var head := AsSeq(Get(remote.pokemonById, start));
    assert list + (head + RangeEntries(remote, start + 1, end))
        == (list + head) + RangeEntries(remote, start + 1, end);
  }

  // ----- Prefetch window arithmetic -----

  function Min(a: int, b: int): int {
    if a < b then a else b
  }

  /** The half-open id window [start, end) of one prefetch batch for `page`:
      start = (page - 1) * gridSize + 1 and end = min(start + gridSize, count). */
  function PrefetchWindow(page: int, gridSize: int, count: int): (int, int) {
    var start := (page - 1) * gridSize + 1;
    (start, Min(start + gridSize, count))
  }

  /** The windows of n consecutive batches starting at `page`: the k-th is the
      window of page + k. */
  function PrefetchWindows(page: int, n: nat, gridSize: int, count: int): (r: seq<(int, int)>)
    ensures |r| == n
    ensures forall k :: 0 <= k < n ==> r[k] == PrefetchWindow(page + k, gridSize, count)
  {
    if n == 0 then [] else PrefetchWindows(page, n - 1, gridSize, count) + [PrefetchWindow(page + n - 1, gridSize, count)]
  }

  /** The initial value of the loop counter pokemonsLeft. It counts batches, one page
      each, yet it is bounded by the entries of one page: whatever the prefetch depth,
      no more batches run than a page holds entries. */
  function PlannedBatches(page: int, gridSize: int, maxPages: int, count: int): (n: int)
    ensures n <= gridSize
  {
    var w := PrefetchWindow(page, gridSize, count);
    Min(gridSize * maxPages, w.1 - w.0)
  }

  /** The number of batches the prefetch loop runs: all planned ones, unless the
      token is observed earlier; the check after batch k is check number k, and the
      batch before the first observed check is the last one. */
  function BatchesRun(planned: int, token: Token): (n: nat)
    ensures n <= (if planned < 0 then 0 else planned)
    ensures n > 0 ==> forall k :: 0 <= k < n - 1 ==> !token.ObservedAt(k)
    ensures 0 < n < planned ==> token.ObservedAt(n - 1)
  {
    if planned <= 0 then 0
    else if token.RaisedBefore? && token.checks < planned then token.checks + 1
    else planned
  }

  /** Consecutive prefetch windows start exactly one grid apart and, while the
      catalog is not exhausted, each ends where the next begins. */
  lemma PrefetchWindowsAdvance(page: int, gridSize: int, count: int)
    ensures PrefetchWindow(page + 1, gridSize, count).0 == PrefetchWindow(page, gridSize, count).0 + gridSize
    ensures PrefetchWindow(page, gridSize, count).0 + gridSize <= count ==>
      PrefetchWindow(page, gridSize, count).1 == PrefetchWindow(page + 1, gridSize, count).0
  {
    assert (page + 1 - 1) * gridSize == (page - 1) * gridSize + gridSize;
  }


  // ----- Evolution chains -----

  /** The ids of the service's entries for the species below `link` on its first
      branch (always EvolvesTo[0]), in lineage order, skipping names it does not serve. */
  function ChainTail(remote: Remote, link: ChainLink): seq<int>
    decreases link
  {
    if link.evolvesTo == [] then []
    else NameIds(remote, link.evolvesTo[0].speciesName) + ChainTail(remote, link.evolvesTo[0])
  }

  /** The id of the entry the service holds under `name`, if any. */
  function NameIds(remote: Remote, name: string): (r: seq<int>)
    ensures name in remote.pokemonByName ==> r == [remote.pokemonByName[name].id]
    ensures name !in remote.pokemonByName ==> r == []
  {
    if name in remote.pokemonByName then [remote.pokemonByName[name].id] else []
  }

  /** One step of the walk: the next species' id (if served) moves from the rest of
      the walk onto the ids already collected. */
  lemma ChainTailStep(remote: Remote, ids: seq<int>, link: ChainLink)
    requires link.evolvesTo != []
    ensures ids + ChainTail(remote, link)
         == (ids + NameIds(remote, link.evolvesTo[0].speciesName)) + ChainTail(remote, link.evolvesTo[0])
  {
    var next := link.evolvesTo[0];
    assert ids + (NameIds(remote, next.speciesName) + ChainTail(remote, next))
        == (ids + NameIds(remote, next.speciesName)) + ChainTail(remote, next);
  }

  /** The species names on the first branch below `link`, independent of the service. */
  function FirstBranch(link: ChainLink): seq<string>
    decreases link
  {
    if link.evolvesTo == [] then [] else [link.evolvesTo[0].speciesName] + FirstBranch(link.evolvesTo[0])
  }

  /** The walk yields at most one id per species of the first branch, and exactly the
      branch's entries, in order, when the service serves every one of them. */
  lemma {:induction false} ChainTailFollowsFirstBranch(remote: Remote, link: ChainLink)
    ensures |ChainTail(remote, link)| <= |FirstBranch(link)|
    ensures (forall n :: n in FirstBranch(link) ==> n in remote.pokemonByName) ==>
      |ChainTail(remote, link)| == |FirstBranch(link)|
      && forall k :: 0 <= k < |FirstBranch(link)| ==>
           ChainTail(remote, link)[k] == remote.pokemonByName[FirstBranch(link)[k]].id
    decreases link
  {
    if link.evolvesTo != [] {
      var next := link.evolvesTo[0];
      ChainTailFollowsFirstBranch(remote, next);
      var b := FirstBranch(link);
      assert b == [next.speciesName] + FirstBranch(next);
      if forall n :: n in b ==> n in remote.pokemonByName {
        assert forall n :: n in FirstBranch(next) ==> n in b;
        var t := ChainTail(remote, link);
        assert t == [remote.pokemonByName[next.speciesName].id] + ChainTail(remote, next);
        forall k | 0 <= k < |b| ensures t[k] == remote.pokemonByName[b[k]].id {
          if k > 0 {
            assert t[k] == ChainTail(remote, next)[k - 1];
            assert b[k] == FirstBranch(next)[k - 1];
          }
        }
      }
    }
  }

  /** The ids of a resolved chain: the root's entry id followed by the first-branch
      walk; None when the service does not serve the root. */
  function ChainIds(remote: Remote, chain: ChainLink): (r: Option<seq<int>>)
    ensures r.Some? <==> chain.speciesName in remote.pokemonByName
    ensures r.Some? ==> |r.value| >= 1 && r.value[0] == remote.pokemonByName[chain.speciesName].id
  {
    if chain.speciesName in remote.pokemonByName
    then Some([remote.pokemonByName[chain.speciesName].id] + ChainTail(remote, chain))
    else None
  }

  /** evolutionChains.FirstOrDefault(e => e.evolutionId == evolutionId), built as
      FindById. */
  function MemoLookup(memo: seq<EvolutionChainCompactData>, evolutionId: int): (r: Option<EvolutionChainCompactData>)
    ensures r.Some? ==> r.value in memo && r.value.evolutionId == evolutionId
    decreases |memo|
  {
    if memo == [] then None
    else
      var earlier := MemoLookup(memo[..|memo| - 1], evolutionId);
      if earlier.Some? then earlier
      else if memo[|memo| - 1].evolutionId == evolutionId then Some(memo[|memo| - 1])
      else None
  }

  /** The memo lookup misses exactly when no memoised chain has that id. */
  lemma {:induction false} MemoLookupMisses(memo: seq<EvolutionChainCompactData>, evolutionId: int)
    ensures MemoLookup(memo, evolutionId).None? <==>
      forall c {:trigger c in memo} :: c in memo ==> c.evolutionId != evolutionId
    decreases |memo|
  {
    if memo != [] {
      var earlier := memo[..|memo| - 1];
      MemoLookupMisses(earlier, evolutionId);
      assert memo == earlier + [memo[|memo| - 1]];
    }
  }

  /** Appending to the memo leaves every earlier answer alone and answers the new
      entry's id with the new entry when that id was not memoised yet. */
  lemma MemoLookupAppend(memo: seq<EvolutionChainCompactData>, c: EvolutionChainCompactData, evolutionId: int)
    ensures MemoLookup(memo + [c], evolutionId)
         == if MemoLookup(memo, evolutionId).Some? then MemoLookup(memo, evolutionId)
            else if c.evolutionId == evolutionId then Some(c) else None
  {
    assert (memo + [c])[..|memo|] == memo;
  }

  /** Every memoised chain is what resolving its chain document gives now. */
  ghost predicate MemoAgrees(remote: Remote, memo: seq<EvolutionChainCompactData>) {
    forall c {:trigger c in memo} :: c in memo ==>
      c.evolutionId in remote.chains
      && ChainIds(remote, remote.chains[c.evolutionId].chain) == Some(c.evolutionElementsIds)
  }

  /** Memoising a chain that agrees with the service keeps the memo agreeing. */
  lemma MemoAppendAgrees(remote: Remote, memo: seq<EvolutionChainCompactData>, c: EvolutionChainCompactData)
    requires MemoAgrees(remote, memo)
    requires c.evolutionId in remote.chains
    requires ChainIds(remote, remote.chains[c.evolutionId].chain) == Some(c.evolutionElementsIds)
    ensures MemoAgrees(remote, memo + [c])
  {
    assert forall d {:trigger d in memo + [c]} :: d in memo + [c] ==> d in memo || d == c;
  }

  /** What GetPokemonEvolutionChain(speciesUrl) yields, ignoring the memo: the species
      id is the URL's last segment, the chain id the last segment of the species'
      chain URL; an unparsable id throws, a document or root the service does not
      serve gives null. */
  function Resolve(remote: Remote, speciesUrl: string): (r: Outcome<Option<EvolutionChainCompactData>>)
    requires Consistent(remote)
    ensures r.Thrown? ==> r.fault == FormatError
    ensures r.Done? && r.value.Some? ==>
      r.value.value.evolutionId in remote.chains
      && ChainIds(remote, remote.chains[r.value.value.evolutionId].chain) == Some(r.value.value.evolutionElementsIds)
    ensures SegmentId(speciesUrl).None? ==> r == Thrown(FormatError)
  {
    match ChainDocument(remote, speciesUrl)
    case Thrown(fault) => Thrown(fault)
    case Done(None) => Done(None)
    case Done(Some(chain)) =>
      match ChainIds(remote, chain.chain)
      case None => Done(None)
      case Some(ids) => Done(Some(EvolutionChainCompactData(chain.id, ids)))
  }

  /** The chain document resolution reaches: the species under the URL's last
      segment, then the chain under the last segment of the species' chain URL; an
      unparsable id throws, a document the service does not serve gives null. */
  function ChainDocument(remote: Remote, speciesUrl: string): (r: Outcome<Option<EvolutionChain>>)
    ensures r.Thrown? ==> r.fault == FormatError
    ensures r.Done? && r.value.Some? && Consistent(remote) ==>
      r.value.value.id in remote.chains && remote.chains[r.value.value.id] == r.value.value
    ensures SegmentId(speciesUrl).None? ==> r == Thrown(FormatError)
  {
    match SegmentId(speciesUrl)
    case None => Thrown(FormatError)
    case Some(speciesId) =>
      if speciesId !in remote.species then Done(None)
      else match SegmentId(remote.species[speciesId].evolutionChainUrl)
        case None => Thrown(FormatError)
        case Some(chainId) =>
          if chainId !in remote.chains then Done(None) else Done(Some(remote.chains[chainId]))
  }

  /** The species and chain requests resolution makes before the memo is consulted. */
  function LookupRequests(remote: Remote, speciesUrl: string): seq<Request> {
    match SegmentId(speciesUrl)
    case None => []
    case Some(speciesId) =>
      [SpeciesById(speciesId)]
      + if speciesId !in remote.species then []
        else match SegmentId(remote.species[speciesId].evolutionChainUrl)
          case None => []
          case Some(chainId) => [ChainById(chainId)]
  }

  // ----- Case-insensitive prefix search over the name index -----

  /** n.ToLower().StartsWith(query.ToLower()), the filter applied to the name index. */
  function MatchesQuery(query: string): string -> bool {
    (n: string) => StartsWithIgnoringCase(n, query)
  }

  /** foundNames.Contains(p.Name), the filter applied to the cache. */
  function NamedIn(names: seq<string>): Entry -> bool {
    (e: Entry) => e.name in names
  }

  /** !foundPokemons.Any(p => p.Name == n): a matched name still to be fetched. */
  function NotCachedIn(cached: seq<Entry>): string -> bool {
    (n: string) => FindByName(cached, n).None?
  }

  /** The names of the index that match the query, in index order. */
  function Matches(names: seq<string>, query: string): seq<string> {
    Filter(names, MatchesQuery(query))
  }

  /** The cached entries whose names were matched, in cache order. */
  function CachedMatches(cache: seq<Entry>, found: seq<string>): seq<Entry> {
    Filter(cache, NamedIn(found))
  }

  /** The matched names without a cached entry, in index order. */
  function Missing(cache: seq<Entry>, found: seq<string>): seq<string> {
    Filter(found, NotCachedIn(CachedMatches(cache, found)))
  }

  /** The entries the service holds under the given names, in order, names it
      does not serve skipped. */
  function Fetched(remote: Remote, names: seq<string>): seq<Entry>
    decreases |names|
  {
    if names == [] then []
    else Fetched(remote, names[..|names| - 1]) + AsSeq(Get(remote.pokemonByName, names[|names| - 1]))
  }

  /** One request by name per given name, in order. */
  function NameRequests(names: seq<string>): seq<Request>
    decreases |names|
  {
    if names == [] then [] else NameRequests(names[..|names| - 1]) + [PokemonByName(names[|names| - 1])]
  }

  /** How many cancellation checks a search that is never cancelled makes: the
      one on entry, then (when something must be fetched) one more before the
      fetching starts and one before each fetch. */
  function SearchChecks(found: seq<string>, missing: seq<string>): nat {
    if found == [] || missing == [] then 1 else 2 + |missing|
  }

  /** How many names a search fetches before it returns or is cancelled. */
  function SearchFetches(found: seq<string>, missing: seq<string>, token: Token): (r: nat)
    ensures r <= |missing|
  {
    if found == [] || missing == [] then 0
    else if token.RaisedBefore? && token.checks < 2 + |missing| then
      (if token.checks < 2 then 0 else token.checks - 2)
    else |missing|
  }

  /** A name is matched exactly when the index holds it and its lower-case form
      starts with the lower-case query; the matches keep the index free of
      duplicates, and the query's own casing does not matter. */
  lemma MatchesExact(names: seq<string>, query: string)
    ensures forall n :: n in Matches(names, query) <==> n in names && StartsWithIgnoringCase(n, query)
    ensures NoDup(names) ==> NoDup(Matches(names, query))
    ensures Matches(names, ToLower(query)) == Matches(names, query)
  {
    if NoDup(names) {
      FilterNoDup(names, MatchesQuery(query));
    }
    MatchesIgnoreQueryCase(names, query);
  }

  lemma {:induction false} MatchesIgnoreQueryCase(names: seq<string>, query: string)
    ensures Matches(names, ToLower(query)) == Matches(names, query)
    decreases |names|
  {
    if names != [] {
      MatchesIgnoreQueryCase(names[..|names| - 1], query);
      StartsWithIgnoresQueryCase(names[|names| - 1], query);
    }
  }

  /** Under a consistent service, a fetched entry is the one served under its own
      name, which is one of the names asked for; and every asked name the service
      serves yields its entry. */
  lemma {:induction false} FetchedExact(remote: Remote, names: seq<string>)
    requires Consistent(remote)
    ensures forall e :: e in Fetched(remote, names) ==>
      e.name in names && e.name in remote.pokemonByName && remote.pokemonByName[e.name] == e
    ensures forall n :: n in names && n in remote.pokemonByName ==> remote.pokemonByName[n] in Fetched(remote, names)
    decreases |names|
  {
    if names != [] {
      var t, n := names[..|names| - 1], names[|names| - 1];
      FetchedExact(remote, t);
      assert names == t + [n];
    }
  }

  /** Names of distinct cached entries stay distinct under filtering. */
  lemma {:induction false} NamesOfFilterNoDup(es: seq<Entry>, p: Entry -> bool)
    requires NoDup(NamesOf(es))
    ensures NoDup(NamesOf(Filter(es, p)))
    decreases |es|
  {
    if es != [] {
      var t, x := es[..|es| - 1], es[|es| - 1];
      assert NamesOf(es)[..|es| - 1] == NamesOf(t);
      NamesOfFilterNoDup(t, p);
      var f := Filter(t, p);
      if p(x) {
        assert Filter(es, p) == f + [x];
        assert (f + [x])[..|f|] == f;
        assert NamesOf(f + [x]) == NamesOf(f) + [x.name];
        NamesOfIndex(f);
        NamesOfIndex(t);
        NoDupSnoc(NamesOf(f), x.name);
      } else {
        assert Filter(es, p) == f;
      }
    }
  }

  /** The search's early return is sound: with distinct matched names and
      distinct cached names, as many cached matches as matched names happens
      exactly when no matched name is missing from the cache. */
  lemma AllCachedIffCountsMatch(cache: seq<Entry>, found: seq<string>)
    requires NoDup(found) && UniqueNames(cache)
    ensures |found| == |CachedMatches(cache, found)| <==> Missing(cache, found) == []
  {
    UniqueNamesNoDup(cache);
    var cached := CachedMatches(cache, found);
    var names := NamesOf(cached);
    NamesOfFilterNoDup(cache, NamedIn(found));
    NoDupCardinality(found);
    NoDupCardinality(names);
    var s := set n | n in found;
    var t := set n | n in names;
    CachedNamesMatched(cache, found);
    assert t <= s;
    if Missing(cache, found) == [] {
      NoneMissing(cache, found);
      assert s <= t;
      SubsetCardinality(t, s);
      SubsetCardinality(s, t);
    } else {
      var n := Missing(cache, found)[0];
      MissingNotCached(cache, found, n);
      assert t <= s - {n};
      SubsetCardinality(t, s - {n});
      assert |s - {n}| == |s| - 1;
      assert |cached| < |found|;
    }
  }

  lemma CachedNamesMatched(cache: seq<Entry>, found: seq<string>)
    ensures forall n :: n in NamesOf(CachedMatches(cache, found)) ==> n in found
  {
    NamesOfIndex(CachedMatches(cache, found));
  }

  lemma NoneMissing(cache: seq<Entry>, found: seq<string>)
    requires Missing(cache, found) == []
    ensures forall n :: n in found ==> n in NamesOf(CachedMatches(cache, found))
  {
    var cached := CachedMatches(cache, found);
    NamesOfIndex(cached);
    forall n | n in found ensures n in NamesOf(cached) {
      if FindByName(cached, n).None? {
        assert false;
      }
    }
  }

  lemma MissingNotCached(cache: seq<Entry>, found: seq<string>, n: string)
    requires n in Missing(cache, found)
    ensures n in found && n !in NamesOf(CachedMatches(cache, found))
  {
    var cached := CachedMatches(cache, found);
    NamesOfIndex(cached);
    FindByNameMisses(cached, n);
  }

  /** The names the service serves. */
  function ServedName(remote: Remote): string -> bool {
    (n: string) => n in remote.pokemonByName
  }

  /** The names of the entries fetched by name are the asked names the service
      serves, in order. */
  lemma {:induction false} FetchedNames(remote: Remote, names: seq<string>)
    requires Consistent(remote)
    ensures NamesOf(Fetched(remote, names)) == Filter(names, ServedName(remote))
    decreases |names|
  {
    if names != [] {
      var t, n := names[..|names| - 1], names[|names| - 1];
      FetchedNames(remote, t);
      assert names == t + [n];
      FilterSnoc(t, n, ServedName(remote));
      NamesOfAppend(Fetched(remote, t), AsSeq(Get(remote.pokemonByName, n)));
      if n in remote.pokemonByName {
        assert NamesOf([remote.pokemonByName[n]]) == [n];
      } else {
        assert NamesOf([]) == [];
      }
    }
  }

  /** The names of two runs of entries are the names of the first, then those of the second. */
  lemma {:induction false} NamesOfAppend(a: seq<Entry>, b: seq<Entry>)
    ensures NamesOf(a + b) == NamesOf(a) + NamesOf(b)
    decreases |b|
  {
    if b == [] {
      assert a + b == a;
    } else {
      var t, x := b[..|b| - 1], b[|b| - 1];
      NamesOfAppend(a, t);
      assert a + b == (a + t) + [x];
      assert (a + b)[..|a + b| - 1] == a + t;
    }
  }

  /** What a completed search returns is exactly the service's entries for the
      matched names: nothing else, nothing twice when the matched names and the
      cached names are each distinct, and every matched name the service serves
      is present. */
  lemma SearchResultExact(remote: Remote, cache: seq<Entry>, found: seq<string>)
    requires Consistent(remote) && CacheAgrees(remote, cache)
    ensures var result := CachedMatches(cache, found) + Fetched(remote, Missing(cache, found));
      && (forall e :: e in result ==>
            e.name in found && e.name in remote.pokemonByName && remote.pokemonByName[e.name] == e)
      && (forall n :: n in found && n in remote.pokemonByName ==> remote.pokemonByName[n] in result)
      && (NoDup(found) && UniqueNames(cache) ==> NoDup(NamesOf(result)))
  {
    var cached := CachedMatches(cache, found);
    var missing := Missing(cache, found);
    if NoDup(found) && UniqueNames(cache) {
      UniqueNamesNoDup(cache);
      NamesOfFilterNoDup(cache, NamedIn(found));
      FilterNoDup(found, NotCachedIn(cached));
      FetchedNames(remote, missing);
      FilterNoDup(missing, ServedName(remote));
      forall n | n in NamesOf(cached) ensures n !in NamesOf(Fetched(remote, missing)) {
        if n in missing {
          MissingNotCached(cache, found, n);
        }
      }
      NoDupAppend(NamesOf(cached), NamesOf(Fetched(remote, missing)));
      NamesOfAppend(cached, Fetched(remote, missing));
    }
    FetchedExact(remote, missing);
    forall e | e in cached
      ensures e.name in found && e.name in remote.pokemonByName && remote.pokemonByName[e.name] == e
    {
      CachedEntryByName(remote, cache, e);
    }
    forall n | n in found && n in remote.pokemonByName
      ensures remote.pokemonByName[n] in cached + Fetched(remote, missing)
    {
      var hit := FindByName(cached, n);
      if hit.Some? {
        CachedEntryByName(remote, cache, hit.value);
      } else {
        assert n in missing;
      }
    }
  }

  /** A matched name that has no cached match and is not among the names fetched
      so far is not in the cache as it now stands. */
  lemma SearchMiss(remote: Remote, cache: seq<Entry>, found: seq<string>, done: seq<string>, n: string)
    requires Consistent(remote)
    requires n in found && n !in done && FindByName(CachedMatches(cache, found), n).None?
    ensures FindByName(cache + Fetched(remote, done), n).None?
  {
    FindByNameMisses(CachedMatches(cache, found), n);
    FetchedExact(remote, done);
    FindByNameMisses(cache + Fetched(remote, done), n);
  }

  /** Fetching one name more extends the entries by its answer and the log by its request. */
  lemma FetchedSnoc(remote: Remote, names: seq<string>, n: string)
    ensures Fetched(remote, names + [n]) == Fetched(remote, names) + AsSeq(Get(remote.pokemonByName, n))
    ensures NameRequests(names + [n]) == NameRequests(names) + [PokemonByName(n)]
  {
    assert (names + [n])[..|names|] == names;
  }

  /** One step of the search loop over the matched names: the i-th name joins the
      names still to fetch exactly when it has no cached match, and what has been
      collected so far stays a prefix of all the missing names. */
  lemma SearchStep(found: seq<string>, i: nat, cached: seq<Entry>)
    requires i < |found|
    ensures Filter(found[..i + 1], NotCachedIn(cached))
         == Filter(found[..i], NotCachedIn(cached)) + (if FindByName(cached, found[i]).None? then [found[i]] else [])
    ensures Filter(found[..i + 1], NotCachedIn(cached)) <= Filter(found, NotCachedIn(cached))
  {
    assert found[..i + 1] == found[..i] + [found[i]];
    FilterSnoc(found[..i], found[i], NotCachedIn(cached));
    FilterPrefix(found, i + 1, NotCachedIn(cached));
  }

  /** A search cancelled at the check before fetching the name after `fetched`
      has fetched exactly `fetched`, and was cancelled within its checks. */
  lemma CancelledFetches(found: seq<string>, missing: seq<string>, fetched: seq<string>, n: string, token: Token)
    requires found != [] && fetched + [n] <= missing
    requires token.ObservedAt(2 + |fetched|) && !token.ObservedAt(1 + |fetched|)
    ensures token.RaisedBefore? && token.checks < SearchChecks(found, missing)
    ensures SearchFetches(found, missing, token) == |fetched| && missing[..|fetched|] == fetched
  {
    assert missing[..|fetched|] == (fetched + [n])[..|fetched|];
  }

  /** A search that passed every check has fetched every missing name. */
  lemma CompletedFetches(found: seq<string>, missing: seq<string>, token: Token)
    requires found != [] && missing != [] && !token.ObservedAt(1 + |missing|)
    ensures !(token.RaisedBefore? && token.checks < SearchChecks(found, missing))
    ensures SearchFetches(found, missing, token) == |missing| && missing[..|missing|] == missing
  {
  }

  // ----- Ability descriptions -----

  /** EffectEntries.FirstOrDefault(e => e.Language.Name == language)?.Effect ?? "":
      the effect text of the first entry in `language`, or the empty string. */
  function EffectIn(entries: seq<EffectEntry>, language: string): string
    decreases |entries|
  {
    if entries == [] then ""
    else if entries[0].language == language then entries[0].effect
    else EffectIn(entries[1..], language)
  }

  /** What GetAbilityDescription answers: the ability's effect in `language`, or the
      empty string when the service has no such ability. */
  function Description(remote: Remote, abilityName: string, language: string): string {
    if abilityName in remote.abilities then EffectIn(remote.abilities[abilityName].effectEntries, language) else ""
  }

  /** The description is the effect of the earliest entry in the language, and
      empty when no entry is in that language. */
  lemma EffectInIsFirst(entries: seq<EffectEntry>, language: string)
    ensures (forall e :: e in entries ==> e.language != language) ==> EffectIn(entries, language) == ""
    ensures forall k :: 0 <= k < |entries| && entries[k].language == language
                        && (forall j :: 0 <= j < k ==> entries[j].language != language)
                        ==> EffectIn(entries, language) == entries[k].effect
  {
    if forall e :: e in entries ==> e.language != language {
      EffectInMisses(entries, language);
    }
    forall k | 0 <= k < |entries| && entries[k].language == language
               && (forall j :: 0 <= j < k ==> entries[j].language != language)
      ensures EffectIn(entries, language) == entries[k].effect
    {
      EffectInAt(entries, language, k);
    }
  }

  lemma {:induction false} EffectInMisses(entries: seq<EffectEntry>, language: string)
    requires forall e :: e in entries ==> e.language != language
    ensures EffectIn(entries, language) == ""
    decreases |entries|
  {
    if entries != [] {
      assert entries[0] in entries;
      EffectInMisses(entries[1..], language);
    }
  }

  lemma {:induction false} EffectInAt(entries: seq<EffectEntry>, language: string, k: nat)
    requires k < |entries| && entries[k].language == language
    requires forall j :: 0 <= j < k ==> entries[j].language != language
    ensures EffectIn(entries, language) == entries[k].effect
  {
    if k > 0 {
      var rest := entries[1..];
      assert rest[k - 1] == entries[k];
      forall j | 0 <= j < k - 1 ensures rest[j].language != language {
        assert rest[j] == entries[j + 1];
      }
      EffectInAt(rest, language, k - 1);
    }
  }

  // ----- What fetching through the cache does to the cache and the request log -----

  /** GetPokemon(int) on `cache` with `log` so far: a hit leaves both as they are; a
      miss asks the service once and appends a non-null answer. */
  function IdStep(remote: Remote, cache: seq<Entry>, log: seq<Request>, id: int): (seq<Entry>, seq<Request>) {
    if FindById(cache, id).Some? then (cache, log)
    else (cache + AsSeq(Get(remote.pokemonById, id)), log + [PokemonById(id)])
  }

  /** GetPokemon(string), as IdStep keyed by name. */
  function NameStep(remote: Remote, cache: seq<Entry>, log: seq<Request>, name: string): (seq<Entry>, seq<Request>) {
    if FindByName(cache, name).Some? then (cache, log)
    else (cache + AsSeq(Get(remote.pokemonByName, name)), log + [PokemonByName(name)])
  }

  /** The ids start .. end-1 fetched through the cache, in ascending order. */
  function IdsFill(remote: Remote, cache: seq<Entry>, log: seq<Request>, start: int, end: int)
    : (seq<Entry>, seq<Request>)
    decreases end - start
  {
    if start >= end then (cache, log)
    else
      var step := IdStep(remote, cache, log, start);
      IdsFill(remote, step.0, step.1, start + 1, end)
  }

  /** The count request ValidateRange makes while the count it holds is still 0. */
  function CountRequest(known: int): seq<Request> {
    if known == 0 then [NamedPage(1, 0)] else []
  }

  /** GetPokemons with `known` the count held so far: the count request when needed,
      then, for a valid range only, the range's ids through the cache. */
  function RangeFill(remote: Remote, cache: seq<Entry>, log: seq<Request>, known: int, start: int, end: int)
    : (seq<Entry>, seq<Request>)
  {
    if 1 <= start && end <= remote.count then IdsFill(remote, cache, log + CountRequest(known), start, end)
    else (cache, log + CountRequest(known))
  }

  /** The prefetch's batches: one GetPokemons per window, in order, with the count known. */
  function WindowsFill(remote: Remote, cache: seq<Entry>, log: seq<Request>, windows: seq<(int, int)>)
    : (seq<Entry>, seq<Request>)
    decreases |windows|
  {
    if windows == [] then (cache, log)
    else
      var before := WindowsFill(remote, cache, log, windows[..|windows| - 1]);
      var w := windows[|windows| - 1];
      RangeFill(remote, before.0, before.1, remote.count, w.0, w.1)
  }

  /** One batch more runs one GetPokemons more, on the state the earlier batches left. */
  lemma WindowsFillSnoc(remote: Remote, cache: seq<Entry>, log: seq<Request>, windows: seq<(int, int)>,
                        w: (int, int))
    ensures var before := WindowsFill(remote, cache, log, windows);
      WindowsFill(remote, cache, log, windows + [w]) == RangeFill(remote, before.0, before.1, remote.count, w.0, w.1)
  {
    assert (windows + [w])[..|windows|] == windows;
  }

  /** The names fetched through the cache, in order. */
  function NamesFill(remote: Remote, cache: seq<Entry>, log: seq<Request>, names: seq<string>)
    : (seq<Entry>, seq<Request>)
    decreases |names|
  {
    if names == [] then (cache, log)
    else
      var step := NameStep(remote, cache, log, names[0]);
      NamesFill(remote, step.0, step.1, names[1..])
  }

  /** Building a chain's ids: the root species by name and, when the service serves
      it, each species of the first branch in lineage order. */
  function ChainFill(remote: Remote, cache: seq<Entry>, log: seq<Request>, chain: ChainLink)
    : (seq<Entry>, seq<Request>)
  {
    var root := NameStep(remote, cache, log, chain.speciesName);
    if chain.speciesName in remote.pokemonByName then NamesFill(remote, root.0, root.1, FirstBranch(chain))
    else root
  }

  /** GetPokemonEvolutionChain(string) on the cache, the memo and the log: the species
      and chain requests, then the chain's ids for a chain not memoised yet. */
  function ChainFetch(remote: Remote, cache: seq<Entry>, memo: seq<EvolutionChainCompactData>,
                      log: seq<Request>, speciesUrl: string): (seq<Entry>, seq<Request>)
  {
    var lookedUp := log + LookupRequests(remote, speciesUrl);
    match ChainDocument(remote, speciesUrl)
    case Done(Some(document)) =>
      if MemoLookup(memo, document.id).None? then ChainFill(remote, cache, lookedUp, document.chain)
      else (cache, lookedUp)
    case _ => (cache, lookedUp)
  }

  /** The memo after GetPokemonEvolutionChain(string): a resolved chain whose id is not
      memoised yet is appended. */
  function MemoAfter(remote: Remote, memo: seq<EvolutionChainCompactData>, speciesUrl: string)
    : seq<EvolutionChainCompactData>
    requires Consistent(remote)
  {
    var r := Resolve(remote, speciesUrl);
    memo + if r.Done? && r.value.Some? && MemoLookup(memo, r.value.value.evolutionId).None? then [r.value.value] else []
  }

  /** A hit by id stays the same hit whatever is appended to the cache. */
  lemma {:induction false} FindByIdExtend(cache: seq<Entry>, more: seq<Entry>, id: int)
    requires FindById(cache, id).Some?
    ensures FindById(cache + more, id) == FindById(cache, id)
    decreases |more|
  {
    if more == [] {
      assert cache + more == cache;
    } else {
      var all := cache + more;
      assert all[..|all| - 1] == cache + more[..|more| - 1];
      FindByIdExtend(cache, more[..|more| - 1], id);
    }
  }

  /** A hit by name stays the same hit whatever is appended to the cache. */
  lemma {:induction false} FindByNameExtend(cache: seq<Entry>, more: seq<Entry>, name: string)
    requires FindByName(cache, name).Some?
    ensures FindByName(cache + more, name) == FindByName(cache, name)
    decreases |more|
  {
    if more == [] {
      assert cache + more == cache;
    } else {
      var all := cache + more;
      assert all[..|all| - 1] == cache + more[..|more| - 1];
      FindByNameExtend(cache, more[..|more| - 1], name);
    }
  }

  /** The cache invariant every fill below keeps: cached entries are the service's, with
      distinct names. */
  ghost predicate GoodCache(remote: Remote, cache: seq<Entry>) {
    Consistent(remote) && CacheAgrees(remote, cache) && UniqueNames(cache)
  }

  /** Fetching an id through the cache keeps the cache good, only appends to the cache
      and the log, and leaves a served id cached with the service's entry. */
  lemma IdStepCaches(remote: Remote, cache: seq<Entry>, log: seq<Request>, id: int)
    requires GoodCache(remote, cache)
    ensures var s := IdStep(remote, cache, log, id);
      && GoodCache(remote, s.0) && cache <= s.0 && log <= s.1
      && (id in remote.pokemonById ==> FindById(s.0, id) == Some(remote.pokemonById[id]))
  {
    var hit := FindById(cache, id);
    if hit.Some? {
      CacheAgreesMember(remote, cache, hit.value);
    } else if id in remote.pokemonById {
      var e := remote.pokemonById[id];
      MissByIdMissByName(remote, cache, id);
      AppendKeepsCache(remote, cache, e);
      FindByIdAppend(cache, e, id);
    } else {
      assert cache + [] == cache;
    }
  }

  /** NameStep keeps the cache good, only appends, and leaves a served name cached. */
  lemma NameStepCaches(remote: Remote, cache: seq<Entry>, log: seq<Request>, name: string)
    requires GoodCache(remote, cache)
    ensures var s := NameStep(remote, cache, log, name);
      && GoodCache(remote, s.0) && cache <= s.0 && log <= s.1
      && (name in remote.pokemonByName ==> FindByName(s.0, name) == Some(remote.pokemonByName[name]))
  {
    var hit := FindByName(cache, name);
    if hit.Some? {
      CachedEntryByName(remote, cache, hit.value);
    } else if name in remote.pokemonByName {
      var e := remote.pokemonByName[name];
      AppendKeepsCache(remote, cache, e);
      FindByNameAppend(cache, e, name);
    } else {
      assert cache + [] == cache;
    }
  }

  /** After a range fill every served id of the range is cached with the service's
      entry; the cache stays good and both cache and log only grow. */
  lemma {:induction false} IdsFillCaches(remote: Remote, cache: seq<Entry>, log: seq<Request>, start: int, end: int)
    requires GoodCache(remote, cache)
    ensures var s := IdsFill(remote, cache, log, start, end);
      && GoodCache(remote, s.0) && cache <= s.0 && log <= s.1
      && forall id :: start <= id < end && id in remote.pokemonById ==>
           FindById(s.0, id) == Some(remote.pokemonById[id])
    decreases end - start
  {
    if start < end {
      var step := IdStep(remote, cache, log, start);
      IdStepCaches(remote, cache, log, start);
      IdsFillCaches(remote, step.0, step.1, start + 1, end);
      var s := IdsFill(remote, cache, log, start, end);
      if start in remote.pokemonById {
        assert step.0 + s.0[|step.0|..] == s.0;
        FindByIdExtend(step.0, s.0[|step.0|..], start);
      }
    }
  }

  /** After the prefetch's batches every served id of every valid window is cached
      with the service's entry; the cache stays good and both cache and log only grow. */
  lemma {:induction false} WindowsFillCaches(remote: Remote, cache: seq<Entry>, log: seq<Request>,
                                             windows: seq<(int, int)>)
    requires GoodCache(remote, cache)
    ensures var s := WindowsFill(remote, cache, log, windows);
      && GoodCache(remote, s.0) && cache <= s.0 && log <= s.1
      && forall k, id :: 0 <= k < |windows| && 1 <= windows[k].0 <= id < windows[k].1 <= remote.count
                         && id in remote.pokemonById ==>
           FindById(s.0, id) == Some(remote.pokemonById[id])
    decreases |windows|
  {
    if windows != [] {
      var earlier := windows[..|windows| - 1];
      var w := windows[|windows| - 1];
      WindowsFillCaches(remote, cache, log, earlier);
      var before := WindowsFill(remote, cache, log, earlier);
      var s := WindowsFill(remote, cache, log, windows);
      if 1 <= w.0 && w.1 <= remote.count {
        IdsFillCaches(remote, before.0, before.1 + CountRequest(remote.count), w.0, w.1);
      }
      assert before.0 + s.0[|before.0|..] == s.0;
      forall k, id | 0 <= k < |windows| - 1 && 1 <= windows[k].0 <= id < windows[k].1 <= remote.count
                     && id in remote.pokemonById
        ensures FindById(s.0, id) == Some(remote.pokemonById[id])
      {
        assert windows[k] == earlier[k];
        FindByIdExtend(before.0, s.0[|before.0|..], id);
      }
    }
  }

  /** After fetching names through the cache every served one is cached with the
      service's entry; the cache stays good and both cache and log only grow. */
  lemma {:induction false} NamesFillCaches(remote: Remote, cache: seq<Entry>, log: seq<Request>, names: seq<string>)
    requires GoodCache(remote, cache)
    ensures var s := NamesFill(remote, cache, log, names);
      && GoodCache(remote, s.0) && cache <= s.0 && log <= s.1
      && forall n :: n in names && n in remote.pokemonByName ==> FindByName(s.0, n) == Some(remote.pokemonByName[n])
    decreases |names|
  {
    if names != [] {
      var step := NameStep(remote, cache, log, names[0]);
      NameStepCaches(remote, cache, log, names[0]);
      NamesFillCaches(remote, step.0, step.1, names[1..]);
      var s := NamesFill(remote, cache, log, names);
      assert step.0 + s.0[|step.0|..] == s.0;
      forall n | n in names && n in remote.pokemonByName
        ensures FindByName(s.0, n) == Some(remote.pokemonByName[n])
      {
        if n == names[0] {
          FindByNameExtend(step.0, s.0[|step.0|..], n);
        } else {
          assert n in names[1..];
        }
      }
    }
  }

  /** Building a chain caches the root and, when the root is served, every served
      species of the first branch. */
  lemma ChainFillCaches(remote: Remote, cache: seq<Entry>, log: seq<Request>, chain: ChainLink)
    requires GoodCache(remote, cache)
    ensures var s := ChainFill(remote, cache, log, chain);
      && GoodCache(remote, s.0) && cache <= s.0 && log <= s.1
      && (chain.speciesName in remote.pokemonByName ==>
            forall n :: (n == chain.speciesName || n in FirstBranch(chain)) && n in remote.pokemonByName ==>
              FindByName(s.0, n) == Some(remote.pokemonByName[n]))
  {
    var root := NameStep(remote, cache, log, chain.speciesName);
    NameStepCaches(remote, cache, log, chain.speciesName);
    if chain.speciesName in remote.pokemonByName {
      NamesFillCaches(remote, root.0, root.1, FirstBranch(chain));
      var s := ChainFill(remote, cache, log, chain);
      assert root.0 + s.0[|root.0|..] == s.0;
      FindByNameExtend(root.0, s.0[|root.0|..], chain.speciesName);
    }
  }
}
