# PokemonApp model

A Dafny model of the WPF Pokédex application PokemonApp-NET. It covers the catalog
cache and resolution layer (`PokeAPIController`) and the parts of the UI built on
it:

- the grid builder that turns catalog entries into compact records;
- the compact records themselves;
- the details window (`StatisticPanel`);
- the main window with paging, search and favourites (`MainWindow`);
- the login and registration window (`LoginPanel`).

The local database (`PokeContext`) is modelled as three tables and the logged-in user.

The remote PokeAPI service is a fixed oracle. `PokeApi.Remote` holds maps from ids and
names to documents, plus the total count and the full name listing. A key missing from
a map is a request that answers null. `PokeApi.Consistent` states what the model
assumes of the service: an entry is served identically under its id and its name, a
chain under its own id, and the name listing has no duplicates. Every call the
controller makes is appended to a ghost log, `requests`, so the contracts can say when
a call is or is not made.

Exceptions that escape an operation are results: `Outcome.Thrown(fault)`, with the
faults OperationCanceled, FormatError (int.Parse), NullReference and InvalidOperation
(`First` with no match). A C# null is `Option.None`.

A cancellation token is seen the way one operation observes it. `Token.Live` is never
raised. `Token.RaisedBefore(k)` is seen raised at the operation's check number `k`
and at every check after it.

Module by file:

| file | module | models |
|---|---|---|
| wrappers.dfy | Wrappers | Option, Outcome, Fault |
| sequences.dfy | Sequences | order-preserving filter, distinctness |
| text.dfy | Text | Int32.ToString / int.Parse, truncating division, ToLower, Join, Replace, the last URL segment |
| pokeapi.dfy | PokeApi | the service's documents and the oracle |
| compact_data.dfy | CompactData | PokemonCompactData.cs |
| catalog.dfy | Catalog | the functions specifying the controller's operations, with their lemmas |
| controller.dfy | Controller | PokeAPIController.cs |
| grid_builder.dfy | GridBuilder | PokemonGridBuilder.cs |
| store.dfy | Store | PokeContext.cs (tables, keys and foreign keys) |
| details_panel.dfy | DetailsPanel | StatisticPanel.xaml.cs |
| main_panel.dfy | MainPanel | MainWindow.xaml.cs |
| login_screen.dfy | LoginScreen | LoginPanel.xaml.cs |

Where the code departs from what one would expect of it, or from its own comments,
the model follows the code:

- **Range fetch returns only served entries.** One would expect a valid range to yield
  exactly `end - start` entries. The code skips ids the service answers with null.
  `Catalog.RangeEntriesFull` gives the exact count only when every id is served.
- **Partial last page.** One would expect page 3 of a 20-entry catalog to show entries
  19–20. In the code, the grid window of page 3 is [19, 28). Since 28 > 20,
  `ValidateRange` rejects it, `GetPokemons` returns null, and the `foreach` of
  `CreatePokemonsGrid` throws. Because every valid range has `end <= count`, the entry
  whose id equals the count is never part of a grid page or a prefetch window.
- **Invalid ranges can call the service.** One would expect an invalid range to make no
  remote call. The code first fetches the total count when it is still 0, and the
  model logs that request.
- **No match is null, not empty.** One would expect a search with no match to return an
  empty result. The code returns null.
- **The chain walk skips missing members.** One would expect a chain walk that fails
  halfway to be discarded. The code aborts only when the root species is missing. A
  later species the service lacks is skipped, and the chain is memoised without it.
- **The prefetch runs at most one page's worth of batches.** The comment above
  `FetchPokemonsOnAnotherThread` (PokeAPIController.cs:47-48) promises
  maxPagesToFetchOnOneRequest × maxPokemonsInGrid entries in batches of 9. The code
  starts its batch counter at min(9 × maxPages, end₀ − start₀), where end₀ − start₀ is
  the size of the first window, at most 9. It then takes one page per batch. So at most
  9 pages are fetched, whatever the prefetch depth, and fewer when the first window is
  cut short by the count. `Catalog.PlannedBatches` states this bound.

## Model

| member | source | states |
|---|---|---|
| Catalog.FindById | PokeAPI/PokeAPIController.cs:161 | FirstOrDefault by id: a hit is a cached entry carrying that id |
| Catalog.FindByName | PokeAPI/PokeAPIController.cs:176 | FirstOrDefault by name: a hit is a cached entry carrying that name |
| Catalog.FindByIdMisses | PokeAPI/PokeAPIController.cs:161-165 | the id lookup misses exactly when no cached entry has that id |
| Catalog.FindByNameMisses | PokeAPI/PokeAPIController.cs:176-180 | the name lookup misses exactly when no cached entry has that name |
| Catalog.FindByIdIsFirst | PokeAPI/PokeAPIController.cs:161 | whenever some cached entry has the id, the lookup finds the earliest such entry |
| Catalog.FindByNameIsFirst | PokeAPI/PokeAPIController.cs:176 | whenever some cached entry has the name, the lookup finds the earliest such entry |
| Catalog.FindByIdAppend | PokeAPI/PokeAPIController.cs:166-170 | adding an entry changes no earlier answer; it only answers its own id when that id was missed |
| Catalog.FindByNameAppend | PokeAPI/PokeAPIController.cs:181-185 | adding an entry changes no earlier answer; it only answers its own name when that name was missed |
| Catalog.CachedEntryByName | PokeAPI/PokeAPIController.cs:174-180 | a cached entry is what the service serves under its name, so a cache hit by name equals a fresh fetch |
| Catalog.MissByIdMissByName | PokeAPI/PokeAPIController.cs:166-170 | an entry fetched after an id miss is not cached under its name either, so the cache stays free of duplicates |
| Catalog.UniqueNamesNoDup | PokeAPI/PokeAPIController.cs:19 | the cache invariant makes the cached entries' names pairwise distinct, as in the source's HashSet |
| Catalog.AppendKeepsCache | PokeAPI/PokeAPIController.cs:181-186 | appending the service's entry for a name not yet cached keeps the cache faithful to the service and free of duplicates |
| Catalog.RangeEntriesAscending | PokeAPI/PokeAPIController.cs:146-156 | a range fetch returns at most end-start entries, every id within [start, end), ids strictly ascending |
| Catalog.RangeEntriesExact | PokeAPI/PokeAPIController.cs:147-155 | a range fetch contains exactly the service's entries for the ids of the range: none missed, none added |
| Catalog.RangeEntriesFull | PokeAPI/PokeAPIController.cs:147-155 | when every id of the range is served, the fetch has exactly end-start entries and the k-th has id start+k |
| Catalog.PrefetchWindows | PokeAPI/PokeAPIController.cs:60-72 | batch k of a prefetch fetches the window of page+k: start (page+k-1)·grid+1, end capped at the count |
| Catalog.PrefetchWindowsAdvance | PokeAPI/PokeAPIController.cs:70-72 | consecutive windows start one grid apart and, before the catalog's end, each ends where the next starts |
| Catalog.BatchesRun | PokeAPI/PokeAPIController.cs:63-79 | the loop runs at most the planned batches; every check before the last batch passed; stopping early means the last check observed cancellation |
| Catalog.ChainTailFollowsFirstBranch | PokeAPI/PokeAPIController.cs:249-259 | the walk yields at most one id per species on the EvolvesTo[0] branch, and exactly those ids in lineage order when all are served |
| Catalog.ChainIds | PokeAPI/PokeAPIController.cs:234-259 | a chain resolves exactly when its root species is served; element 0 is the root's id |
| Catalog.MemoLookup | PokeAPI/PokeAPIController.cs:222 | a memo hit is a memoised chain carrying that chain id |
| Catalog.MemoLookupMisses | PokeAPI/PokeAPIController.cs:198 | the memo lookup misses exactly when no memoised chain has that id |
| Catalog.MemoLookupAppend | PokeAPI/PokeAPIController.cs:261 | memoising a chain changes no earlier answer and answers its own id when that id was missed |
| Catalog.MemoAppendAgrees | PokeAPI/PokeAPIController.cs:261 | memoising a completely walked chain keeps every memo entry equal to a fresh resolution |
| Catalog.ChainDocument | PokeAPI/PokeAPIController.cs:203-219 | species and chain ids come from the URLs' last segments; an unparsable id throws FormatException; a document found is the one served under its id |
| Catalog.Resolve | PokeAPI/PokeAPIController.cs:201-264 | resolution throws only FormatException (always for an unparsable URL); a chain it returns is served and lists exactly the walk's ids |
| Catalog.MatchesExact | PokeAPI/PokeAPIController.cs:97 | a name matches exactly when it is in the index and its lower-case form starts with the lower-case query; matches keep the index's distinctness and do not depend on the query's case |
| Catalog.FetchedExact | PokeAPI/PokeAPIController.cs:117-133 | fetching names one by one yields exactly the service's entries for the names it serves |
| Catalog.AllCachedIffCountsMatch | PokeAPI/PokeAPIController.cs:109-112 | the early return's count comparison holds exactly when no matched name is missing from the cache |
| Catalog.SearchResultExact | PokeAPI/PokeAPIController.cs:105-135 | a completed search returns only served entries whose names matched, every matched name the service serves, and, when the matched names and the cached names are each distinct, no name twice |
| Catalog.SearchMiss | PokeAPI/PokeAPIController.cs:119-127 | a matched name without a cached match is still uncached when it is fetched, so the fetch goes to the service |
| Catalog.CancelledFetches | PokeAPI/PokeAPIController.cs:124 | a search cancelled before its n-th fetch has fetched exactly the first n-1 missing names |
| Catalog.CompletedFetches | PokeAPI/PokeAPIController.cs:117-133 | a search that passes every check fetches every missing name |
| Catalog.EffectInIsFirst | PokeAPI/PokeAPIController.cs:193 | the description is the effect of the first entry in the language, and empty when there is none |
| Catalog.PlannedBatches | PokeAPI/PokeAPIController.cs:58-63 | the prefetch's batch counter starts at no more than the entries of one page, whatever the prefetch depth |
| Catalog.FetchedNames | PokeAPI/PokeAPIController.cs:117-132 | the names of the entries the search fetches are the missing names the service serves, in order |
| Catalog.FindByIdExtend | PokeAPI/PokeAPIController.cs:161-170 | an id the cache answers keeps the same answer however many entries are appended later |
| Catalog.FindByNameExtend | PokeAPI/PokeAPIController.cs:176-185 | a name the cache answers keeps the same answer however many entries are appended later |
| Catalog.IdStepCaches | PokeAPI/PokeAPIController.cs:159-172 | fetching by id through the cache keeps it agreeing with the service and free of duplicate names, only grows cache and log, and leaves a served id cached with the service's entry |
| Catalog.NameStepCaches | PokeAPI/PokeAPIController.cs:174-187 | fetching by name through the cache keeps it good, only grows cache and log, and leaves a served name cached with the service's entry |
| Catalog.IdsFillCaches | PokeAPI/PokeAPIController.cs:146-156 | after the range loop every served id of the range is cached with the service's entry; the cache stays good and cache and log only grow |
| Catalog.WindowsFillCaches | PokeAPI/PokeAPIController.cs:60-80 | after the prefetch's batches every served id of every valid window is cached with the service's entry; the cache stays good and cache and log only grow |
| Catalog.NamesFillCaches | PokeAPI/PokeAPIController.cs:241-259 | after the chain walk every served first-branch species is cached with the service's entry; the cache stays good and cache and log only grow |
| Catalog.ChainFillCaches | PokeAPI/PokeAPIController.cs:228-259 | once the root is served, the root and every served first-branch species are cached with the service's entry; the cache stays good and cache and log only grow |
| Controller.PokeAPIController.constructor | PokeAPI/PokeAPIController.cs:19-34 | starts with an empty cache, name index and memo, an unknown count, and the invariant |
| Controller.PokeAPIController.Initialize | PokeAPI/PokeAPIController.cs:266-271 | one request for a page of 10000 names; the index becomes the service's listing |
| Controller.PokeAPIController.GetPokemonCount | PokeAPI/PokeAPIController.cs:273-277 | one one-element page request; answers the service's total |
| Controller.PokeAPIController.GetPokemonById | PokeAPI/PokeAPIController.cs:159-172 | always answers what the service holds under the id; a hit makes no call and changes nothing; a miss makes one call and appends only a non-null answer |
| Controller.PokeAPIController.GetPokemonByName | PokeAPI/PokeAPIController.cs:174-187 | the same contract, keyed by name |
| Controller.PokeAPIController.ValidateRange | PokeAPI/PokeAPIController.cs:279-292 | requests the count only while it is 0; accepts exactly when start >= 1 and end <= count |
| Controller.PokeAPIController.GetPokemons | PokeAPI/PokeAPIController.cs:138-157 | null for an invalid range, with no entry fetched; otherwise the served entries of [start, end) in ascending order; the new cache and log are exactly RangeFill: the count request when the count is unknown, then each id of the range through the cache |
| Controller.PokeAPIController.FetchPokemonsOnAnotherThread | PokeAPI/PokeAPIController.cs:49-89 | refreshes the count; fetches the windows of consecutive pages, as many batches as the plan and the token allow; the new cache and log are exactly WindowsFill over those windows, after the count request |
| Controller.PokeAPIController.GetPokemonEvolutionChainById | PokeAPI/PokeAPIController.cs:196-199 | a state-free memo lookup: a hit has that id and lists exactly the ids a fresh walk of the served chain gives; a miss means no memoised chain has the id |
| Controller.PokeAPIController.GetPokemonEvolutionChain | PokeAPI/PokeAPIController.cs:201-264 | returns what resolving afresh gives; the new memo is exactly MemoAfter (a new complete chain appended); the new cache and log are exactly ChainFetch: the lookups, then, on a memo miss, each member fetched by name through the cache |
| Controller.PokeAPIController.FetchChainDocument | PokeAPI/PokeAPIController.cs:203-219 | makes the species request and, for a served species with a parsable chain URL, the chain request; returns the chain document |
| Controller.PokeAPIController.MemoiseChain | PokeAPI/PokeAPIController.cs:228-263 | a missing root memoises nothing; otherwise the chain with the walked ids is memoised and returned; the new cache and log are exactly ChainFill: the root, then the first-branch species, each by name through the cache |
| Controller.PokeAPIController.WalkChain | PokeAPI/PokeAPIController.cs:241-259 | the do-while collects the root id, then each served species' id along EvolvesTo[0]; the new cache and log are exactly NamesFill over the first-branch species |
| Controller.PokeAPIController.FindPokemonsStartingWith | PokeAPI/PokeAPIController.cs:91-136 | null when nothing matches; otherwise the cached matches, then the missing names' entries in index order; throws at the first observed check, and keeps what it fetched before |
| Controller.PokeAPIController.FetchMissing | PokeAPI/PokeAPIController.cs:114-135 | fetches the missing names in order, one request each; cancellation throws after exactly the fetches made before it |
| Controller.PokeAPIController.VisitMatches | PokeAPI/PokeAPIController.cs:116-132 | visits the matched names in order until a check observes the cancellation or every name is visited |
| Controller.PokeAPIController.VisitMatch | PokeAPI/PokeAPIController.cs:117-131 | a cached name is skipped; otherwise a check precedes the one fetch of the name, and a non-null answer is collected |
| Controller.PokeAPIController.GetAbilityDescription | PokeAPI/PokeAPIController.cs:189-194 | one ability request; the effect in the language, or "" for a missing ability or language |
| CompactData.TypeNamesProjection | PokeAPI/PokemonCompactData.cs:24-28 | one type name per type slot, same length and order |
| CompactData.StatisticsProjection | PokeAPI/PokemonCompactData.cs:29-36 | one (name, base stat) per stat slot, same length and order |
| CompactData.BaseDataOfProjects | PokeAPI/PokemonCompactData.cs:14-37 | id, name, xp, sprite and species URL are copied; height and weight are text that parses back to the entry's numbers |
| CompactData.PokemonCompactData.constructor | PokeAPI/PokemonCompactData.cs:9-12 | both parts start null |
| CompactData.PokemonCompactData.InitPokemonBaseData | PokeAPI/PokemonCompactData.cs:14-37 | the two loops build exactly the projected base data; the extended data is untouched |
| CompactData.PokemonCompactData.InitPokemonExtendedData | PokeAPI/PokemonCompactData.cs:39-44 | the extended data becomes exactly the given chain id and abilities; the base data is untouched |
| GridBuilder.GridWindow | PokeAPI/PokemonGridBuilder.cs:25-26 | a page window holds exactly 9 ids and starts at 1 or later exactly for pages >= 1 |
| GridBuilder.GridWindowsTile | PokeAPI/PokemonGridBuilder.cs:25-26 | every id lies in exactly one page's window, and consecutive windows are adjacent |
| GridBuilder.AbilitiesOfProjection | PokeAPI/PokemonGridBuilder.cs:59-67 | one ability record per slot, in order, named after the ability and carrying its description |
| GridBuilder.ExtendedOutcomeComplete | PokeAPI/PokemonGridBuilder.cs:52-71 | a completion without a fault stores the id of the resolved chain of the entry's species and one ability record per slot |
| GridBuilder.PokemonGridBuilder.constructor | PokeAPI/PokemonGridBuilder.cs:16-18 | starts with no records |
| GridBuilder.PokemonGridBuilder.CreatePokemonsGrid | PokeAPI/PokemonGridBuilder.cs:22-38 | throws NullReference exactly when the controller rejects the page window, leaving no records; otherwise one distinct record per served entry of the window, in order; the controller's cache and log are exactly RangeFill of the window and its count becomes the service's count; its memo and name index are untouched |
| GridBuilder.PokemonGridBuilder.AddRecords | PokeAPI/PokemonGridBuilder.cs:31-34 | the cleared records gain one distinct record per entry, in order |
| GridBuilder.PokemonGridBuilder.AddRecord | PokeAPI/PokemonGridBuilder.cs:33 | one new record follows the existing ones, which are kept |
| GridBuilder.PokemonGridBuilder.InitPokemonBaseData | PokeAPI/PokemonGridBuilder.cs:41-48 | a new record with the entry's base data, official artwork as sprite, appended to the page's records |
| GridBuilder.PokemonGridBuilder.InitPokemonExtendedData | PokeAPI/PokemonGridBuilder.cs:52-71 | a record not on the page throws InvalidOperation, touching neither the record nor the controller; otherwise the record ends with the extended data and the fault the resolution gives, the controller's cache and log are exactly ExtendedFetch and its memo exactly ExtendedMemo; the name index and count are untouched |
| GridBuilder.PokemonGridBuilder.CompleteRecord | PokeAPI/PokemonGridBuilder.cs:55-70 | once the record is found: its extended data and the fault are what the resolution gives, the controller's cache and log are exactly ExtendedFetch and its memo exactly ExtendedMemo; the base data is untouched |
| GridBuilder.PokemonGridBuilder.DescribeAbilities | PokeAPI/PokemonGridBuilder.cs:59-67 | the record's abilities become one ability record per slot, built in place, with the base data untouched; the log gains exactly one ability request per slot, in order |
| GridBuilder.ExtendedFetchCaches | PokeAPI/PokemonGridBuilder.cs:52-71 | completing a record keeps the controller's cache good and only grows cache and log; a served entry on the page is left cached with the service's entry |
| Store.FindUser | PokeAPI/LoginPanel.xaml.cs:62 | FirstOrDefault by username: a hit has that name; a miss means no user has it |
| Store.FindPokemonRow | PokeAPI/StatisticPanel.xaml.cs:272 | FirstOrDefault by PokeAPI id: a hit has that id; a miss means no row has it |
| Store.FindUserUnique | PokeAPI/LoginPanel.xaml.cs:62 | with unique usernames, the lookup finds the one user of that name |
| Store.Toggle | PokeAPI/StatisticPanel.xaml.cs:319-335 | the link is present afterwards exactly when it was absent before; no other link changes |
| Store.PokeContext.constructor | PokeAPI/PokeContext.cs:8-12 | empty tables, nobody logged in, invariant holds |
| Store.PokeContext.AddUser | PokeAPI/LoginPanel.xaml.cs:133-134 | appends the user with the next generated key; keys and unique usernames are kept |
| Store.PokeContext.AddPokemon | PokeAPI/StatisticPanel.xaml.cs:305-313 | appends the row with the next generated key; keys and unique PokeAPI ids are kept |
| Text.ParseIntToString | PokeAPI/PokemonCompactData.cs:19-20 | parsing the decimal text of a number gives the number back |
| Text.AppendZeroDigit | PokeAPI/StatisticPanel.xaml.cs:148 | appending "0" to a non-zero number's text multiplies it by ten; zero becomes "00" |
| Text.ToLower | PokeAPI/PokeAPIController.cs:97 | same length, each character lower-cased |
| Text.StartsWithIgnoresQueryCase | PokeAPI/PokeAPIController.cs:97 | matching a lower-cased query is matching the query itself |
| Text.JoinLength | PokeAPI/StatisticPanel.xaml.cs:158 | the joined length is the elements' total length plus one separator between each pair of neighbours |
| Text.ReplaceNewlines | PokeAPI/StatisticPanel.xaml.cs:113 | same length, no '\n' left, every other character kept |
| Text.AfterLastSlashIsLastSegment | PokeAPI/PokeAPIController.cs:204 | the segment is a slash-free suffix preceded by '/' |
| Text.SegmentIdOfResourceUrl | PokeAPI/PokeAPIController.cs:203-206 | a resource URL ".../n/" or ".../n" yields the id n |
| DetailsPanel.HeightInCentimetres | PokeAPI/StatisticPanel.xaml.cs:148 | the height text is the height in centimetres, except that a zero height reads "00 cm" |
| DetailsPanel.WeightText | PokeAPI/StatisticPanel.xaml.cs:151-155 | throws FormatException exactly when the weight text is not a number |
| DetailsPanel.WeightInKilograms | PokeAPI/StatisticPanel.xaml.cs:151-155 | a stored weight always parses; kilograms are hectograms divided by 10, rounded toward zero |
| DetailsPanel.StatisticsLayout | PokeAPI/StatisticPanel.xaml.cs:229-266 | rows 0, 1, … with no gap, one per positive statistic: every row shows one and every positive one has a row |
| DetailsPanel.AbilityLayoutCells | PokeAPI/StatisticPanel.xaml.cs:86-141 | three cells per ability: name and description on row 2k, separator on row 2k+1 |
| DetailsPanel.AbilityLayoutRows | PokeAPI/StatisticPanel.xaml.cs:86-141 | all cells lie in the 2·n rows, and no description holds a line break |
| DetailsPanel.OutlinedOnce | PokeAPI/StatisticPanel.xaml.cs:169-175 | with distinct member ids, at most one picture is outlined, and one is exactly when the pokemon is in its chain |
| DetailsPanel.FindMember | PokeAPI/StatisticPanel.xaml.cs:304 | FirstOrDefault by id: a hit has that id; a miss means no member has it |
| DetailsPanel.ChainDisplays | PokeAPI/StatisticPanel.xaml.cs:61-72 | the load succeeds exactly when every id is served, with one member per id in order |
| DetailsPanel.NewRowFound | PokeAPI/StatisticPanel.xaml.cs:312-315 | the row added for a new PokeAPI id is the one the lookup then finds |
| DetailsPanel.StatisticPanel.constructor | PokeAPI/StatisticPanel.xaml.cs:48-53 | starts with an empty chain and empty grids |
| DetailsPanel.StatisticPanel.Init | PokeAPI/StatisticPanel.xaml.cs:55-79 | missing data, a chain not memoised or a member the service lacks throw NullReference; a bad weight throws FormatException; otherwise chain, texts, grids and pokeball all show the pokemon; the controller's cache and log change exactly by MembersFill of the memoised chain, and not at all when there is none |
| DetailsPanel.StatisticPanel.ShowChain | PokeAPI/StatisticPanel.xaml.cs:71-78 | keeps the loaded members and shows them with the pokemon's data |
| DetailsPanel.StatisticPanel.Display | PokeAPI/StatisticPanel.xaml.cs:74-78 | the display calls in order; a bad weight stops them |
| DetailsPanel.StatisticPanel.DisplayGrids | PokeAPI/StatisticPanel.xaml.cs:76-78 | statistics rows, ability cells and pokeball caption are set |
| DetailsPanel.StatisticPanel.LoadChain | PokeAPI/StatisticPanel.xaml.cs:61-72 | the outcome is ChainDisplays; the controller's cache and log are exactly MembersFill: each member by id through the cache, stopping at the first the service lacks |
| DetailsPanel.StatisticPanel.DisplayFormattedBasicData | PokeAPI/StatisticPanel.xaml.cs:145-160 | height text first; a bad weight throws with the other texts kept; otherwise weight, types and xp texts are set |
| DetailsPanel.StatisticPanel.DisplayStatistics | PokeAPI/StatisticPanel.xaml.cs:225-267 | rows for the positive statistics only; the counter ends at their number |
| DetailsPanel.StatisticPanel.DisplayAbilities | PokeAPI/StatisticPanel.xaml.cs:81-143 | the ability layout; row counter and row definitions end at 2·n |
| DetailsPanel.StatisticPanel.DisplayPokemonEvolutionChain | PokeAPI/StatisticPanel.xaml.cs:162-223 | one column per member, in order, outlined exactly for the displayed pokemon; one column definition each |
| DetailsPanel.StatisticPanel.InitPokeballInfo | PokeAPI/StatisticPanel.xaml.cs:269-293 | "Catch!" and the add tip exactly when the pokemon is not the user's favourite |
| DetailsPanel.StatisticPanel.FavPokemonButtonClick | PokeAPI/StatisticPanel.xaml.cs:295-339 | throws NullReference when the pokemon has no row and is not among the chain members; otherwise a row exists (added from the member when new), the user's link flips, favourite status inverts and the caption follows |
| DetailsPanel.StatisticPanel.ToggleFavourite | PokeAPI/StatisticPanel.xaml.cs:318-338 | the link flips, favourite status inverts, the caption follows |
| DetailsPanel.StatisticPanel.RowOfPokemon | PokeAPI/StatisticPanel.xaml.cs:300-316 | the existing row, or a new row with the chain's name and picture, or none |
| DetailsPanel.StatisticPanel.FlipLink | PokeAPI/StatisticPanel.xaml.cs:319-335 | the link is added when absent, removed when present; the foreign keys still hold |
| DetailsPanel.MembersFillCaches | PokeAPI/StatisticPanel.xaml.cs:61-72 | loading the chain keeps the cache good and only grows cache and log; when the service serves every member, each is left cached with the service's entry |
| MainPanel.SearchShowsMatches | PokeAPI/MainWindow.xaml.cs:218-244 | the search shows only default forms of served pokemons whose names start with the query, ignoring case |
| MainPanel.FavouritesIffLinked | PokeAPI/MainWindow.xaml.cs:275-288 | the user has favourite rows exactly when some link is theirs |
| MainPanel.MainWindow.constructor | PokeAPI/MainWindow.xaml.cs:51-58 | opens on the static page; the previous button shows unless it is the first page |
| MainPanel.MainWindow.SetCurrentPage | PokeAPI/MainWindow.xaml.cs:22-41 | a page <= 0 is ignored; otherwise it is stored, the button is updated, and a prefetch starts on multiples of half the depth; the controller's cache, log and count are exactly PageFill |
| MainPanel.MainWindow.UpdatePrevPageButtonVisibility | PokeAPI/MainWindow.xaml.cs:310-316 | the previous button is visible exactly off the first page |
| MainPanel.MainWindow.SetPageButtonsVisibilityState | PokeAPI/MainWindow.xaml.cs:318-322 | both page buttons take the given visibility |
| MainPanel.MainWindow.LoadPokemonGrid | PokeAPI/MainWindow.xaml.cs:60-73 | throws exactly for a page window the controller rejects; otherwise the tiles show the window's entries in order; the controller's cache and log are exactly RangeFill of the window and its count becomes the service's count |
| MainPanel.MainWindow.ShowRecords | PokeAPI/MainWindow.xaml.cs:66-71 | one tile per record, in order |
| MainPanel.MainWindow.PreviousPage | PokeAPI/MainWindow.xaml.cs:324-328 | one page back, except on page 1, where the previous button keeps its state; otherwise the previous button is visible exactly off the first page; the reloaded tiles show the new page; the controller's count becomes the service's count; the controller's cache and log are PageFill of the requested page followed by RangeFill of the new page's window |
| MainPanel.MainWindow.NextPage | PokeAPI/MainWindow.xaml.cs:330-334 | one page forward; the previous button is visible exactly off the first page; the reloaded tiles show the new page; the controller's count becomes the service's count; the controller's cache and log are PageFill of the new page followed by RangeFill of its window |
| MainPanel.MainWindow.SearchButtonClick | PokeAPI/MainWindow.xaml.cs:202-250 | an empty lower-cased query changes nothing (tiles, buttons, message, builder records, controller); cancelled, null or empty results show the message; otherwise the default forms found, in order, and the tiles are exactly the records appended to the builder's kept records; the controller's cache and log gain exactly the missing matches fetched before any cancellation |
| MainPanel.MainWindow.Search | PokeAPI/MainWindow.xaml.cs:216-225 | the search's result, or the empty list when it was cancelled; the cache and log gain exactly the missing matches fetched before any cancellation |
| MainPanel.MainWindow.ShowDefaultForms | PokeAPI/MainWindow.xaml.cs:237-244 | one tile per default form, in order; the builder's records only grow, and the tiles are exactly the records gained |
| MainPanel.MainWindow.ShowIfDefault | PokeAPI/MainWindow.xaml.cs:239-243 | a non-default form is skipped; a default one gets a tile and the builder exactly one record, which the tile shows |
| MainPanel.MainWindow.FavPokemonListClick | PokeAPI/MainWindow.xaml.cs:252-308 | flips favListOpened; closing reloads the page, the controller's cache and log changing exactly by RangeFill; opening shows exactly the user's favourite rows, or the message when none, and touches neither controller nor builder |
| MainPanel.MainWindow.CloseFavourites | PokeAPI/MainWindow.xaml.cs:260-267 | search visible again; the current page is reloaded; the controller's cache and log are exactly RangeFill of its window and its count becomes the service's count |
| MainPanel.MainWindow.OpenFavourites | PokeAPI/MainWindow.xaml.cs:269-307 | search and page buttons hidden; tiles are the favourite rows, with the message exactly when there are none |
| MainPanel.MainWindow.ShowRows | PokeAPI/MainWindow.xaml.cs:291-295 | one tile per favourite row, in order |
| LoginScreen.RegistrationError | PokeAPI/LoginPanel.xaml.cs:96-131 | registration passes exactly with all fields filled, a matching confirmation and a new name; any empty field gives the fill-in message |
| LoginScreen.RegistrationChecksInOrder | PokeAPI/LoginPanel.xaml.cs:96-131 | each message appears exactly when its check is the first to fail |
| LoginScreen.Authenticate | PokeAPI/LoginPanel.xaml.cs:62-85 | accepts exactly the first user of the name whose stored hash equals the entered password's hash under the stored salt |
| LoginScreen.RegisterThenLogin | PokeAPI/LoginPanel.xaml.cs:111-136 | a freshly registered user can log in with the same password when the salt survives Base64 |
| LoginScreen.LoginPanel.constructor | PokeAPI/LoginPanel.xaml.cs:25-34 | starts on the login panel with the panels consistent |
| LoginScreen.LoginPanel.TogglePanelClick | PokeAPI/LoginPanel.xaml.cs:36-52 | the visible panel swaps; exactly one is visible, and it is the current one |
| LoginScreen.LoginPanel.LoginButtonClick | PokeAPI/LoginPanel.xaml.cs:54-86 | unknown user and wrong password give the same message and change nothing; success logs the user in, loads the name index with one request and opens the main window |
| LoginScreen.LoginPanel.ShowLoginError | PokeAPI/LoginPanel.xaml.cs:67-68 | shows the login error message |
| LoginScreen.LoginPanel.LogIn | PokeAPI/LoginPanel.xaml.cs:84-85 | the stored user is logged in, the name index loaded with one request, and the main window opens |
| LoginScreen.LoginPanel.RegisterButtonClick | PokeAPI/LoginPanel.xaml.cs:88-138 | the first failing check is reported and nothing is stored; otherwise one user with the salted hash and Base64 salt is added and logged in, and the name index is loaded with one request |
| LoginScreen.LoginPanel.ShowRegisterError | PokeAPI/LoginPanel.xaml.cs:98-99 | shows the given registration error |
| LoginScreen.LoginPanel.Enrol | PokeAPI/LoginPanel.xaml.cs:133-137 | the new user is stored with the next key and logged in; the name index is loaded with one request; the main window opens |
| LoginScreen.LoginPanel.ShowMainPanel | PokeAPI/LoginPanel.xaml.cs:140-146 | the name index is loaded with exactly one request, then the main window opens |

## Left out

- The PokeApiClient library and its HTTP calls are the `Remote` oracle. Transport failures, timeouts and deserialisation errors are not modelled.
- Task.Run, async/await interleavings and races on the controller's unsynchronised collections are not modelled. Every operation runs sequentially to completion.
- A background prefetch started by the page setter runs inline, before the setter returns.
- The prefetch loop's catch-all handler is not modelled, because nothing in the model throws inside that loop.
- The lazy singleton and the finalizer that cancels the token are not modelled. The controller is one object passed to its users. A cancellation token is a `Token` value fixed for the operation.
- Controller.PokeAPIController.constructor: does not start the prefetch of Common.minPage that the source's constructor fires without awaiting. A caller can run FetchPokemonsOnAnotherThread.
- Common.minPage, Common.maxPokemonsInGrid, Common.maxPagesToFetchOnOneRequest and Common.language are parameters, because Common is not part of this model. Common.HashPassword, Common.GenerateSalt and Base64 are likewise parameters.
- A Base64 string that does not decode (a FormatException in Convert.FromBase64String) cannot arise from a parameter function, so it is not modelled.
- Integers are unbounded: Int32 overflow in page arithmetic, and int.Parse's OverflowException, are not modelled.
- int.Parse accepts surrounding white space and a '+' sign; the model accepts only an optional '-' followed by digits.
- String.ToLower is modelled for ASCII letters only; culture rules and non-ASCII case mappings are not.
- String.StartsWith (PokeAPIController.cs:97) compares with the current culture in .NET; the model compares characters ordinally, so culture-specific equivalences (ignorable characters, ligatures) are not modelled.
- System.Uri is reduced to "the text after the last '/', one trailing '/' trimmed". Query strings, fragments and escaping are not modelled.
- WPF widgets are fields holding what they show: texts, tiles, grid cells, visibility flags. Brushes, sizes, images, window opening and closing, IsHitTestVisible, scrolling, and Trace/Console output are not modelled.
- The login window's initial panel visibility comes from XAML, which is not part of this model; the login panel is taken to start visible.
- LoginScreen.LoginPanel.ShowMainPanel: records that the main window opens, but does not construct a MainWindow.
- Revision drift: PokemonGridBuilder calls GetPokemonsData and GetPokemonData, which the controller names GetPokemons and GetPokemon(int); the model maps them to those. MainWindow calls the builder's private InitPokemonBaseData; the model calls it as a method.
- Entity Framework is modelled as sequences and a set. Keys are generated in insertion order, and rows of Pokemon and User are never deleted. A link has no key of its own, and its Id column is not modelled. SQLite configuration and lazy-loading proxies are not modelled.
- App.xaml.cs (startup and disposal) is not part of this model.
- SearchTextBox_TextChanged is not modelled: it only resets the page and reloads, both of which are modelled.
- The two OnPokemonElementClick handlers and LogoutButton_Click are not modelled: they only chain modelled operations and open or close windows.
- CreatePokemonElement, InitializePokemonElement and ReturnToMainPanelButton_Click only build widgets or switch windows, and are not modelled.
- MainPanel.MainWindow.constructor: does not call LoadPokemonGrid, because a caller can do so. It requires maxPagesToFetchOnOneRequest / 2 to be non-zero; the source's setter would divide by zero otherwise.
- DetailsPanel.StatisticPanel.Init: requires a logged-in user, as the window is only reached after login. With nobody logged in, the source's InitPokeballInfo dereferences null once the pokemon has a row.
- DetailsPanel.StatisticPanel.FavPokemonButtonClick: requires a logged-in user, as Init does. With nobody logged in, the source throws NullReferenceException at the link lookup.
- MainPanel.MainWindow.FavPokemonListClick: requires a logged-in user. With nobody logged in, the source throws NullReferenceException when it opens the list.
- GridBuilder.PokemonGridBuilder.CreatePokemonsGrid: states that the page's records are pairwise distinct and built from the entries, but not that they are newly allocated objects.
- GridBuilder.PokemonGridBuilder.AddRecords: states that the page's records are pairwise distinct and built from the entries, but not that they are newly allocated objects.
- Catalog.ChainTailFollowsFirstBranch: only EvolvesTo[0] is followed, as in the source. Chains that branch, such as a species with several evolutions, show the first branch only.
