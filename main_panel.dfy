/** MainWindow.xaml.cs: the main window — a grid of pokemons, one page at a time, with
    previous/next navigation, a name search and the user's favourites list. */
module MainPanel {
  import opened Wrappers
  import opened Sequences
  import opened Text
  import opened PokeApi
  import opened CompactData
  import opened Catalog
  import opened Store
  import opened Controller
  import opened GridBuilder

  const NoPokemonsFoundMessage := "No pokemons found :("
  const SearchingMessage := "Searching..."
  const NoFavPokemonsMessage := "You don't have any favorite pokemons yet!"

  /** A button of the grid: a pokemon from the service turned into compact data, or a
      favourite read from the database. */
  datatype Tile = FromService(data: PokemonCompactData) | FromStore(row: PokemonRow)

  /** Whether accepting `page` starts a prefetch: it is a multiple of half the number of
      pages fetched ahead (C#'s `%` and Dafny's agree on whether the remainder is 0). */
  function TriggersPrefetch(page: int, maxPages: int): bool
    requires TruncDiv(maxPages, 2) != 0
  {
    page % TruncDiv(maxPages, 2) == 0
  }

  /** The tiles showing compact data objects, in order. */
  function ServiceTiles(ds: seq<PokemonCompactData>): seq<Tile> {
    seq(|ds|, k requires 0 <= k < |ds| => FromService(ds[k]))
  }

  lemma ServiceTilesSnoc(ds: seq<PokemonCompactData>, d: PokemonCompactData)
    ensures ServiceTiles(ds + [d]) == ServiceTiles(ds) + [FromService(d)]
  {
    var all := ds + [d];
    assert forall k :: 0 <= k < |ds| ==> all[k] == ds[k];
  }

  /** Tiles made from the records the grid builder built show the entries it built
      them from. */
  lemma ServiceTilesShow(ds: seq<PokemonCompactData>, es: seq<Entry>)
    requires Built(ds, es)
    ensures ShowsEntries(ServiceTiles(ds), es)
  {
  }

  /** One more tile that shows one more entry keeps the tiles showing the entries. */
  lemma ShowsEntriesSnoc(tiles: seq<Tile>, es: seq<Entry>, d: PokemonCompactData, e: Entry)
    requires ShowsEntries(tiles, es)
    requires d.baseData == Some(BaseDataOf(e, e.officialArtwork)) && d.extendedData == None
    ensures ShowsEntries(tiles + [FromService(d)], es + [e])
  {
    var t, f := tiles + [FromService(d)], es + [e];
    assert forall k :: 0 <= k < |tiles| ==> t[k] == tiles[k] && f[k] == es[k];
  }

  lemma StoreTilesSnoc(rows: seq<PokemonRow>, row: PokemonRow)
    ensures StoreTiles(rows + [row]) == StoreTiles(rows) + [FromStore(row)]
  {
    var all := rows + [row];
    assert forall k :: 0 <= k < |rows| ==> all[k] == rows[k];
  }

  /** The tiles showing database rows, in order. */
  function StoreTiles(rows: seq<PokemonRow>): seq<Tile> {
    seq(|rows|, k requires 0 <= k < |rows| => FromStore(rows[k]))
  }

  /** Tile k shows entry k of `es` as fresh base data. */
  ghost predicate ShowsEntries(tiles: seq<Tile>, es: seq<Entry>)
    reads set k | 0 <= k < |tiles| && tiles[k].FromService? :: tiles[k].data
  {
    && |tiles| == |es|
    && (forall k :: 0 <= k < |tiles| ==>
          && tiles[k].FromService?
          && tiles[k].data.baseData == Some(BaseDataOf(es[k], es[k].officialArtwork))
          && tiles[k].data.extendedData == None)
  }

  /** The search shows only the default form of each pokemon. */
  function DefaultForms(es: seq<Entry>): seq<Entry> {
    Filter(es, (e: Entry) => e.isDefault)
  }

  /** The list the search ends up with: empty when cancelled (the list allocated before
      the call), null when no name matched, otherwise what the search returned. */
  ghost function SearchResult(remote: Remote, cache: seq<Entry>, names: seq<string>, query: string, token: Token)
    : Option<seq<Entry>>
  {
    var found := Matches(names, query);
    var missing := Missing(cache, found);
    if token.RaisedBefore? && token.checks < SearchChecks(found, missing) then Some([])
    else if found == [] then None
    else Some(CachedMatches(cache, found) + Fetched(remote, missing))
  }

  /** What the search displays is always the default forms of pokemons the service
      serves under a name that starts with the query, ignoring case. */
  lemma SearchShowsMatches(remote: Remote, cache: seq<Entry>, names: seq<string>, query: string, token: Token)
    requires Consistent(remote) && CacheAgrees(remote, cache)
    ensures var result := SearchResult(remote, cache, names, query, token);
      result.Some? ==> forall e :: e in DefaultForms(result.value) ==>
        && e.isDefault
        && e.name in names && StartsWithIgnoringCase(e.name, query)
        && e.name in remote.pokemonByName && remote.pokemonByName[e.name] == e
  {
    var found := Matches(names, query);
    SearchResultExact(remote, cache, found);
  }

  /** The user's favourites: the Pokemon rows linked to the user, in table order. */
  function Favourites(rows: seq<PokemonRow>, links: set<Link>, userId: int): seq<PokemonRow> {
    Filter(rows, (row: PokemonRow) => Link(row.id, userId) in links)
  }

  /** With every link pointing at a stored row, the user has favourites exactly when
      some link is theirs. */
  lemma FavouritesIffLinked(rows: seq<PokemonRow>, links: set<Link>, userId: int)
    requires forall k :: 0 <= k < |rows| ==> rows[k].id == k + 1
    requires forall l :: l in links ==> 1 <= l.pokemonId <= |rows|
    ensures Favourites(rows, links, userId) != [] <==> exists l :: l in links && l.userId == userId
  {
    var favourites := Favourites(rows, links, userId);
    if l :| l in links && l.userId == userId {
      var row := rows[l.pokemonId - 1];
      assert Link(row.id, userId) == l;
      assert row in favourites;
    }
    if favourites != [] {
      var row := favourites[0];
      assert row in favourites;
      assert Link(row.id, userId) in links;
    }
  }

  class MainWindow {
    const controller: PokeAPIController
    const builder: PokemonGridBuilder
    const context: PokeContext
    /** Common.minPage, Common.maxPokemonsInGrid and Common.maxPagesToFetchOnOneRequest. */
    const minPage: int
    const gridSize: int
    const maxPages: int
    /** The static _currentPage, shared by every main window. */
    var currentPage: int
    var prevButtonVisible: bool
    var nextButtonVisible: bool
    var searchVisible: bool
    var favListOpened: bool
    var tiles: seq<Tile>
    var infoVisible: bool
    var infoText: string
    /** The pages for which a prefetch was started, in order. */
    ghost var prefetchedPages: seq<int>

    /** The page is always positive, the controller is the one the grid builder uses,
        and half the prefetch depth is not zero. */
    ghost predicate Valid()
      reads this, controller, builder
    {
      && controller.Valid()
      && builder.controller == controller
      && currentPage >= 1
      && TruncDiv(maxPages, 2) != 0
    }

    /** The window opened on the page the static field holds. */
    constructor (controller: PokeAPIController, builder: PokemonGridBuilder, context: PokeContext,
                 minPage: int, gridSize: int, maxPages: int, currentPage: int)
      requires controller.Valid() && builder.controller == controller
      requires currentPage >= 1 && TruncDiv(maxPages, 2) != 0
      ensures Valid()
      ensures this.controller == controller && this.builder == builder && this.context == context
      ensures this.minPage == minPage && this.gridSize == gridSize && this.maxPages == maxPages
      ensures this.currentPage == currentPage && prevButtonVisible == (currentPage != minPage)
      ensures !favListOpened && tiles == [] && prefetchedPages == []
    {
      this.controller := controller;
      this.builder := builder;
      this.context := context;
      this.minPage := minPage;
      this.gridSize := gridSize;
      this.maxPages := maxPages;
      this.currentPage := currentPage;
      prevButtonVisible := currentPage != minPage;
      nextButtonVisible := true;
      searchVisible := true;
      favListOpened := false;
      tiles := [];
      infoVisible := false;
      infoText := "";
      prefetchedPages := [];
    }

    /** What accepting page `value` does to the controller's cache, request log and
        known count: nothing for a page that is not positive or starts no prefetch;
        otherwise the prefetch's count request and the batches it runs before the
        token stops it. */
    function PageFill(remote: Remote, cache: seq<Entry>, log: seq<Request>, known: int, value: int, token: Token)
      : (seq<Entry>, seq<Request>, int)
      requires TruncDiv(maxPages, 2) != 0
    {
      if value <= 0 || !TriggersPrefetch(value, maxPages) then (cache, log, known)
      else
        var runs := BatchesRun(PlannedBatches(value, gridSize, maxPages, remote.count), token);
        var fill := WindowsFill(remote, cache, log + [NamedPage(1, 0)],
                                PrefetchWindows(value, runs, gridSize, remote.count));
        (fill.0, fill.1, remote.count)
    }

    /** The currentPage setter: a value that is not positive is ignored; otherwise the
        page is stored, the previous-page button updated, and on every multiple of half
        the prefetch depth the controller prefetches the pages ahead. */
    method SetCurrentPage(value: int, token: Token)
      requires Valid()
      modifies this`currentPage, this`prevButtonVisible, this`prefetchedPages,
               controller`pokemons, controller`maxPokemonCount, controller`requests
      ensures Valid()
      ensures (controller.pokemons, controller.requests, controller.maxPokemonCount)
           == PageFill(controller.remote, old(controller.pokemons), old(controller.requests),
                       old(controller.maxPokemonCount), value, token)
      ensures value <= 0 ==>
        && currentPage == old(currentPage) && prevButtonVisible == old(prevButtonVisible)
        && prefetchedPages == old(prefetchedPages) && unchanged(controller)
      ensures value > 0 ==>
        && currentPage == value
        && prevButtonVisible == (value != minPage)
        && prefetchedPages == old(prefetchedPages) + (if TriggersPrefetch(value, maxPages) then [value] else [])
    {
      if value <= 0 {
        return;
      }
      currentPage := value;
      UpdatePrevPageButtonVisibility();
      if value % TruncDiv(maxPages, 2) == 0 {
        var windows := controller.FetchPokemonsOnAnotherThread(value, gridSize, maxPages, token);
        prefetchedPages := prefetchedPages + [value];
      }
    }

    /** UpdatePrevPageButtonVisibility: hidden on the first page, shown elsewhere. */
    method UpdatePrevPageButtonVisibility()
      modifies this`prevButtonVisible
      ensures prevButtonVisible == (currentPage != minPage)
    {
      if currentPage == minPage {
        prevButtonVisible := false;
      } else if !prevButtonVisible {
        prevButtonVisible := true;
      }
    }

    method SetPageButtonsVisibilityState(isVisible: bool)
      modifies this`prevButtonVisible, this`nextButtonVisible
      ensures prevButtonVisible == isVisible && nextButtonVisible == isVisible
    {
      prevButtonVisible := isVisible;
      nextButtonVisible := isVisible;
    }

    /** LoadPokemonGrid: clears the grid and shows the current page's pokemons, one
        tile per record the grid builder made. A page past the catalog's end throws
        (the builder's result is null). */
    method LoadPokemonGrid() returns (r: Outcome<()>)
      requires Valid()
      modifies this`tiles, builder`pokemonsData, controller`pokemons, controller`maxPokemonCount, controller`requests
      ensures Valid()
      ensures var (start, end) := GridWindow(currentPage);
        (controller.pokemons, controller.requests)
        == RangeFill(controller.remote, old(controller.pokemons), old(controller.requests),
                     old(controller.maxPokemonCount), start, end)
      ensures controller.maxPokemonCount == controller.remote.count
      ensures var (start, end) := GridWindow(currentPage);
        && (r.Thrown? <==> !(1 <= start && end <= controller.remote.count))
        && (r.Thrown? ==> r == Thrown(NullReference) && tiles == [])
        && (r.Done? ==> tiles == ServiceTiles(builder.pokemonsData)
                        && ShowsEntries(tiles, RangeEntries(controller.remote, start, end)))
    {
      tiles := [];
      var grid := builder.CreatePokemonsGrid(currentPage);
      if grid.Thrown? {
        return Thrown(grid.fault);
      }
      var pokemons := grid.value;
      ShowRecords(pokemons);
      ServiceTilesShow(pokemons, RangeEntries(controller.remote, GridWindow(currentPage).0, GridWindow(currentPage).1));
      r := Done(());
    }

    /** The foreach adding one tile per record, in order. */
    method ShowRecords(pokemons: seq<PokemonCompactData>)
      modifies this`tiles
      ensures tiles == old(tiles) + ServiceTiles(pokemons)
    {
      ghost var before := tiles;
      for k := 0 to |pokemons|
        invariant tiles == before + ServiceTiles(pokemons[..k])
      {
        assert pokemons[..k + 1] == pokemons[..k] + [pokemons[k]];
        ServiceTilesSnoc(pokemons[..k], pokemons[k]);
        tiles := tiles + [FromService(pokemons[k])];
      }
      assert pokemons[..|pokemons|] == pokemons;
    }

    /** ButtonPreviousPage_Click: one page back (ignored on page 1), then reload. */
    method PreviousPage(token: Token) returns (r: Outcome<()>)
      requires Valid()
      modifies this`currentPage, this`prevButtonVisible, this`prefetchedPages, this`tiles,
               builder`pokemonsData, controller`pokemons, controller`maxPokemonCount, controller`requests
      ensures Valid()
      ensures currentPage == if old(currentPage) == 1 then 1 else old(currentPage) - 1
      ensures old(currentPage) != 1 ==> prevButtonVisible == (currentPage != minPage)
      ensures old(currentPage) == 1 ==> prevButtonVisible == old(prevButtonVisible)
      ensures var turned := PageFill(controller.remote, old(controller.pokemons), old(controller.requests),
                                     old(controller.maxPokemonCount), old(currentPage) - 1, token);
        var (start, end) := GridWindow(currentPage);
        (controller.pokemons, controller.requests) == RangeFill(controller.remote, turned.0, turned.1, turned.2, start, end)
      ensures controller.maxPokemonCount == controller.remote.count
      ensures var (start, end) := GridWindow(currentPage);
        && (r.Thrown? <==> !(1 <= start && end <= controller.remote.count))
        && (r.Done? ==> ShowsEntries(tiles, RangeEntries(controller.remote, start, end)))
    {
      SetCurrentPage(currentPage - 1, token);
      r := LoadPokemonGrid();
    }

    /** ButtonNextPage_Click: one page forward, then reload. */
    method NextPage(token: Token) returns (r: Outcome<()>)
      requires Valid()
      modifies this`currentPage, this`prevButtonVisible, this`prefetchedPages, this`tiles,
               builder`pokemonsData, controller`pokemons, controller`maxPokemonCount, controller`requests
      ensures Valid()
      ensures currentPage == old(currentPage) + 1
      ensures var turned := PageFill(controller.remote, old(controller.pokemons), old(controller.requests),
                                     old(controller.maxPokemonCount), old(currentPage) + 1, token);
        var (start, end) := GridWindow(currentPage);
        (controller.pokemons, controller.requests) == RangeFill(controller.remote, turned.0, turned.1, turned.2, start, end)
      ensures controller.maxPokemonCount == controller.remote.count
      ensures prevButtonVisible == (currentPage != minPage)
      ensures var (start, end) := GridWindow(currentPage);
        && (r.Thrown? <==> !(1 <= start && end <= controller.remote.count))
        && (r.Done? ==> ShowsEntries(tiles, RangeEntries(controller.remote, start, end)))
    {
      SetCurrentPage(currentPage + 1, token);
      r := LoadPokemonGrid();
    }

    /** SearchButton_Click: lower-cases the query and ignores an empty one; otherwise
        clears the grid, hides the page buttons and searches. A cancelled search leaves
        the empty list allocated before the call. No match, or an empty list, shows the
        "no pokemons" message; otherwise the default forms found are shown, in order. */
    method SearchButtonClick(text: string, token: Token)
      requires Valid()
      modifies this`tiles, this`prevButtonVisible, this`nextButtonVisible, this`infoVisible,
               this`infoText, builder`pokemonsData, controller`pokemons, controller`requests
      ensures Valid()
      ensures ToLower(text) != [] ==>
        var found := Matches(controller.pokemonNames, ToLower(text));
        var missing := Missing(old(controller.pokemons), found);
        var fetches := SearchFetches(found, missing, token);
        && controller.pokemons == old(controller.pokemons) + Fetched(controller.remote, missing[..fetches])
        && controller.requests == old(controller.requests) + NameRequests(missing[..fetches])
      ensures ToLower(text) == [] ==>
        && tiles == old(tiles) && infoVisible == old(infoVisible) && infoText == old(infoText)
        && prevButtonVisible == old(prevButtonVisible) && nextButtonVisible == old(nextButtonVisible)
        && builder.pokemonsData == old(builder.pokemonsData) && unchanged(controller)
      ensures old(builder.pokemonsData) <= builder.pokemonsData
      ensures ToLower(text) != [] ==>
        tiles == ServiceTiles(builder.pokemonsData[|old(builder.pokemonsData)|..])
      ensures ToLower(text) != [] ==>
        var result := SearchResult(controller.remote, old(controller.pokemons), old(controller.pokemonNames),
                                   ToLower(text), token);
        && !prevButtonVisible && !nextButtonVisible
        && (result.None? || result.value == [] ==>
              infoVisible && infoText == NoPokemonsFoundMessage && tiles == [])
        && (result.Some? && result.value != [] ==>
              !infoVisible && ShowsEntries(tiles, DefaultForms(result.value)))
    {
      var searchText := ToLower(text);
      if searchText == [] {
        return;
      }
      tiles := [];
      SetPageButtonsVisibilityState(false);
      infoVisible := true;
      infoText := SearchingMessage;
      var filteredData := Search(searchText, token);
      if filteredData.None? || filteredData.value == [] {
        infoText := NoPokemonsFoundMessage;
        return;
      }
      infoVisible := false;
      ShowDefaultForms(filteredData.value);
    }

    /** The try/catch around FindPokemonsStartingWith: a cancellation leaves the empty
        list the window allocated before the call. */
    method Search(searchText: string, token: Token) returns (filteredData: Option<seq<Entry>>)
      requires Valid()
      modifies controller`pokemons, controller`requests
      ensures Valid()
      ensures var found := Matches(controller.pokemonNames, searchText);
        var missing := Missing(old(controller.pokemons), found);
        var fetches := SearchFetches(found, missing, token);
        && controller.pokemons == old(controller.pokemons) + Fetched(controller.remote, missing[..fetches])
        && controller.requests == old(controller.requests) + NameRequests(missing[..fetches])
      ensures filteredData == SearchResult(controller.remote, old(controller.pokemons),
                                           old(controller.pokemonNames), searchText, token)
    {
      filteredData := Some([]);
      var found := controller.FindPokemonsStartingWith(searchText, token);
      if found.Done? {
        filteredData := found.value;
      }
    }

    /** The foreach of the search: skips the forms that are not the default one and
        shows a fresh record for each other entry. */
    method ShowDefaultForms(found: seq<Entry>)
      requires tiles == []
      modifies this`tiles, builder`pokemonsData
      ensures ShowsEntries(tiles, DefaultForms(found))
      ensures old(builder.pokemonsData) <= builder.pokemonsData
      ensures tiles == ServiceTiles(builder.pokemonsData[|old(builder.pokemonsData)|..])
    {
      for k := 0 to |found|
        invariant ShowsEntries(tiles, DefaultForms(found[..k]))
        invariant old(builder.pokemonsData) <= builder.pokemonsData
        invariant tiles == ServiceTiles(builder.pokemonsData[|old(builder.pokemonsData)|..])
      {
        ShowIfDefault(found, k);
      }
      assert found[..|found|] == found;
    }

    /** One pass of that foreach. */
    method ShowIfDefault(found: seq<Entry>, k: nat)
      requires k < |found| && ShowsEntries(tiles, DefaultForms(found[..k]))
      modifies this`tiles, builder`pokemonsData
      ensures ShowsEntries(tiles, DefaultForms(found[..k + 1]))
      ensures old(builder.pokemonsData) <= builder.pokemonsData
      ensures |builder.pokemonsData| == |old(builder.pokemonsData)| + (if found[k].isDefault then 1 else 0)
      ensures tiles == old(tiles) + ServiceTiles(builder.pokemonsData[|old(builder.pokemonsData)|..])
    {
      var pokemon := found[k];
      assert found[..k + 1] == found[..k] + [pokemon];
      FilterSnoc(found[..k], pokemon, (e: Entry) => e.isDefault);
      if !pokemon.isDefault {
        return;
      }
      var pokemonData := builder.InitPokemonBaseData(pokemon);
      ShowsEntriesSnoc(tiles, DefaultForms(found[..k]), pokemonData, pokemon);
      tiles := tiles + [FromService(pokemonData)];
      assert builder.pokemonsData[|old(builder.pokemonsData)|..] == [pokemonData];
      assert ServiceTiles([pokemonData]) == [FromService(pokemonData)];
    }

    /** FavPokemonList_Click: flips between the favourites and the catalog. Closing the
        list reloads the current page; opening it hides the search and the page buttons
        and shows the logged-in user's favourite rows, or a message when there are
        none. */
    method FavPokemonListClick() returns (r: Outcome<()>)
      requires Valid() && context.Valid() && context.loggedInUser.Some?
      modifies this`tiles, this`prevButtonVisible, this`nextButtonVisible, this`infoVisible,
               this`infoText, this`favListOpened, this`searchVisible, builder`pokemonsData, controller`pokemons, controller`maxPokemonCount, controller`requests
      ensures Valid()
      ensures favListOpened == !old(favListOpened)
      ensures !favListOpened ==>
        var (start, end) := GridWindow(currentPage);
        (controller.pokemons, controller.requests)
        == RangeFill(controller.remote, old(controller.pokemons), old(controller.requests),
                     old(controller.maxPokemonCount), start, end)
      ensures favListOpened ==> unchanged(controller) && unchanged(builder)
      ensures !favListOpened ==>
        var (start, end) := GridWindow(currentPage);
        && searchVisible && !infoVisible && nextButtonVisible
        && prevButtonVisible == (currentPage != minPage)
        && (r.Thrown? <==> !(1 <= start && end <= controller.remote.count))
        && (r.Done? ==> ShowsEntries(tiles, RangeEntries(controller.remote, start, end)))
      ensures favListOpened ==>
        var favourites := Favourites(context.pokemons, context.links, context.loggedInUser.value.id);
        && r == Done(())
        && !searchVisible && !prevButtonVisible && !nextButtonVisible
        && tiles == StoreTiles(favourites)
        && (infoVisible <==> favourites == [])
        && (infoVisible ==> infoText == NoFavPokemonsMessage)
    {
      SetPageButtonsVisibilityState(true);
      UpdatePrevPageButtonVisibility();
      infoVisible := false;
      favListOpened := !favListOpened;
      if !favListOpened {
        r := CloseFavourites();
        return;
      }
      r := OpenFavourites();
    }

    /** The closing half of FavPokemonList_Click. */
    method CloseFavourites() returns (r: Outcome<()>)
      requires Valid()
      modifies this`tiles, this`searchVisible, builder`pokemonsData, controller`pokemons, controller`maxPokemonCount, controller`requests
      ensures Valid() && searchVisible
      ensures var (start, end) := GridWindow(currentPage);
        (controller.pokemons, controller.requests)
        == RangeFill(controller.remote, old(controller.pokemons), old(controller.requests),
                     old(controller.maxPokemonCount), start, end)
      ensures controller.maxPokemonCount == controller.remote.count
      ensures var (start, end) := GridWindow(currentPage);
        && (r.Thrown? <==> !(1 <= start && end <= controller.remote.count))
        && (r.Done? ==> ShowsEntries(tiles, RangeEntries(controller.remote, start, end)))
    {
      searchVisible := true;
      r := LoadPokemonGrid();
    }

    /** The opening half of FavPokemonList_Click. */
    method OpenFavourites() returns (r: Outcome<()>)
      requires context.Valid() && context.loggedInUser.Some?
      modifies this`tiles, this`prevButtonVisible, this`nextButtonVisible, this`infoVisible,
               this`infoText, this`searchVisible
      ensures var favourites := Favourites(context.pokemons, context.links, context.loggedInUser.value.id);
        && r == Done(())
        && !searchVisible && !prevButtonVisible && !nextButtonVisible
        && tiles == StoreTiles(favourites)
        && (infoVisible <==> favourites == [])
        && (infoVisible ==> infoText == NoFavPokemonsMessage)
    {
      tiles := [];
      searchVisible := false;
      SetPageButtonsVisibilityState(false);
      infoVisible := false;
      var loggedInUser := context.loggedInUser.value;
      var pokemonUsers := set l | l in context.links && l.userId == loggedInUser.id;
      FavouritesIffLinked(context.pokemons, context.links, loggedInUser.id);
      var pokemonsDB := Favourites(context.pokemons, context.links, loggedInUser.id);
      if pokemonUsers == {} {
        assert forall l :: l in context.links ==> l !in pokemonUsers;
        infoVisible := true;
        infoText := NoFavPokemonsMessage;
        return Done(());
      }
      assert exists l :: l in pokemonUsers;
      ShowRows(pokemonsDB);
      r := Done(());
    }

    /** The foreach adding one tile per favourite row, in order. */
    method ShowRows(rows: seq<PokemonRow>)
      modifies this`tiles
      ensures tiles == old(tiles) + StoreTiles(rows)
    {
      ghost var before := tiles;
      for k := 0 to |rows|
        invariant tiles == before + StoreTiles(rows[..k])
      {
        assert rows[..k + 1] == rows[..k] + [rows[k]];
        StoreTilesSnoc(rows[..k], rows[k]);
        tiles := tiles + [FromStore(rows[k])];
      }
      assert rows[..|rows|] == rows;
    }
  }
}
