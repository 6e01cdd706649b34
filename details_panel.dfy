/** StatisticPanel.xaml.cs: the details window of one pokemon — its evolution chain with
    the pokemon itself outlined, its height, weight, types and experience as text, one
    grid row per positive statistic, two grid rows per ability, and the pokeball button
    that adds the pokemon to or removes it from the user's favourites. */
module DetailsPanel {
  import opened Wrappers
  import opened Sequences
  import opened Text
  import opened PokeApi
  import opened CompactData
  import opened Catalog
  import opened Store
  import opened Controller

  const HeightUnit := "cm"
  const WeightUnit := "kg"
  const AddToFavorites := "Catch pokemon in pokeball"
  const RemoveFromFavorites := "Release pokemon from pokeball"
  const PokemonCatch := "Catch!"
  const PokemonRelease := "Release"

  /** One member of the displayed evolution chain. */
  datatype PokemonChainDisplay = PokemonChainDisplay(imageUrl: string, name: string, id: int)

  /** A statistic shown on grid row `row`: its name in column 0, its bar in column 1. */
  datatype StatRow = StatRow(row: int, name: string, value: int)

  /** What the abilities grid holds: a name (column 0), a description (column 1), or a
      separator spanning both columns. */
  datatype AbilityCell =
    | NameCell(row: int, text: string)
    | DescriptionCell(row: int, text: string)
    | Separator(row: int)

  /** One column of the evolution-chain grid: picture and name, and whether the picture
      is outlined. */
  datatype ChainCell = ChainCell(column: int, imageUrl: string, name: string, outlined: bool)

  // ---------------------------------------------------------------------------------
  // Basic data as text

  /** The height text: the height in decimetres followed by "0 cm". */
  function HeightText(height: string): string {
    height + "0 " + HeightUnit
  }

  /** Appending the zero digit turns decimetres into centimetres; a height of zero
      reads "00 cm". */
  lemma HeightInCentimetres(h: int)
    ensures h != 0 ==> HeightText(IntToString(h)) == IntToString(h * 10) + " cm"
    ensures h == 0 ==> HeightText(IntToString(h)) == "00 cm"
  {
    AppendZeroDigit(h);
    assert HeightText(IntToString(h)) == (IntToString(h) + "0") + " cm";
  }

  /** The weight text: int.Parse of the weight in hectograms, divided by 10 with C#'s
      truncating division, followed by " kg". A weight that is not a number throws. */
  function WeightText(weight: string): (r: Outcome<string>)
    ensures r.Thrown? <==> ParseInt(weight).None?
    ensures r.Thrown? ==> r.fault == FormatError
  {
    match ParseInt(weight)
    case None => Thrown(FormatError)
    case Some(w) => Done(IntToString(TruncDiv(w, 10)) + " " + WeightUnit)
  }

  /** A stored weight always parses; the kilograms are the hectograms rounded toward
      zero. */
  lemma WeightInKilograms(w: int)
    ensures WeightText(IntToString(w)) == Done(IntToString(TruncDiv(w, 10)) + " kg")
    ensures w >= 0 ==> 10 * TruncDiv(w, 10) <= w < 10 * TruncDiv(w, 10) + 10
    ensures w < 0 ==> 10 * TruncDiv(w, 10) - 10 < w <= 10 * TruncDiv(w, 10)
  {
    ParseIntToString(w);
    AppendAssoc(IntToString(TruncDiv(w, 10)), " ", WeightUnit);
    assert " " + WeightUnit == " kg";
  }

  /** The experience text: a missing base experience (a null int?) prints as "". */
  function XpText(xp: Option<int>): string {
    match xp
    case None => ""
    case Some(x) => IntToString(x)
  }

  // ---------------------------------------------------------------------------------
  // Statistics grid

  /** The statistics that get a row: those with a positive value, in order. */
  function ShownStats(stats: seq<StatisticsCompactData>): seq<StatisticsCompactData> {
    Filter(stats, (s: StatisticsCompactData) => s.value > 0)
  }

  /** Row k shows the k-th shown statistic. */
  function StatRows(shown: seq<StatisticsCompactData>): seq<StatRow> {
    seq(|shown|, k requires 0 <= k < |shown| => StatRow(k, shown[k].name, shown[k].value))
  }

  /** One statistic more adds a row after the previous ones exactly when it is positive. */
  lemma ShownStatsStep(stats: seq<StatisticsCompactData>, k: nat)
    requires k < |stats|
    ensures var before := StatRows(ShownStats(stats[..k]));
      StatRows(ShownStats(stats[..k + 1]))
      == before + (if stats[k].value > 0 then [StatRow(|before|, stats[k].name, stats[k].value)] else [])
  {
    var s := stats[k];
    assert stats[..k + 1] == stats[..k] + [s];
    FilterSnoc(stats[..k], s, (s: StatisticsCompactData) => s.value > 0);
    var shown := ShownStats(stats[..k]);
    if s.value > 0 {
      var all := shown + [s];
      var rows := StatRows(shown) + [StatRow(|shown|, s.name, s.value)];
      forall j | 0 <= j < |all| ensures StatRows(all)[j] == rows[j] {
        if j < |shown| {
          assert all[j] == shown[j];
        }
      }
      assert StatRows(all) == rows;
    }
  }

  /** The number of statistics with a positive value, counted independently of the
      filter. */
  function CountPositive(stats: seq<StatisticsCompactData>): nat
    decreases |stats|
  {
    if stats == [] then 0
    else CountPositive(stats[..|stats| - 1]) + (if stats[|stats| - 1].value > 0 then 1 else 0)
  }

  lemma {:induction false} ShownStatsCount(stats: seq<StatisticsCompactData>)
    ensures |ShownStats(stats)| == CountPositive(stats)
    decreases |stats|
  {
    if stats != [] {
      var t, s := stats[..|stats| - 1], stats[|stats| - 1];
      assert stats == t + [s];
      FilterSnoc(t, s, (s: StatisticsCompactData) => s.value > 0);
      ShownStatsCount(t);
    }
  }

  /** Rows are numbered 0, 1, … with no gap, as many as there are positive statistics;
      every row shows a positive statistic of the pokemon and every positive statistic
      has a row. */
  lemma StatisticsLayout(stats: seq<StatisticsCompactData>)
    ensures var rows := StatRows(ShownStats(stats));
      && |rows| == CountPositive(stats)
      && (forall k :: 0 <= k < |rows| ==>
            rows[k].row == k && rows[k].value > 0
            && StatisticsCompactData(rows[k].name, rows[k].value) in stats)
      && (forall s :: s in stats && s.value > 0 ==>
            exists k :: 0 <= k < |rows| && rows[k] == StatRow(k, s.name, s.value))
  {
    ShownStatsCount(stats);
    var shown := ShownStats(stats);
    var rows := StatRows(shown);
    forall k | 0 <= k < |rows|
      ensures rows[k].row == k && rows[k].value > 0
      ensures StatisticsCompactData(rows[k].name, rows[k].value) in stats
    {
      assert shown[k] in shown;
      assert StatisticsCompactData(rows[k].name, rows[k].value) == shown[k];
    }
    forall s | s in stats && s.value > 0
      ensures exists k :: 0 <= k < |rows| && rows[k] == StatRow(k, s.name, s.value)
    {
      assert s in shown;
      var k :| 0 <= k < |shown| && shown[k] == s;
      assert rows[k] == StatRow(k, s.name, s.value);
    }
  }

  // ---------------------------------------------------------------------------------
  // Abilities grid

  /** Ability k takes rows 2k and 2k+1: its name and its description (newlines turned
      into spaces) on the first, a separator on the second. */
  function AbilityLayout(abilities: seq<AbilityCompactData>): seq<AbilityCell>
    decreases |abilities|
  {
    if abilities == [] then []
    else
      var n := |abilities| - 1;
      AbilityLayout(abilities[..n])
      + [NameCell(2 * n, abilities[n].name),
         DescriptionCell(2 * n, ReplaceNewlines(abilities[n].description)),
         Separator(2 * n + 1)]
  }

  /** Three cells per ability, in order: ability k's name and description on row 2k,
      its separator on row 2k+1. */
  lemma AbilityLayoutCells(abilities: seq<AbilityCompactData>)
    ensures var cells := AbilityLayout(abilities);
      && |cells| == 3 * |abilities|
      && (forall k :: 0 <= k < |abilities| ==>
            && cells[3 * k] == NameCell(2 * k, abilities[k].name)
            && cells[3 * k + 1] == DescriptionCell(2 * k, ReplaceNewlines(abilities[k].description))
            && cells[3 * k + 2] == Separator(2 * k + 1))
  {
    forall k | 0 <= k < |abilities|
      ensures 3 * k + 2 < |AbilityLayout(abilities)|
      ensures AbilityLayout(abilities)[3 * k] == NameCell(2 * k, abilities[k].name)
      ensures AbilityLayout(abilities)[3 * k + 1] == DescriptionCell(2 * k, ReplaceNewlines(abilities[k].description))
      ensures AbilityLayout(abilities)[3 * k + 2] == Separator(2 * k + 1)
    {
      AbilityLayoutAt(abilities, k);
    }
    AbilityLayoutLength(abilities);
  }

  lemma {:induction false} AbilityLayoutLength(abilities: seq<AbilityCompactData>)
    ensures |AbilityLayout(abilities)| == 3 * |abilities|
    decreases |abilities|
  {
    if abilities != [] {
      AbilityLayoutLength(abilities[..|abilities| - 1]);
    }
  }

  /** The three cells of ability k. */
  lemma {:induction false} AbilityLayoutAt(abilities: seq<AbilityCompactData>, k: nat)
    requires k < |abilities|
    ensures var cells := AbilityLayout(abilities);
      && 3 * k + 2 < |cells|
      && cells[3 * k] == NameCell(2 * k, abilities[k].name)
      && cells[3 * k + 1] == DescriptionCell(2 * k, ReplaceNewlines(abilities[k].description))
      && cells[3 * k + 2] == Separator(2 * k + 1)
    decreases |abilities|
  {
    var n := |abilities| - 1;
    var prefix := abilities[..n];
    AbilityLayoutLength(prefix);
    if k < n {
      AbilityLayoutAt(prefix, k);
      assert abilities[k] == prefix[k];
    }
  }

  /** Every cell lies on one of the 2·|abilities| rows, and no description holds a line
      break. */
  lemma {:induction false} AbilityLayoutRows(abilities: seq<AbilityCompactData>)
    ensures var cells := AbilityLayout(abilities);
      && (forall c :: c in cells ==> 0 <= c.row < 2 * |abilities|)
      && (forall c :: c in cells && c.DescriptionCell? ==> '\n' !in c.text)
    decreases |abilities|
  {
    if abilities != [] {
      var n := |abilities| - 1;
      AbilityLayoutRows(abilities[..n]);
      var before := AbilityLayout(abilities[..n]);
      var last := [NameCell(2 * n, abilities[n].name),
                   DescriptionCell(2 * n, ReplaceNewlines(abilities[n].description)),
                   Separator(2 * n + 1)];
      assert AbilityLayout(abilities) == before + last;
      forall c: AbilityCell | c in before + last
        ensures 0 <= c.row < 2 * |abilities|
        ensures c.DescriptionCell? ==> '\n' !in c.text
      {
        if c !in before {
          assert c == last[0] || c == last[1] || c == last[2];
        }
      }
    }
  }

  // ---------------------------------------------------------------------------------
  // Evolution-chain grid

  /** Column k shows chain member k, outlined exactly when it is the displayed pokemon. */
  function ChainLayout(members: seq<PokemonChainDisplay>, pokemonId: int): seq<ChainCell> {
    seq(|members|, k requires 0 <= k < |members| =>
      ChainCell(k, members[k].imageUrl, members[k].name, members[k].id == pokemonId))
  }

  /** When chain members have distinct ids, at most one picture is outlined, and one is
      exactly when the displayed pokemon belongs to the chain. */
  lemma OutlinedOnce(members: seq<PokemonChainDisplay>, pokemonId: int)
    requires forall j, k :: 0 <= j < k < |members| ==> members[j].id != members[k].id
    ensures var cells := ChainLayout(members, pokemonId);
      && (forall j, k :: 0 <= j < |cells| && 0 <= k < |cells| && cells[j].outlined && cells[k].outlined ==> j == k)
      && ((exists k :: 0 <= k < |cells| && cells[k].outlined) <==>
          (exists k :: 0 <= k < |members| && members[k].id == pokemonId))
  {
    var cells := ChainLayout(members, pokemonId);
    if exists k :: 0 <= k < |members| && members[k].id == pokemonId {
      var k :| 0 <= k < |members| && members[k].id == pokemonId;
      assert cells[k].outlined;
    }
  }

  /** pokemons.FirstOrDefault(p => p.Id == id). */
  function FindMember(members: seq<PokemonChainDisplay>, id: int): (r: Option<PokemonChainDisplay>)
    ensures r.Some? ==> r.value in members && r.value.id == id
    ensures r.None? <==> forall k :: 0 <= k < |members| ==> members[k].id != id
    decreases |members|
  {
    if members == [] then None
    else if members[0].id == id then Some(members[0])
    else FindMember(members[1..], id)
  }

  /** The chain members as the panel loads them: each id fetched from the service, in
      order; a missing pokemon makes the load fail. */
  function ChainDisplays(remote: Remote, ids: seq<int>): (r: Option<seq<PokemonChainDisplay>>)
    ensures r.Some? <==> forall k :: 0 <= k < |ids| ==> ids[k] in remote.pokemonById
    ensures r.Some? ==> |r.value| == |ids|
    ensures r.Some? ==> forall k :: 0 <= k < |ids| ==>
      var p := remote.pokemonById[ids[k]];
      r.value[k] == PokemonChainDisplay(p.officialArtwork, p.name, p.id)
    decreases |ids|
  {
    if ids == [] then Some([])
    else
      var n := |ids| - 1;
      match ChainDisplays(remote, ids[..n])
      case None => None
      case Some(front) =>
        if ids[n] in remote.pokemonById then
          var p := remote.pokemonById[ids[n]];
          Some(front + [PokemonChainDisplay(p.officialArtwork, p.name, p.id)])
        else None
  }

  // ---------------------------------------------------------------------------------
  // Favourites

  /** The pokemon is a favourite of the user: it has a row, and that row is linked to
      the user. */
  /** What loading the chain members does to the controller's cache and log: each id
      through the cache, in order, until the first one the service does not serve. */
  function MembersFill(remote: Remote, cache: seq<Entry>, log: seq<Request>, ids: seq<int>)
    : (seq<Entry>, seq<Request>)
    decreases |ids|
  {
    if ids == [] then (cache, log)
    else
      var step := IdStep(remote, cache, log, ids[0]);
      if ids[0] in remote.pokemonById then MembersFill(remote, step.0, step.1, ids[1..]) else step
  }

  /** Whether the service serves every id of a chain. */
  predicate AllServed(remote: Remote, ids: seq<int>)
  {
    forall id :: id in ids ==> id in remote.pokemonById
  }

  /** Whether every id of a chain is cached with the service's entry. */
  predicate MembersCached(remote: Remote, cache: seq<Entry>, ids: seq<int>)
  {
    forall id :: id in ids ==> id in remote.pokemonById && FindById(cache, id) == Some(remote.pokemonById[id])
  }

  /** A chain is cached when its first member is and the rest of it is. */
  lemma MembersCachedCons(remote: Remote, cache: seq<Entry>, ids: seq<int>)
    requires ids != [] && ids[0] in remote.pokemonById
    requires FindById(cache, ids[0]) == Some(remote.pokemonById[ids[0]])
    requires MembersCached(remote, cache, ids[1..])
    ensures MembersCached(remote, cache, ids)
  {
    forall id | id in ids ensures id in remote.pokemonById && FindById(cache, id) == Some(remote.pokemonById[id]) {
      if id != ids[0] {
        assert id in ids[1..];
      }
    }
  }

  /** Loading the chain keeps the cache good and only grows the cache and the log. */
  lemma {:induction false} MembersFillGood(remote: Remote, cache: seq<Entry>, log: seq<Request>, ids: seq<int>)
    requires GoodCache(remote, cache)
    ensures var s := MembersFill(remote, cache, log, ids);
      GoodCache(remote, s.0) && cache <= s.0 && log <= s.1
    decreases |ids|
  {
    if ids != [] {
      var step := IdStep(remote, cache, log, ids[0]);
      IdStepCaches(remote, cache, log, ids[0]);
      if ids[0] in remote.pokemonById {
        MembersFillGood(remote, step.0, step.1, ids[1..]);
      }
    }
  }

  /** A load that finds every member leaves every member cached with the service's
      entry; any load keeps the cache good and only grows the cache and the log. */
  lemma {:induction false} MembersFillCaches(remote: Remote, cache: seq<Entry>, log: seq<Request>, ids: seq<int>)
    requires GoodCache(remote, cache)
    ensures var s := MembersFill(remote, cache, log, ids);
      && GoodCache(remote, s.0) && cache <= s.0 && log <= s.1
      && (AllServed(remote, ids) ==> MembersCached(remote, s.0, ids))
    decreases |ids|
  {
    MembersFillGood(remote, cache, log, ids);
    if ids != [] && AllServed(remote, ids) {
      var step := IdStep(remote, cache, log, ids[0]);
      IdStepCaches(remote, cache, log, ids[0]);
      var rest := ids[1..];
      assert AllServed(remote, rest) by {
        forall id | id in rest ensures id in remote.pokemonById {
          assert id in ids;
        }
      }
      MembersFillCaches(remote, step.0, step.1, rest);
      var s := MembersFill(remote, cache, log, ids);
      assert s == MembersFill(remote, step.0, step.1, rest);
      assert step.0 + s.0[|step.0|..] == s.0;
      FindByIdExtend(step.0, s.0[|step.0|..], ids[0]);
      MembersCachedCons(remote, s.0, ids);
    }
  }

  function Caught(rows: seq<PokemonRow>, links: set<Link>, pokeApiId: int, userId: int): bool {
    match FindPokemonRow(rows, pokeApiId)
    case None => false
    case Some(row) => Link(row.id, userId) in links
  }

  /** The details panel. Its fields hold what the window's widgets show. */
  class StatisticPanel {
    const context: PokeContext
    const controller: PokeAPIController
    var pokemonId: int
    var pokemons: seq<PokemonChainDisplay>
    var heightText: string
    var weightText: string
    var typesText: string
    var xpText: string
    var statRows: seq<StatRow>
    var abilityCells: seq<AbilityCell>
    var abilityRowCount: nat
    var chainCells: seq<ChainCell>
    var chainColumnCount: nat
    var pokeballToolTip: string
    var pokeballInfo: string

    constructor (context: PokeContext, controller: PokeAPIController)
      ensures this.context == context && this.controller == controller
      ensures pokemons == [] && statRows == [] && abilityCells == [] && chainCells == []
    {
      this.context := context;
      this.controller := controller;
      pokemonId := 0;
      pokemons := [];
      heightText, weightText, typesText, xpText := "", "", "", "";
      statRows := [];
      abilityCells := [];
      abilityRowCount := 0;
      chainCells := [];
      chainColumnCount := 0;
      pokeballToolTip, pokeballInfo := "", "";
    }

    /** The pokeball caption: "Catch!" exactly when the pokemon is not a favourite of
        the logged-in user. */
    ghost predicate PokeballShows(caught: bool)
      reads this
    {
      && (pokeballInfo == PokemonCatch <==> !caught)
      && (pokeballInfo == PokemonRelease <==> caught)
      && pokeballToolTip == (if caught then RemoveFromFavorites else AddToFavorites)
    }

    /** The chain grid and the basic data texts, once filled from `base`. */
    ghost predicate ShowsBasicData(base: PokemonBaseData)
      reads this
    {
      && chainCells == ChainLayout(pokemons, pokemonId)
      && heightText == HeightText(base.height)
      && Done(weightText) == WeightText(base.weight)
      && typesText == Join(base.types, ", ")
      && xpText == XpText(base.xp)
    }

    /** The statistic rows, the ability cells and the pokeball state. */
    ghost predicate ShowsGrids(base: PokemonBaseData, abilities: seq<AbilityCompactData>)
      reads this, context
    {
      && context.loggedInUser.Some?
      && statRows == StatRows(ShownStats(base.statistics))
      && abilityCells == AbilityLayout(abilities)
      && PokeballShows(Caught(context.pokemons, context.links, pokemonId, context.loggedInUser.value.id))
    }

    /** Init: loads the chain the controller memoised for the pokemon, then shows it.
        A null part of `pokemonData`, an unknown chain or a chain member the service
        lacks throws on the null; a weight that is not a number throws in int.Parse. */
    method Init(pokemonData: PokemonCompactData) returns (r: Outcome<()>)
      requires controller.Valid() && context.loggedInUser.Some?
      modifies this`pokemonId, this`pokemons, this`chainCells, this`chainColumnCount, this`heightText,
               this`weightText, this`typesText, this`xpText, this`statRows, this`abilityCells,
               this`abilityRowCount, this`pokeballToolTip, this`pokeballInfo,
               controller`pokemons, controller`requests
      ensures controller.Valid()
      ensures pokemonData.baseData.None? || pokemonData.extendedData.None? ==> r == Thrown(NullReference)
      ensures pokemonData.baseData.Some? && pokemonData.extendedData.Some? ==>
        var base, ext := pokemonData.baseData.value, pokemonData.extendedData.value;
        var memo := MemoLookup(old(controller.evolutionChains), ext.evolutionChainId);
        var loaded := if memo.None? then None
                      else ChainDisplays(controller.remote, memo.value.evolutionElementsIds);
        && (loaded.None? ==> r == Thrown(NullReference))
        && (loaded.Some? ==>
              && pokemonId == base.id
              && pokemons == loaded.value
              && (r.Thrown? <==> WeightText(base.weight).Thrown?)
              && (r.Thrown? ==> r == Thrown(FormatError))
              && (r.Done? ==> ShowsBasicData(base) && ShowsGrids(base, ext.abilities)))
      ensures (controller.pokemons, controller.requests) ==
        var memo := if pokemonData.baseData.None? || pokemonData.extendedData.None? then None
                    else MemoLookup(old(controller.evolutionChains), pokemonData.extendedData.value.evolutionChainId);
        if memo.None? then (old(controller.pokemons), old(controller.requests))
        else MembersFill(controller.remote, old(controller.pokemons), old(controller.requests),
                         memo.value.evolutionElementsIds)
    {
      if pokemonData.baseData.None? || pokemonData.extendedData.None? {
        return Thrown(NullReference);
      }
      var base, ext := pokemonData.baseData.value, pokemonData.extendedData.value;
      pokemonId := base.id;
      pokemons := [];
      var memo := MemoLookup(controller.evolutionChains, ext.evolutionChainId);
      if memo.None? {
        return Thrown(NullReference);
      }
      var loaded := LoadChain(memo.value.evolutionElementsIds);
      if loaded.None? {
        return Thrown(NullReference);
      }
      r := ShowChain(loaded.value, base, ext.abilities);
    }

    /** The end of Init once the chain is loaded: keeps its members and displays them
        with the pokemon's data. */
    method ShowChain(members: seq<PokemonChainDisplay>, base: PokemonBaseData, abilities: seq<AbilityCompactData>)
      returns (r: Outcome<()>)
      requires context.loggedInUser.Some?
      modifies this`pokemons, this`chainCells, this`chainColumnCount, this`heightText, this`weightText,
               this`typesText, this`xpText, this`statRows, this`abilityCells,
               this`abilityRowCount, this`pokeballToolTip, this`pokeballInfo
      ensures pokemons == members
      ensures r.Thrown? <==> WeightText(base.weight).Thrown?
      ensures r.Thrown? ==> r == Thrown(FormatError)
      ensures r.Done? ==> ShowsBasicData(base) && ShowsGrids(base, abilities)
    {
      pokemons := members;
      r := Display(base, abilities);
    }

    /** The display calls at the end of Init, in the source's order; an unparsable
        weight stops them after the height text. */
    method Display(base: PokemonBaseData, abilities: seq<AbilityCompactData>) returns (r: Outcome<()>)
      requires context.loggedInUser.Some?
      modifies this`chainCells, this`chainColumnCount, this`heightText, this`weightText,
               this`typesText, this`xpText, this`statRows, this`abilityCells,
               this`abilityRowCount, this`pokeballToolTip, this`pokeballInfo
      ensures r.Thrown? <==> WeightText(base.weight).Thrown?
      ensures r.Thrown? ==> r == Thrown(FormatError)
      ensures r.Done? ==> ShowsBasicData(base) && ShowsGrids(base, abilities)
    {
      DisplayPokemonEvolutionChain(pokemons);
      r := DisplayFormattedBasicData(base);
      if r.Thrown? {
        return;
      }
      DisplayGrids(base, abilities);
    }

    /** DisplayStatistics, DisplayAbilities and InitPokeballInfo, which leave the chain
        and the basic data texts alone. */
    method DisplayGrids(base: PokemonBaseData, abilities: seq<AbilityCompactData>)
      requires context.loggedInUser.Some?
      modifies this`statRows, this`abilityCells, this`abilityRowCount, this`pokeballToolTip,
               this`pokeballInfo
      ensures ShowsGrids(base, abilities)
    {
      var rows := DisplayStatistics(base.statistics);
      rows := DisplayAbilities(abilities);
      InitPokeballInfo();
    }

    /** The foreach over the chain ids: fetches each member and stops at the first one
        the service does not have (whose Sprites would be dereferenced on null). */
    method LoadChain(ids: seq<int>) returns (r: Option<seq<PokemonChainDisplay>>)
      requires controller.Valid()
      modifies controller`pokemons, controller`requests
      ensures controller.Valid()
      ensures r == ChainDisplays(controller.remote, ids)
      ensures (controller.pokemons, controller.requests)
           == MembersFill(controller.remote, old(controller.pokemons), old(controller.requests), ids)
    {
      var members: seq<PokemonChainDisplay> := [];
      for k := 0 to |ids|
        invariant controller.Valid()
        invariant ChainDisplays(controller.remote, ids[..k]) == Some(members)
        invariant MembersFill(controller.remote, controller.pokemons, controller.requests, ids[k..])
               == MembersFill(controller.remote, old(controller.pokemons), old(controller.requests), ids)
      {
        assert ids[..k + 1][..k] == ids[..k];
        assert ids[k..][1..] == ids[k + 1..];
        ghost var (cache, log) := (controller.pokemons, controller.requests);
        var pokemon := controller.GetPokemonById(ids[k]);
        assert (controller.pokemons, controller.requests) == IdStep(controller.remote, cache, log, ids[k]);
        if pokemon.None? {
          assert ChainDisplays(controller.remote, ids[..k + 1]).None?;
          assert ids[..k + 1] <= ids;
          ChainDisplaysPrefixFails(controller.remote, ids, k + 1);
          return None;
        }
        var p := pokemon.value;
        members := members + [PokemonChainDisplay(p.officialArtwork, p.name, p.id)];
      }
      assert ids[..|ids|] == ids;
      r := Some(members);
    }

    /** DisplayFormattedBasicData: the height, weight, types and experience texts. The
        height text is set before the weight is parsed. */
    method DisplayFormattedBasicData(base: PokemonBaseData) returns (r: Outcome<()>)
      modifies this`heightText, this`weightText, this`typesText, this`xpText
      ensures heightText == HeightText(base.height)
      ensures r.Thrown? <==> WeightText(base.weight).Thrown?
      ensures r.Thrown? ==>
        r == Thrown(FormatError)
        && weightText == old(weightText) && typesText == old(typesText) && xpText == old(xpText)
      ensures r.Done? ==>
        Done(weightText) == WeightText(base.weight)
        && typesText == Join(base.types, ", ") && xpText == XpText(base.xp)
    {
      heightText := base.height + "0 " + HeightUnit;
      var weight := ParseInt(base.weight);
      if weight.None? {
        return Thrown(FormatError);
      }
      var kilograms := TruncDiv(weight.value, 10);
      weightText := IntToString(kilograms) + " " + WeightUnit;
      typesText := Join(base.types, ", ");
      xpText := XpText(base.xp);
      r := Done(());
    }

    /** DisplayStatistics: a row for each positive statistic; `row` ends as the number
        of rows used. */
    method DisplayStatistics(stats: seq<StatisticsCompactData>) returns (row: nat)
      modifies this`statRows
      ensures statRows == StatRows(ShownStats(stats))
      ensures row == |statRows| == CountPositive(stats)
    {
      statRows := [];
      row := 0;
      for k := 0 to |stats|
        invariant statRows == StatRows(ShownStats(stats[..k]))
        invariant row == |statRows|
      {
        var stat := stats[k];
        ShownStatsStep(stats, k);
        if stat.value > 0 {
          statRows := statRows + [StatRow(row, stat.name, stat.value)];
          row := row + 1;
        }
      }
      assert stats[..|stats|] == stats;
      ShownStatsCount(stats);
    }

    /** DisplayAbilities: name and description on one row, a separator on the next;
        `row` ends as the number of rows used, which is also the number of row
        definitions added. */
    method DisplayAbilities(abilities: seq<AbilityCompactData>) returns (row: nat)
      modifies this`abilityCells, this`abilityRowCount
      ensures abilityCells == AbilityLayout(abilities)
      ensures row == abilityRowCount == 2 * |abilities|
    {
      abilityCells := [];
      abilityRowCount := 0;
      row := 0;
      for k := 0 to |abilities|
        invariant abilityCells == AbilityLayout(abilities[..k])
        invariant row == abilityRowCount == 2 * k
      {
        var ability := abilities[k];
        assert abilities[..k + 1][..k] == abilities[..k];
        abilityRowCount := abilityRowCount + 1;
        abilityCells := abilityCells + [NameCell(row, ability.name)];
        abilityCells := abilityCells + [DescriptionCell(row, ReplaceNewlines(ability.description))];
        row := row + 1;
        abilityRowCount := abilityRowCount + 1;
        abilityCells := abilityCells + [Separator(row)];
        row := row + 1;
      }
      assert abilities[..|abilities|] == abilities;
    }

    /** DisplayPokemonEvolutionChain: one column per member, a column definition added
        whenever the column index reaches the number defined so far. */
    method DisplayPokemonEvolutionChain(members: seq<PokemonChainDisplay>)
      modifies this`chainCells, this`chainColumnCount
      ensures chainCells == ChainLayout(members, pokemonId)
      ensures chainColumnCount == |members|
    {
      chainCells := [];
      chainColumnCount := 0;
      var column := 0;
      for k := 0 to |members|
        invariant column == chainColumnCount == k
        invariant chainCells == ChainLayout(members[..k], pokemonId)
      {
        var pokemon := members[k];
        var circleOutline := false;
        if pokemon.id == pokemonId {
          circleOutline := true;
        }
        if column >= chainColumnCount {
          chainColumnCount := chainColumnCount + 1;
        }
        chainCells := chainCells + [ChainCell(column, pokemon.imageUrl, pokemon.name, circleOutline)];
        column := column + 1;
      }
      assert members[..|members|] == members;
    }

    /** InitPokeballInfo: the caption and tool tip follow whether the pokemon is a
        favourite of the logged-in user. */
    method InitPokeballInfo()
      requires context.loggedInUser.Some?
      modifies this`pokeballToolTip, this`pokeballInfo
      ensures PokeballShows(Caught(context.pokemons, context.links, pokemonId, context.loggedInUser.value.id))
    {
      var loggedInUser := context.loggedInUser.value;
      var pokemonEntry := FindPokemonRow(context.pokemons, pokemonId);
      if pokemonEntry.None? {
        pokeballToolTip := AddToFavorites;
        pokeballInfo := PokemonCatch;
        return;
      }
      if Link(pokemonEntry.value.id, loggedInUser.id) !in context.links {
        pokeballToolTip := AddToFavorites;
        pokeballInfo := PokemonCatch;
      } else {
        pokeballToolTip := RemoveFromFavorites;
        pokeballInfo := PokemonRelease;
      }
    }

    /** FavPokemonButton_Click: makes sure the pokemon has a row (taking its name and
        picture from the chain, which throws when the pokemon is not in its own chain),
        then flips its link to the logged-in user and refreshes the pokeball. */
    method FavPokemonButtonClick() returns (r: Outcome<()>)
      requires context.Valid() && context.loggedInUser.Some?
      modifies context`pokemons, context`links, this`pokeballToolTip, this`pokeballInfo
      ensures context.Valid()
      ensures var userId := context.loggedInUser.value.id;
        var known := FindPokemonRow(old(context.pokemons), pokemonId);
        var member := FindMember(pokemons, pokemonId);
        if known.None? && member.None? then
          && r == Thrown(NullReference)
          && context.pokemons == old(context.pokemons) && context.links == old(context.links)
        else
          && r == Done(())
          && context.pokemons == old(context.pokemons)
               + (if known.Some? then []
                  else [PokemonRow(|old(context.pokemons)| + 1, pokemonId, member.value.name, member.value.imageUrl)])
          && FindPokemonRow(context.pokemons, pokemonId).Some?
          && context.links == Toggle(old(context.links), Link(FindPokemonRow(context.pokemons, pokemonId).value.id, userId))
          && Caught(context.pokemons, context.links, pokemonId, userId)
             == !Caught(old(context.pokemons), old(context.links), pokemonId, userId)
          && PokeballShows(Caught(context.pokemons, context.links, pokemonId, userId))
    {
      var loggedInUser := context.loggedInUser.value;
      var row := RowOfPokemon();
      if row.None? {
        return Thrown(NullReference);
      }
      ToggleFavourite(row.value, loggedInUser);
      r := Done(());
    }

    /** The end of FavPokemonButton_Click once the pokemon has its row: flips the
        row's link to the user and refreshes the pokeball. */
    method ToggleFavourite(row: PokemonRow, user: User)
      requires context.Valid() && context.loggedInUser == Some(user)
      requires FindPokemonRow(context.pokemons, pokemonId) == Some(row)
      modifies context`links, this`pokeballToolTip, this`pokeballInfo
      ensures context.Valid()
      ensures context.links == Toggle(old(context.links), Link(row.id, user.id))
      ensures Caught(context.pokemons, context.links, pokemonId, user.id)
           == !Caught(context.pokemons, old(context.links), pokemonId, user.id)
      ensures PokeballShows(Caught(context.pokemons, context.links, pokemonId, user.id))
    {
      FlipLink(row, user);
      InitPokeballInfo();
    }

    /** The pokemon's row, added (with the name and picture the chain shows for it)
        when there is none; nothing when it has no row and is not in its own chain. */
    method RowOfPokemon() returns (r: Option<PokemonRow>)
      requires context.Valid()
      modifies context`pokemons
      ensures context.Valid()
      ensures var known := FindPokemonRow(old(context.pokemons), pokemonId);
        var member := FindMember(pokemons, pokemonId);
        if known.None? && member.None? then
          r.None? && context.pokemons == old(context.pokemons)
        else
          && context.pokemons == old(context.pokemons)
               + (if known.Some? then []
                  else [PokemonRow(|old(context.pokemons)| + 1, pokemonId, member.value.name, member.value.imageUrl)])
          && r.Some? && r == FindPokemonRow(context.pokemons, pokemonId) && r.value in context.pokemons
    {
      r := FindPokemonRow(context.pokemons, pokemonId);
      if r.None? {
        var mainPokemonInChain := FindMember(pokemons, pokemonId);
        if mainPokemonInChain.None? {
          return None;
        }
        var row := context.AddPokemon(pokemonId, mainPokemonInChain.value.name, mainPokemonInChain.value.imageUrl);
        NewRowFound(old(context.pokemons), row);
        r := Some(row);
      }
    }

    /** Adds the link between the row and the user when there is none and removes it
        otherwise. */
    method FlipLink(row: PokemonRow, user: User)
      requires context.Valid() && row in context.pokemons && user in context.users
      modifies context`links
      ensures context.Valid()
      ensures context.links == Toggle(old(context.links), Link(row.id, user.id))
    {
      var link := Link(row.id, user.id);
      if link !in context.links {
        var j :| 0 <= j < |context.pokemons| && context.pokemons[j] == row;
        var k :| 0 <= k < |context.users| && context.users[k] == user;
        context.links := context.links + {link};
      } else {
        context.links := context.links - {link};
      }
    }
  }

  /** A row appended for a PokeAPI id no row had is the one the lookup then finds. */
  lemma NewRowFound(rows: seq<PokemonRow>, row: PokemonRow)
    requires FindPokemonRow(rows, row.pokeApiId).None?
    ensures FindPokemonRow(rows + [row], row.pokeApiId) == Some(row)
  {
    var all := rows + [row];
    assert all[|rows|] == row;
    assert forall k :: 0 <= k < |rows| ==> all[k] == rows[k];
  }

  /** A load that fails on a prefix of the ids fails on all of them. */
  lemma {:induction false} ChainDisplaysPrefixFails(remote: Remote, ids: seq<int>, n: nat)
    requires n <= |ids| && ChainDisplays(remote, ids[..n]).None?
    ensures ChainDisplays(remote, ids).None?
  {
    var k :| 0 <= k < n && ids[..n][k] !in remote.pokemonById;
    assert ids[k] !in remote.pokemonById;
  }
}
