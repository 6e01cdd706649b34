/** PokemonCompactData.cs: the compact, UI-facing projection of a catalog entry and
    the plain records it is made of. */
module CompactData {
  import opened Wrappers
  import opened Text
  import opened PokeApi

  datatype StatisticsCompactData = StatisticsCompactData(name: string, value: int)
  datatype AbilityCompactData = AbilityCompactData(name: string, description: string)

  /** PokemonBaseData: height and weight are kept as the decimal text of the entry's integers. */
  datatype PokemonBaseData = PokemonBaseData(
    id: int,
    name: string,
    height: string,
    weight: string,
    xp: Option<int>,
    spriteUrl: string,
    speciesUrl: string,
    types: seq<string>,
    statistics: seq<StatisticsCompactData>)

  datatype PokemonExtendedData = PokemonExtendedData(evolutionChainId: int, abilities: seq<AbilityCompactData>)

  /** A resolved evolution chain: its chain id and the ids of its members in lineage order. */
  datatype EvolutionChainCompactData = EvolutionChainCompactData(evolutionId: int, evolutionElementsIds: seq<int>)

  /** The type names of an entry's type slots, in slot order. */
  function TypeNames(ts: seq<TypeSlot>): seq<string>
    decreases |ts|
  {
    if ts == [] then [] else TypeNames(ts[..|ts| - 1]) + [ts[|ts| - 1].typeName]
  }

  /** (name, base stat) for each of an entry's stats, in order. */
  function Statistics(ss: seq<StatSlot>): seq<StatisticsCompactData>
    decreases |ss|
  {
    if ss == [] then []
    else Statistics(ss[..|ss| - 1]) + [StatisticsCompactData(ss[|ss| - 1].statName, ss[|ss| - 1].baseStat)]
  }

  /** The base data that InitPokemonBaseData stores for entry `p` and sprite `spriteUrl`. */
  function BaseDataOf(p: Entry, spriteUrl: string): PokemonBaseData {
    PokemonBaseData(p.id, p.name, IntToString(p.height), IntToString(p.weight), p.baseExperience,
                    spriteUrl, p.speciesUrl, TypeNames(p.types), Statistics(p.stats))
  }

  lemma {:induction false} TypeNamesProjection(ts: seq<TypeSlot>)
    ensures |TypeNames(ts)| == |ts|
    ensures forall k :: 0 <= k < |ts| ==> TypeNames(ts)[k] == ts[k].typeName
    decreases |ts|
  {
    if ts != [] {
      TypeNamesProjection(ts[..|ts| - 1]);
    }
  }

  lemma {:induction false} StatisticsProjection(ss: seq<StatSlot>)
    ensures |Statistics(ss)| == |ss|
    ensures forall k :: 0 <= k < |ss| ==>
      Statistics(ss)[k] == StatisticsCompactData(ss[k].statName, ss[k].baseStat)
    decreases |ss|
  {
    if ss != [] {
      StatisticsProjection(ss[..|ss| - 1]);
    }
  }

  /** The base data copies id, name, experience, sprite and species URL unchanged,
      stores height and weight as text that parses back to the entry's numbers, and
      keeps one type name and one statistic per slot of the entry, in order. */
  lemma BaseDataOfProjects(p: Entry, spriteUrl: string)
    ensures var b := BaseDataOf(p, spriteUrl);
      && b.id == p.id && b.name == p.name && b.xp == p.baseExperience
      && b.spriteUrl == spriteUrl && b.speciesUrl == p.speciesUrl
      && ParseInt(b.height) == Some(p.height) && ParseInt(b.weight) == Some(p.weight)
      && |b.types| == |p.types|
      && (forall k :: 0 <= k < |p.types| ==> b.types[k] == p.types[k].typeName)
      && |b.statistics| == |p.stats|
      && (forall k :: 0 <= k < |p.stats| ==>
            b.statistics[k].name == p.stats[k].statName && b.statistics[k].value == p.stats[k].baseStat)
  {
    ParseIntToString(p.height);
    ParseIntToString(p.weight);
    TypeNamesProjection(p.types);
    StatisticsProjection(p.stats);
  }

  /** PokemonCompactData: base data filled once per entry, extended data filled later
      for the details panel. Both start out null. */
  class PokemonCompactData {
    var baseData: Option<PokemonBaseData>
    var extendedData: Option<PokemonExtendedData>

    constructor ()
      ensures baseData == None && extendedData == None
    {
      baseData := None;
      extendedData := None;
    }

    /** Fills the base data from `pokemon`, building the type and statistic lists one
        slot at a time. */
    method InitPokemonBaseData(pokemon: Entry, spriteUrl: string)
      modifies this
      ensures baseData == Some(BaseDataOf(pokemon, spriteUrl))
      ensures extendedData == old(extendedData)
    {
      var types: seq<string> := [];
      var k := 0;
      while k < |pokemon.types|
        invariant 0 <= k <= |pokemon.types|
        invariant types == TypeNames(pokemon.types[..k])
      {
        assert pokemon.types[..k + 1][..k] == pokemon.types[..k];
        types := types + [pokemon.types[k].typeName];
        k := k + 1;
      }
      assert pokemon.types[..k] == pokemon.types;
      var statistics: seq<StatisticsCompactData> := [];
      k := 0;
      while k < |pokemon.stats|
        invariant 0 <= k <= |pokemon.stats|
        invariant statistics == Statistics(pokemon.stats[..k])
      {
        assert pokemon.stats[..k + 1][..k] == pokemon.stats[..k];
        var stat := pokemon.stats[k];
        statistics := statistics + [StatisticsCompactData(stat.statName, stat.baseStat)];
        k := k + 1;
      }
      assert pokemon.stats[..k] == pokemon.stats;
      baseData := Some(PokemonBaseData(pokemon.id, pokemon.name, IntToString(pokemon.height),
                                       IntToString(pokemon.weight), pokemon.baseExperience,
                                       spriteUrl, pokemon.speciesUrl, types, statistics));
    }

    /** Replaces the extended data by exactly the given chain id and abilities. */
    method InitPokemonExtendedData(evolutionChainId: int, abilities: seq<AbilityCompactData>)
      modifies this
      ensures extendedData == Some(PokemonExtendedData(evolutionChainId, abilities))
      ensures baseData == old(baseData)
    {
      extendedData := Some(PokemonExtendedData(evolutionChainId, abilities));
    }
  }
}
