/** The documents served by the remote PokeAPI service (the PokeApiNet client's
    Pokemon, PokemonSpecies, EvolutionChain and Ability resources, reduced to the
    fields the application reads) and the service itself as a fixed oracle. */
module PokeApi {
  import opened Wrappers
  import opened Sequences

  datatype TypeSlot = TypeSlot(slot: int, typeName: string)
  datatype StatSlot = StatSlot(statName: string, baseStat: int, effort: int)
  datatype AbilitySlot = AbilitySlot(abilityName: string, isHidden: bool, slot: int)

  /** One catalog entry: the Pokemon resource. `officialArtwork` is
      Sprites.Other.OfficialArtwork.FrontDefault, `speciesUrl` is Species.Url. */
  datatype Entry = Entry(
    id: int,
    name: string,
    height: int,
    weight: int,
    baseExperience: Option<int>,
    isDefault: bool,
    types: seq<TypeSlot>,
    stats: seq<StatSlot>,
    abilities: seq<AbilitySlot>,
    officialArtwork: string,
    speciesUrl: string)

  /** A PokemonSpecies resource: only the URL of its evolution chain is used. */
  datatype Species = Species(id: int, evolutionChainUrl: string)

  /** One node of an evolution-chain document: a species and the links it evolves to.
      Being an inductive datatype, a chain is finite and acyclic. */
  datatype ChainLink = ChainLink(speciesName: string, evolvesTo: seq<ChainLink>)

  /** An EvolutionChain resource. */
  datatype EvolutionChain = EvolutionChain(id: int, chain: ChainLink)

  datatype EffectEntry = EffectEntry(effect: string, language: string)

  /** An Ability resource: its effect descriptions in several languages. */
  datatype Ability = Ability(name: string, effectEntries: seq<EffectEntry>)

  /** One call made to the remote service. */
  datatype Request =
    | PokemonById(id: int)
    | PokemonByName(name: string)
    | AbilityByName(abilityName: string)
    | SpeciesById(speciesId: int)
    | ChainById(chainId: int)
    | NamedPage(limit: int, offset: int)

  /** The remote service as an oracle: a key missing from a map is a request that
      yields null; `count` is the total reported by the paging endpoint and `names`
      the names listed by the full name page, in the order the page lists them. */
  datatype Remote = Remote(
    pokemonById: map<int, Entry>,
    pokemonByName: map<string, Entry>,
    species: map<int, Species>,
    chains: map<int, EvolutionChain>,
    abilities: map<string, Ability>,
    count: int,
    names: seq<string>)

  /** What the model assumes of the service: the same Pokemon is served under its id
      and under its name, a chain is served under its own id, and the name page lists
      every name once. */
  ghost predicate Consistent(r: Remote) {
    && IdKeyed(r)
    && (forall i :: i in r.pokemonById ==>
          r.pokemonById[i].name in r.pokemonByName
          && r.pokemonByName[r.pokemonById[i].name] == r.pokemonById[i])
    && (forall n :: n in r.pokemonByName ==>
          r.pokemonByName[n].name == n
          && r.pokemonByName[n].id in r.pokemonById
          && r.pokemonById[r.pokemonByName[n].id] == r.pokemonByName[n])
    && (forall c :: c in r.chains ==> r.chains[c].id == c)
    && NoDup(r.names)
  }

  /** The service holds each Pokemon under its own id. */
  ghost predicate IdKeyed(r: Remote) {
    forall i :: i in r.pokemonById ==> r.pokemonById[i].id == i
  }

  /** A CancellationToken as one operation observes it: it is either never raised,
      or raised before the operation's check number `checks` (counting from 0) and
      stays raised from then on. */
  datatype Token = Live | RaisedBefore(checks: nat) {
    predicate ObservedAt(k: nat) {
      RaisedBefore? && checks <= k
    }
  }
}
