/** The application's local database (PokeContext): the Pokemon, User and PokemonUser
    tables and the user who is logged in. */
module Store {
  import opened Wrappers

  /** A row of the User table. `password` is the salted password hash and `salt` the
      Base64 text of the salt it was computed with. */
  datatype User = User(id: int, username: string, password: string, salt: string)

  /** A row of the Pokemon table: a pokemon somebody caught, by its PokeAPI id. */
  datatype PokemonRow = PokemonRow(id: int, pokeApiId: int, name: string, imageUrl: string)

  /** A row of the PokemonUser table: pokemon row `pokemonId` is a favourite of user
      `userId`. */
  datatype Link = Link(pokemonId: int, userId: int)

  /** Users.FirstOrDefault(u => u.Username == username). */
  function FindUser(users: seq<User>, username: string): (r: Option<User>)
    ensures r.Some? ==> r.value in users && r.value.username == username
    ensures r.None? <==> forall k :: 0 <= k < |users| ==> users[k].username != username
    decreases |users|
  {
    if users == [] then None
    else if users[0].username == username then Some(users[0])
    else FindUser(users[1..], username)
  }

  /** Pokemons.FirstOrDefault(p => p.PokeApiId == pokeApiId). */
  function FindPokemonRow(rows: seq<PokemonRow>, pokeApiId: int): (r: Option<PokemonRow>)
    ensures r.Some? ==> r.value in rows && r.value.pokeApiId == pokeApiId
    ensures r.None? <==> forall k :: 0 <= k < |rows| ==> rows[k].pokeApiId != pokeApiId
    decreases |rows|
  {
    if rows == [] then None
    else if rows[0].pokeApiId == pokeApiId then Some(rows[0])
    else FindPokemonRow(rows[1..], pokeApiId)
  }

  /** No two users share a username. */
  ghost predicate UniqueUsernames(users: seq<User>) {
    forall j, k :: 0 <= j < k < |users| ==> users[j].username != users[k].username
  }

  /** With unique usernames, the lookup finds the one user of that name. */
  lemma {:induction false} FindUserUnique(users: seq<User>, u: User)
    requires UniqueUsernames(users) && u in users
    ensures FindUser(users, u.username) == Some(u)
    decreases |users|
  {
    if users[0] != u {
      assert users[0].username != u.username by {
        var k :| 0 <= k < |users| && users[k] == u;
        assert k != 0;
      }
      assert u in users[1..];
      assert UniqueUsernames(users[1..]) by {
        forall j, k | 0 <= j < k < |users[1..]|
          ensures users[1..][j].username != users[1..][k].username
        {
          assert users[1..][j] == users[j + 1] && users[1..][k] == users[k + 1];
        }
      }
      FindUserUnique(users[1..], u);
    }
  }

  /** PokemonsUsers.Add or PokemonsUsers.Remove, whichever flips the link. */
  function Toggle(links: set<Link>, link: Link): (r: set<Link>)
    ensures link in r <==> link !in links
    ensures r - {link} == links - {link}
  {
    if link in links then links - {link} else links + {link}
  }

  /** The tables and the session's user. Rows of Pokemon and User are never deleted,
      so the generated key of the n-th row is n. */
  class PokeContext {
    var pokemons: seq<PokemonRow>
    var users: seq<User>
    var links: set<Link>
    var loggedInUser: Option<User>

    /** Keys are generated in insertion order; usernames and PokeAPI ids are unique
        (registration and catching check for them before adding); the logged-in user is
        a stored user; a link refers to a stored pokemon and a stored user (the two
        foreign keys of PokemonUser). */
    ghost predicate Valid()
      reads this
    {
      && (forall k :: 0 <= k < |pokemons| ==> pokemons[k].id == k + 1)
      && (forall j, k :: 0 <= j < k < |pokemons| ==> pokemons[j].pokeApiId != pokemons[k].pokeApiId)
      && (forall k :: 0 <= k < |users| ==> users[k].id == k + 1)
      && UniqueUsernames(users)
      && (loggedInUser.Some? ==> loggedInUser.value in users)
      && (forall l :: l in links ==> 1 <= l.pokemonId <= |pokemons| && 1 <= l.userId <= |users|)
    }

    /** An empty database with nobody logged in. */
    constructor ()
      ensures Valid()
      ensures pokemons == [] && users == [] && links == {} && loggedInUser == None
    {
      pokemons := [];
      users := [];
      links := {};
      loggedInUser := None;
    }

    /** Users.AddAsync followed by SaveChangesAsync: the new row gets the next key. */
    method AddUser(username: string, password: string, salt: string) returns (user: User)
      requires Valid() && FindUser(users, username).None?
      modifies this`users
      ensures Valid()
      ensures user == User(|old(users)| + 1, username, password, salt)
      ensures users == old(users) + [user]
    {
      user := User(|users| + 1, username, password, salt);
      users := users + [user];
    }

    /** Pokemons.AddAsync followed by SaveChangesAsync: the new row gets the next key. */
    method AddPokemon(pokeApiId: int, name: string, imageUrl: string) returns (row: PokemonRow)
      requires Valid() && FindPokemonRow(pokemons, pokeApiId).None?
      modifies this`pokemons
      ensures Valid()
      ensures row == PokemonRow(|old(pokemons)| + 1, pokeApiId, name, imageUrl)
      ensures pokemons == old(pokemons) + [row]
    {
      row := PokemonRow(|pokemons| + 1, pokeApiId, name, imageUrl);
      pokemons := pokemons + [row];
    }
  }
}
