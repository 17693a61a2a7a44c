/**
 * The rows of the three tables the account workflow touches, and the
 * queries it runs against them.
 *
 * Tables are maps from the auto-increment id to the row. A role is only an
 * integer a user row carries: nothing in the workflow reads the roles table.
 */
module Accounts {
  import opened Wrappers
  import opened Hashing

  /** A row of `personas`: the identity behind a login. */
  datatype Persona = Persona(nombre: string, cedula: string, direccion: string, fechaNacimiento: string)

  /** A row of `users`. `password` holds a digest, never the plaintext. */
  datatype User = User(name: string, email: string, password: Digest, idPersona: int, idRol: int)

  /** A bearer token: the id of its row in the token table, which maps it to its user's id. */
  type Token = nat

  /** Some stored user has email `e` (the `unique:users,email` rule fails on it). */
  predicate EmailTaken(users: map<int, User>, e: string)
  {
    exists id :: id in users && users[id].email == e
  }

  /** No two users share an email. */
  ghost predicate EmailsUnique(users: map<int, User>)
  {
    forall a, b :: a in users && b in users && users[a].email == users[b].email ==> a == b
  }

  /** No two users share a persona. */
  ghost predicate PersonaLinksInjective(users: map<int, User>)
  {
    forall a, b :: a in users && b in users && users[a].idPersona == users[b].idPersona ==> a == b
  }

  /** Some stored user points at persona `p`. */
  ghost predicate PersonaReferenced(users: map<int, User>, p: int)
  {
    exists id :: id in users && users[id].idPersona == p
  }

  /** `User::where('email', e)->first()` on a table whose emails are unique. */
  function FindByEmail(users: map<int, User>, e: string): (found: Option<int>)
    requires EmailsUnique(users)
    ensures found.Some? <==> EmailTaken(users, e)
    ensures found.Some? ==> found.value in users && users[found.value].email == e
    ensures forall id :: id in users && users[id].email == e ==> found == Some(id)
  {
    if EmailTaken(users, e) then
      var id :| id in users && users[id].email == e; Some(id)
    else
      None
  }

  /**
   * What the `auth:sanctum` middleware does with a bearer token: the token
   * must be in the token table and its user must still be stored.
   */
  function Authenticate(tokens: map<Token, int>, users: map<int, User>, t: Token): (who: Option<int>)
    ensures who.Some? ==> who.value in users && t in tokens && tokens[t] == who.value
    ensures t in tokens && tokens[t] in users ==> who.Some?
  {
    if t in tokens && tokens[t] in users then Some(tokens[t]) else None
  }
}
