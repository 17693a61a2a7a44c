/**
 * The account workflow: one method per handler of the authentication
 * controller, over a store that holds the users, personas and token tables.
 *
 * Every handler answers with a status code and a body. What the database
 * does on a write is decided outside this model, so each handler that
 * writes takes a parameter saying whether the database rejects the write;
 * the salt drawn by the hasher is a parameter too. The handlers behind the
 * token middleware take the bearer token and require that it authenticates
 * the requester.
 */
module AuthController {
  import opened Wrappers
  import opened Hashing
  import opened Accounts
  import opened Validation

  const OK: int := 200
  const Unauthorized: int := 401
  const Forbidden: int := 403
  const NotFound: int := 404
  const Unprocessable: int := 422
  const ServerError: int := 500

  const MsgEmptyFields := "Existen campos vacios"
  const MsgUserCreated := "User Created Successfully"
  const MsgValidationError := "validation error"
  const MsgNoMatch := "Email & Password does not match with our record."
  const MsgLoggedIn := "User Logged In Successfully"
  const MsgUserNotFound := "Usuario no encontrado"
  const MsgNotAuthorized := "No estás autorizado para editar este usuario"
  const MsgNameUpdated := "Nombre de usuario actualizado con éxito"
  const MsgOldPasswordMismatch := "la contaseña antigua no coincide con el registrado"
  const MsgPasswordUpdated := "Contraseña de usuario actualizada con éxito"
  const MsgUserDeleted := "Usuario eliminado con éxito"

  /** What a response carries besides its status code. */
  datatype Body =
    | Issued(message: string, token: Token)          // a success that hands out a bearer token
    | Listing(users: map<int, User>)                 // every stored user
    | Message(text: string)
    | Rejected(message: string, fields: set<Field>)  // the controller's own validation answer
    | FieldErrors(fields: set<Field>)                // the framework's answer to a failed `validate`
    | Failure                                        // an exception turned into a 500

  datatype Response = Response(status: int, body: Body)

  /** Which of the registration's writes the database rejects, if any. */
  datatype Fault = NoFault | PersonaInsertFails | UserInsertFails | TokenInsertFails

  /** The first two checks of the self-service updates: the target exists, then it is the requester. */
  datatype Gate = Missing | NotOwner | Owner

  function OwnerGate(users: map<int, User>, requester: int, id: int): (g: Gate)
    ensures g == Owner <==> id in users && requester == id
    ensures id !in users ==> g == Missing
    ensures g == NotOwner ==> id in users && requester != id
  {
    if id !in users then Missing
    else if requester != id then NotOwner
    else Owner
  }

  /** How a login attempt ends once its payload is read. */
  datatype LoginDecision = LoginRejected(errs: set<Field>) | WrongCredentials | LoginAccepted(id: int)

  /**
   * Validation, then `Auth::attempt`: the user with that email, if there is
   * one, and the hash check of the password against its digest.
   */
  function LoginCheck(users: map<int, User>, c: Credentials, isEmail: string -> bool): (d: LoginDecision)
    requires EmailsUnique(users)
    ensures d.LoginRejected? <==> LoginErrors(c, isEmail) != {}
    ensures d.LoginRejected? ==> d.errs == LoginErrors(c, isEmail)
    ensures d.LoginAccepted? ==>
      d.id in users && users[d.id].email == c.email.value && Check(c.password.value, users[d.id].password)
    ensures d.WrongCredentials? ==>
      forall id :: id in users && users[id].email == c.email.value ==> !Check(c.password.value, users[id].password)
  {
    var errs := LoginErrors(c, isEmail);
    if errs != {} then LoginRejected(errs)
    else match FindByEmail(users, c.email.value)
      case None => WrongCredentials
      case Some(id) => if Check(c.password.value, users[id].password) then LoginAccepted(id) else WrongCredentials
  }

  /** The persona row a registration payload describes. */
  function NewPersona(r: Registration): (p: Persona)
    requires r.nombre.Some? && r.cedula.Some? && r.direccion.Some? && r.fechaNacimiento.Some?
  {
    Persona(r.nombre.value, r.cedula.value, r.direccion.value, r.fechaNacimiento.value)
  }

  /** The user row a registration payload describes, linked to persona `pid`. */
  function NewUser(r: Registration, pid: int, salt: Salt): (u: User)
    requires r.name.Some? && r.email.Some? && r.password.Some? && r.idRol.Some?
  {
    User(r.name.value, r.email.value, Make(r.password.value, salt), pid, r.idRol.value)
  }

  /** The users, personas and token tables, with their auto-increment counters. */
  class AccountStore {
    var users: map<int, User>
    var personas: map<int, Persona>
    var tokens: map<Token, int>
    var nextUserId: int
    var nextPersonaId: int
    var nextToken: Token
    /** The validator's `email` rule. */
    const isEmail: string -> bool

    /**
     * What every handler keeps: ids below their counters, unique emails,
     * every stored email one the rules accepted, and every user linked to
     * a stored persona of its own.
     */
    ghost predicate Valid()
      reads this
    {
      && 1 <= nextUserId && 1 <= nextPersonaId
      && (forall id :: id in users ==> 1 <= id < nextUserId)
      && (forall id :: id in personas ==> 1 <= id < nextPersonaId)
      && (forall t :: t in tokens ==> t < nextToken && tokens[t] < nextUserId)
      && (forall id :: id in users ==> users[id].idPersona in personas)
      && (forall id :: id in users ==> Required(Some(users[id].email)) && isEmail(users[id].email))
      && EmailsUnique(users)
      && PersonaLinksInjective(users)
    }

    /**
     * The user counter never goes back and an id that was free below it
     * stays free: an auto-increment id is never handed out twice, so a
     * deleted user's tokens can never come to name another user.
     */
    twostate predicate FreedIdsStayFree()
      reads this
    {
      && old(nextUserId) <= nextUserId
      && forall id :: id < old(nextUserId) && id !in old(users) ==> id !in users
    }

    constructor (isEmail: string -> bool)
      ensures Valid() && this.isEmail == isEmail
      ensures users == map[] && personas == map[] && tokens == map[]
      ensures nextUserId == 1 && nextPersonaId == 1 && nextToken == 0
    {
      this.isEmail := isEmail;
      users, personas, tokens := map[], map[], map[];
      nextUserId, nextPersonaId, nextToken := 1, 1, 0;
    }

    /** `createToken`: a fresh token row for user `uid`. */
    method IssueToken(uid: int) returns (t: Token)
      requires Valid() && uid in users
      modifies this`tokens, this`nextToken
      ensures Valid() && t == old(nextToken) && t !in old(tokens)
      ensures tokens == old(tokens)[t := uid] && nextToken == old(nextToken) + 1
    {
      t := nextToken;
      tokens := tokens[t := uid];
      nextToken := nextToken + 1;
    }

    /** `personas::create`: a new persona row under the next persona id. */
    method InsertPersona(p: Persona) returns (pid: int)
      requires Valid()
      modifies this`personas, this`nextPersonaId
      ensures Valid() && pid == old(nextPersonaId) && pid !in old(personas)
      ensures personas == old(personas)[pid := p] && !PersonaReferenced(users, pid)
      ensures nextPersonaId == old(nextPersonaId) + 1
    {
      pid := nextPersonaId;
      personas := personas[pid := p];
      nextPersonaId := nextPersonaId + 1;
    }

    /**
     * `User::create`: a new user row under the next user id. The caller
     * has checked the email and supplies a persona no user points at yet.
     */
    method InsertUser(u: User) returns (uid: int)
      requires Valid()
      requires Required(Some(u.email)) && isEmail(u.email) && !EmailTaken(users, u.email)
      requires u.idPersona in personas && !PersonaReferenced(users, u.idPersona)
      modifies this`users, this`nextUserId
      ensures Valid() && uid == old(nextUserId) && uid !in old(users)
      ensures users == old(users)[uid := u] && nextUserId == old(nextUserId) + 1
      ensures FreedIdsStayFree()
    {
      uid := nextUserId;
      users := users[uid := u];
      nextUserId := nextUserId + 1;
    }

    /**
     * `createUser`: validate, insert the persona, insert the user linked to
     * it with the hashed password, then issue a token. The inserts are not
     * one transaction: a rejected user insert leaves the new persona stored.
     */
    method CreateUser(r: Registration, salt: Salt, fault: Fault) returns (resp: Response)
      requires Valid()
      modifies this
      ensures Valid() && FreedIdsStayFree()
      ensures var errs := RegistrationErrors(old(users), r, isEmail);
        errs != {} ==> resp == Response(Unauthorized, Rejected(MsgEmptyFields, errs)) && unchanged(this)
      ensures RegistrationErrors(old(users), r, isEmail) == {} && fault == PersonaInsertFails ==>
        resp == Response(ServerError, Failure) && unchanged(this)
      ensures RegistrationErrors(old(users), r, isEmail) == {} && fault != PersonaInsertFails ==>
        && old(nextPersonaId) !in old(personas)
        && personas == old(personas)[old(nextPersonaId) := NewPersona(r)]
        && nextPersonaId == old(nextPersonaId) + 1
      ensures RegistrationErrors(old(users), r, isEmail) == {} && fault == UserInsertFails ==>
        && resp == Response(ServerError, Failure)
        && users == old(users) && nextUserId == old(nextUserId)
        && tokens == old(tokens) && nextToken == old(nextToken)
      ensures RegistrationErrors(old(users), r, isEmail) == {} && (fault == TokenInsertFails || fault == NoFault) ==>
        && old(nextUserId) !in old(users)
        && users == old(users)[old(nextUserId) := NewUser(r, old(nextPersonaId), salt)]
        && nextUserId == old(nextUserId) + 1
      ensures RegistrationErrors(old(users), r, isEmail) == {} && fault == TokenInsertFails ==>
        resp == Response(ServerError, Failure) && tokens == old(tokens) && nextToken == old(nextToken)
      ensures RegistrationErrors(old(users), r, isEmail) == {} && fault == NoFault ==>
        && old(nextToken) !in old(tokens)
        && tokens == old(tokens)[old(nextToken) := old(nextUserId)]
        && nextToken == old(nextToken) + 1
        && resp == Response(OK, Issued(MsgUserCreated, old(nextToken)))
    {
      var errs := RegistrationErrors(users, r, isEmail);
      if errs != {} {
        return Response(Unauthorized, Rejected(MsgEmptyFields, errs));
      }
      if fault == PersonaInsertFails {
        return Response(ServerError, Failure);
      }
      var pid := InsertPersona(NewPersona(r));
      if fault == UserInsertFails {
        return Response(ServerError, Failure);
      }
      var uid := InsertUser(NewUser(r, pid, salt));
      if fault == TokenInsertFails {
        return Response(ServerError, Failure);
      }
      var t := IssueToken(uid);
      resp := Response(OK, Issued(MsgUserCreated, t));
    }

    /**
     * `loginUser`: validate, check the credentials, then issue a token for
     * the user with that email. An unknown email and a wrong password get
     * the same answer. No table but the token table changes.
     */
    method LoginUser(c: Credentials, tokenInsertFails: bool) returns (resp: Response)
      requires Valid()
      modifies this`tokens, this`nextToken
      ensures Valid() && users == old(users) && personas == old(personas)
      ensures match LoginCheck(users, c, isEmail)
        case LoginRejected(errs) =>
          resp == Response(Unauthorized, Rejected(MsgValidationError, errs))
          && tokens == old(tokens) && nextToken == old(nextToken)
        case WrongCredentials =>
          resp == Response(Unauthorized, Message(MsgNoMatch)) && tokens == old(tokens) && nextToken == old(nextToken)
        case LoginAccepted(id) =>
          if tokenInsertFails then
            resp == Response(ServerError, Failure) && tokens == old(tokens) && nextToken == old(nextToken)
          else
            && old(nextToken) !in old(tokens)
            && tokens == old(tokens)[old(nextToken) := id]
            && nextToken == old(nextToken) + 1
            && resp == Response(OK, Issued(MsgLoggedIn, old(nextToken)))
    {
      match LoginCheck(users, c, isEmail)
      case LoginRejected(errs) =>
        resp := Response(Unauthorized, Rejected(MsgValidationError, errs));
      case WrongCredentials =>
        resp := Response(Unauthorized, Message(MsgNoMatch));
      case LoginAccepted(id) =>
        if tokenInsertFails {
          resp := Response(ServerError, Failure);
        } else {
          var t := IssueToken(id);
          resp := Response(OK, Issued(MsgLoggedIn, t));
        }
    }

    /** `listuser`, behind the token middleware: every stored user, unchanged. */
    method ListUsers(token: Token) returns (resp: Response)
      requires Authenticate(tokens, users, token).Some?
      ensures resp.status == OK && resp.body.Listing?
      ensures resp.body.users.Keys == users.Keys
      ensures forall id :: id in users ==> resp.body.users[id] == users[id]
    {
      resp := Response(OK, Listing(users));
    }

    /**
     * `updatename`: 404 for a missing user, then 403 unless the requester is
     * that user; otherwise only that user's name changes.
     */
    method UpdateName(token: Token, requester: int, id: int, name: string, writeFails: bool) returns (resp: Response)
      requires Valid() && Authenticate(tokens, users, token) == Some(requester)
      modifies this`users
      ensures Valid() && FreedIdsStayFree()
      ensures OwnerGate(old(users), requester, id) == Missing ==>
        resp == Response(NotFound, Message(MsgUserNotFound)) && users == old(users)
      ensures OwnerGate(old(users), requester, id) == NotOwner ==>
        resp == Response(Forbidden, Message(MsgNotAuthorized)) && users == old(users)
      ensures OwnerGate(old(users), requester, id) == Owner && writeFails ==>
        resp == Response(ServerError, Failure) && users == old(users)
      ensures OwnerGate(old(users), requester, id) == Owner && !writeFails ==>
        && users == old(users)[id := old(users)[id].(name := name)]
        && resp == Response(OK, Message(MsgNameUpdated))
    {
      match OwnerGate(users, requester, id)
      case Missing =>
        resp := Response(NotFound, Message(MsgUserNotFound));
      case NotOwner =>
        resp := Response(Forbidden, Message(MsgNotAuthorized));
      case Owner =>
        if writeFails {
          resp := Response(ServerError, Failure);
        } else {
          users := users[id := users[id].(name := name)];
          resp := Response(OK, Message(MsgNameUpdated));
        }
    }

    /**
     * `updatepassword`: 404, then 403, then the payload rules, then 422
     * unless the old password checks against the stored digest; otherwise
     * only that user's digest changes, to one made from the new password.
     */
    method UpdatePassword(token: Token, requester: int, id: int, p: PasswordChange, salt: Salt, writeFails: bool)
      returns (resp: Response)
      requires Valid() && Authenticate(tokens, users, token) == Some(requester)
      modifies this`users
      ensures Valid() && FreedIdsStayFree()
      ensures OwnerGate(old(users), requester, id) == Missing ==>
        resp == Response(NotFound, Message(MsgUserNotFound)) && users == old(users)
      ensures OwnerGate(old(users), requester, id) == NotOwner ==>
        resp == Response(Forbidden, Message(MsgNotAuthorized)) && users == old(users)
      ensures OwnerGate(old(users), requester, id) == Owner && PasswordChangeErrors(p) != {} ==>
        resp == Response(Unprocessable, FieldErrors(PasswordChangeErrors(p))) && users == old(users)
      ensures OwnerGate(old(users), requester, id) == Owner && PasswordChangeErrors(p) == {} ==>
        if !Check(p.oldPassword.value, old(users)[id].password) then
          resp == Response(Unprocessable, Message(MsgOldPasswordMismatch)) && users == old(users)
        else if writeFails then
          resp == Response(ServerError, Failure) && users == old(users)
        else
          && users == old(users)[id := old(users)[id].(password := Make(p.newPassword.value, salt))]
          && resp == Response(OK, Message(MsgPasswordUpdated))
    {
      match OwnerGate(users, requester, id)
      case Missing =>
        resp := Response(NotFound, Message(MsgUserNotFound));
      case NotOwner =>
        resp := Response(Forbidden, Message(MsgNotAuthorized));
      case Owner =>
        var errs := PasswordChangeErrors(p);
        if errs != {} {
          resp := Response(Unprocessable, FieldErrors(errs));
        } else if !Check(p.oldPassword.value, users[id].password) {
          resp := Response(Unprocessable, Message(MsgOldPasswordMismatch));
        } else if writeFails {
          resp := Response(ServerError, Failure);
        } else {
          users := users[id := users[id].(password := Make(p.newPassword.value, salt))];
          resp := Response(OK, Message(MsgPasswordUpdated));
        }
    }

    /**
     * `destroyusuario`: 404 for a missing user; otherwise that user row goes
     * and nothing else does. Any authenticated requester may delete any
     * user, and the deleted user's persona stays stored with no user
     * pointing at it.
     */
    method DestroyUser(token: Token, requester: int, id: int, writeFails: bool) returns (resp: Response)
      requires Valid() && Authenticate(tokens, users, token) == Some(requester)
      modifies this`users
      ensures Valid() && FreedIdsStayFree() && personas == old(personas) && tokens == old(tokens)
      ensures id !in old(users) ==> resp == Response(NotFound, Message(MsgUserNotFound)) && users == old(users)
      ensures id in old(users) && writeFails ==> resp == Response(ServerError, Failure) && users == old(users)
      ensures id in old(users) && !writeFails ==>
        && users == old(users) - {id}
        && resp == Response(OK, Message(MsgUserDeleted))
        && old(users)[id].idPersona in personas
        && !PersonaReferenced(users, old(users)[id].idPersona)
    {
      if id !in users {
        return Response(NotFound, Message(MsgUserNotFound));
      }
      if writeFails {
        return Response(ServerError, Failure);
      }
      users := users - {id};
      resp := Response(OK, Message(MsgUserDeleted));
    }
  }
}
