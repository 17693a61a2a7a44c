/**
 * Properties that relate several handlers: what a registration makes
 * possible afterwards, what a password change does to logging in, and
 * what deleting a user does to its tokens and its persona.
 */
module AccountProperties {
  import opened Wrappers
  import opened Hashing
  import opened Accounts
  import opened Validation
  import opened AuthController

  /** A registration that passed is refused the second time: its email is now taken. */
  lemma DuplicateRegistrationRejected(users: map<int, User>, r: Registration, isEmail: string -> bool, k: int, pid: int, salt: Salt)
    requires RegistrationErrors(users, r, isEmail) == {}
    ensures Email in RegistrationErrors(users[k := NewUser(r, pid, salt)], r, isEmail)
  {
    var after := users[k := NewUser(r, pid, salt)];
    assert k in after && after[k].email == r.email.value;
  }

  /** The user a registration stores can log in with the email and password it registered. */
  lemma RegisteredUserCanLogIn(users: map<int, User>, r: Registration, isEmail: string -> bool, k: int, pid: int, salt: Salt)
    requires EmailsUnique(users) && k !in users
    requires RegistrationErrors(users, r, isEmail) == {}
    ensures EmailsUnique(users[k := NewUser(r, pid, salt)])
    ensures LoginCheck(users[k := NewUser(r, pid, salt)], Credentials(r.email, r.password), isEmail) == LoginAccepted(k)
  {
    var after := users[k := NewUser(r, pid, salt)];
    assert Supplied(r, Email) && Supplied(r, Password);
    assert !EmailTaken(users, r.email.value);
    assert after[k].email == r.email.value;
  }

  /**
   * An unknown email and a known email with the wrong password end the
   * same way, so the answer does not tell which one it was.
   */
  lemma UnknownEmailLooksLikeWrongPassword(users: map<int, User>, c: Credentials, isEmail: string -> bool)
    requires EmailsUnique(users) && LoginErrors(c, isEmail) == {}
    requires !EmailTaken(users, c.email.value)
      || exists id :: id in users && users[id].email == c.email.value && !Check(c.password.value, users[id].password)
    ensures LoginCheck(users, c, isEmail) == WrongCredentials
  {
  }

  /** After a password change, the user logs in with the new password. */
  lemma NewPasswordLogsIn(users: map<int, User>, id: int, p: PasswordChange, salt: Salt, isEmail: string -> bool)
    requires EmailsUnique(users) && id in users
    requires Required(Some(users[id].email)) && isEmail(users[id].email)
    requires PasswordChangeErrors(p) == {}
    ensures EmailsUnique(users[id := users[id].(password := Make(p.newPassword.value, salt))])
    ensures LoginCheck(users[id := users[id].(password := Make(p.newPassword.value, salt))],
                       Credentials(Some(users[id].email), p.newPassword), isEmail) == LoginAccepted(id)
  {
    var after := users[id := users[id].(password := Make(p.newPassword.value, salt))];
    assert forall k :: k in after ==> after[k].email == users[k].email;
    assert after[id].email == users[id].email;
  }

  /** A token issued to a stored user authenticates as that user. */
  lemma IssuedTokenAuthenticates(tokens: map<Token, int>, users: map<int, User>, t: Token, uid: int)
    requires uid in users
    ensures Authenticate(tokens[t := uid], users, t) == Some(uid)
  {
  }

  /**
   * Right after a user is deleted, none of its tokens authenticates, though
   * they stay stored. Under the model's id counter, which never hands out
   * an id twice, `AccountStore.FreedIdsStayFree` keeps it so under every
   * later handler; `DeletedTokenStaysDead` walks through one case.
   */
  lemma DeletedUserCannotAuthenticate(tokens: map<Token, int>, users: map<int, User>, id: int, t: Token)
    ensures Authenticate(tokens, users - {id}, t) != Some(id)
  {
  }

  /** Deleting a user leaves its persona with no user pointing at it. */
  lemma DeleteOrphansPersona(users: map<int, User>, id: int)
    requires PersonaLinksInjective(users) && id in users
    ensures !PersonaReferenced(users - {id}, users[id].idPersona)
  {
  }

  /**
   * The registration walked through on a fresh store: the first call
   * succeeds and hands out the first token, the same call again is refused
   * for its email alone.
   */
  method RegisterTwice(isEmail: string -> bool) returns (first: Response, second: Response)
    requires isEmail("a@x.com")
    ensures first == Response(OK, Issued(MsgUserCreated, 0))
    ensures second == Response(Unauthorized, Rejected(MsgEmptyFields, {Email}))
  {
    var store := new AccountStore(isEmail);
    var r := Registration(Some("A"), Some("a@x.com"), Some("secret"), Some("Ana"), Some("123"),
                          Some("Main St"), Some("2000-01-01"), Some(1));
    assert "A"[0] !in TrimmedChars && "a@x.com"[0] !in TrimmedChars && "secret"[0] !in TrimmedChars;
    assert "Ana"[0] !in TrimmedChars && "123"[0] !in TrimmedChars && "Main St"[0] !in TrimmedChars;
    assert "2000-01-01"[0] !in TrimmedChars;
    assert forall f :: f in RegistrationFields ==> Supplied(r, f);
    assert RegistrationErrors(map[], r, isEmail) == {};
    first := store.CreateUser(r, 7, NoFault);
    DuplicateRegistrationRejected(map[], r, isEmail, 1, 1, 7);
    assert RegistrationErrors(store.users, r, isEmail) == {Email};
    second := store.CreateUser(r, 8, NoFault);
  }

  /**
   * A deleted user's token stays dead while later registrations run,
   * one of them with its user insert rejected: the id it named is never
   * handed out again.
   */
  method DeletedTokenStaysDead(s: AccountStore, token: Token, requester: int, id: int, t: Token,
                               r: Registration, salt: Salt)
    requires s.Valid() && Authenticate(s.tokens, s.users, token) == Some(requester)
    requires id in s.users && t in s.tokens && s.tokens[t] == id
    modifies s
    ensures s.Valid() && Authenticate(s.tokens, s.users, t) == None
  {
    var _ := s.DestroyUser(token, requester, id, false);
    var _ := s.CreateUser(r, salt, UserInsertFails);
    var _ := s.CreateUser(r, salt, NoFault);
  }
}
