/**
 * The request payloads the handlers read and the validator rules they run
 * on them (`required`, `email`, `unique:users,email`, `min:6`).
 *
 * A payload field is `None` when the client did not send it (or sent null).
 * The `email` rule is the validator's own address check; it is foreign
 * code, so it is a parameter here.
 */
module Validation {
  import opened Wrappers
  import opened Accounts

  /** The payload fields that can carry a validation error. */
  datatype Field =
    | Name | Email | Password | Nombre | Cedula | Direccion | FechaNacimiento | IdRol
    | OldPassword | NewPassword

  /** The body of `POST /auth/register`. */
  datatype Registration = Registration(
    name: Option<string>, email: Option<string>, password: Option<string>,
    nombre: Option<string>, cedula: Option<string>, direccion: Option<string>,
    fechaNacimiento: Option<string>, idRol: Option<int>)

  /** The body of `POST /auth/login`. */
  datatype Credentials = Credentials(email: Option<string>, password: Option<string>)

  /** The body of `PUT /auth/update-password/{id}`. */
  datatype PasswordChange = PasswordChange(oldPassword: Option<string>, newPassword: Option<string>)

  /** The fields the registration rules name, all of them `required`. */
  const RegistrationFields: set<Field> :=
    {Name, Email, Password, Nombre, Cedula, Direccion, FechaNacimiento, IdRol}

  /** The characters PHP's `trim` strips by default. */
  const TrimmedChars: set<char> := {' ', '\t', '\n', '\r', '\U{0}', '\U{B}'}

  /** The least length the `min:6` rule accepts for a new password. */
  const MinPasswordLength: nat := 6

  /** `trim(s) === ''`: the string is made of trimmed characters only. */
  predicate Blank(s: string)
  {
    forall i :: 0 <= i < |s| ==> s[i] in TrimmedChars
  }

  /** The `required` rule on a string field: sent, and not blank once trimmed. */
  predicate Required(v: Option<string>)
  {
    v.Some? && !Blank(v.value)
  }

  /** The `required` rule on one registration field. */
  predicate Supplied(r: Registration, f: Field)
  {
    match f
    case Name => Required(r.name)
    case Email => Required(r.email)
    case Password => Required(r.password)
    case Nombre => Required(r.nombre)
    case Cedula => Required(r.cedula)
    case Direccion => Required(r.direccion)
    case FechaNacimiento => Required(r.fechaNacimiento)
    case IdRol => r.idRol.Some?
    case _ => false
  }

  /** Whether registration field `f` passes its rules on `r` against the stored `users`. */
  predicate Passes(users: map<int, User>, r: Registration, isEmail: string -> bool, f: Field)
  {
    if f == Email then Supplied(r, Email) && isEmail(r.email.value) && !EmailTaken(users, r.email.value)
    else Supplied(r, f)
  }

  /**
   * The fields the registration rules reject. Every field is `required`;
   * the email must in addition pass the `email` rule and belong to no
   * stored user.
   */
  function RegistrationErrors(users: map<int, User>, r: Registration, isEmail: string -> bool): (errs: set<Field>)
    ensures errs <= RegistrationFields
    ensures forall f :: f in RegistrationFields && f != Email ==> (f in errs <==> !Supplied(r, f))
    ensures Email in errs <==> !Supplied(r, Email) || !isEmail(r.email.value) || EmailTaken(users, r.email.value)
    ensures errs == {} ==>
      && r.name.Some? && r.email.Some? && r.password.Some? && r.nombre.Some?
      && r.cedula.Some? && r.direccion.Some? && r.fechaNacimiento.Some? && r.idRol.Some?
  {
    var errs := set f | f in RegistrationFields && !Passes(users, r, isEmail, f);
    assert forall f :: f in RegistrationFields ==> (f in errs <==> !Passes(users, r, isEmail, f));
    assert errs == {} ==> forall f :: f in RegistrationFields ==> Passes(users, r, isEmail, f);
    errs
  }

  /** The fields the login rules reject: both `required`, the email also `email`. */
  function LoginErrors(c: Credentials, isEmail: string -> bool): (errs: set<Field>)
    ensures errs <= {Email, Password}
    ensures errs == {} <==> Required(c.email) && isEmail(c.email.value) && Required(c.password)
  {
    (if Required(c.email) && isEmail(c.email.value) then {} else {Email})
    + (if Required(c.password) then {} else {Password})
  }

  /** The fields the password-change rules reject: old `required`, new `required|min:6`. */
  function PasswordChangeErrors(p: PasswordChange): (errs: set<Field>)
    ensures errs <= {OldPassword, NewPassword}
    ensures errs == {} <==>
      Required(p.oldPassword) && Required(p.newPassword) && |p.newPassword.value| >= MinPasswordLength
  {
    (if Required(p.oldPassword) then {} else {OldPassword})
    + (if Required(p.newPassword) && |p.newPassword.value| >= MinPasswordLength then {} else {NewPassword})
  }
}
