/** The User record as the user handlers write it, the request payloads of
    those handlers, and the field validation chains they run before touching
    the store. */
module Users {
  import opened Text
  import opened Values
  import opened Roles

  type Id = string

  /** A stored password: the digest of a plain text (the hashing itself is
      not modelled; equal inputs give equal symbolic digests), or a raw value
      the bulk paths write unhashed when the supplied password is falsy. */
  datatype Secret = Hashed(plain: string) | Raw(raw: Value)

  /** A stored user. Fields hold whatever value the handlers wrote; `role`
      holds the role identifier as given. */
  datatype User = User(
    firstName: Value, lastName: Value, email: Value, username: Value,
    password: Secret, phoneNumber: Value, role: Value, active: bool, createdAt: int)

  /** The fields of an update request body (single update, bulk update, and
      each element of the heterogeneous bulk update). */
  datatype UserPatch = UserPatch(
    firstName: Value, lastName: Value, email: Value, username: Value,
    password: Value, phoneNumber: Value, role: Value, active: Value)

  /** A `$set` document: the fields it names and their new values. */
  datatype UserSet = UserSet(
    firstName: Option<Value>, lastName: Option<Value>, email: Option<Value>,
    username: Option<Value>, password: Option<Secret>, phoneNumber: Option<Value>,
    role: Option<Value>, active: Option<bool>)

  const NoChange := UserSet(None, None, None, None, None, None, None, None)

  function Pick<T>(o: Option<T>, current: T): T {
    if o.Some? then o.value else current
  }

  /** Applies a `$set` document: named fields are replaced, the rest kept. */
  function ApplySet(u: User, s: UserSet): User {
    User(Pick(s.firstName, u.firstName), Pick(s.lastName, u.lastName),
         Pick(s.email, u.email), Pick(s.username, u.username),
         Pick(s.password, u.password), Pick(s.phoneNumber, u.phoneNumber),
         Pick(s.role, u.role), Pick(s.active, u.active), u.createdAt)
  }

  /** `{ ...data }` with `password` replaced by its digest when truthy: every
      field present in the body is written as given, falsy values included.
      (`active` is a boolean whenever the validation chain has passed.) */
  function SpreadSet(p: UserPatch): (s: UserSet)
    ensures s.firstName.Some? <==> Present(p.firstName)
    ensures s.firstName.Some? ==> s.firstName.value == p.firstName
    ensures s.lastName.Some? <==> Present(p.lastName)
    ensures s.lastName.Some? ==> s.lastName.value == p.lastName
    ensures s.email.Some? <==> Present(p.email)
    ensures s.email.Some? ==> s.email.value == p.email
    ensures s.username.Some? <==> Present(p.username)
    ensures s.username.Some? ==> s.username.value == p.username
    ensures s.phoneNumber.Some? <==> Present(p.phoneNumber)
    ensures s.phoneNumber.Some? ==> s.phoneNumber.value == p.phoneNumber
    ensures s.role.Some? <==> Present(p.role)
    ensures s.role.Some? ==> s.role.value == p.role
    ensures s.password.Some? <==> Present(p.password)
    ensures Truthy(p.password) && p.password.Str? ==> s.password == Some(Hashed(p.password.s))
    ensures Present(p.password) && !(Truthy(p.password) && p.password.Str?) ==>
              s.password == Some(Raw(p.password))
    ensures s.active.Some? <==> p.active.Bool?
    ensures s.active.Some? ==> s.active.value == p.active.b
  {
    UserSet(
      if Present(p.firstName) then Some(p.firstName) else None,
      if Present(p.lastName) then Some(p.lastName) else None,
      if Present(p.email) then Some(p.email) else None,
      if Present(p.username) then Some(p.username) else None,
      if Truthy(p.password) && p.password.Str? then Some(Hashed(p.password.s))
      else if Present(p.password) then Some(Raw(p.password)) else None,
      if Present(p.phoneNumber) then Some(p.phoneNumber) else None,
      if Present(p.role) then Some(p.role) else None,
      if p.active.Bool? then Some(p.active.b) else None)
  }

  /** A body with no field at all (`Object.keys(updates).length === 0`). */
  predicate IsEmptyPatch(p: UserPatch) {
    p == UserPatch(Undefined, Undefined, Undefined, Undefined, Undefined, Undefined, Undefined, Undefined)
  }

  // The rules of the validation chain, one per field.

  /** `x && typeof x !== 'string'` does not fire. */
  predicate TextIfTruthy(v: Value) {
    !Truthy(v) || v.Str?
  }

  /** `password && (typeof password !== 'string' || password.length < 6)` does not fire. */
  predicate PasswordOk(v: Value) {
    !Truthy(v) || (v.Str? && Utf16Length(v.s) >= 6)
  }

  /** The length rule counts UTF-16 code units, not characters: three
      characters outside the Basic Multilingual Plane pass it, five ASCII
      letters do not. */
  lemma PasswordLengthInCodeUnits()
    ensures PasswordOk(Str("\U{1F511}\U{1F511}\U{1F511}"))
    ensures !PasswordOk(Str("abcde"))
  {
    var key := "\U{1F511}\U{1F511}\U{1F511}";
    assert key[1..][1..][1..] == [];
    assert Utf16Length(key) == 2 + Utf16Length(key[1..]);
    assert Utf16Length(key[1..]) == 2 + Utf16Length(key[1..][1..]);
  }

  /** `role && !role.match(/^[0-9a-fA-F]{24}$/)` does not fire (and does not throw). */
  predicate RoleShapeOk(v: Value) {
    !Truthy(v) || (v.Str? && IsHex24(v.s))
  }

  /** `active !== undefined && typeof active !== 'boolean'` does not fire. */
  predicate BoolIfPresent(v: Value) {
    !Present(v) || v.Bool?
  }

  predicate PatchOk(p: UserPatch) {
    TextIfTruthy(p.firstName) && TextIfTruthy(p.lastName) && TextIfTruthy(p.email) &&
    TextIfTruthy(p.username) && PasswordOk(p.password) && TextIfTruthy(p.phoneNumber) &&
    RoleShapeOk(p.role) && BoolIfPresent(p.active)
  }

  /** The validation chain shared by the update handlers: the first rule that
      fails decides the error. A truthy `role` that is not a string makes
      `role.match` throw, which the handlers report as a server error. */
  function PatchCheck(p: UserPatch): (r: Option<Error>)
    ensures r.None? <==> PatchOk(p)
    ensures !TextIfTruthy(p.firstName) ==> r == Some(BadInput(FirstName))
    ensures TextIfTruthy(p.firstName) && !TextIfTruthy(p.lastName) ==> r == Some(BadInput(LastName))
    ensures TextIfTruthy(p.firstName) && TextIfTruthy(p.lastName) && !TextIfTruthy(p.email)
            ==> r == Some(BadInput(Email))
    ensures TextIfTruthy(p.firstName) && TextIfTruthy(p.lastName) && TextIfTruthy(p.email) &&
            !TextIfTruthy(p.username)
            ==> r == Some(BadInput(Username))
    ensures TextIfTruthy(p.firstName) && TextIfTruthy(p.lastName) && TextIfTruthy(p.email) &&
            TextIfTruthy(p.username) && !PasswordOk(p.password)
            ==> r == Some(BadInput(Password))
    ensures TextIfTruthy(p.firstName) && TextIfTruthy(p.lastName) && TextIfTruthy(p.email) &&
            TextIfTruthy(p.username) && PasswordOk(p.password) && !TextIfTruthy(p.phoneNumber)
            ==> r == Some(BadInput(PhoneNumber))
    ensures PatchOk(p.(role := Undefined, active := Undefined)) && p.role.Str? && !RoleShapeOk(p.role)
            ==> r == Some(BadId(RoleRef))
    ensures r == Some(BadInput(Active)) <==>
              PatchOk(p.(active := Undefined)) && !BoolIfPresent(p.active)
    ensures r == Some(ServerError) <==>
              PatchOk(p.(role := Undefined, active := Undefined)) && Truthy(p.role) && !p.role.Str?
  {
    if !TextIfTruthy(p.firstName) then Some(BadInput(FirstName))
    else if !TextIfTruthy(p.lastName) then Some(BadInput(LastName))
    else if !TextIfTruthy(p.email) then Some(BadInput(Email))
    else if !TextIfTruthy(p.username) then Some(BadInput(Username))
    else if !PasswordOk(p.password) then Some(BadInput(Password))
    else if !TextIfTruthy(p.phoneNumber) then Some(BadInput(PhoneNumber))
    else if Truthy(p.role) && !p.role.Str? then Some(ServerError)
    else if !RoleShapeOk(p.role) then Some(BadId(RoleRef))
    else if !BoolIfPresent(p.active) then Some(BadInput(Active))
    else None
  }

  /** The body of a sign-up request. */
  datatype SignupRequest = SignupRequest(
    firstName: Value, lastName: Value, email: Value, username: Value,
    password: Value, phoneNumber: Value, role: Value)

  /** `mongoose.Types.ObjectId.isValid`, for the string case. */
  predicate ObjectIdValid(v: Value) {
    v.Str? && ObjectIdShaped(v.s)
  }

  /** The six required fields of sign-up are all truthy. */
  predicate SignupFieldsGiven(q: SignupRequest) {
    Truthy(q.firstName) && Truthy(q.lastName) && Truthy(q.email) && Truthy(q.username) &&
    Truthy(q.password) && Truthy(q.role)
  }

  /** The five text fields of sign-up are strings. */
  predicate SignupTypesOk(q: SignupRequest) {
    q.firstName.Str? && q.lastName.Str? && q.email.Str? && q.username.Str? && q.password.Str?
  }

  /** Everything the sign-up chain demands before it looks at the store. */
  predicate SignupAdmissible(q: SignupRequest) {
    SignupFieldsGiven(q) && SignupTypesOk(q) && Utf16Length(q.password.s) >= 6 && ObjectIdValid(q.role)
  }

  /** The sign-up validation chain: presence of the six required fields,
      then the five text types, then the password length, then the role
      identifier's format. */
  function SignupCheck(q: SignupRequest): (r: Option<Error>)
    ensures r.None? <==> SignupAdmissible(q)
    ensures !SignupFieldsGiven(q) ==> r == Some(BadInput(Required))
    ensures SignupFieldsGiven(q) && !SignupTypesOk(q) ==> r == Some(BadInput(Types))
    ensures SignupFieldsGiven(q) && SignupTypesOk(q) && Utf16Length(q.password.s) < 6 ==>
              r == Some(BadInput(Password))
    ensures SignupFieldsGiven(q) && SignupTypesOk(q) && Utf16Length(q.password.s) >= 6 && !ObjectIdValid(q.role) ==>
              r == Some(BadId(RoleRef))
    ensures r == Some(BadInput(Password)) ==> q.password.Str? && Utf16Length(q.password.s) < 6
  {
    if !SignupFieldsGiven(q) then Some(BadInput(Required))
    else if !SignupTypesOk(q) then Some(BadInput(Types))
    else if Utf16Length(q.password.s) < 6 then Some(BadInput(Password))
    else if !ObjectIdValid(q.role) then Some(BadId(RoleRef))
    else None
  }

  /** The record sign-up stores: the given fields, the password digest, an
      active account, the creation time. */
  function NewUser(q: SignupRequest, now: int): User
    requires q.password.Str?
  {
    User(q.firstName, q.lastName, q.email, q.username, Hashed(q.password.s),
         q.phoneNumber, q.role, true, now)
  }

  /** The user as sign-up returns it: no password and no phone number. */
  datatype PublicUser = PublicUser(
    id: Id, firstName: Value, lastName: Value, email: Value, username: Value,
    role: Value, active: bool, createdAt: int)

  function Public(id: Id, u: User): PublicUser {
    PublicUser(id, u.firstName, u.lastName, u.email, u.username, u.role, u.active, u.createdAt)
  }

  /** The session token, standing for a signature over the user identifier. */
  datatype Token = Token(userId: Id)

  /** A stored field matches a look-up value case-insensitively (a field that
      is not a string never matches a pattern). */
  predicate MatchesIgnoreCase(v: Value, s: string) {
    v.Str? && EqualsIgnoreCase(v.s, s)
  }

  /** Some user has this e-mail or this username, ignoring case. */
  predicate IdentityTaken(users: map<Id, User>, email: string, username: string) {
    exists o :: o in users && (MatchesIgnoreCase(users[o].email, email) || MatchesIgnoreCase(users[o].username, username))
  }

  /** The update's e-mail is truthy, differs from the user's stored one, and
      another user already has it, ignoring case. */
  predicate EmailClash(users: map<Id, User>, id: Id, p: UserPatch) {
    Truthy(p.email) && p.email.Str? && id in users && p.email != users[id].email &&
    exists o :: o in users && o != id && MatchesIgnoreCase(users[o].email, p.email.s)
  }

  /** The same test for the username. */
  predicate UsernameClash(users: map<Id, User>, id: Id, p: UserPatch) {
    Truthy(p.username) && p.username.Str? && id in users && p.username != users[id].username &&
    exists o :: o in users && o != id && MatchesIgnoreCase(users[o].username, p.username.s)
  }

  /** Two stored values are the same identity: both strings, equal ignoring
      case. */
  predicate SameIdentity(v: Value, w: Value) {
    v.Str? && w.Str? && EqualsIgnoreCase(v.s, w.s)
  }

  /** No two users share an e-mail or a username, ignoring case: what the
      sign-up and update look-ups are there to keep. */
  predicate UsersUnique(users: map<Id, User>) {
    forall a, b :: a in users && b in users && a != b ==>
      !SameIdentity(users[a].email, users[b].email) && !SameIdentity(users[a].username, users[b].username)
  }

  /** Adding a user whose e-mail and username no user has, ignoring case,
      keeps identities unique. */
  lemma AddedUserUnique(users: map<Id, User>, id: Id, u: User)
    requires UsersUnique(users) && id !in users
    requires u.email.Str? && u.username.Str? && !IdentityTaken(users, u.email.s, u.username.s)
    ensures UsersUnique(users[id := u])
  {
    var after := users[id := u];
    forall a, b | a in after && b in after && a != b
      ensures !SameIdentity(after[a].email, after[b].email) && !SameIdentity(after[a].username, after[b].username)
    {
      if a == id {
        assert !MatchesIgnoreCase(users[b].email, u.email.s) && !MatchesIgnoreCase(users[b].username, u.username.s);
      } else if b == id {
        assert !MatchesIgnoreCase(users[a].email, u.email.s) && !MatchesIgnoreCase(users[a].username, u.username.s);
      }
    }
  }

  /** One identity field of the updated user against another user's
      `stored` value: the field is written either as the user's `current`
      value, which was distinct, or as a `given` value that differs from it
      and that the look-up found on no other user. */
  lemma PatchedIdentityUnique(given: Value, current: Value, written: Value, stored: Value)
    requires written == given || written == current
    requires written == given && given != current ==> given.Str? && !MatchesIgnoreCase(stored, given.s)
    requires !SameIdentity(stored, current) && !SameIdentity(current, stored)
    ensures !SameIdentity(written, stored) && !SameIdentity(stored, written)
  {}

  /** Updating one user with a patch that passed the e-mail and username
      look-ups keeps identities unique. */
  lemma PatchedUserUnique(users: map<Id, User>, id: Id, p: UserPatch, upd: UserSet)
    requires id in users && PatchOk(p)
    requires !EmailClash(users, id, p) && !UsernameClash(users, id, p)
    requires upd.email == (if Truthy(p.email) then Some(p.email) else None)
    requires upd.username == (if Truthy(p.username) then Some(p.username) else None)
    ensures UsersUnique(users) ==> UsersUnique(users[id := ApplySet(users[id], upd)])
  {
    if !UsersUnique(users) {
      return;
    }
    var v := ApplySet(users[id], upd);
    var after := users[id := v];
    forall a, b | a in after && b in after && a != b
      ensures !SameIdentity(after[a].email, after[b].email) && !SameIdentity(after[a].username, after[b].username)
    {
      var other := if a == id then b else a;
      if a == id || b == id {
        var u := users[id];
        PatchedIdentityUnique(p.email, u.email, v.email, users[other].email);
        PatchedIdentityUnique(p.username, u.username, v.username, users[other].username);
      }
    }
  }

  /** A truthy role reference names an existing role. */
  predicate RoleRefOk(v: Value, roles: map<Id, Role>) {
    Truthy(v) ==> v.Str? && v.s in roles
  }

  /** `populate('role')`: the referenced role, or nothing when the reference
      does not resolve. */
  function RoleOf(v: Value, roles: map<Id, Role>): Option<Role> {
    if v.Str? && v.s in roles then Some(roles[v.s]) else None
  }

  /** A user as the read and update handlers return it, role expanded. */
  datatype UserView = UserView(id: Id, user: User, role: Option<Role>)
}
