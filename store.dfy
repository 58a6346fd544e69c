/** The two controllers over an in-memory store: one method per request
    handler, each running its fixed sequence of checks and then making at most
    one write. Identifiers and clock readings the database would generate are
    parameters. */
module Store {
  import opened Text
  import opened Values
  import opened Roles
  import opened Users
  import opened Access
  import opened Paging
  import opened Bulk

  /** The query string of a listing request. `page` and `limit` are the
      results of `parseInt` (`None`: absent or not a number). */
  datatype ListQuery = ListQuery(search: Option<string>, page: Option<int>, limit: Option<int>, active: Option<string>)

  /** `pages` is `None` when `Math.ceil` gives a value that is not a finite
      number (a zero limit). */
  datatype PageInfo = PageInfo(page: int, limit: int, total: nat, pages: Option<int>)
  datatype UserPage = UserPage(users: seq<UserView>, info: PageInfo)
  datatype RolePage = RolePage(roles: seq<(Id, Role)>, info: PageInfo)
  datatype Counts = Counts(matched: nat, modified: nat)
  datatype Signed = Signed(user: PublicUser, token: Token)

  /** `order` lists every key of the collection once: the collection in the
      order the database returns it (newest first). */
  predicate IsListing(order: seq<Id>, keys: set<Id>) {
    (forall i :: 0 <= i < |order| ==> order[i] in keys) &&
    (forall k :: k in keys ==> k in order) &&
    Distinct(order)
  }

  /** `parseInt(x) || d`: absent, not a number, or zero gives the default. */
  function OrDefault(raw: Option<int>, d: int): (v: int)
    ensures v == d || (raw == Some(v) && v != 0)
    ensures raw.Some? && raw.value != 0 ==> v == raw.value
    ensures d != 0 ==> v != 0
  {
    if raw.None? || raw.value == 0 then d else raw.value
  }

  /** `active === 'true'` when the `active` parameter is given. */
  predicate ActiveFilter(q: ListQuery, active: bool) {
    q.active.None? || active == (q.active.value == "true")
  }

  /** A truthy search term is a case-insensitive substring of the field. */
  predicate TextHit(v: Value, term: string) {
    v.Str? && ContainsIgnoreCase(v.s, term)
  }

  predicate UserHit(u: User, q: ListQuery) {
    (q.search.None? || q.search.value == "" ||
     TextHit(u.firstName, q.search.value) || TextHit(u.lastName, q.search.value) ||
     TextHit(u.email, q.search.value) || TextHit(u.username, q.search.value)) &&
    ActiveFilter(q, u.active)
  }

  predicate RoleHit(r: Role, q: ListQuery) {
    (q.search.None? || q.search.value == "" || ContainsIgnoreCase(r.name, q.search.value)) &&
    ActiveFilter(q, r.active)
  }

  /** The users a listing query selects, in listing order: each matching
      user once, so that there are as many as `countDocuments` counts. */
  function UserHits(users: map<Id, User>, order: seq<Id>, q: ListQuery): (hits: seq<Id>)
    ensures forall id :: id in hits ==> id in users && UserHit(users[id], q)
    ensures IsListing(order, users.Keys) ==>
              forall id :: id in users && UserHit(users[id], q) ==> id in hits
    ensures IsListing(order, users.Keys) ==> Distinct(hits)
    ensures IsListing(order, users.Keys) ==> |hits| == |set id | id in users && UserHit(users[id], q)|
  {
    var keep := (id: Id) => id in users && UserHit(users[id], q);
    if IsListing(order, users.Keys) then
      FilterDistinct(order, keep);
      DistinctCardinality(Filter(order, keep));
      assert (set id | id in Filter(order, keep)) == set id | id in users && UserHit(users[id], q);
      Filter(order, keep)
    else
      Filter(order, keep)
  }

  /** The roles a listing query selects, in listing order: each matching
      role once, so that there are as many as `countDocuments` counts. */
  function RoleHits(roles: map<Id, Role>, order: seq<Id>, q: ListQuery): (hits: seq<Id>)
    ensures forall id :: id in hits ==> id in roles && RoleHit(roles[id], q)
    ensures IsListing(order, roles.Keys) ==>
              forall id :: id in roles && RoleHit(roles[id], q) ==> id in hits
    ensures IsListing(order, roles.Keys) ==> Distinct(hits)
    ensures IsListing(order, roles.Keys) ==> |hits| == |set id | id in roles && RoleHit(roles[id], q)|
  {
    var keep := (id: Id) => id in roles && RoleHit(roles[id], q);
    if IsListing(order, roles.Keys) then
      FilterDistinct(order, keep);
      DistinctCardinality(Filter(order, keep));
      assert (set id | id in Filter(order, keep)) == set id | id in roles && RoleHit(roles[id], q);
      Filter(order, keep)
    else
      Filter(order, keep)
  }

  /** Some role other than `except` has exactly this (trimmed) name: what
      the unique index on `name` refuses. */
  predicate NameTaken(roles: map<Id, Role>, except: Option<Id>, name: string) {
    exists o :: o in roles && Some(o) != except && roles[o].name == name
  }

  /** Some role other than `id` has this name, ignoring case: the look-up
      the role update runs before writing. */
  predicate NameTakenIgnoreCase(roles: map<Id, Role>, id: Id, name: string) {
    exists o :: o in roles && o != id && EqualsIgnoreCase(roles[o].name, name)
  }

  /** The users whose role reference is this identifier. */
  function Referencing(users: map<Id, User>, id: Id): set<Id> {
    set u | u in users && users[u].role == Str(id)
  }

  /** Everything the role update demands before it looks at names. */
  predicate RoleUpdateAdmissible(roles: map<Id, Role>, id: Id, name: Value, modules: Value, active: Value) {
    Truthy(name) && Truthy(modules) && Truthy(active) && id != "" &&
    ObjectIdShaped(id) && id in roles && name.Str? && modules.Arr? && active.Bool?
  }

  /** The checks the role update runs before it writes, in order: all of
      `name`, `accessModules` and `active` truthy (so `active: false` is
      always refused) and an identifier given; identifier format; existence;
      the three types; then, only for a name that differs from the stored
      one, a case-insensitive look-up that skips the role itself. */
  function RoleUpdateCheck(roles: map<Id, Role>, id: Id, name: Value, modules: Value, active: Value): (r: Option<Error>)
    ensures r.None? <==>
              RoleUpdateAdmissible(roles, id, name, modules, active) &&
              !(name.s != roles[id].name && NameTakenIgnoreCase(roles, id, name.s))
    ensures !(Truthy(name) && Truthy(modules) && Truthy(active) && id != "") ==> r == Some(BadInput(Required))
    ensures active == Bool(false) ==> r == Some(BadInput(Required))
    ensures Truthy(name) && Truthy(modules) && Truthy(active) && id != "" && !ObjectIdShaped(id) ==>
              r == Some(BadId(RoleId))
    ensures Truthy(name) && Truthy(modules) && Truthy(active) && ObjectIdShaped(id) && id !in roles ==>
              r == Some(NotFound)
    ensures Truthy(name) && Truthy(modules) && Truthy(active) && ObjectIdShaped(id) && id in roles &&
            !name.Str?
            ==> r == Some(BadInput(Name))
    ensures Truthy(name) && Truthy(modules) && Truthy(active) && ObjectIdShaped(id) && id in roles &&
            name.Str? && !modules.Arr?
            ==> r == Some(BadInput(AccessModules))
    ensures Truthy(name) && Truthy(modules) && Truthy(active) && ObjectIdShaped(id) && id in roles &&
            name.Str? && modules.Arr? && !active.Bool?
            ==> r == Some(BadInput(Active))
    ensures r == Some(Duplicate(Name)) <==>
              RoleUpdateAdmissible(roles, id, name, modules, active) &&
              name.s != roles[id].name && NameTakenIgnoreCase(roles, id, name.s)
  {
    if !Truthy(name) || !Truthy(modules) || !Truthy(active) || id == "" then Some(BadInput(Required))
    else if !ObjectIdShaped(id) then Some(BadId(RoleId))
    else if id !in roles then Some(NotFound)
    else if !name.Str? then Some(BadInput(Name))
    else if !modules.Arr? then Some(BadInput(AccessModules))
    else if !active.Bool? then Some(BadInput(Active))
    else if name.s != roles[id].name && NameTakenIgnoreCase(roles, id, name.s) then Some(Duplicate(Name))
    else None
  }

  /** Every role satisfies the schema and no two roles share a name (the
      unique index). */
  predicate RolesValid(roles: map<Id, Role>) {
    (forall id :: id in roles ==> RoleValid(roles[id])) &&
    (forall a, b :: a in roles && b in roles && a != b ==> roles[a].name != roles[b].name)
  }

  /** Every truthy role reference of a user names an existing role. */
  predicate RefsValid(users: map<Id, User>, roles: map<Id, Role>) {
    forall id :: id in users ==> RoleRefOk(users[id].role, roles)
  }

  /** A page of roles: from position `skip` of the selection on, each
      selected identifier with its stored record, every one matching the
      query. */
  predicate RolePageOf(roles: map<Id, Role>, hits: seq<Id>, skip: nat, q: ListQuery, items: seq<(Id, Role)>) {
    forall k :: 0 <= k < |items| ==>
      skip + k < |hits| && items[k].0 == hits[skip + k] &&
      items[k].0 in roles && items[k].1 == roles[items[k].0] && RoleHit(items[k].1, q)
  }

  /** The roles on one page of a listing. */
  function RoleItems(roles: map<Id, Role>, hits: seq<Id>, skip: nat, take: nat, q: ListQuery): (items: seq<(Id, Role)>)
    requires forall id :: id in hits ==> id in roles && RoleHit(roles[id], q)
    ensures |items| <= take
    ensures |items| == if skip >= |hits| then 0 else Min(take, |hits| - skip)
    ensures RolePageOf(roles, hits, skip, q, items)
  {
    var w := Window(hits, skip, take);
    seq(|w|, k requires 0 <= k < |w| => (w[k], roles[w[k]]))
  }

  /** A page of users: from position `skip` of the selection on, each
      selected user with its stored record and its role expanded, every one
      matching the query. */
  predicate UserPageOf(users: map<Id, User>, roles: map<Id, Role>, hits: seq<Id>, skip: nat, q: ListQuery,
                       items: seq<UserView>) {
    forall k :: 0 <= k < |items| ==>
      skip + k < |hits| && items[k].id == hits[skip + k] &&
      items[k].id in users && items[k].user == users[items[k].id] &&
      items[k].role == RoleOf(items[k].user.role, roles) && UserHit(items[k].user, q)
  }

  /** The users on one page of a listing. */
  function UserItems(users: map<Id, User>, roles: map<Id, Role>, hits: seq<Id>, skip: nat, take: nat, q: ListQuery)
    : (items: seq<UserView>)
    requires forall id :: id in hits ==> id in users && UserHit(users[id], q)
    ensures |items| <= take
    ensures |items| == if skip >= |hits| then 0 else Min(take, |hits| - skip)
    ensures UserPageOf(users, roles, hits, skip, q, items)
  {
    var w := Window(hits, skip, take);
    seq(|w|, k requires 0 <= k < |w| => UserView(w[k], users[w[k]], RoleOf(users[w[k]].role, roles)))
  }

  /** `parseInt(page)` with the destructuring default of 1. */
  function PageParam(q: ListQuery): int {
    if q.page.None? then 1 else q.page.value
  }

  /** `parseInt(limit)` with the destructuring default of 10. */
  function LimitParam(q: ListQuery): int {
    if q.limit.None? then 10 else q.limit.value
  }

  /** Storing a valid role under a new or its own identifier keeps the roles
      valid when no other role has its name. */
  lemma PutRoleValid(roles: map<Id, Role>, id: Id, role: Role, except: Option<Id>)
    requires RolesValid(roles) && RoleValid(role)
    requires except == None ==> id !in roles
    requires except.Some? ==> except.value == id
    requires !NameTaken(roles, except, role.name)
    ensures RolesValid(roles[id := role])
  {
    var m := roles[id := role];
    forall a, b | a in m && b in m && a != b ensures m[a].name != m[b].name {
      if a == id {
        assert Some(b) != except;
      } else if b == id {
        assert Some(a) != except;
      }
    }
  }

  /** The `$set` document of a single-user update, built one field at a
      time: text fields, password and role when truthy (the password as its
      digest), `phoneNumber` and `active` whenever present. */
  method UpdateDocument(p: UserPatch) returns (updates: UserSet)
    requires PatchOk(p)
    ensures updates.firstName == (if Truthy(p.firstName) then Some(p.firstName) else None)
    ensures updates.lastName == (if Truthy(p.lastName) then Some(p.lastName) else None)
    ensures updates.email == (if Truthy(p.email) then Some(p.email) else None)
    ensures updates.username == (if Truthy(p.username) then Some(p.username) else None)
    ensures updates.password == (if Truthy(p.password) then Some(Hashed(p.password.s)) else None)
    ensures updates.phoneNumber == (if Present(p.phoneNumber) then Some(p.phoneNumber) else None)
    ensures updates.role == (if Truthy(p.role) then Some(p.role) else None)
    ensures updates.active == (if Present(p.active) then Some(p.active.b) else None)
  {
    var firstName, lastName, email, username := None, None, None, None;
    var password, phoneNumber, role, active := None, None, None, None;
    if Truthy(p.firstName) { firstName := Some(p.firstName); }
    if Truthy(p.lastName) { lastName := Some(p.lastName); }
    if Truthy(p.email) { email := Some(p.email); }
    if Truthy(p.username) { username := Some(p.username); }
    if Truthy(p.password) { password := Some(Hashed(p.password.s)); }
    if Present(p.phoneNumber) { phoneNumber := Some(p.phoneNumber); }
    if Truthy(p.role) { role := Some(p.role); }
    if Present(p.active) { active := Some(p.active.b); }
    updates := UserSet(firstName, lastName, email, username, password, phoneNumber, role, active);
  }

  /** The role update passes its checks and the write passes the schema:
      the name trims to something, and no other role has the trimmed name. */
  predicate RoleUpdateWritable(roles: map<Id, Role>, id: Id, name: Value, modules: Value, active: Value) {
    RoleUpdateCheck(roles, id, name, modules, active).None? &&
    Trim(name.s) != "" && !NameTaken(roles, Some(id), Trim(name.s))
  }

  /** Re-submitting a role's current name never fails: the name look-up is
      skipped, and the stored name is already trimmed, present and unique. */
  lemma ResubmittedNameWritable(roles: map<Id, Role>, id: Id, name: Value, modules: Value, active: Value)
    requires RolesValid(roles)
    requires RoleUpdateAdmissible(roles, id, name, modules, active) && name.s == roles[id].name
    ensures RoleUpdateWritable(roles, id, name, modules, active)
  {
    TrimOfTrimmed(roles[id].name);
  }

  /** Rewriting a stored role with a name that trims to something no other
      role has, and modules stored as the handlers store them, keeps the
      roles valid and every user's role reference resolvable. */
  lemma RewrittenRoleValid(users: map<Id, User>, roles: map<Id, Role>, id: Id, role: Role, name: string, modules: Value)
    requires RolesValid(roles) && RefsValid(users, roles) && id in roles
    requires Trim(name) != "" && !NameTaken(roles, Some(id), Trim(name))
    requires role == Role(Trim(name), StoredModules(modules), role.createdAt, role.active)
    ensures RolesValid(roles[id := role]) && RefsValid(users, roles[id := role])
  {
    StoredRoleValid(name, modules, role.createdAt, role.active);
    PutRoleValid(roles, id, role, Some(id));
  }

  class IdentityStore {
    var users: map<Id, User>
    var roles: map<Id, Role>

    /** Every role satisfies the schema, no two roles share a name (the
        unique index), and every truthy role reference of a user names an
        existing role. */
    ghost predicate Valid()
      reads this
    {
      RolesValid(roles) && RefsValid(users, roles)
    }

    constructor ()
      ensures Valid() && users == map[] && roles == map[]
    {
      users := map[];
      roles := map[];
    }

    // ---------------------------------------------------------------- roles

    /** Creates a role. Type checks on `name` and `accessModules` come before
        the presence check on `name`; the list is de-duplicated and the schema
        trims the name and each entry. There is no look-up for a name taken
        in another case: only the unique index, on the exact trimmed name,
        refuses a duplicate. A name that trims to nothing fails the schema's
        `required` rule as a server error. */
    method CreateRole(name: Value, modules: Value, newId: Id, now: int) returns (r: Result<Role>)
      requires Valid() && newId !in roles
      modifies this
      ensures Valid() && users == old(users)
      ensures Truthy(name) && !name.Str? ==> r == Err(BadInput(Name))
      ensures TextIfTruthy(name) && Truthy(modules) && !modules.Arr? ==> r == Err(BadInput(AccessModules))
      ensures !Truthy(name) && !(Truthy(modules) && !modules.Arr?) ==> r == Err(BadInput(Required))
      ensures Truthy(name) && name.Str? && !(Truthy(modules) && !modules.Arr?) && Trim(name.s) == "" ==>
                r == Err(ServerError)
      ensures r == Err(Duplicate(Name)) <==>
                Truthy(name) && name.Str? && !(Truthy(modules) && !modules.Arr?) &&
                Trim(name.s) != "" && NameTaken(old(roles), None, Trim(name.s))
      ensures r.Ok? <==>
                Truthy(name) && name.Str? && !(Truthy(modules) && !modules.Arr?) &&
                Trim(name.s) != "" && !NameTaken(old(roles), None, Trim(name.s))
      ensures r.Err? ==> roles == old(roles)
      ensures r.Ok? ==> r.value == Role(Trim(name.s), StoredModules(modules), now, true) &&
                        roles == old(roles)[newId := r.value]
    {
      if Truthy(name) && !name.Str? {
        return Err(BadInput(Name));
      }
      if Truthy(modules) && !modules.Arr? {
        return Err(BadInput(AccessModules));
      }
      if !Truthy(name) {
        return Err(BadInput(Required));
      }
      var role := Role(Trim(name.s), StoredModules(modules), now, true);
      if role.name == "" {
        return Err(ServerError);
      }
      if NameTaken(roles, None, role.name) {
        return Err(Duplicate(Name));
      }
      StoredRoleValid(name.s, modules, now, true);
      PutRoleValid(roles, newId, role, None);
      roles := roles[newId := role];
      r := Ok(role);
    }

    /** Deletes a role. The count of users referencing it is taken before
        the role is looked up, so a referenced identifier is refused as in
        use even when no such role exists. */
    method DeleteRole(id: Id) returns (r: Result<()>)
      requires Valid()
      modifies this
      ensures Valid() && users == old(users)
      ensures !ObjectIdShaped(id) ==> r == Err(BadId(RoleId))
      ensures ObjectIdShaped(id) && Referencing(users, id) != {} ==> r == Err(InUse)
      ensures ObjectIdShaped(id) && Referencing(users, id) == {} && id !in old(roles) ==> r == Err(NotFound)
      ensures r.Ok? <==> ObjectIdShaped(id) && Referencing(users, id) == {} && id in old(roles)
      ensures r.Err? ==> roles == old(roles)
      ensures r.Ok? ==> roles == old(roles) - {id}
    {
      if !ObjectIdShaped(id) {
        return Err(BadId(RoleId));
      }
      if |Referencing(users, id)| > 0 {
        return Err(InUse);
      }
      if id !in roles {
        return Err(NotFound);
      }
      forall u | u in users ensures users[u].role != Str(id) {
        assert u !in Referencing(users, id);
      }
      roles := roles - {id};
      r := Ok(());
    }

    /** Lists roles. `page` and `limit` are taken as parsed, with no check:
        a skip that comes out negative is refused by the database; a zero
        limit means no limit, and a negative one is taken by its absolute
        value. With a positive limit, exactly the pages below one fail. */
    function GetAllRoles(q: ListQuery, order: seq<Id>): (r: Result<RolePage>)
      reads this
      requires IsListing(order, roles.Keys)
      ensures r.Err? <==> Skip(PageParam(q), LimitParam(q)) < 0
      ensures LimitParam(q) >= 1 ==> (r.Err? <==> PageParam(q) < 1)
      ensures r.Err? ==> r.error == ServerError
      ensures r.Ok? ==>
                var page, limit, hits := PageParam(q), LimitParam(q), RoleHits(roles, order, q);
                && r.value.info == PageInfo(page, limit, |hits|, CeilDiv(|hits|, limit))
                && RolePageOf(roles, hits, Skip(page, limit), q, r.value.roles)
                && (limit != 0 ==> |r.value.roles| <= if limit > 0 then limit else -limit)
                && |r.value.roles| ==
                     (if Skip(page, limit) >= |hits| then 0 else Min(Take(limit, |hits|), |hits| - Skip(page, limit)))
                && (limit == 0 ==> |r.value.roles| == if Skip(page, limit) >= |hits| then 0 else |hits| - Skip(page, limit))
    {
      var page, limit := PageParam(q), LimitParam(q);
      SkipNegative(page, limit);
      if Skip(page, limit) < 0 then Err(ServerError)
      else
        var hits := RoleHits(roles, order, q);
        Ok(RolePage(RoleItems(roles, hits, Skip(page, limit), Take(limit, |hits|), q),
                    PageInfo(page, limit, |hits|, CeilDiv(|hits|, limit))))
    }

    /** Reads one role. */
    method GetRoleById(id: Id) returns (r: Result<Role>)
      ensures !ObjectIdShaped(id) ==> r == Err(BadId(RoleId))
      ensures ObjectIdShaped(id) && id !in roles ==> r == Err(NotFound)
      ensures r.Ok? <==> ObjectIdShaped(id) && id in roles
      ensures r.Ok? ==> r.value == roles[id]
    {
      if !ObjectIdShaped(id) {
        return Err(BadId(RoleId));
      }
      if id !in roles {
        return Err(NotFound);
      }
      r := Ok(roles[id]);
    }

    /** Updates a role: the checks of `RoleUpdateCheck`, then the `$set`
        document assembled field by field and written under the schema (a
        name that trims to nothing fails `required`; the unique index checks
        the trimmed name exactly). Every successful update leaves the role
        active. */
    method UpdateRole(id: Id, name: Value, modules: Value, active: Value) returns (r: Result<Role>)
      requires Valid()
      modifies this
      ensures Valid() && users == old(users)
      ensures RoleUpdateCheck(old(roles), id, name, modules, active).Some? ==>
                r == Err(RoleUpdateCheck(old(roles), id, name, modules, active).value)
      ensures RoleUpdateCheck(old(roles), id, name, modules, active).None? && name.Str? && Trim(name.s) == "" ==>
                r == Err(ServerError)
      ensures RoleUpdateCheck(old(roles), id, name, modules, active).None? && name.Str? && Trim(name.s) != "" &&
              NameTaken(old(roles), Some(id), Trim(name.s))
              ==> r == Err(Duplicate(Name))
      ensures r.Ok? <==> RoleUpdateWritable(old(roles), id, name, modules, active)
      ensures r.Err? ==> roles == old(roles)
      ensures r.Ok? ==>
                r.value == Role(Trim(name.s), StoredModules(modules), old(roles)[id].createdAt, true) &&
                roles == old(roles)[id := r.value]
    {
      var bad := RoleUpdateCheck(roles, id, name, modules, active);
      if bad.Some? {
        return Err(bad.value);
      }
      var current := roles[id];
      // The `$set` document, one field at a time; the schema trims the name
      // and every module. After the checks all three guards hold.
      var newName, newModules, newActive := current.name, current.accessModules, current.active;
      if Truthy(name) { newName := Trim(name.s); }
      if Truthy(modules) { newModules := StoredModules(modules); }
      if Present(active) { newActive := active.b; }
      var updated := Role(newName, newModules, current.createdAt, newActive);
      if newName == "" {
        return Err(ServerError);
      }
      if NameTaken(roles, Some(id), newName) {
        return Err(Duplicate(Name));
      }
      RewrittenRoleValid(users, roles, id, updated, name.s, modules);
      roles := roles[id := updated];
      r := Ok(updated);
    }

    // ---------------------------------------------------------------- users

    /** Registers a user: the validation chain, then the role must exist,
        then no user may have the e-mail or the username in any case. On
        success exactly one user is added, active, with the password stored
        as its digest, and the reply carries no password. */
    method Signup(req: SignupRequest, newId: Id, now: int) returns (r: Result<Signed>)
      requires Valid() && newId !in users
      modifies this
      ensures Valid() && roles == old(roles)
      ensures SignupCheck(req).Some? ==> r == Err(SignupCheck(req).value)
      ensures SignupCheck(req).None? && req.role.s !in roles ==> r == Err(BadRole)
      ensures SignupCheck(req).None? && req.role.s in roles && IdentityTaken(old(users), req.email.s, req.username.s)
              ==> r == Err(Duplicate(EmailOrUsername))
      ensures r.Ok? <==> SignupCheck(req).None? && req.role.s in roles &&
                         !IdentityTaken(old(users), req.email.s, req.username.s)
      ensures r.Err? ==> users == old(users)
      ensures r.Ok? ==> users == old(users)[newId := NewUser(req, now)] && |users| == |old(users)| + 1
      ensures r.Ok? ==> users[newId].active && users[newId].password == Hashed(req.password.s)
      ensures r.Ok? ==> r.value == Signed(Public(newId, users[newId]), Token(newId))
      ensures UsersUnique(old(users)) ==> UsersUnique(users)
    {
      var bad := SignupCheck(req);
      if bad.Some? {
        return Err(bad.value);
      }
      if req.role.s !in roles {
        return Err(BadRole);
      }
      if IdentityTaken(users, req.email.s, req.username.s) {
        return Err(Duplicate(EmailOrUsername));
      }
      var u := NewUser(req, now);
      if UsersUnique(users) {
        AddedUserUnique(users, newId, u);
      }
      users := users[newId := u];
      r := Ok(Signed(Public(newId, u), Token(newId)));
    }

    /** Lists users. `parseInt(x) || default` turns a missing, unparsable or
        zero page or limit into its default; a page or limit below one is
        refused; otherwise the page of matching users in listing order. */
    function ListUsers(q: ListQuery, order: seq<Id>): (r: Result<UserPage>)
      reads this
      requires IsListing(order, users.Keys)
      ensures r.Err? <==> OrDefault(q.page, 1) < 1 || OrDefault(q.limit, 10) < 1
      ensures r.Err? ==> r.error == BadInput(Paging)
      ensures r.Ok? ==>
                var page, limit, hits := OrDefault(q.page, 1), OrDefault(q.limit, 10), UserHits(users, order, q);
                && r.value.info == PageInfo(page, limit, |hits|, Some(PageCount(|hits|, limit)))
                && |r.value.users| <= limit
                && |r.value.users| == (if Skip(page, limit) >= |hits| then 0 else Min(limit, |hits| - Skip(page, limit)))
                && UserPageOf(users, roles, hits, Skip(page, limit), q, r.value.users)
    {
      var page, limit := OrDefault(q.page, 1), OrDefault(q.limit, 10);
      if page < 1 || limit < 1 then Err(BadInput(Paging))
      else
        SkipSign(page, limit);
        var hits := UserHits(users, order, q);
        Ok(UserPage(UserItems(users, roles, hits, Skip(page, limit), limit, q),
                    PageInfo(page, limit, |hits|, Some(PageCount(|hits|, limit)))))
    }

    /** Reads one user, role expanded. */
    method GetUserById(id: Id) returns (r: Result<UserView>)
      ensures !ObjectIdShaped(id) ==> r == Err(BadId(UserId))
      ensures ObjectIdShaped(id) && id !in users ==> r == Err(NotFound)
      ensures r.Ok? <==> ObjectIdShaped(id) && id in users
      ensures r.Ok? ==> r.value == UserView(id, users[id], RoleOf(users[id].role, roles))
    {
      if !ObjectIdShaped(id) {
        return Err(BadId(UserId));
      }
      if id !in users {
        return Err(NotFound);
      }
      r := Ok(UserView(id, users[id], RoleOf(users[id].role, roles)));
    }

    /** Deletes a user; nothing refers to users, so there is no guard. */
    method DeleteUser(id: Id) returns (r: Result<()>)
      requires Valid()
      modifies this
      ensures Valid() && roles == old(roles)
      ensures !ObjectIdShaped(id) ==> r == Err(BadId(UserId))
      ensures ObjectIdShaped(id) && id !in old(users) ==> r == Err(NotFound)
      ensures r.Ok? <==> ObjectIdShaped(id) && id in old(users)
      ensures r.Err? ==> users == old(users)
      ensures r.Ok? ==> users == old(users) - {id}
      ensures UsersUnique(old(users)) ==> UsersUnique(users)
    {
      if !ObjectIdShaped(id) {
        return Err(BadId(UserId));
      }
      if id !in users {
        return Err(NotFound);
      }
      users := users - {id};
      r := Ok(());
    }

    /** Updates one user: identifier format, existence, the validation chain,
        e-mail then username uniqueness (only for a value that differs from
        the stored one, and never against the user's own record), then role
        existence. Text fields, password and role are written when truthy,
        `phoneNumber` and `active` whenever present; nothing else changes. */
    method UpdateUser(id: Id, p: UserPatch) returns (r: Result<UserView>)
      requires Valid()
      modifies this
      ensures Valid() && roles == old(roles)
      ensures !ObjectIdShaped(id) ==> r == Err(BadId(UserId))
      ensures ObjectIdShaped(id) && id !in old(users) ==> r == Err(NotFound)
      ensures ObjectIdShaped(id) && id in old(users) && PatchCheck(p).Some? ==> r == Err(PatchCheck(p).value)
      ensures r == Err(Duplicate(Email)) <==>
                ObjectIdShaped(id) && PatchOk(p) && EmailClash(old(users), id, p)
      ensures r == Err(Duplicate(Username)) <==>
                ObjectIdShaped(id) && PatchOk(p) && !EmailClash(old(users), id, p) && UsernameClash(old(users), id, p)
      ensures ObjectIdShaped(id) && id in old(users) && PatchOk(p) &&
              !EmailClash(old(users), id, p) && !UsernameClash(old(users), id, p) && !RoleRefOk(p.role, roles) ==>
                r == Err(BadRole)
      ensures r.Ok? <==>
                ObjectIdShaped(id) && id in old(users) && PatchOk(p) &&
                !EmailClash(old(users), id, p) && !UsernameClash(old(users), id, p) && RoleRefOk(p.role, roles)
      ensures id in old(users) && p.email == old(users)[id].email ==> r != Err(Duplicate(Email))
      ensures id in old(users) && p.username == old(users)[id].username ==> r != Err(Duplicate(Username))
      ensures r.Err? ==> users == old(users)
      ensures r.Ok? ==>
                id in old(users) && users.Keys == old(users).Keys &&
                (forall o :: o in users && o != id ==> users[o] == old(users)[o]) &&
                r.value == UserView(id, users[id], RoleOf(users[id].role, roles))
      ensures r.Ok? ==>
                var u, v := old(users)[id], users[id];
                && v.firstName == (if Truthy(p.firstName) then p.firstName else u.firstName)
                && v.lastName == (if Truthy(p.lastName) then p.lastName else u.lastName)
                && v.email == (if Truthy(p.email) then p.email else u.email)
                && v.username == (if Truthy(p.username) then p.username else u.username)
                && v.password == (if Truthy(p.password) then Hashed(p.password.s) else u.password)
                && v.phoneNumber == (if Present(p.phoneNumber) then p.phoneNumber else u.phoneNumber)
                && v.role == (if Truthy(p.role) then p.role else u.role)
                && v.active == (if Present(p.active) then p.active.b else u.active)
                && v.createdAt == u.createdAt
      ensures UsersUnique(old(users)) ==> UsersUnique(users)
    {
      if !ObjectIdShaped(id) {
        return Err(BadId(UserId));
      }
      if id !in users {
        return Err(NotFound);
      }
      var bad := PatchCheck(p);
      if bad.Some? {
        return Err(bad.value);
      }
      if EmailClash(users, id, p) {
        return Err(Duplicate(Email));
      }
      if UsernameClash(users, id, p) {
        return Err(Duplicate(Username));
      }
      if Truthy(p.role) && p.role.s !in roles {
        return Err(BadRole);
      }
      var updates := UpdateDocument(p);
      PatchedUserUnique(users, id, p, updates);
      users := users[id := ApplySet(users[id], updates)];
      r := Ok(UserView(id, users[id], RoleOf(users[id].role, roles)));
    }

    /** Decides whether a user may use a module: identifier format, then a
        non-empty string module name, then the user must exist; the decision
        itself puts an inactive account before module membership. */
    method CheckModuleAccess(userId: Value, moduleName: Value) returns (r: Result<()>)
      ensures !ObjectIdValid(userId) ==> r == Err(BadId(UserId))
      ensures ObjectIdValid(userId) && !(Truthy(moduleName) && moduleName.Str?) ==> r == Err(BadInput(Module))
      ensures ObjectIdValid(userId) && Truthy(moduleName) && moduleName.Str? && userId.s !in users ==>
                r == Err(NotFound)
      ensures ObjectIdValid(userId) && Truthy(moduleName) && moduleName.Str? && userId.s in users ==>
                r == Decide(users[userId.s], RoleOf(users[userId.s].role, roles), moduleName.s)
      ensures r == Err(Inactive) <==>
                ObjectIdValid(userId) && Truthy(moduleName) && moduleName.Str? && userId.s in users &&
                !users[userId.s].active
      ensures r.Ok? <==>
                ObjectIdValid(userId) && Truthy(moduleName) && moduleName.Str? && userId.s in users &&
                users[userId.s].active && RoleOf(users[userId.s].role, roles).Some? &&
                moduleName.s in RoleOf(users[userId.s].role, roles).value.accessModules
    {
      if !ObjectIdValid(userId) {
        return Err(BadId(UserId));
      }
      if !Truthy(moduleName) || !moduleName.Str? {
        return Err(BadInput(Module));
      }
      if userId.s !in users {
        return Err(NotFound);
      }
      var user := users[userId.s];
      r := Decide(user, RoleOf(user.role, roles), moduleName.s);
    }

    /** Applies one payload to every user the filter selects. An empty or
        missing payload, a failed validation chain, or a truthy e-mail or
        username is refused before the password is hashed or the role looked
        up; then the role must exist. Each field present is written as given
        (the password as its digest when truthy). */
    method BulkUpdateUsersSameData(updates: Option<UserPatch>, filter: User -> bool) returns (r: Result<Counts>)
      requires Valid()
      modifies this
      ensures Valid() && roles == old(roles)
      ensures updates.None? || IsEmptyPatch(updates.value) ==> r == Err(BadInput(Updates))
      ensures updates.Some? && !IsEmptyPatch(updates.value) && PatchCheck(updates.value).Some? ==>
                r == Err(PatchCheck(updates.value).value)
      ensures updates.Some? && !IsEmptyPatch(updates.value) && PatchOk(updates.value) &&
              (Truthy(updates.value.email) || Truthy(updates.value.username)) ==>
                r == Err(BadInput(EmailOrUsername))
      ensures updates.Some? && !IsEmptyPatch(updates.value) && PatchOk(updates.value) &&
              !Truthy(updates.value.email) && !Truthy(updates.value.username) &&
              !RoleRefOk(updates.value.role, roles)
              ==> r == Err(BadRole)
      ensures r.Ok? <==>
                updates.Some? && !IsEmptyPatch(updates.value) && PatchOk(updates.value) &&
                !Truthy(updates.value.email) && !Truthy(updates.value.username) &&
                RoleRefOk(updates.value.role, roles)
      ensures r.Err? ==> users == old(users)
      ensures r.Ok? ==>
                var upd := SpreadSet(updates.value);
                && users == SetWhere(old(users), filter, upd)
                && r.value == Counts(|Matched(old(users), filter)|, |Changed(old(users), filter, upd)|)
    {
      if updates.None? || IsEmptyPatch(updates.value) {
        return Err(BadInput(Updates));
      }
      var p := updates.value;
      var bad := PatchCheck(p);
      if bad.Some? {
        return Err(bad.value);
      }
      if Truthy(p.email) || Truthy(p.username) {
        return Err(BadInput(EmailOrUsername));
      }
      var upd := SpreadSet(p);
      if Truthy(p.role) && p.role.s !in roles {
        return Err(BadRole);
      }
      var matched, changed := Matched(users, filter), Changed(users, filter, upd);
      users := SetWhere(users, filter, upd);
      r := Ok(Counts(|matched|, |changed|));
    }

    /** The pre-validation of the heterogeneous batch: each element's checks
        against the store as it stands, in order, stopping at the first
        element that fails; otherwise the list of `updateOne` operations. */
    method PrevalidateBatch(batch: seq<Element>) returns (r: Result<seq<Op>>)
      ensures r.Ok? <==> AllOk(users, roles, batch)
      ensures r.Ok? ==> r.value == PlannedOps(users, roles, batch)
      ensures r.Err? ==>
                exists k :: 0 <= k < |batch| && CheckElement(users, roles, batch[k]).Err? &&
                  r.error == CheckElement(users, roles, batch[k]).error &&
                  forall j :: 0 <= j < k ==> CheckElement(users, roles, batch[j]).Ok?
    {
      var ops: seq<Op> := [];
      var i := 0;
      while i < |batch|
        invariant 0 <= i <= |batch|
        invariant |ops| == i
        invariant forall j :: 0 <= j < i ==>
                    CheckElement(users, roles, batch[j]).Ok? && ops[j] == CheckElement(users, roles, batch[j]).value
      {
        var c := CheckElement(users, roles, batch[i]);
        if c.Err? {
          return Err(c.error);
        }
        ops := ops + [c.value];
        i := i + 1;
      }
      r := Ok(ops);
    }

    /** Applies a different payload to each listed user. Any element that
        fails its checks aborts the whole batch before anything is written,
        and, being a thrown error, comes back as a server error. Otherwise
        the operations are written in order, each targeted user receiving its
        own element's data. */
    method BulkUpdateUsersDifferentData(updates: Option<seq<Element>>) returns (r: Result<Counts>)
      requires Valid()
      modifies this
      ensures Valid() && roles == old(roles)
      ensures updates.None? || |updates.value| == 0 ==> r == Err(BadInput(Updates))
      ensures updates.Some? && |updates.value| > 0 && !AllOk(old(users), roles, updates.value) ==>
                r == Err(ServerError)
      ensures r.Ok? <==> updates.Some? && |updates.value| > 0 && AllOk(old(users), roles, updates.value)
      ensures r.Err? ==> users == old(users)
      ensures r.Ok? ==>
                var ops := PlannedOps(old(users), roles, updates.value);
                && users == ApplyOps(old(users), ops)
                && r.value == Counts(|ops|, ModifiedCount(old(users), ops))
    {
      if updates.None? || |updates.value| == 0 {
        return Err(BadInput(Updates));
      }
      var planned := PrevalidateBatch(updates.value);
      if planned.Err? {
        return Err(ServerError);
      }
      var ops := planned.value;
      var after, matched, modified := WriteBatch(users, ops);
      PlannedAllMatched(users, roles, updates.value);
      ApplyOpsRefs(users, roles, ops);
      users := after;
      r := Ok(Counts(matched, modified));
    }
  }
}
