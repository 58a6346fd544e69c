/** The two bulk update paths of the user handlers: the per-element checks and
    write operations of the heterogeneous batch, and the filtered `$set` of the
    homogeneous one. */
module Bulk {
  import opened Text
  import opened Values
  import opened Roles
  import opened Users

  /** One element of the heterogeneous batch: `{ userId, data }`. A missing
      `data` object is `None`. */
  datatype Element = Element(userId: Value, data: Option<UserPatch>)

  /** An `updateOne` operation: the target identifier and its `$set`. */
  datatype Op = Op(target: Id, update: UserSet)

  /** Everything one element must pass, against the store as it was before
      the batch. */
  predicate ElementOk(users: map<Id, User>, roles: map<Id, Role>, e: Element) {
    e.userId.Str? && IsHex24(e.userId.s) && e.userId.s in users &&
    e.data.Some? && PatchOk(e.data.value) &&
    !EmailClash(users, e.userId.s, e.data.value) &&
    !UsernameClash(users, e.userId.s, e.data.value) &&
    RoleRefOk(e.data.value.role, roles)
  }

  /** The checks one element of the batch runs, in order: identifier format
      (a non-string identifier makes `match` throw), existence, the shared
      validation chain, e-mail then username uniqueness, role existence. On
      success the element becomes an `updateOne` with its own data, the
      password replaced by its digest. */
  function CheckElement(users: map<Id, User>, roles: map<Id, Role>, e: Element): (r: Result<Op>)
    ensures r.Ok? <==> ElementOk(users, roles, e)
    ensures r.Ok? ==> r.value == Op(e.userId.s, SpreadSet(e.data.value))
    ensures !e.userId.Str? || !IsHex24(e.userId.s) || e.userId.s !in users ==> r.Err?
  {
    if !e.userId.Str? then Err(ServerError)
    else if !IsHex24(e.userId.s) then Err(BadId(UserId))
    else if e.userId.s !in users then Err(NotFound)
    else if e.data.None? then Err(ServerError)
    else if PatchCheck(e.data.value).Some? then Err(PatchCheck(e.data.value).value)
    else if EmailClash(users, e.userId.s, e.data.value) then Err(Duplicate(Email))
    else if UsernameClash(users, e.userId.s, e.data.value) then Err(Duplicate(Username))
    else if !RoleRefOk(e.data.value.role, roles) then Err(BadRole)
    else Ok(Op(e.userId.s, SpreadSet(e.data.value)))
  }

  predicate AllOk(users: map<Id, User>, roles: map<Id, Role>, batch: seq<Element>) {
    forall k :: 0 <= k < |batch| ==> CheckElement(users, roles, batch[k]).Ok?
  }

  /** The operations the batch submits when every element passed. */
  function PlannedOps(users: map<Id, User>, roles: map<Id, Role>, batch: seq<Element>): (ops: seq<Op>)
    requires AllOk(users, roles, batch)
  {
    seq(|batch|, k requires 0 <= k < |batch| => CheckElement(users, roles, batch[k]).value)
  }

  /** One `updateOne`: a missing target matches nothing. */
  function ApplyOp(m: map<Id, User>, op: Op): map<Id, User> {
    if op.target in m then m[op.target := ApplySet(m[op.target], op.update)] else m
  }

  /** The ordered batch write: operations applied one after the other. */
  function ApplyOps(m: map<Id, User>, ops: seq<Op>): map<Id, User> {
    if ops == [] then m
    else ApplyOp(ApplyOps(m, ops[..|ops| - 1]), ops[|ops| - 1])
  }

  /** How many operations of the batch change the record they target. */
  function ModifiedCount(m: map<Id, User>, ops: seq<Op>): nat {
    if ops == [] then 0
    else
      var before, op := ApplyOps(m, ops[..|ops| - 1]), ops[|ops| - 1];
      ModifiedCount(m, ops[..|ops| - 1]) +
      (if op.target in before && ApplySet(before[op.target], op.update) != before[op.target] then 1 else 0)
  }

  predicate Targets(ops: seq<Op>, id: Id) {
    exists k :: 0 <= k < |ops| && ops[k].target == id
  }

  /** The batch write keeps the set of users, and leaves every user no
      operation targets as it was. */
  lemma {:induction false} ApplyOpsFrame(m: map<Id, User>, ops: seq<Op>)
    ensures ApplyOps(m, ops).Keys == m.Keys
    ensures forall id :: id in m && !Targets(ops, id) ==> ApplyOps(m, ops)[id] == m[id]
  {
    if ops != [] {
      var init := ops[..|ops| - 1];
      ApplyOpsFrame(m, init);
      forall id | id in m && !Targets(ops, id) ensures !Targets(init, id) {
        assert forall k :: 0 <= k < |init| ==> init[k] == ops[k];
      }
    }
  }

  /** When no two operations target the same user, every targeted user ends
      with exactly its own operation applied to its original record. */
  lemma {:induction false} ApplyOpsDistinct(m: map<Id, User>, ops: seq<Op>, k: nat)
    requires forall i, j :: 0 <= i < j < |ops| ==> ops[i].target != ops[j].target
    requires k < |ops| && ops[k].target in m
    ensures ops[k].target in ApplyOps(m, ops)
    ensures ApplyOps(m, ops)[ops[k].target] == ApplySet(m[ops[k].target], ops[k].update)
  {
    var init, last := ops[..|ops| - 1], ops[|ops| - 1];
    ApplyOpsFrame(m, init);
    ApplyOpsFrame(m, ops);
    if k == |ops| - 1 {
      assert !Targets(init, last.target) by {
        assert forall i :: 0 <= i < |init| ==> init[i] == ops[i];
      }
    } else {
      assert init[k] == ops[k];
      ApplyOpsDistinct(m, init, k);
    }
  }

  /** How many operations of the batch find their target (`matchedCount`). */
  function MatchedCount(m: map<Id, User>, ops: seq<Op>): nat {
    if ops == [] then 0
    else MatchedCount(m, ops[..|ops| - 1]) + (if ops[|ops| - 1].target in m then 1 else 0)
  }

  /** The batch write as the database performs it: the operations in order,
      counting those that found their target and those that changed it. */
  method WriteBatch(m: map<Id, User>, ops: seq<Op>) returns (after: map<Id, User>, matched: nat, modified: nat)
    ensures after == ApplyOps(m, ops)
    ensures matched == MatchedCount(m, ops) && modified == ModifiedCount(m, ops)
  {
    after, matched, modified := m, 0, 0;
    var i := 0;
    while i < |ops|
      invariant 0 <= i <= |ops|
      invariant after == ApplyOps(m, ops[..i]) && after.Keys == m.Keys
      invariant matched == MatchedCount(m, ops[..i]) && modified == ModifiedCount(m, ops[..i])
    {
      assert ops[..i + 1][..i] == ops[..i];
      var op := ops[i];
      if op.target in after {
        var next := ApplySet(after[op.target], op.update);
        if next != after[op.target] {
          modified := modified + 1;
        }
        matched := matched + 1;
        after := after[op.target := next];
      }
      i := i + 1;
    }
    assert ops[..i] == ops;
  }

  /** Every operation of a batch that passed its checks finds its target. */
  lemma {:induction false} PlannedAllMatched(users: map<Id, User>, roles: map<Id, Role>, batch: seq<Element>)
    requires AllOk(users, roles, batch)
    ensures MatchedCount(users, PlannedOps(users, roles, batch)) == |batch|
  {
    if batch != [] {
      var init := batch[..|batch| - 1];
      assert AllOk(users, roles, init) by {
        assert forall k :: 0 <= k < |init| ==> init[k] == batch[k];
      }
      assert PlannedOps(users, roles, batch)[..|batch| - 1] == PlannedOps(users, roles, init);
      PlannedAllMatched(users, roles, init);
      assert CheckElement(users, roles, batch[|batch| - 1]).Ok?;
    }
  }

  /** An operation whose role, if it sets one, is truthy only when it names
      an existing role. */
  predicate OpRefOk(op: Op, roles: map<Id, Role>) {
    op.update.role.Some? ==> RoleRefOk(op.update.role.value, roles)
  }

  /** A batch of such operations keeps every user's role reference valid. */
  lemma {:induction false} ApplyOpsRefs(m: map<Id, User>, roles: map<Id, Role>, ops: seq<Op>)
    requires forall id :: id in m ==> RoleRefOk(m[id].role, roles)
    requires forall k :: 0 <= k < |ops| ==> OpRefOk(ops[k], roles)
    ensures forall id :: id in ApplyOps(m, ops) ==> RoleRefOk(ApplyOps(m, ops)[id].role, roles)
  {
    if ops != [] {
      var init := ops[..|ops| - 1];
      assert forall k :: 0 <= k < |init| ==> init[k] == ops[k];
      ApplyOpsRefs(m, roles, init);
      assert OpRefOk(ops[|ops| - 1], roles);
    }
  }

  /** When every element of a checked batch names a different user, each
      of those users ends with exactly its own element's fields written over
      its original record, whatever the order of the batch. */
  lemma BatchOutcome(users: map<Id, User>, roles: map<Id, Role>, batch: seq<Element>, k: nat)
    requires AllOk(users, roles, batch)
    requires forall i, j :: 0 <= i < j < |batch| ==> batch[i].userId != batch[j].userId
    requires k < |batch|
    ensures batch[k].userId.Str? && batch[k].userId.s in users
    ensures var after := ApplyOps(users, PlannedOps(users, roles, batch));
      && batch[k].userId.s in after
      && after[batch[k].userId.s] == ApplySet(users[batch[k].userId.s], SpreadSet(batch[k].data.value))
  {
    var ops := PlannedOps(users, roles, batch);
    assert CheckElement(users, roles, batch[k]).Ok?;
    forall i, j | 0 <= i < j < |ops| ensures ops[i].target != ops[j].target {
      assert CheckElement(users, roles, batch[i]).Ok? && CheckElement(users, roles, batch[j]).Ok?;
    }
    ApplyOpsDistinct(users, ops, k);
  }

  /** The users a homogeneous update selects. */
  function Matched(users: map<Id, User>, filter: User -> bool): set<Id> {
    set id | id in users && filter(users[id])
  }

  /** The selected users whose record the update actually changes. */
  function Changed(users: map<Id, User>, filter: User -> bool, update: UserSet): set<Id> {
    set id | id in users && filter(users[id]) && ApplySet(users[id], update) != users[id]
  }

  /** `updateMany(filter, { $set })`: every selected user gets the same
      fields, every other user is kept. */
  function SetWhere(users: map<Id, User>, filter: User -> bool, update: UserSet): map<Id, User> {
    map id | id in users :: if filter(users[id]) then ApplySet(users[id], update) else users[id]
  }

  /** After a homogeneous update, any two selected users agree on every field
      the update names. */
  lemma SetWhereUniform(users: map<Id, User>, filter: User -> bool, update: UserSet, a: Id, b: Id)
    requires a in Matched(users, filter) && b in Matched(users, filter)
    ensures var m := SetWhere(users, filter, update);
      && (update.firstName.Some? ==> m[a].firstName == m[b].firstName)
      && (update.lastName.Some? ==> m[a].lastName == m[b].lastName)
      && (update.email.Some? ==> m[a].email == m[b].email)
      && (update.username.Some? ==> m[a].username == m[b].username)
      && (update.password.Some? ==> m[a].password == m[b].password)
      && (update.phoneNumber.Some? ==> m[a].phoneNumber == m[b].phoneNumber)
      && (update.role.Some? ==> m[a].role == m[b].role)
      && (update.active.Some? ==> m[a].active == m[b].active)
  {}

  /** A patch that sets only the e-mail. */
  function EmailPatch(e: Value): UserPatch {
    UserPatch(Undefined, Undefined, e, Undefined, Undefined, Undefined, Undefined, Undefined)
  }

  /** Every element of a batch is checked against the store as it was
      before the batch, so two elements that give two users the same new
      e-mail both pass, and the write leaves the two sharing it. */
  lemma BatchCanShareEmail(users: map<Id, User>, roles: map<Id, Role>, a: Id, b: Id, e: string)
    requires a in users && b in users && a != b && IsHex24(a) && IsHex24(b)
    requires e != "" && forall o :: o in users ==> !MatchesIgnoreCase(users[o].email, e)
    ensures var batch := [Element(Str(a), Some(EmailPatch(Str(e)))), Element(Str(b), Some(EmailPatch(Str(e))))];
      && AllOk(users, roles, batch)
      && !UsersUnique(ApplyOps(users, PlannedOps(users, roles, batch)))
  {
    var p := EmailPatch(Str(e));
    var batch := [Element(Str(a), Some(p)), Element(Str(b), Some(p))];
    assert users[a].email != p.email && users[b].email != p.email by {
      assert EqualsIgnoreCase(e, e);
    }
    assert ElementOk(users, roles, batch[0]) && ElementOk(users, roles, batch[1]);
    assert AllOk(users, roles, batch);
    var ops := PlannedOps(users, roles, batch);
    ApplyOpsDistinct(users, ops, 0);
    ApplyOpsDistinct(users, ops, 1);
    var after := ApplyOps(users, ops);
    assert after[a].email == Str(e) && after[b].email == Str(e);
    assert SameIdentity(after[a].email, after[b].email);
  }

  /** The homogeneous update refuses only a truthy e-mail: an empty one
      passes the checks and is written to every selected user, so two
      selected users end up sharing it. */
  lemma SameDataCanShareEmail(users: map<Id, User>, filter: User -> bool, a: Id, b: Id)
    requires a in Matched(users, filter) && b in Matched(users, filter) && a != b
    ensures var p := EmailPatch(Str(""));
      && !IsEmptyPatch(p) && PatchOk(p) && !Truthy(p.email) && !Truthy(p.username)
      && !UsersUnique(SetWhere(users, filter, SpreadSet(p)))
  {
    var p := EmailPatch(Str(""));
    var after := SetWhere(users, filter, SpreadSet(p));
    assert after[a].email == Str("") && after[b].email == Str("");
    assert SameIdentity(after[a].email, after[b].email);
  }
}
