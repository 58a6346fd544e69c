# User and role access control, modelled in Dafny

This project models the request handlers of a small role-based access
control service: the user controller (`signup`, `listUsers`, `getUserById`,
`deleteUser`, `updateUser`, `checkModuleAccess`, `bulkUpdateUsersSameData`,
`bulkUpdateUsersDifferentData`), the role controller (`createRole`,
`deleteRole`, `getAllRoles`, `getRoleById`, `updateRole`) and the Role
schema (a required, trimmed, unique `name`; trimmed `accessModules`; a
`createdAt` set on creation; `active` defaulting to true).

The database is an in-memory store, the class `Store.IdentityStore`, holding
`users: map<Id, User>` and `roles: map<Id, Role>`. The two listing
handlers are functions that read the store; every other handler, including
the read-only `GetRoleById` and `GetUserById`, is a method. Each runs the handler's checks
in the handler's order and returns either a result or an error kind in
place of an HTTP status. Its contract states:

- which check fires first;
- that a failed check leaves the store unchanged;
- the exact new state on success.

The store invariant `Valid()` holds three facts. Every role satisfies the
schema. No two roles share a name, which is the unique index. Every truthy
role reference of a user names an existing role.

A second invariant, `Users.UsersUnique`, says that no two users share an
e-mail or a username, ignoring case. The sign-up and update look-ups exist
to keep it. `Signup`, `UpdateUser` and `DeleteUser` preserve it; the two
bulk handlers can break it.

Modules:

- `Text` (`text.dfy`): JavaScript `trim`, ASCII case-insensitive comparison and
  substring search, the shape of an ObjectId string.
- `Values` (`values.dfy`): JSON request values with explicit JavaScript truthiness;
  `Option`, `Result` and the error kinds.
- `Roles` (`roles.dfy`): the Role record, its schema validity, the `[...new Set(xs)]`
  de-duplication with its reference definition and lemmas.
- `Users` (`users.dfy`): the User record, update payloads and `$set` documents, the
  validation chains of sign-up and of the update handlers.
- `Access` (`access.dfy`): the module-access decision.
- `Paging` (`paging.dfy`): skip and page-count arithmetic, windowing, filtering.
- `Bulk` (`bulk.dfy`): per-element checks and the ordered write of the heterogeneous
  bulk update; the filtered `$set` of the homogeneous one.
- `Store` (`store.dfy`): the store class and one member per handler.

Behaviour that the model keeps exactly as the code has it:

- `createRole` has no case-insensitive look-up for an existing name. Only
  the unique index refuses a duplicate, and it compares the exact trimmed
  name, so "Admin" and "admin" can both exist.
- `updateRole` demands that `name`, `accessModules` and `active` all be
  truthy. `active: false` is therefore always refused, and a successful
  update always leaves the role active.
- Every error thrown while checking an element of
  `bulkUpdateUsersDifferentData` reaches the catch-all handler and is
  reported as a server error.
- `deleteRole` counts referencing users before it looks the role up, and
  the model keeps that order. In the source, an identifier that some user
  references can therefore be reported as in use even when no such role
  exists; that case needs a reference left dangling, for instance by a
  concurrent deletion, and the model's store invariant rules it out.
- `accessModules` are de-duplicated before the schema trims them. Entries
  that differ only in surrounding white space are both stored, as equal
  strings (`Roles.WhitespaceVariantsBothStored`).
- `updateRole` checks the untrimmed request name case-insensitively. The
  index then checks the trimmed name exactly.
- `getAllRoles` takes `page` and `limit` without any check. A negative skip
  is a server error. A zero limit means no limit, and the page count is
  then not a finite number. A negative limit is taken by its absolute value.

## Model

| member | source | states |
|---|---|---|
| Text.TrimStart | models/Role.js:7 | the result is a suffix of the input, everything dropped is white space, and no white space is left at the front |
| Text.TrimEnd | models/Role.js:7 | the result is a prefix of the input, everything dropped is white space, and no white space is left at the end |
| Text.TrimSlice | models/Role.js:7 | the trimmed string is a slice of the input with only white space outside it, and has no white space at either end |
| Text.TrimIsTrimmed | models/Role.js:7 | what trimming keeps has no white space at either end |
| Text.TrimIdempotent | models/Role.js:7 | trimming twice gives the same as trimming once |
| Text.TrimOfTrimmed | models/Role.js:12 | a string without surrounding white space is left as it is by trimming, at the front and at the end |
| Text.Utf16Length | controllers/userController.js:20 | a string's `length` counts UTF-16 code units: one character counts two units above the Basic Multilingual Plane and one otherwise; any string counts between one and two per character, exactly one per character precisely when none lies above the plane |
| Text.Utf16LengthAppend | controllers/userController.js:20 | the code units of a concatenation are the sum of those of its parts, so with the one-character value a string counts exactly the sum of its characters' units |
| Roles.DedupFromSpec | controllers/roleController.js:23 | de-duplication against a set of seen values yields no repeats and exactly the input's elements that were not seen |
| Roles.DedupFromSnoc | controllers/roleController.js:23 | appending an element to the input appends it to the output exactly when it was neither seen nor already in the input |
| Roles.DedupIsFirstOccurrences | controllers/roleController.js:23 | `[...new Set(xs)]` equals the independent definition: the first occurrence of each element, in input order |
| Roles.DedupSpec | controllers/roleController.js:163 | the de-duplicated list has no repeats, holds the same elements as the input, and a list without repeats is returned unchanged |
| Roles.DedupOfDistinct | controllers/roleController.js:23 | a list without repeats and disjoint from the seen set passes through de-duplication unchanged |
| Roles.StoredRoleValid | models/Role.js:3-13 | a role built from a name that does not trim to nothing, with modules stored as the handlers store them, satisfies the schema (name present and trimmed, every module trimmed) |
| Roles.TrimAllOfTrimmed | models/Role.js:10-13 | the schema's per-entry trim leaves a list of already trimmed entries unchanged |
| Roles.StoredModulesSpec | controllers/roleController.js:23-28 | a missing module list is stored as the empty list; a list of trimmed entries is stored as its first occurrences, without repeats and with the same elements |
| Roles.TrimPadded | models/Role.js:12 | one white-space character in front of a trimmed entry is exactly what trimming removes |
| Roles.WhitespaceVariantsBothStored | controllers/roleController.js:23-28 | for any trimmed module name and any white-space character, the list of the name and the padded name is stored as the name twice, a list with a repeat |
| Users.PatchCheck | controllers/userController.js:187-210 | the update validation chain passes exactly when every field rule holds, and otherwise reports the first rule that fails, in source order: first name, last name, e-mail, username (each a string when truthy), password (a string of at least 6 code units when truthy), phone number, then a truthy non-string role (`match` throws: server error), a role that is not 24 hex digits, and `active` not a boolean |
| Users.SignupCheck | controllers/userController.js:12-26 | sign-up validation passes exactly when every rule holds, and otherwise reports the first failing rule in source order: any of the six required fields falsy, then any of the five text fields not a string, then a password shorter than 6 UTF-16 code units, then a role that is not a valid identifier |
| Users.PasswordLengthInCodeUnits | controllers/userController.js:199 | the password length rule counts code units: three characters above the Basic Multilingual Plane pass it, five ASCII letters do not |
| Users.SpreadSet | controllers/userController.js:448-451 | the bulk `$set` names each text field, `phoneNumber` and `role` exactly when present, with the given value; it names the password exactly when present, as its digest when a truthy string and as the given value otherwise; it names `active` exactly when it is a boolean |
| Users.AddedUserUnique | controllers/userController.js:33-43 | adding a user whose e-mail and username no user has, ignoring case, keeps every e-mail and every username held by at most one user |
| Users.PatchedUserUnique | controllers/userController.js:212-247 | writing the update document of a patch that passed the e-mail and username look-ups keeps e-mails and usernames unique, ignoring case |
| Access.Decide | controllers/userController.js:286-306 | an inactive user is refused as inactive whatever the role grants; an active user is granted exactly when a role exists and lists the module name as an exact element; otherwise no access |
| Paging.SkipSign | controllers/userController.js:110 | with a positive limit the skip `(page - 1) * limit` is negative exactly when the page is below one |
| Paging.SkipNegative | controllers/roleController.js:88 | for any limit, the skip is negative exactly when the page is below one under a positive limit or above one under a negative limit |
| Paging.PageCount | controllers/userController.js:121 | for a positive limit, the page count is the least number of pages that hold the total (zero for no items) |
| Paging.CeilDiv | controllers/roleController.js:99 | `Math.ceil(total / limit)`: not finite exactly for a zero limit; otherwise the integer `c` with `c - 1 < total / limit <= c`, stated by multiplication for both signs of the limit |
| Paging.Window | controllers/roleController.js:86-89 | `.skip(s).limit(n)` returns at most `n` items, as many as remain after `s`, each being the item at position `s + k` |
| Paging.PageHasItems | controllers/userController.js:107-121 | for a positive page and limit, the page holds items exactly when its number is at most the page count |
| Paging.Filter | controllers/userController.js:92-104 | the selection keeps exactly the elements that satisfy the query and never more than the input |
| Paging.FilterAppend | controllers/userController.js:92-104 | the selection from a concatenation is the selection from the front followed by the selection from the back |
| Paging.FilterDistinct | controllers/userController.js:106-113 | a selection from a collection without repeats has no repeats |
| Paging.DistinctCardinality | controllers/userController.js:113 | a sequence without repeats has as many elements as the set of its elements |
| Paging.FilterOrder | controllers/userController.js:92-104 | any two kept elements appear in the selection in the same relative order as in the input |
| Paging.Take | controllers/roleController.js:89 | `.limit(n)` lets every document through for a zero limit, and otherwise takes the absolute value of the limit, which is positive |
| Paging.Skip | controllers/roleController.js:88 | the skip `(page - 1) * limit` is never negative from page one on under a non-negative limit |
| Bulk.CheckElement | controllers/userController.js:386-446 | an element passes exactly when its identifier is a 24-hex string of an existing user, its data passes the validation chain, its e-mail and username clash with no other user and its role exists; the operation it yields targets that user with the element's own data, the password as its digest |
| Bulk.ApplyOpsFrame | controllers/userController.js:461 | the ordered batch write keeps the set of users and leaves every user no operation targets unchanged |
| Bulk.ApplyOpsDistinct | controllers/userController.js:452-461 | when no two operations target the same user, each targeted user ends with exactly its own operation applied to its original record |
| Bulk.WriteBatch | controllers/userController.js:461-467 | the loop over the batch computes the ordered write, the matched count and the modified count |
| Bulk.PlannedAllMatched | controllers/userController.js:384-467 | every operation of a batch whose elements all passed their checks finds its target, so the matched count is the batch length |
| Bulk.ApplyOpsRefs | controllers/userController.js:440-461 | a batch whose operations set only resolvable role references keeps every user's role reference resolvable |
| Bulk.BatchOutcome | controllers/userController.js:384-461 | for a checked batch naming distinct users, each user ends with exactly its own element's fields written over its original record |
| Bulk.SetWhereUniform | controllers/userController.js:364 | after the filtered `$set`, any two selected users agree on every field the update names |
| Bulk.BatchCanShareEmail | controllers/userController.js:421-461 | for any two users and any new e-mail no user has, a batch giving both that e-mail passes every check and leaves the two sharing it |
| Bulk.SameDataCanShareEmail | controllers/userController.js:349-364 | an update whose only field is an empty e-mail passes the checks of the homogeneous update and leaves any two selected users sharing it |
| Store.UserHits | controllers/userController.js:92-113 | the users listed are exactly those matching the search term (any of four fields, ignoring case) and the `active` filter, each once, so there are as many as `countDocuments` counts |
| Store.RoleHits | controllers/roleController.js:77-91 | the roles listed are exactly those whose name contains the search term ignoring case and that match the `active` filter, each once, so there are as many as `countDocuments` counts |
| Store.RoleItems | controllers/roleController.js:86-89 | a page of roles holds at most the limit, as many as remain after the skip, each the selected identifier at position skip + k with its stored record and matching the query |
| Store.UserItems | controllers/userController.js:106-111 | a page of users holds the limit or as many as remain after the skip, whichever is fewer, each the selected identifier at position skip + k with its stored record, its role expanded, and matching the query |
| Store.RoleUpdateCheck | controllers/roleController.js:129-159 | the pre-write checks of the role update pass exactly when the request is admissible and a changed name is not held by another role ignoring case; in source order: any falsy field (so `active: false`) or a missing identifier, a malformed identifier, a missing role, a non-string name, a non-array module list, a non-boolean `active`; a duplicate is reported exactly when all of those pass and a changed name is held by another role |
| Store.ResubmittedNameWritable | controllers/roleController.js:151-170 | an admissible role update that re-submits the role's current name always passes both the look-up and the unique index |
| Store.RewrittenRoleValid | models/Role.js:3-13 | rewriting a role with a name that trims to something no other role has keeps every role valid, names distinct and user references resolvable |
| Store.PutRoleValid | models/Role.js:3-13 | writing a valid role whose name no other role has keeps every role valid and all names distinct |
| Store.OrDefault | controllers/userController.js:87-88 | `parseInt(x) \|\| d` gives the parsed value when it is present and non-zero and the default otherwise, so it is never zero under a non-zero default |
| Store.UpdateDocument | controllers/userController.js:239-247 | the update document names the text fields, password and role exactly when they are truthy (the password as its digest) and `phoneNumber` and `active` exactly when they are present |
| Store.IdentityStore.CreateRole | controllers/roleController.js:5-39 | a non-string name, then a non-array module list, then a missing name is refused in that order; a string name trimming to nothing (with an acceptable module list) is a server error; a duplicate is refused only on the exact trimmed name; on success the role is active, its name trimmed, its modules de-duplicated and trimmed, and it is the only change |
| Store.IdentityStore.DeleteRole | controllers/roleController.js:41-68 | a malformed identifier, then any referencing user (in use), then a missing role is refused; on success only that role is removed; failures change nothing |
| Store.IdentityStore.GetAllRoles | controllers/roleController.js:70-105 | fails exactly when the skip is negative (for a positive limit: a page below one); otherwise reports page, limit, total (the number of matching roles) and page count and returns the selected roles from the skip on, exactly as many as `.limit` lets through or as remain, whichever is fewer |
| Store.IdentityStore.GetRoleById | controllers/roleController.js:107-122 | a malformed identifier, then a missing role, is refused; otherwise the stored role is returned |
| Store.IdentityStore.UpdateRole | controllers/roleController.js:124-185 | a failed pre-write check is returned as is; after the checks, a name trimming to nothing is a server error and a trimmed name another role holds is a duplicate; the update succeeds exactly when the checks pass, the name trims to something and no other role has the trimmed name; on success only that role changes, to the trimmed name, the stored modules, active, and its original creation time; failures change nothing |
| Store.IdentityStore.Signup | controllers/userController.js:8-81 | a user is added exactly when the validation chain passes, the role exists and no user has the e-mail or username ignoring case; then exactly one active user is added with the password digest, and the reply has no password; e-mails and usernames that were unique ignoring case stay unique |
| Store.IdentityStore.ListUsers | controllers/userController.js:83-127 | a page or limit below one after the defaults is refused; otherwise reports page, limit, total (the number of matching users) and page count and returns the matching users from the skip on, exactly the limit or as many as remain, whichever is fewer, roles expanded |
| Store.IdentityStore.GetUserById | controllers/userController.js:129-148 | a malformed identifier, then a missing user, is refused; otherwise the stored user is returned with its role expanded |
| Store.IdentityStore.DeleteUser | controllers/userController.js:150-171 | a malformed identifier, then a missing user, is refused; on success only that user is removed; unique e-mails and usernames stay unique |
| Store.IdentityStore.UpdateUser | controllers/userController.js:173-268 | checks fire in source order; the e-mail and username look-ups never fire for the user's current value and ignore the user's own record; a valid patch without clashes whose truthy role names no role is refused as a bad role; on success only that user changes, each field following the truthy or present rule, the password stored as its digest; failures change nothing; e-mails and usernames that were unique ignoring case stay unique |
| Store.IdentityStore.CheckModuleAccess | controllers/userController.js:271-313 | a malformed user identifier, then a missing or non-string module, then a missing user is refused; otherwise inactive comes before module membership, and access is granted exactly for an active user whose role lists the module |
| Store.IdentityStore.BulkUpdateUsersSameData | controllers/userController.js:315-374 | a missing or empty payload, a failed validation chain, or any truthy e-mail or username is refused before the role is looked up; a payload passing those whose truthy role names no role is refused as a bad role; on success every selected user receives the same fields and no other user changes; matched and modified counts are returned |
| Store.IdentityStore.PrevalidateBatch | controllers/userController.js:384-458 | the batch passes exactly when every element passes, giving the element-by-element operations; otherwise the error is that of the first failing element |
| Store.IdentityStore.BulkUpdateUsersDifferentData | controllers/userController.js:376-474 | a missing or empty batch is refused; any failing element gives a server error and no user changes; otherwise the planned operations are written in order, and every operation is counted as matched |

## Left out

- The HTTP layer is not modelled: routing, status codes, message strings and the server start-up. Error kinds stand in for status and message.
- `bcrypt.hash` and `jwt.sign` are symbolic: `Hashed(plain)` and `Token(userId)`. Real digests are salted, so re-hashing the same password does change the stored value. The modified count of the bulk paths therefore differs from the model's when a password is re-submitted.
- The uniqueness look-ups interpolate raw input into a regular expression. The model compares for ASCII case-insensitive equality, so metacharacters such as `.` and Unicode case folding are not modelled. Listing search is ASCII case-insensitive substring search for the same reason.
- The listing order (newest first) is a parameter `order` that enumerates the collection. `populate` is modelled as a role look-up, and the fields it selects are not projected.
- `mongoose.Types.ObjectId.isValid` is modelled only on strings: 12 characters or 24 hex digits. Identifiers are compared as exact strings, so the casting of a 12-character or upper-case hex identifier to an ObjectId is not modelled. A non-string role or user identifier is treated as malformed.
- The User schema is not part of this model. Stored user fields hold the values the handlers write. Schema casting, defaults, `select` and the user unique indexes are not modelled.
- Write-time failures of the user store are not modelled: duplicate-key error 11000, `runValidators` rejections, partial commits of an ordered `bulkWrite`, and races between a check and its write. For roles, the unique name index and the required, trimmed name are modelled.
- `Promise.all` checks the batch elements concurrently and reports whichever fails first. The model checks them in order and reports the first failing index. Both end as a server error with no write.
- Numbers are integers. Floating point, `NaN` and JavaScript's `parseInt` on arbitrary strings are not modelled: `page` and `limit` arrive already parsed, with `None` for absent or not a number. Request keys outside the handled fields are not modelled, so a bulk payload holding only other keys counts as empty. Array elements are strings.
- Store.IdentityStore.BulkUpdateUsersDifferentData: does not keep `Users.UsersUnique`. Every element is checked against the store as it was before the batch, so two elements can give two users the same new e-mail (`Bulk.BatchCanShareEmail`). The user unique indexes that might refuse the write are not part of this model.
- Store.IdentityStore.BulkUpdateUsersSameData: does not keep `Users.UsersUnique`. Only a truthy e-mail or username is refused, so an empty one is written to every selected user (`Bulk.SameDataCanShareEmail`). The write passes `runValidators: true`; the user schema and indexes that might then refuse it are not part of this model.
- Store.IdentityStore.GetAllRoles: an unparsable `page` or `limit` is treated like an absent one (default 1 or 10), because the model has no `NaN`.
- The `filter` object of the homogeneous bulk update is a predicate over users; a missing filter is the predicate that selects every user.
- `createdAt` is a reading of an abstract clock passed in by the caller, and new identifiers are likewise parameters.
