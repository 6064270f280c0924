# Authorization engine of letstalk-arango-service, in Dafny

This project models the permission engine of the service:

- the permission catalogs in `service/util/perm.js` and `service/util/permissions.js`;
- the decision function `has(user, name, objectId)`;
- the route guard `restrict(name)`;
- `grant(user, object, operations)` and `deleteAll(object)`;
- the signup function of `service/util/createUser.js`, which seeds a new user's permissions.

The model has five modules:

- `Records` (records.dfy): shared values. These are `Option` and `Result`, the id-or-object reference `Ref` with its normalisation, permission edges, `memberOf` edges and the principal as `has` sees it. A principal's `perms` list is optional, because a stored user document may lack one.
- `Catalog` (catalog.dfy): both catalog object literals, property by property and in source order. Property access is `Lookup`, which gives `undefined` (`None`) for a name that is not one of the object's own keys.
- `Policy` (policy.dfy): `has` and `restrict` as pure functions over the edges, the `memberOf` edges and the group documents. `has` comes in three variants:
  - `Shipped`: the function as it ships. The `// DEVELOPMENT` early `return true` is the constant `DevelopmentBypass`.
  - `Direct`: the rules after that return, which the shipped function never reaches, with the two defects listed under "## Findings" corrected. They cover the inherent `perms` list and one direct edge. A user document without a `perms` list holds nothing inherently, and the edge lookup reads the `perms` collection. The code as written is `HasDirectAsWritten`.
  - `WithGroups`: `Direct` plus the commented-out group traversal. This walks 1 to 100 outbound `memberOf` hops. A group reached this way counts through its own `perms` or through its edges to the object.
- `Store` (store.dfy): the class `PermStore`, which holds the `hasPermission` edges as a sequence, plus the `memberOf` edges and the group documents that `has` reads.
  - `Grant` appends one edge per operation in a loop.
  - `DeleteAll` removes, one at a time, the edges that `inEdges` lists.
  - Each method is proved against a function of the old store: `GrantedEdges` for `Grant` and `WithoutIncoming` for `DeleteAll`.
- `Signup` (signup.dfy): the `users` collection as a class, and `CreateUser` as a method over it and the edge store.

Every lemma about decisions says which variant it covers. Each one mentions `Policy.Direct`, `Policy.WithGroups` or `Policy.Shipped`, or takes the variant as a parameter.

Where a reader might expect more of an authorization engine, the model follows the code:

- `grant` checks no operation against the catalog. It stores whatever it is given, including `undefined`.
- `deleteAll` removes only permission edges. It does not touch `memberOf` edges.
- No single-edge revoke operation exists.
- The shipped `has` allows everything.

Missing or dangling vertices are harmless by construction. A reached vertex with no group document contributes nothing, and an edge to an object that no longer exists is just an edge.

## Model

| member | source | states |
|---|---|---|
| Catalog.Lookup | service/util/perm.js:119 | reading `p.p[name]` for a name that is not inherited from `Object.prototype` gives a value exactly when some property of the catalog has that key |
| Catalog.PermJsShape | service/util/perm.js:10-53 | perm.js's catalog lists 36 properties with no key twice, so the object has 36 properties, each mapping a name to the same name |
| Catalog.PermJsKeys | service/util/perm.js:10-53 | `p.p[name]` is defined exactly for `join_location` and the five names `view_<t>s`, `add_<t>`, `view_<t>`, `change_<t>`, `delete_<t>` of each of the seven resource types |
| Catalog.PermJsAddsJoinLocation | service/util/perm.js:23-28 | dropping `join_location` from perm.js's catalog leaves permissions.js's catalog, in the same order; only perm.js defines `join_location` |
| Catalog.PermJsIsPatternPlusJoin | service/util/perm.js:10-53 | perm.js's catalog with `join_location` dropped is exactly the five-name pattern for the seven resource types |
| Catalog.PermissionsJsFollowsPattern | service/util/permissions.js:3-45 | permissions.js is exactly `view_<t>s`, `add_<t>`, `view_<t>`, `change_<t>`, `delete_<t>` for the seven types answer, fact, location, picture, question, topic and user, in that order |
| Catalog.PermissionsJsShape | service/util/permissions.js:4-44 | permissions.js has exactly 35 entries, no key twice, and every value equals its key |
| Catalog.PatternDistinct | service/util/permissions.js:4-44 | the naming pattern never repeats a key when the type names have distinct initials |
| Catalog.SignupNamesListed | service/util/permissions.js:42-44 | `view_user`, `change_user` and `delete_user` are defined, each naming itself |
| Catalog.MissingOutsidePattern | service/util/perm.js:10-53 | a name other than `join_location` whose first letter, length and type initial fit none of the seven types' names is undefined in any catalog that is the pattern plus `join_location` |
| Catalog.PermJsMissing | service/util/perm.js:10-53 | such a name is undefined in perm.js's catalog |
| Catalog.RouteNamesMissing | service/util/perm.js:10-53 | `view_memberships`, `add_membership`, `delete_membership` and `view_user_facts`, which routes read as `p.p.<name>`, are all undefined |
| Records.Normalize | service/util/perm.js:99-100 | an object carrying `_id` becomes that id; a bare id and an object without `_id` pass through unchanged; the result is never an object with an id |
| Policy.Has | service/util/perm.js:55-89 | as shipped, every call is allowed; with the bypass removed and the perm.js:61/62 defects corrected, no user or a falsy name is denied and a name in the user's own `perms` list is allowed whatever the object; a user document without that list holds no name inherently |
| Policy.ShippedAllowsEverything | service/util/perm.js:55-57 | the shipped `has` allows every user, name and object, and the shipped `restrict` always calls `next` |
| Policy.UndefinedNameDenied | service/util/perm.js:59-60 | with the bypass removed, each name the routes read but the catalog lacks (`view_memberships`, `add_membership`, `delete_membership`, `view_user_facts`) is denied for every user and object, in both variants |
| Policy.DirectEdgeDecides | service/util/perm.js:61-66 | in the direct variant, for a name the user does not hold inherently, the call is allowed exactly when an object id is given and an edge (user id, object id, name) is stored |
| Policy.AsWrittenRaisesAtEdgeLookup | service/util/perm.js:59-66 | the code after the bypass, as written, agrees with the direct rules whenever it returns; it raises a TypeError exactly when a user without a `perms` list asks for a truthy name, and otherwise a ReferenceError exactly when it reaches the edge lookup |
| Policy.AsWrittenRaisesWithoutPerms | service/util/perm.js:61 | a user document without `perms` that holds the `change_user` edge to itself is allowed to change itself by the direct rules, but the code as written raises a TypeError for it on every truthy name |
| Policy.AsWrittenLosesDirectGrant | service/util/perm.js:62-66 | a user holding a direct edge gets a ReferenceError from the code as written, where the direct rules allow |
| Policy.HasUpToEdgeSet | service/util/perm.js:62-66 | in every variant, a decision depends only on which edges exist, not on their order or how many copies there are |
| Policy.HasMonotone | service/util/perm.js:61-86 | in every variant, adding edges never turns an allow into a deny |
| Policy.ReachIsBoundedReachability | service/util/perm.js:69 | the traversal visits a vertex exactly when a walk of 1 to k `memberOf` hops leads to it from the user |
| Policy.WithGroupsCharacterized | service/util/perm.js:67-86 | the group variant allows exactly when the direct rules do, or when a stored group at most 100 hops away lists the name itself or, if an object is given, holds an edge with that name to the object |
| Policy.MemberInheritsGroup | service/util/perm.js:67-86 | a direct member of a group holding the name, or an edge with the name to the object, is allowed in the group variant |
| Policy.GroupsOnlyAdd | service/util/perm.js:67-86 | whatever the direct variant allows, the group variant allows |
| Policy.NoMembershipsNoGroups | service/util/perm.js:67-86 | with no `memberOf` edges, the group variant decides exactly as the direct variant |
| Policy.DepthBoundOnChain | service/util/perm.js:69 | on a chain of 101 memberships the traversal reaches the vertex 100 hops away but not the one 101 hops away, which a depth of 101 would reach |
| Policy.DistantGroupGivesNothing | service/util/perm.js:67-86 | a group 101 hops away gives the user nothing in the group variant, whether it lists the name or holds edges |
| Policy.Restrict | service/util/perm.js:91-96 | the guard calls `next` exactly when `has` without an object id allows, and otherwise throws 403 "Not authorized"; as shipped it always calls `next`; in the direct variant it passes exactly the user's inherent permissions |
| Policy.RestrictWithGroups | service/util/perm.js:67-74 | with the group rule, the guard passes exactly the user's own permissions and those a reachable group lists itself; edges never matter to it |
| Store.OperationList | service/util/perm.js:102-104 | a single non-array operation becomes a one-element list; an array is used as it is |
| Store.GrantedEdges | service/util/perm.js:105-107 | there is one edge per operation, in order, each from the user id to the object id with that operation's name |
| Store.PermStore.Save | service/util/perm.js:106 | saving an edge appends it and changes nothing else |
| Store.PermStore.Grant | service/util/perm.js:98-108 | the store becomes the old edges followed by one edge per operation, with the normalised user and object ids; existing edges are unchanged, with no de-duplication and no catalog check |
| Store.GrantAllows | service/util/perm.js:98-108 | after a grant to a user and an object id, every granted truthy operation is allowed for that user on that object, in every variant |
| Store.GrantKeepsDecisions | service/util/perm.js:98-108 | a grant never takes a permission away, in any variant |
| Store.GrantTwiceAsOnce | service/util/perm.js:98-108 | granting the same operations twice decides every later call the same way as granting them once |
| Store.Incoming | service/util/perm.js:112 | `inEdges(id)` lists only stored edges whose `_to` is the id, and lists every such stored edge |
| Store.RemoveNextIncoming | service/util/perm.js:112-114 | each `remove` in the loop takes out exactly the next listed incoming edge, because every edge before it points elsewhere |
| Store.PermStore.DeleteAll | service/util/perm.js:110-115 | the store becomes the old edges without those whose `_to` is the normalised id, in their old order |
| Store.WithoutIncomingKeeps | service/util/perm.js:110-115 | after deletion, an edge remains exactly when it was stored and its `_to` is another id, so edges leaving the id remain |
| Store.WithoutIncomingIdempotent | service/util/perm.js:110-115 | deleting twice leaves the same store as deleting once |
| Store.WithoutIncomingSplits | service/util/perm.js:110-115 | the listed incoming edges and the kept edges together are exactly the stored edges, as multisets: each stored copy of an edge is either removed or kept |
| Store.WithoutIncomingAbsent | service/util/perm.js:110-115 | a store with no edge into the id is left as it is |
| Store.DeleteAllRevokesDirect | service/util/perm.js:110-115 | after deletion, the direct variant allows a call on that object exactly when the name is one of the user's inherent permissions, even where a direct grant existed |
| Store.DeleteAllRevokesGroupEdges | service/util/perm.js:110-115 | after deletion, the group variant allows a call on that object exactly when the user or a reachable group lists the name itself |
| Signup.WithMeta | service/util/createUser.js:26 | merging the save metadata sets `_id`, `_key` and `_rev` and keeps every other attribute and the permissions |
| Signup.UserStore.Save | service/util/createUser.js:19 | a successful save stores the user with its metadata; a failed one stores nothing and raises the store's error |
| Signup.SaveFailure | service/util/createUser.js:20-24 | a unique-constraint error (1210) becomes HTTP 409 "Username already taken", and any other error is re-thrown unchanged |
| Signup.CreateUser | service/util/createUser.js:14-30 | on success the stored and returned user has `perms` exactly `[view_user]` and the save metadata, and exactly two edges from the new id to itself are appended, `change_user` then `delete_user`; on failure the mapped error is raised and nothing is written |
| Signup.FreshUserRights | service/util/createUser.js:16-28 | in the direct variant, a freshly created user may view users on any object, and may change or delete exactly its own id |

## Left out

- The HTTP route handlers, session and login handling, request schemas and transforms, and the setup and teardown scripts are not modelled. The model starts where a handler calls `has`, `restrict`, `grant` or `deleteAll`.
- Store failures inside `grant` and `deleteAll` are not modelled. A save or remove that fails part-way would leave the earlier writes in place, and the model assumes every edge write succeeds.
- Concurrency and transactions are not modelled. Multi-edge writes are modelled as sequential and uninterrupted.
- The edge collection's own checks of `_from` and `_to` are not modelled. An endpoint that is an object without `_id` is stored as passed, exactly as `grant` hands it over.
- Store.PermStore.DeleteAll: `remove` is modelled as taking out the first stored edge equal to the listed one. The model does not track document identity. Equal edges are interchangeable for every decision, so which copy goes does not matter.
- Policy.Has: the Direct and WithGroups variants model the rules after the bypass as evidently intended, not as written. A user document without a `perms` list holds nothing inherently, where line 61 as written raises a TypeError. The edge lookup reads the `perms` collection, where line 62 as written names an undeclared `hasPerm` and raises a ReferenceError. Both defects are listed under "## Findings", and `Policy.HasDirectAsWritten` models the code as written. The WithGroups variant also models the commented-out queries with the collections they evidently mean. As written, that comment names `memberOf` and `hasPerm`, and perm.js declares neither.
- Policy.Reach: the group traversal is modelled as the set of vertices 1 to 100 hops away. This is exactly what the traversal's path enumeration visits. A reached vertex with no stored group document contributes neither permissions nor edges.
- Catalog.Lookup: names that every JavaScript object inherits from `Object.prototype`, such as `constructor` or `toString`, are not modelled. Reading them gives a value, not `undefined`, but no caller reads them from the catalog.
- Signup.CreateUser: the function writes `perms` into the caller's request body in place, before the save, even when the save then fails. The model returns values and does not capture that aliasing.
- Signup.UserStore.Save: whether the save succeeds, and the metadata it assigns, come in as a parameter. The unique index that raises error 1210 and the key generator are not part of this model.
- Randomness, clocks and I/O do not occur in the core.

## Findings

| source | as written | input that shows it | evidently intended | confidence | as-written member | corrected member |
|---|---|---|---|---|---|---|
| service/util/perm.js:62 | the direct-edge lookup calls `hasPerm.firstExample`, but the module binds the permission edge collection to `perms` (line 8) and declares no `hasPerm` | with the bypass removed: a user `users/1` with no inherent permissions, name `change_fact`, object `facts/2`, and the stored edge (`users/1`, `facts/2`, `change_fact`) raises a ReferenceError instead of allowing | look the edge up in `perms`, so that a stored direct edge allows the call | not executed | Policy.HasDirectAsWritten (shown by Policy.AsWrittenLosesDirectGrant) | Policy.HasDirect (proved by Policy.DirectEdgeDecides) |
| service/util/perm.js:61 | `user.perms.includes(name)` assumes the user document has a `perms` list; but PUT /users/:key replaces the whole document with a body whose schema has no `perms` (service/routes/users.js:81-102, service/models/user.js:18-24 and 74), and the session middleware reloads that document as `req.user` | with the bypass removed: user `users/1` replaces its own document (the `change_user` self-edge from signup allows it); then `has` on that user with any truthy name, for instance `change_user` on `users/1`, raises a TypeError instead of deciding | a document without `perms` holds no permission inherently, and the edge rules decide; `users/1` may still change itself through its self-edge | not executed | Policy.HasDirectAsWritten (shown by Policy.AsWrittenRaisesWithoutPerms) | Policy.HasDirect (proved by Policy.DirectEdgeDecides) |
