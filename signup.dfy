/** The signup function exported by service/util/createUser.js: it forces
    the new user's inherent permissions, saves the user, and seeds the two
    edges that let the user change and delete itself. */
module Signup {
  import opened Records
  import Catalog
  import Policy
  import Store

  /** A user document: its attributes other than `perms`, and its inherent
      `perms` list. */
  datatype UserDoc = UserDoc(attrs: map<string, string>, perms: seq<string>)

  /** What `users.save` returns: the `_id`, `_key` and `_rev` the store gave
      the document. */
  datatype Meta = Meta(id: string, key: string, rev: string)

  /** What `users.save` raises. */
  datatype StoreError = ArangoError(errorNum: int, errorMessage: string) | OtherError(message: string)

  /** What the signup function raises. */
  datatype SignupError = HttpError(status: int, message: string) | Rethrown(cause: StoreError)

  /** ERROR_ARANGO_UNIQUE_CONSTRAINT_VIOLATED. */
  const ArangoDuplicate: int := 1210

  /** `status('conflict')`. */
  const HttpConflict: int := 409

  /** `Object.assign(user, meta)`: the metadata attributes are set, every
      other attribute and the permissions are kept. */
  function WithMeta(u: UserDoc, meta: Meta): (r: UserDoc)
    ensures r.perms == u.perms
    ensures r.attrs.Keys == u.attrs.Keys + {"_id", "_key", "_rev"}
    ensures r.attrs["_id"] == meta.id && r.attrs["_key"] == meta.key && r.attrs["_rev"] == meta.rev
    ensures forall a :: a in u.attrs && a !in {"_id", "_key", "_rev"} ==> r.attrs[a] == u.attrs[a]
  {
    u.(attrs := u.attrs["_id" := meta.id]["_key" := meta.key]["_rev" := meta.rev])
  }

  /** The user as `has` sees it once it has been saved. */
  function PrincipalOf(u: UserDoc): Principal
    requires "_id" in u.attrs
  {
    Principal(u.attrs["_id"], Some(u.perms))
  }

  /** The two edges seeded for a new user with id `id`. */
  function SelfEdges(id: string): seq<Edge> {
    [Edge(Id(id), Id(id), Some("change_user")), Edge(Id(id), Id(id), Some("delete_user"))]
  }

  /** The `users` document collection. Whether a save succeeds, and the
      metadata it assigns, are decided by the store (its key generator and
      its indexes) and are handed in as `response`. */
  class UserStore {
    var docs: seq<UserDoc>

    constructor ()
      ensures docs == []
    {
      docs := [];
    }

    /** `users.save(u)`: on success the document is stored with its
        metadata; on failure nothing is stored and the error is raised. */
    method Save(u: UserDoc, response: Result<Meta, StoreError>) returns (r: Result<Meta, StoreError>)
      modifies this
      ensures r == response
      ensures docs == if response.Success? then old(docs) + [WithMeta(u, response.value)] else old(docs)
    {
      r := response;
      if response.Success? {
        docs := docs + [WithMeta(u, response.value)];
      }
    }
  }

  /** The error the signup function raises for a failed save. */
  function SaveFailure(e: StoreError): (r: SignupError)
    ensures e.ArangoError? && e.errorNum == ArangoDuplicate ==> r == HttpError(HttpConflict, "Username already taken")
    ensures !(e.ArangoError? && e.errorNum == ArangoDuplicate) ==> r == Rethrown(e)
  {
    if e.ArangoError? && e.errorNum == ArangoDuplicate then HttpError(HttpConflict, "Username already taken")
    else Rethrown(e)
  }

  /** `createUser(req)` with `req.body` = `body`. The saved and returned user
      holds exactly `view_user`, whatever the body asked for, and carries the
      store's metadata; exactly two self-edges follow, `change_user` first.
      A failed save writes no edge. */
  method CreateUser(users: UserStore, perms: Store.PermStore, body: UserDoc, response: Result<Meta, StoreError>)
    returns (r: Result<UserDoc, SignupError>)
    modifies users, perms`edges
    ensures response.Failure? ==> r == Failure(SaveFailure(response.error))
    ensures response.Failure? ==> users.docs == old(users.docs) && perms.edges == old(perms.edges)
    ensures response.Success? ==> r == Success(WithMeta(body.(perms := ["view_user"]), response.value))
    ensures response.Success? ==> users.docs == old(users.docs) + [r.value]
    ensures response.Success? ==> perms.edges == old(perms.edges) + SelfEdges(response.value.id)
  {
    Catalog.SignupNamesListed();
    var user := body.(perms := [Catalog.Lookup(Catalog.PermissionsJs, "view_user").value]);
    var meta := users.Save(user, response);
    if meta.Failure? {
      return Failure(SaveFailure(meta.error));
    }
    user := WithMeta(user, meta.value);
    var id := user.attrs["_id"];
    perms.Save(Edge(Id(id), Id(id), Catalog.Lookup(Catalog.PermissionsJs, "change_user")));
    perms.Save(Edge(Id(id), Id(id), Catalog.Lookup(Catalog.PermissionsJs, "delete_user")));
    r := Success(user);
  }

  /** What the seeded user may do under the intended direct rules, given no
      edge left that user's id before: view any user, and change or delete
      exactly itself. */
  lemma FreshUserRights(edges: seq<Edge>, m: seq<Membership>, groups: map<string, seq<string>>,
                        body: UserDoc, meta: Meta, objectId: Option<string>)
    requires meta.id != ""
    requires forall e :: e in edges ==> e.from != Id(meta.id)
    ensures var u := WithMeta(body.(perms := ["view_user"]), meta);
      var after := edges + SelfEdges(meta.id);
      && PrincipalOf(u) == Principal(meta.id, Some(["view_user"]))
      && Policy.Has(Policy.Direct, after, m, groups, Some(PrincipalOf(u)), Some("view_user"), objectId)
      && (Policy.Has(Policy.Direct, after, m, groups, Some(PrincipalOf(u)), Some("change_user"), objectId) <==> objectId == Some(meta.id))
      && (Policy.Has(Policy.Direct, after, m, groups, Some(PrincipalOf(u)), Some("delete_user"), objectId) <==> objectId == Some(meta.id))
  {
    var after := edges + SelfEdges(meta.id);
    var user := Principal(meta.id, Some(["view_user"]));
    assert after[|edges|] == Edge(Id(meta.id), Id(meta.id), Some("change_user"));
    assert after[|edges| + 1] == Edge(Id(meta.id), Id(meta.id), Some("delete_user"));
    assert !Holds(user, "change_user") && !Holds(user, "delete_user");
    forall o, n | Policy.EdgeExists(after, meta.id, o, n) && n in {"change_user", "delete_user"}
      ensures o == meta.id
    {
      var e := Edge(Id(meta.id), Id(o), Some(n));
      assert e !in edges;
    }
  }
}
