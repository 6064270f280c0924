/** Values shared by the authorization engine: optional values, results, the
    id-or-object references accepted by `grant` and `deleteAll`, permission
    edges, membership edges and principals. */
module Records {

  datatype Option<+T> = None | Some(value: T)

  datatype Result<+T, +E> = Success(value: T) | Failure(error: E)

  /** JavaScript truthiness of an optional string: `undefined` and `""` are falsy. */
  predicate Truthy(s: Option<string>) {
    s.Some? && s.value != ""
  }

  /** What a caller may pass for a user or an object: a bare id string, or a
      document, which carries its `_id` when it has been saved. */
  datatype Ref = Id(id: string) | Entity(docId: Option<string>)

  /** The id/object normalisation of `grant` and `deleteAll`: an object that
      carries `_id` is replaced by that id; a bare id and an object without
      `_id` are passed through unchanged. */
  function Normalize(r: Ref): (n: Ref)
    ensures r.Entity? && r.docId.Some? ==> n == Id(r.docId.value)
    ensures r.Id? || r.docId.None? ==> n == r
    ensures !(n.Entity? && n.docId.Some?)
  {
    match r
    case Id(_) => r
    case Entity(docId) => if docId.Some? then Id(docId.value) else r
  }

  /** A document of the `hasPermission` edge collection. The name is optional
      because `grant` stores whatever it is handed, including an undefined
      catalog lookup. */
  datatype Edge = Edge(from: Ref, to: Ref, name: Option<string>)

  /** A document of the `memberOf` edge collection: a user (or group) id and
      the id of the group it belongs to. */
  datatype Membership = Membership(from: string, to: string)

  /** The authenticated user as `has` sees it: its `_id` and its inherent
      `perms` list, which a stored user document may lack (`None`). */
  datatype Principal = Principal(id: string, perms: Option<seq<string>>)

  /** The user lists `name` among its inherent permissions; a document
      without a `perms` list lists none. */
  predicate Holds(user: Principal, name: string) {
    user.perms.Some? && name in user.perms.value
  }
}
