/** The permission edge store and the two functions of service/util/perm.js
    that write to it: `grant` appends edges and `deleteAll` removes every
    edge into an object. The `memberOf` edges and the group documents are
    read by the decision function and never written here. */
module Store {
  import opened Records
  import Policy

  /** The `operations` argument of `grant`: an array, or a single value that
      is wrapped into one. */
  datatype Operations = Single(op: Option<string>) | List(ops: seq<Option<string>>)

  /** `if (!Array.isArray(operations)) operations = [operations]`. */
  function OperationList(operations: Operations): (ops: seq<Option<string>>)
    ensures operations.Single? ==> ops == [operations.op]
    ensures operations.List? ==> ops == operations.ops
  {
    match operations
    case Single(op) => [op]
    case List(ops) => ops
  }

  /** The edges `grant` saves: one `{_from, _to, name}` per operation, in
      order. */
  function GrantedEdges(from: Ref, to: Ref, ops: seq<Option<string>>): (g: seq<Edge>)
    ensures |g| == |ops|
    ensures forall i :: 0 <= i < |ops| ==> g[i] == Edge(from, to, ops[i])
  {
    if ops == [] then [] else [Edge(from, to, ops[0])] + GrantedEdges(from, to, ops[1..])
  }

  /** The edges whose `_to` is not `to`, in their order. */
  function WithoutIncoming(edges: seq<Edge>, to: Ref): seq<Edge> {
    if edges == [] then []
    else if edges[0].to == to then WithoutIncoming(edges[1..], to)
    else [edges[0]] + WithoutIncoming(edges[1..], to)
  }

  /** `inEdges(to)`: the edges whose `_to` is `to`, in their order. */
  function Incoming(edges: seq<Edge>, to: Ref): (r: seq<Edge>)
    ensures forall i :: 0 <= i < |r| ==> r[i].to == to && r[i] in edges
    ensures forall e :: e in edges && e.to == to ==> e in r
  {
    if edges == [] then []
    else if edges[0].to == to then [edges[0]] + Incoming(edges[1..], to)
    else Incoming(edges[1..], to)
  }

  /** `remove(e)`: the first edge equal to `e` is gone. */
  function RemoveFirst(edges: seq<Edge>, e: Edge): seq<Edge> {
    if edges == [] then []
    else if edges[0] == e then edges[1..]
    else [edges[0]] + RemoveFirst(edges[1..], e)
  }

  /** The store after the first j incoming edges have been removed. */
  function DropIncoming(edges: seq<Edge>, to: Ref, j: nat): seq<Edge> {
    if edges == [] then []
    else if edges[0].to == to && j > 0 then DropIncoming(edges[1..], to, j - 1)
    else [edges[0]] + DropIncoming(edges[1..], to, j)
  }

  lemma {:induction false} DropNone(edges: seq<Edge>, to: Ref)
    ensures DropIncoming(edges, to, 0) == edges
  {
    if edges != [] {
      DropNone(edges[1..], to);
    }
  }

  /** Removing the next incoming edge advances the loop of `deleteAll` by
      one: the first copy of it left in the store is that very edge, since
      every edge before it points elsewhere. */
  lemma {:induction false} RemoveNextIncoming(edges: seq<Edge>, to: Ref, j: nat)
    requires j < |Incoming(edges, to)|
    ensures RemoveFirst(DropIncoming(edges, to, j), Incoming(edges, to)[j]) == DropIncoming(edges, to, j + 1)
  {
    var rest := edges[1..];
    if edges[0].to == to {
      if j == 0 {
        DropNone(edges, to);
        DropNone(rest, to);
      } else {
        RemoveNextIncoming(rest, to, j - 1);
      }
    } else {
      RemoveNextIncoming(rest, to, j);
    }
  }

  /** With every incoming edge dropped, what is left is WithoutIncoming. */
  lemma {:induction false} DropAllIncoming(edges: seq<Edge>, to: Ref)
    ensures DropIncoming(edges, to, |Incoming(edges, to)|) == WithoutIncoming(edges, to)
  {
    if edges != [] {
      DropAllIncoming(edges[1..], to);
    }
  }

  /** An edge survives `deleteAll(to)` exactly when it was stored and points
      elsewhere; edges leaving `to` are among the survivors. */
  lemma {:induction false} WithoutIncomingKeeps(edges: seq<Edge>, to: Ref, e: Edge)
    ensures e in WithoutIncoming(edges, to) <==> e in edges && e.to != to
  {
    if edges != [] {
      WithoutIncomingKeeps(edges[1..], to, e);
    }
  }

  /** Deleting twice leaves the store deleting once leaves. */
  lemma {:induction false} WithoutIncomingIdempotent(edges: seq<Edge>, to: Ref)
    ensures WithoutIncoming(WithoutIncoming(edges, to), to) == WithoutIncoming(edges, to)
  {
    if edges != [] {
      WithoutIncomingIdempotent(edges[1..], to);
    }
  }

  /** A store with no edge into `to` is left as it is. */
  lemma {:induction false} WithoutIncomingAbsent(edges: seq<Edge>, to: Ref)
    requires forall e :: e in edges ==> e.to != to
    ensures WithoutIncoming(edges, to) == edges
  {
    if edges != [] {
      WithoutIncomingAbsent(edges[1..], to);
    }
  }

  /** The edges `inEdges` lists and the survivors of `deleteAll` share the
      store between them: every stored copy of an edge is in exactly one of
      the two. */
  lemma {:induction false} WithoutIncomingSplits(edges: seq<Edge>, to: Ref)
    ensures multiset(Incoming(edges, to)) + multiset(WithoutIncoming(edges, to)) == multiset(edges)
  {
    if edges != [] {
      var rest := edges[1..];
      WithoutIncomingSplits(rest, to);
      assert multiset(edges) == multiset{edges[0]} + multiset(rest) by {
        assert edges == [edges[0]] + rest;
      }
      if edges[0].to == to {
        assert Incoming(edges, to) == [edges[0]] + Incoming(rest, to);
        assert WithoutIncoming(edges, to) == WithoutIncoming(rest, to);
      } else {
        assert Incoming(edges, to) == Incoming(rest, to);
        assert WithoutIncoming(edges, to) == [edges[0]] + WithoutIncoming(rest, to);
      }
    }
  }

  /** The `hasPermission` edge collection, with the `memberOf` edges and the
      group documents the decision function reads beside it. */
  class PermStore {
    var edges: seq<Edge>
    var memberOf: seq<Membership>
    var groups: map<string, seq<string>>

    constructor (memberOf: seq<Membership>, groups: map<string, seq<string>>)
      ensures this.edges == [] && this.memberOf == memberOf && this.groups == groups
    {
      this.edges := [];
      this.memberOf := memberOf;
      this.groups := groups;
    }

    /** `perms.save(edge)`: one edge is appended. */
    method Save(e: Edge)
      modifies this`edges
      ensures edges == old(edges) + [e]
    {
      edges := edges + [e];
    }

    /** `grant(user, object, operations)`: both ends are normalised, and one
        edge per operation is appended in order, without de-duplication and
        without consulting the catalog. */
    method Grant(user: Ref, obj: Ref, operations: Operations)
      modifies this`edges
      ensures edges == old(edges) + GrantedEdges(Normalize(user), Normalize(obj), OperationList(operations))
    {
      var userId := Normalize(user);
      var objectId := Normalize(obj);
      var ops := OperationList(operations);
      var i := 0;
      while i < |ops|
        invariant 0 <= i <= |ops|
        invariant edges == old(edges) + GrantedEdges(userId, objectId, ops[..i])
      {
        Save(Edge(userId, objectId, ops[i]));
        assert ops[..i + 1] == ops[..i] + [ops[i]];
        GrantedEdgesAppend(userId, objectId, ops[..i], ops[i]);
        i := i + 1;
      }
      assert ops[..i] == ops;
    }

    /** `deleteAll(object)`: every edge `inEdges` lists for the normalised
        id is removed, one by one. */
    method DeleteAll(obj: Ref)
      modifies this`edges
      ensures edges == WithoutIncoming(old(edges), Normalize(obj))
    {
      var objectId := Normalize(obj);
      var incoming := Incoming(edges, objectId);
      ghost var before := edges;
      DropNone(before, objectId);
      var j := 0;
      while j < |incoming|
        invariant 0 <= j <= |incoming|
        invariant edges == DropIncoming(before, objectId, j)
      {
        RemoveNextIncoming(before, objectId, j);
        edges := RemoveFirst(edges, incoming[j]);
        j := j + 1;
      }
      DropAllIncoming(before, objectId);
    }
  }

  lemma {:induction false} GrantedEdgesAppend(from: Ref, to: Ref, ops: seq<Option<string>>, op: Option<string>)
    ensures GrantedEdges(from, to, ops + [op]) == GrantedEdges(from, to, ops) + [Edge(from, to, op)]
  {
  }

  // ---------------------------------------------------------------------
  // What a grant and a deletion mean for later decisions

  /** After `grant`, every granted operation passes the direct-edge rule for
      the user on the object, in every variant. */
  lemma GrantAllows(v: Policy.Variant, edges: seq<Edge>, m: seq<Membership>, groups: map<string, seq<string>>,
                    user: Principal, objectId: string, ops: seq<Option<string>>, i: int)
    requires 0 <= i < |ops| && Truthy(ops[i]) && objectId != ""
    ensures Policy.Has(v, edges + GrantedEdges(Id(user.id), Id(objectId), ops), m, groups, Some(user), ops[i], Some(objectId))
  {
    var after := edges + GrantedEdges(Id(user.id), Id(objectId), ops);
    assert after[|edges| + i] == Edge(Id(user.id), Id(objectId), ops[i]);
    assert Policy.EdgeExists(after, user.id, objectId, ops[i].value);
  }

  /** A grant never takes a permission away, in any variant. */
  lemma GrantKeepsDecisions(v: Policy.Variant, edges: seq<Edge>, m: seq<Membership>, groups: map<string, seq<string>>,
                            from: Ref, to: Ref, ops: seq<Option<string>>,
                            user: Option<Principal>, name: Option<string>, objectId: Option<string>)
    ensures Policy.Has(v, edges, m, groups, user, name, objectId)
        ==> Policy.Has(v, edges + GrantedEdges(from, to, ops), m, groups, user, name, objectId)
  {
    Policy.HasMonotone(v, edges, edges + GrantedEdges(from, to, ops), m, groups, user, name, objectId);
  }

  /** Granting the same operations twice decides every later call as granting
      them once does, though the edges are stored twice. */
  lemma GrantTwiceAsOnce(v: Policy.Variant, edges: seq<Edge>, m: seq<Membership>, groups: map<string, seq<string>>,
                         from: Ref, to: Ref, ops: seq<Option<string>>,
                         user: Option<Principal>, name: Option<string>, objectId: Option<string>)
    ensures var g := GrantedEdges(from, to, ops);
      Policy.Has(v, edges + g + g, m, groups, user, name, objectId) == Policy.Has(v, edges + g, m, groups, user, name, objectId)
  {
    var g := GrantedEdges(from, to, ops);
    forall e ensures e in edges + g + g <==> e in edges + g {
    }
    Policy.HasUpToEdgeSet(v, edges + g + g, edges + g, m, groups, user, name, objectId);
  }

  /** After `deleteAll(objectId)` no decision about that object rests on an
      edge: the direct variant allows exactly the user's inherent
      permissions, even where a direct grant existed before. */
  lemma DeleteAllRevokesDirect(edges: seq<Edge>, m: seq<Membership>, groups: map<string, seq<string>>,
                               user: Option<Principal>, name: Option<string>, objectId: string)
    requires objectId != ""
    ensures Policy.Has(Policy.Direct, WithoutIncoming(edges, Id(objectId)), m, groups, user, name, Some(objectId))
        <==> user.Some? && Truthy(name) && Holds(user.value, name.value)
  {
    if user.Some? && Truthy(name) {
      WithoutIncomingKeeps(edges, Id(objectId), Edge(Id(user.value.id), Id(objectId), name));
    }
  }

  /** With the group rule, after `deleteAll(objectId)` only inherent
      permissions, the user's or a reachable group's, allow access to it. */
  lemma DeleteAllRevokesGroupEdges(edges: seq<Edge>, m: seq<Membership>, groups: map<string, seq<string>>,
                                   user: Principal, name: string, objectId: string)
    requires objectId != "" && name != ""
    ensures Policy.Has(Policy.WithGroups, WithoutIncoming(edges, Id(objectId)), m, groups, Some(user), Some(name), Some(objectId))
        <==> Holds(user, name) || Policy.GroupHasPerm(m, groups, user.id, name)
  {
    var after := WithoutIncoming(edges, Id(objectId));
    WithoutIncomingKeeps(edges, Id(objectId), Edge(Id(user.id), Id(objectId), Some(name)));
    if Policy.GroupHasEdge(after, m, groups, user.id, objectId, name) {
      var g :| g in Policy.GroupIds(m, groups, user.id) && Policy.EdgeExists(after, g, objectId, name);
      WithoutIncomingKeeps(edges, Id(objectId), Edge(Id(g), Id(objectId), Some(name)));
    }
  }
}
