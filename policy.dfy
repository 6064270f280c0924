/** The decision function `has` and the guard `restrict` of
    service/util/perm.js, as pure functions over the permission edges, the
    `memberOf` edges and the group documents.

    Three variants are modelled:
      - Shipped: the function as it ships, whose first statement returns true;
      - Direct: the rules after that early return, with the two defects of
        the code as written corrected: a user document without a `perms`
        list holds no permission inherently (the code raises a TypeError),
        and the edge lookup reads the `perms` collection (the code names an
        undeclared `hasPerm`); HasDirectAsWritten is the code as written;
      - WithGroups: Direct with the commented-out group traversal enabled. */
module Policy {
  import opened Records
  import Catalog

  /** The `// DEVELOPMENT` early `return true` at the top of `has`. */
  const DevelopmentBypass: bool := true

  /** Depth bound of the group traversal, `1..100 OUTBOUND`. */
  const MaxDepth: nat := 100

  datatype Variant = Shipped | Direct | WithGroups

  /** An exception a JavaScript function raises instead of returning: an
      undeclared identifier, or a method read from `undefined`. */
  datatype JsError = ReferenceError(identifier: string) | TypeError(reading: string)

  /** `firstExample({_from, _to, name})` on the permission edges: some stored
      edge has exactly these endpoints and this name. */
  predicate EdgeExists(edges: seq<Edge>, from: string, to: string, name: string) {
    Edge(Id(from), Id(to), Some(name)) in edges
  }

  /** The rules of `has` that do not involve groups, bypass removed. */
  function HasDirect(edges: seq<Edge>, user: Option<Principal>, name: Option<string>, objectId: Option<string>): bool {
    if user.None? then false
    else if !Truthy(name) then false
    else if Holds(user.value, name.value) then true
    else if Truthy(objectId) && EdgeExists(edges, user.value.id, objectId.value, name.value) then true
    else false
  }

  /** The same rules as the code is written. `user.perms.includes(name)`
      reads `includes` from the document's `perms` without checking that the
      list exists, so a document without one raises a TypeError; and the
      edge lookup names `hasPerm`, an identifier the module never declares
      (its edge collection is bound to `perms`), so reaching it raises a
      ReferenceError. */
  function HasDirectAsWritten(edges: seq<Edge>, user: Option<Principal>, name: Option<string>, objectId: Option<string>): Result<bool, JsError> {
    if user.None? then Success(false)
    else if !Truthy(name) then Success(false)
    else if user.value.perms.None? then Failure(TypeError("includes"))
    else if name.value in user.value.perms.value then Success(true)
    else if Truthy(objectId) then Failure(ReferenceError("hasPerm"))
    else Success(false)
  }

  /** The ends of the `memberOf` edges leaving any vertex of `from`. */
  function Step(m: seq<Membership>, from: set<string>): set<string> {
    set e | e in m && e.from in from :: e.to
  }

  /** The vertices `FOR group IN 1..k OUTBOUND start memberOf` visits: those
      at 1 to k hops from `start`. */
  function Reach(m: seq<Membership>, start: string, k: nat): set<string> {
    if k == 0 then {} else Step(m, {start} + Reach(m, start, k - 1))
  }

  /** `group._id` of every visited vertex that is a stored group document;
      a vertex without a document yields `null`, which matches nothing. */
  function GroupIds(m: seq<Membership>, groups: map<string, seq<string>>, start: string): set<string> {
    set g | g in Reach(m, start, MaxDepth) && g in groups
  }

  /** The first query of the group rule: some visited group lists `name` in
      its own `perms`. */
  predicate GroupHasPerm(m: seq<Membership>, groups: map<string, seq<string>>, start: string, name: string) {
    exists g :: g in GroupIds(m, groups, start) && name in groups[g]
  }

  /** The second query of the group rule: some visited group holds an edge
      named `name` to the object. */
  predicate GroupHasEdge(edges: seq<Edge>, m: seq<Membership>, groups: map<string, seq<string>>, start: string, objectId: string, name: string) {
    exists g :: g in GroupIds(m, groups, start) && EdgeExists(edges, g, objectId, name)
  }

  /** `has` with the group rule enabled: after the direct rules fail, a
      group's own permission decides alone when it holds or when no object is
      given; otherwise a group's edge to the object decides. */
  function HasWithGroups(edges: seq<Edge>, m: seq<Membership>, groups: map<string, seq<string>>,
                         user: Option<Principal>, name: Option<string>, objectId: Option<string>): bool {
    if user.None? then false
    else if !Truthy(name) then false
    else if Holds(user.value, name.value) then true
    else if Truthy(objectId) && EdgeExists(edges, user.value.id, objectId.value, name.value) then true
    else
      var groupHasPerm := GroupHasPerm(m, groups, user.value.id, name.value);
      if groupHasPerm || !Truthy(objectId) then groupHasPerm
      else GroupHasEdge(edges, m, groups, user.value.id, objectId.value, name.value)
  }

  /** `has(user, name, objectId)` in the chosen variant. */
  function Has(v: Variant, edges: seq<Edge>, m: seq<Membership>, groups: map<string, seq<string>>,
               user: Option<Principal>, name: Option<string>, objectId: Option<string>): (r: bool)
    ensures v.Shipped? ==> r
    ensures !v.Shipped? && (user.None? || !Truthy(name)) ==> !r
    ensures !v.Shipped? && user.Some? && Truthy(name) && Holds(user.value, name.value) ==> r
  {
    match v
    case Shipped => DevelopmentBypass || HasDirect(edges, user, name, objectId)
    case Direct => HasDirect(edges, user, name, objectId)
    case WithGroups => HasWithGroups(edges, m, groups, user, name, objectId)
  }

  /** What the middleware built by `restrict(name)` does with a request. */
  datatype GuardOutcome = Next | Forbidden(status: int, message: string)

  /** `restrict(name)` applied to a request of `user`: 403 when `has` without
      an object id denies, otherwise `next()`. */
  function Restrict(v: Variant, edges: seq<Edge>, m: seq<Membership>, groups: map<string, seq<string>>,
                    user: Option<Principal>, name: Option<string>): (o: GuardOutcome)
    ensures o.Next? <==> Has(v, edges, m, groups, user, name, None)
    ensures o.Forbidden? ==> o == Forbidden(403, "Not authorized")
    ensures v.Shipped? ==> o == Next
    ensures v.Direct? ==> (o.Next? <==> user.Some? && Truthy(name) && Holds(user.value, name.value))
  {
    if !Has(v, edges, m, groups, user, name, None) then Forbidden(403, "Not authorized") else Next
  }

  /** Without an object id, the group rule adds exactly the permissions that
      a reachable group lists itself; edges never matter. */
  lemma RestrictWithGroups(edges: seq<Edge>, m: seq<Membership>, groups: map<string, seq<string>>,
                           user: Option<Principal>, name: Option<string>)
    ensures Restrict(WithGroups, edges, m, groups, user, name).Next?
        <==> user.Some? && Truthy(name)
             && (Holds(user.value, name.value) || GroupHasPerm(m, groups, user.value.id, name.value))
  {
  }

  // ---------------------------------------------------------------------
  // The shipped function, and the code as written after the bypass

  /** As shipped, `has` allows every call: no user, no name, no edge. */
  lemma ShippedAllowsEverything(edges: seq<Edge>, m: seq<Membership>, groups: map<string, seq<string>>,
                                user: Option<Principal>, name: Option<string>, objectId: Option<string>)
    ensures Has(Shipped, edges, m, groups, user, name, objectId)
    ensures Restrict(Shipped, edges, m, groups, user, name) == Next
  {
  }

  /** A route that asks for a name the catalog lacks (`view_memberships`,
      `add_membership`, `delete_membership` or `view_user_facts`) passes
      `undefined`, which the intended rules deny whoever asks and whatever
      the object. */
  lemma UndefinedNameDenied(v: Variant, edges: seq<Edge>, m: seq<Membership>, groups: map<string, seq<string>>,
                            user: Option<Principal>, name: string, objectId: Option<string>)
    requires !v.Shipped?
    requires name == "view_memberships" || name == "add_membership" || name == "delete_membership" || name == "view_user_facts"
    ensures !Has(v, edges, m, groups, user, Catalog.Lookup(Catalog.PermJs, name), objectId)
  {
    Catalog.RouteNamesMissing();
  }

  /** The code after the bypass, as written, either agrees with the intended
      direct rules or raises. It raises a TypeError exactly when a user
      without a `perms` list asks for a name, and otherwise a ReferenceError
      exactly when it reaches the edge lookup. */
  lemma AsWrittenRaisesAtEdgeLookup(edges: seq<Edge>, user: Option<Principal>, name: Option<string>, objectId: Option<string>)
    ensures var r := HasDirectAsWritten(edges, user, name, objectId);
      && (r.Success? ==> r.value == HasDirect(edges, user, name, objectId))
      && (r == Failure(TypeError("includes")) <==> user.Some? && Truthy(name) && user.value.perms.None?)
      && (r == Failure(ReferenceError("hasPerm"))
          <==> user.Some? && Truthy(name) && user.value.perms.Some? && !Holds(user.value, name.value) && Truthy(objectId))
  {
  }

  /** A user whose direct grant should allow the call gets a ReferenceError
      from the code as written. */
  lemma AsWrittenLosesDirectGrant()
    ensures var user := Some(Principal("users/1", Some([])));
      var edges := [Edge(Id("users/1"), Id("facts/2"), Some("change_fact"))];
      && HasDirect(edges, user, Some("change_fact"), Some("facts/2"))
      && HasDirectAsWritten(edges, user, Some("change_fact"), Some("facts/2")) == Failure(ReferenceError("hasPerm"))
  {
    var edges := [Edge(Id("users/1"), Id("facts/2"), Some("change_fact"))];
    assert edges[0] == Edge(Id("users/1"), Id("facts/2"), Some("change_fact"));
    assert "change_fact" !in [];
  }

  /** A user document without a `perms` list, holding the `change_user` edge
      to itself that signup stores, is allowed to change itself by the
      direct rules but gets a TypeError from the code as written, and so
      does every other truthy name it asks for. */
  lemma AsWrittenRaisesWithoutPerms(name: string, objectId: Option<string>)
    requires name != ""
    ensures var user := Some(Principal("users/1", None));
      var edges := [Edge(Id("users/1"), Id("users/1"), Some("change_user"))];
      && HasDirect(edges, user, Some("change_user"), Some("users/1"))
      && HasDirectAsWritten(edges, user, Some(name), objectId) == Failure(TypeError("includes"))
  {
    var edges := [Edge(Id("users/1"), Id("users/1"), Some("change_user"))];
    assert edges[0] == Edge(Id("users/1"), Id("users/1"), Some("change_user"));
  }

  // ---------------------------------------------------------------------
  // Edges: only which edges exist matters, and more edges never deny

  /** Decisions read the edge store only through membership tests. */
  lemma HasUpToEdgeSet(v: Variant, e1: seq<Edge>, e2: seq<Edge>, m: seq<Membership>, groups: map<string, seq<string>>,
                       user: Option<Principal>, name: Option<string>, objectId: Option<string>)
    requires forall e :: e in e1 <==> e in e2
    ensures Has(v, e1, m, groups, user, name, objectId) == Has(v, e2, m, groups, user, name, objectId)
  {
    if v.WithGroups? && user.Some? && Truthy(name) && Truthy(objectId) {
      var id, oid, n := user.value.id, objectId.value, name.value;
      assert GroupHasEdge(e1, m, groups, id, oid, n) == GroupHasEdge(e2, m, groups, id, oid, n) by {
        if GroupHasEdge(e1, m, groups, id, oid, n) {
          var g :| g in GroupIds(m, groups, id) && EdgeExists(e1, g, oid, n);
          assert EdgeExists(e2, g, oid, n);
        }
        if GroupHasEdge(e2, m, groups, id, oid, n) {
          var g :| g in GroupIds(m, groups, id) && EdgeExists(e2, g, oid, n);
          assert EdgeExists(e1, g, oid, n);
        }
      }
    }
  }

  /** Adding edges never turns an allow into a deny, in any variant. */
  lemma HasMonotone(v: Variant, e1: seq<Edge>, e2: seq<Edge>, m: seq<Membership>, groups: map<string, seq<string>>,
                    user: Option<Principal>, name: Option<string>, objectId: Option<string>)
    requires forall e :: e in e1 ==> e in e2
    ensures Has(v, e1, m, groups, user, name, objectId) ==> Has(v, e2, m, groups, user, name, objectId)
  {
    if v.WithGroups? && user.Some? && Truthy(name) && Truthy(objectId) {
      var id, oid, n := user.value.id, objectId.value, name.value;
      if GroupHasEdge(e1, m, groups, id, oid, n) {
        var g :| g in GroupIds(m, groups, id) && EdgeExists(e1, g, oid, n);
        assert EdgeExists(e2, g, oid, n);
      }
    }
  }

  /** The direct rule as a statement about one edge: with a user and a name
      that is not inherent, an object decides through exactly its edge. */
  lemma DirectEdgeDecides(edges: seq<Edge>, m: seq<Membership>, groups: map<string, seq<string>>,
                          user: Principal, name: string, objectId: Option<string>)
    requires name != "" && !Holds(user, name)
    ensures Has(Direct, edges, m, groups, Some(user), Some(name), objectId)
        <==> Truthy(objectId) && Edge(Id(user.id), Id(objectId.value), Some(name)) in edges
  {
  }

  // ---------------------------------------------------------------------
  // The group traversal against walks in the membership graph

  /** A walk of at least one hop along `memberOf` edges. */
  predicate Walk(m: seq<Membership>, p: seq<string>) {
    |p| >= 2 && forall i :: 0 <= i < |p| - 1 ==> Membership(p[i], p[i + 1]) in m
  }

  /** `v` lies 1 to k hops from `start`. */
  ghost predicate ReachableWithin(m: seq<Membership>, start: string, v: string, k: nat) {
    exists p :: Walk(m, p) && p[0] == start && p[|p| - 1] == v && |p| <= k + 1
  }

  lemma {:induction false} ReachSound(m: seq<Membership>, start: string, k: nat, v: string)
    requires v in Reach(m, start, k)
    ensures ReachableWithin(m, start, v, k)
  {
    if k == 0 {
      assert false;
    } else {
      var e :| e in m && e.from in {start} + Reach(m, start, k - 1) && e.to == v;
      if e.from == start {
        var p := [start, v];
        assert Membership(p[0], p[1]) == e;
        assert Walk(m, p) && p[0] == start && p[|p| - 1] == v && |p| <= k + 1;
      } else {
        ReachSound(m, start, k - 1, e.from);
        var q :| Walk(m, q) && q[0] == start && q[|q| - 1] == e.from && |q| <= k;
        var p := q + [v];
        forall i | 0 <= i < |p| - 1 ensures Membership(p[i], p[i + 1]) in m {
          if i < |q| - 1 {
            assert p[i] == q[i] && p[i + 1] == q[i + 1];
          } else {
            assert p[i] == e.from && p[i + 1] == v;
          }
        }
        assert Walk(m, p) && p[0] == start && p[|p| - 1] == v && |p| <= k + 1;
      }
    }
  }

  lemma {:induction false} ReachComplete(m: seq<Membership>, start: string, k: nat, p: seq<string>)
    requires Walk(m, p) && p[0] == start && |p| <= k + 1
    ensures p[|p| - 1] in Reach(m, start, k)
  {
    var e := Membership(p[|p| - 2], p[|p| - 1]);
    assert e in m;
    if |p| == 2 {
      assert e.from in {start} + Reach(m, start, k - 1);
    } else {
      var q := p[..|p| - 1];
      assert Walk(m, q) by {
        forall i | 0 <= i < |q| - 1 ensures Membership(q[i], q[i + 1]) in m {
          assert q[i] == p[i] && q[i + 1] == p[i + 1];
        }
      }
      ReachComplete(m, start, k - 1, q);
      assert e.from in {start} + Reach(m, start, k - 1);
    }
  }

  /** The traversal visits exactly the vertices 1 to k hops away. */
  lemma ReachIsBoundedReachability(m: seq<Membership>, start: string, k: nat, v: string)
    ensures v in Reach(m, start, k) <==> ReachableWithin(m, start, v, k)
  {
    if v in Reach(m, start, k) {
      ReachSound(m, start, k, v);
    }
    if ReachableWithin(m, start, v, k) {
      var p :| Walk(m, p) && p[0] == start && p[|p| - 1] == v && |p| <= k + 1;
      ReachComplete(m, start, k, p);
    }
  }

  /** The group-rule variant against walks: it allows exactly when the direct
      rules do, or some stored group at most MaxDepth hops away lists the
      name itself or, when an object is given, holds an edge to it. */
  lemma WithGroupsCharacterized(edges: seq<Edge>, m: seq<Membership>, groups: map<string, seq<string>>,
                                user: Principal, name: string, objectId: Option<string>)
    requires name != ""
    ensures Has(WithGroups, edges, m, groups, Some(user), Some(name), objectId)
        <==> Has(Direct, edges, m, groups, Some(user), Some(name), objectId)
             || exists g :: g in groups && ReachableWithin(m, user.id, g, MaxDepth)
                  && (name in groups[g] || (Truthy(objectId) && EdgeExists(edges, g, objectId.value, name)))
  {
    var id := user.id;
    forall g ensures g in GroupIds(m, groups, id) <==> g in groups && ReachableWithin(m, id, g, MaxDepth) {
      ReachIsBoundedReachability(m, id, MaxDepth, g);
    }
  }

  /** A group the user belongs to directly passes on its own permissions and
      its edges. */
  lemma MemberInheritsGroup(edges: seq<Edge>, m: seq<Membership>, groups: map<string, seq<string>>,
                            user: Principal, group: string, name: string, objectId: Option<string>)
    requires Membership(user.id, group) in m && group in groups && name != ""
    requires name in groups[group] || (Truthy(objectId) && EdgeExists(edges, group, objectId.value, name))
    ensures Has(WithGroups, edges, m, groups, Some(user), Some(name), objectId)
  {
    var p := [user.id, group];
    assert Membership(p[0], p[1]) in m;
    assert Walk(m, p) && p[|p| - 1] == group;
    WithGroupsCharacterized(edges, m, groups, user, name, objectId);
  }

  /** The group rule only adds: whatever the direct rules allow, it allows. */
  lemma GroupsOnlyAdd(edges: seq<Edge>, m: seq<Membership>, groups: map<string, seq<string>>,
                      user: Option<Principal>, name: Option<string>, objectId: Option<string>)
    ensures Has(Direct, edges, m, groups, user, name, objectId) ==> Has(WithGroups, edges, m, groups, user, name, objectId)
  {
  }

  lemma {:induction false} ReachWithoutMemberships(start: string, k: nat)
    ensures Reach([], start, k) == {}
  {
    if k > 0 {
      ReachWithoutMemberships(start, k - 1);
    }
  }

  /** A user in no group is decided by the direct rules alone. */
  lemma NoMembershipsNoGroups(edges: seq<Edge>, groups: map<string, seq<string>>,
                              user: Option<Principal>, name: Option<string>, objectId: Option<string>)
    ensures Has(WithGroups, edges, [], groups, user, name, objectId) == Has(Direct, edges, [], groups, user, name, objectId)
  {
    if user.Some? {
      ReachWithoutMemberships(user.value.id, MaxDepth);
    }
  }

  // ---------------------------------------------------------------------
  // The depth bound on a chain of memberships

  /** The i-th vertex of a chain: a name of i letters. */
  function Vertex(i: nat): string {
    seq(i, _ => 'g')
  }

  /** `Vertex(0)` is a member of `Vertex(1)`, which is a member of
      `Vertex(2)`, and so on up to `Vertex(n)`. */
  function Chain(n: nat): seq<Membership> {
    seq(n, i requires 0 <= i < n => Membership(Vertex(i), Vertex(i + 1)))
  }

  /** Every chain edge joins a vertex to the next one. */
  lemma ChainEdge(n: nat, e: Membership)
    requires e in Chain(n)
    ensures |e.from| < n && e.from == Vertex(|e.from|) && e.to == Vertex(|e.from| + 1)
  {
    var i :| 0 <= i < n && Chain(n)[i] == e;
    assert |Vertex(i)| == i;
  }

  /** One more hop along the chain from the vertices within k - 1 hops, the
      start included, reaches exactly the vertices 1 to k hops away. */
  lemma StepAlongChain(n: nat, k: nat, prev: set<string>)
    requires k > 0
    requires forall j: nat :: Vertex(j) in prev <==> j == 0 || (j <= n && j < k)
    requires forall v :: v in prev ==> v == Vertex(|v|)
    ensures forall j: nat :: Vertex(j) in Step(Chain(n), prev) <==> 1 <= j <= n && j <= k
    ensures forall v :: v in Step(Chain(n), prev) ==> |v| >= 1 && v == Vertex(|v|)
  {
    var c := Chain(n);
    forall j: nat | 1 <= j <= n && j <= k ensures Vertex(j) in Step(c, prev) {
      assert c[j - 1] == Membership(Vertex(j - 1), Vertex(j));
      assert Vertex(j - 1) in prev;
    }
    forall v | v in Step(c, prev) ensures |v| >= 1 && v == Vertex(|v|) && |v| <= n && |v| <= k {
      var e :| e in c && e.from in prev && e.to == v;
      ChainEdge(n, e);
      assert |Vertex(|e.from|)| == |e.from|;
      assert |v| == |e.from| + 1;
    }
    forall j: nat | Vertex(j) in Step(c, prev) ensures 1 <= j <= n && j <= k {
      assert |Vertex(j)| == j;
    }
  }

  /** On a chain of n memberships, the vertices within k hops of the first
      are exactly the next min(n, k) ones. */
  lemma {:induction false} ReachAlongChain(n: nat, k: nat)
    ensures forall j: nat :: Vertex(j) in Reach(Chain(n), Vertex(0), k) <==> 1 <= j <= n && j <= k
    ensures forall v :: v in Reach(Chain(n), Vertex(0), k) ==> |v| >= 1 && v == Vertex(|v|)
  {
    if k > 0 {
      ReachAlongChain(n, k - 1);
      var prev := {Vertex(0)} + Reach(Chain(n), Vertex(0), k - 1);
      forall j: nat ensures Vertex(j) in prev <==> j == 0 || (j <= n && j < k) {
        assert |Vertex(j)| == j && |Vertex(0)| == 0;
      }
      StepAlongChain(n, k, prev);
    }
  }

  /** On a chain of 101 memberships, the traversal from the first vertex
      stops one hop short of the last: a group 101 hops away is never
      visited, though one more hop of depth would reach it. */
  lemma DepthBoundOnChain()
    ensures Vertex(MaxDepth) in Reach(Chain(MaxDepth + 1), Vertex(0), MaxDepth)
    ensures Vertex(MaxDepth + 1) !in Reach(Chain(MaxDepth + 1), Vertex(0), MaxDepth)
    ensures Vertex(MaxDepth + 1) in Reach(Chain(MaxDepth + 1), Vertex(0), MaxDepth + 1)
  {
    ReachAlongChain(MaxDepth + 1, MaxDepth);
    ReachAlongChain(MaxDepth + 1, MaxDepth + 1);
  }

  /** So a group at the end of that chain gives the user at its start
      nothing, whether it lists the permission itself or holds edges. */
  lemma DistantGroupGivesNothing(edges: seq<Edge>, name: string, objectId: Option<string>)
    requires name != ""
    requires forall e :: e in edges ==> e.from != Id(Vertex(0))
    ensures var far := Vertex(MaxDepth + 1);
      !Has(WithGroups, edges, Chain(MaxDepth + 1), map[far := [name]], Some(Principal(Vertex(0), Some([]))), Some(name), objectId)
  {
    var far := Vertex(MaxDepth + 1);
    var m, groups := Chain(MaxDepth + 1), map[far := [name]];
    ReachAlongChain(MaxDepth + 1, MaxDepth);
    assert GroupIds(m, groups, Vertex(0)) == {};
  }
}
