/** The permission catalogs: the `permissions` object of service/util/perm.js
    and the stand-alone object exported by service/util/permissions.js. Each
    object literal is modelled as its properties in source order; property
    access on a name the object lacks yields `undefined`. */
module Catalog {
  import opened Records

  /** One `key: 'value'` property of an object literal. */
  type Property = (string, string)

  /** The seven resource types, in the order their blocks appear. */
  const ResourceTypes: seq<string> := ["answer", "fact", "location", "picture", "question", "topic", "user"]

  /** The cross-cutting operation that only perm.js lists. */
  const JoinLocation: string := "join_location"

  /** The `permissions` object of perm.js. */
  const PermJsBlocks: seq<seq<Property>> := [
    [("view_answers", "view_answers"), ("add_answer", "add_answer"), ("view_answer", "view_answer"), ("change_answer", "change_answer"), ("delete_answer", "delete_answer")],
    [("view_facts", "view_facts"), ("add_fact", "add_fact"), ("view_fact", "view_fact"), ("change_fact", "change_fact"), ("delete_fact", "delete_fact")],
    [("view_locations", "view_locations"), ("join_location", "join_location"), ("add_location", "add_location"), ("view_location", "view_location"), ("change_location", "change_location"), ("delete_location", "delete_location")],
    [("view_pictures", "view_pictures"), ("add_picture", "add_picture"), ("view_picture", "view_picture"), ("change_picture", "change_picture"), ("delete_picture", "delete_picture")],
    [("view_questions", "view_questions"), ("add_question", "add_question"), ("view_question", "view_question"), ("change_question", "change_question"), ("delete_question", "delete_question")],
    [("view_topics", "view_topics"), ("add_topic", "add_topic"), ("view_topic", "view_topic"), ("change_topic", "change_topic"), ("delete_topic", "delete_topic")],
    [("view_users", "view_users"), ("add_user", "add_user"), ("view_user", "view_user"), ("change_user", "change_user"), ("delete_user", "delete_user")]
  ]

  const PermJs: seq<Property> := Flatten(PermJsBlocks)

  /** The object exported by permissions.js. */
  const PermissionsJsBlocks: seq<seq<Property>> := [
    [("view_answers", "view_answers"), ("add_answer", "add_answer"), ("view_answer", "view_answer"), ("change_answer", "change_answer"), ("delete_answer", "delete_answer")],
    [("view_facts", "view_facts"), ("add_fact", "add_fact"), ("view_fact", "view_fact"), ("change_fact", "change_fact"), ("delete_fact", "delete_fact")],
    [("view_locations", "view_locations"), ("add_location", "add_location"), ("view_location", "view_location"), ("change_location", "change_location"), ("delete_location", "delete_location")],
    [("view_pictures", "view_pictures"), ("add_picture", "add_picture"), ("view_picture", "view_picture"), ("change_picture", "change_picture"), ("delete_picture", "delete_picture")],
    [("view_questions", "view_questions"), ("add_question", "add_question"), ("view_question", "view_question"), ("change_question", "change_question"), ("delete_question", "delete_question")],
    [("view_topics", "view_topics"), ("add_topic", "add_topic"), ("view_topic", "view_topic"), ("change_topic", "change_topic"), ("delete_topic", "delete_topic")],
    [("view_users", "view_users"), ("add_user", "add_user"), ("view_user", "view_user"), ("change_user", "change_user"), ("delete_user", "delete_user")]
  ]

  const PermissionsJs: seq<Property> := Flatten(PermissionsJsBlocks)

  /** An object literal written as consecutive blocks of properties. */
  function Flatten(blocks: seq<seq<Property>>): seq<Property> {
    if blocks == [] then [] else blocks[0] + Flatten(blocks[1..])
  }

  /** Property access `catalog[name]` on an object literal whose keys are
      distinct (as both catalogs' are, see PermJsShape and
      PermissionsJsShape): the value of the property with that key, or
      `undefined`. */
  function Lookup(catalog: seq<Property>, name: string): (r: Option<string>)
    ensures r.Some? <==> exists i :: 0 <= i < |catalog| && catalog[i].0 == name
  {
    if catalog == [] then None
    else if catalog[0].0 == name then Some(catalog[0].1)
    else
      var r := Lookup(catalog[1..], name);
      assert r.Some? ==> exists i :: 0 <= i < |catalog| && catalog[i].0 == name by {
        if r.Some? {
          var i :| 0 <= i < |catalog[1..]| && catalog[1..][i].0 == name;
          assert catalog[i + 1].0 == name;
        }
      }
      r
  }

  /** Every property's value is its own key. */
  predicate SelfNamed(catalog: seq<Property>) {
    forall i :: 0 <= i < |catalog| ==> catalog[i].0 == catalog[i].1
  }

  /** No key is listed twice, so the object has |catalog| entries. */
  predicate DistinctKeys(catalog: seq<Property>) {
    forall i, j :: 0 <= i < j < |catalog| ==> catalog[i].0 != catalog[j].0
  }

  /** The five properties the naming pattern gives resource type t. */
  function TypeBlock(t: string): seq<Property> {
    [("view_" + t + "s", "view_" + t + "s"), ("add_" + t, "add_" + t), ("view_" + t, "view_" + t),
     ("change_" + t, "change_" + t), ("delete_" + t, "delete_" + t)]
  }

  /** The catalog the naming pattern prescribes for a list of resource types. */
  function Pattern(types: seq<string>): seq<Property> {
    if types == [] then [] else TypeBlock(types[0]) + Pattern(types[1..])
  }

  /** Resource types that can be told apart by their first letter. */
  predicate DistinctInitials(types: seq<string>) {
    && (forall i :: 0 <= i < |types| ==> |types[i]| > 0)
    && (forall i, j :: 0 <= i < j < |types| ==> types[i][0] != types[j][0])
  }

  /** `key` has the first letter, the length and, right after its "<op>_"
      prefix, the initial of some key the pattern gives type t: a `view_`
      key has t's length plus 5 or 6, an `add_` key plus 4, a `change_` or
      `delete_` key plus 7. */
  predicate KeyFits(key: string, t: string) {
    && |t| > 0 && |key| > 0
    && (|| (key[0] == 'v' && (|key| == |t| + 5 || |key| == |t| + 6) && key[5] == t[0])
        || (key[0] == 'a' && |key| == |t| + 4 && key[4] == t[0])
        || ((key[0] == 'c' || key[0] == 'd') && |key| == |t| + 7 && key[7] == t[0]))
  }

  lemma TypeBlockFits(t: string, k: int)
    requires |t| > 0 && 0 <= k < 5
    ensures KeyFits(TypeBlock(t)[k].0, t)
  {
    if k == 0 {
      assert TypeBlock(t)[0].0 == "view_" + (t + "s");
    }
  }

  lemma {:induction false} PatternShape(types: seq<string>)
    ensures |Pattern(types)| == 5 * |types|
    ensures SelfNamed(Pattern(types))
    ensures forall i :: 0 <= i < |Pattern(types)| ==> Pattern(types)[i] == TypeBlock(types[i / 5])[i % 5]
  {
    if types != [] {
      PatternShape(types[1..]);
      var p := Pattern(types);
      forall i | 0 <= i < |p| ensures p[i] == TypeBlock(types[i / 5])[i % 5] {
        if i >= 5 {
          assert p[i] == Pattern(types[1..])[i - 5];
          assert (i - 5) / 5 == i / 5 - 1 && (i - 5) % 5 == i % 5;
        }
      }
    }
  }

  /** The pattern never repeats a key when the types have distinct initials. */
  lemma PatternDistinct(types: seq<string>)
    requires DistinctInitials(types)
    ensures DistinctKeys(Pattern(types))
  {
    PatternShape(types);
    var p := Pattern(types);
    forall i, j | 0 <= i < j < |p| ensures p[i].0 != p[j].0 {
      var ti, tj := types[i / 5], types[j / 5];
      TypeBlockFits(ti, i % 5);
      TypeBlockFits(tj, j % 5);
      if i / 5 == j / 5 {
        var t := ti;
        assert ("view_" + t + "s")[0] == 'v' && ("add_" + t)[0] == 'a' && ("view_" + t)[0] == 'v';
        assert ("change_" + t)[0] == 'c' && ("delete_" + t)[0] == 'd';
        assert |"view_" + t + "s"| != |"view_" + t|;
      }
    }
  }

  lemma ResourceTypesDistinct()
    ensures DistinctInitials(ResourceTypes)
  {
  }

  /** A block written out name by name is the pattern's block for t when
      each name is spelled as the pattern prescribes. */
  lemma Spelled(t: string, viewAll: string, add: string, view: string, change: string, delete: string)
    requires viewAll == "view_" + t + "s" && add == "add_" + t && view == "view_" + t
    requires change == "change_" + t && delete == "delete_" + t
    ensures TypeBlock(t) == [(viewAll, viewAll), (add, add), (view, view), (change, change), (delete, delete)]
  {
  }

  lemma {:induction false} FlattenPattern(blocks: seq<seq<Property>>, types: seq<string>)
    requires |blocks| == |types|
    requires forall i :: 0 <= i < |types| ==> blocks[i] == TypeBlock(types[i])
    ensures Flatten(blocks) == Pattern(types)
  {
    if types != [] {
      FlattenPattern(blocks[1..], types[1..]);
    }
  }

  // permissions.js block by block; one lemma per block keeps each proof
  // about the literal small.

  lemma PermissionsJsAnswersSpelled()
    ensures PermissionsJsBlocks[0] == TypeBlock(ResourceTypes[0])
  {
    Spelled("answer", "view_answers", "add_answer", "view_answer", "change_answer", "delete_answer");
  }

  lemma PermissionsJsFactsSpelled()
    ensures PermissionsJsBlocks[1] == TypeBlock(ResourceTypes[1])
  {
    Spelled("fact", "view_facts", "add_fact", "view_fact", "change_fact", "delete_fact");
  }

  lemma PermissionsJsLocationsSpelled()
    ensures PermissionsJsBlocks[2] == TypeBlock(ResourceTypes[2])
  {
    Spelled("location", "view_locations", "add_location", "view_location", "change_location", "delete_location");
  }

  lemma PermissionsJsPicturesSpelled()
    ensures PermissionsJsBlocks[3] == TypeBlock(ResourceTypes[3])
  {
    Spelled("picture", "view_pictures", "add_picture", "view_picture", "change_picture", "delete_picture");
  }

  lemma PermissionsJsQuestionsSpelled()
    ensures PermissionsJsBlocks[4] == TypeBlock(ResourceTypes[4])
  {
    Spelled("question", "view_questions", "add_question", "view_question", "change_question", "delete_question");
  }

  lemma PermissionsJsTopicsSpelled()
    ensures PermissionsJsBlocks[5] == TypeBlock(ResourceTypes[5])
  {
    Spelled("topic", "view_topics", "add_topic", "view_topic", "change_topic", "delete_topic");
  }

  lemma PermissionsJsUsersSpelled()
    ensures PermissionsJsBlocks[6] == TypeBlock(ResourceTypes[6])
  {
    Spelled("user", "view_users", "add_user", "view_user", "change_user", "delete_user");
  }

  /** permissions.js lists exactly the pattern's five names for each of the
      seven types, in type order. */
  lemma PermissionsJsFollowsPattern()
    ensures PermissionsJs == Pattern(ResourceTypes)
  {
    PermissionsJsAnswersSpelled();
    PermissionsJsFactsSpelled();
    PermissionsJsLocationsSpelled();
    PermissionsJsPicturesSpelled();
    PermissionsJsQuestionsSpelled();
    PermissionsJsTopicsSpelled();
    PermissionsJsUsersSpelled();
    FlattenPattern(PermissionsJsBlocks, ResourceTypes);
  }

  /** permissions.js has exactly 35 entries, no key twice, each mapping a
      name to itself. */
  lemma PermissionsJsShape()
    ensures |PermissionsJs| == 35
    ensures DistinctKeys(PermissionsJs)
    ensures SelfNamed(PermissionsJs)
  {
    PermissionsJsFollowsPattern();
    PatternShape(ResourceTypes);
    ResourceTypesDistinct();
    PatternDistinct(ResourceTypes);
  }

  /** The catalog without the properties whose key is `key`, order kept. */
  function Omit(catalog: seq<Property>, key: string): seq<Property> {
    if catalog == [] then []
    else if catalog[0].0 == key then Omit(catalog[1..], key)
    else [catalog[0]] + Omit(catalog[1..], key)
  }

  lemma {:induction false} OmitAppend(a: seq<Property>, b: seq<Property>, key: string)
    ensures Omit(a + b, key) == Omit(a, key) + Omit(b, key)
  {
    if a == [] {
      assert a + b == b;
    } else {
      assert (a + b)[1..] == a[1..] + b;
      OmitAppend(a[1..], b, key);
    }
  }

  lemma {:induction false} OmitAbsent(catalog: seq<Property>, key: string)
    requires forall i :: 0 <= i < |catalog| ==> catalog[i].0 != key
    ensures Omit(catalog, key) == catalog
  {
    if catalog != [] {
      OmitAbsent(catalog[1..], key);
    }
  }

  /** Every property that survives Omit was a property of the catalog, and
      every property with another key survives. */
  lemma {:induction false} OmitKeeps(catalog: seq<Property>, key: string, i: int)
    requires 0 <= i < |catalog| && catalog[i].0 != key
    ensures exists j :: 0 <= j < |Omit(catalog, key)| && Omit(catalog, key)[j] == catalog[i]
  {
    if i == 0 {
      assert Omit(catalog, key)[0] == catalog[0];
    } else {
      OmitKeeps(catalog[1..], key, i - 1);
      var j :| 0 <= j < |Omit(catalog[1..], key)| && Omit(catalog[1..], key)[j] == catalog[1..][i - 1];
      if catalog[0].0 != key {
        assert Omit(catalog, key)[j + 1] == catalog[i];
      } else {
        assert Omit(catalog, key)[j] == catalog[i];
      }
    }
  }

  lemma {:induction false} OmitFlatten(blocks: seq<seq<Property>>, omitted: seq<seq<Property>>, key: string)
    requires |omitted| == |blocks|
    requires forall i :: 0 <= i < |blocks| ==> omitted[i] == Omit(blocks[i], key)
    ensures Omit(Flatten(blocks), key) == Flatten(omitted)
  {
    if blocks != [] {
      OmitAppend(blocks[0], Flatten(blocks[1..]), key);
      OmitFlatten(blocks[1..], omitted[1..], key);
    }
  }

  /** A property of one block is a property of the flattened object. */
  lemma {:induction false} InFlatten(blocks: seq<seq<Property>>, b: int, i: int)
    requires 0 <= b < |blocks| && 0 <= i < |blocks[b]|
    ensures exists j :: 0 <= j < |Flatten(blocks)| && Flatten(blocks)[j] == blocks[b][i]
  {
    if b == 0 {
      assert Flatten(blocks)[i] == blocks[0][i];
    } else {
      InFlatten(blocks[1..], b - 1, i);
      var j :| 0 <= j < |Flatten(blocks[1..])| && Flatten(blocks[1..])[j] == blocks[1..][b - 1][i];
      assert Flatten(blocks)[|blocks[0]| + j] == blocks[b][i];
    }
  }

  /** A key that fits none of the types' names is not in the pattern. */
  lemma NotPatternKey(types: seq<string>, key: string)
    requires forall j :: 0 <= j < |types| ==> |types[j]| > 0 && !KeyFits(key, types[j])
    ensures forall i :: 0 <= i < |Pattern(types)| ==> Pattern(types)[i].0 != key
  {
    PatternShape(types);
    forall i | 0 <= i < |Pattern(types)| ensures Pattern(types)[i].0 != key {
      TypeBlockFits(types[i / 5], i % 5);
    }
  }

  lemma JoinLocationNotInPermissionsJs()
    ensures forall i :: 0 <= i < |PermissionsJs| ==> PermissionsJs[i].0 != JoinLocation
  {
    PermissionsJsFollowsPattern();
    NotPatternKey(ResourceTypes, JoinLocation);
  }

  /** Block by block, perm.js without `join_location` is permissions.js. */
  lemma PermJsBlocksOmit()
    ensures |PermJsBlocks| == |PermissionsJsBlocks|
    ensures forall i :: 0 <= i < |PermJsBlocks| ==> PermissionsJsBlocks[i] == Omit(PermJsBlocks[i], JoinLocation)
  {
    var js, shared := PermJsBlocks, PermissionsJsBlocks;
    JoinLocationNotInPermissionsJs();
    forall i | 0 <= i < |shared| && i != 2 ensures shared[i] == Omit(js[i], JoinLocation) {
      assert js[i] == shared[i];
      forall k | 0 <= k < |shared[i]| ensures shared[i][k].0 != JoinLocation {
        InFlatten(shared, i, k);
      }
      OmitAbsent(shared[i], JoinLocation);
    }
    assert shared[2] == Omit(js[2], JoinLocation);
  }

  /** perm.js's catalog is permissions.js's plus `join_location`: dropping
      that one name from perm.js gives permissions.js, in the same order, and
      only perm.js has it. */
  lemma PermJsAddsJoinLocation()
    ensures Omit(PermJs, JoinLocation) == PermissionsJs
    ensures Lookup(PermJs, JoinLocation).Some?
    ensures Lookup(PermissionsJs, JoinLocation) == None
  {
    PermJsBlocksOmit();
    OmitFlatten(PermJsBlocks, PermissionsJsBlocks, JoinLocation);
    InFlatten(PermJsBlocks, 2, 1);
    JoinLocationNotInPermissionsJs();
  }

  /** The total number of properties in a list of blocks. */
  function Size(blocks: seq<seq<Property>>): nat {
    if blocks == [] then 0 else |blocks[0]| + Size(blocks[1..])
  }

  /** Flattening keeps every property and adds none: the flattened object
      has all the blocks' properties, and is self-named when they are. */
  lemma {:induction false} FlattenShape(blocks: seq<seq<Property>>)
    ensures |Flatten(blocks)| == Size(blocks)
    ensures (forall b :: 0 <= b < |blocks| ==> SelfNamed(blocks[b])) ==> SelfNamed(Flatten(blocks))
  {
    if blocks != [] {
      FlattenShape(blocks[1..]);
      var f := Flatten(blocks);
      if forall b :: 0 <= b < |blocks| ==> SelfNamed(blocks[b]) {
        assert forall b :: 0 <= b < |blocks[1..]| ==> SelfNamed(blocks[1..][b]) by {
          forall b | 0 <= b < |blocks[1..]| ensures SelfNamed(blocks[1..][b]) {
            assert blocks[1..][b] == blocks[b + 1];
          }
        }
        forall i | 0 <= i < |f| ensures f[i].0 == f[i].1 {
          if i >= |blocks[0]| {
            assert f[i] == Flatten(blocks[1..])[i - |blocks[0]|];
          } else {
            assert f[i] == blocks[0][i];
          }
        }
      }
    }
  }

  /** perm.js's catalog has 36 entries, no key twice, each mapping a name
      to itself; so the object has 36 properties. */
  lemma PermJsShape()
    ensures |PermJs| == 36 && SelfNamed(PermJs)
    ensures DistinctKeys(PermJs)
  {
    PermJsSize();
    PermJsBlocksSelfNamed();
    FlattenShape(PermJsBlocks);
    PermJsDistinct();
  }

  lemma {:induction false} OmitLength(catalog: seq<Property>, key: string)
    ensures |Omit(catalog, key)| <= |catalog|
    ensures |Omit(catalog, key)| == |catalog| ==> forall i :: 0 <= i < |catalog| ==> catalog[i].0 != key
  {
    if catalog != [] {
      var rest := catalog[1..];
      OmitLength(rest, key);
      if |Omit(catalog, key)| == |catalog| {
        forall i | 0 <= i < |catalog| ensures catalog[i].0 != key {
          if i > 0 {
            assert catalog[i] == rest[i - 1];
          }
        }
      }
    }
  }

  /** A catalog that loses at most one property to Omit, and whose survivors
      have distinct keys, has distinct keys itself. */
  lemma {:induction false} OmitDistinct(catalog: seq<Property>, key: string)
    requires DistinctKeys(Omit(catalog, key)) && |catalog| <= |Omit(catalog, key)| + 1
    ensures DistinctKeys(catalog)
  {
    if catalog != [] {
      var rest := catalog[1..];
      OmitLength(rest, key);
      if catalog[0].0 == key {
        OmitAbsent(rest, key);
      } else {
        var o := Omit(catalog, key);
        assert o == [catalog[0]] + Omit(rest, key);
        assert DistinctKeys(Omit(rest, key)) by {
          forall i, j | 0 <= i < j < |Omit(rest, key)| ensures Omit(rest, key)[i].0 != Omit(rest, key)[j].0 {
            assert o[i + 1] == Omit(rest, key)[i] && o[j + 1] == Omit(rest, key)[j];
          }
        }
        OmitDistinct(rest, key);
        forall j | 0 <= j < |rest| && rest[j].0 != key ensures catalog[0].0 != rest[j].0 {
          OmitKeeps(rest, key, j);
          var m :| 0 <= m < |Omit(rest, key)| && Omit(rest, key)[m] == rest[j];
          assert o[0] == catalog[0] && o[m + 1] == rest[j];
          assert o[0].0 != o[m + 1].0;
        }
      }
      forall i, j | 0 <= i < j < |catalog| ensures catalog[i].0 != catalog[j].0 {
        assert catalog[j] == rest[j - 1];
        if i > 0 {
          assert catalog[i] == rest[i - 1];
        }
      }
    }
  }

  /** perm.js lists `join_location` once and every other name once. */
  lemma PermJsDistinct()
    ensures DistinctKeys(PermJs)
  {
    PermJsSize();
    FlattenShape(PermJsBlocks);
    PermJsIsPatternPlusJoin();
    PatternShape(ResourceTypes);
    ResourceTypesDistinct();
    PatternDistinct(ResourceTypes);
    OmitDistinct(PermJs, JoinLocation);
  }

  lemma PermJsSize()
    ensures Size(PermJsBlocks) == 36
  {
  }

  lemma PermJsBlocksSelfNamed()
    ensures forall b :: 0 <= b < |PermJsBlocks| ==> SelfNamed(PermJsBlocks[b])
  {
  }

  /** On a self-named catalog, looking up a listed key gives the key itself. */
  lemma {:induction false} LookupListed(catalog: seq<Property>, i: int)
    requires SelfNamed(catalog) && 0 <= i < |catalog|
    ensures Lookup(catalog, catalog[i].0) == Some(catalog[i].0)
  {
    if catalog[0].0 != catalog[i].0 {
      LookupListed(catalog[1..], i - 1);
    }
  }

  /** The three names the signup function reads from permissions.js are
      there, each naming itself. */
  lemma SignupNamesListed()
    ensures Lookup(PermissionsJs, "view_user") == Some("view_user")
    ensures Lookup(PermissionsJs, "change_user") == Some("change_user")
    ensures Lookup(PermissionsJs, "delete_user") == Some("delete_user")
  {
    PermissionsJsShape();
    var b: seq<seq<Property>> := PermissionsJsBlocks;
    assert b[6][2].0 == "view_user" && b[6][3].0 == "change_user" && b[6][4].0 == "delete_user";
    InFlatten(b, 6, 2);
    var i :| 0 <= i < |PermissionsJs| && PermissionsJs[i] == b[6][2];
    LookupListed(PermissionsJs, i);
    InFlatten(b, 6, 3);
    var j :| 0 <= j < |PermissionsJs| && PermissionsJs[j] == b[6][3];
    LookupListed(PermissionsJs, j);
    InFlatten(b, 6, 4);
    var k :| 0 <= k < |PermissionsJs| && PermissionsJs[k] == b[6][4];
    LookupListed(PermissionsJs, k);
  }

  /** A key that Omit leaves alone and that is not among the survivors was
      never in the catalog. */
  lemma NotInOmitted(catalog: seq<Property>, omitted: string, key: string)
    requires key != omitted
    requires forall j :: 0 <= j < |Omit(catalog, omitted)| ==> Omit(catalog, omitted)[j].0 != key
    ensures forall i :: 0 <= i < |catalog| ==> catalog[i].0 != key
  {
    forall i | 0 <= i < |catalog| ensures catalog[i].0 != key {
      if catalog[i].0 == key {
        OmitKeeps(catalog, omitted, i);
      }
    }
  }

  /** A name other than `join_location` that fits none of the seven
      resource types' names is missing from any catalog that is the pattern
      once `join_location` is dropped. */
  lemma {:induction false} MissingOutsidePattern(catalog: seq<Property>, key: string)
    requires Omit(catalog, JoinLocation) == Pattern(ResourceTypes)
    requires key != JoinLocation
    requires forall j :: 0 <= j < |ResourceTypes| ==> !KeyFits(key, ResourceTypes[j])
    ensures Lookup(catalog, key) == None
  {
    NotPatternKey(ResourceTypes, key);
    NotInOmitted(catalog, JoinLocation, key);
  }

  /** A name that fits none of the seven types' names, and is not
      `join_location`, is `undefined` in perm.js's catalog. */
  lemma PermJsMissing(key: string)
    requires key != JoinLocation
    requires forall j :: 0 <= j < |ResourceTypes| ==> !KeyFits(key, ResourceTypes[j])
    ensures Lookup(PermJs, key) == None
  {
    PermJsIsPatternPlusJoin();
    MissingOutsidePattern(PermJs, key);
  }

  /** The routes read four names the catalog of perm.js lacks, so each
      `p.p.<name>` they pass is `undefined`. */
  lemma RouteNamesMissing()
    ensures Lookup(PermJs, "view_memberships") == None
    ensures Lookup(PermJs, "add_membership") == None
    ensures Lookup(PermJs, "delete_membership") == None
    ensures Lookup(PermJs, "view_user_facts") == None
  {
    PermJsMissing("view_memberships");
    PermJsMissing("add_membership");
    PermJsMissing("delete_membership");
    PermJsMissing("view_user_facts");
  }

  /** Every property that survives Omit was a property of the catalog. */
  lemma {:induction false} OmitFrom(catalog: seq<Property>, key: string, j: int)
    requires 0 <= j < |Omit(catalog, key)|
    ensures exists i :: 0 <= i < |catalog| && catalog[i] == Omit(catalog, key)[j]
  {
    var rest := catalog[1..];
    if catalog[0].0 == key {
      OmitFrom(rest, key, j);
      var i :| 0 <= i < |rest| && rest[i] == Omit(rest, key)[j];
      assert catalog[i + 1] == rest[i];
    } else if j == 0 {
      assert catalog[0] == Omit(catalog, key)[0];
    } else {
      OmitFrom(rest, key, j - 1);
      var i :| 0 <= i < |rest| && rest[i] == Omit(rest, key)[j - 1];
      assert catalog[i + 1] == rest[i];
    }
  }

  /** Omitting one key changes no other name's lookup between defined and
      `undefined`. */
  lemma LookupOmit(catalog: seq<Property>, omitted: string, key: string)
    requires key != omitted
    ensures Lookup(catalog, key).Some? <==> Lookup(Omit(catalog, omitted), key).Some?
  {
    if Lookup(catalog, key).Some? {
      var i :| 0 <= i < |catalog| && catalog[i].0 == key;
      OmitKeeps(catalog, omitted, i);
    }
    if Lookup(Omit(catalog, omitted), key).Some? {
      var j :| 0 <= j < |Omit(catalog, omitted)| && Omit(catalog, omitted)[j].0 == key;
      OmitFrom(catalog, omitted, j);
    }
  }

  /** The keys of the pattern are exactly the five names of each type. */
  lemma PatternKeys(types: seq<string>, key: string)
    ensures (exists i :: 0 <= i < |Pattern(types)| && Pattern(types)[i].0 == key)
        <==> exists j, k :: 0 <= j < |types| && 0 <= k < 5 && key == TypeBlock(types[j])[k].0
  {
    PatternShape(types);
    var p := Pattern(types);
    if exists i :: 0 <= i < |p| && p[i].0 == key {
      var i :| 0 <= i < |p| && p[i].0 == key;
      assert key == TypeBlock(types[i / 5])[i % 5].0;
    }
    if exists j, k :: 0 <= j < |types| && 0 <= k < 5 && key == TypeBlock(types[j])[k].0 {
      var j, k :| 0 <= j < |types| && 0 <= k < 5 && key == TypeBlock(types[j])[k].0;
      var i := 5 * j + k;
      assert i / 5 == j && i % 5 == k;
      assert p[i].0 == key;
    }
  }

  /** `p.p[name]` is defined exactly for `join_location` and the five names
      of each of the seven resource types. */
  lemma PermJsKeys(key: string)
    ensures Lookup(PermJs, key).Some?
        <==> key == JoinLocation
             || exists j, k :: 0 <= j < |ResourceTypes| && 0 <= k < 5 && key == TypeBlock(ResourceTypes[j])[k].0
  {
    PermJsAddsJoinLocation();
    PermJsIsPatternPlusJoin();
    if key != JoinLocation {
      LookupOmit(PermJs, JoinLocation, key);
      PatternKeys(ResourceTypes, key);
    }
  }

  /** perm.js's catalog is the pattern for the seven types once
      `join_location` is dropped. */
  lemma PermJsIsPatternPlusJoin()
    ensures Omit(PermJs, JoinLocation) == Pattern(ResourceTypes)
  {
    PermJsAddsJoinLocation();
    PermissionsJsFollowsPattern();
  }
}
