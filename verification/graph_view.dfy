/**
 The `/graph` endpoint of the API: the mapping from raw storage or JSON records to
 entity and relation dictionaries, and the sanitiser that turns them into the node and
 edge lists the front-end draws.
 */
module GraphView {
  import opened Outcomes
  import opened Records
  import Text

  // ---------------------------------------------------------------------------
  // Raw records to entity and relation dictionaries
  // ---------------------------------------------------------------------------

  /** A storage key: a string, or some other object together with its `str()` rendering. */
  datatype StorageKey = TextKey(s: string) | OtherKey(rendered: string)

  /** An item of a storage mapping; `dict` is `None` when the stored object is not a dict. */
  datatype StorageItem = StorageItem(key: StorageKey, dict: Option<Record>)

  /** Python `xs[:limit]`, including the negative `limit` that counts from the end. */
  function SlicePrefix<T>(xs: seq<T>, limit: int): seq<T> {
    if limit >= 0 then xs[..if limit < |xs| then limit else |xs|]
    else xs[..if |xs| + limit > 0 then |xs| + limit else 0]
  }

  /** `f"entity_{i}"`. */
  function EntityPlaceholder(i: nat): string {
    "entity_" + Text.NatToString(i)
  }

  /** The dictionary built for a storage entity found under `key` at position `i`. */
  function StorageEntity(key: StorageKey, i: nat, e: Record): Record {
    var idFallback := if key.TextKey? then Str(key.s) else Str(EntityPlaceholder(i));
    var keyText := if key.TextKey? then key.s else key.rendered;
    map[
      "id" := FirstPresent(e, ["entity_name", "id"], idFallback),
      "name" := FirstPresent(e, ["entity_name", "name"], Str(keyText)),
      "description" := FirstPresent(e, ["entity_desc", "description"], Str("")),
      "type" := Get(e, "type", Str("entity"))
    ]
  }

  /** The dictionary built for an entity stored under `key` in the JSON key-value dump. */
  function JsonKeyedEntity(key: string, e: Record): Record {
    map[
      "id" := FirstPresent(e, ["entity_name"], Str(key)),
      "name" := FirstPresent(e, ["entity_name", "name"], Str(key)),
      "description" := FirstPresent(e, ["entity_desc", "description"], Str("")),
      "type" := Get(e, "type", Str("entity"))
    ]
  }

  /** The dictionary built for the `i`-th entity of a JSON list dump. */
  function JsonListedEntity(i: nat, e: Record): Record {
    map[
      "id" := FirstPresent(e, ["entity_name", "id"], Str(EntityPlaceholder(i))),
      "name" := FirstPresent(e, ["entity_name", "name"], Str("Entity " + Text.NatToString(i))),
      "description" := FirstPresent(e, ["entity_desc", "description"], Str("")),
      "type" := Get(e, "type", Str("entity"))
    ]
  }

  /** The dictionary built for a relation, shared by the storage and JSON paths. */
  function RelationRecord(rel: Record): Record {
    map[
      "from" := FirstPresent(rel, ["head_entity", "head", "from"], Str("")),
      "to" := FirstPresent(rel, ["tail_entity", "tail", "to"], Str("")),
      "relation" := FirstPresent(rel, ["relation_name", "relation", "relation_type"], Str("")),
      "description" := Get(rel, "description", Str(""))
    ]
  }

  /**
   The records built by `build` from the dict items from position `i` on, in order;
   other items are skipped but keep their position.
   */
  function CollectFrom(items: seq<StorageItem>, i: nat, build: (StorageKey, nat, Record) -> Record): (es: seq<Record>)
    requires i <= |items|
    ensures |es| <= |items| - i
    decreases |items| - i
  {
    if i == |items| then []
    else
      var rest := CollectFrom(items, i + 1, build);
      match items[i].dict
      case Some(e) => [build(items[i].key, i, e)] + rest
      case None => rest
  }

  /** The records collected from position `i` on are exactly those built for the dict items there. */
  lemma {:induction false} CollectFromMembers(items: seq<StorageItem>, i: nat, build: (StorageKey, nat, Record) -> Record)
    requires i <= |items|
    ensures forall e :: e in CollectFrom(items, i, build) <==>
      exists j :: i <= j < |items| && items[j].dict.Some? && e == build(items[j].key, j, items[j].dict.value)
    decreases |items| - i
  {
    if i < |items| {
      CollectFromMembers(items, i + 1, build);
    }
  }

  /** When every item from position `i` on is a dict, one record comes out per item, in order. */
  lemma {:induction false} CollectFromAllDicts(items: seq<StorageItem>, i: nat, build: (StorageKey, nat, Record) -> Record)
    requires i <= |items|
    requires forall j :: i <= j < |items| ==> items[j].dict.Some?
    ensures |CollectFrom(items, i, build)| == |items| - i
    ensures forall k :: 0 <= k < |items| - i ==>
      CollectFrom(items, i, build)[k] == build(items[i + k].key, i + k, items[i + k].dict.value)
    decreases |items| - i
  {
    if i < |items| {
      CollectFromAllDicts(items, i + 1, build);
      var es := CollectFrom(items, i, build);
      var rest := CollectFrom(items, i + 1, build);
      assert es == [build(items[i].key, i, items[i].dict.value)] + rest;
      forall k | 1 <= k < |items| - i
        ensures es[k] == build(items[i + k].key, i + k, items[i + k].dict.value)
      {
        assert es[k] == rest[k - 1];
      }
    }
  }

  /** When no item from position `i` on is a dict, nothing comes out. */
  lemma {:induction false} CollectFromNoDicts(items: seq<StorageItem>, i: nat, build: (StorageKey, nat, Record) -> Record)
    requires i <= |items|
    requires forall j :: i <= j < |items| ==> items[j].dict.None?
    ensures CollectFrom(items, i, build) == []
    decreases |items| - i
  {
    if i < |items| {
      CollectFromNoDicts(items, i + 1, build);
    }
  }

  /** The entities read from the engine's entity storage, at most `limit` items of it. */
  function CollectStorageEntities(items: seq<StorageItem>, limit: int): (es: seq<Record>)
    ensures limit >= 0 ==> |es| <= limit
    ensures |es| <= |items|
  {
    CollectFrom(SlicePrefix(items, limit), 0, StorageEntity)
  }

  /** The relations read from the engine's relation storage, at most `limit` items of it. */
  function CollectStorageRelations(items: seq<StorageItem>, limit: int): (rs: seq<Record>)
    ensures limit >= 0 ==> |rs| <= limit
    ensures |rs| <= |items|
  {
    CollectFrom(SlicePrefix(items, limit), 0, KeyedRelation)
  }

  /** The relation built for a storage item: its key and position play no part. */
  function KeyedRelation(key: StorageKey, i: nat, rel: Record): Record {
    RelationRecord(rel)
  }

  /** `xs[:limit]` is a prefix of `xs` with Python's length for both signs of `limit`. */
  lemma SlicePrefixSpec<T>(xs: seq<T>, limit: int)
    ensures SlicePrefix(xs, limit) <= xs
    ensures limit >= 0 ==> |SlicePrefix(xs, limit)| == if limit < |xs| then limit else |xs|
    ensures limit < 0 ==> |SlicePrefix(xs, limit)| == if |xs| + limit > 0 then |xs| + limit else 0
  {
  }

  /**
   `get_graph`'s entity-storage loop (main.py lines 446-457): the window is `items[:limit]`,
   and the entities are exactly those built for the dict items in it; every other item is
   skipped.
   */
  lemma CollectStorageEntitiesSpec(items: seq<StorageItem>, limit: int)
    ensures var window := SlicePrefix(items, limit);
      forall e :: e in CollectStorageEntities(items, limit) <==>
        exists j :: 0 <= j < |window| && window[j].dict.Some? && e == StorageEntity(window[j].key, j, window[j].dict.value)
  {
    CollectFromMembers(SlicePrefix(items, limit), 0, StorageEntity);
  }

  /**
   The entity-storage loop keeps the order of the storage: a window of dicts gives one
   entity per item, in order, and a window without dicts gives none.
   */
  lemma CollectStorageEntitiesInOrder(items: seq<StorageItem>, limit: int)
    ensures var window := SlicePrefix(items, limit);
      (forall j :: 0 <= j < |window| ==> window[j].dict.Some?) ==>
        && |CollectStorageEntities(items, limit)| == |window|
        && forall k :: 0 <= k < |window| ==>
             CollectStorageEntities(items, limit)[k] == StorageEntity(window[k].key, k, window[k].dict.value)
    ensures var window := SlicePrefix(items, limit);
      (forall j :: 0 <= j < |window| ==> window[j].dict.None?) ==> CollectStorageEntities(items, limit) == []
  {
    var window := SlicePrefix(items, limit);
    if forall j :: 0 <= j < |window| ==> window[j].dict.Some? {
      CollectFromAllDicts(window, 0, StorageEntity);
    }
    if forall j :: 0 <= j < |window| ==> window[j].dict.None? {
      CollectFromNoDicts(window, 0, StorageEntity);
    }
  }

  /**
   `get_graph`'s relation-storage loop (main.py lines 461-471): every dict item of
   `items[:limit]` gives the relation built from it, in order, whatever its key, and
   every other item is skipped.
   */
  lemma CollectStorageRelationsSpec(items: seq<StorageItem>, limit: int)
    ensures var window := SlicePrefix(items, limit);
      forall r :: r in CollectStorageRelations(items, limit) <==>
        exists j :: 0 <= j < |window| && window[j].dict.Some? && r == RelationRecord(window[j].dict.value)
    ensures var window := SlicePrefix(items, limit);
      (forall j :: 0 <= j < |window| ==> window[j].dict.Some?) ==>
        && |CollectStorageRelations(items, limit)| == |window|
        && forall k :: 0 <= k < |window| ==> CollectStorageRelations(items, limit)[k] == RelationRecord(window[k].dict.value)
  {
    var window := SlicePrefix(items, limit);
    CollectFromMembers(window, 0, KeyedRelation);
    if forall j :: 0 <= j < |window| ==> window[j].dict.Some? {
      CollectFromAllDicts(window, 0, KeyedRelation);
    }
  }

  /**
   Field precedence for relations: each field takes the value of the first of its keys
   that is present, even a null or empty one, and `""` when none is.
   */
  lemma RelationFieldPrecedence(rel: Record)
    ensures var r := RelationRecord(rel);
      && ("head_entity" in rel ==> r["from"] == rel["head_entity"])
      && ("head_entity" !in rel && "head" in rel ==> r["from"] == rel["head"])
      && ("head_entity" !in rel && "head" !in rel && "from" in rel ==> r["from"] == rel["from"])
      && ("head_entity" !in rel && "head" !in rel && "from" !in rel ==> r["from"] == Str(""))
      && ("tail_entity" in rel ==> r["to"] == rel["tail_entity"])
      && ("tail_entity" !in rel && "tail" in rel ==> r["to"] == rel["tail"])
      && ("tail_entity" !in rel && "tail" !in rel && "to" in rel ==> r["to"] == rel["to"])
      && ("tail_entity" !in rel && "tail" !in rel && "to" !in rel ==> r["to"] == Str(""))
      && ("relation_name" in rel ==> r["relation"] == rel["relation_name"])
      && ("relation_name" !in rel && "relation" in rel ==> r["relation"] == rel["relation"])
      && ("relation_name" !in rel && "relation" !in rel && "relation_type" in rel
          ==> r["relation"] == rel["relation_type"])
      && ("relation_name" !in rel && "relation" !in rel && "relation_type" !in rel
          ==> r["relation"] == Str(""))
  {
    ChainOfThree(rel, "head_entity", "head", "from", Str(""));
    ChainOfThree(rel, "tail_entity", "tail", "to", Str(""));
    ChainOfThree(rel, "relation_name", "relation", "relation_type", Str(""));
  }

  /**
   Field precedence for storage entities: `entity_name` supplies both id and name when
   present; otherwise `id` / `name`; the storage key is the last resort, and a non-string
   key never becomes an id: it is replaced by `entity_<position>`. The description is
   `entity_desc`, else `description`, else empty.
   */
  lemma StorageEntityPrecedence(key: StorageKey, i: nat, e: Record)
    ensures var r := StorageEntity(key, i, e);
      && r.Keys == {"id", "name", "description", "type"}
      && ("entity_name" in e ==> r["id"] == e["entity_name"] && r["name"] == e["entity_name"])
      && ("entity_name" !in e && "id" in e ==> r["id"] == e["id"])
      && ("entity_name" !in e && "id" !in e && key.TextKey? ==> r["id"] == Str(key.s))
      && ("entity_name" !in e && "id" !in e && key.OtherKey? ==> r["id"] == Str(EntityPlaceholder(i)))
      && ("entity_name" !in e && "name" in e ==> r["name"] == e["name"])
      && ("entity_name" !in e && "name" !in e ==>
            r["name"] == Str(if key.TextKey? then key.s else key.rendered))
      && ("entity_desc" in e ==> r["description"] == e["entity_desc"])
      && ("entity_desc" !in e && "description" in e ==> r["description"] == e["description"])
      && ("entity_desc" !in e && "description" !in e ==> r["description"] == Str(""))
      && r["type"] == (if "type" in e then e["type"] else Str("entity"))
  {
    var idFallback := if key.TextKey? then Str(key.s) else Str(EntityPlaceholder(i));
    ChainOfTwo(e, "entity_name", "id", idFallback);
    ChainOfTwo(e, "entity_name", "name", Str(if key.TextKey? then key.s else key.rendered));
    ChainOfTwo(e, "entity_desc", "description", Str(""));
  }

  /**
   Field precedence for the JSON dumps: `entity_name` wins. The id then falls back to the
   JSON key (keyed dump) or to `id` and the placeholder `entity_<i>` (listed dump); the
   name to `name` and then the key or `Entity <i>`; the description is `entity_desc`,
   else `description`, else empty.
   */
  lemma JsonEntityPrecedence(key: string, i: nat, e: Record)
    ensures var k := JsonKeyedEntity(key, e);
      && ("entity_name" in e ==> k["id"] == e["entity_name"] && k["name"] == e["entity_name"])
      && ("entity_name" !in e ==> k["id"] == Str(key))
      && ("entity_name" !in e && "name" in e ==> k["name"] == e["name"])
      && ("entity_name" !in e && "name" !in e ==> k["name"] == Str(key))
      && ("entity_desc" in e ==> k["description"] == e["entity_desc"])
      && ("entity_desc" !in e && "description" in e ==> k["description"] == e["description"])
      && ("entity_desc" !in e && "description" !in e ==> k["description"] == Str(""))
    ensures var l := JsonListedEntity(i, e);
      && ("entity_name" in e ==> l["id"] == e["entity_name"] && l["name"] == e["entity_name"])
      && ("entity_name" !in e && "id" in e ==> l["id"] == e["id"])
      && ("entity_name" !in e && "id" !in e ==> l["id"] == Str(EntityPlaceholder(i)))
      && ("entity_name" !in e && "name" in e ==> l["name"] == e["name"])
      && ("entity_name" !in e && "name" !in e ==> l["name"] == Str("Entity " + Text.NatToString(i)))
      && ("entity_desc" in e ==> l["description"] == e["entity_desc"])
      && ("entity_desc" !in e && "description" in e ==> l["description"] == e["description"])
      && ("entity_desc" !in e && "description" !in e ==> l["description"] == Str(""))
  {
    assert ["entity_name"][1..] == [];
    ChainOfTwo(e, "entity_name", "name", Str(key));
    ChainOfTwo(e, "entity_name", "id", Str(EntityPlaceholder(i)));
    ChainOfTwo(e, "entity_name", "name", Str("Entity " + Text.NatToString(i)));
    ChainOfTwo(e, "entity_desc", "description", Str(""));
  }

  // ---------------------------------------------------------------------------
  // The sanitiser
  // ---------------------------------------------------------------------------

  datatype Node = Node(id: Value, name: Value, description: Value, kind: Value)
  datatype Edge = Edge(src: string, dst: string, relation: Value, description: Value)
  datatype Graph = Graph(nodes: seq<Node>, edges: seq<Edge>, nodeCount: nat, edgeCount: nat)

  /**
   The exceptions the sanitiser can raise, which the endpoint turns into HTTP 500: an
   entity key that is a non-empty list or dict cannot be put in the id set (`TypeError`),
   and a relation endpoint that is not a string has no `strip` (`AttributeError`).
   */
  datatype GraphError = UnhashableId(entity: nat) | EndpointNotText(relation: nat)

  /** `entity.get("id") or entity.get("name")`, when that is truthy. */
  function EntityKey(e: Record): Option<Value> {
    var id := Get(e, "id", Null);
    var name := Get(e, "name", Null);
    if Truthy(id) then Some(id) else if Truthy(name) then Some(name) else None
  }

  /** The entity does not make the sanitiser raise. */
  predicate KeyAccepted(e: Record) {
    EntityKey(e).None? || Hashable(EntityKey(e).value)
  }

  /** The node emitted for an entity with key `k`. */
  function NodeOf(e: Record, k: Value): Node {
    Node(k, Get(e, "name", k), Get(e, "description", Str("")), Get(e, "type", Str("entity")))
  }

  /** The keys of all entities that have one. */
  function KeysOf(es: seq<Record>): set<Value> {
    set j | 0 <= j < |es| && EntityKey(es[j]).Some? :: EntityKey(es[j]).value
  }

  /** The ids of a node list. */
  function IdsOf(nodes: seq<Node>): set<Value> {
    set p | 0 <= p < |nodes| :: nodes[p].id
  }

  lemma IdsOfAppend(nodes: seq<Node>, n: Node)
    ensures IdsOf(nodes + [n]) == IdsOf(nodes) + {n.id}
  {
    var ns := nodes + [n];
    forall v | v in IdsOf(ns) ensures v in IdsOf(nodes) + {n.id} {
      var p :| 0 <= p < |ns| && ns[p].id == v;
      if p < |nodes| { assert ns[p] == nodes[p]; }
    }
    forall v | v in IdsOf(nodes) ensures v in IdsOf(ns) {
      var p :| 0 <= p < |nodes| && nodes[p].id == v;
      assert ns[p] == nodes[p];
    }
    assert ns[|nodes|] == n;
  }

  /** The position of the first entity whose key is `k`. */
  function FirstWithKey(es: seq<Record>, k: Value): (j: nat)
    requires k in KeysOf(es)
    ensures j < |es| && EntityKey(es[j]) == Some(k)
    ensures forall j' :: 0 <= j' < j ==> EntityKey(es[j']) != Some(k)
  {
    if EntityKey(es[0]) == Some(k) then 0
    else
      assert k in KeysOf(es[1..]) by {
        var j :| 0 <= j < |es| && EntityKey(es[j]).Some? && EntityKey(es[j]).value == k;
        assert es[1..][j - 1] == es[j];
      }
      1 + FirstWithKey(es[1..], k)
  }

  /**
   What the entity pass has established after the first `i` entities: the emitted ids are
   the keys seen so far, and each node is built from the first entity with its key, in
   order of those first occurrences.
   */
  ghost predicate NodesSoFar(es: seq<Record>, i: nat, nodes: seq<Node>)
    requires i <= |es|
  {
    && KeysOf(es[..i]) == IdsOf(nodes)
    && (forall p :: 0 <= p < |nodes| ==>
          nodes[p].id in KeysOf(es) && FirstWithKey(es, nodes[p].id) < i
          && nodes[p] == NodeOf(es[FirstWithKey(es, nodes[p].id)], nodes[p].id))
    && (forall p, q :: 0 <= p < q < |nodes| ==>
          nodes[p].id in KeysOf(es) && nodes[q].id in KeysOf(es)
          && FirstWithKey(es, nodes[p].id) < FirstWithKey(es, nodes[q].id))
  }

  /** An entity whose key was already seen adds no node. */
  lemma NodesSoFarSkip(es: seq<Record>, i: nat, nodes: seq<Node>)
    requires i < |es| && NodesSoFar(es, i, nodes)
    requires EntityKey(es[i]).None? || EntityKey(es[i]).value in KeysOf(es[..i])
    ensures NodesSoFar(es, i + 1, nodes)
  {
    KeysOfExtend(es, i);
  }

  /** An entity with a new key adds its node at the end. */
  lemma NodesSoFarEmit(es: seq<Record>, i: nat, nodes: seq<Node>, k: Value)
    requires i < |es| && NodesSoFar(es, i, nodes)
    requires EntityKey(es[i]) == Some(k) && k !in KeysOf(es[..i])
    ensures NodesSoFar(es, i + 1, nodes + [NodeOf(es[i], k)])
  {
    KeysOfExtend(es, i);
    FirstOccurrenceAt(es, i, k);
    IdsOfAppend(nodes, NodeOf(es[i], k));
    var ns := nodes + [NodeOf(es[i], k)];
    forall p | 0 <= p < |ns|
      ensures ns[p].id in KeysOf(es) && FirstWithKey(es, ns[p].id) < i + 1
      ensures ns[p] == NodeOf(es[FirstWithKey(es, ns[p].id)], ns[p].id)
    {
      if p < |nodes| { assert ns[p] == nodes[p]; }
    }
    forall p, q | 0 <= p < q < |ns|
      ensures ns[p].id in KeysOf(es) && ns[q].id in KeysOf(es)
      ensures FirstWithKey(es, ns[p].id) < FirstWithKey(es, ns[q].id)
    {
      assert ns[p] == nodes[p];
      if q < |nodes| { assert ns[q] == nodes[q]; }
    }
  }

  /** Ordered first occurrences make the ids pairwise distinct. */
  lemma NodesSoFarDistinct(es: seq<Record>, nodes: seq<Node>)
    requires NodesSoFar(es, |es|, nodes)
    ensures forall p, q :: 0 <= p < q < |nodes| ==> nodes[p].id != nodes[q].id
  {
  }

  /**
   The entity pass of the sanitiser. It raises at the first entity whose key is
   unhashable; otherwise it emits one node per distinct key, built from the first entity
   carrying that key, in the order in which the keys first appear.
   */
  method SanitiseNodes(es: seq<Record>) returns (r: Result<seq<Node>, GraphError>)
    ensures r.Success? ==> forall p :: 0 <= p < |r.value| ==>
      (r.value[p].id in KeysOf(es) && r.value[p] == NodeOf(es[FirstWithKey(es, r.value[p].id)], r.value[p].id))
    ensures r.Success? ==> forall p, q :: 0 <= p < q < |r.value| ==>
      (r.value[p].id in KeysOf(es) && r.value[q].id in KeysOf(es) &&
       FirstWithKey(es, r.value[p].id) < FirstWithKey(es, r.value[q].id))
    ensures r.Success? ==> IdsOf(r.value) == KeysOf(es)
    ensures r.Success? ==> forall p, q :: 0 <= p < q < |r.value| ==> r.value[p].id != r.value[q].id
    ensures r.Success? <==> forall j :: 0 <= j < |es| ==> KeyAccepted(es[j])
    ensures r.Failure? ==> (r.error.UnhashableId? && r.error.entity < |es|
      && !KeyAccepted(es[r.error.entity])
      && forall j :: 0 <= j < r.error.entity ==> KeyAccepted(es[j]))
  {
    var nodes: seq<Node> := [];
    var seen: set<Value> := {};
    var i := 0;
    while i < |es|
      invariant 0 <= i <= |es|
      invariant forall j :: 0 <= j < i ==> KeyAccepted(es[j])
      invariant NodesSoFar(es, i, nodes)
      invariant seen == KeysOf(es[..i])
    {
      var key := EntityKey(es[i]);
      if key.Some? && !Hashable(key.value) {
        return Failure(UnhashableId(i));
      }
      if key.Some? && key.value !in seen {
        NodesSoFarEmit(es, i, nodes, key.value);
        nodes := nodes + [NodeOf(es[i], key.value)];
        seen := seen + {key.value};
      } else {
        NodesSoFarSkip(es, i, nodes);
      }
      KeysOfExtend(es, i);
      i := i + 1;
    }
    assert es[..i] == es;
    NodesSoFarDistinct(es, nodes);
    return Success(nodes);
  }

  /** Extending the processed prefix by one entity adds exactly that entity's key. */
  lemma KeysOfExtend(es: seq<Record>, i: nat)
    requires i < |es|
    ensures KeysOf(es[..i + 1]) == KeysOf(es[..i]) + (if EntityKey(es[i]).Some? then {EntityKey(es[i]).value} else {})
  {
    var a := es[..i];
    var b := es[..i + 1];
    forall k | k in KeysOf(b) ensures k in KeysOf(a) || (EntityKey(es[i]) == Some(k)) {
      var j :| 0 <= j < |b| && EntityKey(b[j]).Some? && EntityKey(b[j]).value == k;
      if j < i { assert a[j] == b[j]; }
    }
    forall k | k in KeysOf(a) ensures k in KeysOf(b) {
      var j :| 0 <= j < |a| && EntityKey(a[j]).Some? && EntityKey(a[j]).value == k;
      assert b[j] == a[j];
    }
    if EntityKey(es[i]).Some? {
      assert b[i] == es[i];
    }
  }

  /** A key not seen among the first `i` entities first occurs at `i` if entity `i` carries it. */
  lemma FirstOccurrenceAt(es: seq<Record>, i: nat, k: Value)
    requires i < |es| && EntityKey(es[i]) == Some(k)
    requires k !in KeysOf(es[..i])
    ensures k in KeysOf(es) && FirstWithKey(es, k) == i
  {
    assert k in KeysOf(es);
    if FirstWithKey(es, k) < i {
      assert false;
    }
  }

  /** The relation's endpoints are strings, so stripping them does not raise. */
  predicate EndpointsText(rel: Record) {
    Get(rel, "from", Str("")).Str? && Get(rel, "to", Str("")).Str?
  }

  /**
   The edge a relation yields, if its endpoints are strings whose stripped forms are both
   non-empty known ids. (The sanitiser raises before it meets a non-string endpoint.)
   */
  function EdgeOf(rel: Record, ids: set<Value>): Option<Edge> {
    if !EndpointsText(rel) then None
    else
    var src := Text.Strip(Get(rel, "from", Str("")).s);
    var dst := Text.Strip(Get(rel, "to", Str("")).s);
    if src != [] && dst != [] && Str(src) in ids && Str(dst) in ids then
      Some(Edge(src, dst, Get(rel, "relation", Str("")), Get(rel, "description", Str(""))))
    else None
  }

  /** Reference definition of the relation pass: the edges of the kept relations, in input order. */
  function KeptEdges(rels: seq<Record>, ids: set<Value>): seq<Edge> {
    if |rels| == 0 then []
    else
      var last := rels[|rels| - 1];
      var front := KeptEdges(rels[..|rels| - 1], ids);
      match EdgeOf(last, ids)
      case Some(e) => front + [e]
      case None => front
  }

  /** An edge the sanitiser emits: stripped, non-empty endpoints that are both known ids. */
  predicate WellFormedEdge(e: Edge, ids: set<Value>) {
    && e.src != [] && Text.Strip(e.src) == e.src && Str(e.src) in ids
    && e.dst != [] && Text.Strip(e.dst) == e.dst && Str(e.dst) in ids
  }

  /**
   The relation pass of the sanitiser. It raises at the first relation with a non-string
   endpoint; otherwise it keeps exactly the relations whose stripped endpoints are
   non-empty known ids, in input order.
   */
  method FilterEdges(rels: seq<Record>, ids: set<Value>) returns (r: Result<seq<Edge>, GraphError>)
    ensures r.Success? <==> forall j :: 0 <= j < |rels| ==> EndpointsText(rels[j])
    ensures r.Failure? ==> (r.error.EndpointNotText? && r.error.relation < |rels|
      && !EndpointsText(rels[r.error.relation])
      && forall j :: 0 <= j < r.error.relation ==> EndpointsText(rels[j]))
    ensures r.Success? ==> ((forall j :: 0 <= j < |rels| ==> EndpointsText(rels[j])) &&
      r.value == KeptEdges(rels, ids))
    ensures r.Success? ==> forall p :: 0 <= p < |r.value| ==> WellFormedEdge(r.value[p], ids)
  {
    var edges: seq<Edge> := [];
    var i := 0;
    while i < |rels|
      invariant 0 <= i <= |rels|
      invariant forall j :: 0 <= j < i ==> EndpointsText(rels[j])
      invariant edges == KeptEdges(rels[..i], ids)
    {
      var rel := rels[i];
      var from := Get(rel, "from", Str(""));
      if !from.Str? {
        return Failure(EndpointNotText(i));
      }
      var src := Text.Strip(from.s);
      var to := Get(rel, "to", Str(""));
      if !to.Str? {
        return Failure(EndpointNotText(i));
      }
      var dst := Text.Strip(to.s);
      KeptEdgesSnoc(rels, ids, i);
      if src != [] && dst != [] && Str(src) in ids && Str(dst) in ids {
        edges := edges + [Edge(src, dst, Get(rel, "relation", Str("")), Get(rel, "description", Str("")))];
      }
      i := i + 1;
    }
    assert rels[..i] == rels;
    KeptEdgesWellFormed(rels, ids);
    return Success(edges);
  }

  /** One more relation appends at most its own edge. */
  lemma KeptEdgesSnoc(rels: seq<Record>, ids: set<Value>, i: nat)
    requires i < |rels|
    ensures KeptEdges(rels[..i + 1], ids) ==
      KeptEdges(rels[..i], ids) + (if EdgeOf(rels[i], ids).Some? then [EdgeOf(rels[i], ids).value] else [])
  {
    assert rels[..i + 1][..i] == rels[..i];
  }

  /** Every edge the reference keeps is well formed. */
  lemma {:induction false} KeptEdgesWellFormed(rels: seq<Record>, ids: set<Value>)
    ensures forall p :: 0 <= p < |KeptEdges(rels, ids)| ==> WellFormedEdge(KeptEdges(rels, ids)[p], ids)
  {
    if |rels| > 0 {
      var last := rels[|rels| - 1];
      KeptEdgesWellFormed(rels[..|rels| - 1], ids);
      if EndpointsText(last) {
        Text.StripIdempotent(Get(last, "from", Str("")).s);
        Text.StripIdempotent(Get(last, "to", Str("")).s);
      }
    }
  }

  /**
   No relation with usable endpoints is dropped and nothing else is kept: an edge is in
   the output exactly when some relation yields it.
   */
  lemma KeptEdgesComplete(rels: seq<Record>, ids: set<Value>, e: Edge)
    ensures e in KeptEdges(rels, ids) <==> exists j :: 0 <= j < |rels| && EdgeOf(rels[j], ids) == Some(e)
  {
    if e in KeptEdges(rels, ids) {
      KeptEdgeHasSource(rels, ids, e);
    }
    if exists j :: 0 <= j < |rels| && EdgeOf(rels[j], ids) == Some(e) {
      var j :| 0 <= j < |rels| && EdgeOf(rels[j], ids) == Some(e);
      RelationEdgeIsKept(rels, ids, j);
    }
  }

  /** Every kept edge comes from some relation. */
  lemma {:induction false} KeptEdgeHasSource(rels: seq<Record>, ids: set<Value>, e: Edge)
    requires e in KeptEdges(rels, ids)
    ensures exists j :: 0 <= j < |rels| && EdgeOf(rels[j], ids) == Some(e)
  {
    var n := |rels| - 1;
    var front := rels[..n];
    KeptEdgesSnoc(rels, ids, n);
    assert rels[..n + 1] == rels;
    if e in KeptEdges(front, ids) {
      KeptEdgeHasSource(front, ids, e);
      var j :| 0 <= j < |front| && EdgeOf(front[j], ids) == Some(e);
      assert rels[j] == front[j];
    } else {
      assert EdgeOf(rels[n], ids) == Some(e);
    }
  }

  /** Every relation that yields an edge has it kept. */
  lemma {:induction false} RelationEdgeIsKept(rels: seq<Record>, ids: set<Value>, j: nat)
    requires j < |rels| && EdgeOf(rels[j], ids).Some?
    ensures EdgeOf(rels[j], ids).value in KeptEdges(rels, ids)
  {
    var n := |rels| - 1;
    var front := rels[..n];
    KeptEdgesSnoc(rels, ids, n);
    assert rels[..n + 1] == rels;
    if j < n {
      assert front[j] == rels[j];
      RelationEdgeIsKept(front, ids, j);
    }
  }

  /** Processing more relations only appends edges: relative order is the input order. */
  lemma {:induction false} KeptEdgesPrefix(rels: seq<Record>, ids: set<Value>, i: nat)
    requires i <= |rels|
    ensures KeptEdges(rels[..i], ids) <= KeptEdges(rels, ids)
    decreases |rels| - i
  {
    if i < |rels| {
      var front := rels[..|rels| - 1];
      assert front[..i] == rels[..i];
      KeptEdgesPrefix(front, ids, i);
    } else {
      assert rels[..i] == rels;
    }
  }

  /**
   The whole sanitiser of lines 564-597: nodes first, then edges against the set of
   node ids, with both counts reported.
   */
  method SanitiseGraph(entities: seq<Record>, relations: seq<Record>) returns (r: Result<Graph, GraphError>)
    ensures r.Success? <==> ((forall j :: 0 <= j < |entities| ==> KeyAccepted(entities[j]))
      && (forall j :: 0 <= j < |relations| ==> EndpointsText(relations[j])))
    ensures r.Success? ==> r.value.nodeCount == |r.value.nodes| && r.value.edgeCount == |r.value.edges|
    ensures r.Success? ==> IdsOf(r.value.nodes) == KeysOf(entities)
    ensures r.Success? ==> forall p, q :: 0 <= p < q < |r.value.nodes| ==> r.value.nodes[p].id != r.value.nodes[q].id
    ensures r.Success? ==> forall p :: 0 <= p < |r.value.edges| ==>
      WellFormedEdge(r.value.edges[p], IdsOf(r.value.nodes))
    ensures r.Success? ==> r.value.edges == KeptEdges(relations, KeysOf(entities))
  {
    var nodes := SanitiseNodes(entities);
    if nodes.Failure? {
      return Failure(nodes.error);
    }
    var ids := KeysOf(entities);
    var edges := FilterEdges(relations, ids);
    if edges.Failure? {
      return Failure(edges.error);
    }
    return Success(Graph(nodes.value, edges.value, |nodes.value|, |edges.value|));
  }
}
