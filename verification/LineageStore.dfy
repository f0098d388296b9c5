/**
 Column lineage of analyzed views: edges and one analysis record per view, written only while the
 view's definition is still the one that was analyzed.
 */
module LineageStore {
  import opened Ordering
  import opened ProtoMessage
  import MetaHistory

  type Key = MetaHistory.MetaKey

  datatype Edge = Edge(producer: Key, source: Key, target: Key, columns: string)

  datatype Version = Version(metaHash: Bytes, errorMessage: Option<string>)

  /** The committed tables. `registry` holds the fingerprint of every object's current definition. */
  datatype Lineage = Lineage(registry: map<Key, Bytes>, edges: set<Edge>, versions: map<Key, Version>)

  datatype Outcome = Committed | AnalysisGone | AnalysisStale

  // Object types.
  const TABLE := 4
  const VIEW := 5
  const MATERIALIZED_VIEW := 6
  const EXTERNAL_TABLE := 16
  const MANUAL_SQL := 18
  const APPLICATION_SQL := 19

  const LINEAGE_ENDPOINT_TYPES := {TABLE, VIEW, MATERIALIZED_VIEW, EXTERNAL_TABLE}
  const LINEAGE_PRODUCER_TYPES := {VIEW, MATERIALIZED_VIEW}

  /** Statements users and applications register, which no schema sync deletes. */
  const STATEMENT_TYPES := {MANUAL_SQL, APPLICATION_SQL}

  // ----- Statements -----

  /** lockAnalysisState */
  function StateOf(l: Lineage, key: Key, expected: Bytes): Outcome {
    if key !in l.registry then AnalysisGone
    else if l.registry[key] != expected then AnalysisStale
    else Committed
  }

  function EdgesOf(edges: set<Edge>, key: Key): set<Edge> {
    set e | e in edges && e.producer == key
  }

  function WithVersion(l: Lineage, key: Key, version: Version): Lineage {
    l.(versions := l.versions[key := version])
  }

  function WithEdges(l: Lineage, key: Key, lineages: set<Edge>): Lineage {
    l.(edges := (l.edges - EdgesOf(l.edges, key)) + lineages)
  }

  function Replaced(l: Lineage, key: Key, expected: Bytes, lineages: set<Edge>, errorMessage: Option<string>): Lineage {
    WithVersion(WithEdges(l, key, lineages), key, Version(expected, errorMessage))
  }

  function Endpoints(keys: set<Key>): set<Key> {
    set key | key in keys && key.objectType in LINEAGE_ENDPOINT_TYPES
  }

  function Producers(keys: set<Key>): set<Key> {
    set key | key in keys && key.objectType in LINEAGE_PRODUCER_TYPES
  }

  /** The edges a delete of the objects takes along: those that name one, and those one produced. */
  function DeletedEdges(edges: set<Edge>, keys: set<Key>): set<Edge> {
    set e | e in edges && (e.source in Endpoints(keys) || e.target in Endpoints(keys) || e.producer in Producers(keys))
  }

  /** The same objects have a record, of the same definitions. */
  ghost predicate SameHashes(a: Lineage, b: Lineage) {
    a.versions.Keys == b.versions.Keys && forall key | key in a.versions :: a.versions[key].metaHash == b.versions[key].metaHash
  }

  /** The edges of one object are replaced, and no other edge. */
  ghost predicate EdgesReplaced(before: set<Edge>, after: set<Edge>, key: Key, lineages: set<Edge>) {
    forall e :: e in after <==> (e in before && e.producer != key) || e in lineages
  }

  /** One object's record is written, and no other. */
  ghost predicate VersionWritten(before: map<Key, Version>, after: map<Key, Version>, key: Key, metaHash: Bytes, errorMessage: Option<string>) {
    && after.Keys == before.Keys + {key} && after[key].metaHash == metaHash && after[key].errorMessage == errorMessage
    && forall other | other in before && other != key :: after[other] == before[other]
  }

  /** A deleted table (4), view (5), materialized view (6) or external table (16) is an endpoint, or a deleted view the producer. */
  predicate NamesDeleted(e: Edge, keys: seq<Key>) {
    || (e.source in keys && e.source.objectType in {4, 5, 6, 16})
    || (e.target in keys && e.target.objectType in {4, 5, 6, 16})
    || (e.producer in keys && e.producer.objectType in {5, 6})
  }

  class Store {
    var tables: Lineage

    constructor ()
      ensures tables == Lineage(map[], {}, map[])
    {
      tables := Lineage(map[], {}, map[]);
    }

    /** ReplaceColumnLineageIfCurrent */
    method ReplaceIfCurrent(key: Key, expected: Bytes, lineages: set<Edge>, errorMessage: Option<string>) returns (outcome: Outcome)
      modifies this
      ensures outcome == StateOf(old(tables), key, expected)
      ensures outcome == AnalysisGone <==> key !in old(tables).registry
      ensures outcome == Committed <==> key in old(tables).registry && old(tables).registry[key] == expected
      ensures tables.registry == old(tables).registry && (outcome != Committed ==> tables == old(tables))
      ensures tables == if outcome == Committed then Replaced(old(tables), key, expected, lineages, errorMessage) else old(tables)
      ensures outcome == Committed ==> EdgesReplaced(old(tables).edges, tables.edges, key, lineages)
      ensures outcome == Committed ==> VersionWritten(old(tables).versions, tables.versions, key, expected, errorMessage)
    {
      outcome := StateOf(tables, key, expected);
      if outcome != Committed {
        return;
      }
      DeleteEdgesAt(key);
      if |lineages| > 0 {
        tables := tables.(edges := tables.edges + lineages);
      }
      tables := WithVersion(tables, key, Version(expected, errorMessage));
    }

    /** deleteColumnLineageAt */
    method DeleteEdgesAt(key: Key)
      modifies this
      ensures tables == WithEdges(old(tables), key, {})
    {
      tables := tables.(edges := set e | e in tables.edges && e.producer != key);
    }

    /** MarkAnalyzedIfCurrent: a deliberate skip keeps the edges there are. */
    method MarkAnalyzedIfCurrent(key: Key, expected: Bytes, errorMessage: Option<string>) returns (outcome: Outcome)
      modifies this
      ensures outcome == StateOf(old(tables), key, expected)
      ensures outcome == AnalysisGone <==> key !in old(tables).registry
      ensures outcome == Committed <==> key in old(tables).registry && old(tables).registry[key] == expected
      ensures tables.registry == old(tables).registry && (outcome != Committed ==> tables == old(tables))
      ensures tables == if outcome == Committed then WithVersion(old(tables), key, Version(expected, errorMessage)) else old(tables)
      ensures tables.edges == old(tables).edges
      ensures outcome == Committed ==> VersionWritten(old(tables).versions, tables.versions, key, expected, errorMessage)
    {
      outcome := StateOf(tables, key, expected);
      if outcome == Committed {
        tables := WithVersion(tables, key, Version(expected, errorMessage));
      }
    }

    /** MarkAnalysisFailedIfCurrent */
    method MarkFailedIfCurrent(key: Key, expected: Bytes, errorMessage: string) returns (outcome: Outcome)
      modifies this
      ensures outcome == StateOf(old(tables), key, expected)
      ensures outcome == AnalysisGone <==> key !in old(tables).registry
      ensures outcome == Committed <==> key in old(tables).registry && old(tables).registry[key] == expected
      ensures tables.registry == old(tables).registry && (outcome != Committed ==> tables == old(tables))
      ensures tables == if outcome == Committed then Replaced(old(tables), key, expected, {}, Some(errorMessage)) else old(tables)
      ensures outcome == Committed ==> EdgesReplaced(old(tables).edges, tables.edges, key, {})
      ensures outcome == Committed ==> VersionWritten(old(tables).versions, tables.versions, key, expected, Some(errorMessage))
    {
      outcome := StateOf(tables, key, expected);
      if outcome == Committed {
        DeleteEdgesAt(key);
        tables := WithVersion(tables, key, Version(expected, Some(errorMessage)));
      }
    }

    /** RecordAnalysisError: the fingerprint stays, and a missing record is left missing. */
    method RecordError(key: Key, message: string)
      modifies this
      ensures tables == if key in old(tables).versions
                        then WithVersion(old(tables), key, Version(old(tables).versions[key].metaHash, Some(message)))
                        else old(tables)
      ensures tables.registry == old(tables).registry && tables.edges == old(tables).edges && SameHashes(old(tables), tables)
    {
      if key in tables.versions {
        tables := WithVersion(tables, key, tables.versions[key].(errorMessage := Some(message)));
      }
    }

    /** DeleteColumnLineageByMetaGUIDs */
    method DeleteByKeys(keys: seq<Key>)
      modifies this
      ensures var deleted := (set key | key in keys);
              tables == old(tables).(edges := old(tables).edges - DeletedEdges(old(tables).edges, deleted),
                                     versions := old(tables).versions - Producers(deleted))
      ensures forall e :: e in tables.edges <==> e in old(tables).edges && !NamesDeleted(e, keys)
      ensures forall key :: key in tables.versions <==> key in old(tables).versions && !(key in keys && key.objectType in {5, 6})
      ensures tables.registry == old(tables).registry
      ensures forall key | key in tables.versions :: tables.versions[key] == old(tables).versions[key]
    {
      ghost var before := tables;
      var endpoints, producers := SplitLineageDeletions(keys);
      var sources, owners := (set key | key in endpoints), (set key | key in producers);
      if |endpoints| > 0 {
        tables := tables.(edges := set e | e in tables.edges && e.source !in sources && e.target !in sources);
      }
      if |producers| > 0 {
        tables := tables.(edges := set e | e in tables.edges && e.producer !in owners);
        tables := tables.(versions := tables.versions - owners);
      }
      ghost var deleted := set key | key in keys;
      assert sources == Endpoints(deleted) && owners == Producers(deleted);
      assert tables.edges == before.edges - DeletedEdges(before.edges, deleted);
      assert tables.versions == before.versions - owners;
    }
  }

  /** splitLineageDeletions */
  method SplitLineageDeletions(keys: seq<Key>) returns (endpoints: seq<Key>, producers: seq<Key>)
    ensures forall key :: key in endpoints <==> key in keys && key.objectType in LINEAGE_ENDPOINT_TYPES
    ensures forall key :: key in producers <==> key in keys && key.objectType in LINEAGE_PRODUCER_TYPES
  {
    endpoints, producers := [], [];
    for i := 0 to |keys|
      invariant forall key :: key in endpoints <==> key in keys[..i] && key.objectType in LINEAGE_ENDPOINT_TYPES
      invariant forall key :: key in producers <==> key in keys[..i] && key.objectType in LINEAGE_PRODUCER_TYPES
    {
      assert keys[..i + 1] == keys[..i] + [keys[i]];
      if keys[i].objectType in LINEAGE_ENDPOINT_TYPES {
        endpoints := endpoints + [keys[i]];
      }
      if keys[i].objectType in LINEAGE_PRODUCER_TYPES {
        producers := producers + [keys[i]];
      }
    }
    assert keys[..|keys|] == keys;
  }
}
