// The cells of the vector index, the candidates of a search, and when probing clusters is exact.
//
// A vector and its metadata lie in two cells under one id. A pool is the set of ids that a search
// looks at: all stored ones, or those of the clusters it probes. RanksPool says that a list ranks
// the candidates of a pool, each once, in the order of the metric.

module VectorCells {
  import opened ByteStrings
  import opened KvKeys
  import opened Documents
  import opened Ranking
  import opened Vectors

  type Metadata = map<Bytes, Json>

  /** The packed floats and the JSON metadata, as values. */
  datatype Cell = Vector(v: Vec) | Meta(fields: Metadata)

  type Cells = map<Bytes, Cell>

  function VecPrefix(ns: Bytes): Bytes { "__VEC__:" + ns + ":" }

  function VecKey(ns: Bytes, id: Bytes): Bytes { VecPrefix(ns) + id }

  function MetaPrefix(ns: Bytes): Bytes { "__VMETA__:" + ns + ":" }

  function MetaKey(ns: Bytes, id: Bytes): Bytes { MetaPrefix(ns) + id }

  lemma KeysDiffer(ns: Bytes, a: Bytes, b: Bytes)
    ensures VecKey(ns, a) != MetaKey(ns, b) && VecKey(ns, a) != [] && MetaKey(ns, b) != []
    ensures (VecKey(ns, a) == VecKey(ns, b) <==> a == b) && (MetaKey(ns, a) == MetaKey(ns, b) <==> a == b)
  {
    assert VecKey(ns, a)[3] == 'E' && MetaKey(ns, b)[3] == 'M';
    SameTag(VecPrefix(ns), a, b);
    SameTag(MetaPrefix(ns), a, b);
  }

  // ---------- What is stored ----------

  ghost predicate VecsHold(m: Cells, ns: Bytes, vecs: map<Bytes, Vec>) {
    forall id :: Lookup(m, VecKey(ns, id)) == if id in vecs then Some(Vector(vecs[id])) else None
  }

  ghost predicate MetasHold(m: Cells, ns: Bytes, metas: map<Bytes, Metadata>) {
    forall id :: Lookup(m, MetaKey(ns, id)) == if id in metas then Some(Meta(metas[id])) else None
  }

  lemma NothingStored(ns: Bytes)
    ensures VecsHold(map[], ns, map[]) && MetasHold(map[], ns, map[])
  {
  }

  lemma PutVector(m: Cells, ns: Bytes, vecs: map<Bytes, Vec>, id: Bytes, v: Vec)
    requires VecsHold(m, ns, vecs)
    ensures VecsHold(m[VecKey(ns, id) := Vector(v)], ns, vecs[id := v])
    ensures VecsHold(m - {VecKey(ns, id)}, ns, vecs - {id})
  {
    hide VecKey;
    forall e
      ensures VecKey(ns, e) == VecKey(ns, id) <==> e == id
    {
      KeysDiffer(ns, e, id);
    }
  }

  lemma PutMeta(m: Cells, ns: Bytes, metas: map<Bytes, Metadata>, id: Bytes, x: Metadata)
    requires MetasHold(m, ns, metas)
    ensures MetasHold(m[MetaKey(ns, id) := Meta(x)], ns, metas[id := x])
    ensures MetasHold(m - {MetaKey(ns, id)}, ns, metas - {id})
  {
    hide MetaKey;
    forall e
      ensures MetaKey(ns, e) == MetaKey(ns, id) <==> e == id
    {
      KeysDiffer(ns, e, id);
    }
  }

  lemma MetasIgnoreVectors(m: Cells, ns: Bytes, metas: map<Bytes, Metadata>, id: Bytes, v: Cell)
    requires MetasHold(m, ns, metas)
    ensures MetasHold(m[VecKey(ns, id) := v], ns, metas) && MetasHold(m - {VecKey(ns, id)}, ns, metas)
  {
    hide MetaKey, VecKey;
    forall e
      ensures VecKey(ns, id) != MetaKey(ns, e)
    {
      KeysDiffer(ns, id, e);
    }
  }

  lemma VecsIgnoreMetas(m: Cells, ns: Bytes, vecs: map<Bytes, Vec>, id: Bytes, x: Cell)
    requires VecsHold(m, ns, vecs)
    ensures VecsHold(m[MetaKey(ns, id) := x], ns, vecs) && VecsHold(m - {MetaKey(ns, id)}, ns, vecs)
  {
    hide MetaKey, VecKey;
    forall e
      ensures VecKey(ns, e) != MetaKey(ns, id)
    {
      KeysDiffer(ns, e, id);
    }
  }

  lemma Stored(m: Cells, ns: Bytes, vecs: map<Bytes, Vec>, metas: map<Bytes, Metadata>, id: Bytes)
    requires VecsHold(m, ns, vecs) && MetasHold(m, ns, metas)
    ensures Lookup(m, VecKey(ns, id)) == if id in vecs then Some(Vector(vecs[id])) else None
    ensures Lookup(m, MetaKey(ns, id)) == if id in metas then Some(Meta(metas[id])) else None
  {
  }

  /** Only cells of the namespace have changed. */
  ghost predicate Framed(m: Cells, m': Cells, ns: Bytes) {
    forall k :: !(VecPrefix(ns) <= k) && !(MetaPrefix(ns) <= k) ==> Lookup(m', k) == Lookup(m, k)
  }

  lemma NothingWritten(m: Cells, ns: Bytes)
    ensures Framed(m, m, ns)
  {
  }

  lemma WriteIsFramed(m: Cells, m': Cells, ns: Bytes, id: Bytes, v: Cell)
    requires Framed(m, m', ns)
    ensures Framed(m, m'[VecKey(ns, id) := v], ns) && Framed(m, m'[MetaKey(ns, id) := v], ns)
    ensures Framed(m, m' - {VecKey(ns, id)}, ns) && Framed(m, m' - {MetaKey(ns, id)}, ns)
  {
    hide VecPrefix, MetaPrefix;
    assert VecPrefix(ns) <= VecKey(ns, id) && MetaPrefix(ns) <= MetaKey(ns, id);
  }

  /** all lists the stored vectors, each id once. */
  ghost predicate ListsVectors(all: seq<Entry>, vecs: map<Bytes, Vec>) {
    IdsDiffer(all) && forall x :: x in all <==> Lookup(vecs, x.id) == Some(x.v)
  }

  // ---------- Candidates of a search ----------

  function MetaOf(metas: map<Bytes, Metadata>, id: Bytes): Metadata {
    if id in metas then metas[id] else map[]
  }

  /** Every filter entry equals what meta.get gives, where a missing entry is None. */
  predicate Passes(meta: Metadata, filter: Metadata) {
    forall k :: k in filter ==> (if k in meta then meta[k] else Null) == filter[k]
  }

  /** What a search asks for. */
  datatype Query = Query(vector: Vec, metric: Metric, filter: Metadata)

  /** A stored vector that passes the filter, with its score. */
  predicate IsCandidate(sqrt: Root, q: Query, vecs: map<Bytes, Vec>, metas: map<Bytes, Metadata>, h: Hit<Bytes>)
    requires q.metric != UnknownMetric
  {
    && h.id in vecs
    && Passes(MetaOf(metas, h.id), q.filter)
    && h.score == Similarity(sqrt, q.vector, vecs[h.id], q.metric)
  }

  /** Cosine and dot products are better when greater, distances when smaller. */
  predicate Reverse(metric: Metric) {
    metric == CosineMetric || metric == DotMetric
  }

  /** ranked orders every candidate of the pool once, best first. */
  ghost predicate RanksPool(ranked: seq<Hit<Bytes>>, pool: set<Bytes>, sqrt: Root, q: Query,
                            vecs: map<Bytes, Vec>, metas: map<Bytes, Metadata>)
    requires q.metric != UnknownMetric
  {
    && Ordered(ranked, Reverse(q.metric)) && Distinct(ranked)
    && (forall h :: h in ranked <==> h.id in pool && IsCandidate(sqrt, q, vecs, metas, h))
  }

  /** The results are the stored vectors of the pool whose metadata agrees with every entry of the
      filter, each with the score of the metric; a missing entry reads as None. */
  ghost predicate Finds(ranked: seq<Hit<Bytes>>, pool: set<Bytes>, sqrt: Root, q: Query, vecs: map<Bytes, Vec>,
                        metas: map<Bytes, Metadata>)
  {
    && (forall id :: (exists h :: h in ranked && h.id == id)
          <==> && id in pool && id in vecs
               && forall k :: k in q.filter ==>
                    q.filter[k] == if id in metas && k in metas[id] then metas[id][k] else Null)
    && (forall h :: h in ranked && h.id in vecs ==>
          && (q.metric == CosineMetric ==> h.score == Cosine(sqrt, q.vector, vecs[h.id]))
          && (q.metric == EuclideanMetric ==> h.score == Distance(sqrt, q.vector, vecs[h.id]))
          && (q.metric == DotMetric ==> h.score == Dot(q.vector, vecs[h.id])))
  }

  lemma RankedIsFound(ranked: seq<Hit<Bytes>>, pool: set<Bytes>, sqrt: Root, q: Query, vecs: map<Bytes, Vec>,
                      metas: map<Bytes, Metadata>)
    requires q.metric != UnknownMetric && RanksPool(ranked, pool, sqrt, q, vecs, metas)
    ensures Finds(ranked, pool, sqrt, q, vecs, metas)
  {
    hide Cosine, Distance, Dot, Ordered, Distinct;
    forall id
      ensures (exists h :: h in ranked && h.id == id)
         <==> id in pool && id in vecs && Passes(MetaOf(metas, id), q.filter)
    {
      if id in pool && id in vecs && Passes(MetaOf(metas, id), q.filter) {
        assert Hit(Similarity(sqrt, q.vector, vecs[id], q.metric), id) in ranked;
      }
    }
  }

  /** The ids in the clusters of some centroids. */
  function Pool(clusters: map<nat, seq<Bytes>>, probes: seq<Hit<nat>>): set<Bytes> {
    set i, j | 0 <= i < |probes| && probes[i].id in clusters && 0 <= j < |clusters[probes[i].id]| ::
            clusters[probes[i].id][j]
  }

  /** probes orders all centroids, the most similar first. */
  ghost predicate RanksCentroids(probes: seq<Hit<nat>>, sqrt: Root, query: Vec, centroids: seq<Vec>) {
    && Ordered(probes, true) && Distinct(probes)
    && (forall h: Hit<nat> :: h in probes <==> h.id < |centroids| && h.score == Cosine(sqrt, query, centroids[h.id]))
  }

  predicate InSome(clusters: map<nat, seq<Bytes>>, id: Bytes) {
    exists c :: c in clusters && id in clusters[c]
  }

  /** Every stored vector lies in some cluster. */
  predicate Clustered(vecs: map<Bytes, Vec>, clusters: map<nat, seq<Bytes>>) {
    forall id :: id in vecs ==> InSome(clusters, id)
  }

  /** Probing all clusters reaches exactly the clustered ids. */
  lemma FullPool(probes: seq<Hit<nat>>, sqrt: Root, query: Vec, centroids: seq<Vec>, clusters: map<nat, seq<Bytes>>,
                 id: Bytes)
    requires RanksCentroids(probes, sqrt, query, centroids) && forall c: nat :: c in clusters <==> c < |centroids|
    ensures id in Pool(clusters, probes) <==> InSome(clusters, id)
  {
    hide Cosine, Ordered, Distinct;
    if c :| c in clusters && id in clusters[c] {
      var h := Hit(Cosine(sqrt, query, centroids[c]), c);
      assert h in probes;
      var i :| 0 <= i < |probes| && probes[i] == h;
      var j :| 0 <= j < |clusters[c]| && clusters[c][j] == id;
      assert clusters[probes[i].id][j] in Pool(clusters, probes);
    }
  }

  /** A full probe and the exact scan rank the same candidates exactly when every candidate
      is clustered; then their first k scores agree for every k. */
  lemma FullProbeIsExact(byCluster: seq<Hit<Bytes>>, exact: seq<Hit<Bytes>>, probes: seq<Hit<nat>>, sqrt: Root,
                         q: Query,
                         vecs: map<Bytes, Vec>, metas: map<Bytes, Metadata>, centroids: seq<Vec>,
                             clusters: map<nat, seq<Bytes>>)
    requires q.metric != UnknownMetric
    requires RanksCentroids(probes, sqrt, q.vector, centroids) && forall c: nat :: c in clusters <==> c < |centroids|
    requires RanksPool(byCluster, Pool(clusters, probes), sqrt, q, vecs, metas)
    requires RanksPool(exact, vecs.Keys, sqrt, q, vecs, metas)
    ensures (forall h :: h in byCluster <==> h in exact) <==> (forall h :: h in exact ==> InSome(clusters, h.id))
    ensures Clustered(vecs, clusters) ==> forall k :: Scores(Limited(byCluster, k)) == Scores(Limited(exact, k))
  {
    hide Ordered, Distinct, Pool, RanksCentroids, IsCandidate, Similarity, InSome;
    CandidatesAreStored(sqrt, q, vecs, metas);
    forall h: Hit<Bytes>
      ensures h in exact <==> IsCandidate(sqrt, q, vecs, metas, h)
      ensures h in byCluster <==> h in exact && InSome(clusters, h.id)
    {
      FullPool(probes, sqrt, q.vector, centroids, clusters, h.id);
    }
    if Clustered(vecs, clusters) {
      SameScores(byCluster, exact, Reverse(q.metric));
    }
  }

  lemma CandidatesAreStored(sqrt: Root, q: Query, vecs: map<Bytes, Vec>, metas: map<Bytes, Metadata>)
    requires q.metric != UnknownMetric
    ensures forall h :: IsCandidate(sqrt, q, vecs, metas, h) ==> h.id in vecs
  {
  }
}
