// The vector index: storing vectors, training clusters, and searching exactly or by cluster.
//
// The ghost fields vecs and metas map ids to the stored vectors and metadata. Train takes its
// first centroids from a sample that is a parameter, repeats the two k-means steps (assign every
// vector to its nearest centroid, move every centroid to the mean of its vectors), and leaves
// each stored id in the cluster of its nearest centroid. Search ranks the candidates of a pool:
// all stored vectors, or those in the clusters nearest to the query. The two agree exactly when
// every candidate is clustered, which later inserts of new ids do not keep.

module VectorIndex {
  import opened ByteStrings
  import opened Store
  import opened Ranking
  import opened Vectors
  import opened VectorCells
  import Tables

  class VectorIndex {
    const lsm: KeyStore<Cell>
    const ns: Bytes
    const sqrt: Root
    const pack: Vec -> Bytes
    var dimension: Option<nat>
    var centroids: seq<Vec>
    var clusters: map<nat, seq<Bytes>>
    ghost var vecs: map<Bytes, Vec>
    ghost var metas: map<Bytes, Metadata>

    /** The store deletes a vector whose packed floats are the tombstone constant, and nothing else. */
    ghost predicate OnTree() {
      (forall v :: lsm.dies(Vector(v)) <==> pack(v) == Tables.TOMBSTONE) && (forall x :: !lsm.dies(Meta(x)))
    }

    ghost predicate Valid()
      reads this, lsm
    {
      && OnTree()
      && VecsHold(lsm.m, ns, vecs) && MetasHold(lsm.m, ns, metas)
      && (forall id :: id in vecs ==> dimension == Some(|vecs[id]|))
      && (forall c: nat :: c in clusters <==> c < |centroids|)
    }

    constructor (lsm: KeyStore<Cell>, ns: Bytes, dimension: Option<nat>, sqrt: Root, pack: Vec -> Bytes,
                 ghost vecs: map<Bytes, Vec>, ghost metas: map<Bytes, Metadata>)
      requires (forall v :: lsm.dies(Vector(v)) <==> pack(v) == Tables.TOMBSTONE) && forall x :: !lsm.dies(Meta(x))
      requires VecsHold(lsm.m, ns, vecs) && MetasHold(lsm.m, ns, metas)
      requires forall id :: id in vecs ==> dimension == Some(|vecs[id]|)
      ensures Valid() && this.lsm == lsm && this.ns == ns && this.sqrt == sqrt && this.pack == pack
      ensures this.dimension == dimension
      ensures centroids == [] && this.vecs == vecs && this.metas == metas
    {
      hide VecsHold, MetasHold;
      this.lsm, this.ns, this.sqrt, this.pack, this.dimension := lsm, ns, sqrt, pack, dimension;
      this.centroids, this.clusters := [], map[];
      this.vecs, this.metas := vecs, metas;
    }

    /** false is the ValueError for a wrong dimension. Empty metadata leaves the stored one. A
        vector that packs to the tombstone constant is not stored, and one already there goes. */
    method Insert(id: Bytes, vector: Vec, metadata: Metadata) returns (ok: bool)
      requires Valid()
      modifies this`dimension, this`vecs, this`metas, lsm
      ensures Valid() && Framed(old(lsm.m), lsm.m, ns)
      ensures ok <==> old(dimension) == None || old(dimension) == Some(|vector|)
      ensures dimension == if ok then Some(|vector|) else old(dimension)
      ensures !ok ==> vecs == old(vecs) && metas == old(metas)
      ensures ok ==> vecs == if pack(vector) == Tables.TOMBSTONE then old(vecs) - {id} else old(vecs)[id := vector]
      ensures ok ==> metas == if metadata == map[] then old(metas) else old(metas)[id := metadata]
      ensures old(Clustered(vecs, clusters)) && id in old(vecs) ==> Clustered(vecs, clusters)
    {
      hide VecsHold, MetasHold, VecKey, MetaKey, Framed;
      NothingWritten(lsm.m, ns);
      if dimension == None {
        dimension := Some(|vector|);
      } else if |vector| != dimension.value {
        return false;
      }
      KeysDiffer(ns, id, id);
      PutVector(lsm.m, ns, vecs, id, vector);
      MetasIgnoreVectors(lsm.m, ns, metas, id, Vector(vector));
      WriteIsFramed(lsm.m, lsm.m, ns, id, Vector(vector));
      lsm.Put(VecKey(ns, id), Vector(vector));
      vecs := if pack(vector) == Tables.TOMBSTONE then vecs - {id} else vecs[id := vector];
      if metadata != map[] {
        PutMeta(lsm.m, ns, metas, id, metadata);
        VecsIgnoreMetas(lsm.m, ns, vecs, id, Meta(metadata));
        WriteIsFramed(old(lsm.m), lsm.m, ns, id, Meta(metadata));
        lsm.Put(MetaKey(ns, id), Meta(metadata));
        metas := metas[id := metadata];
      }
      return true;
    }

    method Get(id: Bytes) returns (r: Option<(Vec, Metadata)>)
      requires Valid()
      ensures r == if id in vecs then Some((vecs[id], MetaOf(metas, id))) else None
    {
      hide VecsHold, MetasHold, VecKey, MetaKey;
      Stored(lsm.m, ns, vecs, metas, id);
      var raw := lsm.Get(VecKey(ns, id));
      if raw == None || !raw.value.Vector? {
        return None;
      }
      var meta := lsm.Get(MetaKey(ns, id));
      return Some((raw.value.v, if meta.Some? && meta.value.Meta? then meta.value.fields else map[]));
    }

    method Delete(id: Bytes) returns (existed: bool)
      requires Valid()
      modifies this`vecs, this`metas, lsm
      ensures Valid() && Framed(old(lsm.m), lsm.m, ns)
      ensures existed <==> id in old(vecs)
      ensures vecs == old(vecs) - {id} && metas == if existed then old(metas) - {id} else old(metas)
      ensures old(Clustered(vecs, clusters)) ==> Clustered(vecs, clusters)
    {
      hide VecsHold, MetasHold, VecKey, MetaKey, Framed;
      NothingWritten(lsm.m, ns);
      Stored(lsm.m, ns, vecs, metas, id);
      var raw := lsm.Get(VecKey(ns, id));
      if raw == None {
        assert vecs - {id} == vecs;
        return false;
      }
      KeysDiffer(ns, id, id);
      PutVector(lsm.m, ns, vecs, id, []);
      MetasIgnoreVectors(lsm.m, ns, metas, id, Vector([]));
      WriteIsFramed(lsm.m, lsm.m, ns, id, Vector([]));
      lsm.Delete(VecKey(ns, id));
      vecs := vecs - {id};
      PutMeta(lsm.m, ns, metas, id, map[]);
      VecsIgnoreMetas(lsm.m, ns, vecs, id, Meta(map[]));
      WriteIsFramed(old(lsm.m), lsm.m, ns, id, Meta(map[]));
      lsm.Delete(MetaKey(ns, id));
      metas := metas - {id};
      return true;
    }

    /** The scan over all stored vectors. */
    method AllVectors() returns (all: seq<Entry>)
      requires Valid()
      ensures ListsVectors(all, vecs)
    {
      hide VecsHold, MetasHold, VecPrefix, ListsPrefix;
      var found := lsm.ScanPrefix(VecPrefix(ns));
      all := [];
      for i := 0 to |found|
        invariant |all| == i
        invariant forall j :: 0 <= j < i ==> VecPrefix(ns) <= found[j].key
        invariant forall j :: 0 <= j < i ==>
                      found[j].value == Vector(all[j].v) && all[j].id == found[j].key[|VecPrefix(ns)|..]
      {
        FoundIsVector(found, lsm.m, ns, vecs, i);
        all := all + [Entry(found[i].key[|VecPrefix(ns)|..], found[i].value.v)];
      }
      FoundAreListed(found, lsm.m, ns, vecs, all);
    }

    /** train_ivf: k-means from the vectors at the sampled positions, then every vector joins its
        nearest centroid. With fewer vectors than clusters nothing changes; false is the
        exception for a cluster count below one. */
    method Train(n: int, iters: int, positions: seq<nat>) returns (ok: bool, ghost all: seq<Entry>)
      requires Valid()
      requires 1 <= n <= |vecs| ==> |positions| == n && InRange(positions, |vecs|)
      modifies this`centroids, this`clusters
      ensures Valid() && ListsVectors(all, vecs) && |all| == |vecs|
      ensures ok <==> n >= 1
      ensures !(1 <= n <= |vecs|) ==> centroids == old(centroids) && clusters == old(clusters)
      ensures 1 <= n <= |vecs| ==>
                && IsTrained(sqrt, all, positions, if iters < 0 then 0 else iters, centroids, clusters)
                && |centroids| == n && Clustered(vecs, clusters)
    {
      hide VecsHold, MetasHold, Trained, Refined, ListsVectors, Assigned, Clustered, Sampled;
      var vectors := AllVectors();
      all := vectors;
      ListedCount(all, vecs);
      if |vectors| < n {
        return n >= 1, all;
      }
      if n <= 0 {
        return false, all;
      }
      var cents := Sampled(vectors, positions);
      ghost var sample := cents;
      var dim := |cents[0]|;
      ListedDim(all, vecs, positions, dimension.value);
      var i := 0;
      TrainedStart(sqrt, all, sample, dim);
      while i < iters
        invariant 0 <= i && (i <= iters || i == 0) && |cents| == n && SameDim(all, cents, dim)
        invariant cents == Trained(sqrt, all, sample, dim, i)
      {
        TrainedStep(sqrt, all, sample, dim, i);
        cents := Refine(sqrt, vectors, cents, dim);
        i := i + 1;
      }
      centroids := cents;
      clusters := Assign(sqrt, vectors, cents);
      TrainedIsClustered(sqrt, all, vecs, cents, clusters);
      return true, all;
    }

    /** The ids in the nearest clusters. */
    method Probe(query: Vec, nProbe: int) returns (ids: set<Bytes>, ghost probes: seq<Hit<nat>>)
      requires forall c: nat :: c in clusters <==> c < |centroids|
      ensures RanksCentroids(probes, sqrt, query, centroids) && ids == Pool(clusters, Limited(probes, nProbe))
      ensures IsTop(Limited(probes, nProbe), probes)
    {
      hide Cosine, Limited;
      var scored := ScoreCentroids(sqrt, query, centroids);
      var ranked := SortByScore(scored, true);
      probes := ranked;
      CutKeepsBest(ranked, nProbe, true);
      var top := Limited(ranked, nProbe);
      ids := {};
      assert top[..0] == [];
      for i := 0 to |top|
        invariant ids == Pool(clusters, top[..i])
      {
        var c := top[i].id;
        PoolStep(clusters, top, i);
        if c in clusters {
          ids := ids + IdsOf(clusters[c]);
        }
      }
      assert top[..|top|] == top;
    }

    /** The loop over the probed ids; ids without a stored vector are skipped. */
    method CandidatesIn(ids: set<Bytes>, q: Query) returns (raised: bool, hits: seq<Hit<Bytes>>)
      requires Valid()
      ensures q.metric == UnknownMetric ==>
                  (raised <==> exists id :: id in ids && id in vecs && Passes(MetaOf(metas, id), q.filter))
      ensures q.metric != UnknownMetric ==>
                && !raised && Distinct(hits)
                && forall h :: h in hits <==> h.id in ids && IsCandidate(sqrt, q, vecs, metas, h)
    {
      hide VecsHold, MetasHold, Similarity, Passes, Distinct;
      hits := [];
      EmptyRanks<Bytes>(true);
      var rest := ids;
      while rest != {}
        invariant rest <= ids
        invariant q.metric == UnknownMetric ==>
                    forall id :: id in ids && id in vecs && Passes(MetaOf(metas, id), q.filter) ==> id in rest
        invariant q.metric != UnknownMetric ==>
                    && Distinct(hits)
                    && forall h :: h in hits <==> h.id in ids && h.id !in rest && IsCandidate(sqrt, q, vecs, metas, h)
        decreases rest
      {
        var id :| id in rest;
        rest := rest - {id};
        var found := Get(id);
        if found.Some? && Passes(found.value.1, q.filter) {
          if q.metric == UnknownMetric {
            return true, [];
          }
          var h := Hit(Similarity(sqrt, q.vector, found.value.0, q.metric), id);
          OneMoreHit(hits, h);
          hits := hits + [h];
        }
      }
      return false, hits;
    }

    /** The loop of the exact scan over all stored vectors. */
    method CandidatesByScan(q: Query) returns (raised: bool, hits: seq<Hit<Bytes>>)
      requires Valid()
      ensures q.metric == UnknownMetric ==> (raised <==> exists id :: id in vecs && Passes(MetaOf(metas, id), q.filter))
      ensures q.metric != UnknownMetric ==>
                && !raised && Distinct(hits)
                && forall h :: h in hits <==> IsCandidate(sqrt, q, vecs, metas, h)
    {
      hide VecsHold, MetasHold, Similarity, Passes, Distinct, ListsVectors, MetaKey;
      hits := [];
      EmptyRanks<Bytes>(true);
      var all := AllVectors();
      NoIds(all);
      for i := 0 to |all|
        invariant q.metric == UnknownMetric ==>
                    forall id :: id in IdSet(all[..i]) ==> !Passes(MetaOf(metas, id), q.filter)
        invariant q.metric != UnknownMetric ==>
                    && Distinct(hits)
                    && forall h :: h in hits <==> h.id in IdSet(all[..i]) && IsCandidate(sqrt, q, vecs, metas, h)
      {
        var id := all[i].id;
        ListedVector(all, vecs, i);
        Stored(lsm.m, ns, vecs, metas, id);
        var raw := lsm.Get(MetaKey(ns, id));
        var meta := if raw.Some? && raw.value.Meta? then raw.value.fields else map[];
        if Passes(meta, q.filter) {
          if q.metric == UnknownMetric {
            return true, [];
          }
          var h := Hit(Similarity(sqrt, q.vector, all[i].v, q.metric), id);
          OneMoreHit(hits, h);
          hits := hits + [h];
        }
      }
      assert all[..|all|] == all;
      AllListed(all, vecs);
      return false, hits;
    }

    /** Probes the nearest clusters when there are at least nProbe of them, else scans all
        vectors. None is the ValueError for an unknown metric, raised at the first candidate. */
    method Search(q: Query, topK: int, nProbe: int)
      returns (r: Option<seq<Hit<Bytes>>>, ghost ranked: seq<Hit<Bytes>>, ghost probes: seq<Hit<nat>>)
      requires Valid()
      ensures var pool := SearchPool(vecs, centroids, clusters, probes, nProbe);
              && (ByCluster(centroids, nProbe) ==> RanksCentroids(probes, sqrt, q.vector, centroids))
              && (q.metric == UnknownMetric ==>
                    (r == None <==> exists id :: id in pool && id in vecs && Passes(MetaOf(metas, id), q.filter)))
              && (q.metric != UnknownMetric ==>
                    && RanksPool(ranked, pool, sqrt, q, vecs, metas) && r == Some(Limited(ranked, topK))
                    && Finds(ranked, pool, sqrt, q, vecs, metas))
              && (q.metric == CosineMetric || q.metric == DotMetric ==> IsTop(r.value, ranked))
              && (q.metric == EuclideanMetric ==> IsBottom(r.value, ranked))
    {
      hide VecsHold, MetasHold, Similarity, Passes, Distinct, RanksCentroids, Pool, Ordered, Limited, Finds, IsTop,
        IsBottom;
      ranked, probes := [], [];
      var raised, hits;
      if |centroids| != 0 && |centroids| >= nProbe {
        var ids;
        ids, probes := Probe(q.vector, nProbe);
        raised, hits := CandidatesIn(ids, q);
      } else {
        raised, hits := CandidatesByScan(q);
      }
      if raised {
        return None, ranked, probes;
      }
      if q.metric != UnknownMetric {
        hits := SortByScore(hits, Reverse(q.metric));
        CutKeepsBest(hits, topK, Reverse(q.metric));
        RankedIsFound(hits, SearchPool(vecs, centroids, clusters, probes, nProbe), sqrt, q, vecs, metas);
      }
      ranked := hits;
      return Some(Limited(hits, topK)), ranked, probes;
    }
  }

  predicate ByCluster(centroids: seq<Vec>, nProbe: int) {
    |centroids| != 0 && |centroids| >= nProbe
  }

  /** The ids a search looks at. */
  function SearchPool(vecs: map<Bytes, Vec>, centroids: seq<Vec>, clusters: map<nat, seq<Bytes>>,
                      probes: seq<Hit<nat>>, nProbe: int): set<Bytes>
  {
    if ByCluster(centroids, nProbe) then Pool(clusters, Limited(probes, nProbe)) else vecs.Keys
  }

  /** With as many probes as centroids the pool is that of all clusters. */
  lemma FullProbePool(sqrt: Root, query: Vec, vecs: map<Bytes, Vec>, centroids: seq<Vec>,
                      clusters: map<nat, seq<Bytes>>, probes: seq<Hit<nat>>)
    requires centroids != [] && RanksCentroids(probes, sqrt, query, centroids)
    ensures SearchPool(vecs, centroids, clusters, probes, |centroids|) == Pool(clusters, probes)
  {
    hide Pool, Cosine;
    var all := AllHits(sqrt, query, centroids, |centroids|);
    ElementsCount(all);
    ElementsCount(probes);
    assert Elements(probes) == Elements(all);
    assert Limited(probes, |centroids|) == probes;
  }

  /** Asking for as many probes as there are centroids searches all clusters, asking for one more
      scans everything. Both rank the same candidates exactly when every candidate is
      clustered; if every stored vector is, the first k scores agree for every k. */
  lemma ProbeAllOrScan(byCluster: seq<Hit<Bytes>>, exact: seq<Hit<Bytes>>, probes: seq<Hit<nat>>, sqrt: Root, q: Query,
                       vecs: map<Bytes, Vec>, metas: map<Bytes, Metadata>, centroids: seq<Vec>,
                           clusters: map<nat, seq<Bytes>>)
    requires q.metric != UnknownMetric && centroids != []
    requires RanksCentroids(probes, sqrt, q.vector, centroids) && forall c: nat :: c in clusters <==> c < |centroids|
    requires RanksPool(byCluster, SearchPool(vecs, centroids, clusters, probes, |centroids|), sqrt, q, vecs, metas)
    requires RanksPool(exact, SearchPool(vecs, centroids, clusters, probes, |centroids| + 1), sqrt, q, vecs, metas)
    ensures (forall h :: h in byCluster <==> h in exact) <==> (forall h :: h in exact ==> InSome(clusters, h.id))
    ensures Clustered(vecs, clusters) ==> forall k :: Scores(Limited(byCluster, k)) == Scores(Limited(exact, k))
  {
    hide RanksCentroids, RanksPool, Pool, Limited, Clustered, InSome;
    FullProbePool(sqrt, q.vector, vecs, centroids, clusters, probes);
    FullProbeIsExact(byCluster, exact, probes, sqrt, q, vecs, metas, centroids, clusters);
  }

  /** The scores of the first n centroids. */
  function AllHits(sqrt: Root, query: Vec, centroids: seq<Vec>, n: nat): (r: seq<Hit<nat>>)
    requires n <= |centroids|
    ensures |r| == n
    ensures forall i :: 0 <= i < n ==> r[i] == Hit(Cosine(sqrt, query, centroids[i]), i)
  {
    seq(n, i requires 0 <= i < n => Hit(Cosine(sqrt, query, centroids[i]), i))
  }

  method ScoreCentroids(sqrt: Root, query: Vec, centroids: seq<Vec>) returns (scored: seq<Hit<nat>>)
    ensures Distinct(scored)
    ensures forall h: Hit<nat> :: h in scored <==> h.id < |centroids| && h.score == Cosine(sqrt, query, centroids[h.id])
  {
    hide Cosine;
    scored := AllHits(sqrt, query, centroids, |centroids|);
    forall h: Hit<nat> | h.id < |centroids| && h.score == Cosine(sqrt, query, centroids[h.id])
      ensures h in scored
    {
      assert scored[h.id] == h;
    }
  }

  function IdsOf(ids: seq<Bytes>): set<Bytes> {
    set id | id in ids
  }

  lemma PoolStep(clusters: map<nat, seq<Bytes>>, top: seq<Hit<nat>>, i: nat)
    requires i < |top|
    ensures Pool(clusters, top[..i + 1])
         == Pool(clusters, top[..i]) + if top[i].id in clusters then IdsOf(clusters[top[i].id]) else {}
  {
    var before, after := Pool(clusters, top[..i]), Pool(clusters, top[..i + 1]);
    var added := if top[i].id in clusters then IdsOf(clusters[top[i].id]) else {};
    forall id
      ensures id in after <==> id in before + added
    {
      if id in after {
        var k, j :| 0 <= k < i + 1 && top[..i + 1][k].id in clusters && 0 <= j < |clusters[top[..i + 1][k].id]|
          && clusters[top[..i + 1][k].id][j] == id;
        if k < i {
          assert top[..i][k] == top[k];
          assert clusters[top[..i][k].id][j] in before;
        }
      }
      if id in before {
        var k, j :| 0 <= k < i && top[..i][k].id in clusters && 0 <= j < |clusters[top[..i][k].id]|
          && clusters[top[..i][k].id][j] == id;
        assert top[..i + 1][k] == top[k];
        assert clusters[top[..i + 1][k].id][j] in after;
      }
      if id in added {
        var j :| 0 <= j < |clusters[top[i].id]| && clusters[top[i].id][j] == id;
        assert clusters[top[..i + 1][i].id][j] in after;
      }
    }
  }

  lemma NoIds(all: seq<Entry>)
    ensures IdSet(all[..0]) == {}
  {
  }

  /** The next listed vector is stored, and its id is new. */
  lemma ListedVector(all: seq<Entry>, vecs: map<Bytes, Vec>, i: nat)
    requires ListsVectors(all, vecs) && i < |all|
    ensures Lookup(vecs, all[i].id) == Some(all[i].v) && all[i].id !in IdSet(all[..i])
    ensures IdSet(all[..i + 1]) == IdSet(all[..i]) + {all[i].id}
  {
    assert all[i] in all;
    assert all[..i + 1] == all[..i] + [all[i]];
    assert forall x :: x in all[..i + 1] <==> x in all[..i] || x == all[i];
  }

  lemma AllListed(all: seq<Entry>, vecs: map<Bytes, Vec>)
    requires ListsVectors(all, vecs)
    ensures IdSet(all) == vecs.Keys
  {
    forall id | id in vecs
      ensures id in IdSet(all)
    {
      assert Entry(id, vecs[id]) in all;
    }
    forall id | id in IdSet(all)
      ensures id in vecs
    {
      var x :| x in all && x.id == id;
      assert Lookup(vecs, x.id) == Some(x.v);
    }
  }

  predicate InRange(positions: seq<nat>, n: nat) {
    forall i :: 0 <= i < |positions| ==> positions[i] < n
  }

  /** The vectors at the sampled positions. */
  function Sampled(all: seq<Entry>, positions: seq<nat>): (r: seq<Vec>)
    requires InRange(positions, |all|)
    ensures |r| == |positions| && forall i :: 0 <= i < |r| ==> r[i] == all[positions[i]].v
  {
    seq(|positions|, i requires 0 <= i < |positions| => all[positions[i]].v)
  }

  /** The centroids are the sample after the iterations, and each cluster holds exactly the ids
      whose vectors are nearest to its centroid. */
  ghost predicate IsTrained(sqrt: Root, all: seq<Entry>, positions: seq<nat>, iters: nat,
                            centroids: seq<Vec>, clusters: map<nat, seq<Bytes>>)
  {
    && positions != [] && InRange(positions, |all|)
    && var sample := Sampled(all, positions);
    && SameDim(all, sample, |sample[0]|)
    && centroids == Trained(sqrt, all, sample, |sample[0]|, iters)
    && (forall c: nat :: c in clusters <==> c < |centroids|)
    && (forall c :: c in clusters ==> clusters[c] == Assigned(sqrt, all, centroids, c))
  }

  /** After training every stored id lies once in the cluster of its nearest centroid, in no
      other cluster, and no other id lies in any cluster. */
  lemma TrainingPartitions(sqrt: Root, all: seq<Entry>, positions: seq<nat>, iters: nat, centroids: seq<Vec>,
                           clusters: map<nat, seq<Bytes>>, vecs: map<Bytes, Vec>, c: nat, id: Bytes)
    requires IsTrained(sqrt, all, positions, iters, centroids, clusters) && ListsVectors(all, vecs) && c in clusters
    ensures multiset(clusters[c])[id] == if id in vecs && Best(sqrt, vecs[id], centroids) == c then 1 else 0
  {
    hide Best, Trained, Assigned;
    if id in vecs {
      assert Entry(id, vecs[id]) in all;
      var i :| 0 <= i < |all| && all[i] == Entry(id, vecs[id]);
      ClustersPartition(sqrt, all, centroids, c, i);
    } else {
      forall i | 0 <= i < |all|
        ensures all[i].id != id
      {
        assert all[i] in all;
      }
      OnlyListedIds(sqrt, all, centroids, c, id);
    }
  }

  lemma TrainedIsClustered(sqrt: Root, all: seq<Entry>, vecs: map<Bytes, Vec>, centroids: seq<Vec>,
                           clusters: map<nat, seq<Bytes>>)
    requires centroids != [] && ListsVectors(all, vecs)
    requires forall c: nat :: c in clusters <==> c < |centroids|
    requires forall c :: c in clusters ==> clusters[c] == Assigned(sqrt, all, centroids, c)
    ensures Clustered(vecs, clusters)
  {
    hide Assigned, Cosine;
    forall id | id in vecs
      ensures InSome(clusters, id)
    {
      assert Entry(id, vecs[id]) in all;
      var i :| 0 <= i < |all| && all[i] == Entry(id, vecs[id]);
      var c := Best(sqrt, vecs[id], centroids);
      ClustersPartition(sqrt, all, centroids, c, i);
      assert id in clusters[c];
    }
  }

  lemma TrainedStart(sqrt: Root, all: seq<Entry>, sample: seq<Vec>, dim: nat)
    requires sample != [] && SameDim(all, sample, dim)
    ensures Trained(sqrt, all, sample, dim, 0) == sample
  {
  }

  lemma TrainedStep(sqrt: Root, all: seq<Entry>, sample: seq<Vec>, dim: nat, i: nat)
    requires sample != [] && SameDim(all, sample, dim)
    ensures Trained(sqrt, all, sample, dim, i + 1) == Refined(sqrt, all, Trained(sqrt, all, sample, dim, i), dim)
  {
  }

  lemma ListedDim(all: seq<Entry>, vecs: map<Bytes, Vec>, positions: seq<nat>, dim: nat)
    requires ListsVectors(all, vecs) && forall id :: id in vecs ==> |vecs[id]| == dim
    requires positions != [] && InRange(positions, |all|)
    ensures SameDim(all, Sampled(all, positions), dim) && |Sampled(all, positions)[0]| == dim
  {
    forall x | x in all
      ensures |x.v| == dim
    {
      assert Lookup(vecs, x.id) == Some(x.v);
    }
  }

  lemma ListedCount(all: seq<Entry>, vecs: map<Bytes, Vec>)
    requires ListsVectors(all, vecs)
    ensures |all| == |vecs|
  {
    IdCount(all);
    AllListed(all, vecs);
    assert |vecs| == |vecs.Keys|;
  }

  function IdSet(all: seq<Entry>): set<Bytes> {
    set x | x in all :: x.id
  }

  lemma {:induction false} IdCount(all: seq<Entry>)
    requires IdsDiffer(all)
    ensures |IdSet(all)| == |all|
  {
    if all != [] {
      var init, last := all[..|all| - 1], all[|all| - 1];
      IdCount(init);
      assert all == init + [last];
      assert forall x :: x in init ==> x.id != last.id;
      assert IdSet(all) == IdSet(init) + {last.id};
    }
  }

  /** {i: [] for i in range(n)}. */
  function AllEmpty<T>(n: nat): (r: map<nat, seq<T>>)
    ensures forall c: nat :: c in r <==> c < n
    ensures forall c :: c in r ==> r[c] == []
  {
    if n == 0 then map[] else AllEmpty(n - 1)[n - 1 := []]
  }

  lemma PointsOfNone(sqrt: Root, all: seq<Entry>, cents: seq<Vec>)
    requires cents != []
    ensures forall c :: Points(sqrt, all[..0], cents, c) == []
  {
  }

  lemma PointsStep(sqrt: Root, all: seq<Entry>, cents: seq<Vec>, j: nat)
    requires cents != [] && j < |all|
    ensures forall c :: Points(sqrt, all[..j + 1], cents, c)
                     == Points(sqrt, all[..j], cents, c) + if Best(sqrt, all[j].v, cents) == c then [all[j].v] else []
  {
    hide Best;
    assert all[..j + 1][..j] == all[..j];
  }

  /** One iteration of k-means. */
  method Refine(sqrt: Root, all: seq<Entry>, cents: seq<Vec>, dim: nat) returns (moved: seq<Vec>)
    requires cents != [] && SameDim(all, cents, dim)
    ensures moved == Refined(sqrt, all, cents, dim)
  {
    hide Best, Points, Mean;
    PointsOfNone(sqrt, all, cents);
    var points: map<nat, seq<Vec>> := AllEmpty(|cents|);
    for j := 0 to |all|
      invariant forall c: nat :: c in points <==> c < |cents|
      invariant forall c :: c in points ==> points[c] == Points(sqrt, all[..j], cents, c)
    {
      var best := Nearest(sqrt, all[j].v, cents);
      PointsStep(sqrt, all, cents, j);
      points := points[best := points[best] + [all[j].v]];
    }
    assert all[..|all|] == all;
    moved := cents;
    for idx := 0 to |cents|
      invariant |moved| == |cents|
      invariant forall c :: 0 <= c < idx ==> moved[c] == Moved(sqrt, all, cents, c, dim)
      invariant forall c :: idx <= c < |cents| ==> moved[c] == cents[c]
    {
      PointsHaveDim(sqrt, all, cents, idx, dim);
      if points[idx] != [] {
        moved := moved[idx := Mean(points[idx], dim)];
      }
    }
  }

  /** Every id joins the cluster of its nearest centroid. */
  method Assign(sqrt: Root, all: seq<Entry>, cents: seq<Vec>) returns (clusters: map<nat, seq<Bytes>>)
    requires cents != []
    ensures forall c: nat :: c in clusters <==> c < |cents|
    ensures forall c :: c in clusters ==> clusters[c] == Assigned(sqrt, all, cents, c)
  {
    hide Best;
    clusters := AllEmpty(|cents|);
    for j := 0 to |all|
      invariant forall c: nat :: c in clusters <==> c < |cents|
      invariant forall c :: c in clusters ==> clusters[c] == Assigned(sqrt, all[..j], cents, c)
    {
      var best := Nearest(sqrt, all[j].v, cents);
      assert all[..j + 1][..j] == all[..j];
      clusters := clusters[best := clusters[best] + [all[j].id]];
    }
    assert all[..|all|] == all;
  }

  lemma FoundIsVector(found: seq<Pair<Cell>>, m: Cells, ns: Bytes, vecs: map<Bytes, Vec>, i: nat)
    requires ListsPrefix(found, m, VecPrefix(ns)) && VecsHold(m, ns, vecs) && i < |found|
    ensures var id := found[i].key[|VecPrefix(ns)|..];
            VecPrefix(ns) <= found[i].key && id in vecs && found[i].value == Vector(vecs[id])
  {
    hide VecPrefix, KeysAscend;
    var id := found[i].key[|VecPrefix(ns)|..];
    assert found[i].key == VecKey(ns, id);
    assert Lookup(m, VecKey(ns, id)) == Some(found[i].value);
  }

  lemma FoundAreListed(found: seq<Pair<Cell>>, m: Cells, ns: Bytes, vecs: map<Bytes, Vec>, all: seq<Entry>)
    requires ListsPrefix(found, m, VecPrefix(ns)) && VecsHold(m, ns, vecs) && |all| == |found|
    requires forall j :: 0 <= j < |found| ==> VecPrefix(ns) <= found[j].key
    requires forall j :: 0 <= j < |found| ==>
               found[j].value == Vector(all[j].v) && all[j].id == found[j].key[|VecPrefix(ns)|..]
    ensures ListsVectors(all, vecs)
  {
    hide VecPrefix, KeysAscend;
    forall i, j | 0 <= i < j < |all|
      ensures all[i].id != all[j].id
    {
      NamesAreDistinct(found, VecPrefix(ns), i);
    }
    forall x: Entry
      ensures x in all <==> Lookup(vecs, x.id) == Some(x.v)
    {
      assert Lookup(m, VecKey(ns, x.id)) == if x.id in vecs then Some(Vector(vecs[x.id])) else None;
      if x in all {
        var j :| 0 <= j < |all| && all[j] == x;
        FoundIsVector(found, m, ns, vecs, j);
      }
      if x.id in vecs {
        assert HasKey(found, VecKey(ns, x.id));
        var j :| 0 <= j < |found| && found[j].key == VecKey(ns, x.id);
        assert all[j].id == x.id;
      }
    }
  }
}
