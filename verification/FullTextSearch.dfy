// BM25 search over the index: collecting candidates from the postings, scoring and ranking them.
//
// A query's terms are scanned one by one, and a table collects the counts per document. Tabulates
// says that the table holds every positive count of the terms seen so far and nothing else. Each
// candidate is then scored by a loop over the query terms; Ranks says that the sorted list is the
// matching documents, each once, with the score that Bm25 defines.

module FullTextSearch {
  import opened ByteStrings
  import opened KvKeys
  import opened Store
  import opened FullText
  import opened Bm25
  import opened Ranking

  // ---------- What a search should return ----------

  /** The stored documents that contain the term. */
  function DocsWith(tokenize: Tokenizer, docs: map<Bytes, Bytes>, term: Bytes): set<Bytes> {
    set d | d in docs && CountIn(tokenize, docs, term, d) > 0
  }

  function Frequency(tokenize: Tokenizer, docs: map<Bytes, Bytes>, term: Bytes): nat {
    |DocsWith(tokenize, docs, term)|
  }

  /** Total length over number of documents. */
  ghost function AverageLength(tokenize: Tokenizer, docs: map<Bytes, Bytes>): real {
    if docs == map[] then 1.0 else Sum(Lengths(tokenize, docs)) as real / |docs| as real
  }

  ghost predicate NoneEmpty(tokenize: Tokenizer, docs: map<Bytes, Bytes>) {
    forall d :: d in docs ==> tokenize(docs[d]) != []
  }

  lemma {:induction false} SumAtLeastCount(lengths: map<Bytes, nat>)
    requires forall d :: d in lengths ==> lengths[d] >= 1
    ensures Sum(lengths) >= |lengths|
    decreases lengths.Keys
  {
    if lengths != map[] {
      var k :| k in lengths;
      SumWithout(lengths, k);
      var less := lengths - {k};
      assert less.Keys == lengths.Keys - {k};
      assert |less| == |less.Keys| && |lengths| == |lengths.Keys|;
      SumAtLeastCount(less);
    }
  }

  /** Every stored document has a token, so the average length is at least one. */
  lemma AverageIsAtLeastOne(tokenize: Tokenizer, docs: map<Bytes, Bytes>)
    requires NoneEmpty(tokenize, docs)
    ensures AverageLength(tokenize, docs) >= 1.0
  {
    if docs != map[] {
      var lengths := Lengths(tokenize, docs);
      assert lengths.Keys == docs.Keys;
      assert |lengths| == |lengths.Keys| && |docs| == |docs.Keys|;
      SumAtLeastCount(lengths);
      AtLeastOne(Sum(lengths) as real, |docs| as real);
    }
  }

  lemma AtLeastOne(x: real, y: real)
    requires x >= y > 0.0
    ensures x / y >= 1.0
  {
    var r := x / y;
    if r < 1.0 {
      ScaledOrder(r, 1.0, y);
    }
  }

  /** A term occurs in at most all documents. */
  lemma FrequencyIsAtMostDocs(tokenize: Tokenizer, docs: map<Bytes, Bytes>, term: Bytes)
    ensures Frequency(tokenize, docs, term) <= |docs|
  {
    assert DocsWith(tokenize, docs, term) <= docs.Keys;
    SubsetCount(DocsWith(tokenize, docs, term), docs.Keys);
  }

  function TfOf(tokenize: Tokenizer, docs: map<Bytes, Bytes>, d: Bytes): Bytes -> nat {
    t => CountIn(tokenize, docs, t, d)
  }

  function DfOf(tokenize: Tokenizer, docs: map<Bytes, Bytes>): Bytes -> nat {
    t => Frequency(tokenize, docs, t)
  }

  /** The score of a stored document for a list of query terms. */
  ghost function ScoreOf(p: Params, tokenize: Tokenizer, docs: map<Bytes, Bytes>, terms: seq<Bytes>, d: Bytes): real
    requires p.Good() && NoneEmpty(tokenize, docs) && d in docs
  {
    AverageIsAtLeastOne(tokenize, docs);
    Score(p, |docs|, AverageLength(tokenize, docs), |tokenize(docs[d])|, terms,
          TfOf(tokenize, docs, d), DfOf(tokenize, docs))
  }

  ghost function Bound(p: Params, tokenize: Tokenizer, docs: map<Bytes, Bytes>, terms: seq<Bytes>): real {
    Scaled(p, IdfSum(p, |docs|, terms, DfOf(tokenize, docs)))
  }

  /** The document contains one of the terms. */
  predicate Matches(tokenize: Tokenizer, docs: map<Bytes, Bytes>, terms: seq<Bytes>, d: Bytes) {
    exists t :: t in terms && CountIn(tokenize, docs, t, d) > 0
  }

  /** Every matching document scores above zero and below the bound. */
  lemma MatchIsBounded(p: Params, tokenize: Tokenizer, docs: map<Bytes, Bytes>, terms: seq<Bytes>, d: Bytes)
    requires p.Good() && NoneEmpty(tokenize, docs) && Matches(tokenize, docs, terms, d)
    ensures d in docs && 0.0 < ScoreOf(p, tokenize, docs, terms, d) < Bound(p, tokenize, docs, terms)
  {
    hide Frequency, Score, IdfSum;
    AverageIsAtLeastOne(tokenize, docs);
    forall t
      ensures Frequency(tokenize, docs, t) <= |docs|
    {
      FrequencyIsAtMostDocs(tokenize, docs, t);
    }
    ScoreIsBounded(p, |docs|, AverageLength(tokenize, docs), |tokenize(docs[d])|, terms,
                   TfOf(tokenize, docs, d), DfOf(tokenize, docs));
    var t :| t in terms && CountIn(tokenize, docs, t, d) > 0;
    assert TfOf(tokenize, docs, d)(t) > 0;
  }

  // ---------- Candidates ----------

  type Table = map<Bytes, map<Bytes, nat>>

  /** The tabulated count of a term in a candidate document. */
  function TfIn(table: Table, d: Bytes, t: Bytes): Option<nat> {
    if d in table then Lookup(table[d], t) else None
  }

  /** The table holds every positive count, and a document only when one is positive. */
  ghost predicate Tabulates(table: Table, count: (Bytes, Bytes) -> nat) {
    && (forall d, t :: TfIn(table, d, t) == if count(t, d) > 0 then Some(count(t, d)) else None)
    && (forall d :: d in table ==> table[d] != map[])
  }

  function Entered(table: Table, d: Bytes, t: Bytes, tf: nat): Table {
    table[d := (if d in table then table[d] else map[])[t := tf]]
  }

  lemma EnteredIsFound(table: Table, count: (Bytes, Bytes) -> nat, more: (Bytes, Bytes) -> nat, d: Bytes, t: Bytes,
                       tf: nat)
    requires Tabulates(table, count) && tf > 0
    requires forall u, e :: more(u, e) == if u == t && e == d then tf else count(u, e)
    ensures Tabulates(Entered(table, d, t, tf), more)
  {
    var table' := Entered(table, d, t, tf);
    forall e, u
      ensures TfIn(table', e, u) == if u == t && e == d then Some(tf) else TfIn(table, e, u)
    {
    }
    forall e | e in table'
      ensures table'[e] != map[]
    {
      assert t in table'[d];
      assert e != d ==> table'[e] == table[e];
    }
  }

  /** The counts of some terms, and of one more term in some documents. */
  function SeenCounts(tokenize: Tokenizer, docs: map<Bytes, Bytes>, terms: set<Bytes>, term: Bytes, ids: set<Bytes>)
    : (Bytes, Bytes) -> nat
  {
    (t, d) => if t in terms || (t == term && d in ids) then CountIn(tokenize, docs, t, d) else 0
  }

  lemma SameTable(table: Table, count: (Bytes, Bytes) -> nat, other: (Bytes, Bytes) -> nat)
    requires Tabulates(table, count) && forall t, d :: count(t, d) == other(t, d)
    ensures Tabulates(table, other)
  {
  }

  /** The documents named by the keys that a posting scan found. */
  function Ids(found: seq<Pair<Entry>>, prefix: Bytes): set<Bytes> {
    set x | x in found && |prefix| <= |x.key| :: x.key[|prefix|..]
  }

  /** A posting scan finds each document with the term once, with its count. */
  lemma PostingScan(found: seq<Pair<Entry>>, m: Cells, ns: Bytes, tokenize: Tokenizer, docs: map<Bytes, Bytes>,
                    term: Bytes)
    requires ListsPrefix(found, m, PostPrefix(ns, term)) && PostingsHold(m, ns, Counts(tokenize, docs)) && NoColon(term)
    ensures forall i :: 0 <= i < |found| ==>
              var d := found[i].key[|PostPrefix(ns, term)|..];
              CountIn(tokenize, docs, term, d) > 0 && found[i].value == Posting(CountIn(tokenize, docs, term, d))
    ensures Ids(found, PostPrefix(ns, term)) == DocsWith(tokenize, docs, term)
    ensures |found| == Frequency(tokenize, docs, term)
  {
    hide PostPrefix, PostKey, NoColon, KeysAscend, CountIn;
    var prefix := PostPrefix(ns, term);
    forall i | 0 <= i < |found|
      ensures var d := found[i].key[|prefix|..];
              CountIn(tokenize, docs, term, d) > 0 && found[i].value == Posting(CountIn(tokenize, docs, term, d))
    {
      var d := found[i].key[|prefix|..];
      PostKeyIsPrefixed(ns, term, d);
      assert found[i].key == prefix + d;
      assert Lookup(m, PostKey(ns, term, d)) == Some(found[i].value);
      assert Counts(tokenize, docs)(term, d) == CountIn(tokenize, docs, term, d);
    }
    forall d
      ensures d in Ids(found, prefix) <==> d in DocsWith(tokenize, docs, term)
    {
      PostKeyIsPrefixed(ns, term, d);
      assert Counts(tokenize, docs)(term, d) == CountIn(tokenize, docs, term, d);
      if d in DocsWith(tokenize, docs, term) {
        assert Lookup(m, PostKey(ns, term, d)) == Some(Posting(CountIn(tokenize, docs, term, d)));
        assert HasKey(found, prefix + d);
        var i :| 0 <= i < |found| && found[i].key == prefix + d;
        assert found[i] in found;
      }
      if d in Ids(found, prefix) {
        var x :| x in found && |prefix| <= |x.key| && x.key[|prefix|..] == d;
        CountedIsStored(tokenize, docs, term, d);
      }
    }
    IdsCount(found, prefix);
  }

  lemma CountedIsStored(tokenize: Tokenizer, docs: map<Bytes, Bytes>, term: Bytes, d: Bytes)
    ensures CountIn(tokenize, docs, term, d) > 0 ==> d in docs
  {
  }

  lemma {:induction false} IdsCount(found: seq<Pair<Entry>>, prefix: Bytes)
    requires KeysAscend(found) && forall i :: 0 <= i < |found| ==> prefix <= found[i].key
    ensures |Ids(found, prefix)| == |found|
  {
    hide Less;
    if found != [] {
      var n := |found| - 1;
      var init, d := found[..n], found[n].key[|prefix|..];
      IdsCount(init, prefix);
      NamesAreDistinct(found, prefix, n);
      assert found == init + [found[n]];
      forall x | x in init
        ensures x.key[|prefix|..] != d
      {
        var i :| 0 <= i < n && init[i] == x;
        assert found[i] == x;
      }
      assert Ids(found, prefix) == Ids(init, prefix) + {d};
    }
  }

  /** The loop over one posting scan. */
  method EnterAll(found: seq<Pair<Entry>>, prefix: Bytes, term: Bytes, start: Table,
                  ghost tokenize: Tokenizer, ghost docs: map<Bytes, Bytes>, ghost terms: set<Bytes>)
    returns (table: Table)
    requires forall i :: 0 <= i < |found| ==> prefix <= found[i].key
    requires forall i :: 0 <= i < |found| ==>
               var d := found[i].key[|prefix|..];
               CountIn(tokenize, docs, term, d) > 0 && found[i].value == Posting(CountIn(tokenize, docs, term, d))
    requires Tabulates(start, SeenCounts(tokenize, docs, terms, term, {}))
    ensures Tabulates(table, SeenCounts(tokenize, docs, terms, term, Ids(found, prefix)))
  {
    hide Tabulates, CountIn, Entered;
    table := start;
    assert Ids(found[..0], prefix) == {};
    for i := 0 to |found|
      invariant Tabulates(table, SeenCounts(tokenize, docs, terms, term, Ids(found[..i], prefix)))
    {
      var d := found[i].key[|prefix|..];
      EnteredIsFound(table, SeenCounts(tokenize, docs, terms, term, Ids(found[..i], prefix)),
                     SeenCounts(tokenize, docs, terms, term, Ids(found[..i], prefix) + {d}), d, term,
                         found[i].value.tf);
      IdsStep(found, prefix, i);
      table := Entered(table, d, term, found[i].value.tf);
    }
    assert found[..|found|] == found;
  }

  lemma IdsStep(found: seq<Pair<Entry>>, prefix: Bytes, i: nat)
    requires i < |found| && prefix <= found[i].key
    ensures Ids(found[..i + 1], prefix) == Ids(found[..i], prefix) + {found[i].key[|prefix|..]}
  {
    assert found[..i + 1] == found[..i] + [found[i]];
    assert forall x :: x in found[..i + 1] <==> x in found[..i] || x == found[i];
  }

  /** Once every document with the term is entered, the term counts as seen. */
  lemma TermSeen(table: Table, tokenize: Tokenizer, docs: map<Bytes, Bytes>, terms: set<Bytes>, term: Bytes,
                 next: Bytes)
    requires Tabulates(table, SeenCounts(tokenize, docs, terms, term, DocsWith(tokenize, docs, term)))
    ensures Tabulates(table, SeenCounts(tokenize, docs, terms + {term}, next, {}))
  {
    hide Tabulates;
    SameTable(table, SeenCounts(tokenize, docs, terms, term, DocsWith(tokenize, docs, term)),
              SeenCounts(tokenize, docs, terms + {term}, next, {}));
  }

  lemma NothingSeen(tokenize: Tokenizer, docs: map<Bytes, Bytes>, term: Bytes)
    ensures Tabulates(map[], SeenCounts(tokenize, docs, {}, term, {}))
  {
  }

  /** One posting scan per distinct query term. */
  method Candidates(index: FullTextIndex, terms: set<Bytes>) returns (table: Table, df: map<Bytes, nat>)
    requires index.Valid() && forall t :: t in terms ==> NoColon(t)
    ensures Tabulates(table, SeenCounts(index.tokenize, index.docs, terms, [], {}))
    ensures df.Keys == terms && forall t :: t in terms ==> df[t] == Frequency(index.tokenize, index.docs, t)
  {
    hide Tabulates, NoColon, SeenCounts, Frequency, DocsWith, DocsHold, TotalsHold, PostingsHold, Words, PostPrefix,
      Ids;
    table, df := map[], map[];
    var rest := terms;
    ghost var done := {};
    NothingSeen(index.tokenize, index.docs, []);
    while rest != {}
      invariant rest <= terms && done == terms - rest && df.Keys == done
      invariant forall t :: t in done ==> df[t] == Frequency(index.tokenize, index.docs, t)
      invariant Tabulates(table, SeenCounts(index.tokenize, index.docs, done, [], {}))
      decreases rest
    {
      var t :| t in rest;
      var found := index.lsm.ScanPrefix(PostPrefix(index.ns, t));
      PostingScan(found, index.lsm.m, index.ns, index.tokenize, index.docs, t);
      NoIdsYet(table, index.tokenize, index.docs, done, [], t);
      table := EnterAll(found, PostPrefix(index.ns, t), t, table, index.tokenize, index.docs, done);
      TermSeen(table, index.tokenize, index.docs, done, t, []);
      df := df[t := |found|];
      rest := rest - {t};
      done := done + {t};
    }
    assert done == terms;
  }

  lemma NoIdsYet(table: Table, tokenize: Tokenizer, docs: map<Bytes, Bytes>, terms: set<Bytes>, term: Bytes,
                 next: Bytes)
    requires Tabulates(table, SeenCounts(tokenize, docs, terms, term, {}))
    ensures Tabulates(table, SeenCounts(tokenize, docs, terms, next, {}))
  {
    hide Tabulates;
    SameTable(table, SeenCounts(tokenize, docs, terms, term, {}), SeenCounts(tokenize, docs, terms, next, {}));
  }

  // ---------- Scores ----------

  /** The scoring loop over the query terms of one candidate. */
  method ScoreCandidate(p: Params, docCount: nat, avgdl: real, length: nat, terms: seq<Bytes>,
                        tfs: map<Bytes, nat>, dfs: map<Bytes, nat>, ghost tf: Bytes -> nat, ghost df: Bytes -> nat)
    returns (score: real)
    requires p.Good() && avgdl > 0.0 && length > 0
    requires forall t :: t in terms ==> Lookup(tfs, t) == if tf(t) > 0 then Some(tf(t)) else None
    requires forall t :: t in terms ==> Lookup(dfs, t) == Some(df(t))
    ensures score == Score(p, docCount, avgdl, length, terms, tf, df)
  {
    hide Idf, Weight;
    score := 0.0;
    for i := 0 to |terms|
      invariant score == Score(p, docCount, avgdl, length, terms[..i], tf, df)
    {
      var t := terms[i];
      assert terms[..i + 1][..i] == terms[..i];
      if t in tfs {
        var n := if t in dfs then dfs[t] else 0;
        var idf := Idf(p, docCount, n);
        DenominatorExceedsTf(p, tfs[t], length, avgdl);
        score := score + idf * Weight(p, tfs[t], length, avgdl);
      }
    }
    assert terms[..|terms|] == terms;
  }

  /** A matching document with its score. */
  ghost predicate IsHit(p: Params, tokenize: Tokenizer, docs: map<Bytes, Bytes>, terms: seq<Bytes>, h: Hit<Bytes>)
    requires p.Good() && NoneEmpty(tokenize, docs)
  {
    Matches(tokenize, docs, terms, h.id) && h.id in docs && h.score == ScoreOf(p, tokenize, docs, terms, h.id)
  }

  /** hits ranks every matching document once, by descending score. */
  ghost predicate Ranks(hits: seq<Hit<Bytes>>, p: Params, tokenize: Tokenizer, docs: map<Bytes, Bytes>,
                        terms: seq<Bytes>)
    requires p.Good() && NoneEmpty(tokenize, docs)
  {
    && Ordered(hits, true) && Distinct(hits)
    && (forall h :: h in hits <==> IsHit(p, tokenize, docs, terms, h))
  }

  // ---------- The score, written out ----------

  /** What a term adds to the score of a stored document that contains it: n of the N documents
      contain the term, this one tf times among its length tokens. */
  ghost function Okapi(p: Params, tokenize: Tokenizer, docs: map<Bytes, Bytes>, term: Bytes, d: Bytes): real
    requires p.Good() && NoneEmpty(tokenize, docs) && d in docs && term in tokenize(docs[d])
  {
    var N, n := |docs| as real, |set e | e in docs && term in tokenize(docs[e])| as real;
    var tf, length := multiset(tokenize(docs[d]))[term], |tokenize(docs[d])|;
    AverageIsAtLeastOne(tokenize, docs);
    var average := Sum(map e | e in docs :: |tokenize(docs[e])|) as real / N;
    assert average == AverageLength(tokenize, docs);
    DenominatorExceedsTf(p, tf, length, average);
    p.ln(1.0 + (N - n + 0.5) / (n + 0.5))
    * ((tf as real * (p.k1 + 1.0)) / (tf as real + p.k1 * (1.0 - p.b + p.b * (length as real / average))))
  }

  /** The sum over the terms of a query, repeated ones included. */
  ghost function OkapiSum(p: Params, tokenize: Tokenizer, docs: map<Bytes, Bytes>, terms: seq<Bytes>, d: Bytes): real
    requires p.Good() && NoneEmpty(tokenize, docs) && d in docs
  {
    if terms == [] then 0.0
    else
      var term := terms[|terms| - 1];
      OkapiSum(p, tokenize, docs, terms[..|terms| - 1], d)
      + if term in tokenize(docs[d]) then Okapi(p, tokenize, docs, term, d) else 0.0
  }

  lemma {:induction false} ScoreIsOkapi(p: Params, tokenize: Tokenizer, docs: map<Bytes, Bytes>, terms: seq<Bytes>,
                                        d: Bytes)
    requires p.Good() && NoneEmpty(tokenize, docs) && d in docs
    ensures ScoreOf(p, tokenize, docs, terms, d) == OkapiSum(p, tokenize, docs, terms, d)
  {
    hide AverageLength, Idf, Weight, Okapi;
    if terms != [] {
      var n := |terms| - 1;
      ScoreIsOkapi(p, tokenize, docs, terms[..n], d);
      AverageIsAtLeastOne(tokenize, docs);
      TermIsOkapi(p, tokenize, docs, terms[n], d);
    }
  }

  lemma TermIsOkapi(p: Params, tokenize: Tokenizer, docs: map<Bytes, Bytes>, term: Bytes, d: Bytes)
    requires p.Good() && NoneEmpty(tokenize, docs) && d in docs && AverageLength(tokenize, docs) >= 1.0
    ensures TermScore(p, |docs|, AverageLength(tokenize, docs), |tokenize(docs[d])|, CountIn(tokenize, docs, term, d),
                      Frequency(tokenize, docs, term))
         == if term in tokenize(docs[d]) then Okapi(p, tokenize, docs, term, d) else 0.0
  {
    hide Sum;
    assert DocsWith(tokenize, docs, term) == set e | e in docs && term in tokenize(docs[e]);
    assert Lengths(tokenize, docs) == map e | e in docs :: |tokenize(docs[e])|;
    if term in tokenize(docs[d]) {
      var N, n := |docs| as real, |set e | e in docs && term in tokenize(docs[e])| as real;
      var tf, length := multiset(tokenize(docs[d]))[term], |tokenize(docs[d])|;
      var average := AverageLength(tokenize, docs);
      assert Idf(p, |docs|, Frequency(tokenize, docs, term)) == p.ln(1.0 + (N - n + 0.5) / (n + 0.5));
      DenominatorExceedsTf(p, tf, length, average);
      assert Weight(p, tf, length, average)
          == (tf as real * (p.k1 + 1.0)) / (tf as real + p.k1 * (1.0 - p.b + p.b * (length as real / average)));
    }
  }

  /** The document contains one of the terms. */
  lemma MatchMeans(tokenize: Tokenizer, docs: map<Bytes, Bytes>, terms: seq<Bytes>, d: Bytes)
    ensures Matches(tokenize, docs, terms, d) <==> d in docs && exists t :: t in terms && t in tokenize(docs[d])
  {
    if Matches(tokenize, docs, terms, d) {
      var t :| t in terms && CountIn(tokenize, docs, t, d) > 0;
      assert t in terms && t in tokenize(docs[d]);
    }
    if t :| d in docs && t in terms && t in tokenize(docs[d]) {
      assert CountIn(tokenize, docs, t, d) > 0;
    }
  }

  /** The hits are the stored documents that contain a term of the query, with their scores. */
  ghost predicate Finds(hits: seq<Hit<Bytes>>, p: Params, tokenize: Tokenizer, docs: map<Bytes, Bytes>,
                        terms: seq<Bytes>)
    requires p.Good() && NoneEmpty(tokenize, docs)
  {
    && (forall d :: (exists h :: h in hits && h.id == d)
          <==> d in docs && exists t :: t in terms && t in tokenize(docs[d]))
    && (forall h :: h in hits && h.id in docs ==> h.score == OkapiSum(p, tokenize, docs, terms, h.id))
  }

  lemma RankedIsFound(hits: seq<Hit<Bytes>>, p: Params, tokenize: Tokenizer, docs: map<Bytes, Bytes>,
                      terms: seq<Bytes>)
    requires p.Good() && NoneEmpty(tokenize, docs) && Ranks(hits, p, tokenize, docs, terms)
    ensures Finds(hits, p, tokenize, docs, terms)
  {
    hide ScoreOf, OkapiSum, Matches, Ordered, Distinct;
    forall d
      ensures (exists h :: h in hits && h.id == d)
         <==> d in docs && exists t :: t in terms && t in tokenize(docs[d])
    {
      MatchMeans(tokenize, docs, terms, d);
      if Matches(tokenize, docs, terms, d) {
        assert IsHit(p, tokenize, docs, terms, Hit(ScoreOf(p, tokenize, docs, terms, d), d));
      }
    }
    forall h | h in hits && h.id in docs
      ensures h.score == OkapiSum(p, tokenize, docs, terms, h.id)
    {
      ScoreIsOkapi(p, tokenize, docs, terms, h.id);
    }
  }

  /** Okapi BM25 search: every matching document once, with its score, by descending score, cut at
      the limit; all scores lie strictly between zero and the bound. */
  method Search(index: FullTextIndex, p: Params, query: Bytes, limit: int)
      returns (top: seq<Hit<Bytes>>, ghost all: seq<Hit<Bytes>>)
    requires index.Valid() && p.Good()
    ensures NoneEmpty(index.tokenize, index.docs) && Ranks(all, p, index.tokenize, index.docs, index.tokenize(query))
    ensures Finds(all, p, index.tokenize, index.docs, index.tokenize(query))
    ensures top == Limited(all, limit) && IsTop(top, all)
    ensures forall h :: h in top ==>
              0.0 < h.score < Bound(p, index.tokenize, index.docs, index.tokenize(query))
  {
    hide Tabulates, NoColon, SeenCounts, Frequency, DocsHold, PostingsHold, Words, Lengths, Sum, ScoreOf, Bound,
      Ordered, Distinct, Matches, Score, IsTop, Finds;
    var terms := index.tokenize(query);
    all := [];
    assert Ordered(all, true) && Distinct(all) by { EmptyRanks<Bytes>(true); }
    CutKeepsBest(all, limit, true);
    if |terms| == 0 {
      NoTermNoMatch(index.tokenize, index.docs, terms);
      RankedIsFound(all, p, index.tokenize, index.docs, terms);
      return [], all;
    }
    var n, total := index.GetStats();
    if n == 0 {
      NoDocNoMatch(index.tokenize, index.docs, terms);
      RankedIsFound(all, p, index.tokenize, index.docs, terms);
      return [], all;
    }
    var avgdl := total as real / (if n > 1 then n else 1) as real;
    AverageIsAtLeastOne(index.tokenize, index.docs);
    TermsAreWords(index.tokenize, query);
    var table, dfs := Candidates(index, Terms(terms));
    var hits := ScoreAll(index, p, n, avgdl, terms, table, dfs);
    hits := SortByScore(hits, true);
    all := hits;
    CutKeepsBest(all, limit, true);
    RankedIsFound(all, p, index.tokenize, index.docs, terms);
    top := Limited(hits, limit);
    forall h | h in top
      ensures 0.0 < h.score < Bound(p, index.tokenize, index.docs, terms)
    {
      assert IsHit(p, index.tokenize, index.docs, terms, h);
      MatchIsBounded(p, index.tokenize, index.docs, terms, h.id);
    }
  }

  lemma NoTermNoMatch(tokenize: Tokenizer, docs: map<Bytes, Bytes>, terms: seq<Bytes>)
    requires terms == []
    ensures forall d :: !Matches(tokenize, docs, terms, d)
  {
  }

  lemma NoDocNoMatch(tokenize: Tokenizer, docs: map<Bytes, Bytes>, terms: seq<Bytes>)
    requires |docs| == 0
    ensures forall d :: !Matches(tokenize, docs, terms, d)
  {
  }

  /** The loop over the candidates. A candidate always has a stored document, so none is skipped. */
  method ScoreAll(index: FullTextIndex, p: Params, n: nat, avgdl: real, terms: seq<Bytes>, table: Table,
                  dfs: map<Bytes, nat>)
    returns (hits: seq<Hit<Bytes>>)
    requires index.Valid() && p.Good() && NoneEmpty(index.tokenize, index.docs)
    requires n == |index.docs| && avgdl == AverageLength(index.tokenize, index.docs)
    requires Tabulates(table, SeenCounts(index.tokenize, index.docs, Terms(terms), [], {}))
    requires dfs.Keys == Terms(terms) && forall t :: t in dfs ==> dfs[t] == Frequency(index.tokenize, index.docs, t)
    ensures Distinct(hits) && forall h :: h in hits <==> IsHit(p, index.tokenize, index.docs, terms, h)
  {
    hide Tabulates, IsHit, Distinct, DocsHold, PostingsHold, TotalsHold, Words, SeenCounts, Frequency, AverageLength,
      Indexes;
    assert Distinct<Bytes>([]) by { EmptyRanks<Bytes>(true); }
    hits := [];
    var rest := table.Keys;
    while rest != {}
      invariant rest <= table.Keys && Distinct(hits)
      invariant forall h :: h in hits <==>
                  (h.id in table && h.id !in rest && IsHit(p, index.tokenize, index.docs, terms, h))
      decreases rest
    {
      var d :| d in rest;
      var found := ScoreOne(index, p, n, avgdl, terms, table, dfs, d);
      if found.Some? {
        OneMoreHit(hits, found.value);
        hits := hits + [found.value];
      }
      rest := rest - {d};
    }
    forall h | IsHit(p, index.tokenize, index.docs, terms, h)
      ensures h.id in table
    {
      HitIsCandidate(p, table, index.tokenize, index.docs, terms, h);
    }
  }

  /** One turn of the loop: the document is stored, so it yields its hit. */
  method ScoreOne(index: FullTextIndex, p: Params, n: nat, avgdl: real, terms: seq<Bytes>, table: Table,
                  dfs: map<Bytes, nat>, d: Bytes)
    returns (found: Option<Hit<Bytes>>)
    requires index.Valid() && p.Good() && NoneEmpty(index.tokenize, index.docs) && d in table
    requires n == |index.docs| && avgdl == AverageLength(index.tokenize, index.docs)
    requires Tabulates(table, SeenCounts(index.tokenize, index.docs, Terms(terms), [], {}))
    requires dfs.Keys == Terms(terms) && forall t :: t in dfs ==> dfs[t] == Frequency(index.tokenize, index.docs, t)
    ensures found.Some? && found.value.id == d
    ensures forall h: Hit<Bytes> :: h.id == d ==> (IsHit(p, index.tokenize, index.docs, terms, h) <==> h == found.value)
  {
    hide SeenCounts, Frequency, DocsHold, PostingsHold, TotalsHold, Words, Lengths, Sum, Matches, Score, AverageLength,
      Tabulates, CountIn;
    AverageIsAtLeastOne(index.tokenize, index.docs);
    CandidateIsStored(table, index.tokenize, index.docs, terms, d);
    DocFound(index.lsm.m, index.ns, index.tokenize, index.docs, d);
    var raw := index.lsm.Get(DocKey(index.ns, d));
    if raw == None || !raw.value.Doc? {
      return None;
    }
    var score := ScoreCandidate(p, n, avgdl, raw.value.length, terms, table[d], dfs,
                                TfOf(index.tokenize, index.docs, d), DfOf(index.tokenize, index.docs));
    return Some(Hit(score, d));
  }

  lemma CandidateIsStored(table: Table, tokenize: Tokenizer, docs: map<Bytes, Bytes>, terms: seq<Bytes>, d: Bytes)
    requires Tabulates(table, SeenCounts(tokenize, docs, Terms(terms), [], {})) && d in table
    ensures d in docs && Matches(tokenize, docs, terms, d)
    ensures forall t :: t in terms ==>
              Lookup(table[d], t)
                  == if CountIn(tokenize, docs, t, d) > 0 then Some(CountIn(tokenize, docs, t, d)) else None
  {
    var count := SeenCounts(tokenize, docs, Terms(terms), [], {});
    var t :| t in table[d];
    assert TfIn(table, d, t) == Some(table[d][t]);
    assert count(t, d) > 0;
    assert t in terms;
    forall u | u in terms
      ensures Lookup(table[d], u)
              == if CountIn(tokenize, docs, u, d) > 0 then Some(CountIn(tokenize, docs, u, d)) else None
    {
      assert TfIn(table, d, u) == Lookup(table[d], u);
    }
  }

  lemma HitIsCandidate(p: Params, table: Table, tokenize: Tokenizer, docs: map<Bytes, Bytes>, terms: seq<Bytes>,
                       h: Hit<Bytes>)
    requires p.Good() && NoneEmpty(tokenize, docs) && IsHit(p, tokenize, docs, terms, h)
    requires Tabulates(table, SeenCounts(tokenize, docs, Terms(terms), [], {}))
    ensures h.id in table
  {
    var t :| t in terms && CountIn(tokenize, docs, t, h.id) > 0;
    assert TfIn(table, h.id, t) == Some(CountIn(tokenize, docs, t, h.id));
  }
}
