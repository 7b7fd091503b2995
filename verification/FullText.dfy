// The full-text index: postings, document cells and totals that always match the stored texts.
//
// The ghost field docs maps ids to the stored texts. Indexes says that a document cell holds the
// text and its number of tokens, that a posting cell holds the count of a term in a document
// and exists exactly when that count is positive, and that the totals cell holds the number of
// documents and the sum of their lengths. A document is replaced by removing it first, posting
// by posting, and then adding the new one; between the two loops the postings are those of the
// terms handled so far, which PartCounts describes.

module FullText {
  import opened ByteStrings
  import opened KvKeys
  import opened Store

  /** A cell of the index: the JSON payloads and the decimal counts, as values. */
  datatype Entry = Doc(text: Bytes, length: nat) | Posting(tf: nat) | Stats(docs: int, terms: int)

  type Cells = map<Bytes, Entry>

  // ---------- Names ----------

  function StatsKey(ns: Bytes): Bytes { "__FT_STATS__:" + ns }

  function DocRoot(ns: Bytes): Bytes { "__FT_DOC__:" + ns + ":" }

  function DocKey(ns: Bytes, id: Bytes): Bytes { DocRoot(ns) + id }

  function PostRoot(ns: Bytes): Bytes { "__FT_POST__:" + ns + ":" }

  function PostPrefix(ns: Bytes, term: Bytes): Bytes { PostRoot(ns) + (term + ":") }

  function PostKey(ns: Bytes, term: Bytes, id: Bytes): Bytes { PostRoot(ns) + (term + (":" + id)) }

  lemma PostKeyIsPrefixed(ns: Bytes, term: Bytes, id: Bytes)
    ensures PostKey(ns, term, id) == PostPrefix(ns, term) + id
  {
  }

  /** A term has no colon, so a posting belongs to one term and one document. */
  lemma PostIsInjective(ns: Bytes, t: Bytes, d: Bytes, u: Bytes, e: Bytes)
    requires NoColon(t) && NoColon(u)
    ensures PostKey(ns, t, d) == PostKey(ns, u, e) <==> t == u && d == e
  {
    hide PostRoot;
    if PostKey(ns, t, d) == PostKey(ns, u, e) {
      DropTag(PostRoot(ns), t + (":" + d), u + (":" + e));
      FirstColon(t, d, u, e);
    }
  }

  lemma DocIsInjective(ns: Bytes, d: Bytes, e: Bytes)
    ensures DocKey(ns, d) == DocKey(ns, e) <==> d == e
  {
    SameTag(DocRoot(ns), d, e);
  }

  lemma NamesDiffer(ns: Bytes, t: Bytes, d: Bytes, e: Bytes)
    ensures DocKey(ns, e) != StatsKey(ns) && PostKey(ns, t, d) != StatsKey(ns) && PostKey(ns, t, d) != DocKey(ns, e)
    ensures DocKey(ns, e) != [] && StatsKey(ns) != [] && PostKey(ns, t, d) != []
  {
    assert StatsKey(ns)[5] == 'S' && DocKey(ns, e)[5] == 'D' && PostKey(ns, t, d)[5] == 'P';
  }

  // ---------- Sums over a map ----------

  ghost function Sum(lengths: map<Bytes, nat>): nat {
    if lengths == map[] then 0
    else
      var k :| k in lengths;
      lengths[k] + Sum(lengths - {k})
  }

  /** The sum does not depend on the order in which keys are taken. */
  lemma {:induction false} SumWithout(lengths: map<Bytes, nat>, k: Bytes)
    requires k in lengths
    ensures Sum(lengths) == lengths[k] + Sum(lengths - {k})
    decreases lengths.Keys
  {
    var j :| j in lengths && Sum(lengths) == lengths[j] + Sum(lengths - {j});
    if j != k {
      var less := lengths - {j};
      assert less.Keys == lengths.Keys - {j};
      SumWithout(less, k);
      var other := lengths - {k};
      assert other.Keys == lengths.Keys - {k};
      SumWithout(other, j);
      assert less - {k} == other - {j};
    }
  }

  lemma SumWith(lengths: map<Bytes, nat>, k: Bytes, n: nat)
    requires k !in lengths
    ensures Sum(lengths[k := n]) == n + Sum(lengths)
  {
    SumWithout(lengths[k := n], k);
    assert lengths[k := n] - {k} == lengths;
  }

  // ---------- What an index of some documents is ----------

  type Tokenizer = Bytes -> seq<Bytes>

  /** Tokens are made of word characters. */
  ghost predicate Words(tokenize: Tokenizer) {
    forall text, i :: 0 <= i < |tokenize(text)| ==> NoColon(tokenize(text)[i])
  }

  function Count(tokens: seq<Bytes>, term: Bytes): nat {
    multiset(tokens)[term]
  }

  function Lengths(tokenize: Tokenizer, docs: map<Bytes, Bytes>): map<Bytes, nat> {
    map d | d in docs :: |tokenize(docs[d])|
  }

  ghost predicate DocsHold(m: Cells, ns: Bytes, tokenize: Tokenizer, docs: map<Bytes, Bytes>) {
    forall d :: Lookup(m, DocKey(ns, d))
             == if d in docs then Some(Doc(docs[d], |tokenize(docs[d])|)) else None
  }

  /** The count of a term in a stored document. */
  function CountIn(tokenize: Tokenizer, docs: map<Bytes, Bytes>, term: Bytes, d: Bytes): nat {
    if d in docs then Count(tokenize(docs[d]), term) else 0
  }

  function Counts(tokenize: Tokenizer, docs: map<Bytes, Bytes>): (Bytes, Bytes) -> nat {
    (t, d) => CountIn(tokenize, docs, t, d)
  }

  /** The counts of the stored documents, but of one document only those of some terms. */
  function PartCounts(tokenize: Tokenizer, docs: map<Bytes, Bytes>, id: Bytes, tokens: seq<Bytes>, terms: set<Bytes>)
    : (Bytes, Bytes) -> nat
  {
    (t, d) => if d == id then if t in terms then Count(tokens, t) else 0 else CountIn(tokenize, docs, t, d)
  }

  /** Every posting holds the count of its term in its document; no other posting exists. */
  ghost predicate PostingsHold(m: Cells, ns: Bytes, count: (Bytes, Bytes) -> nat) {
    forall t, d :: NoColon(t) ==>
      Lookup(m, PostKey(ns, t, d)) == if count(t, d) > 0 then Some(Posting(count(t, d))) else None
  }

  function StatsOf(m: Cells, ns: Bytes): Entry {
    if StatsKey(ns) in m && m[StatsKey(ns)].Stats? then m[StatsKey(ns)] else Stats(0, 0)
  }

  /** The totals are the number of stored documents and the sum of their lengths. */
  ghost predicate TotalsHold(m: Cells, ns: Bytes, tokenize: Tokenizer, docs: map<Bytes, Bytes>) {
    StatsOf(m, ns) == Stats(|docs|, Sum(Lengths(tokenize, docs)))
  }

  ghost predicate Indexes(m: Cells, ns: Bytes, tokenize: Tokenizer, docs: map<Bytes, Bytes>) {
    && (forall d :: d in docs ==> tokenize(docs[d]) != [])
    && DocsHold(m, ns, tokenize, docs)
    && PostingsHold(m, ns, Counts(tokenize, docs))
    && TotalsHold(m, ns, tokenize, docs)
  }

  /** An empty store is the index of no documents. */
  lemma NothingIndexed(ns: Bytes, tokenize: Tokenizer)
    ensures Indexes(map[], ns, tokenize, map[])
  {
  }

  /** Removing a stored document never takes a total below zero: the clamps never fire. */
  lemma ClampsNeverFire(m: Cells, ns: Bytes, tokenize: Tokenizer, docs: map<Bytes, Bytes>, d: Bytes)
    requires TotalsHold(m, ns, tokenize, docs) && d in docs
    ensures StatsOf(m, ns).docs >= 1
    ensures StatsOf(m, ns).terms >= |tokenize(docs[d])|
    ensures Stats(StatsOf(m, ns).docs - 1, StatsOf(m, ns).terms - |tokenize(docs[d])|)
         == Stats(|docs - {d}|, Sum(Lengths(tokenize, docs - {d})))
  {
    var lengths := Lengths(tokenize, docs);
    SumWithout(lengths, d);
    assert lengths - {d} == Lengths(tokenize, docs - {d});
    assert (docs - {d}).Keys == docs.Keys - {d};
    assert |(docs - {d}).Keys| == |docs - {d}| && |docs.Keys| == |docs|;
  }

  lemma AddedTotals(tokenize: Tokenizer, docs: map<Bytes, Bytes>, d: Bytes, text: Bytes)
    requires d !in docs
    ensures |docs[d := text]| == |docs| + 1
    ensures Sum(Lengths(tokenize, docs[d := text])) == Sum(Lengths(tokenize, docs)) + |tokenize(text)|
  {
    SumWith(Lengths(tokenize, docs), d, |tokenize(text)|);
    assert Lengths(tokenize, docs[d := text]) == Lengths(tokenize, docs)[d := |tokenize(text)|];
  }

  // ---------- One cell at a time ----------

  lemma PutDoc(m: Cells, ns: Bytes, tokenize: Tokenizer, docs: map<Bytes, Bytes>, d: Bytes, text: Bytes)
    requires DocsHold(m, ns, tokenize, docs)
    ensures DocsHold(m[DocKey(ns, d) := Doc(text, |tokenize(text)|)], ns, tokenize, docs[d := text])
    ensures DocsHold(m - {DocKey(ns, d)}, ns, tokenize, docs - {d})
  {
    hide DocKey;
    forall e
      ensures DocKey(ns, e) == DocKey(ns, d) <==> e == d
    {
      DocIsInjective(ns, e, d);
    }
  }

  /** Writing a cell that is no document leaves the documents alone. */
  lemma DocsIgnore(m: Cells, ns: Bytes, tokenize: Tokenizer, docs: map<Bytes, Bytes>, k: Bytes, v: Entry)
    requires DocsHold(m, ns, tokenize, docs) && forall d :: DocKey(ns, d) != k
    ensures DocsHold(m[k := v], ns, tokenize, docs) && DocsHold(m - {k}, ns, tokenize, docs)
  {
    hide DocKey;
  }

  lemma PostingsIgnore(m: Cells, ns: Bytes, count: (Bytes, Bytes) -> nat, k: Bytes, v: Entry)
    requires PostingsHold(m, ns, count) && forall t, d :: PostKey(ns, t, d) != k
    ensures PostingsHold(m[k := v], ns, count) && PostingsHold(m - {k}, ns, count)
  {
    hide PostKey;
  }

  lemma StatsIgnore(m: Cells, ns: Bytes, k: Bytes, v: Entry)
    requires k != StatsKey(ns)
    ensures StatsOf(m[k := v], ns) == StatsOf(m - {k}, ns) == StatsOf(m, ns)
  {
  }

  lemma PutPosting(m: Cells, ns: Bytes, count: (Bytes, Bytes) -> nat, updated: (Bytes, Bytes) -> nat,
                   term: Bytes, id: Bytes, n: nat)
    requires PostingsHold(m, ns, count) && NoColon(term)
    requires forall t, d :: updated(t, d) == if t == term && d == id then n else count(t, d)
    ensures n > 0 ==> PostingsHold(m[PostKey(ns, term, id) := Posting(n)], ns, updated)
    ensures n == 0 ==> PostingsHold(m - {PostKey(ns, term, id)}, ns, updated)
  {
    hide PostKey, NoColon;
    forall t, d | NoColon(t)
      ensures PostKey(ns, t, d) == PostKey(ns, term, id) <==> t == term && d == id
    {
      PostIsInjective(ns, t, d, term, id);
    }
  }

  // ---------- Several postings at once ----------

  /** The cells of the index on a namespace. */
  predicate Under(ns: Bytes, k: Bytes) {
    k == StatsKey(ns) || DocRoot(ns) <= k || PostRoot(ns) <= k
  }

  /** Nothing outside the namespace has changed. */
  ghost predicate Framed(m: Cells, m': Cells, ns: Bytes) {
    forall k :: !Under(ns, k) ==> Lookup(m', k) == Lookup(m, k)
  }

  /** Nothing but postings has changed. */
  ghost predicate OnlyPostings(m: Cells, m': Cells, ns: Bytes) {
    forall k :: !(PostRoot(ns) <= k) ==> Lookup(m', k) == Lookup(m, k)
  }

  lemma PostingWritten(m: Cells, m': Cells, ns: Bytes, t: Bytes, d: Bytes, v: Entry)
    requires OnlyPostings(m, m', ns)
    ensures OnlyPostings(m, m'[PostKey(ns, t, d) := v], ns) && OnlyPostings(m, m' - {PostKey(ns, t, d)}, ns)
  {
    hide PostRoot;
  }

  lemma OnlyPostingsKeeps(m: Cells, m': Cells, ns: Bytes, tokenize: Tokenizer, docs: map<Bytes, Bytes>)
    requires OnlyPostings(m, m', ns)
    ensures DocsHold(m, ns, tokenize, docs) ==> DocsHold(m', ns, tokenize, docs)
    ensures StatsOf(m', ns) == StatsOf(m, ns)
  {
    hide DocKey, PostRoot, StatsKey;
    NotPostings(ns, []);
    assert Lookup(m', StatsKey(ns)) == Lookup(m, StatsKey(ns));
    forall d
      ensures Lookup(m', DocKey(ns, d)) == Lookup(m, DocKey(ns, d))
    {
      NotPostings(ns, d);
    }
  }

  lemma NotPostings(ns: Bytes, d: Bytes)
    ensures !(PostRoot(ns) <= StatsKey(ns)) && !(PostRoot(ns) <= DocKey(ns, d))
  {
    assert StatsKey(ns)[5] == 'S' && PostRoot(ns)[5] == 'P' && DocKey(ns, d)[5] == 'D';
  }

  /** A document, its postings and the totals are all that is written. */
  lemma WritesAreFramed(m: Cells, m': Cells, ns: Bytes, id: Bytes, v: Entry, s: Entry)
    ensures OnlyPostings(m[DocKey(ns, id) := v], m', ns) ==> Framed(m, m'[StatsKey(ns) := s], ns)
    ensures OnlyPostings(m, m', ns) ==> Framed(m, (m' - {DocKey(ns, id)})[StatsKey(ns) := s], ns)
  {
    hide DocKey, PostRoot, StatsKey, DocRoot;
    UnderIsUnder(ns, id);
    forall k | !Under(ns, k)
      ensures Lookup(m[DocKey(ns, id) := v], k) == Lookup(m, k)
      ensures Lookup(m'[StatsKey(ns) := s], k) == Lookup((m' - {DocKey(ns, id)})[StatsKey(ns) := s], k) == Lookup(m', k)
    {
    }
  }

  lemma FramedTwice(m: Cells, m': Cells, m'': Cells, ns: Bytes)
    requires Framed(m, m', ns) && Framed(m', m'', ns)
    ensures Framed(m, m'', ns)
  {
    hide Under;
  }

  lemma DocFound(m: Cells, ns: Bytes, tokenize: Tokenizer, docs: map<Bytes, Bytes>, d: Bytes)
    requires Indexes(m, ns, tokenize, docs)
    ensures Lookup(m, DocKey(ns, d)) == if d in docs then Some(Doc(docs[d], |tokenize(docs[d])|)) else None
  {
    hide DocKey, PostingsHold, TotalsHold;
  }

  /** Leaving out one more term of the document. */
  lemma DropOne(m: Cells, ns: Bytes, tokenize: Tokenizer, docs: map<Bytes, Bytes>, id: Bytes, tokens: seq<Bytes>,
                terms: set<Bytes>, t: Bytes)
    requires PostingsHold(m, ns, PartCounts(tokenize, docs, id, tokens, terms)) && NoColon(t)
    ensures PostingsHold(m - {PostKey(ns, t, id)}, ns, PartCounts(tokenize, docs, id, tokens, terms - {t}))
  {
    hide PostKey, NoColon, PostingsHold, CountIn, Count;
    PutPosting(m, ns, PartCounts(tokenize, docs, id, tokens, terms),
        PartCounts(tokenize, docs, id, tokens, terms - {t}),
               t, id, 0);
  }

  lemma AddOne(m: Cells, ns: Bytes, tokenize: Tokenizer, docs: map<Bytes, Bytes>, id: Bytes, tokens: seq<Bytes>,
               terms: set<Bytes>, t: Bytes)
    requires PostingsHold(m, ns, PartCounts(tokenize, docs, id, tokens, terms)) && NoColon(t) && t in tokens
    ensures PostingsHold(m[PostKey(ns, t, id) := Posting(Count(tokens, t))], ns,
                         PartCounts(tokenize, docs, id, tokens, terms + {t}))
  {
    hide PostKey, NoColon, PostingsHold, CountIn;
    PutPosting(m, ns, PartCounts(tokenize, docs, id, tokens, terms),
        PartCounts(tokenize, docs, id, tokens, terms + {t}),
               t, id, Count(tokens, t));
  }

  function Terms(tokens: seq<Bytes>): set<Bytes> {
    set t | t in tokens
  }

  /** With all terms of the text the document is fully posted, with none it is not posted. */
  lemma AllOrNothing(m: Cells, ns: Bytes, tokenize: Tokenizer, docs: map<Bytes, Bytes>, id: Bytes, text: Bytes)
    ensures PostingsHold(m, ns, Counts(tokenize, docs[id := text]))
       <==> PostingsHold(m, ns, PartCounts(tokenize, docs, id, tokenize(text), Terms(tokenize(text))))
    ensures PostingsHold(m, ns, Counts(tokenize, docs - {id}))
       <==> PostingsHold(m, ns, PartCounts(tokenize, docs, id, tokenize(text), {}))
  {
    hide PostKey, NoColon, PostingsHold;
    var all, whole := Counts(tokenize, docs[id := text]),
        PartCounts(tokenize, docs, id, tokenize(text), Terms(tokenize(text)));
    var none, without := Counts(tokenize, docs - {id}), PartCounts(tokenize, docs, id, tokenize(text), {});
    forall t, d
      ensures all(t, d) == whole(t, d) && none(t, d) == without(t, d)
    {
    }
    Interchange(m, ns, all, whole);
    Interchange(m, ns, none, without);
  }

  lemma Interchange(m: Cells, ns: Bytes, count: (Bytes, Bytes) -> nat, other: (Bytes, Bytes) -> nat)
    requires forall t, d :: count(t, d) == other(t, d)
    ensures PostingsHold(m, ns, count) <==> PostingsHold(m, ns, other)
  {
    hide PostKey, NoColon;
  }

  /** A new document has no posting before the first one is written. */
  lemma NotPostedYet(m: Cells, ns: Bytes, tokenize: Tokenizer, docs: map<Bytes, Bytes>, id: Bytes, text: Bytes)
    requires Indexes(m, ns, tokenize, docs) && id !in docs
    ensures PostingsHold(m[DocKey(ns, id) := Doc(text, |tokenize(text)|)], ns,
            PartCounts(tokenize, docs, id, tokenize(text), {}))
  {
    hide DocsHold, TotalsHold, PostingsHold, PartCounts, Counts, DocKey, PostKey;
    forall t, d
      ensures PostKey(ns, t, d) != DocKey(ns, id)
    {
      NamesDiffer(ns, t, d, id);
    }
    PostingsIgnore(m, ns, Counts(tokenize, docs), DocKey(ns, id), Doc(text, |tokenize(text)|));
    assert docs - {id} == docs;
    AllOrNothing(m[DocKey(ns, id) := Doc(text, |tokenize(text)|)], ns, tokenize, docs, id, text);
  }

  /** With all postings written and the totals raised, the document is indexed. */
  lemma FullyPosted(m: Cells, m': Cells, ns: Bytes, tokenize: Tokenizer, docs: map<Bytes, Bytes>, id: Bytes,
                    text: Bytes)
    requires Indexes(m, ns, tokenize, docs) && id !in docs && tokenize(text) != []
    requires OnlyPostings(m[DocKey(ns, id) := Doc(text, |tokenize(text)|)], m', ns)
    requires PostingsHold(m', ns, PartCounts(tokenize, docs, id, tokenize(text), Terms(tokenize(text))))
    ensures var s := StatsOf(m', ns);
            var done := m'[StatsKey(ns) := Stats(s.docs + 1, s.terms + |tokenize(text)|)];
            s.Stats? && Indexes(done, ns, tokenize, docs[id := text]) && Framed(m, done, ns)
  {
    hide DocsHold, PostingsHold, PartCounts, Counts, DocKey, PostKey, OnlyPostings, StatsKey, Framed, Sum, Lengths,
      Terms, StatsOf;
    var n := |tokenize(text)|;
    var m1 := m[DocKey(ns, id) := Doc(text, n)];
    var docs' := docs[id := text];
    NamesDiffer(ns, [], [], id);
    PutDoc(m, ns, tokenize, docs, id, text);
    StatsIgnore(m, ns, DocKey(ns, id), Doc(text, n));
    OnlyPostingsKeeps(m1, m', ns, tokenize, docs');
    AllOrNothing(m', ns, tokenize, docs, id, text);
    AddedTotals(tokenize, docs, id, text);
    WriteStats(m', ns, tokenize, docs', Counts(tokenize, docs'), Stats(|docs'|, Sum(Lengths(tokenize, docs'))));
    WritesAreFramed(m, m', ns, id, Doc(text, n), Stats(|docs'|, Sum(Lengths(tokenize, docs'))));
  }

  lemma WriteStats(m: Cells, ns: Bytes, tokenize: Tokenizer, docs: map<Bytes, Bytes>, count: (Bytes, Bytes) -> nat,
                   s: Entry)
    requires DocsHold(m, ns, tokenize, docs) && PostingsHold(m, ns, count) && s.Stats?
    ensures DocsHold(m[StatsKey(ns) := s], ns, tokenize, docs) && PostingsHold(m[StatsKey(ns) := s], ns, count)
    ensures StatsOf(m[StatsKey(ns) := s], ns) == s
  {
    hide DocsHold, PostingsHold, DocKey, PostKey, StatsKey;
    forall t, d
      ensures PostKey(ns, t, d) != StatsKey(ns)
    {
      NamesDiffer(ns, t, d, d);
    }
    forall d
      ensures DocKey(ns, d) != StatsKey(ns)
    {
      NamesDiffer(ns, [], d, d);
    }
    PostingsIgnore(m, ns, count, StatsKey(ns), s);
    DocsIgnore(m, ns, tokenize, docs, StatsKey(ns), s);
  }

  lemma UnderIsUnder(ns: Bytes, id: Bytes)
    ensures DocRoot(ns) <= DocKey(ns, id)
  {
  }

  lemma TermsAreWords(tokenize: Tokenizer, text: Bytes)
    requires Words(tokenize)
    ensures forall t :: t in Terms(tokenize(text)) ==> NoColon(t)
  {
  }

  lemma SameCells(m: Cells, ns: Bytes)
    ensures Framed(m, m, ns)
  {
  }

  lemma Posted(m: Cells, ns: Bytes, tokenize: Tokenizer, docs: map<Bytes, Bytes>, id: Bytes)
    requires Indexes(m, ns, tokenize, docs) && id in docs
    ensures PostingsHold(m, ns, PartCounts(tokenize, docs, id, tokenize(docs[id]), Terms(tokenize(docs[id]))))
  {
    hide DocsHold, TotalsHold, PostingsHold, PartCounts, Counts;
    assert docs[id := docs[id]] == docs;
    AllOrNothing(m, ns, tokenize, docs, id, docs[id]);
  }

  /** With all postings gone, the document dropped and the totals lowered, the others are indexed. */
  lemma Unposted(m: Cells, m': Cells, ns: Bytes, tokenize: Tokenizer, docs: map<Bytes, Bytes>, id: Bytes)
    requires Indexes(m, ns, tokenize, docs) && id in docs && OnlyPostings(m, m', ns)
    requires PostingsHold(m', ns, PartCounts(tokenize, docs, id, tokenize(docs[id]), {}))
    ensures var m2 := m' - {DocKey(ns, id)};
            var s := StatsOf(m2, ns);
            var n := |tokenize(docs[id])|;
            && s.Stats? && s.docs >= 1 && s.terms >= n
            && Indexes(m2[StatsKey(ns) := Stats(s.docs - 1, s.terms - n)], ns, tokenize, docs - {id})
            && Framed(m, m2[StatsKey(ns) := Stats(s.docs - 1, s.terms - n)], ns)
  {
    hide DocsHold, PostingsHold, PartCounts, Counts, DocKey, PostKey, OnlyPostings, StatsKey, Framed, Sum, Lengths,
      Terms, StatsOf;
    var m2 := m' - {DocKey(ns, id)};
    var docs' := docs - {id};
    NamesDiffer(ns, [], [], id);
    OnlyPostingsKeeps(m, m', ns, tokenize, docs);
    AllOrNothing(m', ns, tokenize, docs, id, docs[id]);
    PutDoc(m', ns, tokenize, docs, id, docs[id]);
    StatsIgnore(m', ns, DocKey(ns, id), Posting(0));
    forall t, d
      ensures PostKey(ns, t, d) != DocKey(ns, id)
    {
      NamesDiffer(ns, t, d, id);
    }
    PostingsIgnore(m', ns, Counts(tokenize, docs'), DocKey(ns, id), Posting(0));
    ClampsNeverFire(m, ns, tokenize, docs, id);
    WriteStats(m2, ns, tokenize, docs', Counts(tokenize, docs'), Stats(|docs'|, Sum(Lengths(tokenize, docs'))));
    WritesAreFramed(m, m', ns, id, Posting(0), Stats(|docs'|, Sum(Lengths(tokenize, docs'))));
  }

  // ---------- The index ----------

  class FullTextIndex {
    const lsm: KeyStore<Entry>
    const ns: Bytes
    const tokenize: Tokenizer
    ghost var docs: map<Bytes, Bytes>

    ghost predicate Valid()
      reads this, lsm
    {
      lsm.KeepsAll() && Words(tokenize) && Indexes(lsm.m, ns, tokenize, docs)
    }

    /** Opens the index over a store that already holds some documents. */
    constructor (lsm: KeyStore<Entry>, ns: Bytes, tokenize: Tokenizer, ghost docs: map<Bytes, Bytes>)
      requires lsm.KeepsAll() && Words(tokenize) && Indexes(lsm.m, ns, tokenize, docs)
      ensures Valid() && this.lsm == lsm && this.ns == ns && this.tokenize == tokenize && this.docs == docs
    {
      this.lsm := lsm;
      this.ns := ns;
      this.tokenize := tokenize;
      this.docs := docs;
    }

    method GetStats() returns (docCount: int, terms: int)
      ensures Stats(docCount, terms) == StatsOf(lsm.m, ns)
    {
      var raw := lsm.Get(StatsKey(ns));
      if raw.Some? && raw.value.Stats? {
        return raw.value.docs, raw.value.terms;
      }
      return 0, 0;
    }

    method IndexDocument(id: Bytes, text: Bytes)
      requires Valid()
      modifies this`docs, lsm
      ensures Valid() && Framed(old(lsm.m), lsm.m, ns)
      ensures docs == if tokenize(text) == [] then old(docs) - {id} else old(docs)[id := text]
    {
      hide Indexes, Framed, Words, DocKey, PostKey, StatsKey, PartCounts, PostingsHold, OnlyPostings, Terms, Count,
        StatsOf, NoColon;
      var existed := DeleteDocument(id);
      var tokens := tokenize(text);
      if |tokens| == 0 {
        return;
      }
      ghost var before, kept := lsm.m, docs;
      TermsAreWords(tokenize, text);
      NamesDiffer(ns, [], [], id);
      var counts := Tally(tokens);
      lsm.Put(DocKey(ns, id), Doc(text, |tokens|));
      NotPostedYet(before, ns, tokenize, kept, id, text);
      PutPostings(id, counts, tokens, kept);
      FullyPosted(before, lsm.m, ns, tokenize, kept, id, text);
      var n, terms := GetStats();
      lsm.Put(StatsKey(ns), Stats(n + 1, terms + |tokens|));
      FramedTwice(old(lsm.m), before, lsm.m, ns);
      docs := docs[id := text];
    }

    method DeleteDocument(id: Bytes) returns (existed: bool)
      requires Valid()
      modifies this`docs, lsm
      ensures Valid() && Framed(old(lsm.m), lsm.m, ns)
      ensures existed <==> id in old(docs)
      ensures docs == old(docs) - {id}
    {
      hide Words, DocKey, PostKey, StatsKey, Framed, Indexes, PartCounts, PostingsHold, OnlyPostings, Terms, Count,
        StatsOf, NoColon;
      DocFound(lsm.m, ns, tokenize, docs, id);
      var raw := lsm.Get(DocKey(ns, id));
      if raw == None || !raw.value.Doc? {
        assert docs - {id} == docs;
        SameCells(lsm.m, ns);
        return false;
      }
      ghost var before := lsm.m;
      NamesDiffer(ns, [], [], id);
      Posted(before, ns, tokenize, docs, id);
      var tokens := tokenize(raw.value.text);
      TermsAreWords(tokenize, raw.value.text);
      var counts := Tally(tokens);
      var length := raw.value.length;
      DropPostings(id, counts.Keys, tokens, docs);
      Unposted(before, lsm.m, ns, tokenize, docs, id);
      lsm.Delete(DocKey(ns, id));
      var n, terms := GetStats();
      lsm.Put(StatsKey(ns), Stats(if n - 1 < 0 then 0 else n - 1, if terms - length < 0 then 0 else terms - length));
      docs := docs - {id};
      return true;
    }

    /** Counter(tokens). */
    method Tally(tokens: seq<Bytes>) returns (counts: map<Bytes, nat>)
      ensures counts.Keys == Terms(tokens)
      ensures forall t :: t in counts ==> counts[t] == Count(tokens, t)
    {
      counts := map[];
      for i := 0 to |tokens|
        invariant counts.Keys == Terms(tokens[..i])
        invariant forall t :: t in counts ==> counts[t] == Count(tokens[..i], t)
      {
        assert tokens[..i + 1] == tokens[..i] + [tokens[i]];
        var t := tokens[i];
        counts := counts[t := if t in counts then counts[t] + 1 else 1];
      }
      assert tokens[..|tokens|] == tokens;
    }

    method PutPostings(id: Bytes, counts: map<Bytes, nat>, ghost tokens: seq<Bytes>, ghost kept: map<Bytes, Bytes>)
      requires lsm.KeepsAll()
      requires counts.Keys == Terms(tokens) && forall t :: t in counts ==> counts[t] == Count(tokens, t) && NoColon(t)
      requires PostingsHold(lsm.m, ns, PartCounts(tokenize, kept, id, tokens, {}))
      modifies lsm
      ensures PostingsHold(lsm.m, ns, PartCounts(tokenize, kept, id, tokens, Terms(tokens)))
      ensures OnlyPostings(old(lsm.m), lsm.m, ns)
    {
      hide PostingsHold, PostKey, NoColon, OnlyPostings, Count, PartCounts;
      var rest := counts.Keys;
      ghost var done := {};
      SamePostings(lsm.m, ns);
      while rest != {}
        invariant rest <= counts.Keys && done == counts.Keys - rest
        invariant PostingsHold(lsm.m, ns, PartCounts(tokenize, kept, id, tokens, done))
        invariant OnlyPostings(old(lsm.m), lsm.m, ns)
        decreases rest
      {
        var t :| t in rest;
        NamesDiffer(ns, t, id, id);
        AddOne(lsm.m, ns, tokenize, kept, id, tokens, done, t);
        PostingWritten(old(lsm.m), lsm.m, ns, t, id, Posting(counts[t]));
        lsm.Put(PostKey(ns, t, id), Posting(counts[t]));
        rest := rest - {t};
        done := done + {t};
      }
      assert done == Terms(tokens);
    }

    method DropPostings(id: Bytes, terms: set<Bytes>, ghost tokens: seq<Bytes>, ghost kept: map<Bytes, Bytes>)
      requires forall t :: t in terms ==> NoColon(t)
      requires PostingsHold(lsm.m, ns, PartCounts(tokenize, kept, id, tokens, terms))
      modifies lsm
      ensures PostingsHold(lsm.m, ns, PartCounts(tokenize, kept, id, tokens, {}))
      ensures OnlyPostings(old(lsm.m), lsm.m, ns)
    {
      hide PostingsHold, PostKey, NoColon, OnlyPostings, Count, PartCounts;
      var rest := terms;
      SamePostings(lsm.m, ns);
      while rest != {}
        invariant rest <= terms
        invariant PostingsHold(lsm.m, ns, PartCounts(tokenize, kept, id, tokens, rest))
        invariant OnlyPostings(old(lsm.m), lsm.m, ns)
        decreases rest
      {
        var t :| t in rest;
        NamesDiffer(ns, t, id, id);
        DropOne(lsm.m, ns, tokenize, kept, id, tokens, rest, t);
        PostingWritten(old(lsm.m), lsm.m, ns, t, id, Posting(0));
        lsm.Delete(PostKey(ns, t, id));
        rest := rest - {t};
      }
    }
  }

  lemma SamePostings(m: Cells, ns: Bytes)
    ensures OnlyPostings(m, m, ns)
  {
  }
}
