// BM25 arithmetic over the reals: no zero denominator, positive and bounded scores.
//
// The logarithm is a parameter, positive above one and, where ranks are compared, increasing. A
// score is the sum over the query terms of inverse document frequency times a weight that grows
// with the count of the term, shrinks with the length of the document and saturates below k1 + 1.

module Bm25 {
  import opened ByteStrings

  /** The two tuning constants, and the natural logarithm. */
  datatype Params = Params(k1: real, b: real, ln: real -> real) {
    ghost predicate Good() {
      k1 > 0.0 && 0.0 <= b <= 1.0 && forall x :: x > 1.0 ==> ln(x) > 0.0
    }

    ghost predicate Increasing() {
      forall x, y :: 0.0 < x < y ==> ln(x) < ln(y)
    }
  }

  /** The argument of the logarithm in the inverse document frequency. */
  function Rarity(docs: nat, df: nat): real {
    1.0 + (docs as real - df as real + 0.5) / (df as real + 0.5)
  }

  function Idf(p: Params, docs: nat, df: nat): real {
    p.ln(Rarity(docs, df))
  }

  function Denominator(p: Params, tf: nat, length: nat, avgdl: real): real
    requires avgdl > 0.0
  {
    tf as real + p.k1 * (1.0 - p.b + p.b * (length as real / avgdl))
  }

  function Weight(p: Params, tf: nat, length: nat, avgdl: real): real
    requires avgdl > 0.0 && Denominator(p, tf, length, avgdl) != 0.0
  {
    (tf as real * (p.k1 + 1.0)) / Denominator(p, tf, length, avgdl)
  }

  // ---------- Real arithmetic ----------

  lemma ProductIsPositive(x: real, y: real)
    requires x > 0.0 && y > 0.0
    ensures x * y > 0.0
  {
  }

  lemma QuotientIsPositive(x: real, y: real)
    requires x > 0.0 && y > 0.0
    ensures x / y > 0.0
  {
  }

  /** A quotient is below q when the numerator is below q times the denominator. */
  lemma QuotientBelow(x: real, y: real, q: real)
    requires y > 0.0 && x < y * q
    ensures x / y < q
  {
    var r := x / y;
    assert r * y == x;
    if r >= q {
      ScaledOrder(q, r, y);
    }
  }

  lemma ScaledOrder(x: real, y: real, c: real)
    requires x <= y && c > 0.0
    ensures x * c <= y * c
    ensures x < y ==> x * c < y * c
  {
  }

  lemma CrossOrder(x: real, d: real, y: real, e: real)
    requires d > 0.0 && e > 0.0 && x * e < y * d
    ensures x / d < y / e
  {
    var q := y / e;
    assert q * e == y;
    assert (d * q) * e == d * y;
    if x >= d * q {
      ScaledOrder(d * q, x, e);
    }
    QuotientBelow(x, d, q);
  }

  // ---------- One term ----------

  /** The logarithm is taken of a number above one when the term is in at most all documents. */
  lemma IdfIsPositive(p: Params, docs: nat, df: nat)
    requires p.Good() && df <= docs
    ensures Idf(p, docs, df) > 0.0
  {
    QuotientIsPositive(docs as real - df as real + 0.5, df as real + 0.5);
    assert Rarity(docs, df) > 1.0;
  }

  lemma DenominatorExceedsTf(p: Params, tf: nat, length: nat, avgdl: real)
    requires p.Good() && avgdl > 0.0 && length > 0
    ensures Denominator(p, tf, length, avgdl) > tf as real
  {
    var ratio := length as real / avgdl;
    QuotientIsPositive(length as real, avgdl);
    var share := p.b * ratio;
    if p.b > 0.0 {
      ProductIsPositive(p.b, ratio);
    } else {
      assert share == 0.0;
    }
    var spread := 1.0 - p.b + share;
    assert spread > 0.0;
    ProductIsPositive(p.k1, spread);
    assert Denominator(p, tf, length, avgdl) == tf as real + p.k1 * spread;
  }

  /** However often the term occurs, its weight saturates below k1 + 1. */
  lemma WeightIsBounded(p: Params, tf: nat, length: nat, avgdl: real)
    requires p.Good() && avgdl > 0.0 && length > 0 && tf > 0
    ensures Denominator(p, tf, length, avgdl) > 0.0
    ensures 0.0 < Weight(p, tf, length, avgdl) < p.k1 + 1.0
  {
    hide Denominator;
    DenominatorExceedsTf(p, tf, length, avgdl);
    var d := Denominator(p, tf, length, avgdl);
    var x := tf as real * (p.k1 + 1.0);
    ProductIsPositive(tf as real, p.k1 + 1.0);
    QuotientIsPositive(x, d);
    ScaledOrder(tf as real, d, p.k1 + 1.0);
    QuotientBelow(x, d, p.k1 + 1.0);
    assert Weight(p, tf, length, avgdl) == x / d;
  }

  // ---------- A document ----------

  /** The part of a document's score that one query term contributes. */
  function TermScore(p: Params, docs: nat, avgdl: real, length: nat, tf: nat, df: nat): real
    requires p.Good() && avgdl > 0.0 && length > 0
  {
    DenominatorExceedsTf(p, tf, length, avgdl);
    if tf == 0 then 0.0 else Idf(p, docs, df) * Weight(p, tf, length, avgdl)
  }

  function Score(p: Params, docs: nat, avgdl: real, length: nat, terms: seq<Bytes>, tf: Bytes -> nat,
                 df: Bytes -> nat): real
    requires p.Good() && avgdl > 0.0 && length > 0
  {
    if terms == [] then 0.0
    else
      var t := terms[|terms| - 1];
      Score(p, docs, avgdl, length, terms[..|terms| - 1], tf, df) + TermScore(p, docs, avgdl, length, tf(t), df(t))
  }

  // ---------- Which score is greater ----------

  /** Of two terms that occur equally often in a document, the one that fewer documents contain
      counts more. */
  lemma RarerCountsMore(p: Params, docs: nat, avgdl: real, length: nat, tf: nat, df: nat, df': nat)
    requires p.Good() && p.Increasing() && avgdl > 0.0 && length > 0 && tf > 0 && df < df' <= docs
    ensures TermScore(p, docs, avgdl, length, tf, df) > TermScore(p, docs, avgdl, length, tf, df')
  {
    hide Weight, Denominator;
    var n, d := docs as real - df as real + 0.5, df as real + 0.5;
    var n', d' := docs as real - df' as real + 0.5, df' as real + 0.5;
    ScaledOrder(n', n, d);
    ScaledOrder(d, d', n);
    CrossOrder(n', d', n, d);
    QuotientIsPositive(n', d');
    WeightIsBounded(p, tf, length, avgdl);
    ScaledOrder(Idf(p, docs, df'), Idf(p, docs, df), Weight(p, tf, length, avgdl));
  }

  /** The more often a term occurs, the more it counts. */
  lemma OftenCountsMore(p: Params, docs: nat, avgdl: real, length: nat, tf: nat, tf': nat, df: nat)
    requires p.Good() && avgdl > 0.0 && length > 0 && tf < tf' && df <= docs
    ensures TermScore(p, docs, avgdl, length, tf, df) < TermScore(p, docs, avgdl, length, tf', df)
  {
    hide Idf, Scaled;
    TermScoreIsBounded(p, docs, avgdl, length, tf', df);
    if tf > 0 {
      IdfIsPositive(p, docs, df);
      WeightGrows(p, tf, tf', length, avgdl);
      hide Weight;
      ScaledOrder(Weight(p, tf, length, avgdl), Weight(p, tf', length, avgdl), Idf(p, docs, df));
    }
  }

  lemma WeightGrows(p: Params, tf: nat, tf': nat, length: nat, avgdl: real)
    requires p.Good() && avgdl > 0.0 && length > 0 && 0 < tf < tf'
    ensures Denominator(p, tf, length, avgdl) > 0.0 && Denominator(p, tf', length, avgdl) > 0.0
    ensures Weight(p, tf, length, avgdl) < Weight(p, tf', length, avgdl)
  {
    DenominatorExceedsTf(p, tf, length, avgdl);
    var k := Denominator(p, tf, length, avgdl) - tf as real;
    assert Denominator(p, tf', length, avgdl) == tf' as real + k;
    hide Denominator;
    Saturating(tf as real, tf' as real, p.k1 + 1.0, k);
  }

  lemma Saturating(t: real, u: real, c: real, k: real)
    requires 0.0 < t < u && c > 0.0 && k > 0.0
    ensures (t * c) / (t + k) < (u * c) / (u + k)
  {
    ScaledOrder(t, u, c);
    ScaledOrder(t * c, u * c, k);
    Distributed(t, u, c, k);
    CrossOrder(t * c, t + k, u * c, u + k);
  }

  lemma Distributed(t: real, u: real, c: real, k: real)
    ensures (t * c) * (u + k) == t * u * c + (t * c) * k && (u * c) * (t + k) == t * u * c + (u * c) * k
  {
  }

  /** With b above zero, the same count in a longer document counts less. */
  lemma LongerCountsLess(p: Params, docs: nat, avgdl: real, length: nat, length': nat, tf: nat, df: nat)
    requires p.Good() && p.b > 0.0 && avgdl > 0.0 && 0 < length < length' && tf > 0 && df <= docs
    ensures TermScore(p, docs, avgdl, length, tf, df) > TermScore(p, docs, avgdl, length', tf, df)
  {
    hide Idf;
    IdfIsPositive(p, docs, df);
    DenominatorExceedsTf(p, tf, length, avgdl);
    DenominatorExceedsTf(p, tf, length', avgdl);
    DenominatorGrows(p, tf, length, length', avgdl);
    hide Denominator;
    var x := tf as real * (p.k1 + 1.0);
    ProductIsPositive(tf as real, p.k1 + 1.0);
    ScaledOrder(Denominator(p, tf, length, avgdl), Denominator(p, tf, length', avgdl), x);
    CrossOrder(x, Denominator(p, tf, length', avgdl), x, Denominator(p, tf, length, avgdl));
    ScaledOrder(Weight(p, tf, length', avgdl), Weight(p, tf, length, avgdl), Idf(p, docs, df));
  }

  lemma DenominatorGrows(p: Params, tf: nat, length: nat, length': nat, avgdl: real)
    requires p.Good() && p.b > 0.0 && avgdl > 0.0 && length < length'
    ensures Denominator(p, tf, length, avgdl) < Denominator(p, tf, length', avgdl)
  {
    var r, s := length as real / avgdl, length' as real / avgdl;
    ScaledOrder(length as real, length' as real, avgdl);
    CrossOrder(length as real, avgdl, length' as real, avgdl);
    ScaledOrder(r, s, p.b);
    assert r * p.b == p.b * r && s * p.b == p.b * s;
    var x, y := 1.0 - p.b + p.b * r, 1.0 - p.b + p.b * s;
    ScaledOrder(x, y, p.k1);
    assert Denominator(p, tf, length, avgdl) == tf as real + x * p.k1;
    assert Denominator(p, tf, length', avgdl) == tf as real + y * p.k1;
  }

  /** The summed inverse document frequency of the query terms. */
  function IdfSum(p: Params, docs: nat, terms: seq<Bytes>, df: Bytes -> nat): real {
    if terms == [] then 0.0
    else IdfSum(p, docs, terms[..|terms| - 1], df) + Idf(p, docs, df(terms[|terms| - 1]))
  }

  /** k1 + 1 times an amount. */
  function Scaled(p: Params, x: real): real {
    (p.k1 + 1.0) * x
  }

  lemma ScaledSum(p: Params, x: real, y: real)
    ensures Scaled(p, x + y) == Scaled(p, x) + Scaled(p, y) && Scaled(p, 0.0) == 0.0
  {
  }

  lemma TermScoreIsBounded(p: Params, docs: nat, avgdl: real, length: nat, tf: nat, df: nat)
    requires p.Good() && avgdl > 0.0 && length > 0 && df <= docs
    ensures 0.0 <= TermScore(p, docs, avgdl, length, tf, df) < Scaled(p, Idf(p, docs, df))
    ensures tf > 0 ==> TermScore(p, docs, avgdl, length, tf, df) > 0.0
  {
    hide Idf, Weight, Denominator;
    IdfIsPositive(p, docs, df);
    var idf := Idf(p, docs, df);
    ProductIsPositive(p.k1 + 1.0, idf);
    if tf > 0 {
      WeightIsBounded(p, tf, length, avgdl);
      ProductIsPositive(idf, Weight(p, tf, length, avgdl));
      ScaledOrder(Weight(p, tf, length, avgdl), p.k1 + 1.0, idf);
    }
  }

  /** A document that contains a query term scores above zero and below k1 + 1 times the
      summed inverse document frequency of the query. */
  lemma {:induction false} ScoreIsBounded(p: Params, docs: nat, avgdl: real, length: nat, terms: seq<Bytes>,
                                          tf: Bytes -> nat, df: Bytes -> nat)
    requires p.Good() && avgdl > 0.0 && length > 0
    requires forall t :: t in terms ==> df(t) <= docs
    ensures 0.0 <= Score(p, docs, avgdl, length, terms, tf, df) <= Scaled(p, IdfSum(p, docs, terms, df))
    ensures terms != [] ==>
              Score(p, docs, avgdl, length, terms, tf, df) < Scaled(p, IdfSum(p, docs, terms, df))
    ensures (exists t :: t in terms && tf(t) > 0) ==> Score(p, docs, avgdl, length, terms, tf, df) > 0.0
  {
    hide Idf, TermScore, Scaled;
    ScaledSum(p, 0.0, 0.0);
    if terms != [] {
      var init, last := terms[..|terms| - 1], terms[|terms| - 1];
      ScoreIsBounded(p, docs, avgdl, length, init, tf, df);
      TermScoreIsBounded(p, docs, avgdl, length, tf(last), df(last));
      ScaledSum(p, IdfSum(p, docs, init, df), Idf(p, docs, df(last)));
      if t :| t in terms && tf(t) > 0 {
        assert terms == init + [last];
        assert t in init || t == last;
      }
    }
  }
}
