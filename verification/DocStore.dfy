// The document store: insert, update, delete, create_index and query.
//
// The ghost field docs maps a collection and an id to the stored document. Valid says that the
// document cells hold exactly these, and that the index cells are exactly those the indexed
// fields of the documents call for. Insert and Delete first take the entries of the old
// document away, field by field, and then add those of the new one. CreateIndex reads at most
// LIMIT documents through Query; the index is complete exactly when that reaches every document
// that needs an entry.

module DocStore {
  import opened ByteStrings
  import opened KvKeys
  import opened Store
  import opened Documents
  import opened Ranking
  import opened DocIndex

  /** What create_index asks query for. */
  const LIMIT: nat := 1000000

  /** The document as stored: with its id under "_id". */
  function Stamped(fields: map<Bytes, Json>, id: Bytes): Json {
    Obj(fields["_id" := Str(id)])
  }

  /** Only the id is written into the document; all other fields stay. */
  lemma StampedFields(fields: map<Bytes, Json>, id: Bytes)
    ensures Stamped(fields, id).Obj? && Lookup(Stamped(fields, id).fields, "_id") == Some(Str(id))
    ensures forall k :: k != "_id" ==> Lookup(Stamped(fields, id).fields, k) == Lookup(fields, k)
  {
  }

  /** The new index holds every document that has the field, or was complete before. */
  ghost predicate WithinLimit(dumps: Dumps, indexes: Indexes, docs: Docs, coll: Bytes, f: Bytes) {
    || f in FieldsOf(indexes, coll)
    || forall id :: DocId(coll, id) in docs && FieldText(dumps, docs[DocId(coll, id)], f) != None ==>
           Rank(docs, coll, id) < LIMIT
  }

  /** A collection of at most a million documents is always within the limit. */
  lemma SmallCollection(dumps: Dumps, indexes: Indexes, docs: Docs, coll: Bytes, f: Bytes)
    requires |IdsIn(docs, coll)| <= 1_000_000
    ensures WithinLimit(dumps, indexes, docs, coll, f)
  {
    hide FieldText, Less;
    forall id | DocId(coll, id) in docs
      ensures Rank(docs, coll, id) < LIMIT
    {
      LessIsIrreflexive(id);
      var s, t := Earlier(docs, coll, id), IdsIn(docs, coll);
      assert id in t && id !in s && s <= t - {id};
      SubsetCount(s, t - {id});
    }
  }

  function Kept(all: seq<Json>, keep: Json -> bool): seq<Json> {
    if all == [] then []
    else
      var last := all[|all| - 1];
      Kept(all[..|all| - 1], keep) + if keep(last) then [last] else []
  }

  /** Where a slice bound lies in a sequence of n: a negative one counts from the end. */
  function Cut(n: nat, i: int): (r: nat)
    ensures r <= n
  {
    if i < 0 then (if n + i < 0 then 0 else n + i) else if i < n then i else n
  }

  /** results[offset:offset + limit]. */
  function Page(all: seq<Json>, offset: int, limit: int): seq<Json> {
    var from, to := Cut(|all|, offset), Cut(|all|, offset + limit);
    if from < to then all[from..to] else []
  }

  /** The kept documents are those that pass, in the same order. */
  lemma {:induction false} KeptAre(all: seq<Json>, keep: Json -> bool)
    requires IdsAscend(all)
    ensures IdsAscend(Kept(all, keep)) && forall x :: x in Kept(all, keep) <==> x in all && keep(x)
  {
    hide IdOf, Less;
    if all != [] {
      var init, last := all[..|all| - 1], all[|all| - 1];
      KeptAre(init, keep);
      assert all == init + [last];
      var kept := Kept(init, keep);
      forall i | 0 <= i < |kept|
        ensures Less(IdOf(kept[i]), IdOf(last))
      {
        assert kept[i] in init;
      }
    }
  }

  /** Only cells of the document store have changed. */
  ghost predicate Framed(m: Cells, m': Cells) {
    forall k :: !("__DOC__:" <= k) && !("__DIDX__:" <= k) ==> Lookup(m', k) == Lookup(m, k)
  }

  lemma WriteIsFramed(m: Cells, m': Cells, k: Bytes, v: Cell)
    requires Framed(m, m') && ("__DOC__:" <= k || "__DIDX__:" <= k)
    ensures Framed(m, m'[k := v]) && Framed(m, m' - {k})
  {
  }

  lemma NothingWritten(m: Cells)
    ensures Framed(m, m)
  {
  }

  lemma FramedTwice(m: Cells, m': Cells, m'': Cells)
    requires Framed(m, m') && Framed(m', m'')
    ensures Framed(m, m'')
  {
  }

  lemma DocIsNamed(docs: Docs, d: DocId, fields: map<Bytes, Json>)
    requires DocsNamed(docs) && NoColon(d.coll) && NoColon(d.id)
    ensures DocsNamed(docs[d := Stamped(fields, d.id)]) && DocsNamed(docs - {d})
  {
    hide NoColon;
  }

  lemma StoredDoc(m: Cells, docs: Docs, d: DocId)
    requires DocsHold(m, docs) && NoColon(d.coll)
    ensures Lookup(m, DocKey(d.coll, d.id)) == if d in docs then Some(Document(docs[d])) else None
  {
  }

  lemma KeysAreTagged(coll: Bytes, id: Bytes, x: Mark)
    ensures DocKey(coll, id) != [] && "__DOC__:" <= DocKey(coll, id)
    ensures IdxKey(x) != [] && "__DIDX__:" <= IdxKey(x)
  {
  }

  class DocumentStore {
    const lsm: KeyStore<Cell>
    const dumps: Dumps
    var indexes: Indexes
    ghost var docs: Docs

    ghost predicate Valid()
      reads this, lsm
    {
      lsm.KeepsAll() && Agrees(lsm.m, dumps, indexes, docs)
    }

    /** A store opens with no index; documents may be there, index entries may not. */
    constructor (lsm: KeyStore<Cell>, dumps: Dumps, ghost docs: Docs)
      requires lsm.KeepsAll() && Agrees(lsm.m, dumps, map[], docs)
      ensures Valid() && this.lsm == lsm && this.dumps == dumps && indexes == map[] && this.docs == docs
    {
      this.lsm := lsm;
      this.dumps := dumps;
      this.indexes := map[];
      this.docs := docs;
    }

    method Get(coll: Bytes, id: Bytes) returns (r: Option<Json>)
      requires Valid() && NoColon(coll)
      ensures r == Lookup(docs, DocId(coll, id))
    {
      hide DocsNamed, FieldsNamed, MarksHold, DocsHold, DocKey, NoColon;
      StoredDoc(lsm.m, docs, DocId(coll, id));
      var raw := lsm.Get(DocKey(coll, id));
      if raw == None || !raw.value.Document? {
        return None;
      }
      return Some(raw.value.doc);
    }

    /** None is the TypeError for a document that is no dict. */
    method Insert(coll: Bytes, id: Bytes, document: Json) returns (r: Option<Json>)
      requires Valid() && NoColon(coll) && NoColon(id)
      modifies this`docs, lsm
      ensures Valid() && Framed(old(lsm.m), lsm.m)
      ensures !document.Obj? ==> r == None && docs == old(docs)
      ensures document.Obj? ==>
                && r.Some? && r.value.Obj? && docs == old(docs)[DocId(coll, id) := r.value]
                && Lookup(r.value.fields, "_id") == Some(Str(id))
                && forall k :: k != "_id" ==> Lookup(r.value.fields, k) == Lookup(document.fields, k)
      ensures document.Obj? ==> r == Some(Stamped(document.fields, id))
    {
      StampedFields(if document.Obj? then document.fields else map[], id);
      hide MarksHold, DocsHold, DocsNamed, DocKey, NoColon, Framed, AllWanted, Stamped;
      NothingWritten(lsm.m);
      if !document.Obj? {
        return None;
      }
      var doc := Stamped(document.fields, id);
      ghost var d := DocId(coll, id);
      var oldDoc := Get(coll, id);
      if oldDoc.Some? {
        assert docs[d := docs[d]] == docs;
        UnindexDoc(coll, id, oldDoc.value, docs);
      } else {
        assert docs - {d} == docs;
      }
      PutDoc(lsm.m, docs, d, doc);
      DocKeepsMarks(lsm.m, AllWanted(dumps, indexes, docs - {d}), d, doc);
      DocIsNamed(docs, d, document.fields);
      KeysAreTagged(coll, id, Mark([], [], [], []));
      WriteIsFramed(old(lsm.m), lsm.m, DocKey(coll, id), Document(doc));
      lsm.Put(DocKey(coll, id), Document(doc));
      label indexed:
      IndexDoc(coll, id, doc, docs, docs[d := doc]);
      FramedTwice(old(lsm.m), old@indexed(lsm.m), lsm.m);
      docs := docs[d := doc];
      return Some(doc);
    }

    method Update(coll: Bytes, id: Bytes, patch: map<Bytes, Json>) returns (r: Option<Json>)
      requires Valid() && NoColon(coll) && NoColon(id)
      modifies this`docs, lsm
      ensures Valid() && Framed(old(lsm.m), lsm.m)
      ensures DocId(coll, id) !in old(docs) ==> r == None && docs == old(docs)
      ensures DocId(coll, id) in old(docs) ==>
                && old(docs)[DocId(coll, id)].Obj?
                && r.Some? && r.value.Obj? && docs == old(docs)[DocId(coll, id) := r.value]
                && Lookup(r.value.fields, "_id") == Some(Str(id))
                && forall k :: k != "_id" ==>
                     Lookup(r.value.fields, k)
                     == if k in patch then Some(patch[k]) else Lookup(old(docs)[DocId(coll, id)].fields, k)
    {
      hide MarksHold, DocsHold, NoColon, Framed, Stamped;
      NothingWritten(lsm.m);
      var doc := Get(coll, id);
      if doc == None {
        return None;
      }
      r := Insert(coll, id, Obj(doc.value.fields + patch));
    }

    method Delete(coll: Bytes, id: Bytes) returns (existed: bool)
      requires Valid() && NoColon(coll) && NoColon(id)
      modifies this`docs, lsm
      ensures Valid() && Framed(old(lsm.m), lsm.m)
      ensures existed <==> DocId(coll, id) in old(docs)
      ensures docs == old(docs) - {DocId(coll, id)}
    {
      hide MarksHold, DocsHold, DocsNamed, DocKey, NoColon, Framed, AllWanted;
      NothingWritten(lsm.m);
      ghost var d := DocId(coll, id);
      var oldDoc := Get(coll, id);
      if oldDoc == None {
        assert docs - {d} == docs;
        return false;
      }
      assert docs[d := docs[d]] == docs;
      UnindexDoc(coll, id, oldDoc.value, docs);
      PutDoc(lsm.m, docs, d, oldDoc.value);
      DocIsNamed(docs, d, map[]);
      DocKeepsMarks(lsm.m, AllWanted(dumps, indexes, docs - {d}), d, oldDoc.value);
      KeysAreTagged(coll, id, Mark([], [], [], []));
      WriteIsFramed(old(lsm.m), lsm.m, DocKey(coll, id), Marker);
      lsm.Delete(DocKey(coll, id));
      docs := docs - {d};
      return true;
    }

    /** Removes the document's entry under every indexed field of its collection. */
    method UnindexDoc(coll: Bytes, id: Bytes, doc: Json, ghost all: Docs)
      requires NoColon(coll) && NoColon(id) && forall f :: f in FieldsOf(indexes, coll) ==> NoColon(f)
      requires DocsHold(lsm.m, docs) && MarksHold(lsm.m, AllWanted(dumps, indexes, all[DocId(coll, id) := doc]))
      modifies lsm
      ensures DocsHold(lsm.m, docs) && MarksHold(lsm.m, AllWanted(dumps, indexes, all - {DocId(coll, id)}))
      ensures Framed(old(lsm.m), lsm.m)
    {
      hide MarksHold, DocsHold, IdxKey, NoColon, Framed, AllWanted, PartWanted, Nested;
      ghost var d := DocId(coll, id);
      AllOrNoFields(lsm.m, dumps, indexes, all, d, doc);
      NothingWritten(lsm.m);
      var rest := FieldsOf(indexes, coll);
      while rest != {}
        invariant rest <= FieldsOf(indexes, coll) && DocsHold(lsm.m, docs) && Framed(old(lsm.m), lsm.m)
        invariant MarksHold(lsm.m, PartWanted(dumps, indexes, all, d, doc, rest))
        decreases rest
      {
        var field :| field in rest;
        UnindexField(lsm.m, dumps, indexes, all, d, doc, rest, field);
        var val := GetNestedField(doc, field);
        if val.Some? {
          var x := Mark(coll, field, dumps(val.value), id);
          KeysAreTagged(coll, id, x);
          MarkKeepsDocs(lsm.m, docs, x);
          WriteIsFramed(old(lsm.m), lsm.m, IdxKey(x), Marker);
          lsm.Delete(IdxKey(x));
        }
        rest := rest - {field};
      }
      AllOrNoFields(lsm.m, dumps, indexes, all, d, doc);
    }

    /** Adds the document's entry under every indexed field of its collection. */
    method IndexDoc(coll: Bytes, id: Bytes, doc: Json, ghost all: Docs, ghost stored: Docs)
      requires lsm.KeepsAll()
      requires NoColon(coll) && NoColon(id) && forall f :: f in FieldsOf(indexes, coll) ==> NoColon(f)
      requires DocsHold(lsm.m, stored) && MarksHold(lsm.m, AllWanted(dumps, indexes, all - {DocId(coll, id)}))
      modifies lsm
      ensures DocsHold(lsm.m, stored) && MarksHold(lsm.m, AllWanted(dumps, indexes, all[DocId(coll, id) := doc]))
      ensures Framed(old(lsm.m), lsm.m)
    {
      hide MarksHold, DocsHold, IdxKey, NoColon, Framed, AllWanted, PartWanted, Nested;
      ghost var d := DocId(coll, id);
      AllOrNoFields(lsm.m, dumps, indexes, all, d, doc);
      NothingWritten(lsm.m);
      var rest := FieldsOf(indexes, coll);
      ghost var done := {};
      while rest != {}
        invariant rest <= FieldsOf(indexes, coll) && done == FieldsOf(indexes, coll) - rest
        invariant DocsHold(lsm.m, stored) && Framed(old(lsm.m), lsm.m)
        invariant MarksHold(lsm.m, PartWanted(dumps, indexes, all, d, doc, done))
        decreases rest
      {
        var field :| field in rest;
        IndexField(lsm.m, dumps, indexes, all, d, doc, done, field);
        var val := GetNestedField(doc, field);
        if val.Some? {
          var x := Mark(coll, field, dumps(val.value), id);
          KeysAreTagged(coll, id, x);
          MarkKeepsDocs(lsm.m, stored, x);
          WriteIsFramed(old(lsm.m), lsm.m, IdxKey(x), Marker);
          lsm.Put(IdxKey(x), Marker);
        }
        rest := rest - {field};
        done := done + {field};
      }
      assert done == FieldsOf(indexes, coll);
      AllOrNoFields(lsm.m, dumps, indexes, all, d, doc);
    }

    /** query(collection, filter_fn=keep, limit, offset): a page of the kept documents, in the order
        of their ids. Negative ends count from the end of the list. */
    method Query(coll: Bytes, keep: Json -> bool, limit: int, offset: int)
      returns (results: seq<Json>, ghost all: seq<Json>)
      requires DocsHold(lsm.m, docs) && DocsNamed(docs) && NoColon(coll)
      ensures ListsDocs(all, docs, coll) && results == Page(Kept(all, keep), offset, limit)
      ensures var kept := Kept(all, keep);
              && IdsAscend(kept) && (forall x :: x in kept <==> x in all && keep(x))
              && (offset >= 0 && limit >= 0 ==>
                    && |results| == (if offset + limit <= |kept| then limit
                                     else if offset <= |kept| then |kept| - offset else 0)
                    && forall i :: 0 <= i < |results| ==> results[i] == kept[offset + i])
              && (-|kept| <= offset < 0 && 0 <= limit < -offset ==>
                    results == kept[|kept| + offset..|kept| + offset + limit])
    {
      hide NoColon, DocPrefix, ListsPrefix, ListsDocs, DocsHold, IdOf, Kept, IdsAscend;
      KeptOfNone(keep);
      var found := lsm.ScanPrefix(DocPrefix(coll));
      results := [];
      all := [];
      for i := 0 to |found|
        invariant |all| == i && results == Kept(all, keep)
        invariant forall j :: 0 <= j < i ==> found[j].value == Document(all[j])
      {
        FoundIsDocument(found, lsm.m, docs, coll, i);
        var doc := found[i].value.doc;
        KeptStep(all, doc, keep);
        all := all + [doc];
        if keep(doc) {
          results := results + [doc];
        }
      }
      FoundAreListed(found, lsm.m, docs, coll, all);
      KeptOfListed(all, docs, coll, keep);
      results := Page(results, offset, limit);
    }

    /** Adds the field to the collection's indexes and indexes what is already stored. The
        index is complete exactly when no document past the first LIMIT needs an entry. */
    method CreateIndex(coll: Bytes, field: Bytes)
      requires Valid() && NoColon(coll) && NoColon(field)
      modifies this`indexes, lsm
      ensures indexes == WithField(old(indexes), coll, field) && Framed(old(lsm.m), lsm.m)
      ensures forall c, f ::
                (c in indexes && f in indexes[c])
                <==> (c == coll && f == field) || (c in old(indexes) && f in old(indexes)[c])
      ensures Valid() <==> WithinLimit(dumps, old(indexes), docs, coll, field)
    {
      hide MarksHold, DocsHold, NoColon, Framed, AllWanted, PartCreated, ListsDocs, Kept, IdSet, IdOf, WithinLimit,
        Reaches;
      ghost var before := indexes;
      indexes := indexes[coll := FieldsOf(indexes, coll) + {field}];
      var list;
      ghost var all;
      list, all := Query(coll, x => true, LIMIT, 0);
      AllKept(all, x => true);
      IndexExisting(coll, field, list, all, before);
      CreatedAgrees(lsm.m, dumps, before, docs, coll, field, IdSet(list));
      IdsOfNamed(docs);
      ReachIsLimit(dumps, before, docs, coll, field, all, list);
      FieldIsNamed(before, coll, field);
    }

    /** The loop of create_index over what the query returned. */
    method IndexExisting(coll: Bytes, field: Bytes, list: seq<Json>, ghost all: seq<Json>, ghost before: Indexes)
      requires lsm.KeepsAll() && Agrees(lsm.m, dumps, before, docs) && NoColon(coll) && NoColon(field)
      requires ListsDocs(all, docs, coll) && list <= all
      modifies lsm
      ensures DocsHold(lsm.m, docs) && Framed(old(lsm.m), lsm.m)
      ensures MarksHold(lsm.m, PartCreated(dumps, before, docs, coll, field, IdSet(list)))
    {
      hide MarksHold, DocsHold, IdxKey, NoColon, Framed, AllWanted, PartCreated, Nested, ListsDocs, IdSet, IdOf;
      NothingWritten(lsm.m);
      NothingCreated(lsm.m, dumps, before, docs, coll, field);
      assert list[..0] == [];
      for i := 0 to |list|
        invariant DocsHold(lsm.m, docs) && Framed(old(lsm.m), lsm.m)
        invariant MarksHold(lsm.m, PartCreated(dumps, before, docs, coll, field, IdSet(list[..i])))
      {
        ListedIsStored(all, docs, coll, list, i);
        CreateStep(lsm.m, dumps, before, docs, coll, field, IdSet(list[..i]), IdOf(list[i]));
        IdSetStep(list, i);
        var val := GetNestedField(list[i], field);
        if val.Some? {
          var x := Mark(coll, field, dumps(val.value), IdOf(list[i]));
          KeysAreTagged(coll, [], x);
          MarkKeepsDocs(lsm.m, docs, x);
          WriteIsFramed(old(lsm.m), lsm.m, IdxKey(x), Marker);
          lsm.Put(IdxKey(x), Marker);
        }
      }
      assert list[..|list|] == list;
    }
  }

  lemma FoundIsDocument(found: seq<Pair<Cell>>, m: Cells, docs: Docs, coll: Bytes, i: nat)
    requires ListsPrefix(found, m, DocPrefix(coll)) && DocsHold(m, docs) && NoColon(coll) && i < |found|
    ensures var id := found[i].key[|DocPrefix(coll)|..];
            DocPrefix(coll) <= found[i].key && DocId(coll, id) in docs &&
                found[i].value == Document(docs[DocId(coll, id)])
  {
    hide NoColon, DocKey, DocPrefix, KeysAscend;
    var id := found[i].key[|DocPrefix(coll)|..];
    var d := DocId(coll, id);
    DocKeyIsPrefixed(coll, id);
    assert found[i].key == DocPrefix(coll) + id;
    assert Lookup(m, DocKey(d.coll, d.id)) == Some(found[i].value);
  }

  lemma FoundAreListed(found: seq<Pair<Cell>>, m: Cells, docs: Docs, coll: Bytes, all: seq<Json>)
    requires ListsPrefix(found, m, DocPrefix(coll)) && DocsHold(m, docs) && NoColon(coll)
    requires forall d :: d in docs ==> docs[d].Obj? && Lookup(docs[d].fields, "_id") == Some(Str(d.id))
    requires |all| == |found| && forall j :: 0 <= j < |found| ==> found[j].value == Document(all[j])
    ensures ListsDocs(all, docs, coll)
  {
    hide NoColon, DocKey, DocPrefix, Less;
    var p := DocPrefix(coll);
    forall i | 0 <= i < |found|
      ensures found[i].key == p + IdOf(all[i]) && Lookup(docs, DocId(coll, IdOf(all[i]))) == Some(all[i])
    {
      FoundIsDocument(found, m, docs, coll, i);
    }
    forall i, j | 0 <= i < j < |all|
      ensures Less(IdOf(all[i]), IdOf(all[j]))
    {
      LessUnderPrefix(p, IdOf(all[i]), IdOf(all[j]));
    }
    forall x | Lookup(docs, DocId(coll, IdOf(x))) == Some(x)
      ensures x in all
    {
      var d := DocId(coll, IdOf(x));
      DocKeyIsPrefixed(coll, d.id);
      assert Lookup(m, DocKey(d.coll, d.id)) == Some(Document(x));
      assert HasKey(found, p + d.id);
      var i :| 0 <= i < |found| && found[i].key == p + d.id;
      SameTag(p, d.id, IdOf(all[i]));
    }
  }

  lemma ListedIsStored(all: seq<Json>, docs: Docs, coll: Bytes, list: seq<Json>, i: nat)
    requires ListsDocs(all, docs, coll) && list <= all && i < |list|
    ensures Lookup(docs, DocId(coll, IdOf(list[i]))) == Some(list[i])
  {
    hide IdOf, Less;
    assert all[i] in all;
  }

  lemma IdSetStep(list: seq<Json>, i: nat)
    requires i < |list|
    ensures IdSet(list[..i + 1]) == IdSet(list[..i]) + {IdOf(list[i])} && IdSet(list[..0]) == {}
  {
    hide IdOf;
    assert list[..i + 1] == list[..i] + [list[i]];
    assert forall x :: x in list[..i + 1] <==> x in list[..i] || x == list[i];
  }

  lemma NothingCreated(m: Cells, dumps: Dumps, indexes: Indexes, docs: Docs, coll: Bytes, f: Bytes)
    requires MarksHold(m, AllWanted(dumps, indexes, docs))
    ensures MarksHold(m, PartCreated(dumps, indexes, docs, coll, f, IdSet([])))
  {
    hide MarksHold, FieldText, IdOf;
    SameMarks(m, AllWanted(dumps, indexes, docs), PartCreated(dumps, indexes, docs, coll, f, IdSet([])));
  }

  lemma KeptOfListed(all: seq<Json>, docs: Docs, coll: Bytes, keep: Json -> bool)
    requires ListsDocs(all, docs, coll)
    ensures IdsAscend(Kept(all, keep)) && forall x :: x in Kept(all, keep) <==> x in all && keep(x)
  {
    hide IdsAscend;
    KeptAre(all, keep);
  }

  lemma KeptOfNone(keep: Json -> bool)
    ensures Kept([], keep) == []
  {
  }

  lemma KeptStep(all: seq<Json>, doc: Json, keep: Json -> bool)
    ensures Kept(all + [doc], keep) == Kept(all, keep) + if keep(doc) then [doc] else []
  {
    assert (all + [doc])[..|all|] == all;
  }

  lemma {:induction false} AllKept(all: seq<Json>, keep: Json -> bool)
    requires forall x :: keep(x)
    ensures Kept(all, keep) == all
  {
    if all != [] {
      AllKept(all[..|all| - 1], keep);
    }
  }

  /** The ids reached are those among the first LIMIT. */
  lemma ReachIsLimit(dumps: Dumps, indexes: Indexes, docs: Docs, coll: Bytes, f: Bytes, all: seq<Json>, list: seq<Json>)
    requires ListsDocs(all, docs, coll) && list == Page(all, 0, LIMIT)
    requires forall d :: d in docs ==> IdOf(docs[d]) == d.id
    ensures Reaches(dumps, indexes, docs, coll, f, IdSet(list)) <==> WithinLimit(dumps, indexes, docs, coll, f)
  {
    hide FieldText, ListsDocs, Rank, IdOf, IdSet;
    assert list == all[..|list|];
    forall id | DocId(coll, id) in docs
      ensures id in IdSet(list) <==> Rank(docs, coll, id) < LIMIT
    {
      FirstAreLowRank(all, docs, coll, |list|, id);
      if |list| < LIMIT {
        assert all[..|all|] == all == list;
        StoredIsListed(all, docs, coll, id);
      }
    }
  }

  lemma StoredIsListed(all: seq<Json>, docs: Docs, coll: Bytes, id: Bytes)
    requires ListsDocs(all, docs, coll) && DocId(coll, id) in docs && IdOf(docs[DocId(coll, id)]) == id
    ensures id in IdSet(all)
  {
    hide IdOf, Less;
    assert docs[DocId(coll, id)] in all;
  }

  lemma FieldIsNamed(indexes: Indexes, coll: Bytes, f: Bytes)
    requires FieldsNamed(indexes) && NoColon(coll) && NoColon(f)
    ensures FieldsNamed(WithField(indexes, coll, f))
  {
    hide NoColon;
  }

  lemma IdsOfNamed(docs: Docs)
    requires DocsNamed(docs)
    ensures forall d :: d in docs ==> IdOf(docs[d]) == d.id
  {
    hide NoColon;
  }
}
