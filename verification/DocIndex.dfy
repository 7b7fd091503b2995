// The cells of the document store: documents, index entries, and when they agree.
//
// An index entry is a cell whose name holds collection, field, value text and document id. A set
// of wanted entries is a predicate on such names: AllWanted is what the stored documents call for,
// PartWanted and PartCreated are the stages of the loops that write and remove entries. Agrees
// joins documents and entries; an index created over stored documents keeps it within a limit.

module DocIndex {
  import opened ByteStrings
  import opened KvKeys
  import opened Documents

  datatype Cell = Document(doc: Json) | Marker

  type Cells = map<Bytes, Cell>

  datatype DocId = DocId(coll: Bytes, id: Bytes)

  type Docs = map<DocId, Json>

  /** The indexed fields of each collection. */
  type Indexes = map<Bytes, set<Bytes>>

  function FieldsOf(indexes: Indexes, coll: Bytes): set<Bytes> {
    if coll in indexes then indexes[coll] else {}
  }

  // ---------- Names ----------

  function DocPrefix(coll: Bytes): Bytes { "__DOC__:" + (coll + ":") }

  function DocKey(coll: Bytes, id: Bytes): Bytes { "__DOC__:" + (coll + (":" + id)) }

  /** An index entry: which document has which text under which field. */
  datatype Mark = Mark(coll: Bytes, field: Bytes, text: Bytes, id: Bytes)

  function IdxKey(x: Mark): Bytes { "__DIDX__:" + (x.coll + (":" + (x.field + (":" + (x.text + (":" + x.id)))))) }

  predicate Plain(x: Mark) {
    NoColon(x.coll) && NoColon(x.field) && NoColon(x.id)
  }

  /** The text may contain colons: collection and field end at the first ones, the id starts
      after the last one. */
  lemma IdxIsInjective(x: Mark, y: Mark)
    requires Plain(x) && Plain(y)
    ensures IdxKey(x) == IdxKey(y) <==> x == y
  {
    hide NoColon;
    if IdxKey(x) == IdxKey(y) {
      var xs, ys := x.text + (":" + x.id), y.text + (":" + y.id);
      DropTag("__DIDX__:", x.coll + (":" + (x.field + (":" + xs))), y.coll + (":" + (y.field + (":" + ys))));
      FirstColon(x.coll, x.field + (":" + xs), y.coll, y.field + (":" + ys));
      FirstColon(x.field, xs, y.field, ys);
      LastColon(x.text, x.id, y.text, y.id);
    }
  }

  lemma DocKeyIsInjective(a: DocId, b: DocId)
    requires NoColon(a.coll) && NoColon(b.coll)
    ensures DocKey(a.coll, a.id) == DocKey(b.coll, b.id) <==> a == b
  {
    hide NoColon;
    if DocKey(a.coll, a.id) == DocKey(b.coll, b.id) {
      DropTag("__DOC__:", a.coll + (":" + a.id), b.coll + (":" + b.id));
      FirstColon(a.coll, a.id, b.coll, b.id);
    }
  }

  lemma DocKeyIsPrefixed(coll: Bytes, id: Bytes)
    ensures DocKey(coll, id) == DocPrefix(coll) + id
  {
  }

  lemma KeysDiffer(coll: Bytes, id: Bytes, x: Mark)
    ensures DocKey(coll, id) != IdxKey(x) && DocKey(coll, id) != [] && IdxKey(x) != []
  {
    assert DocKey(coll, id)[3] == 'O' && IdxKey(x)[3] == 'I';
  }

  // ---------- Agreement ----------

  type Dumps = Json -> Bytes

  /** The text under which the document appears in the index of a field. */
  function FieldText(dumps: Dumps, doc: Json, field: Bytes): Option<Bytes> {
    var v := Nested(doc, field);
    if v == None then None else Some(dumps(v.value))
  }

  /** The entry that the stored documents and the indexed fields call for. */
  predicate Wanted(dumps: Dumps, indexes: Indexes, docs: Docs, x: Mark) {
    && x.field in FieldsOf(indexes, x.coll)
    && DocId(x.coll, x.id) in docs
    && FieldText(dumps, docs[DocId(x.coll, x.id)], x.field) == Some(x.text)
  }

  function AllWanted(dumps: Dumps, indexes: Indexes, docs: Docs): Mark -> bool {
    x => Wanted(dumps, indexes, docs, x)
  }

  ghost predicate DocsHold(m: Cells, docs: Docs) {
    forall d: DocId :: NoColon(d.coll) ==>
      Lookup(m, DocKey(d.coll, d.id)) == if d in docs then Some(Document(docs[d])) else None
  }

  /** The index entries are exactly the marks. */
  ghost predicate MarksHold(m: Cells, marks: Mark -> bool) {
    forall x: Mark :: Plain(x) ==> (IdxKey(x) in m <==> marks(x))
  }

  /** Documents are dicts that carry their id; collections and ids contain no colon. */
  ghost predicate DocsNamed(docs: Docs) {
    forall d :: d in docs ==>
      NoColon(d.coll) && NoColon(d.id) && docs[d].Obj? && Lookup(docs[d].fields, "_id") == Some(Str(d.id))
  }

  ghost predicate FieldsNamed(indexes: Indexes) {
    forall c :: c in indexes ==> NoColon(c) && forall f :: f in indexes[c] ==> NoColon(f)
  }

  /** Every indexed document has its entry, and no entry is stale. */
  ghost predicate Agrees(m: Cells, dumps: Dumps, indexes: Indexes, docs: Docs) {
    && DocsNamed(docs) && FieldsNamed(indexes)
    && DocsHold(m, docs)
    && MarksHold(m, AllWanted(dumps, indexes, docs))
  }

  /** Where index and documents agree, there is an entry for a text exactly if the field is
      indexed and a stored document has that text there. */
  lemma EntriesAreWanted(m: Cells, dumps: Dumps, indexes: Indexes, docs: Docs, coll: Bytes, field: Bytes, text: Bytes,
                         id: Bytes)
    requires Agrees(m, dumps, indexes, docs) && NoColon(coll) && NoColon(field) && NoColon(id)
    ensures IdxKey(Mark(coll, field, text, id)) in m
       <==> && coll in indexes && field in indexes[coll]
            && DocId(coll, id) in docs
            && var found := Nested(docs[DocId(coll, id)], field);
               found.Some? && dumps(found.value) == text
  {
    hide NoColon, IdxKey, Nested, DocsHold;
    var x := Mark(coll, field, text, id);
    assert Plain(x);
    assert AllWanted(dumps, indexes, docs)(x) == Wanted(dumps, indexes, docs, x);
  }

  /** An empty store holds no documents and needs no entries. */
  lemma NothingStored(dumps: Dumps)
    ensures Agrees(map[], dumps, map[], map[])
  {
  }

  // ---------- One cell at a time ----------

  lemma PutMark(m: Cells, marks: Mark -> bool, more: Mark -> bool, x: Mark)
    requires MarksHold(m, marks) && Plain(x)
    requires forall y :: more(y) <==> marks(y) || y == x
    ensures MarksHold(m[IdxKey(x) := Marker], more)
  {
    hide IdxKey, Plain;
    forall y | Plain(y)
      ensures IdxKey(y) == IdxKey(x) <==> y == x
    {
      IdxIsInjective(y, x);
    }
  }

  lemma DropMark(m: Cells, marks: Mark -> bool, fewer: Mark -> bool, x: Mark)
    requires MarksHold(m, marks) && Plain(x)
    requires forall y :: fewer(y) <==> marks(y) && y != x
    ensures MarksHold(m - {IdxKey(x)}, fewer)
  {
    hide IdxKey, Plain;
    forall y | Plain(y)
      ensures IdxKey(y) == IdxKey(x) <==> y == x
    {
      IdxIsInjective(y, x);
    }
  }

  lemma SameMarks(m: Cells, marks: Mark -> bool, other: Mark -> bool)
    requires forall y :: Plain(y) ==> (marks(y) <==> other(y))
    ensures MarksHold(m, marks) <==> MarksHold(m, other)
  {
    hide IdxKey, Plain;
    assert MarksHold(m, marks) ==> MarksHold(m, other);
    assert MarksHold(m, other) ==> MarksHold(m, marks);
  }

  lemma MarkKeepsDocs(m: Cells, docs: Docs, x: Mark)
    requires DocsHold(m, docs)
    ensures DocsHold(m[IdxKey(x) := Marker], docs) && DocsHold(m - {IdxKey(x)}, docs)
  {
    hide IdxKey, DocKey, NoColon;
    forall d: DocId
      ensures DocKey(d.coll, d.id) != IdxKey(x)
    {
      KeysDiffer(d.coll, d.id, x);
    }
  }

  lemma PutDoc(m: Cells, docs: Docs, d: DocId, doc: Json)
    requires DocsHold(m, docs) && NoColon(d.coll)
    ensures DocsHold(m[DocKey(d.coll, d.id) := Document(doc)], docs[d := doc])
    ensures DocsHold(m - {DocKey(d.coll, d.id)}, docs - {d})
  {
    hide DocKey, NoColon;
    forall e: DocId | NoColon(e.coll)
      ensures DocKey(e.coll, e.id) == DocKey(d.coll, d.id) <==> e == d
    {
      DocKeyIsInjective(e, d);
    }
  }

  lemma DocKeepsMarks(m: Cells, marks: Mark -> bool, d: DocId, doc: Json)
    requires MarksHold(m, marks)
    ensures MarksHold(m[DocKey(d.coll, d.id) := Document(doc)], marks) && MarksHold(m - {DocKey(d.coll, d.id)}, marks)
  {
    hide IdxKey, DocKey, Plain;
    forall x: Mark
      ensures DocKey(d.coll, d.id) != IdxKey(x)
    {
      KeysDiffer(d.coll, d.id, x);
    }
  }

  // ---------- The entries of one document, field by field ----------

  /** The entries of all other documents, and those of one document for some fields. */
  function PartWanted(dumps: Dumps, indexes: Indexes, docs: Docs, d: DocId, doc: Json,
                      fields: set<Bytes>): Mark -> bool {
    (x: Mark) => if DocId(x.coll, x.id) == d then x.field in fields && FieldText(dumps, doc, x.field) == Some(x.text)
         else Wanted(dumps, indexes, docs, x)
  }

  lemma IndexField(m: Cells, dumps: Dumps, indexes: Indexes, docs: Docs, d: DocId, doc: Json, fields: set<Bytes>,
                   f: Bytes)
    requires MarksHold(m, PartWanted(dumps, indexes, docs, d, doc, fields))
    requires NoColon(d.coll) && NoColon(d.id) && NoColon(f)
    ensures var t := FieldText(dumps, doc, f);
            var m' := if t == None then m else m[IdxKey(Mark(d.coll, f, t.value, d.id)) := Marker];
            MarksHold(m', PartWanted(dumps, indexes, docs, d, doc, fields + {f}))
  {
    hide MarksHold, FieldText, Wanted, NoColon, IdxKey;
    var before, after := PartWanted(dumps, indexes, docs, d, doc, fields),
        PartWanted(dumps, indexes, docs, d, doc, fields + {f});
    var t := FieldText(dumps, doc, f);
    if t == None {
      SameMarks(m, before, after);
    } else {
      PutMark(m, before, after, Mark(d.coll, f, t.value, d.id));
    }
  }

  lemma UnindexField(m: Cells, dumps: Dumps, indexes: Indexes, docs: Docs, d: DocId, doc: Json, fields: set<Bytes>,
                     f: Bytes)
    requires MarksHold(m, PartWanted(dumps, indexes, docs, d, doc, fields))
    requires NoColon(d.coll) && NoColon(d.id) && NoColon(f)
    ensures var t := FieldText(dumps, doc, f);
            var m' := if t == None then m else m - {IdxKey(Mark(d.coll, f, t.value, d.id))};
            MarksHold(m', PartWanted(dumps, indexes, docs, d, doc, fields - {f}))
  {
    hide MarksHold, FieldText, Wanted, NoColon, IdxKey;
    var before, after := PartWanted(dumps, indexes, docs, d, doc, fields),
        PartWanted(dumps, indexes, docs, d, doc, fields - {f});
    var t := FieldText(dumps, doc, f);
    if t == None {
      SameMarks(m, before, after);
    } else {
      DropMark(m, before, after, Mark(d.coll, f, t.value, d.id));
    }
  }

  /** All fields of the document make it fully indexed, none of them leaves only the others. */
  lemma AllOrNoFields(m: Cells, dumps: Dumps, indexes: Indexes, docs: Docs, d: DocId, doc: Json)
    ensures MarksHold(m, PartWanted(dumps, indexes, docs, d, doc, FieldsOf(indexes, d.coll)))
       <==> MarksHold(m, AllWanted(dumps, indexes, docs[d := doc]))
    ensures MarksHold(m, PartWanted(dumps, indexes, docs, d, doc, {}))
       <==> MarksHold(m, AllWanted(dumps, indexes, docs - {d}))
  {
    hide MarksHold, FieldText, NoColon, IdxKey;
    SameMarks(m, PartWanted(dumps, indexes, docs, d, doc, FieldsOf(indexes, d.coll)),
        AllWanted(dumps, indexes, docs[d := doc]));
    SameMarks(m, PartWanted(dumps, indexes, docs, d, doc, {}), AllWanted(dumps, indexes, docs - {d}));
  }

  // ---------- The documents of a collection in order ----------

  function IdOf(doc: Json): Bytes {
    if doc.Obj? && "_id" in doc.fields && doc.fields["_id"].Str? then doc.fields["_id"].s else []
  }

  ghost predicate IdsAscend(all: seq<Json>) {
    forall i, j :: 0 <= i < j < |all| ==> Less(IdOf(all[i]), IdOf(all[j]))
  }

  /** all lists the documents of the collection once, by ascending id. */
  ghost predicate ListsDocs(all: seq<Json>, docs: Docs, coll: Bytes) {
    && IdsAscend(all)
    && (forall x :: x in all <==> Lookup(docs, DocId(coll, IdOf(x))) == Some(x))
  }

  function IdsIn(docs: Docs, coll: Bytes): set<Bytes> {
    set d: DocId | d in docs && d.coll == coll :: d.id
  }

  /** How many documents of the collection come before an id. */
  function Rank(docs: Docs, coll: Bytes, id: Bytes): nat {
    |Earlier(docs, coll, id)|
  }

  function Earlier(docs: Docs, coll: Bytes, id: Bytes): set<Bytes> {
    set d: DocId | d in docs && d.coll == coll && Less(d.id, id) :: d.id
  }

  function IdSet(all: seq<Json>): set<Bytes> {
    set x | x in all :: IdOf(x)
  }

  lemma {:induction false} IdSetCount(all: seq<Json>)
    requires IdsAscend(all)
    ensures |IdSet(all)| == |all|
  {
    hide Less, IdOf;
    if all != [] {
      var n := |all| - 1;
      IdSetCount(all[..n]);
      assert all == all[..n] + [all[n]];
      forall x | x in all[..n]
        ensures IdOf(x) != IdOf(all[n])
      {
        var i :| 0 <= i < n && all[i] == x;
        LessIsIrreflexive(IdOf(x));
      }
      assert IdSet(all) == IdSet(all[..n]) + {IdOf(all[n])};
    }
  }

  /** The position of a document in the listing is the number of smaller ids. */
  lemma PositionIsRank(all: seq<Json>, docs: Docs, coll: Bytes, i: nat)
    requires ListsDocs(all, docs, coll) && i < |all| && forall d :: d in docs ==> IdOf(docs[d]) == d.id
    ensures Rank(docs, coll, IdOf(all[i])) == i
  {
    hide Less, IdOf;
    var id := IdOf(all[i]);
    IdSetCount(all[..i]);
    forall e
      ensures e in Earlier(docs, coll, id) <==> e in IdSet(all[..i])
    {
      if e in Earlier(docs, coll, id) {
        var x := docs[DocId(coll, e)];
        assert x in all;
        var j :| 0 <= j < |all| && all[j] == x;
        LessIsIrreflexive(id);
        if i < j {
          LessIsTransitive(e, id, e);
          LessIsIrreflexive(e);
        }
        assert all[..i][j] == x;
      }
      if e in IdSet(all[..i]) {
        var x :| x in all[..i] && IdOf(x) == e;
        assert x in all;
      }
    }
    assert Earlier(docs, coll, id) == IdSet(all[..i]);
  }

  /** The first n documents of the listing are those with rank below n. */
  lemma FirstAreLowRank(all: seq<Json>, docs: Docs, coll: Bytes, n: nat, id: Bytes)
    requires ListsDocs(all, docs, coll) && n <= |all| && forall d :: d in docs ==> IdOf(docs[d]) == d.id
    ensures id in IdSet(all[..n]) <==> DocId(coll, id) in docs && Rank(docs, coll, id) < n
  {
    hide Less, IdOf, Rank, IdsAscend;
    if DocId(coll, id) in docs {
      assert docs[DocId(coll, id)] in all;
      var i :| 0 <= i < |all| && all[i] == docs[DocId(coll, id)];
      PositionIsRank(all, docs, coll, i);
      if i < n {
        assert all[..n][i] == all[i];
      }
    }
    if id in IdSet(all[..n]) {
      var x :| x in all[..n] && IdOf(x) == id;
      assert x in all;
      var j :| 0 <= j < n && all[..n][j] == x;
      PositionIsRank(all, docs, coll, j);
    }
  }

  // ---------- Indexing what is already stored ----------

  function WithField(indexes: Indexes, coll: Bytes, f: Bytes): Indexes {
    indexes[coll := FieldsOf(indexes, coll) + {f}]
  }

  /** The entries before the index was created, and the new field's for some documents. */
  function PartCreated(dumps: Dumps, indexes: Indexes, docs: Docs, coll: Bytes, f: Bytes,
                       ids: set<Bytes>): Mark -> bool {
    (x: Mark) =>
      || Wanted(dumps, indexes, docs, x)
      || (x.coll == coll && x.field == f && x.id in ids && Wanted(dumps, WithField(indexes, coll, f), docs, x))
  }

  /** Every document that needs an entry was among those indexed. */
  ghost predicate Reaches(dumps: Dumps, indexes: Indexes, docs: Docs, coll: Bytes, f: Bytes, ids: set<Bytes>) {
    || f in FieldsOf(indexes, coll)
    || forall id :: DocId(coll, id) in docs && FieldText(dumps, docs[DocId(coll, id)], f) != None ==> id in ids
  }

  lemma CreateStep(m: Cells, dumps: Dumps, indexes: Indexes, docs: Docs, coll: Bytes, f: Bytes, ids: set<Bytes>,
                   id: Bytes)
    requires MarksHold(m, PartCreated(dumps, indexes, docs, coll, f, ids))
    requires NoColon(coll) && NoColon(f) && NoColon(id) && DocId(coll, id) in docs
    ensures var t := FieldText(dumps, docs[DocId(coll, id)], f);
            var m' := if t == None then m else m[IdxKey(Mark(coll, f, t.value, id)) := Marker];
            MarksHold(m', PartCreated(dumps, indexes, docs, coll, f, ids + {id}))
  {
    hide MarksHold, FieldText, NoColon, IdxKey;
    var before, after := PartCreated(dumps, indexes, docs, coll, f, ids),
        PartCreated(dumps, indexes, docs, coll, f, ids + {id});
    var t := FieldText(dumps, docs[DocId(coll, id)], f);
    if t == None {
      SameMarks(m, before, after);
    } else {
      PutMark(m, before, after, Mark(coll, f, t.value, id));
    }
  }

  /** The new index is complete exactly when it reached every document that needs an entry. */
  lemma CreatedAgrees(m: Cells, dumps: Dumps, indexes: Indexes, docs: Docs, coll: Bytes, f: Bytes, ids: set<Bytes>)
    requires MarksHold(m, PartCreated(dumps, indexes, docs, coll, f, ids))
    requires NoColon(coll) && NoColon(f) && forall d :: d in docs ==> NoColon(d.id)
    ensures MarksHold(m, AllWanted(dumps, WithField(indexes, coll, f), docs))
            <==> Reaches(dumps, indexes, docs, coll, f, ids)
  {
    hide FieldText, NoColon, IdxKey;
    var got, all := PartCreated(dumps, indexes, docs, coll, f, ids),
        AllWanted(dumps, WithField(indexes, coll, f), docs);
    if Reaches(dumps, indexes, docs, coll, f, ids) {
      SameMarks(m, got, all);
    } else {
      var id :| DocId(coll, id) in docs && FieldText(dumps, docs[DocId(coll, id)], f) != None && id !in ids;
      var x := Mark(coll, f, FieldText(dumps, docs[DocId(coll, id)], f).value, id);
      assert Plain(x) && all(x) && !got(x);
      assert IdxKey(x) !in m;
    }
  }
}
