// What a key of each type holds, and why commands on one key leave the others alone.

module KvTyped {
  import opened ByteStrings
  import opened Numerals
  import opened KvKeys
  import opened Store
  import opened KvLists
  import opened KvFields
  import opened KvPurge
  import opened KvSteps

  datatype Kind = ListKind | HashKind | SetKind | ZSetKind

  datatype Coll =
    | List(xs: seq<Element>)
    | Hash(fields: map<Bytes, Bytes>)
    | Set(members: set<Bytes>)
    | ZSet(scores: map<Bytes, real>)
  {
    function Kind(): Kind {
      match this
      case List(_) => ListKind
      case Hash(_) => HashKind
      case Set(_) => SetKind
      case ZSet(_) => ZSetKind
    }
  }

  function Empty(kind: Kind): (c: Coll)
    ensures c.Kind() == kind
  {
    match kind
    case ListKind => List([])
    case HashKind => Hash(map[])
    case SetKind => Set({})
    case ZSetKind => ZSet(map[])
  }

  /** What a key stands for: a collection, whether the key has a type, and whether it has
      a deadline. */
  datatype Value = Value(coll: Coll, typed: bool, expiring: bool)

  function Gone(kind: Kind): Value {
    Value(Empty(kind), false, false)
  }

  function Tag(kind: Kind): Bytes {
    match kind
    case ListKind => "__L__:"
    case HashKind => "__H__:"
    case SetKind => "__S__:"
    case ZSetKind => "__Z__:"
  }

  function TypeName(kind: Kind): Bytes {
    match kind
    case ListKind => LIST
    case HashKind => HASH
    case SetKind => SET_TYPE
    case ZSetKind => ZSET
  }

  /** Where the cells of a hash, set or sorted set lie. */
  function Prefix(kind: Kind, key: Bytes): Bytes {
    Tag(kind) + key + ":"
  }

  ghost predicate HasColl(floats: Floats, m: map<Bytes, Bytes>, key: Bytes, c: Coll) {
    match c
    case List(xs) => IsList(m, key, xs)
    case Hash(fields) => Fields(m, Prefix(HashKind, key)) == fields
    case Set(members) => Fields(m, Prefix(SetKind, key)).Keys == members
    case ZSet(scores) => Scores(floats, m, key) == scores
  }

  predicate HasMarks(m: map<Bytes, Bytes>, key: Bytes, v: Value) {
    && Lookup(m, TypeKey(key)) == (if v.typed then Some(TypeName(v.coll.Kind())) else None)
    && (v.expiring <==> ExpKey(key) in m)
    && (!v.typed ==> v.coll == Empty(v.coll.Kind()))
  }

  ghost predicate Holds(floats: Floats, m: map<Bytes, Bytes>, key: Bytes, v: Value) {
    HasMarks(m, key, v) && HasColl(floats, m, key, v.coll)
  }

  // ---------- Frames ----------

  /** The cells that commands on a key of this kind may touch. */
  ghost predicate Owns(kind: Kind, key: Bytes, k: Bytes) {
    if kind == ListKind then Owned(key, k)
    else Prefix(kind, key) <= k || k == TypeKey(key) || k == ExpKey(key)
  }

  ghost predicate Touches(m: map<Bytes, Bytes>, m': map<Bytes, Bytes>, kind: Kind, key: Bytes) {
    forall k :: !Owns(kind, key, k) ==> Lookup(m', k) == Lookup(m, k)
  }

  lemma TouchesTwice(m: map<Bytes, Bytes>, m': map<Bytes, Bytes>, m'': map<Bytes, Bytes>, kind: Kind, key: Bytes)
    requires Touches(m, m', kind, key) && Touches(m', m'', kind, key)
    ensures Touches(m, m'', kind, key)
  {
    hide Owns;
  }

  lemma TypeAndExpiryDiffer(kind: Kind, key: Bytes)
    ensures TypeKey(key) != ExpKey(key)
    ensures kind != ListKind ==> !(Prefix(kind, key) <= TypeKey(key)) && !(Prefix(kind, key) <= ExpKey(key))
  {
    KindsDiffer(key, key, 0);
    assert Prefix(kind, key)[2] == Tag(kind)[2] && TypeKey(key)[2] == 'T' && ExpKey(key)[2] == 'E';
  }

  /** Marks and list cells of another key are never touched. */
  lemma NotOwns(kind: Kind, key: Bytes, other: Bytes)
    requires key != other
    ensures !Owns(kind, key, TypeKey(other)) && !Owns(kind, key, ExpKey(other)) && !Owns(kind, key, MetaKey(other))
    ensures forall i: int :: !Owns(kind, key, Cell(other, i))
  {
    hide Cell, IntText;
    if kind == ListKind {
      NotOwned(key, other);
      forall i: int
        ensures !Owned(key, Cell(other, i))
      {
        CellNotOwned(key, other, i);
      }
    } else {
      SameTag("__TYPE__:", key, other);
      SameTag("__EXP__:", key, other);
      KindsDiffer(other, key, 0);
      KindsDiffer(key, other, 0);
      assert Prefix(kind, key)[2] == Tag(kind)[2];
      assert TypeKey(other)[2] == 'T' && ExpKey(other)[2] == 'E' && MetaKey(other)[2] == 'L';
      forall i: int
        ensures !Owns(kind, key, Cell(other, i))
      {
        KindsDiffer(other, key, i);
        TagOfCell(other, i);
      }
    }
  }

  lemma TagOfCell(key: Bytes, i: int)
    ensures |Cell(key, i)| > 2 && Cell(key, i)[2] == 'L'
  {
    hide IntText;
  }

  /** Cells of another collection are not touched, if keys of one kind are apart. */
  lemma DataNotOwned(kind: Kind, key: Bytes, otherKind: Kind, other: Bytes, f: Bytes)
    requires otherKind != ListKind && (kind == otherKind ==> Apart(key, other))
    ensures !Owns(kind, key, Prefix(otherKind, other) + f)
  {
    hide Cell, Apart;
    var k := Prefix(otherKind, other) + f;
    assert k[2] == Tag(otherKind)[2] && TypeKey(key)[2] == 'T' && ExpKey(key)[2] == 'E' && MetaKey(key)[2] == 'L';
    forall i: int
      ensures k != Cell(key, i)
    {
      TagOfCell(key, i);
    }
    if kind == otherKind {
      ApartIsSymmetric(key, other);
      ApartPrefix(Tag(kind), other, key, f);
    } else {
      assert Prefix(kind, key)[2] == Tag(kind)[2];
    }
  }

  /** Commands on one key leave every other key of the run as it was. */
  lemma OthersStay(floats: Floats, m: map<Bytes, Bytes>, m': map<Bytes, Bytes>, kind: Kind, key: Bytes, other: Bytes,
                   v: Value)
    requires Touches(m, m', kind, key) && key != other && Holds(floats, m, other, v)
    requires kind == v.coll.Kind() && kind != ListKind ==> Apart(key, other)
    ensures Holds(floats, m', other, v)
  {
    hide Owns, Fields, IsList, TypeKey, ExpKey, Apart, Prefix;
    NotOwns(kind, key, other);
    assert Lookup(m', TypeKey(other)) == Lookup(m, TypeKey(other));
    assert Lookup(m', ExpKey(other)) == Lookup(m, ExpKey(other));
    var otherKind := v.coll.Kind();
    if otherKind == ListKind {
      SameList(m, m', kind, key, other, v.coll.xs);
    } else {
      SameCollection(m, m', kind, key, otherKind, other);
      SamePrefixes(other);
    }
  }

  lemma SameList(m: map<Bytes, Bytes>, m': map<Bytes, Bytes>, kind: Kind, key: Bytes, other: Bytes, xs: seq<Element>)
    requires Touches(m, m', kind, key) && key != other && IsList(m, other, xs)
    ensures IsList(m', other, xs)
  {
    hide Owns, Cell, ReadMeta, TypeKey, MetaKey;
    NotOwns(kind, key, other);
    forall i: int
      ensures Lookup(m', Cell(other, i)) == Lookup(m, Cell(other, i))
    {
      assert !Owns(kind, key, Cell(other, i));
    }
    assert Lookup(m', MetaKey(other)) == Lookup(m, MetaKey(other));
    assert Lookup(m', TypeKey(other)) == Lookup(m, TypeKey(other));
    CellsIgnore(m, m', other, Meta(m, other).0, xs);
  }

  lemma SameCollection(m: map<Bytes, Bytes>, m': map<Bytes, Bytes>, kind: Kind, key: Bytes, otherKind: Kind,
                       other: Bytes)
    requires Touches(m, m', kind, key) && otherKind != ListKind && (kind == otherKind ==> Apart(key, other))
    ensures Fields(m', Prefix(otherKind, other)) == Fields(m, Prefix(otherKind, other))
  {
    hide Owns, Fields, Prefix, Apart;
    var q := Prefix(otherKind, other);
    forall f
      ensures Lookup(Fields(m', q), f) == Lookup(Fields(m, q), f)
    {
      DataNotOwned(kind, key, otherKind, other, f);
      FieldsLookup(m, q, f);
      FieldsLookup(m', q, f);
    }
    SameFields(Fields(m', q), Fields(m, q));
  }

  // ---------- Keys without a type ----------

  /** The key has no cell of this kind. */
  ghost predicate Bare(m: map<Bytes, Bytes>, key: Bytes, kind: Kind) {
    if kind == ListKind then MetaKey(key) !in m && forall i: int :: Cell(key, i) !in m
    else Fields(m, Prefix(kind, key)) == map[]
  }

  /** The key holds its collection, and nothing of the other kinds it is used with. */
  ghost predicate Stands(floats: Floats, m: map<Bytes, Bytes>, key: Bytes, v: Value, kinds: set<Kind>) {
    Holds(floats, m, key, v) && forall kind :: kind in kinds && kind != v.coll.Kind() ==> Bare(m, key, kind)
  }

  /** Without a type, holding the empty collection of a kind is having no cell of that kind. */
  lemma UntypedIsBare(floats: Floats, m: map<Bytes, Bytes>, key: Bytes, kind: Kind)
    requires TypeKey(key) !in m
    ensures HasColl(floats, m, key, Empty(kind)) <==> Bare(m, key, kind)
  {
    hide Fields, Cell, ReadMeta, TypeKey, MetaKey, Prefix, ZSetPrefix;
    SamePrefixes(key);
    if kind == ZSetKind {
      ScoresKeys(floats, m, key);
    }
  }

  /** A key without a type can be taken up as a key of any of its kinds. */
  lemma TakenUp(floats: Floats, m: map<Bytes, Bytes>, key: Bytes, v: Value, kinds: set<Kind>, kind: Kind)
    requires Stands(floats, m, key, v, kinds) && !v.typed && kind in kinds
    ensures Stands(floats, m, key, Value(Empty(kind), false, v.expiring), kinds)
  {
    hide HasColl, Bare, TypeKey, ExpKey;
    UntypedIsBare(floats, m, key, v.coll.Kind());
    UntypedIsBare(floats, m, key, kind);
  }

  lemma OwnCellsOfLists(kind: Kind, key: Bytes)
    requires kind != ListKind
    ensures !Owns(kind, key, MetaKey(key)) && forall i: int :: !Owns(kind, key, Cell(key, i))
  {
    hide Cell;
    assert Prefix(kind, key)[2] == Tag(kind)[2] && MetaKey(key)[2] == 'L';
    KindsDiffer(key, key, 0);
    forall i: int
      ensures !Owns(kind, key, Cell(key, i))
    {
      KindsDiffer(key, key, i);
      TagOfCell(key, i);
    }
  }

  /** Commands do not write cells of another kind or of a key apart. */
  lemma BareStays(m: map<Bytes, Bytes>, m': map<Bytes, Bytes>, kind: Kind, key: Bytes, other: Bytes, otherKind: Kind)
    requires Touches(m, m', kind, key) && Bare(m, other, otherKind)
    requires key != other || kind != otherKind
    requires kind == otherKind && kind != ListKind ==> Apart(key, other)
    ensures Bare(m', other, otherKind)
  {
    hide Owns, Fields, Apart, Prefix, Cell, MetaKey;
    if otherKind == ListKind {
      if key == other {
        OwnCellsOfLists(kind, key);
      } else {
        NotOwns(kind, key, other);
      }
      assert Lookup(m', MetaKey(other)) == Lookup(m, MetaKey(other));
      forall i: int
        ensures Cell(other, i) !in m'
      {
        assert !Owns(kind, key, Cell(other, i));
        assert Lookup(m', Cell(other, i)) == Lookup(m, Cell(other, i));
      }
    } else {
      SameCollection(m, m', kind, key, otherKind, other);
    }
  }

  // ---------- Expiry and deletion ----------

  /** A purge leaves nothing of the key and nothing else touched. */
  lemma PurgedValue(floats: Floats, m: map<Bytes, Bytes>, m': map<Bytes, Bytes>, key: Bytes, v: Value)
    requires Holds(floats, m, key, v) && IsPurged(m, m', key)
    ensures Holds(floats, m', key, Gone(v.coll.Kind())) && Touches(m, m', v.coll.Kind(), key)
  {
    var kind := v.coll.Kind();
    if kind == ListKind {
      hide IsPurged, IsList, TypeKey, ExpKey, Owned;
      PurgedList(m, m', key, v.coll.xs);
    } else {
      PurgeFrame(m, m', key, kind, v.typed);
      hide IsPurged, Purges, Fields, TypeKey, ExpKey, Prefix, HashPrefix, SetPrefix, ZSetPrefix;
      if v.typed {
        PurgedFields(m, m', key);
        SamePrefixes(key);
      }
    }
  }

  lemma SamePrefixes(key: Bytes)
    ensures Prefix(HashKind, key) == HashPrefix(key)
    ensures Prefix(SetKind, key) == SetPrefix(key)
    ensures Prefix(ZSetKind, key) == ZSetPrefix(key)
  {
  }

  lemma PurgeFrame(m: map<Bytes, Bytes>, m': map<Bytes, Bytes>, key: Bytes, kind: Kind, typed: bool)
    requires IsPurged(m, m', key) && kind != ListKind
    requires Lookup(m, TypeKey(key)) == if typed then Some(TypeName(kind)) else None
    ensures Touches(m, m', kind, key)
    ensures TypeKey(key) !in m' && ExpKey(key) !in m'
    ensures !typed ==> Fields(m', Prefix(kind, key)) == Fields(m, Prefix(kind, key))
  {
    hide Fields, TypeKey, ExpKey, MetaKey, ValueKey, InCells, Meta, HashPrefix, SetPrefix, ZSetPrefix, Prefix;
    NamesOfTypes();
    SamePrefixes(key);
    forall k
      ensures Purges(m, key, k) ==> Owns(kind, key, k) && (!typed ==> k == ExpKey(key))
    {
    }
    TypeAndExpiryDiffer(kind, key);
    assert Lookup(m', TypeKey(key)) == None && Lookup(m', ExpKey(key)) == None;
    if !typed {
      var p := Prefix(kind, key);
      forall f
        ensures Lookup(Fields(m', p), f) == Lookup(Fields(m, p), f)
      {
        FieldsLookup(m, p, f);
        FieldsLookup(m', p, f);
        assert p <= p + f;
      }
      SameFields(Fields(m', p), Fields(m, p));
    }
  }

  lemma NamesOfTypes()
    ensures HASH != [] && SET_TYPE != [] && ZSET != [] && LIST != []
    ensures HASH != LIST && SET_TYPE != LIST && ZSET != LIST && HASH != SET_TYPE && HASH != ZSET && SET_TYPE != ZSET
    ensures HASH != STRING && SET_TYPE != STRING && ZSET != STRING && LIST != STRING
  {
    TypesDiffer();
    assert HASH[0] == 'h' && SET_TYPE[0] == 's' && SET_TYPE[1] == 'e' && ZSET[0] == 'z' && STRING[0] == 's' &&
           STRING[1] == 't';
  }

  /** What the expiry check leaves of a key. */
  lemma SettledValue(floats: Floats, m: map<Bytes, Bytes>, m': map<Bytes, Bytes>, key: Bytes, v: Value, expired: bool)
    requires Holds(floats, m, key, v) && Settled(m, m', key, expired)
    ensures Holds(floats, m', key, if expired then Gone(v.coll.Kind()) else v)
    ensures Touches(m, m', v.coll.Kind(), key)
    ensures expired ==> v.expiring
  {
    hide IsPurged, HasColl, Owns;
    if expired {
      PurgedValue(floats, m, m', key, v);
    }
  }

  /** What a write under the prefix leaves: the new collection, and the deadline as it was. */
  lemma WrittenValue(floats: Floats, m: map<Bytes, Bytes>, m': map<Bytes, Bytes>, key: Bytes, v: Value, c: Coll)
    requires Holds(floats, m, key, v) && c.Kind() == v.coll.Kind() != ListKind && HasColl(floats, m', key, c)
    requires OnlyUnder(m, m', Prefix(c.Kind(), key), key)
    requires Lookup(m', TypeKey(key)) in {Some(TypeName(c.Kind())), Lookup(m, TypeKey(key))}
    requires TypeKey(key) !in m' ==> c == Empty(c.Kind())
    ensures Holds(floats, m', key, Value(c, TypeKey(key) in m', v.expiring)) && Touches(m, m', c.Kind(), key)
  {
    hide HasColl, Prefix, TypeKey, ExpKey;
    TypeAndExpiryDiffer(c.Kind(), key);
    assert Lookup(m', ExpKey(key)) == Lookup(m, ExpKey(key));
  }

  /** A deadline that is set or lifted leaves the collection alone. */
  lemma DeadlineOnly(floats: Floats, m: map<Bytes, Bytes>, key: Bytes, v: Value, slot: Option<Bytes>)
    requires Holds(floats, m, key, v)
    ensures var m' := WithSlot(m, ExpKey(key), slot);
            && Holds(floats, m', key, v.(expiring := slot.Some?)) && Touches(m, m', v.coll.Kind(), key)
  {
    hide Fields, Cell, ReadMeta, Prefix, TypeKey, ExpKey, MetaKey, CellsHold;
    var m', kind := WithSlot(m, ExpKey(key), slot), v.coll.Kind();
    TypeAndExpiryDiffer(kind, key);
    KindsDiffer(key, key, 0);
    if kind == ListKind {
      forall i: int
        ensures Lookup(m', Cell(key, i)) == Lookup(m, Cell(key, i))
      {
        KindsDiffer(key, key, i);
      }
      CellsIgnore(m, m', key, Meta(m, key).0, v.coll.xs);
    } else {
      SamePrefixes(key);
      FieldsIgnore(m, Prefix(kind, key), ExpKey(key), if slot.Some? then slot.value else []);
    }
  }
}
