// Whole runs of commands: the engine against plain collections, one per key.
//
// The value of a key is the collection it stands for, whether it has a type cell, and whether
// it has a deadline. A key without a type may be taken up with any type. Outcome says what one command must achieve:
// the reply of the plain collection, the collection afterwards, and no cell touched that the
// key does not own. Each engine method is brought into that shape first (Read, Listed, Wrote),
// then one method per type runs its commands, and Run goes through a whole sequence. When a key
// falls due is up to the clock, so a run also yields the fate that each command met.

module KvRuns {
  import opened ByteStrings
  import opened KvKeys
  import opened KvLists
  import opened KvFields
  import opened KvSorted
  import opened KvPurge
  import opened KvSteps
  import opened KvTyped
  import opened KvCommands
  import opened KvEngine
  import opened Store

  datatype Command = Command(key: Bytes, op: Op)

  // ---------- One command ----------

  /** What one command must achieve, in terms of the collection the key stands for. */
  ghost predicate Outcome(floats: Floats, m: map<Bytes, Bytes>, m': map<Bytes, Bytes>, key: Bytes, op: Op, v: Value,
                          fate: Fate, reply: Reply)
    requires OnKey(op) || Suits(op, v.coll.Kind())
  {
    && MayMeet(op, v, fate) && Answers(op, v, fate, reply)
    && Holds(floats, m', key, Result(floats, op, v, fate))
    && Touches(m, m', v.coll.Kind(), key)
  }

  function FateOf(expired: bool): Fate {
    if expired then Expires else Lives
  }

  // ---------- From an engine method to the outcome of its command ----------

  predicate IsRead(op: Op) {
    || op.LRange? || op.LIndex? || op.LLen? || op.HGet? || op.HGetAll? || op.SMembers? || op.SIsMember?
    || op.ZScore? || op.ZRange? || op.ZRank?
  }

  /** A command that leaves what the expiry check left. */
  lemma Read(floats: Floats, m: map<Bytes, Bytes>, m': map<Bytes, Bytes>, key: Bytes, op: Op, v: Value, expired: bool,
             reply: Reply)
    requires Holds(floats, m, key, v) && Settled(m, m', key, expired) && Suits(op, v.coll.Kind())
    requires !op.HDel? && !op.SRem? && !op.ZRem?
    requires IsRead(op) || Result(floats, op, v, FateOf(expired)) == Base(v, FateOf(expired))
    requires Answers(op, v, FateOf(expired), reply)
    ensures Outcome(floats, m, m', key, op, v, FateOf(expired), reply)
  {
    hide Holds, Answers, Touches, IsPurged;
    SettledValue(floats, m, m', key, v, expired);
  }

  /** A list command that wrote. */
  lemma Listed(floats: Floats, m: map<Bytes, Bytes>, m': map<Bytes, Bytes>, key: Bytes, op: Op, v: Value,
               expired: bool, xs: seq<Element>, reply: Reply)
    requires Holds(floats, m, key, v) && v.coll.List? && Suits(op, ListKind)
    requires IsList(m', key, xs) && Marked(m, m', key, expired) && SameOutside(m, m', key)
    requires expired ==> ExpKey(key) in m
    requires Result(floats, op, v, FateOf(expired)) == Value(List(xs), true, v.expiring && !expired)
    requires Answers(op, v, FateOf(expired), reply)
    ensures Outcome(floats, m, m', key, op, v, FateOf(expired), reply)
  {
    hide Result, Answers, Owned, CellsHold, TypeKey, ExpKey, MetaKey, ReadMeta;
  }

  /** What a hash, set or sorted-set command leaves: the state after its expiry check, and
      the change under the prefix. */
  lemma Wrote(floats: Floats, m: map<Bytes, Bytes>, base: map<Bytes, Bytes>, m': map<Bytes, Bytes>, key: Bytes,
              v: Value, expired: bool, after: Value)
    requires Holds(floats, m, key, v) && Settled(m, base, key, expired)
    requires after.coll.Kind() == v.coll.Kind() != ListKind && HasColl(floats, m', key, after.coll)
    requires OnlyUnder(base, m', Prefix(after.coll.Kind(), key), key)
    requires Lookup(m', TypeKey(key)) == if after.typed then Some(TypeName(after.coll.Kind())) else None
    requires !after.typed ==> !expired && !v.typed && after.coll == Empty(after.coll.Kind())
    requires after.expiring == (v.expiring && !expired)
    ensures Holds(floats, m', key, after) && Touches(m, m', after.coll.Kind(), key) && (expired ==> v.expiring)
  {
    hide HasColl, IsPurged, OnlyUnder, Owns, TypeKey, ExpKey, Prefix;
    SettledValue(floats, m, base, key, v, expired);
    WrittenValue(floats, base, m', key, if expired then Gone(v.coll.Kind()) else v, after.coll);
    TouchesTwice(m, base, m', after.coll.Kind(), key);
  }

  method ExecuteList(engine: KeyValueEngine, ghost floats: Floats, key: Bytes, op: Op, ghost v: Value)
      returns (reply: Reply, ghost fate: Fate)
    requires engine.OnTree() && Suits(op, ListKind) && v.coll.List? && Holds(floats, engine.lsm.m, key, v)
    modifies engine.lsm
    ensures Outcome(floats, old(engine.lsm.m), engine.lsm.m, key, op, v, fate, reply)
  {
    hide IsList, Between, Settled, TypeKey, ExpKey, Outcome;
    if op.LPop? || op.RPop? {
      reply, fate := PopList(engine, floats, key, op, v);
      return;
    }
    if !IsRead(op) {
      reply, fate := ChangeList(engine, floats, key, op, v);
      return;
    }
    ghost var xs, expired, m := v.coll.xs, false, engine.lsm.m;
    match op {
      case LRange(start, stop) =>
        var items;
        items, expired := engine.LRange(key, start, stop, xs);
        reply := Items(items);
        NothingPresent(Position(0, start), Position(0, stop));
      case LIndex(index) =>
        var e;
        e, expired := engine.LIndex(key, index, xs);
        reply := Element(e);
      case LLen =>
        var n;
        n, expired := engine.LLen(key, xs);
        reply := Number(n);
    }
    Read(floats, m, engine.lsm.m, key, op, v, expired, reply);
    fate := FateOf(expired);
  }

  method ChangeList(engine: KeyValueEngine, ghost floats: Floats, key: Bytes, op: Op, ghost v: Value)
      returns (reply: Reply, ghost fate: Fate)
    requires engine.OnTree() && Suits(op, ListKind) && !IsRead(op) && !op.LPop? && !op.RPop?
    requires v.coll.List? && Holds(floats, engine.lsm.m, key, v)
    modifies engine.lsm
    ensures Outcome(floats, old(engine.lsm.m), engine.lsm.m, key, op, v, fate, reply)
  {
    hide IsList, Between, Reversed, Settled, Slots, TypeKey, ExpKey, Outcome, SameOutside, Marked;
    ghost var xs, expired, m := v.coll.xs, false, engine.lsm.m;
    match op {
      case LPush(values) =>
        var n;
        n, expired := engine.LPush(key, values, xs);
        reply := Number(n);
        ghost var after := Reversed(Slots(values)) + if expired then [] else xs;
        Listed(floats, m, engine.lsm.m, key, op, v, expired, after, reply);
      case RPush(values) =>
        var n;
        n, expired := engine.RPush(key, values, xs);
        reply := Number(n);
        ghost var after := (if expired then [] else xs) + Slots(values);
        Listed(floats, m, engine.lsm.m, key, op, v, expired, after, reply);
      case LSet(index, value) =>
        var ok;
        ok, expired := engine.LSet(key, index, value, xs);
        reply := Flag(ok);
        if ok {
          Listed(floats, m, engine.lsm.m, key, op, v, false, xs[Position(|xs|, index) := Slot(value)], reply);
        } else {
          Read(floats, m, engine.lsm.m, key, op, v, expired, reply);
        }
      case LTrim(start, stop) =>
        var ok;
        ok, expired := engine.LTrim(key, start, stop, xs);
        reply := Flag(ok);
        Trimmed(floats, m, engine.lsm.m, key, op, v, expired);
    }
    fate := FateOf(expired);
  }

  method PopList(engine: KeyValueEngine, ghost floats: Floats, key: Bytes, op: Op, ghost v: Value)
      returns (reply: Reply, ghost fate: Fate)
    requires engine.OnTree() && (op.LPop? || op.RPop?) && v.coll.List? && Holds(floats, engine.lsm.m, key, v)
    modifies engine.lsm
    ensures Outcome(floats, old(engine.lsm.m), engine.lsm.m, key, op, v, fate, reply)
  {
    hide IsList, Settled, TypeKey, ExpKey, Outcome, SameOutside, Marked;
    ghost var xs, expired, m := v.coll.xs, false, engine.lsm.m;
    match op {
      case LPop =>
        var e;
        e, expired := engine.LPop(key, xs);
        reply := Element(e);
        if expired || xs == [] {
          Read(floats, m, engine.lsm.m, key, op, v, expired, reply);
        } else {
          Listed(floats, m, engine.lsm.m, key, op, v, false, xs[1..], reply);
        }
      case RPop =>
        var e;
        e, expired := engine.RPop(key, xs);
        reply := Element(e);
        if expired || xs == [] {
          Read(floats, m, engine.lsm.m, key, op, v, expired, reply);
        } else {
          Listed(floats, m, engine.lsm.m, key, op, v, false, xs[..|xs| - 1], reply);
        }
    }
    fate := FateOf(expired);
  }

  /** ltrim: nothing to trim, everything trimmed away, or something kept. */
  lemma Trimmed(floats: Floats, m: map<Bytes, Bytes>, m': map<Bytes, Bytes>, key: Bytes, op: Op, v: Value,
                expired: bool)
    requires Holds(floats, m, key, v) && v.coll.List? && op.LTrim?
    requires expired || v.coll.xs == [] ==> Settled(m, m', key, expired)
    requires !expired && v.coll.xs != [] ==>
               var xs := v.coll.xs;
               var kept := Between(xs, Position(|xs|, op.start), Position(|xs|, op.stop));
               && IsList(m', key, kept)
               && (if kept == [] then IsPurged(m, m', key) else Marked(m, m', key, false))
    requires SameOutside(m, m', key)
    ensures Outcome(floats, m, m', key, op, v, FateOf(expired), Flag(!expired))
  {
    hide IsList, Between, IsPurged, Owned, TypeKey, ExpKey, Marked, SameOutside;
    var xs := v.coll.xs;
    NothingPresent(Position(0, op.start), Position(0, op.stop));
    if expired || xs == [] {
      assert v.coll == List(xs);
      Read(floats, m, m', key, op, v, expired, Flag(!expired));
    } else {
      var kept := Between(xs, Position(|xs|, op.start), Position(|xs|, op.stop));
      if kept == [] {
        PurgedValue(floats, m, m', key, v);
      } else {
        assert v.typed;
        Listed(floats, m, m', key, op, v, false, kept, Flag(true));
      }
    }
  }

  /** The collection after the expiry check. */
  lemma BaseColl(floats: Floats, m: map<Bytes, Bytes>, base: map<Bytes, Bytes>, key: Bytes, v: Value, expired: bool)
    requires Holds(floats, m, key, v) && Settled(m, base, key, expired)
    ensures HasColl(floats, base, key, Base(v, FateOf(expired)).coll)
    ensures HasMarks(base, key, Base(v, FateOf(expired)))
  {
    hide HasColl, IsPurged;
    SettledValue(floats, m, base, key, v, expired);
  }

  // ---------- Writes to hashes, sets and sorted sets ----------

  method DoHSet(engine: KeyValueEngine, ghost floats: Floats, key: Bytes, field: Bytes, value: Bytes, ghost v: Value)
      returns (n: int, ghost fate: Fate)
    requires engine.OnTree() && v.coll.Hash? && Holds(floats, engine.lsm.m, key, v)
    modifies engine.lsm
    ensures Outcome(floats, old(engine.lsm.m), engine.lsm.m, key, HSet(field, value), v, fate, Number(n))
  {
    hide IsList, Fields, Settled, OnlyUnder, Touches, TypeKey, ExpKey, HashPrefix, Prefix, WithSlot;
    SamePrefixes(key);
    ghost var m := engine.lsm.m;
    var isNew;
    ghost var base, expired;
    isNew, base, expired := engine.HSet(key, field, value);
    BaseColl(floats, m, base, key, v, expired);
    ghost var after := Value(Hash(Fields(engine.lsm.m, HashPrefix(key))), true, v.expiring && !expired);
    Wrote(floats, m, base, engine.lsm.m, key, v, expired, after);
    n, fate := isNew, FateOf(expired);
    assert after == Result(floats, HSet(field, value), v, fate);
  }

  /** What the counting commands do to the plain collection, and the count they reply. */
  lemma HDelMeans(floats: Floats, v: Value, fields: seq<Bytes>, after: map<Bytes, Bytes>)
    requires v.coll.Hash? && after == v.coll.fields - Elements(fields)
    ensures Result(floats, HDel(fields), v, Lives) == v.(coll := Hash(after))
    ensures Answers(HDel(fields), v, Lives, Number(Growth(after.Keys, v.coll.fields.Keys)))
  {
    hide Elements, Growth;
    NothingLess(v.coll.fields, Elements(fields));
  }

  lemma SRemMeans(floats: Floats, v: Value, members: seq<Bytes>, after: set<Bytes>)
    requires v.coll.Set? && after == v.coll.members - Elements(members)
    ensures Result(floats, SRem(members), v, Lives) == v.(coll := Set(after))
    ensures Answers(SRem(members), v, Lives, Number(Growth(after, v.coll.members)))
  {
    hide Elements, Growth;
  }

  lemma ZRemMeans(floats: Floats, v: Value, members: seq<Bytes>, after: map<Bytes, real>)
    requires v.coll.ZSet? && after == v.coll.scores - Elements(members)
    ensures Result(floats, ZRem(members), v, Lives) == v.(coll := ZSet(after))
    ensures Answers(ZRem(members), v, Lives, Number(Growth(after.Keys, v.coll.scores.Keys)))
  {
    hide Elements, Growth;
    NothingLess(v.coll.scores, Elements(members));
  }

  lemma SAddMeans(floats: Floats, v: Value, members: seq<Bytes>, fate: Fate, after: set<Bytes>)
    requires v.coll.Set? && after == Base(v, fate).coll.members + Elements(members)
    ensures Result(floats, SAdd(members), v, fate) == Value(Set(after), true, Base(v, fate).expiring)
    ensures Answers(SAdd(members), v, fate, Number(Growth(Base(v, fate).coll.members, after)))
  {
    hide Elements, Growth;
  }

  lemma ZAddMeans(floats: Floats, v: Value, scores: map<Bytes, real>, fate: Fate, after: map<Bytes, real>)
    requires v.coll.ZSet? && after == Base(v, fate).coll.scores + floats.AllThrough(scores)
    ensures Result(floats, ZAdd(scores), v, fate) == Value(ZSet(after), true, Base(v, fate).expiring)
    ensures Answers(ZAdd(scores), v, fate, Number(Growth(Base(v, fate).coll.scores.Keys, after.Keys)))
  {
    hide Growth, floats.AllThrough;
    MergedKeys(Base(v, fate).coll.scores, floats.AllThrough(scores));
  }

  lemma ZIncrByMeans(floats: Floats, v: Value, amount: real, member: Bytes, fate: Fate, after: map<Bytes, real>,
                     score: real)
    requires v.coll.ZSet? && score == NewScore(amount, member, v, fate)
    requires after == Base(v, fate).coll.scores[member := floats.Through(score)]
    ensures Result(floats, ZIncrBy(amount, member), v, fate) == Value(ZSet(after), true, Base(v, fate).expiring)
    ensures Answers(ZIncrBy(amount, member), v, fate, Score(Some(score)))
  {
    hide floats.Through;
  }

  method DoHDel(engine: KeyValueEngine, ghost floats: Floats, key: Bytes, fields: seq<Bytes>, ghost v: Value)
      returns (n: int)
    requires v.coll.Hash? && Holds(floats, engine.lsm.m, key, v)
    modifies engine.lsm
    ensures Outcome(floats, old(engine.lsm.m), engine.lsm.m, key, HDel(fields), v, Lives, Number(n))
  {
    hide IsList, Fields, Settled, OnlyUnder, Touches, TypeKey, ExpKey, HashPrefix, Prefix, Elements, Result,
      Answers, Growth;
    SamePrefixes(key);
    ghost var m := engine.lsm.m;
    n := engine.HDel(key, fields);
    NotSettled(m, key);
    NothingLess(v.coll.fields, Elements(fields));
    ghost var after := v.(coll := Hash(Fields(engine.lsm.m, HashPrefix(key))));
    Wrote(floats, m, m, engine.lsm.m, key, v, false, after);
    HDelMeans(floats, v, fields, after.coll.fields);
  }

  lemma NotSettled(m: map<Bytes, Bytes>, key: Bytes)
    ensures Settled(m, m, key, false)
  {
  }

  lemma NothingLess<V>(m: map<Bytes, V>, s: set<Bytes>)
    ensures m == map[] ==> m - s == map[]
    ensures (m - s).Keys == m.Keys - s
  {
  }

  method DoSAdd(engine: KeyValueEngine, ghost floats: Floats, key: Bytes, members: seq<Bytes>, ghost v: Value)
      returns (n: int, ghost fate: Fate)
    requires engine.OnTree() && v.coll.Set? && Holds(floats, engine.lsm.m, key, v)
    modifies engine.lsm
    ensures Outcome(floats, old(engine.lsm.m), engine.lsm.m, key, SAdd(members), v, fate, Number(n))
  {
    hide IsList, Fields, Settled, OnlyUnder, Touches, TypeKey, ExpKey, SetPrefix, Prefix, Elements, Result,
      Answers, Growth;
    SamePrefixes(key);
    ghost var m := engine.lsm.m;
    ghost var base, expired;
    n, base, expired := engine.SAdd(key, members);
    BaseColl(floats, m, base, key, v, expired);
    ghost var after := Value(Set(Fields(engine.lsm.m, SetPrefix(key)).Keys), true, v.expiring && !expired);
    Wrote(floats, m, base, engine.lsm.m, key, v, expired, after);
    fate := FateOf(expired);
    SAddMeans(floats, v, members, fate, after.coll.members);
  }

  method DoSRem(engine: KeyValueEngine, ghost floats: Floats, key: Bytes, members: seq<Bytes>, ghost v: Value)
      returns (n: int)
    requires v.coll.Set? && Holds(floats, engine.lsm.m, key, v)
    modifies engine.lsm
    ensures Outcome(floats, old(engine.lsm.m), engine.lsm.m, key, SRem(members), v, Lives, Number(n))
  {
    hide IsList, Fields, Settled, OnlyUnder, Touches, TypeKey, ExpKey, SetPrefix, Prefix, Elements, Result,
      Answers, Growth;
    SamePrefixes(key);
    ghost var m := engine.lsm.m;
    n := engine.SRem(key, members);
    NotSettled(m, key);
    NothingLess(Fields(m, SetPrefix(key)), Elements(members));
    ghost var after := v.(coll := Set(Fields(engine.lsm.m, SetPrefix(key)).Keys));
    Wrote(floats, m, m, engine.lsm.m, key, v, false, after);
    SRemMeans(floats, v, members, after.coll.members);
  }

  method DoZAdd(engine: KeyValueEngine, floats: Floats, key: Bytes, scores: map<Bytes, real>, ghost v: Value)
      returns (n: int, ghost fate: Fate)
    requires engine.OnTree() && floats.Plain() && v.coll.ZSet? && Holds(floats, engine.lsm.m, key, v)
    modifies engine.lsm
    ensures Outcome(floats, old(engine.lsm.m), engine.lsm.m, key, ZAdd(scores), v, fate, Number(n))
  {
    hide IsList, Scores, Settled, OnlyUnder, Touches, TypeKey, ExpKey, ZSetPrefix, Prefix, floats.AllThrough,
      floats.Plain, Result, Answers, Growth;
    SamePrefixes(key);
    ghost var m := engine.lsm.m;
    ghost var base, expired;
    n, base, expired := engine.ZAdd(floats, key, scores);
    BaseColl(floats, m, base, key, v, expired);
    ghost var after := Value(ZSet(Scores(floats, engine.lsm.m, key)), true, v.expiring && !expired);
    Wrote(floats, m, base, engine.lsm.m, key, v, expired, after);
    fate := FateOf(expired);
    ZAddMeans(floats, v, scores, fate, after.coll.scores);
  }

  lemma MergedKeys(a: map<Bytes, real>, b: map<Bytes, real>)
    ensures (a + b).Keys == a.Keys + b.Keys
  {
  }

  method DoZRem(engine: KeyValueEngine, floats: Floats, key: Bytes, members: seq<Bytes>, ghost v: Value)
      returns (n: int)
    requires v.coll.ZSet? && Holds(floats, engine.lsm.m, key, v)
    modifies engine.lsm
    ensures Outcome(floats, old(engine.lsm.m), engine.lsm.m, key, ZRem(members), v, Lives, Number(n))
  {
    hide IsList, Scores, Settled, OnlyUnder, Touches, TypeKey, ExpKey, ZSetPrefix, Prefix, Elements, Result,
      Answers, Growth;
    SamePrefixes(key);
    ghost var m := engine.lsm.m;
    n := engine.ZRem(floats, key, members);
    NotSettled(m, key);
    NothingLess(v.coll.scores, Elements(members));
    ghost var after := v.(coll := ZSet(Scores(floats, engine.lsm.m, key)));
    Wrote(floats, m, m, engine.lsm.m, key, v, false, after);
    ZRemMeans(floats, v, members, after.coll.scores);
  }

  /** Which of the two checks of zincrby found the key due, if any. */
  function FateOfTwo(early: bool, late: bool): Fate {
    if early then Expires else if late then ExpiresMidway else Lives
  }

  method DoZIncrBy(engine: KeyValueEngine, floats: Floats, key: Bytes, amount: real, member: Bytes, ghost v: Value)
      returns (score: real, ghost fate: Fate)
    requires engine.OnTree() && floats.Plain() && v.coll.ZSet? && Holds(floats, engine.lsm.m, key, v)
    modifies engine.lsm
    ensures Outcome(floats, old(engine.lsm.m), engine.lsm.m, key, ZIncrBy(amount, member), v, fate, Score(Some(score)))
  {
    hide IsList, Scores, Settled, OnlyUnder, Touches, TypeKey, ExpKey, ZSetPrefix, Prefix, floats.Through,
      floats.Plain, Result, Answers;
    SamePrefixes(key);
    ghost var m := engine.lsm.m;
    ghost var base, early, late;
    score, base, early, late := engine.ZIncrBy(floats, key, amount, member);
    BaseColl(floats, m, base, key, v, early || late);
    ghost var after := Value(ZSet(Scores(floats, engine.lsm.m, key)), true, v.expiring && !(early || late));
    Wrote(floats, m, base, engine.lsm.m, key, v, early || late, after);
    fate := FateOfTwo(early, late);
    ZIncrByMeans(floats, v, amount, member, fate, after.coll.scores, score);
  }

  method ExecuteHash(engine: KeyValueEngine, ghost floats: Floats, key: Bytes, op: Op, ghost v: Value)
      returns (reply: Reply, ghost fate: Fate)
    requires engine.OnTree() && Suits(op, HashKind) && v.coll.Hash? && Holds(floats, engine.lsm.m, key, v)
    modifies engine.lsm
    ensures Outcome(floats, old(engine.lsm.m), engine.lsm.m, key, op, v, fate, reply)
  {
    hide IsList, Fields, Settled, TypeKey, ExpKey, HashPrefix, Prefix, Outcome;
    SamePrefixes(key);
    ghost var m, expired := engine.lsm.m, false;
    match op {
      case HSet(field, value) =>
        var n;
        n, fate := DoHSet(engine, floats, key, field, value, v);
        return Number(n), fate;
      case HDel(fields) =>
        var n := DoHDel(engine, floats, key, fields, v);
        return Number(n), Lives;
      case HGet(field) =>
        var e;
        e, expired := engine.HGet(key, field);
        reply := Element(e);
      case HGetAll =>
        var pairs;
        pairs, expired := engine.HGetAll(key);
        reply := Pairs(pairs);
    }
    Read(floats, m, engine.lsm.m, key, op, v, expired, reply);
    fate := FateOf(expired);
  }

  method ExecuteSet(engine: KeyValueEngine, ghost floats: Floats, key: Bytes, op: Op, ghost v: Value)
      returns (reply: Reply, ghost fate: Fate)
    requires engine.OnTree() && Suits(op, SetKind) && v.coll.Set? && Holds(floats, engine.lsm.m, key, v)
    modifies engine.lsm
    ensures Outcome(floats, old(engine.lsm.m), engine.lsm.m, key, op, v, fate, reply)
  {
    hide IsList, Fields, Settled, TypeKey, ExpKey, SetPrefix, Prefix, Outcome;
    SamePrefixes(key);
    ghost var m, expired := engine.lsm.m, false;
    match op {
      case SAdd(members) =>
        var n;
        n, fate := DoSAdd(engine, floats, key, members, v);
        return Number(n), fate;
      case SRem(members) =>
        var n := DoSRem(engine, floats, key, members, v);
        return Number(n), Lives;
      case SMembers =>
        var names;
        names, expired := engine.SMembers(key);
        reply := Names(names);
      case SIsMember(member) =>
        var found;
        found, expired := engine.SIsMember(key, member);
        reply := Flag(found);
    }
    Read(floats, m, engine.lsm.m, key, op, v, expired, reply);
    fate := FateOf(expired);
  }

  method ExecuteZSet(engine: KeyValueEngine, floats: Floats, key: Bytes, op: Op, ghost v: Value)
      returns (reply: Reply, ghost fate: Fate)
    requires engine.OnTree() && floats.Plain()
    requires Suits(op, ZSetKind) && v.coll.ZSet? && Holds(floats, engine.lsm.m, key, v)
    modifies engine.lsm
    ensures Outcome(floats, old(engine.lsm.m), engine.lsm.m, key, op, v, fate, reply)
  {
    hide IsList, Scores, Settled, TypeKey, ExpKey, Ranks, RankIn, Less, Between, IsRangeOf, Outcome, floats.Plain;
    ghost var m, expired := engine.lsm.m, false;
    match op {
      case ZAdd(scores) =>
        var n;
        n, fate := DoZAdd(engine, floats, key, scores, v);
        return Number(n), fate;
      case ZRem(members) =>
        var n := DoZRem(engine, floats, key, members, v);
        return Number(n), Lives;
      case ZIncrBy(amount, member) =>
        var score;
        score, fate := DoZIncrBy(engine, floats, key, amount, member, v);
        return Score(Some(score)), fate;
      case ZScore(member) =>
        var score;
        score, expired := engine.ZScore(floats, key, member);
        reply := Score(score);
      case ZRange(start, stop) =>
        var items;
        ghost var ranked;
        items, ranked, expired := engine.ZRange(floats, key, start, stop);
        reply := Ranked(items);
        RangeOf(ranked, Base(v, FateOf(expired)).coll.scores, start, stop);
      case ZRank(member) =>
        var rank;
        rank, expired := engine.ZRank(floats, key, member);
        reply := Rank(rank);
    }
    Read(floats, m, engine.lsm.m, key, op, v, expired, reply);
    fate := FateOf(expired);
  }

  lemma RangeOf(ranked: seq<Scored>, z: map<Bytes, real>, start: int, stop: int)
    requires Ranks(ranked, z)
    ensures IsRangeOf(Between(ranked, Position(|ranked|, start), Position(|ranked|, stop)), z, start, stop)
  {
    hide Between, Less;
    AscendsMeans(ranked);
    assert ListsByScore(ranked, z);
  }

  // ---------- Commands on keys of every type ----------

  /** The text of a deadline is a number, never the tombstone constant. */
  predicate IsPlain(op: Op) {
    op.Expire? ==> Slot(op.deadline) == Some(op.deadline)
  }

  method ExecuteKey(engine: KeyValueEngine, ghost floats: Floats, key: Bytes, op: Op, ghost v: Value)
      returns (reply: Reply)
    requires engine.OnTree() && OnKey(op) && IsPlain(op) && Holds(floats, engine.lsm.m, key, v)
    modifies engine.lsm
    ensures Outcome(floats, old(engine.lsm.m), engine.lsm.m, key, op, v, Lives, reply)
  {
    hide HasColl, IsPurged, Touches, ExpKey, TypeKey;
    ghost var m := engine.lsm.m;
    match op {
      case Expire(deadline) =>
        DeadlineOnly(floats, m, key, v, Some(deadline));
        var ok := engine.Expire(key, deadline);
        reply := Flag(ok);
      case Persist =>
        DeadlineOnly(floats, m, key, v, None);
        var had := engine.Persist(key);
        reply := Flag(had);
      case Delete =>
        var existed := engine.DeleteKey(key);
        reply := Flag(existed);
        if existed {
          PurgedValue(floats, m, engine.lsm.m, key, v);
        } else {
          TouchesNothing(m, v.coll.Kind(), key);
        }
    }
  }

  lemma TouchesNothing(m: map<Bytes, Bytes>, kind: Kind, key: Bytes)
    ensures Touches(m, m, kind, key)
  {
  }

  /** The command is one for keys of this type. */
  predicate Usable(op: Op, kind: Kind) {
    (OnKey(op) && IsPlain(op)) || (!OnKey(op) && Suits(op, kind))
  }

  /** One command, in the engine and on the collection. */
  method Execute(engine: KeyValueEngine, floats: Floats, c: Command, ghost v: Value)
      returns (reply: Reply, ghost fate: Fate)
    requires engine.OnTree() && floats.Plain()
    requires Usable(c.op, v.coll.Kind()) && Holds(floats, engine.lsm.m, c.key, v)
    modifies engine.lsm
    ensures Outcome(floats, old(engine.lsm.m), engine.lsm.m, c.key, c.op, v, fate, reply)
  {
    hide Outcome, Holds, floats.Plain;
    if OnKey(c.op) {
      reply := ExecuteKey(engine, floats, c.key, c.op, v);
      fate := Lives;
    } else if Suits(c.op, ListKind) {
      reply, fate := ExecuteList(engine, floats, c.key, c.op, v);
    } else if Suits(c.op, HashKind) {
      reply, fate := ExecuteHash(engine, floats, c.key, c.op, v);
    } else if Suits(c.op, SetKind) {
      reply, fate := ExecuteSet(engine, floats, c.key, c.op, v);
    } else {
      reply, fate := ExecuteZSet(engine, floats, c.key, c.op, v);
    }
  }

  // ---------- Runs ----------

  /** The command can be used on a key that stands for this: the key has the type that the
      command is for, or none. */
  predicate SuitsKey(op: Op, v: Value) {
    IsPlain(op) && (OnKey(op) || Suits(op, v.coll.Kind()) || !v.typed)
  }

  /** No two hashes, sets or sorted sets among these keys share a cell. */
  predicate Separate(keys: set<Bytes>, kinds: Bytes -> set<Kind>) {
    forall a, b, kind ::
      a in keys && b in keys && a != b && kind in kinds(a) && kind in kinds(b) && kind != ListKind ==> Apart(a, b)
  }

  /** What a key stands for after a run: only the commands on that key matter. */
  function ValueAfter(floats: Floats, run: seq<Command>, fates: seq<Fate>, key: Bytes): Value
    requires |fates| == |run|
  {
    if run == [] then Gone(ListKind)
    else
      var n := |run| - 1;
      var before := ValueAfter(floats, run[..n], fates[..n], key);
      if run[n].key == key then Result(floats, run[n].op, Taken(run[n].op, before), fates[n]) else before
  }

  /** What command i finds. */
  function ValueAt(floats: Floats, run: seq<Command>, fates: seq<Fate>, i: nat): (v: Value)
    requires i < |run| && i <= |fates|
    ensures OnKey(run[i].op) || Suits(run[i].op, v.coll.Kind())
  {
    Taken(run[i].op, ValueAfter(floats, run[..i], fates[..i], run[i].key))
  }

  /** Keys fall due only where they have a deadline and a command looks. */
  predicate CanMeet(floats: Floats, run: seq<Command>, fates: seq<Fate>) {
    |fates| <= |run| && forall i :: 0 <= i < |fates| ==> MayMeet(run[i].op, ValueAt(floats, run, fates, i), fates[i])
  }

  /** Whatever falls due when, every command meets a key of its own type or of none. */
  ghost predicate WellTyped(floats: Floats, run: seq<Command>) {
    forall fates, i :: 0 <= i < |run| && |fates| == i && CanMeet(floats, run, fates) ==>
      SuitsKey(run[i].op, ValueAfter(floats, run[..i], fates, run[i].key))
  }

  /** The kinds with which a run uses its keys. */
  ghost predicate Uses(run: seq<Command>, kinds: Bytes -> set<Kind>) {
    && (forall key :: ListKind in kinds(key))
    && (forall i :: 0 <= i < |run| ==> OnKey(run[i].op) || KindOf(run[i].op) in kinds(run[i].key))
  }

  /** The reply to command i is the reply of the plain collection its key stands for then. */
  ghost predicate Replied(floats: Floats, run: seq<Command>, fates: seq<Fate>, i: nat, reply: Reply)
    requires i < |fates| <= |run|
  {
    var v := ValueAt(floats, run, fates, i);
    MayMeet(run[i].op, v, fates[i]) && Answers(run[i].op, v, fates[i], reply)
  }

  /** After i commands every key holds its collection, and nothing of its other kinds. */
  ghost predicate Refines(floats: Floats, m: map<Bytes, Bytes>, run: seq<Command>, i: nat, fates: seq<Fate>,
                          kinds: Bytes -> set<Kind>, keys: set<Bytes>)
    requires i == |fates| <= |run|
  {
    forall key :: key in keys ==>
      var v := ValueAfter(floats, run[..i], fates, key);
      v.coll.Kind() in kinds(key) && Stands(floats, m, key, v, kinds(key))
  }

  /** Any run of list, hash, set, sorted-set and key commands on separate keys, from an empty
      store, with deadlines passing wherever they may, and keys that come back with another type
      once they are gone: every reply is that of the plain collection, and at the end every key
      holds its collection and nothing of the other kinds it was used with. */
  method Run(engine: KeyValueEngine, floats: Floats, run: seq<Command>, ghost kinds: Bytes -> set<Kind>,
             ghost keys: set<Bytes>) returns (replies: seq<Reply>, ghost fates: seq<Fate>)
    requires engine.OnTree() && floats.Plain() && engine.lsm.m == map[]
    requires WellTyped(floats, run) && Uses(run, kinds) && Separate(keys, kinds)
    requires forall i :: 0 <= i < |run| ==> run[i].key in keys
    modifies engine.lsm
    ensures |replies| == |fates| == |run| && CanMeet(floats, run, fates)
    ensures forall i :: 0 <= i < |run| ==> Replied(floats, run, fates, i, replies[i])
    ensures Refines(floats, engine.lsm.m, run, |run|, fates, kinds, keys)
  {
    hide Holds, Stands, Replied, Refines, ValueAfter, ValueAt, SuitsKey, floats.Plain, Separate, CanMeet, WellTyped,
      Uses;
    replies, fates := [], [];
    NothingStored(floats, run, kinds, keys);
    for i := 0 to |run|
      invariant |replies| == |fates| == i && CanMeet(floats, run, fates)
      invariant forall j :: 0 <= j < i ==> Replied(floats, run, fates, j, replies[j])
      invariant Refines(floats, engine.lsm.m, run, i, fates, kinds, keys)
    {
      ghost var m, v := engine.lsm.m, ValueAt(floats, run, fates, i);
      CommandStands(floats, m, run, i, fates, kinds, keys);
      var reply;
      ghost var fate;
      reply, fate := Execute(engine, floats, run[i], v);
      StepRefines(floats, m, engine.lsm.m, run, i, fates, fate, kinds, keys, reply);
      RepliesStay(floats, run, i, fates, fate, replies, reply);
      replies, fates := replies + [reply], fates + [fate];
    }
  }

  lemma NothingStored(floats: Floats, run: seq<Command>, kinds: Bytes -> set<Kind>, keys: set<Bytes>)
    requires Uses(run, kinds)
    ensures Refines(floats, map[], run, 0, [], kinds, keys) && CanMeet(floats, run, [])
  {
    forall key | key in keys
      ensures Stands(floats, map[], key, Gone(ListKind), kinds(key))
    {
      hide Fields;
      forall kind | kind in kinds(key)
        ensures Bare(map[], key, kind)
      {
        FieldsOfNothing(Prefix(kind, key));
      }
    }
  }

  /** The next command finds its key as one of its own type. */
  lemma CommandStands(floats: Floats, m: map<Bytes, Bytes>, run: seq<Command>, i: nat, fates: seq<Fate>,
                      kinds: Bytes -> set<Kind>, keys: set<Bytes>)
    requires i == |fates| < |run| && WellTyped(floats, run) && Uses(run, kinds) && CanMeet(floats, run, fates)
    requires Refines(floats, m, run, i, fates, kinds, keys) && run[i].key in keys
    ensures var v := ValueAt(floats, run, fates, i);
            && v.coll.Kind() in kinds(run[i].key) && Stands(floats, m, run[i].key, v, kinds(run[i].key))
            && Holds(floats, m, run[i].key, v) && Usable(run[i].op, v.coll.Kind())
  {
    hide Holds, Bare, ValueAfter, CanMeet;
    var key, op := run[i].key, run[i].op;
    assert fates[..i] == fates;
    var before := ValueAfter(floats, run[..i], fates, key);
    assert SuitsKey(op, before);
    if !OnKey(op) && !Suits(op, before.coll.Kind()) {
      TakenUp(floats, m, key, before, kinds(key), KindOf(op));
    }
  }

  lemma StepRefines(floats: Floats, m: map<Bytes, Bytes>, m': map<Bytes, Bytes>, run: seq<Command>, i: nat,
                    fates: seq<Fate>, fate: Fate, kinds: Bytes -> set<Kind>, keys: set<Bytes>, reply: Reply)
    requires i == |fates| < |run| && Uses(run, kinds) && Separate(keys, kinds) && run[i].key in keys
    requires Refines(floats, m, run, i, fates, kinds, keys)
    requires var v := ValueAt(floats, run, fates, i);
             && v.coll.Kind() in kinds(run[i].key) && Stands(floats, m, run[i].key, v, kinds(run[i].key))
             && Outcome(floats, m, m', run[i].key, run[i].op, v, fate, reply)
    ensures Refines(floats, m', run, i + 1, fates + [fate], kinds, keys)
    ensures Replied(floats, run, fates + [fate], i, reply)
  {
    hide Holds, Stands, Result, Answers, Touches, Apart, Bare, Taken;
    var met := fates + [fate];
    assert run[..i + 1][..i] == run[..i] && met[..i] == fates && fates[..i] == fates;
    var changed, v := run[i].key, ValueAt(floats, run, fates, i);
    forall key | key in keys
      ensures var after := ValueAfter(floats, run[..i + 1], met, key);
              after.coll.Kind() in kinds(key) && Stands(floats, m', key, after, kinds(key))
    {
      if key == changed {
        SelfStands(floats, m, m', key, v, Result(floats, run[i].op, v, fate), kinds(key));
      } else {
        var other := ValueAfter(floats, run[..i], fates, key);
        assert ValueAfter(floats, run[..i + 1], met, key) == other;
        OthersStand(floats, m, m', v.coll.Kind(), changed, key, other, kinds(key));
      }
    }
  }

  lemma SelfStands(floats: Floats, m: map<Bytes, Bytes>, m': map<Bytes, Bytes>, key: Bytes, v: Value, after: Value,
                   kinds: set<Kind>)
    requires Stands(floats, m, key, v, kinds) && Touches(m, m', v.coll.Kind(), key)
    requires Holds(floats, m', key, after) && after.coll.Kind() == v.coll.Kind()
    ensures Stands(floats, m', key, after, kinds)
  {
    hide Holds, Touches, Bare;
    forall kind | kind in kinds && kind != v.coll.Kind()
      ensures Bare(m', key, kind)
    {
      BareStays(m, m', v.coll.Kind(), key, key, kind);
    }
  }

  lemma OthersStand(floats: Floats, m: map<Bytes, Bytes>, m': map<Bytes, Bytes>, kind: Kind, key: Bytes, other: Bytes,
                    v: Value, kinds: set<Kind>)
    requires Stands(floats, m, other, v, kinds) && v.coll.Kind() in kinds
    requires Touches(m, m', kind, key) && key != other && (kind in kinds && kind != ListKind ==> Apart(key, other))
    ensures Stands(floats, m', other, v, kinds)
  {
    hide Holds, Touches, Bare, Apart;
    OthersStay(floats, m, m', kind, key, other, v);
    forall k | k in kinds && k != v.coll.Kind()
      ensures Bare(m', other, k)
    {
      BareStays(m, m', kind, key, other, k);
    }
  }

  lemma RepliesStay(floats: Floats, run: seq<Command>, i: nat, fates: seq<Fate>, fate: Fate, replies: seq<Reply>,
                    reply: Reply)
    requires i == |fates| == |replies| < |run| && CanMeet(floats, run, fates)
    requires forall j :: 0 <= j < i ==> Replied(floats, run, fates, j, replies[j])
    requires Replied(floats, run, fates + [fate], i, reply)
    ensures forall j :: 0 <= j < i + 1 ==> Replied(floats, run, fates + [fate], j, (replies + [reply])[j])
    ensures CanMeet(floats, run, fates + [fate])
  {
    hide ValueAfter, Answers, MayMeet, Taken;
    var met := fates + [fate];
    forall j | 0 <= j < i
      ensures Replied(floats, run, met, j, replies[j])
      ensures ValueAt(floats, run, met, j) == ValueAt(floats, run, fates, j)
    {
      assert Replied(floats, run, fates, j, replies[j]);
      assert met[..j] == fates[..j];
    }
  }

  // ---------- Well-typed runs ----------

  /** Runs that use each key with one type are well typed. */
  lemma OneKindEach(floats: Floats, run: seq<Command>, kind: Bytes -> Kind)
    requires forall i :: 0 <= i < |run| ==> Usable(run[i].op, kind(run[i].key))
    ensures WellTyped(floats, run)
  {
    hide ValueAfter, CanMeet;
    forall fates, i | 0 <= i < |run| && |fates| == i && CanMeet(floats, run, fates)
      ensures SuitsKey(run[i].op, ValueAfter(floats, run[..i], fates, run[i].key))
    {
      TypedAsUsed(floats, run[..i], fates, kind, run[i].key);
    }
  }

  lemma {:induction false} TypedAsUsed(floats: Floats, run: seq<Command>, fates: seq<Fate>, kind: Bytes -> Kind,
                                       key: Bytes)
    requires |fates| == |run| && forall i :: 0 <= i < |run| ==> Usable(run[i].op, kind(run[i].key))
    ensures var v := ValueAfter(floats, run, fates, key); v.typed ==> v.coll.Kind() == kind(key)
  {
    if run != [] {
      var n := |run| - 1;
      TypedAsUsed(floats, run[..n], fates[..n], kind, key);
      OneKindStep(floats, run[n].op, ValueAfter(floats, run[..n], fates[..n], key), fates[n], kind(key));
    }
  }

  lemma OneKindStep(floats: Floats, op: Op, v: Value, fate: Fate, kind: Kind)
    requires v.typed ==> v.coll.Kind() == kind
    ensures Usable(op, kind) ==>
              var after := Result(floats, op, Taken(op, v), fate);
              after.typed ==> after.coll.Kind() == kind
  {
  }

  /** Keys without colons are separate, whatever they are used for. */
  lemma NoColonSeparate(keys: set<Bytes>, kinds: Bytes -> set<Kind>)
    requires forall key :: key in keys ==> NoColon(key)
    ensures Separate(keys, kinds)
  {
    hide NoColon, Apart;
    forall a, b, kind | a in keys && b in keys && a != b && kind in kinds(a) && kind in kinds(b) && kind != ListKind
      ensures Apart(a, b)
    {
      NoColonApart(a, b);
    }
  }

  /** A hash, then after a delete a list under the same key: such runs are well typed. */
  lemma TypeMayChange(floats: Floats, key: Bytes, field: Bytes, value: Bytes, x: Bytes)
    ensures WellTyped(floats, [Command(key, HSet(field, value)), Command(key, Delete), Command(key, LPush([x]))])
  {
    var run := [Command(key, HSet(field, value)), Command(key, Delete), Command(key, LPush([x]))];
    forall fates, i | 0 <= i < |run| && |fates| == i && CanMeet(floats, run, fates)
      ensures SuitsKey(run[i].op, ValueAfter(floats, run[..i], fates, run[i].key))
    {
      if i == 2 {
        var before := ValueAfter(floats, run[..2][..1], fates[..1], key);
        assert run[..2][1] == run[1];
        assert ValueAfter(floats, run[..2], fates, key) == Result(floats, Delete, Taken(Delete, before), fates[1]);
      }
    }
  }

  // ---------- Runs without deadlines ----------

  /** Where no deadline is ever set, no key falls due, so the replies follow from the
      commands alone. */
  lemma {:induction false} NoDeadline(floats: Floats, run: seq<Command>, fates: seq<Fate>, i: nat)
    requires i <= |fates| && CanMeet(floats, run, fates)
    requires forall j :: 0 <= j < |run| ==> !run[j].op.Expire?
    ensures forall j :: 0 <= j < i ==> fates[j] == Lives
    ensures forall key :: !ValueAfter(floats, run[..i], fates[..i], key).expiring
  {
    hide Result, Suits;
    if i > 0 {
      NoDeadline(floats, run, fates, i - 1);
      var shorter, met := run[..i], fates[..i];
      assert shorter[..i - 1] == run[..i - 1] && met[..i - 1] == fates[..i - 1];
      assert MayMeet(run[i - 1].op, ValueAt(floats, run, fates, i - 1), fates[i - 1]);
      forall key
        ensures !ValueAfter(floats, shorter, met, key).expiring
      {
        var before := ValueAfter(floats, run[..i - 1], fates[..i - 1], key);
        NoNewDeadline(floats, run[i - 1].op, Taken(run[i - 1].op, before), Lives);
      }
    }
  }

  lemma NoNewDeadline(floats: Floats, op: Op, v: Value, fate: Fate)
    ensures (OnKey(op) || Suits(op, v.coll.Kind())) && !v.expiring && !op.Expire? ==>
                !Result(floats, op, v, fate).expiring
  {
  }
}
