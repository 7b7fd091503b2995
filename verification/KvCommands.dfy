// The commands on typed keys, and what each does to the plain collection it stands for.

module KvCommands {
  import opened ByteStrings
  import opened KvKeys
  import opened KvLists
  import opened KvSorted
  import opened KvSteps
  import opened KvTyped
  import opened Store

  datatype Op =
    // lists
    | LPush(values: seq<Bytes>)
    | RPush(values: seq<Bytes>)
    | LPop
    | RPop
    | LSet(index: int, value: Bytes)
    | LTrim(start: int, stop: int)
    | LRange(start: int, stop: int)
    | LIndex(index: int)
    | LLen
    // hashes
    | HSet(field: Bytes, value: Bytes)
    | HDel(fields: seq<Bytes>)
    | HGet(field: Bytes)
    | HGetAll
    // sets
    | SAdd(members: seq<Bytes>)
    | SRem(members: seq<Bytes>)
    | SMembers
    | SIsMember(member: Bytes)
    // sorted sets
    | ZAdd(scores: map<Bytes, real>)
    | ZRem(members: seq<Bytes>)
    | ZScore(member: Bytes)
    | ZIncrBy(amount: real, member: Bytes)
    | ZRange(start: int, stop: int)
    | ZRank(member: Bytes)
    // keys of every type
    | Expire(deadline: Bytes)
    | Persist
    | Delete

  datatype Reply =
    | Number(n: int)
    | Element(e: Option<Bytes>)
    | Flag(ok: bool)
    | Items(items: seq<Bytes>)
    | Pairs(pairs: map<Bytes, Bytes>)
    | Names(names: set<Bytes>)
    | Score(score: Option<real>)
    | Ranked(ranked: seq<Scored>)
    | Rank(rank: Option<nat>)

  /** Whether the key falls due at a command: not at all, at its start, or, for the one
      command that checks twice, between its read and its write. */
  datatype Fate = Lives | Expires | ExpiresMidway

  predicate OnKey(op: Op) {
    op.Expire? || op.Persist? || op.Delete?
  }

  predicate Suits(op: Op, kind: Kind) {
    match kind
    case ListKind => op.LPush? || op.RPush? || op.LPop? || op.RPop? || op.LSet? || op.LTrim? || op.LRange? ||
        op.LIndex? || op.LLen?
    case HashKind => op.HSet? || op.HDel? || op.HGet? || op.HGetAll?
    case SetKind => op.SAdd? || op.SRem? || op.SMembers? || op.SIsMember?
    case ZSetKind => op.ZAdd? || op.ZRem? || op.ZScore? || op.ZIncrBy? || op.ZRange? || op.ZRank?
  }

  /** The type of key a command is for. */
  function KindOf(op: Op): (kind: Kind)
    requires !OnKey(op)
    ensures Suits(op, kind)
  {
    if Suits(op, ListKind) then ListKind
    else if Suits(op, HashKind) then HashKind
    else if Suits(op, SetKind) then SetKind
    else ZSetKind
  }

  /** A key without a type is taken up as one of the type that the command is for. */
  function Taken(op: Op, v: Value): (r: Value)
    ensures OnKey(op) || Suits(op, r.coll.Kind())
    ensures r.expiring == v.expiring
  {
    if OnKey(op) || Suits(op, v.coll.Kind()) then v else Value(Empty(KindOf(op)), false, v.expiring)
  }

  /** Only a key with a deadline falls due, and only at commands that look. */
  predicate MayMeet(op: Op, v: Value, fate: Fate) {
    && (fate != Lives ==> v.expiring && !OnKey(op) && !op.HDel? && !op.SRem? && !op.ZRem?)
    && (fate == ExpiresMidway ==> op.ZIncrBy?)
  }

  /** What the command finds: a key that fell due is gone. */
  function Base(v: Value, fate: Fate): (base: Value)
    ensures base.coll.Kind() == v.coll.Kind()
  {
    if fate == Lives then v else Gone(v.coll.Kind())
  }

  // ---------- Lists ----------

  function ListResult(op: Op, base: Value): (r: Value)
    requires Suits(op, ListKind) && base.coll.List?
    ensures r.coll.List?
  {
    var xs := base.coll.xs;
    match op
    case LPush(values) => Value(List(Reversed(Slots(values)) + xs), true, base.expiring)
    case RPush(values) => Value(List(xs + Slots(values)), true, base.expiring)
    case LPop => if xs == [] then base else base.(coll := List(xs[1..]))
    case RPop => if xs == [] then base else base.(coll := List(xs[..|xs| - 1]))
    case LSet(index, value) =>
      var p := Position(|xs|, index);
      if 0 <= p < |xs| then base.(coll := List(xs[p := Slot(value)])) else base
    case LTrim(start, stop) =>
      var kept := Between(xs, Position(|xs|, start), Position(|xs|, stop));
      if xs != [] && kept == [] then Gone(ListKind) else base.(coll := List(kept))
    case _ => base
  }

  predicate ListAnswers(op: Op, base: Value, fate: Fate, reply: Reply)
    requires Suits(op, ListKind) && base.coll.List?
  {
    var xs := base.coll.xs;
    match op
    case LPush(values) => reply == Number(|values| + |xs|)
    case RPush(values) => reply == Number(|xs| + |values|)
    case LPop => reply == Element(if xs == [] then None else Truthy(xs[0]))
    case RPop => reply == Element(if xs == [] then None else Truthy(xs[|xs| - 1]))
    case LSet(index, _) => reply == Flag(0 <= Position(|xs|, index) < |xs|)
    case LTrim(_, _) => reply == Flag(fate == Lives)
    case LRange(start, stop) => reply == Items(Present(Between(xs, Position(|xs|, start), Position(|xs|, stop))))
    case LIndex(index) =>
      var p := Position(|xs|, index);
      reply == Element(if 0 <= p < |xs| then xs[p] else None)
    case LLen => reply == Number(|xs|)
  }

  // ---------- Hashes ----------

  function HashResult(op: Op, base: Value): (r: Value)
    requires Suits(op, HashKind) && base.coll.Hash?
    ensures r.coll.Hash?
  {
    var fields := base.coll.fields;
    match op
    case HSet(field, value) => Value(Hash(WithSlot(fields, field, Slot(value))), true, base.expiring)
    case HDel(names) => base.(coll := Hash(fields - Elements(names)))
    case _ => base
  }

  predicate HashAnswers(op: Op, base: Value, reply: Reply)
    requires Suits(op, HashKind) && base.coll.Hash?
  {
    var fields := base.coll.fields;
    match op
    case HSet(field, _) => reply == Number(if field in fields then 0 else 1)
    case HDel(names) => reply == Number(Growth(fields.Keys - Elements(names), fields.Keys))
    case HGet(field) => reply == Element(Lookup(fields, field))
    case HGetAll => reply == Pairs(fields)
  }

  // ---------- Sets ----------

  function SetResult(op: Op, base: Value): (r: Value)
    requires Suits(op, SetKind) && base.coll.Set?
    ensures r.coll.Set?
  {
    var members := base.coll.members;
    match op
    case SAdd(names) => Value(Set(members + Elements(names)), true, base.expiring)
    case SRem(names) => base.(coll := Set(members - Elements(names)))
    case _ => base
  }

  predicate SetAnswers(op: Op, base: Value, reply: Reply)
    requires Suits(op, SetKind) && base.coll.Set?
  {
    var members := base.coll.members;
    match op
    case SAdd(names) => reply == Number(Growth(members, members + Elements(names)))
    case SRem(names) => reply == Number(Growth(members - Elements(names), members))
    case SMembers => reply == Names(members)
    case SIsMember(member) => reply == Flag(member in members)
  }

  // ---------- Sorted sets ----------

  /** The score that zincrby returns; a key that falls due midway still lends its old score. */
  function NewScore(amount: real, member: Bytes, v: Value, fate: Fate): real
    requires v.coll.ZSet?
  {
    amount + if fate != Expires && member in v.coll.scores then v.coll.scores[member] else 0.0
  }

  function ZSetResult(floats: Floats, op: Op, v: Value, fate: Fate): (r: Value)
    requires Suits(op, ZSetKind) && v.coll.ZSet?
    ensures r.coll.ZSet?
  {
    var base := Base(v, fate);
    var z := base.coll.scores;
    match op
    case ZAdd(scores) => Value(ZSet(z + floats.AllThrough(scores)), true, base.expiring)
    case ZRem(names) => base.(coll := ZSet(z - Elements(names)))
    case ZIncrBy(amount, member) =>
      Value(ZSet(z[member := floats.Through(NewScore(amount, member, v, fate))]), true, base.expiring)
    case _ => base
  }

  ghost predicate ZSetAnswers(op: Op, v: Value, fate: Fate, reply: Reply)
    requires Suits(op, ZSetKind) && v.coll.ZSet?
  {
    var z := Base(v, fate).coll.scores;
    match op
    case ZAdd(scores) => reply == Number(Growth(z.Keys, z.Keys + scores.Keys))
    case ZRem(names) => reply == Number(Growth(z.Keys - Elements(names), z.Keys))
    case ZScore(member) => reply == Score(Lookup(z, member))
    case ZIncrBy(amount, member) => reply == Score(Some(NewScore(amount, member, v, fate)))
    case ZRange(start, stop) => reply.Ranked? && IsRangeOf(reply.ranked, z, start, stop)
    case ZRank(member) => reply == Rank(if member in z then Some(RankIn(z, member)) else None)
  }

  /** The part between the ends of the listing of all members by score and then by member. */
  ghost predicate IsRangeOf(sliced: seq<Scored>, z: map<Bytes, real>, start: int, stop: int) {
    exists ranked ::
      && ListsByScore(ranked, z)
      && sliced == Between(ranked, Position(|ranked|, start), Position(|ranked|, stop))
  }

  ghost predicate ListsByScore(ranked: seq<Scored>, z: map<Bytes, real>) {
    && (forall x :: x in ranked <==> Lookup(z, x.member) == Some(x.score))
    && (forall i, j :: 0 <= i < j < |ranked| ==>
          ranked[i].score < ranked[j].score
          || (ranked[i].score == ranked[j].score && Less(ranked[i].member, ranked[j].member)))
  }

  // ---------- Any command ----------

  function KeyResult(op: Op, v: Value): (r: Value)
    requires OnKey(op)
    ensures r.coll.Kind() == v.coll.Kind()
  {
    match op
    case Expire(_) => v.(expiring := true)
    case Persist => v.(expiring := false)
    case Delete => if v.typed then Gone(v.coll.Kind()) else v
  }

  predicate KeyAnswers(op: Op, v: Value, reply: Reply)
    requires OnKey(op)
  {
    match op
    case Expire(_) => reply == Flag(true)
    case Persist => reply == Flag(v.expiring)
    case Delete => reply == Flag(v.typed)
  }

  /** The key after the command. */
  function Result(floats: Floats, op: Op, v: Value, fate: Fate): (r: Value)
    requires OnKey(op) || Suits(op, v.coll.Kind())
    ensures r.coll.Kind() == v.coll.Kind()
  {
    if OnKey(op) then KeyResult(op, v)
    else
      match v.coll
      case List(_) => ListResult(op, Base(v, fate))
      case Hash(_) => HashResult(op, Base(v, fate))
      case Set(_) => SetResult(op, Base(v, fate))
      case ZSet(_) => ZSetResult(floats, op, v, fate)
  }

  /** The reply of the plain collection. */
  ghost predicate Answers(op: Op, v: Value, fate: Fate, reply: Reply)
    requires OnKey(op) || Suits(op, v.coll.Kind())
  {
    if OnKey(op) then KeyAnswers(op, v, reply)
    else
      match v.coll
      case List(_) => ListAnswers(op, Base(v, fate), fate, reply)
      case Hash(_) => HashAnswers(op, Base(v, fate), reply)
      case Set(_) => SetAnswers(op, Base(v, fate), reply)
      case ZSet(_) => ZSetAnswers(op, v, fate, reply)
  }
}
