// Lists as numbered cells: what a list is in the store, and what each cell change does to it.
//
// The metadata cell holds head and tail as text, and the elements lie in the cells numbered from
// head to tail - 1. A missing cell in between is a hole, which counts for the length but is not
// read. IsList joins metadata, cells and type cell.

module KvLists {
  import opened ByteStrings
  import opened Numerals
  import opened KvKeys
  import opened Store
  import Tables

  const LIST: Bytes := "list"

  // ---------- Head and tail ----------

  function MetaText(head: int, tail: int): Bytes {
    IntText(head) + (":" + IntText(tail))
  }

  function FindColon(s: Bytes): Option<nat> {
    if s == [] then None
    else if s[0] == ':' then Some(0)
    else
      var r := FindColon(s[1..]);
      if r == None then None else Some(r.value + 1)
  }

  /** head, tail = map(int, v.split(":")); (0, 0) on any exception. */
  function ReadMeta(v: Bytes): (int, int) {
    var c := FindColon(v);
    if c == None || c.value >= |v| then (0, 0)
    else
      var head, tail := ReadInt(v[..c.value]), ReadInt(v[c.value + 1..]);
      if head == None || tail == None then (0, 0) else (head.value, tail.value)
  }

  lemma {:induction false} FindFirstColon(a: Bytes, b: Bytes)
    requires NoColon(a)
    ensures FindColon(a + (":" + b)) == Some(|a|)
  {
    var s := a + (":" + b);
    if a != [] {
      FindFirstColon(a[1..], b);
      assert s[1..] == a[1..] + (":" + b);
    }
  }

  lemma MetaReadsBack(head: int, tail: int)
    ensures ReadMeta(MetaText(head, tail)) == (head, tail)
  {
    hide IntText, ReadInt, FindColon;
    IntTextHasNoColon(head);
    FindFirstColon(IntText(head), IntText(tail));
    ReadIntOfIntText(head);
    ReadIntOfIntText(tail);
    var v := MetaText(head, tail);
    assert v[..|IntText(head)|] == IntText(head) && v[|IntText(head)| + 1..] == IntText(tail);
  }

  /** Metadata that is not two numbers around a colon reads as an empty list. */
  lemma UnreadableMeta(a: Bytes, b: Bytes)
    requires NoColon(a)
    ensures ReadMeta(a) == (0, 0)
    ensures ReadInt(a) == None || ReadInt(b) == None ==> ReadMeta(a + (":" + b)) == (0, 0)
  {
    hide ReadInt;
    FindFirstColon(a, b);
    var v := a + (":" + b);
    assert v[..|a|] == a && v[|a| + 1..] == b;
    NoColonFound(a);
  }

  lemma {:induction false} NoColonFound(s: Bytes)
    requires NoColon(s)
    ensures FindColon(s) == None
  {
    if s != [] {
      NoColonFound(s[1..]);
    }
  }

  function Meta(m: map<Bytes, Bytes>, key: Bytes): (int, int) {
    if MetaKey(key) in m then ReadMeta(m[MetaKey(key)]) else (0, 0)
  }

  // ---------- What a list is ----------

  /** An element of a list; None where the tombstone constant was stored, which leaves a hole. */
  type Element = Option<Bytes>

  function Slots(values: seq<Bytes>): (r: seq<Element>)
    ensures |r| == |values| && forall i :: 0 <= i < |r| ==> r[i] == Slot(values[i])
  {
    seq(|values|, i requires 0 <= i < |values| => Slot(values[i]))
  }

  /** An empty popped element reads as None. */
  function Truthy(v: Option<Bytes>): Option<Bytes> {
    if v == Some([]) then None else v
  }

  /** What a reader gets: the elements that are there. */
  function Present(xs: seq<Element>): seq<Bytes> {
    if xs == [] then []
    else
      var n := |xs| - 1;
      Present(xs[..n]) + if xs[n].Some? then [xs[n].value] else []
  }

  /** Stored values read back as they are if and only if none is the tombstone constant. */
  lemma {:induction false} PresentOfSlots(values: seq<Bytes>)
    ensures Present(Slots(values)) == values <==> Tables.TOMBSTONE !in values
    ensures |Present(Slots(values))| <= |values|
  {
    if values != [] {
      var n := |values| - 1;
      PresentOfSlots(values[..n]);
      assert Slots(values)[..n] == Slots(values[..n]);
      assert values == values[..n] + [values[n]];
      var front := Present(Slots(values[..n]));
      if Slots(values)[n] == None {
        assert |Present(Slots(values))| < |values|;
      } else {
        assert Present(Slots(values)) == front + [values[n]];
        assert Present(Slots(values))[|front|] == values[n];
        if front + [values[n]] == values {
          assert |front| == n && (front + [values[n]])[..n] == front;
        }
      }
    }
  }

  lemma NothingPresent(lo: int, hi: int)
    ensures Between<Element>([], lo, hi) == [] && Present([]) == []
  {
  }

  lemma PresentStep(xs: seq<Element>, lo: nat, n: nat)
    requires lo <= n < |xs|
    ensures Present(xs[lo..n + 1]) == Present(xs[lo..n]) + if xs[n].Some? then [xs[n].value] else []
  {
    assert xs[lo..n + 1][..n - lo] == xs[lo..n];
  }

  /** The cells of the key are exactly those numbered from head on, holding xs. */
  ghost predicate CellsHold(m: map<Bytes, Bytes>, key: Bytes, head: int, xs: seq<Element>) {
    && (forall i :: head <= i < head + |xs| ==> Lookup(m, Cell(key, i)) == xs[i - head])
    && (forall i :: i < head || head + |xs| <= i ==> Cell(key, i) !in m)
  }

  /** The key holds the list xs; an absent key holds the empty list. */
  ghost predicate IsList(m: map<Bytes, Bytes>, key: Bytes, xs: seq<Element>) {
    && CellsHold(m, key, Meta(m, key).0, xs)
    && Meta(m, key).1 == Meta(m, key).0 + |xs|
    && (MetaKey(key) in m <==> TypeKey(key) in m)
    && (TypeKey(key) in m ==> m[TypeKey(key)] == LIST)
  }

  /** The cells a list operation on the key may touch. */
  ghost predicate Owned(key: Bytes, k: Bytes) {
    k == MetaKey(key) || k == TypeKey(key) || k == ExpKey(key) || exists i :: k == Cell(key, i)
  }

  ghost predicate SameOutside(m: map<Bytes, Bytes>, m': map<Bytes, Bytes>, key: Bytes) {
    forall k :: !Owned(key, k) ==> Lookup(m, k) == Lookup(m', k)
  }

  /** Other keys' lists do not change. */
  lemma OtherListsStay(m: map<Bytes, Bytes>, m': map<Bytes, Bytes>, key: Bytes, other: Bytes, ys: seq<Element>)
    requires SameOutside(m, m', key) && other != key && IsList(m, other, ys)
    ensures IsList(m', other, ys)
  {
    hide Cell, MetaKey, TypeKey, ExpKey, ReadMeta;
    NotOwned(key, other);
    forall i: int
      ensures Lookup(m, Cell(other, i)) == Lookup(m', Cell(other, i))
    {
      CellNotOwned(key, other, i);
    }
    assert Lookup(m, MetaKey(other)) == Lookup(m', MetaKey(other));
    assert Lookup(m, TypeKey(other)) == Lookup(m', TypeKey(other));
  }

  lemma NotOwned(key: Bytes, other: Bytes)
    requires other != key
    ensures !Owned(key, MetaKey(other)) && !Owned(key, TypeKey(other)) && !Owned(key, ExpKey(other))
  {
    hide Cell;
    SameTag("__LMETA__:", key, other);
    SameTag("__TYPE__:", key, other);
    SameTag("__EXP__:", key, other);
    KindsDiffer(key, other, 0);
    KindsDiffer(other, key, 0);
    forall i: int
      ensures Cell(key, i) != MetaKey(other) && Cell(key, i) != TypeKey(other) && Cell(key, i) != ExpKey(other)
    {
      KindsDiffer(key, other, i);
    }
  }

  lemma CellNotOwned(key: Bytes, other: Bytes, i: int)
    requires other != key
    ensures !Owned(key, Cell(other, i))
  {
    hide Cell, MetaKey, TypeKey, ExpKey;
    KindsDiffer(other, key, i);
    if j :| Cell(other, i) == Cell(key, j) {
      CellIsInjective(other, i, key, j);
    }
  }

  // ---------- One cell at a time ----------

  lemma PutFront(m: map<Bytes, Bytes>, key: Bytes, head: int, xs: seq<Element>, x: Element)
    requires CellsHold(m, key, head, xs)
    ensures CellsHold(WithSlot(m, Cell(key, head - 1), x), key, head - 1, [x] + xs)
  {
    hide Cell;
    OwnCellsDiffer(key, head - 1);
  }

  lemma PutBack(m: map<Bytes, Bytes>, key: Bytes, head: int, xs: seq<Element>, x: Element)
    requires CellsHold(m, key, head, xs)
    ensures CellsHold(WithSlot(m, Cell(key, head + |xs|), x), key, head, xs + [x])
  {
    hide Cell;
    OwnCellsDiffer(key, head + |xs|);
  }

  lemma PutInside(m: map<Bytes, Bytes>, key: Bytes, head: int, xs: seq<Element>, n: nat, x: Element)
    requires CellsHold(m, key, head, xs) && n < |xs|
    ensures CellsHold(WithSlot(m, Cell(key, head + n), x), key, head, xs[n := x])
  {
    hide Cell;
    OwnCellsDiffer(key, head + n);
  }

  lemma DropFront(m: map<Bytes, Bytes>, key: Bytes, head: int, xs: seq<Element>)
    requires CellsHold(m, key, head, xs) && xs != []
    ensures CellsHold(m - {Cell(key, head)}, key, head + 1, xs[1..])
  {
    hide Cell;
    OwnCellsDiffer(key, head);
  }

  lemma DropBack(m: map<Bytes, Bytes>, key: Bytes, head: int, xs: seq<Element>)
    requires CellsHold(m, key, head, xs) && xs != []
    ensures CellsHold(m - {Cell(key, head + |xs| - 1)}, key, head, xs[..|xs| - 1])
  {
    hide Cell;
    OwnCellsDiffer(key, head + |xs| - 1);
  }

  lemma OwnCellsDiffer(key: Bytes, i: int)
    ensures forall j :: j != i ==> Cell(key, j) != Cell(key, i)
  {
    forall j | j != i
      ensures Cell(key, j) != Cell(key, i)
    {
      if Cell(key, j) == Cell(key, i) {
        CellIsInjective(key, j, key, i);
      }
    }
  }

  /** Names of the key other than its cells leave the cells alone. */
  lemma CellsIgnore(m: map<Bytes, Bytes>, m': map<Bytes, Bytes>, key: Bytes, head: int, xs: seq<Element>)
    requires CellsHold(m, key, head, xs)
    requires forall i: int :: Lookup(m', Cell(key, i)) == Lookup(m, Cell(key, i))
    ensures CellsHold(m', key, head, xs)
  {
    hide Cell;
  }

  /** What writing the head and tail back makes of the cells. */
  function WithMeta(m: map<Bytes, Bytes>, key: Bytes, head: int, tail: int): map<Bytes, Bytes> {
    m[MetaKey(key) := MetaText(head, tail)][TypeKey(key) := LIST]
  }

  /** Neither the metadata nor the type is ever the tombstone constant. */
  lemma MetaIsKept(head: int, tail: int)
    ensures Slot(MetaText(head, tail)) == Some(MetaText(head, tail)) && Slot(LIST) == Some(LIST)
  {
    hide IntText;
    TombstoneHasNoColon();
    assert MetaText(head, tail)[|IntText(head)|] == ':';
  }

  lemma MetaCompletes(m: map<Bytes, Bytes>, key: Bytes, head: int, xs: seq<Element>)
    requires CellsHold(m, key, head, xs)
    ensures IsList(WithMeta(m, key, head, head + |xs|), key, xs)
  {
    hide Cell, MetaKey, TypeKey, ExpKey, MetaText, ReadMeta;
    var m' := WithMeta(m, key, head, head + |xs|);
    forall i: int
      ensures Lookup(m', Cell(key, i)) == Lookup(m, Cell(key, i))
    {
      KindsDiffer(key, key, i);
    }
    KindsDiffer(key, key, 0);
    MetaReadsBack(head, head + |xs|);
    CellsIgnore(m, m', key, head, xs);
  }

  // ---------- Sequences ----------

  function Reversed<T>(xs: seq<T>): (r: seq<T>)
    ensures |r| == |xs|
  {
    if xs == [] then [] else Reversed(xs[1..]) + [xs[0]]
  }

  /** Negative positions count from the end. */
  function Position(n: nat, i: int): int {
    if i < 0 then n + i else i
  }

  /** The elements whose positions lie between lo and hi, in order. */
  function Between<T>(xs: seq<T>, lo: int, hi: int): seq<T> {
    if xs == [] then []
    else
      var n := |xs| - 1;
      Between(xs[..n], lo, hi) + if lo <= n <= hi then [xs[n]] else []
  }

  lemma PrefixSlice<T>(xs: seq<T>, n: nat, a: nat, b: nat)
    requires a <= b <= n <= |xs|
    ensures xs[..n][a..b] == xs[a..b]
  {
  }

  lemma LongerSlice<T>(xs: seq<T>, a: nat, n: nat)
    requires a <= n < |xs|
    ensures xs[a..n] + [xs[n]] == xs[a..n + 1]
  {
  }

  /** The slice that the range commands cut after clamping both ends. */
  function Clamped<T>(xs: seq<T>, lo: int, hi: int): seq<T> {
    var a := if lo < 0 then 0 else lo;
    var b := if hi >= |xs| then |xs| - 1 else hi;
    if a <= b then xs[a..b + 1] else []
  }

  lemma ClampedStep<T>(xs: seq<T>, lo: int, hi: int)
    requires xs != []
    ensures var n := |xs| - 1;
            Clamped(xs, lo, hi) == Clamped(xs[..n], lo, hi) + if lo <= n <= hi then [xs[n]] else []
  {
    var n := |xs| - 1;
    var a := if lo < 0 then 0 else lo;
    if lo <= n <= hi {
      PrefixSlice(xs, n, a, n);
      LongerSlice(xs, a, n);
    } else if a <= hi < n {
      PrefixSlice(xs, n, a, hi + 1);
    }
  }

  /** Clamping both ends gives the same elements as one slice. */
  lemma {:induction false} BetweenIsSlice<T>(xs: seq<T>, lo: int, hi: int)
    ensures Between(xs, lo, hi) == Clamped(xs, lo, hi)
  {
    if xs == [] {
      assert Clamped(xs, lo, hi) == [];
    } else {
      hide Clamped;
      BetweenIsSlice(xs[..|xs| - 1], lo, hi);
      ClampedStep(xs, lo, hi);
    }
  }
}
