// How the key-value engine names its cells, and when two names are the same cell.

module KvKeys {
  import opened ByteStrings
  import opened Numerals
  import Tables

  function TypeKey(key: Bytes): Bytes { "__TYPE__:" + key }

  function ExpKey(key: Bytes): Bytes { "__EXP__:" + key }

  function ValueKey(key: Bytes): Bytes { "__V__:" + key }

  function MetaKey(key: Bytes): Bytes { "__LMETA__:" + key }

  function Cell(key: Bytes, i: int): Bytes { "__L__:" + (key + (":" + IntText(i))) }

  function HashPrefix(key: Bytes): Bytes { "__H__:" + key + ":" }

  function SetPrefix(key: Bytes): Bytes { "__S__:" + key + ":" }

  function ZSetPrefix(key: Bytes): Bytes { "__Z__:" + key + ":" }

  /** What a cell holds after this value is written: the tombstone constant deletes it. */
  function Slot(value: Bytes): Option<Bytes> {
    if value == Tables.TOMBSTONE then None else Some(value)
  }

  lemma TombstoneHasNoColon()
    ensures |Tables.TOMBSTONE| == 20 && NoColon(Tables.TOMBSTONE)
  {
  }

  predicate NoColon(s: Bytes) {
    forall i :: 0 <= i < |s| ==> s[i] != ':'
  }

  /** The last colon splits a name in one way only. */
  lemma LastColon(a: Bytes, b: Bytes, c: Bytes, d: Bytes)
    requires a + (":" + b) == c + (":" + d) && NoColon(b) && NoColon(d)
    ensures a == c && b == d
  {
    var s := a + (":" + b);
    assert s[|a|] == ':' && s[|c|] == ':';
    assert forall i :: |a| < i < |s| ==> s[i] == b[i - |a| - 1];
    assert forall i :: |c| < i < |s| ==> s[i] == d[i - |c| - 1];
    assert |a| == |c|;
    assert s[..|a|] == a && s[..|c|] == c;
    assert s[|a| + 1..] == b && s[|c| + 1..] == d;
  }

  /** The first colon splits a name in one way only. */
  lemma FirstColon(a: Bytes, b: Bytes, c: Bytes, d: Bytes)
    requires a + (":" + b) == c + (":" + d) && NoColon(a) && NoColon(c)
    ensures a == c && b == d
  {
    var s := a + (":" + b);
    assert s[|a|] == ':' && s[|c|] == ':';
    assert forall i :: 0 <= i < |a| ==> s[i] == a[i];
    assert forall i :: 0 <= i < |c| ==> s[i] == c[i];
    assert |a| == |c|;
    assert s[..|a|] == a && s[..|c|] == c;
    assert s[|a| + 1..] == b && s[|c| + 1..] == d;
  }

  lemma IntTextHasNoColon(i: int)
    ensures NoColon(IntText(i))
  {
  }

  lemma DropTag(tag: Bytes, x: Bytes, y: Bytes)
    requires tag + x == tag + y
    ensures x == y
  {
    assert (tag + x)[|tag|..] == x && (tag + y)[|tag|..] == y;
  }

  /** A list cell belongs to one key and one index, even when keys contain colons. */
  lemma CellIsInjective(k1: Bytes, i: int, k2: Bytes, j: int)
    requires Cell(k1, i) == Cell(k2, j)
    ensures k1 == k2 && i == j
  {
    hide IntText;
    DropTag("__L__:", k1 + (":" + IntText(i)), k2 + (":" + IntText(j)));
    IntTextHasNoColon(i);
    IntTextHasNoColon(j);
    LastColon(k1, IntText(i), k2, IntText(j));
    IntTextIsInjective(i, j);
  }

  /** Cells of different kinds never coincide. */
  lemma KindsDiffer(a: Bytes, b: Bytes, i: int)
    ensures MetaKey(a) != TypeKey(b) && MetaKey(a) != ExpKey(b) && TypeKey(a) != ExpKey(b)
    ensures Cell(a, i) != MetaKey(b) && Cell(a, i) != TypeKey(b) && Cell(a, i) != ExpKey(b)
  {
    hide IntText;
    assert MetaKey(a)[2] == 'L' && MetaKey(a)[3] == 'M' && MetaKey(b)[3] == 'M';
    assert TypeKey(a)[2] == 'T' && TypeKey(b)[2] == 'T' && ExpKey(b)[2] == 'E';
    assert Cell(a, i)[2] == 'L' && Cell(a, i)[3] == '_';
  }

  lemma SameTag(tag: Bytes, a: Bytes, b: Bytes)
    ensures tag + a == tag + b <==> a == b
  {
    if tag + a == tag + b {
      DropTag(tag, a, b);
    }
  }
}
