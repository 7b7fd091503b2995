// Byte strings: lexicographic order, positions inside a file, and big-endian integers.

module ByteStrings {

  datatype Option<+T> = None | Some(value: T)

  /** A byte is written as the character of that code. The bound 256 is assumed only
      where it matters: the laws below hold for longer alphabets as well. */
  type Byte = char

  type Bytes = seq<Byte>

  /** The answer of a dict lookup. */
  function Lookup<K, V>(m: map<K, V>, k: K): Option<V> {
    if k in m then Some(m[k]) else None
  }

  // ---------- Lexicographic order ----------

  predicate Less(a: Bytes, b: Bytes) {
    if b == [] then false
    else if a == [] then true
    else if a[0] != b[0] then a[0] < b[0]
    else Less(a[1..], b[1..])
  }

  predicate AtMost(a: Bytes, b: Bytes) {
    a == b || Less(a, b)
  }

  lemma {:induction false} LessIsIrreflexive(a: Bytes)
    ensures !Less(a, a)
  {
    if a != [] {
      LessIsIrreflexive(a[1..]);
    }
  }

  lemma {:induction false} LessIsTransitive(a: Bytes, b: Bytes, c: Bytes)
    requires Less(a, b) && Less(b, c)
    ensures Less(a, c)
  {
    if a != [] && a[0] == b[0] && b[0] == c[0] {
      LessIsTransitive(a[1..], b[1..], c[1..]);
    }
  }

  lemma {:induction false} LessIsTotal(a: Bytes, b: Bytes)
    ensures a == b || Less(a, b) || Less(b, a)
  {
    if a != [] && b != [] && a[0] == b[0] {
      LessIsTotal(a[1..], b[1..]);
      assert a == [a[0]] + a[1..] && b == [b[0]] + b[1..];
    }
  }

  /** The two agree before place i, where a ends or has the smaller character. */
  predicate FallsBehind(a: Bytes, b: Bytes, i: nat) {
    i <= |a| && i < |b| && a[..i] == b[..i] && (i == |a| || a[i] < b[i])
  }

  /** What the order is, without recursion. */
  lemma {:induction false} LessAtFirstDifference(a: Bytes, b: Bytes)
    ensures Less(a, b) <==> exists i: nat :: FallsBehind(a, b, i)
    ensures AtMost(a, b) <==> a == b || Less(a, b)
  {
    if a != [] && b != [] {
      forall i: nat
        ensures i > 0 && FallsBehind(a, b, i) ==> a[0] == b[0] && FallsBehind(a[1..], b[1..], i - 1)
        ensures a[0] == b[0] && FallsBehind(a[1..], b[1..], i) ==> FallsBehind(a, b, i + 1)
      {
        BehindShifts(a, b, i);
      }
      if a[0] == b[0] {
        LessAtFirstDifference(a[1..], b[1..]);
        if i: nat :| FallsBehind(a[1..], b[1..], i) {
          assert FallsBehind(a, b, i + 1);
        }
        if i: nat :| FallsBehind(a, b, i) {
          assert FallsBehind(a[1..], b[1..], i - 1);
        }
      } else {
        assert FallsBehind(a, b, 0) <==> a[0] < b[0];
      }
    } else if b != [] {
      assert FallsBehind(a, b, 0);
    }
  }

  lemma BehindShifts(a: Bytes, b: Bytes, i: nat)
    requires a != [] && b != []
    ensures i > 0 && FallsBehind(a, b, i) ==> a[0] == b[0] && FallsBehind(a[1..], b[1..], i - 1)
    ensures a[0] == b[0] && FallsBehind(a[1..], b[1..], i) ==> FallsBehind(a, b, i + 1)
  {
    if 0 < i <= |a| && i < |b| {
      assert a[1..][..i - 1] == a[..i][1..] && b[1..][..i - 1] == b[..i][1..];
      assert a[..i][0] == a[0] && b[..i][0] == b[0];
    }
    if i + 1 <= |a| && i + 1 < |b| {
      assert a[..i + 1] == [a[0]] + a[1..][..i] && b[..i + 1] == [b[0]] + b[1..][..i];
    }
  }

  /** The order laws in the shape most proofs need: exactly one of three cases holds. */
  lemma Trichotomy(a: Bytes, b: Bytes)
    ensures Less(a, b) ==> !AtMost(b, a)
    ensures !Less(a, b) ==> AtMost(b, a)
  {
    LessIsTotal(a, b);
    LessIsIrreflexive(a);
    if Less(a, b) && Less(b, a) {
      LessIsTransitive(a, b, a);
    }
  }

  lemma AtMostLess(a: Bytes, b: Bytes, c: Bytes)
    requires AtMost(a, b) && AtMost(b, c)
    ensures AtMost(a, c)
    ensures Less(a, b) || Less(b, c) ==> Less(a, c)
  {
    if Less(a, b) && Less(b, c) {
      LessIsTransitive(a, b, c);
    }
  }

  lemma {:induction false} PrefixComesFirst(p: Bytes, k: Bytes)
    requires p <= k
    ensures AtMost(p, k)
  {
    if p != [] {
      PrefixComesFirst(p[1..], k[1..]);
      assert p == [p[0]] + p[1..] && k == [k[0]] + k[1..];
    }
  }

  /** Past a prefix, the keys that carry it come before all keys that do not. */
  lemma {:induction false} PrefixIsContiguous(p: Bytes, inside: Bytes, outside: Bytes)
    requires p <= inside
    requires AtMost(p, outside) && !(p <= outside)
    ensures Less(inside, outside)
  {
    assert p != [];
    assert outside != [];
    if p[0] == outside[0] {
      PrefixIsContiguous(p[1..], inside[1..], outside[1..]);
    }
  }

  /** A common prefix does not change the order. */
  lemma {:induction false} LessUnderPrefix(p: Bytes, a: Bytes, b: Bytes)
    ensures Less(p + a, p + b) <==> Less(a, b)
  {
    if p == [] {
      assert p + a == a && p + b == b;
    } else {
      LessUnderPrefix(p[1..], a, b);
      assert (p + a)[1..] == p[1..] + a && (p + b)[1..] == p[1..] + b;
    }
  }

  // ---------- Positions inside a file ----------

  /** x is stored in file at offset pos. */
  predicate At(file: Bytes, pos: nat, x: Bytes) {
    pos + |x| <= |file| && file[pos..pos + |x|] == x
  }

  /** What file.read(n) returns with the cursor at pos. */
  function Read(file: Bytes, pos: nat, n: nat): (r: Bytes)
    ensures |r| <= n
  {
    if pos >= |file| then [] else if pos + n <= |file| then file[pos..pos + n] else file[pos..]
  }

  lemma AtSplit(file: Bytes, pos: nat, a: Bytes, b: Bytes)
    ensures At(file, pos, a + b) <==> At(file, pos, a) && At(file, pos + |a|, b)
  {
    if At(file, pos, a + b) {
      var ab := file[pos..pos + |a + b|];
      assert file[pos..pos + |a|] == ab[..|a|];
      assert file[pos + |a|..pos + |a| + |b|] == ab[|a|..];
    }
    if At(file, pos, a) && At(file, pos + |a|, b) {
      assert file[pos..pos + |a + b|] == file[pos..pos + |a|] + file[pos + |a|..pos + |a| + |b|];
    }
  }

  /** Two adjacent pieces are read back one after the other. */
  lemma ReadPieces(file: Bytes, pos: nat, a: Bytes, b: Bytes)
    requires At(file, pos, a + b)
    ensures Read(file, pos, |a|) == a && Read(file, pos + |a|, |b|) == b
    ensures At(file, pos, a) && At(file, pos + |a|, b)
  {
    AtSplit(file, pos, a, b);
  }

  // ---------- Big-endian integers ----------

  function Pow256(w: nat): (p: nat)
    ensures p > 0
  {
    if w == 0 then 1 else 256 * Pow256(w - 1)
  }

  predicate Fits(n: nat, w: nat) {
    n < Pow256(w)
  }

  function Pack(n: nat, w: nat): (s: Bytes)
    ensures |s| == w
  {
    if w == 0 then [] else Pack(n / 256, w - 1) + [(n % 256) as char]
  }

  function Unpack(s: Bytes): nat {
    if s == [] then 0 else 256 * Unpack(s[..|s| - 1]) + s[|s| - 1] as int
  }

  /** struct.unpack undoes struct.pack exactly on the numbers that fit the field. */
  lemma {:induction false} UnpackPack(n: nat, w: nat)
    ensures Unpack(Pack(n, w)) == n <==> Fits(n, w)
    ensures Fits(Unpack(Pack(n, w)), w)
  {
    if w > 0 {
      UnpackPack(n / 256, w - 1);
      var s := Pack(n, w);
      assert s[..|s| - 1] == Pack(n / 256, w - 1);
      assert s[|s| - 1] as int == n % 256;
      assert n == 256 * (n / 256) + n % 256;
    }
  }

  lemma Pow256Values()
    ensures Pow256(1) == 0x100 && Pow256(2) == 0x1_0000 && Pow256(4) == 0x1_0000_0000
    ensures Pow256(8) == 0x1_0000_0000_0000_0000
  {
    assert Pow256(3) == 0x100_0000;
    assert Pow256(5) == 256 * Pow256(4);
    assert Pow256(6) == 256 * Pow256(5);
    assert Pow256(7) == 256 * Pow256(6);
  }
}
