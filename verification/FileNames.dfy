// The names of numbered files: zero-padded to eight digits, listed by name, read back by slice.

module FileNames {
  import opened ByteStrings
  import opened Numerals
  import opened Directories

  const WIDTH: nat := 8

  /** The first number that needs a ninth digit. */
  const NAMED: nat := 100_000_000

  function Zeros(n: nat): (r: Bytes)
    ensures |r| == n && forall i :: 0 <= i < n ==> r[i] == '0'
  {
    seq(n, _ => '0')
  }

  /** f"{n:08d}" */
  function Padded(n: nat): Bytes {
    var text := NatText(n);
    if |text| < WIDTH then Zeros(WIDTH - |text|) + text else text
  }

  /** The four letters before the number are "sst_" or "wal_". */
  type Stem = s: Bytes | |s| == 4 witness "sst_"

  /** The suffix is ".sst" or ".log". */
  type Ending = s: Bytes | s != [] && s[0] == '.' witness ".sst"

  function NameOf(stem: Stem, n: nat, ending: Ending): Bytes {
    stem + Padded(n) + ending
  }

  /** int(name[4:12]) */
  function NumberIn(name: Bytes): Option<int>
    requires |name| >= 4 + WIDTH
  {
    ReadInt(name[4..4 + WIDTH])
  }

  // ---------- Reading the number back ----------

  /** The number that the first eight digits make. */
  function Leading(n: nat): (r: nat)
    ensures r < NAMED && (r == n <==> n < NAMED)
  {
    if n < NAMED then n else Leading(n / 10)
  }

  function Power(k: nat): (r: nat)
    ensures r > 0
  {
    if k == 0 then 1 else 10 * Power(k - 1)
  }

  lemma {:induction false} TextLength(n: nat, k: nat)
    requires k > 0
    ensures |NatText(n)| <= k <==> n < Power(k)
  {
    if n >= 10 {
      if k > 1 {
        TextLength(n / 10, k - 1);
      } else {
        assert Power(1) == 10;
      }
    }
  }

  lemma EightDigits(n: nat)
    ensures |NatText(n)| <= WIDTH <==> n < NAMED
  {
    TextLength(n, WIDTH);
    assert Power(2) == 100 && Power(4) == 10_000 && Power(6) == 1_000_000 && Power(8) == NAMED;
  }

  predicate AllDigits(s: Bytes) {
    forall i :: 0 <= i < |s| ==> IsDigit(s[i])
  }

  lemma PaddedIsDigits(n: nat)
    ensures AllDigits(Padded(n)) && |Padded(n)| >= WIDTH
    ensures |Padded(n)| == WIDTH <==> n < NAMED
  {
    EightDigits(n);
  }

  lemma {:induction false} ReadZeros(k: nat, n: nat)
    ensures ReadDigits(Zeros(k) + NatText(n)) == Some(n)
  {
    var s := Zeros(k) + NatText(n);
    if n >= 10 {
      ReadZeros(k, n / 10);
      assert s[..|s| - 1] == Zeros(k) + NatText(n / 10);
    } else {
      assert s[..|s| - 1] == Zeros(k);
      ReadOnlyZeros(k);
    }
  }

  lemma {:induction false} ReadOnlyZeros(k: nat)
    ensures k > 0 ==> ReadDigits(Zeros(k)) == Some(0)
  {
    if k > 0 {
      ReadOnlyZeros(k - 1);
      assert Zeros(k)[..k - 1] == Zeros(k - 1);
    }
  }

  lemma ReadIntOfDigits(s: Bytes)
    requires s != [] && AllDigits(s)
    ensures ReadInt(s) == match ReadDigits(s) case None => None case Some(n) => Some(n)
  {
    assert IsDigit(s[0]) && IsDigit(s[|s| - 1]);
    assert StripLeft(s) == s && StripRight(s) == s;
  }

  lemma {:induction false} FirstEight(n: nat)
    ensures Padded(n)[..WIDTH] == Padded(Leading(n))
    decreases n
  {
    PaddedIsDigits(n);
    EightDigits(n);
    if n < NAMED {
      assert Padded(n)[..WIDTH] == Padded(n);
    } else {
      EightDigits(n / 10);
      FirstEight(n / 10);
      assert Padded(n) == NatText(n / 10) + [DigitChar(n % 10)];
      if n / 10 >= NAMED {
        assert Padded(n)[..WIDTH] == NatText(n / 10)[..WIDTH] == Padded(n / 10)[..WIDTH];
      } else {
        TextLength(n / 10, WIDTH - 1);
        assert Power(7) == 10_000_000;
        assert Padded(n)[..WIDTH] == NatText(n / 10) == Padded(n / 10);
      }
    }
  }

  /** The slice reads the first eight digits, so it reads the number itself exactly below 10^8. */
  lemma NumberReadsBack(stem: Stem, n: nat, ending: Ending)
    ensures |NameOf(stem, n, ending)| >= 4 + WIDTH
    ensures NumberIn(NameOf(stem, n, ending)) == Some(Leading(n))
    ensures NumberIn(NameOf(stem, n, ending)) == Some(n) <==> n < NAMED
  {
    hide Padded, ReadInt, ReadDigits;
    PaddedIsDigits(n);
    FirstEight(n);
    var m := Leading(n);
    PaddedIsDigits(m);
    var name := NameOf(stem, n, ending);
    assert name[4..4 + WIDTH] == Padded(n)[..WIDTH] == Padded(m);
    PaddedReads(m);
    ReadIntOfDigits(Padded(m));
  }

  lemma PaddedReads(n: nat)
    ensures ReadDigits(Padded(n)) == Some(n)
  {
    var k := if |NatText(n)| < WIDTH then WIDTH - |NatText(n)| else 0;
    ReadZeros(k, n);
    assert Zeros(0) + NatText(n) == NatText(n);
  }

  // ---------- The order of names ----------

  function Value(s: Bytes): (r: nat)
    requires AllDigits(s)
  {
    if s == [] then 0 else 10 * Value(s[..|s| - 1]) + DigitValue(s[|s| - 1])
  }

  lemma {:induction false} ValueOfDigits(s: Bytes)
    requires AllDigits(s) && s != []
    ensures ReadDigits(s) == Some(Value(s))
  {
    if |s| > 1 {
      ValueOfDigits(s[..|s| - 1]);
    }
  }

  /** Among digits of one length the smaller number comes first, whatever follows. */
  lemma {:induction false} SmallerComesFirst(s: Bytes, t: Bytes, u: Bytes, v: Bytes)
    requires AllDigits(s) && AllDigits(t) && |s| == |t| && Value(s) < Value(t)
    ensures Less(s + u, t + v)
  {
    var m := |s| - 1;
    var a, b := s[..m], t[..m];
    assert s + u == a + ([s[m]] + u) && t + v == b + ([t[m]] + v);
    if Value(a) < Value(b) {
      SmallerComesFirst(a, b, [s[m]] + u, [t[m]] + v);
    } else {
      SameValue(a, b);
      LessUnderPrefix(a, [s[m]] + u, [t[m]] + v);
    }
  }

  lemma {:induction false} SameValue(s: Bytes, t: Bytes)
    requires AllDigits(s) && AllDigits(t) && |s| == |t| && Value(s) == Value(t)
    ensures s == t
  {
    if s != [] {
      var m := |s| - 1;
      SameValue(s[..m], t[..m]);
      assert s == s[..m] + [s[m]] && t == t[..m] + [t[m]];
    }
  }

  lemma NameOrder(stem: Stem, a: nat, b: nat, ending: Ending)
    requires a < b < NAMED
    ensures Less(NameOf(stem, a, ending), NameOf(stem, b, ending))
  {
    hide Padded, ReadDigits, Value;
    PaddedIsDigits(a);
    PaddedIsDigits(b);
    PaddedReads(a);
    PaddedReads(b);
    ValueOfDigits(Padded(a));
    ValueOfDigits(Padded(b));
    SmallerComesFirst(Padded(a), Padded(b), ending, ending);
    LessUnderPrefix(stem, Padded(a) + ending, Padded(b) + ending);
    assert stem + (Padded(a) + ending) == NameOf(stem, a, ending);
    assert stem + (Padded(b) + ending) == NameOf(stem, b, ending);
  }

  /** The first name with nine digits is its first eight digits and a zero. */
  lemma NineDigits()
    ensures Padded(NAMED) == Padded(NAMED / 10) + "0"
  {
    hide NatText;
    EightDigits(NAMED);
    EightDigits(NAMED / 10);
    TextLength(NAMED / 10, WIDTH - 1);
    assert Power(2) == 100 && Power(4) == 10_000 && Power(6) == 1_000_000 && Power(7) == 10_000_000;
    LastDigit(NAMED);
  }

  lemma LastDigit(n: nat)
    requires n >= 10
    ensures NatText(n) == NatText(n / 10) + [DigitChar(n % 10)]
  {
  }

  lemma NinthDigit(stem: Stem, ending: Ending)
    ensures Less(NameOf(stem, NAMED, ending), NameOf(stem, NAMED - 1, ending))
  {
    hide Padded, ReadDigits, Value, NatText;
    var low, high := NAMED / 10, NAMED - 1;
    NineDigits();
    PaddedIsDigits(low);
    PaddedIsDigits(high);
    PaddedReads(low);
    PaddedReads(high);
    ValueOfDigits(Padded(low));
    ValueOfDigits(Padded(high));
    SmallerComesFirst(Padded(low), Padded(high), "0" + ending, ending);
    LessUnderPrefix(stem, Padded(low) + ("0" + ending), Padded(high) + ending);
    assert stem + (Padded(low) + ("0" + ending)) == NameOf(stem, NAMED, ending);
    assert stem + (Padded(high) + ending) == NameOf(stem, high, ending);
  }

  /** Name order is number order up to some number exactly if that has no ninth digit. */
  lemma NamesFollowNumbers(stem: Stem, greatest: nat, ending: Ending)
    ensures (forall a: nat, b: nat | a < b <= greatest :: Less(NameOf(stem, a, ending), NameOf(stem, b, ending)))
       <==> greatest < NAMED
  {
    hide NameOf;
    if greatest < NAMED {
      forall a: nat, b: nat | a < b <= greatest
        ensures Less(NameOf(stem, a, ending), NameOf(stem, b, ending))
      {
        NameOrder(stem, a, b, ending);
      }
    } else {
      NinthDigit(stem, ending);
      Trichotomy(NameOf(stem, NAMED, ending), NameOf(stem, NAMED - 1, ending));
    }
  }

  predicate NamesAscend(stem: Stem, ids: seq<nat>, ending: Ending) {
    forall i, j :: 0 <= i < j < |ids| ==> Less(NameOf(stem, ids[i], ending), NameOf(stem, ids[j], ending))
  }

  /** Below 10^8 the listing sorted by name is the listing by number. */
  lemma ListingByName(stem: Stem, ids: seq<nat>, ending: Ending)
    requires forall i :: 0 <= i < |ids| ==> ids[i] < NAMED
    ensures NamesAscend(stem, ids, ending) <==> AscendingIds(ids)
  {
    hide NameOf;
    if AscendingIds(ids) {
      forall i, j | 0 <= i < j < |ids|
        ensures Less(NameOf(stem, ids[i], ending), NameOf(stem, ids[j], ending))
      {
        NameOrder(stem, ids[i], ids[j], ending);
      }
    }
    if NamesAscend(stem, ids, ending) {
      forall i, j | 0 <= i < j < |ids|
        ensures ids[i] < ids[j]
      {
        var a, b := NameOf(stem, ids[i], ending), NameOf(stem, ids[j], ending);
        Trichotomy(a, b);
        LessIsIrreflexive(a);
        if ids[j] < ids[i] {
          NameOrder(stem, ids[j], ids[i], ending);
        }
      }
    }
  }
}
