// Decimal text: what f"{n}" writes and what int(text) reads back.

module Numerals {
  import opened ByteStrings

  predicate IsDigit(c: Byte) {
    '0' <= c <= '9'
  }

  function DigitChar(d: nat): (c: Byte)
    requires d < 10
    ensures IsDigit(c)
  {
    (d + '0' as int) as char
  }

  function DigitValue(c: Byte): (d: nat)
    requires IsDigit(c)
    ensures d < 10
  {
    c as int - '0' as int
  }

  function NatText(n: nat): (s: Bytes)
    ensures s != [] && forall i :: 0 <= i < |s| ==> IsDigit(s[i])
  {
    if n < 10 then [DigitChar(n)] else NatText(n / 10) + [DigitChar(n % 10)]
  }

  /** The text of an integer, as str(n) or an f-string prints it. */
  function IntText(n: int): (s: Bytes)
    ensures s != [] && forall i :: 0 <= i < |s| ==> IsDigit(s[i]) || s[i] == '-'
  {
    if n < 0 then "-" + NatText(-n) else NatText(n)
  }

  predicate IsBlank(c: Byte) {
    c == ' ' || 9 <= c as int <= 13
  }

  function StripLeft(s: Bytes): (r: Bytes)
    ensures |r| <= |s|
  {
    if s != [] && IsBlank(s[0]) then StripLeft(s[1..]) else s
  }

  function StripRight(s: Bytes): (r: Bytes)
    ensures |r| <= |s|
  {
    if s != [] && IsBlank(s[|s| - 1]) then StripRight(s[..|s| - 1]) else s
  }

  /** Decimal digits with single underscores between them. */
  function ReadDigits(s: Bytes): Option<nat> {
    if s == [] || !IsDigit(s[|s| - 1]) then None
    else
      var d := DigitValue(s[|s| - 1]);
      var rest := s[..|s| - 1];
      if rest == [] then Some(d)
      else
        var high := if rest[|rest| - 1] == '_' then ReadDigits(rest[..|rest| - 1]) else ReadDigits(rest);
        if high == None then None else Some(10 * high.value + d)
  }

  /** Python's int(text): None is the ValueError. */
  function ReadInt(s: Bytes): Option<int> {
    var t := StripRight(StripLeft(s));
    if t != [] && (t[0] == '-' || t[0] == '+') then
      var r := ReadDigits(t[1..]);
      if r == None then None else var d: int := r.value; Some(if t[0] == '-' then -d else d)
    else
      var r := ReadDigits(t);
      if r == None then None else Some(r.value)
  }

  lemma {:induction false} ReadDigitsOfNatText(n: nat)
    ensures ReadDigits(NatText(n)) == Some(n)
  {
    var s := NatText(n);
    if n >= 10 {
      ReadDigitsOfNatText(n / 10);
      assert s[..|s| - 1] == NatText(n / 10);
      assert n == 10 * (n / 10) + n % 10;
    }
  }

  /** int() undoes the printing of every integer. */
  lemma ReadIntOfIntText(n: int)
    ensures ReadInt(IntText(n)) == Some(n)
  {
    var s := IntText(n);
    ReadDigitsOfNatText(if n < 0 then -n else n);
    assert StripLeft(s) == s && StripRight(s) == s;
    if n < 0 {
      assert s[1..] == NatText(-n);
    }
  }

  /** The text of a number starts with a minus exactly if it is negative, and its digits with a zero
      only if it is zero. */
  lemma CanonicalText(n: int)
    ensures IntText(n)[0] == '-' <==> n < 0
    ensures n >= 0 ==> (NatText(n)[0] == '0' <==> n == 0)
  {
    if n >= 0 {
      NoLeadingZero(n);
    }
  }

  lemma {:induction false} NoLeadingZero(n: nat)
    ensures NatText(n)[0] == '0' <==> n == 0
  {
    if n >= 10 {
      NoLeadingZero(n / 10);
    }
  }

  // ---------- What else int() reads ----------

  /** Space, tab, line feed, vertical tab, form feed and carriage return. */
  lemma Blanks(c: Byte)
    ensures IsBlank(c) <==> c == ' ' || c == '\t' || c == '\n' || c == 11 as char || c == 12 as char || c == '\r'
  {
  }


  predicate AllBlank(s: Bytes) {
    forall i :: 0 <= i < |s| ==> IsBlank(s[i])
  }

  lemma {:induction false} StripsFront(pre: Bytes, s: Bytes)
    requires AllBlank(pre) && s != [] && !IsBlank(s[0])
    ensures StripLeft(pre + s) == s
  {
    if pre == [] {
      assert pre + s == s;
    } else {
      assert (pre + s)[1..] == pre[1..] + s;
      StripsFront(pre[1..], s);
    }
  }

  lemma {:induction false} StripsBack(s: Bytes, post: Bytes)
    requires AllBlank(post) && s != [] && !IsBlank(s[|s| - 1])
    ensures StripRight(s + post) == s
  {
    if post == [] {
      assert s + post == s;
    } else {
      assert (s + post)[..|s + post| - 1] == s + post[..|post| - 1];
      StripsBack(s, post[..|post| - 1]);
    }
  }

  /** Blanks around a number do not matter, and it may carry a sign. */
  lemma ReadIntOfSigned(n: nat, pre: Bytes, post: Bytes)
    requires AllBlank(pre) && AllBlank(post)
    ensures ReadInt(pre + NatText(n) + post) == Some(n)
    ensures ReadInt(pre + ("+" + NatText(n)) + post) == Some(n)
    ensures ReadInt(pre + ("-" + NatText(n)) + post).Some? && ReadInt(pre + ("-" + NatText(n)) + post).value == 0 - n
  {
    ReadBetweenBlanks(pre, NatText(n), post);
    ReadBetweenBlanks(pre, "+" + NatText(n), post);
    ReadBetweenBlanks(pre, "-" + NatText(n), post);
    ReadDigitsOfNatText(n);
    assert ("+" + NatText(n))[1..] == NatText(n) == ("-" + NatText(n))[1..];
  }

  lemma ReadBetweenBlanks(pre: Bytes, s: Bytes, post: Bytes)
    requires AllBlank(pre) && AllBlank(post) && s != [] && !IsBlank(s[0]) && !IsBlank(s[|s| - 1])
    ensures ReadInt(pre + s + post) == ReadInt(s)
  {
    assert pre + s + post == pre + (s + post);
    StripsFront(pre, s + post);
    StripsBack(s, post);
    StripsFront([], s);
    StripsBack(s, []);
    assert [] + s == s == s + [];
  }

  /** Digits that are read are digits, with single underscores between them only. */
  lemma {:induction false} DigitsOnly(s: Bytes)
    ensures ReadDigits(s).Some?
       <==> && s != [] && IsDigit(s[0]) && IsDigit(s[|s| - 1])
            && (forall i :: 0 <= i < |s| ==> IsDigit(s[i]) || s[i] == '_')
            && (forall i :: 0 < i < |s| ==> IsDigit(s[i - 1]) || IsDigit(s[i]))
  {
    assert !IsDigit('_');
    hide IsDigit, DigitValue;
    if s != [] && IsDigit(s[|s| - 1]) && |s| > 1 {
      var n := |s| - 1;
      if s[n - 1] == '_' {
        DigitsOnly(s[..n - 1]);
        assert s[..n][..n - 1] == s[..n - 1];
        assert n > 1 ==> s[..n - 1][n - 2] == s[n - 2];
      } else {
        DigitsOnly(s[..n]);
      }
    }
  }

  lemma IntTextIsInjective(a: int, b: int)
    requires IntText(a) == IntText(b)
    ensures a == b
  {
    ReadIntOfIntText(a);
    ReadIntOfIntText(b);
  }
}
