// The RESP wire protocol: serializer, streaming parser, and the server's drain loop.

module Resp {
  import opened ByteStrings
  import opened Numerals

  /** What the parser hands out; Null is Python's None. */
  datatype Value =
    | Null
    | Integer(n: int)
    | Bulk(data: Bytes)
    | Array(items: seq<Value>)
    | Simple(text: Bytes)
    | Error(text: Bytes)
    | Inline(line: Bytes)

  const CRLF: Bytes := "\r\n"

  // ---------- Parsing, as a function of the unread bytes ----------

  predicate CrlfAt(s: Bytes, i: nat) {
    i + 1 < |s| && s[i] == '\r' && s[i + 1] == '\n'
  }

  function FindCrlf(s: Bytes): (r: Option<nat>)
    ensures r.Some? ==> CrlfAt(s, r.value) && forall j: nat :: j < r.value ==> !CrlfAt(s, j)
    ensures r.None? ==> forall j: nat :: !CrlfAt(s, j)
  {
    if |s| < 2 then None
    else if CrlfAt(s, 0) then Some(0)
    else
      var r := FindCrlf(s[1..]);
      assert forall j: nat :: j > 0 ==> CrlfAt(s, j) == CrlfAt(s[1..], j - 1);
      if r == None then None else Some(r.value + 1)
  }

  /** Result of parsing one element.
      NegativeBulk: a bulk header of `header` bytes that declares length n < -1.
      NegativeInside: such a header inside an array. */
  datatype Outcome =
    | Incomplete
    | Parsed(value: Value, consumed: nat)
    | NegativeBulk(header: nat, n: int)
    | NegativeInside

  datatype ItemsOutcome =
    | ItemsIncomplete
    | Items(values: seq<Value>, consumed: nat)
    | ItemsNegative

  function ParseBulk(s: Bytes, header: nat, line: Bytes): (r: Outcome)
    requires header <= |s|
    ensures r.Parsed? ==> header <= r.consumed <= |s|
    ensures r.NegativeBulk? ==> r.header == header && r.n < -1
    ensures !r.NegativeInside?
  {
    var length := ReadInt(line);
    if length == None || length == Some(-1) then Parsed(Null, header)
    else if length.value < -1 then NegativeBulk(header, length.value)
    else if |s| < header + length.value + 2 then Incomplete
    else Parsed(Bulk(s[header..header + length.value]), header + length.value + 2)
  }

  function Parse(s: Bytes): (r: Outcome)
    ensures r.Parsed? ==> 0 < r.consumed <= |s|
    ensures r.NegativeBulk? ==> 0 < r.header <= |s| && r.n < -1
    decreases |s|, 1
  {
    var crlf := FindCrlf(s);
    if crlf == None then Incomplete else ParseLine(s, crlf.value)
  }

  /** The text between the type byte and the line break. */
  function Line(s: Bytes, crlf: nat): Bytes
    requires crlf < |s|
  {
    if crlf == 0 then [] else s[1..crlf]
  }

  function ParseLine(s: Bytes, crlf: nat): (r: Outcome)
    requires CrlfAt(s, crlf)
    ensures r.Parsed? ==> 0 < r.consumed <= |s|
    ensures r.NegativeBulk? ==> 0 < r.header <= |s| && r.n < -1
    decreases |s|, 0
  {
    var line := Line(s, crlf);
    var header := crlf + 2;
    if s[0] == '+' then Parsed(Simple(line), header)
    else if s[0] == '-' then Parsed(Error(line), header)
    else if s[0] == ':' then
      var n := ReadInt(line);
      Parsed(Integer(if n == None then 0 else n.value), header)
    else if s[0] == '$' then ParseBulk(s, header, line)
    else if s[0] == '*' then
      var count := ReadInt(line);
      if count == None || count == Some(-1) then Parsed(Null, header)
      else
        match ParseItems(s[header..], if count.value < 0 then 0 else count.value)
        case ItemsIncomplete => Incomplete
        case ItemsNegative => NegativeInside
        case Items(values, consumed) => Parsed(Array(values), header + consumed)
    else Parsed(Inline(s[..crlf]), header)
  }

  /** The loop over the elements of an array. */
  function ParseItems(s: Bytes, count: nat): (r: ItemsOutcome)
    ensures r.Items? ==> r.consumed <= |s| && |r.values| == count
    decreases |s|, 2
  {
    if count == 0 then Items([], 0)
    else
      match Parse(s)
      case Incomplete => ItemsIncomplete
      case Parsed(value, consumed) =>
        (match ParseItems(s[consumed..], count - 1)
         case Items(values, more) => Items([value] + values, consumed + more)
         case other => other)
      case _ => ItemsNegative
  }

  // ---------- Appending bytes changes no reported result ----------

  lemma FindCrlfIsStable(s: Bytes, t: Bytes)
    requires FindCrlf(s).Some?
    ensures FindCrlf(s + t) == FindCrlf(s)
  {
    var i := FindCrlf(s).value;
    assert CrlfAt(s + t, i);
    assert forall j: nat :: j < i ==> CrlfAt(s + t, j) == CrlfAt(s, j);
  }

  lemma {:induction false} ParseIsStable(s: Bytes, t: Bytes)
    requires !Parse(s).Incomplete?
    ensures Parse(s + t) == Parse(s)
    decreases |s|, 0
  {
    hide FindCrlf, ReadInt;
    FindCrlfIsStable(s, t);
    var crlf := FindCrlf(s).value;
    var header := crlf + 2;
    var line := Line(s, crlf);
    assert line == Line(s + t, crlf);
    assert (s + t)[..crlf] == s[..crlf];
    assert (s + t)[header..] == s[header..] + t;
    if s[0] == '$' {
      var n := ReadInt(line);
      if n.Some? && n.value >= 0 {
        assert (s + t)[header..header + n.value] == s[header..header + n.value];
      }
    } else if s[0] == '*' {
      var n := ReadInt(line);
      if n.Some? && n.value != -1 {
        ParseItemsIsStable(s[header..], t, if n.value < 0 then 0 else n.value);
      }
    }
  }

  lemma {:induction false} ParseItemsIsStable(s: Bytes, t: Bytes, count: nat)
    requires !ParseItems(s, count).ItemsIncomplete?
    ensures ParseItems(s + t, count) == ParseItems(s, count)
    decreases |s|, 1
  {
    if count > 0 {
      ParseIsStable(s, t);
      var first := Parse(s);
      if first.Parsed? {
        assert (s + t)[first.consumed..] == s[first.consumed..] + t;
        ParseItemsIsStable(s[first.consumed..], t, count - 1);
      }
    }
  }

  lemma FindCrlfIsLocal(s: Bytes, cut: nat)
    requires FindCrlf(s).Some? && FindCrlf(s).value + 2 <= cut <= |s|
    ensures FindCrlf(s[..cut]) == FindCrlf(s)
  {
    var i := FindCrlf(s).value;
    assert CrlfAt(s[..cut], i);
    assert forall j: nat :: j < i ==> CrlfAt(s[..cut], j) == CrlfAt(s, j);
  }

  lemma CutLine(s: Bytes, cut: nat, crlf: nat)
    requires crlf + 2 <= cut <= |s|
    ensures Line(s[..cut], crlf) == Line(s, crlf)
    ensures s[..cut][..crlf] == s[..crlf]
    ensures s[..cut][crlf + 2..] == s[crlf + 2..][..cut - crlf - 2]
  {
    assert s[..cut][..crlf] == s[..crlf];
    var a, b := s[..cut][crlf + 2..], s[crlf + 2..][..cut - crlf - 2];
    assert |a| == |b| && forall i :: 0 <= i < |a| ==> a[i] == s[crlf + 2 + i] && b[i] == s[crlf + 2 + i];
  }

  /** A parsed element does not look at the bytes behind it. */
  lemma {:induction false} ParseIsLocal(s: Bytes, cut: nat)
    requires Parse(s).Parsed? && Parse(s).consumed <= cut <= |s|
    ensures Parse(s[..cut]) == Parse(s)
    decreases |s|, 1
  {
    FindCrlfIsLocal(s, cut);
    ParseLineIsLocal(s, cut, FindCrlf(s).value);
  }

  lemma {:induction false} ParseLineIsLocal(s: Bytes, cut: nat, crlf: nat)
    requires CrlfAt(s, crlf) && crlf + 2 <= cut <= |s|
    requires ParseLine(s, crlf).Parsed? && ParseLine(s, crlf).consumed <= cut
    ensures ParseLine(s[..cut], crlf) == ParseLine(s, crlf)
    decreases |s|, 0
  {
    hide ParseItems;
    hide ReadInt;
    var header := crlf + 2;
    CutLine(s, cut, crlf);
    var n := ReadInt(Line(s, crlf));
    if s[0] == '$' && n.Some? && n.value >= 0 {
      assert s[..cut][header..header + n.value] == s[header..header + n.value];
    }
    if s[0] == '*' && n.Some? && n.value != -1 {
      ParseItemsIsLocal(s[header..], cut - header, if n.value < 0 then 0 else n.value);
    }
  }

  lemma {:induction false} ParseItemsIsLocal(s: Bytes, cut: nat, count: nat)
    requires ParseItems(s, count).Items? && ParseItems(s, count).consumed <= cut <= |s|
    ensures ParseItems(s[..cut], count) == ParseItems(s, count)
    decreases |s|, 2
  {
    if count > 0 {
      var c := Parse(s).consumed;
      ParseIsLocal(s, cut);
      assert s[..cut][c..] == s[c..][..cut - c];
      ParseItemsIsLocal(s[c..], cut - c, count - 1);
    }
  }

  // ---------- The serializer ----------

  /** The Python values the serializer accepts; PyList stands for list, tuple and set. */
  datatype PyValue =
    | PyNone
    | PyBool(b: bool)
    | PyInt(n: int)
    | PyText(s: Bytes)
    | PyList(items: seq<PyValue>)
    | PyDict(pairs: seq<PyPair>)
    | PyException(message: Bytes)
    | PyOther(text: Bytes)

  datatype PyPair = PyPair(key: PyValue, val: PyValue)

  /** A dict as the alternating list of its keys and values. */
  function Flat(pairs: seq<PyPair>): (r: seq<PyValue>)
    ensures |r| == 2 * |pairs|
    ensures forall i :: 0 <= i < |pairs| ==> r[2 * i] == pairs[i].key && r[2 * i + 1] == pairs[i].val
    ensures SizeItems(r) == SizePairs(pairs)
  {
    if pairs == [] then []
    else
      var r := [pairs[0].key, pairs[0].val] + Flat(pairs[1..]);
      assert r[1..][1..] == Flat(pairs[1..]);
      r
  }

  function Size(v: PyValue): nat {
    match v
    case PyList(items) => 1 + SizeItems(items)
    case PyDict(pairs) => 1 + SizePairs(pairs)
    case _ => 1
  }

  function SizeItems(items: seq<PyValue>): nat {
    if items == [] then 0 else 1 + Size(items[0]) + SizeItems(items[1..])
  }

  function SizePairs(pairs: seq<PyPair>): nat {
    if pairs == [] then 0 else SizePair(pairs[0]) + SizePairs(pairs[1..])
  }

  function SizePair(p: PyPair): nat {
    2 + Size(p.key) + Size(p.val)
  }

  function BulkText(data: Bytes): Bytes {
    "$" + IntText(|data|) + CRLF + data + CRLF
  }

  function ArrayHeader(count: nat): Bytes {
    "*" + IntText(count) + CRLF
  }

  function Encode(v: PyValue): Bytes
    decreases Size(v)
  {
    match v
    case PyNone => "$-1\r\n"
    case PyBool(b) => ":" + IntText(if b then 1 else 0) + CRLF
    case PyInt(n) => ":" + IntText(n) + CRLF
    case PyText(s) => BulkText(s)
    case PyList(items) => ArrayHeader(|items|) + EncodeItems(items)
    case PyDict(pairs) => ArrayHeader(2 * |pairs|) + EncodeItems(Flat(pairs))
    case PyException(message) => "-ERR " + message + CRLF
    case PyOther(text) => BulkText(text)
  }

  function EncodeItems(items: seq<PyValue>): Bytes
    decreases SizeItems(items)
  {
    if items == [] then [] else Encode(items[0]) + EncodeItems(items[1..])
  }

  /** RESPSerializer.array: the header, then every item appended to a buffer. */
  method EncodeArray(items: Option<seq<PyValue>>) returns (buf: Bytes)
    ensures items == None ==> buf == "*-1\r\n"
    ensures items.Some? ==> buf == Encode(PyList(items.value))
  {
    if items == None {
      return "*-1\r\n";
    }
    buf := ArrayHeader(|items.value|);
    ghost var header := buf;
    assert items.value[0..] == items.value;
    for i := 0 to |items.value|
      invariant buf + EncodeItems(items.value[i..]) == header + EncodeItems(items.value)
    {
      assert items.value[i..][1..] == items.value[i + 1..];
      buf := buf + Encode(items.value[i]);
    }
    assert items.value[|items.value|..] == [];
  }

  /** The value a reply stands for on the wire. */
  function Meaning(v: PyValue): Value
    decreases Size(v)
  {
    match v
    case PyNone => Null
    case PyBool(b) => Integer(if b then 1 else 0)
    case PyInt(n) => Integer(n)
    case PyText(s) => Bulk(s)
    case PyList(items) => Array(MeaningItems(items))
    case PyDict(pairs) => Array(MeaningItems(Flat(pairs)))
    case PyException(message) => Error("ERR " + message)
    case PyOther(text) => Bulk(text)
  }

  function MeaningItems(items: seq<PyValue>): (r: seq<Value>)
    ensures |r| == |items|
    decreases SizeItems(items)
  {
    if items == [] then [] else [Meaning(items[0])] + MeaningItems(items[1..])
  }

  /** No error message inside the reply contains a line break. */
  predicate OneLineErrors(v: PyValue)
    decreases Size(v)
  {
    match v
    case PyList(items) => OneLineItems(items)
    case PyDict(pairs) => OneLineItems(Flat(pairs))
    case PyException(message) => FindCrlf(message) == None
    case _ => true
  }

  predicate OneLineItems(items: seq<PyValue>)
    decreases SizeItems(items)
  {
    items == [] || (OneLineErrors(items[0]) && OneLineItems(items[1..]))
  }

  lemma HeaderLine(c: Byte, line: Bytes, rest: Bytes)
    requires c != '\r' && forall i: nat :: !CrlfAt(line, i)
    ensures FindCrlf([c] + line + CRLF + rest) == Some(1 + |line|)
    ensures ([c] + line + CRLF + rest)[1..1 + |line|] == line
    ensures ([c] + line + CRLF + rest)[3 + |line|..] == rest
  {
    var s := [c] + line + CRLF + rest;
    assert CrlfAt(s, 1 + |line|);
    forall j: nat | j < 1 + |line|
      ensures !CrlfAt(s, j)
    {
      if 0 < j < |line| {
        assert CrlfAt(s, j) == CrlfAt(line, j - 1);
      }
    }
  }

  lemma NumberLine(c: Byte, n: int, rest: Bytes)
    requires c != '\r'
    ensures FindCrlf([c] + IntText(n) + CRLF + rest) == Some(1 + |IntText(n)|)
    ensures ReadInt(([c] + IntText(n) + CRLF + rest)[1..1 + |IntText(n)|]) == Some(n)
    ensures ([c] + IntText(n) + CRLF + rest)[3 + |IntText(n)|..] == rest
  {
    HeaderLine(c, IntText(n), rest);
    ReadIntOfIntText(n);
  }

  predicate Returns(r: Outcome, v: PyValue) {
    r == Parsed(Meaning(v), |Encode(v)|)
  }

  /** The wrong value comes back, or none: never the right one with another length. */
  predicate Misreads(r: Outcome, v: PyValue) {
    !(r.Parsed? && r.value == Meaning(v))
  }

  // ---------- Lines of every type ----------

  lemma LineEnds(line: Bytes, rest: Bytes)
    requires forall i: nat :: !CrlfAt(line, i)
    ensures FindCrlf(line + CRLF + rest) == Some(|line|)
    ensures (line + CRLF + rest)[..|line|] == line
  {
    var s := line + CRLF + rest;
    assert CrlfAt(s, |line|);
    forall j: nat | j < |line|
      ensures !CrlfAt(s, j)
    {
      if j < |line| - 1 {
        assert CrlfAt(s, j) == CrlfAt(line, j);
      }
    }
  }

  /** What each type byte makes of a line that the serializer would not write: simple strings and
      errors are the text behind it, numbers that cannot be read are zero, and lengths that cannot
      be read, or are -1, stand for null. Any other count that is not positive is an empty array. */
  lemma LineByType(line: Bytes, rest: Bytes)
    requires forall i: nat :: !CrlfAt(line, i)
    ensures Parse("+" + line + CRLF + rest) == Parsed(Simple(line), |line| + 3)
    ensures Parse("-" + line + CRLF + rest) == Parsed(Error(line), |line| + 3)
    ensures Parse(":" + line + CRLF + rest)
         == Parsed(Integer(if ReadInt(line).Some? then ReadInt(line).value else 0), |line| + 3)
    ensures ReadInt(line) == None || ReadInt(line) == Some(-1) ==>
              && Parse("$" + line + CRLF + rest) == Parsed(Null, |line| + 3)
              && Parse("*" + line + CRLF + rest) == Parsed(Null, |line| + 3)
    ensures ReadInt(line).Some? && ReadInt(line).value <= 0 && ReadInt(line).value != -1 ==>
              Parse("*" + line + CRLF + rest) == Parsed(Array([]), |line| + 3)
  {
    hide FindCrlf, ReadInt, ParseItems, ParseBulk;
    NoItems(("*" + line + CRLF + rest)[|line| + 3..]);
    HeaderLine('+', line, rest);
    HeaderLine('-', line, rest);
    HeaderLine(':', line, rest);
    HeaderLine('$', line, rest);
    HeaderLine('*', line, rest);
    NullBulk("$" + line + CRLF + rest, |line| + 3, line);
  }

  lemma NoItems(s: Bytes)
    ensures ParseItems(s, 0) == Items([], 0)
  {
  }

  lemma NullBulk(s: Bytes, header: nat, line: Bytes)
    requires header <= |s|
    ensures ReadInt(line) == None || ReadInt(line) == Some(-1) ==> ParseBulk(s, header, line) == Parsed(Null, header)
  {
  }

  /** A line that starts with no type byte is an inline command: the whole line, its first byte
      included. */
  lemma InlineLine(line: Bytes, rest: Bytes)
    requires forall i: nat :: !CrlfAt(line, i)
    requires line == [] || line[0] !in {'+', '-', ':', '$', '*'}
    ensures Parse(line + CRLF + rest) == Parsed(Inline(line), |line| + 2)
  {
    hide FindCrlf, ReadInt, ParseItems, ParseBulk;
    LineEnds(line, rest);
  }

  /** A dict is sent as the list of its keys and values in turn. */
  lemma DictAlternates(pairs: seq<PyPair>, i: nat)
    requires i < |pairs|
    ensures Meaning(PyDict(pairs)).Array? && |Meaning(PyDict(pairs)).items| == 2 * |pairs|
    ensures Meaning(PyDict(pairs)).items[2 * i] == Meaning(pairs[i].key)
    ensures Meaning(PyDict(pairs)).items[2 * i + 1] == Meaning(pairs[i].val)
  {
    var flat := Flat(pairs);
    MeaningAt(flat, 2 * i);
    MeaningAt(flat, 2 * i + 1);
  }

  lemma {:induction false} MeaningAt(items: seq<PyValue>, i: nat)
    requires i < |items|
    ensures MeaningItems(items)[i] == Meaning(items[i])
  {
    if i > 0 {
      MeaningAt(items[1..], i - 1);
    }
  }

  lemma NumberRoundTrip(n: int, rest: Bytes)
    ensures Parse(":" + IntText(n) + CRLF + rest) == Parsed(Integer(n), 3 + |IntText(n)|)
  {
    NumberLine(':', n, rest);
  }

  lemma BulkRoundTrip(data: Bytes, rest: Bytes)
    ensures Parse(BulkText(data) + rest) == Parsed(Bulk(data), |BulkText(data)|)
  {
    hide IntText, ReadInt, FindCrlf;
    var tail := data + CRLF + rest;
    var s := "$" + IntText(|data|) + CRLF + tail;
    assert BulkText(data) + rest == s;
    NumberLine('$', |data|, tail);
    var header := 3 + |IntText(|data|)|;
    assert s[header..header + |data|] == s[header..][..|data|] == data;
  }

  lemma NullRoundTrip(rest: Bytes)
    ensures Parse("$-1\r\n" + rest) == Parsed(Null, 5)
  {
    assert NatText(1) == "1";
    assert "$-1\r\n" + rest == "$" + IntText(-1) + CRLF + rest;
    NumberLine('$', -1, rest);
  }

  lemma ExceptionRoundTrip(message: Bytes, rest: Bytes)
    ensures FindCrlf(message) == None ==> Returns(Parse(Encode(PyException(message)) + rest), PyException(message))
    ensures FindCrlf(message) != None ==> Misreads(Parse(Encode(PyException(message)) + rest), PyException(message))
  {
    var err: Bytes := "ERR ";
    var line := err + message;
    var s := "-" + line + CRLF + rest;
    assert Encode(PyException(message)) + rest == s;
    if FindCrlf(message) == None {
      forall i: nat
        ensures !CrlfAt(line, i)
      {
        if i >= 4 {
          assert CrlfAt(line, i) == CrlfAt(message, i - 4);
        }
      }
      HeaderLine('-', line, rest);
    } else {
      var i := FindCrlf(message).value;
      assert CrlfAt(s, 5 + i);
    }
  }

  lemma ArrayHeaderParses(count: nat, tail: Bytes)
    ensures Parse(ArrayHeader(count) + tail) == match ParseItems(tail, count)
              case ItemsIncomplete => Incomplete
              case ItemsNegative => NegativeInside
              case Items(values, consumed) => Parsed(Array(values), |ArrayHeader(count)| + consumed)
  {
    hide IntText, ReadInt, FindCrlf;
    NumberLine('*', count, tail);
  }

  /** Parsing undoes serializing, whatever bytes follow, exactly when no error
      message inside the value carries a line break. */
  lemma {:induction false} RoundTrip(v: PyValue, rest: Bytes)
    ensures OneLineErrors(v) ==> Returns(Parse(Encode(v) + rest), v)
    ensures !OneLineErrors(v) ==> Misreads(Parse(Encode(v) + rest), v)
    decreases Size(v), 0
  {
    hide Parse, IntText;
    match v
    case PyNone => NullRoundTrip(rest);
    case PyBool(b) => NumberRoundTrip(if b then 1 else 0, rest);
    case PyInt(n) => NumberRoundTrip(n, rest);
    case PyText(s) => BulkRoundTrip(s, rest);
    case PyOther(text) => BulkRoundTrip(text, rest);
    case PyException(message) => ExceptionRoundTrip(message, rest);
    case PyList(items) =>
      ArrayUnfolds(|items|, EncodeItems(items), rest);
      ItemsRoundTrip(items, rest);
    case PyDict(pairs) =>
      ArrayUnfolds(2 * |pairs|, EncodeItems(Flat(pairs)), rest);
      ItemsRoundTrip(Flat(pairs), rest);
  }

  lemma ArrayUnfolds(count: nat, body: Bytes, rest: Bytes)
    ensures Parse(ArrayHeader(count) + body + rest) == match ParseItems(body + rest, count)
              case ItemsIncomplete => Incomplete
              case ItemsNegative => NegativeInside
              case Items(values, consumed) => Parsed(Array(values), |ArrayHeader(count)| + consumed)
  {
    assert ArrayHeader(count) + body + rest == ArrayHeader(count) + (body + rest);
    ArrayHeaderParses(count, body + rest);
  }

  /** One array element in front of the others. */
  lemma {:induction false} ItemThenRest(v: PyValue, rest: Bytes, count: nat)
    requires count > 0
    ensures OneLineErrors(v) ==>
              ParseItems(Encode(v) + rest, count) == match ParseItems(rest, count - 1)
                case Items(values, more) => Items([Meaning(v)] + values, |Encode(v)| + more)
                case other => other
    ensures !OneLineErrors(v) ==>
              var r := ParseItems(Encode(v) + rest, count);
              r.Items? ==> r.values[0] != Meaning(v)
    decreases Size(v), 1
  {
    hide Encode, Meaning;
    RoundTrip(v, rest);
    assert (Encode(v) + rest)[|Encode(v)|..] == rest;
  }

  lemma {:induction false} ItemsRoundTrip(items: seq<PyValue>, rest: Bytes)
    ensures OneLineItems(items)
            ==> ParseItems(EncodeItems(items) + rest, |items|) == Items(MeaningItems(items), |EncodeItems(items)|)
    ensures !OneLineItems(items)
            ==> var r := ParseItems(EncodeItems(items) + rest, |items|);
                r.Items? ==> r.values != MeaningItems(items)
    decreases SizeItems(items), 2
  {
    if items != [] {
      var tail := EncodeItems(items[1..]) + rest;
      assert EncodeItems(items) + rest == Encode(items[0]) + tail;
      ItemThenRest(items[0], tail, |items|);
      ItemsRoundTrip(items[1..], rest);
      var r := ParseItems(Encode(items[0]) + tail, |items|);
      if r.Items? && OneLineErrors(items[0]) {
        assert r.values[1..] == ParseItems(tail, |items| - 1).values;
      }
      assert MeaningItems(items)[1..] == MeaningItems(items[1..]);
    }
  }
}
