// The streaming parser, the server's read loop, and why the cuts in the byte stream do not matter.

module RespStream {
  import opened ByteStrings
  import opened Numerals
  import opened Resp

  datatype Message = Message(value: Value, consumed: nat)

  /** Python's s[i:j] for i >= 0. */
  function PySlice(s: Bytes, i: nat, j: int): Bytes {
    var stop := if j < 0 then |s| + j else if j < |s| then j else |s|;
    if i < stop then s[i..stop] else []
  }

  /** The message one get_next call takes off the front of the buffer, if any. */
  function Next(s: Bytes): (r: Option<Message>)
    ensures r.Some? ==> 0 < r.value.consumed <= |s|
  {
    match Parse(s)
    case Parsed(value, consumed) => Some(Message(value, consumed))
    case NegativeBulk(header, n) =>
      if header + n + 2 > 0
      then Some(Message(Bulk(PySlice(s, header, header + n)), header + n + 2))
      else None
    case _ => None
  }

  function Rest(s: Bytes): Bytes
    requires Next(s).Some?
  {
    s[Next(s).value.consumed..]
  }

  /** No array on the stream holds a bulk string of declared length below -1. */
  predicate Forward(s: Bytes)
    decreases |s|
  {
    !Parse(s).NegativeInside? && (Next(s).Some? ==> Forward(Rest(s)))
  }

  /** What one drain loop takes off the buffer: it stops at the first None. */
  function Drained(s: Bytes): (seq<Value>, Bytes)
    decreases |s|
  {
    if Next(s) == None then ([], s)
    else if Next(s).value.value == Null then ([], Rest(s))
    else
      var (values, rest) := Drained(Rest(s));
      ([Next(s).value.value] + values, rest)
  }

  /** All replies, and the leftover, when the stream arrives in the given pieces. */
  function Served(buffer: Bytes, chunks: seq<Bytes>): (seq<Value>, Bytes)
    decreases |chunks|
  {
    if chunks == [] then ([], buffer)
    else
      var (values, rest) := Drained(buffer + chunks[0]);
      var (more, last) := Served(rest, chunks[1..]);
      (values + more, last)
  }

  function Joined(chunks: seq<Bytes>): Bytes {
    if chunks == [] then [] else chunks[0] + Joined(chunks[1..])
  }

  /** Where an offset points: Python counts a negative one from the end. */
  function Index(buffer: Bytes, offset: int): nat
    requires -|buffer| <= offset <= |buffer|
  {
    if offset < 0 then |buffer| + offset else offset
  }

  /** The pair _parse_from returns; a consumed count of 0 means incomplete data. */
  function Reported(buffer: Bytes, offset: int, r: Outcome): (Value, int)
    requires -|buffer| <= offset <= |buffer|
  {
    var at := Index(buffer, offset);
    match r
    case Parsed(value, consumed) => (value, at + consumed - offset)
    case NegativeBulk(header, n) =>
      (Bulk(PySlice(buffer, at + header, at + header + n)), at + header + n + 2 - offset)
    case _ => (Null, 0)
  }

  // ---------- The parser on a bounded call stack ----------

  /** What _parse_from does with at most so many nested calls: it returns a pair, or it raises
      RecursionError (TooDeep) or IndexError (OutOfRange). */
  datatype Reading = TooDeep | OutOfRange | Got(value: Value, consumed: int)

  datatype ItemsReading = ItemsTooDeep | ItemsOutOfRange | ItemsMissing | ItemsGot(values: seq<Value>, next: int)

  /** The number of elements, for an array that is not null. */
  function CountAt(s: Bytes): (r: Option<nat>)
    ensures r.Some? ==> s != [] && s[0] == '*' && FindCrlf(s).Some?
  {
    var crlf := FindCrlf(s);
    if crlf == None || s[0] != '*' then None
    else
      var n := ReadInt(Line(s, crlf.value));
      if n == None || n == Some(-1) then None else Some(if n.value < 0 then 0 else n.value)
  }

  function Descend(buffer: Bytes, offset: int, depth: nat): (r: Reading)
    ensures r.Got? && r.consumed != 0 ==> offset + r.consumed <= |buffer|
    decreases depth, 0, 0
  {
    if depth == 0 then TooDeep
    else if offset >= |buffer| then Got(Null, 0)
    else if offset < -|buffer| then OutOfRange
    else
      var at := Index(buffer, offset);
      var s := buffer[at..];
      var count := CountAt(s);
      if count == None then
        var r := Reported(buffer, offset, Parse(s));
        Got(r.0, r.1)
      else
        match DescendItems(buffer, at + FindCrlf(s).value + 2, count.value, depth - 1)
        case ItemsTooDeep => TooDeep
        case ItemsOutOfRange => OutOfRange
        case ItemsMissing => Got(Null, 0)
        case ItemsGot(values, next) => Got(Array(values), next - offset)
  }

  /** The loop over the elements; an element may move the cursor either way. */
  function DescendItems(buffer: Bytes, current: int, count: nat, depth: nat): (r: ItemsReading)
    requires current <= |buffer|
    ensures r.ItemsGot? ==> r.next <= |buffer| && |r.values| == count
    decreases depth, 1, count
  {
    if count == 0 then ItemsGot([], current)
    else
      match Descend(buffer, current, depth)
      case TooDeep => ItemsTooDeep
      case OutOfRange => ItemsOutOfRange
      case Got(value, consumed) =>
        if consumed == 0 then ItemsMissing
        else
          match DescendItems(buffer, current + consumed, count - 1, depth)
          case ItemsGot(values, next) => ItemsGot([value] + values, next)
          case other => other
  }

  /** What a get_next call finds at the front. */
  function Front(s: Bytes, depth: nat): (r: Reading)
    ensures r.Got? ==> r.consumed <= |s|
  {
    if s == [] then Got(Null, 0) else Descend(s, 0, depth)
  }

  /** The commands a drain loop takes off the buffer, what it leaves, and whether it raises. */
  function DrainedWithin(s: Bytes, depth: nat): (seq<Value>, Bytes, bool)
    decreases |s|
  {
    var r := Front(s, depth);
    if !r.Got? then ([], s, true)
    else if r.consumed <= 0 then ([], s, false)
    else if r.value == Null then ([], s[r.consumed..], false)
    else
      var (values, rest, raised) := DrainedWithin(s[r.consumed..], depth);
      ([r.value] + values, rest, raised)
  }

  /** The same over all pieces; an exception ends the connection. */
  function ServedWithin(buffer: Bytes, chunks: seq<Bytes>, depth: nat): (seq<Value>, Bytes, bool)
    decreases |chunks|
  {
    if chunks == [] then ([], buffer, false)
    else
      var (values, rest, raised) := DrainedWithin(buffer + chunks[0], depth);
      if raised then (values, rest, true)
      else
        var (more, last, later) := ServedWithin(rest, chunks[1..], depth);
        (values + more, last, later)
  }

  /** The elements found so far, then the outcome of the remaining ones. */
  function After(found: seq<Value>, r: ItemsReading): ItemsReading {
    match r
    case ItemsGot(vs, next) => ItemsGot(found + vs, next)
    case other => other
  }

  lemma DescendPlain(buffer: Bytes, offset: int, depth: nat)
    requires depth > 0 && -|buffer| <= offset < |buffer| && CountAt(buffer[Index(buffer, offset)..]) == None
    ensures var (value, consumed) := Reported(buffer, offset, Parse(buffer[Index(buffer, offset)..]));
            Descend(buffer, offset, depth) == Got(value, consumed)
  {
    hide Reported, CountAt, Parse;
  }

  lemma DescendArray(buffer: Bytes, offset: int, depth: nat)
    requires depth > 0 && -|buffer| <= offset < |buffer| && CountAt(buffer[Index(buffer, offset)..]).Some?
    ensures var at := Index(buffer, offset);
            var s := buffer[at..];
            Descend(buffer, offset, depth)
            == match DescendItems(buffer, at + FindCrlf(s).value + 2, CountAt(s).value, depth - 1)
               case ItemsTooDeep => TooDeep
               case ItemsOutOfRange => OutOfRange
               case ItemsMissing => Got(Null, 0)
               case ItemsGot(values, next) => Got(Array(values), next - offset)
  {
    hide CountAt, DescendItems;
  }

  lemma ParseArray(s: Bytes)
    requires CountAt(s).Some?
    ensures Parse(s)
         == match ParseItems(s[FindCrlf(s).value + 2..], CountAt(s).value)
            case ItemsIncomplete => Incomplete
            case ItemsNegative => NegativeInside
            case Items(values, consumed) => Parsed(Array(values), FindCrlf(s).value + 2 + consumed)
  {
    hide FindCrlf, ReadInt, ParseItems;
  }

  lemma ItemsStep(buffer: Bytes, current: int, count: nat, depth: nat, found: seq<Value>)
    requires current <= |buffer| && count > 0
    ensures var r := Descend(buffer, current, depth);
            After(found, DescendItems(buffer, current, count, depth))
            == match r
               case TooDeep => ItemsTooDeep
               case OutOfRange => ItemsOutOfRange
               case Got(value, consumed) =>
                 if consumed == 0 then ItemsMissing
                 else After(found + [value], DescendItems(buffer, current + consumed, count - 1, depth))
  {
    var r := Descend(buffer, current, depth);
    if r.Got? && r.consumed != 0 {
      var more := DescendItems(buffer, current + r.consumed, count - 1, depth);
      if more.ItemsGot? {
        assert found + ([r.value] + more.values) == (found + [r.value]) + more.values;
      }
    }
  }

  class RESPParser {
    var buffer: Bytes

    constructor ()
      ensures buffer == []
    {
      buffer := [];
    }

    method Feed(data: Bytes)
      modifies this
      ensures buffer == old(buffer) + data
    {
      buffer := buffer + data;
    }

    /** Parses the element at offset, with so many nested calls left. */
    method ParseFrom(offset: int, depth: nat) returns (r: Reading)
      ensures r == Descend(buffer, offset, depth)
      ensures 0 <= offset <= |buffer| && depth > |buffer| - offset && !Parse(buffer[offset..]).NegativeInside? ==>
                r.Got? && (r.value, r.consumed) == Reported(buffer, offset, Parse(buffer[offset..]))
      decreases depth, 1
    {
      hide ReadInt, FindCrlf, ParseItems, Line, Parse, PySlice, Reported;
      if 0 <= offset <= |buffer| && depth > |buffer| - offset && !Parse(buffer[offset..]).NegativeInside? {
        DescendReports(buffer, offset, depth);
      }
      if depth == 0 {
        return TooDeep;
      }
      if offset >= |buffer| {
        return Got(Null, 0);
      }
      if offset < -|buffer| {
        return OutOfRange;
      }
      r := ParseAt(offset, depth);
    }

    method ParseAt(offset: int, depth: nat) returns (r: Reading)
      requires depth > 0 && -|buffer| <= offset < |buffer|
      ensures r == Descend(buffer, offset, depth)
      decreases depth, 0
    {
      hide ReadInt, FindCrlf, ParseItems, Line, DescendItems, PySlice;
      var at := Index(buffer, offset);
      var s := buffer[at..];
      if CountAt(s) == None {
        DescendPlain(buffer, offset, depth);
      } else {
        DescendArray(buffer, offset, depth);
      }
      hide Descend;
      var crlf := FindCrlf(s);
      if crlf == None {
        return Got(Null, 0);
      }
      var line := Line(s, crlf.value);
      var header := at + crlf.value + 2 - offset;
      if s[0] == '+' {
        return Got(Simple(line), header);
      } else if s[0] == '-' {
        return Got(Error(line), header);
      } else if s[0] == ':' {
        var n := ReadInt(line);
        return Got(Integer(if n == None then 0 else n.value), header);
      } else if s[0] == '$' {
        var value, consumed := ParseBulkAt(offset, header, line);
        return Got(value, consumed);
      } else if s[0] == '*' {
        var n := ReadInt(line);
        if n == None || n.value == -1 {
          return Got(Null, header);
        }
        var elements := ParseElements(offset + header, if n.value < 0 then 0 else n.value, depth - 1);
        match elements
        case ItemsTooDeep => return TooDeep;
        case ItemsOutOfRange => return OutOfRange;
        case ItemsMissing => return Got(Null, 0);
        case ItemsGot(values, current) => return Got(Array(values), current - offset);
      } else {
        return Got(Inline(s[..crlf.value]), header);
      }
    }

    method ParseBulkAt(offset: int, header: int, line: Bytes) returns (value: Value, consumed: int)
      requires -|buffer| <= offset < |buffer| && Index(buffer, offset) <= offset + header <= |buffer|
      ensures var at := Index(buffer, offset);
              (value, consumed) == Reported(buffer, offset, ParseBulk(buffer[at..], offset + header - at, line))
    {
      hide ReadInt;
      var n := ReadInt(line);
      if n == None || n.value == -1 {
        return Null, header;
      }
      var needed := offset + header + n.value + 2;
      if |buffer| < needed {
        return Null, 0;
      }
      value := Bulk(PySlice(buffer, offset + header, offset + header + n.value));
      if n.value >= 0 {
        var at := Index(buffer, offset);
        assert buffer[offset + header..offset + header + n.value]
            == buffer[at..][offset + header - at..offset + header - at + n.value];
      }
      return value, needed - offset;
    }

    /** The loop over range(count). */
    method ParseElements(offset: nat, count: nat, depth: nat) returns (r: ItemsReading)
      requires offset <= |buffer|
      ensures r == DescendItems(buffer, offset, count, depth)
      ensures depth > |buffer| - offset && !ParseItems(buffer[offset..], count).ItemsNegative? ==>
                r == match ParseItems(buffer[offset..], count)
                     case Items(values, used) => ItemsGot(values, offset + used)
                     case _ => ItemsMissing
      decreases depth, 2
    {
      hide Parse, Descend, DescendItems;
      if depth > |buffer| - offset && !ParseItems(buffer[offset..], count).ItemsNegative? {
        DescendItemsReports(buffer, offset, count, depth);
      }
      var elements: seq<Value> := [];
      var current: int := offset;
      var i := 0;
      NothingFound(DescendItems(buffer, offset, count, depth));
      while i < count
        invariant 0 <= i <= count && current <= |buffer|
        invariant DescendItems(buffer, offset, count, depth)
               == After(elements, DescendItems(buffer, current, count - i, depth))
      {
        ItemsStep(buffer, current, count - i, depth, elements);
        var element := ParseFrom(current, depth);
        if !element.Got? {
          return if element == TooDeep then ItemsTooDeep else ItemsOutOfRange;
        }
        if element.consumed == 0 {
          return ItemsMissing;
        }
        elements, current, i := elements + [element.value], current + element.consumed, i + 1;
      }
      NoneLeft(buffer, current, depth, elements);
      return ItemsGot(elements, current);
    }

    /** None when the data is incomplete; an exception leaves the buffer as it was. */
    method GetNext(depth: nat) returns (value: Value, raised: bool)
      modifies this
      ensures var r := Front(old(buffer), depth);
              && (raised <==> !r.Got?)
              && (if r.Got? && r.consumed > 0 then value == r.value && buffer == old(buffer)[r.consumed..]
                  else value == Null && buffer == old(buffer))
      ensures depth > |old(buffer)| && !Parse(old(buffer)).NegativeInside? ==>
                && !raised
                && (Next(old(buffer)) == None ==> value == Null && buffer == old(buffer))
                && (Next(old(buffer)).Some? ==>
                      value == Next(old(buffer)).value.value && buffer == Rest(old(buffer)))
    {
      hide Parse, Descend, PySlice;
      if depth > |buffer| && !Parse(buffer).NegativeInside? {
        FrontIsNext(buffer, depth);
      }
      if buffer == [] {
        return Null, false;
      }
      var r := ParseFrom(0, depth);
      if !r.Got? {
        return Null, true;
      }
      if r.consumed > 0 {
        buffer := buffer[r.consumed..];
        return r.value, false;
      }
      return Null, false;
    }

    /** The server's inner loop: run every complete command in the buffer. */
    method Drain(depth: nat) returns (commands: seq<Value>, raised: bool)
      modifies this
      ensures (commands, buffer, raised) == DrainedWithin(old(buffer), depth)
      ensures depth > |old(buffer)| && Forward(old(buffer)) ==>
                !raised && (commands, buffer) == Drained(old(buffer))
    {
      hide Descend, Front, Forward, Drained, Parse, Next;
      if depth > |buffer| && Forward(buffer) {
        DrainedForward(buffer, depth);
      }
      commands := [];
      assert [] + DrainedWithin(buffer, depth).0 == DrainedWithin(buffer, depth).0;
      while true
        invariant var d := DrainedWithin(buffer, depth);
                  DrainedWithin(old(buffer), depth) == (commands + d.0, d.1, d.2)
        decreases |buffer|
      {
        ghost var before := buffer;
        var command;
        command, raised := GetNext(depth);
        if raised {
          assert commands + [] == commands;
          return;
        }
        if command == Null {
          assert commands + [] == commands;
          return;
        }
        ghost var later := DrainedWithin(buffer, depth).0;
        assert commands + ([command] + later) == (commands + [command]) + later;
        commands := commands + [command];
      }
    }
  }

  lemma NothingFound(r: ItemsReading)
    ensures After([], r) == r
  {
    if r.ItemsGot? {
      assert [] + r.values == r.values;
    }
  }

  lemma NoneLeft(buffer: Bytes, current: int, depth: nat, found: seq<Value>)
    requires current <= |buffer|
    ensures After(found, DescendItems(buffer, current, 0, depth)) == ItemsGot(found, current)
  {
    assert found + [] == found;
  }

  /** At every drain the arrays on the buffer declare no such length, when the stream arrives in
      these pieces. */
  predicate ServesForward(buffer: Bytes, chunks: seq<Bytes>)
    decreases |chunks|
  {
    chunks == [] ||
    (Forward(buffer + chunks[0]) && ServesForward(Drained(buffer + chunks[0]).1, chunks[1..]))
  }

  /** handle_client: feed every received piece, then drain. On a stream without a bulk length
      below -1 and without a null that hides a message, these are the commands of the whole
      stream, however it was cut. */
  method HandleClient(chunks: seq<Bytes>, depth: nat)
      returns (commands: seq<Value>, leftover: Bytes, raised: bool)
    ensures (commands, leftover, raised) == ServedWithin([], chunks, depth)
    ensures depth > |Joined(chunks)| && ServesForward([], chunks) ==>
              !raised && (commands, leftover) == Served([], chunks)
    ensures depth > |Joined(chunks)| && Regular(Joined(chunks)) && !NullHidesAMessage(Joined(chunks)) ==>
              !raised && (commands, leftover) == Drained(Joined(chunks))
  {
    hide DrainedWithin, Drained, Forward, Served, ServesForward, Regular, NullHidesAMessage;
    if depth > |Joined(chunks)| {
      if Regular(Joined(chunks)) && !NullHidesAMessage(Joined(chunks)) {
        assert [] + Joined(chunks) == Joined(chunks);
        RegularServesForward([], chunks);
        CutIndependence(Joined(chunks));
      }
      if ServesForward([], chunks) {
        ServedWithinForward([], chunks, depth);
      }
    }
    var parser := new RESPParser();
    commands := [];
    assert chunks[0..] == chunks;
    assert [] + ServedWithin([], chunks, depth).0 == ServedWithin([], chunks, depth).0;
    for i := 0 to |chunks|
      invariant var later := ServedWithin(parser.buffer, chunks[i..], depth);
                ServedWithin([], chunks, depth) == (commands + later.0, later.1, later.2)
    {
      assert chunks[i..][1..] == chunks[i + 1..];
      parser.Feed(chunks[i]);
      var more, failed := parser.Drain(depth);
      if failed {
        return commands + more, parser.buffer, true;
      }
      ghost var later := ServedWithin(parser.buffer, chunks[i + 1..], depth).0;
      assert commands + (more + later) == (commands + more) + later;
      commands := commands + more;
    }
    assert chunks[|chunks|..] == [] && commands + [] == commands;
    return commands, parser.buffer, false;
  }

  // ---------- With enough nested calls ----------

  /** Without such a length, as many nested calls as there are bytes left suffice, and the
      bounded parser reports what the unbounded one does. */
  lemma {:induction false} DescendReports(buffer: Bytes, offset: nat, depth: nat)
    requires offset <= |buffer| && depth > |buffer| - offset && !Parse(buffer[offset..]).NegativeInside?
    ensures var (value, consumed) := Reported(buffer, offset, Parse(buffer[offset..]));
            Descend(buffer, offset, depth) == Got(value, consumed)
    decreases |buffer| - offset, 0, 0
  {
    hide FindCrlf, CountAt, Parse, Descend, PySlice;
    var s := buffer[offset..];
    hide ParseItems, DescendItems;
    if offset == |buffer| {
      NothingAtTheEnd(buffer, depth);
    } else if CountAt(s) == None {
      DescendPlain(buffer, offset, depth);
    } else {
      var next := offset + FindCrlf(s).value + 2;
      assert s[FindCrlf(s).value + 2..] == buffer[next..];
      DescendArray(buffer, offset, depth);
      ParseArray(s);
      DescendItemsReports(buffer, next, CountAt(s).value, depth - 1);
    }
  }

  lemma NothingAtTheEnd(buffer: Bytes, depth: nat)
    requires depth > 0
    ensures Parse(buffer[|buffer|..]) == Incomplete && Descend(buffer, |buffer|, depth) == Got(Null, 0)
  {
  }

  lemma {:induction false} DescendItemsReports(buffer: Bytes, current: nat, count: nat, depth: nat)
    requires current <= |buffer| && depth > |buffer| - current && !ParseItems(buffer[current..], count).ItemsNegative?
    ensures DescendItems(buffer, current, count, depth)
         == match ParseItems(buffer[current..], count)
            case Items(values, used) => ItemsGot(values, current + used)
            case _ => ItemsMissing
    decreases |buffer| - current, 1, count
  {
    hide Parse, PySlice, FindCrlf, ReadInt, Descend, CountAt;
    if count > 0 {
      DescendReports(buffer, current, depth);
      var r := Parse(buffer[current..]);
      if r.Parsed? {
        assert buffer[current..][r.consumed..] == buffer[current + r.consumed..];
        DescendItemsReports(buffer, current + r.consumed, count - 1, depth);
      }
    }
  }

  lemma FrontIsNext(s: Bytes, depth: nat)
    requires depth > |s| && !Parse(s).NegativeInside?
    ensures var r := Front(s, depth);
            && r.Got? && (r.consumed > 0 <==> Next(s).Some?)
            && (Next(s).Some? ==> Next(s).value == Message(r.value, r.consumed))
  {
    hide PySlice, Parse, Descend;
    assert s[0..] == s;
    DescendReports(s, 0, depth);
  }

  lemma {:induction false} DrainedForward(s: Bytes, depth: nat)
    requires depth > |s| && Forward(s)
    ensures DrainedWithin(s, depth) == (Drained(s).0, Drained(s).1, false)
    decreases |s|
  {
    hide Front, Next, Parse;
    FrontIsNext(s, depth);
    if Next(s).Some? {
      DrainedForward(Rest(s), depth);
    }
  }

  /** Without a bulk length below -1 inside an array the bound on nested calls does not show. */
  lemma {:induction false} ServedWithinForward(buffer: Bytes, chunks: seq<Bytes>, depth: nat)
    requires depth > |buffer| + |Joined(chunks)| && ServesForward(buffer, chunks)
    ensures ServedWithin(buffer, chunks, depth) == (Served(buffer, chunks).0, Served(buffer, chunks).1, false)
    decreases |chunks|
  {
    hide Forward, Drained, DrainedWithin;
    if chunks != [] {
      var s := buffer + chunks[0];
      DrainedForward(s, depth);
      DrainTakesSomething(s);
      ServedWithinForward(Drained(s).1, chunks[1..], depth);
    }
  }

  // ---------- Independence of the cut ----------

  /** A negative bulk length below -1 is read the same way whatever follows, except
      when the header plus the length is -1: then the payload slice runs to the
      last byte but one of whatever the buffer happens to hold. */
  lemma NegativeBulkStability(s: Bytes)
    requires Parse(s).NegativeBulk?
    ensures (forall t: Bytes :: Next(s + t) == Next(s)) <==> Parse(s).header + Parse(s).n != -1
  {
    hide Parse;
    var header, n := Parse(s).header, Parse(s).n;
    forall t: Bytes
      ensures Parse(s + t) == Parse(s)
    {
      ParseIsStable(s, t);
    }
    if header + n == -1 {
      var t := seq(header + 2, _ => 'x');
      assert |PySlice(s + t, header, -1)| == |s| + 1;
      assert |PySlice(s, header, -1)| <= |s|;
      assert Next(s + t) != Next(s);
    }
  }

  /** The family is not empty: five bytes, and the payload depends on the packet. */
  lemma NegativeBulkDependsOnThePacket()
    ensures Next("$-6\r\n" + "XYZ") == Some(Message(Bulk("XY"), 1))
    ensures Next("$-6\r\n" + "XYZW") == Some(Message(Bulk("XYZ"), 1))
  {
    assert NatText(6) == "6" && IntText(-6) == "-6";
    forall rest: Bytes
      ensures Parse("$-6\r\n" + rest) == NegativeBulk(5, -6)
    {
      NumberLine('$', -6, rest);
      assert "$-6\r\n" + rest == ['$'] + IntText(-6) + CRLF + rest;
    }
    var three: Bytes := "$-6\r\n" + "XYZ";
    var four: Bytes := "$-6\r\n" + "XYZW";
    assert three[5..7] == "XY" && four[5..8] == "XYZ";
  }

  // ---------- A negative bulk length inside an array ----------

  /** More nested calls change nothing once they suffice. */
  lemma {:induction false} DeeperAgrees(buffer: Bytes, offset: int, depth: nat)
    requires Descend(buffer, offset, depth) != TooDeep
    ensures Descend(buffer, offset, depth + 1) == Descend(buffer, offset, depth)
    decreases depth, 0, 0
  {
    hide CountAt, Parse, Reported;
    if depth > 0 && -|buffer| <= offset < |buffer| {
      var at := Index(buffer, offset);
      var s := buffer[at..];
      if CountAt(s).Some? {
        ItemsAgreeDeeper(buffer, at + FindCrlf(s).value + 2, CountAt(s).value, depth - 1);
      }
    }
  }

  lemma {:induction false} ItemsAgreeDeeper(buffer: Bytes, current: int, count: nat, depth: nat)
    requires current <= |buffer| && DescendItems(buffer, current, count, depth) != ItemsTooDeep
    ensures DescendItems(buffer, current, count, depth + 1) == DescendItems(buffer, current, count, depth)
    decreases depth, 1, count
  {
    hide Descend;
    if count > 0 {
      DeeperAgrees(buffer, current, depth);
      var r := Descend(buffer, current, depth);
      if r.Got? && r.consumed != 0 {
        ItemsAgreeDeeper(buffer, current + r.consumed, count - 1, depth);
      }
    }
  }

  /** One more nested call changes nothing, from any offset. */
  ghost predicate Settled(buffer: Bytes, depth: nat) {
    forall offset :: Descend(buffer, offset, depth + 1) == Descend(buffer, offset, depth)
  }

  lemma {:induction false} ItemsSettle(buffer: Bytes, current: int, count: nat, depth: nat)
    requires current <= |buffer| && Settled(buffer, depth)
    ensures DescendItems(buffer, current, count, depth + 1) == DescendItems(buffer, current, count, depth)
    decreases count
  {
    hide Descend;
    if count > 0 {
      var r := Descend(buffer, current, depth);
      assert Descend(buffer, current, depth + 1) == r;
      if r.Got? && r.consumed != 0 {
        ItemsSettle(buffer, current + r.consumed, count - 1, depth);
      }
    }
  }

  /** A depth that settles everything settles it for ever. */
  lemma SettledStays(buffer: Bytes, depth: nat)
    requires depth > 0 && Settled(buffer, depth)
    ensures Settled(buffer, depth + 1)
  {
    hide Descend, CountAt, Parse, Reported;
    var d := depth + 1;
    forall offset
      ensures Descend(buffer, offset, d + 1) == Descend(buffer, offset, d)
    {
      if -|buffer| <= offset < |buffer| {
        var at := Index(buffer, offset);
        var s := buffer[at..];
        if CountAt(s) == None {
          DescendPlain(buffer, offset, d);
          DescendPlain(buffer, offset, d + 1);
        } else {
          DescendArray(buffer, offset, d);
          DescendArray(buffer, offset, d + 1);
          ItemsSettle(buffer, at + FindCrlf(s).value + 2, CountAt(s).value, depth);
        }
      } else {
        OutsideAgrees(buffer, offset, d);
        DeeperAgrees(buffer, offset, d);
      }
    }
  }

  /** The positions from which so many nested calls do not suffice. */
  ghost function DeepAt(buffer: Bytes, depth: nat): set<nat> {
    set at | at in Below(|buffer|) && Descend(buffer, at, depth) == TooDeep
  }

  ghost function Below(n: nat): (r: set<nat>)
    ensures |r| == n && forall x: nat :: x in r <==> x < n
  {
    if n == 0 then {} else Below(n - 1) + {n - 1}
  }

  lemma DeepFromTheEnd(buffer: Bytes, offset: int, depth: nat)
    requires -|buffer| <= offset < 0
    ensures Descend(buffer, offset, depth) == TooDeep <==> Index(buffer, offset) in DeepAt(buffer, depth)
  {
    hide Descend, CountAt, Parse, Reported, DescendItems;
    var at := Index(buffer, offset);
    if depth == 0 {
      NoCalls(buffer, offset);
      NoCalls(buffer, at);
    } else if CountAt(buffer[at..]) == None {
      DescendPlain(buffer, offset, depth);
      DescendPlain(buffer, at, depth);
    } else {
      DescendArray(buffer, offset, depth);
      DescendArray(buffer, at, depth);
    }
  }

  /** A negative offset reads what lies that far from the end, and the consumed count is greater
      by the length of the buffer, since the source subtracts the offset. */
  lemma OffsetFromTheEnd(buffer: Bytes, offset: int, depth: nat)
    requires -|buffer| <= offset < 0
    ensures var near, far := Descend(buffer, offset, depth), Descend(buffer, |buffer| + offset, depth);
            && (near == TooDeep <==> far == TooDeep) && (near == OutOfRange <==> far == OutOfRange)
            && (far.Got? && far.consumed != 0 ==> near == Got(far.value, far.consumed + |buffer|))
  {
    hide Descend, CountAt, DescendItems, PySlice, Parse, FindCrlf;
    var at := |buffer| + offset;
    if depth == 0 {
      NoCalls(buffer, offset);
      NoCalls(buffer, at);
    } else if CountAt(buffer[at..]) == None {
      DescendPlain(buffer, offset, depth);
      DescendPlain(buffer, at, depth);
    } else {
      DescendArray(buffer, offset, depth);
      DescendArray(buffer, at, depth);
    }
  }

  lemma NoCalls(buffer: Bytes, offset: int)
    ensures Descend(buffer, offset, 0) == TooDeep
  {
  }

  lemma OutsideAgrees(buffer: Bytes, offset: int, depth: nat)
    requires depth > 0 && !(-|buffer| <= offset < |buffer|)
    ensures Descend(buffer, offset, depth) != TooDeep
  {
  }

  /** Another call lets some position finish, or none ever will that has not. */
  lemma DeepShrinks(buffer: Bytes, depth: nat)
    requires depth > 0
    ensures DeepAt(buffer, depth + 1) <= DeepAt(buffer, depth)
    ensures DeepAt(buffer, depth + 1) == DeepAt(buffer, depth) ==> Settled(buffer, depth)
  {
    hide Descend;
    forall at | at in DeepAt(buffer, depth + 1)
      ensures at in DeepAt(buffer, depth)
    {
      if Descend(buffer, at, depth) != TooDeep {
        DeeperAgrees(buffer, at, depth);
      }
    }
    if DeepAt(buffer, depth + 1) == DeepAt(buffer, depth) {
      forall offset
        ensures Descend(buffer, offset, depth) == Descend(buffer, offset, depth + 1)
      {
        if Descend(buffer, offset, depth) != TooDeep {
          DeeperAgrees(buffer, offset, depth);
        } else if 0 <= offset < |buffer| {
          assert offset in DeepAt(buffer, depth);
        } else if -|buffer| <= offset < 0 {
          DeepFromTheEnd(buffer, offset, depth);
          DeepFromTheEnd(buffer, offset, depth + 1);
        } else {
          OutsideAgrees(buffer, offset, depth);
        }
      }
    }
  }

  lemma SubsetIsSmaller(a: set<nat>, b: set<nat>)
    requires a <= b
    ensures |a| <= |b| && (a != b ==> |a| < |b|)
  {
    assert b == a + (b - a);
    if a != b {
      var x :| x in b - a;
      assert |b - a| > 0;
    }
  }

  lemma {:induction false} DeepOrSettled(buffer: Bytes, depth: nat)
    requires depth > 0
    ensures Settled(buffer, depth) || |DeepAt(buffer, depth)| + depth <= |buffer| + 1
  {
    hide Settled;
    if depth == 1 {
      SubsetIsSmaller(DeepAt(buffer, 1), Below(|buffer|));
    } else {
      DeepOrSettled(buffer, depth - 1);
      if Settled(buffer, depth - 1) {
        SettledStays(buffer, depth - 1);
      } else {
        DeepShrinks(buffer, depth - 1);
        SubsetIsSmaller(DeepAt(buffer, depth), DeepAt(buffer, depth - 1));
      }
    }
  }

  /** One nested call more than the buffer has bytes decides: what does not finish then finishes
      at no depth, and what finishes gives the same answer at every greater one. */
  lemma DepthDecides(buffer: Bytes, offset: int, depth: nat)
    requires depth > |buffer|
    ensures Descend(buffer, offset, depth) == Descend(buffer, offset, |buffer| + 1)
  {
    hide Descend;
    SettledFrom(buffer, depth);
  }

  lemma {:induction false} SettledFrom(buffer: Bytes, depth: nat)
    requires depth > |buffer|
    ensures Settled(buffer, depth)
    ensures forall offset :: Descend(buffer, offset, depth) == Descend(buffer, offset, |buffer| + 1)
  {
    hide Descend;
    if depth == |buffer| + 1 {
      DeepOrSettled(buffer, depth);
      DeepShrinks(buffer, depth);
    } else {
      var before := depth - 1;
      SettledFrom(buffer, before);
      SettledStays(buffer, before);
      forall offset
        ensures Descend(buffer, offset, depth) == Descend(buffer, offset, before)
      {
        assert Descend(buffer, offset, before + 1) == Descend(buffer, offset, before);
      }
    }
  }

  /** An array of two or more elements whose first is a bulk of a length so far below -1 that
      the cursor returns to the array itself: no number of nested calls is enough. */
  lemma {:induction false} CursorReturnsForEver(buffer: Bytes, offset: nat, header: nat, depth: nat)
    requires offset + header < |buffer| && buffer[offset] == '*' && header >= 2
    requires FindCrlf(buffer[offset..]) == Some(header - 2)
    requires var count := ReadInt(Line(buffer[offset..], header - 2)); count.Some? && count.value >= 2
    requires var first := Parse(buffer[offset + header..]);
             first.NegativeBulk? && header + first.header + first.n + 2 == 0
    ensures Descend(buffer, offset, depth) == TooDeep
  {
    hide FindCrlf, ReadInt;
    if depth > 1 {
      CursorReturnsForEver(buffer, offset, header, depth - 1);
      var count := ReadInt(Line(buffer[offset..], header - 2)).value;
      BulkIsNoArray(buffer[offset + header..]);
      assert Descend(buffer, offset + header, depth - 1).consumed + header == 0;
      assert DescendItems(buffer, offset, count - 1, depth - 1) == ItemsTooDeep;
    }
  }

  lemma BulkIsNoArray(s: Bytes)
    requires Parse(s).NegativeBulk?
    ensures s != [] && s[0] == '$'
  {
  }

  /** A stream of ten bytes does it. */
  lemma ArrayThatNeverReturns(depth: nat)
    ensures Descend("*2\r\n$-12\r\n", 0, depth) == TooDeep
  {
    var buffer: Bytes := "*2\r\n$-12\r\n";
    TwelveBelow();
    TwoElements();
    hide Parse, FindCrlf, ReadInt;
    assert buffer[0..] == buffer;
    CursorReturnsForEver(buffer, 0, 4, depth);
  }

  lemma TwelveBelow()
    ensures Parse("*2\r\n$-12\r\n"[4..]) == NegativeBulk(6, -12)
  {
    hide FindCrlf, ReadInt, ParseItems, IntText, NatText;
    TextOfTwelve();
    NumberLine('$', -12, []);
    var s: Bytes := "$-12\r\n";
    assert s == ['$'] + IntText(-12) + CRLF + [];
    assert "*2\r\n$-12\r\n"[4..] == s;
  }

  lemma TextOfTwelve()
    ensures IntText(-12) == "-12"
  {
    assert NatText(1) == "1" && NatText(12) == "12";
  }

  lemma TwoElements()
    ensures var buffer := "*2\r\n$-12\r\n"; FindCrlf(buffer) == Some(2) && ReadInt(Line(buffer, 2)) == Some(2)
  {
    hide FindCrlf, ReadInt;
    var buffer: Bytes := "*2\r\n$-12\r\n";
    assert NatText(2) == "2" && IntText(2) == "2";
    NumberLine('*', 2, "$-12\r\n");
    assert buffer == ['*'] + IntText(2) + CRLF + "$-12\r\n";
  }

  /** Every bulk length declared on the stream is at least -1. */
  predicate Regular(s: Bytes)
    decreases |s|
  {
    match Parse(s)
    case Incomplete => true
    case Parsed(_, _) => Regular(Rest(s))
    case _ => false
  }

  /** The first top-level null is followed by another complete message. */
  predicate NullHidesAMessage(s: Bytes)
    decreases |s|
  {
    Next(s).Some? &&
    if Next(s).value.value == Null then Next(Rest(s)).Some? else NullHidesAMessage(Rest(s))
  }

  lemma NextIsStable(s: Bytes, t: Bytes)
    requires Regular(s + t) && (Next(s).Some? || !Parse(s).Incomplete?)
    ensures Next(s + t) == Next(s)
    ensures Next(s).Some? ==> Rest(s + t) == Rest(s) + t
  {
    ParseIsStable(s, t);
  }

  lemma RegularDrainsForward(s: Bytes)
    requires Regular(s)
    ensures Forward(s)
    decreases |s|
  {
    if Next(s).Some? {
      RegularDrainsForward(Rest(s));
    }
  }

  /** What a drain leaves is regular, with whatever comes next. */
  lemma {:induction false} DrainedStaysRegular(s: Bytes, t: Bytes)
    requires Regular(s + t)
    ensures Regular(Drained(s).1 + t)
    decreases |s|
  {
    hide Parse;
    if Next(s).Some? {
      NextIsStable(s, t);
      if Next(s).value.value != Null {
        DrainedStaysRegular(Rest(s), t);
      }
    }
  }

  /** However a regular stream is cut, no drain meets a bulk length below -1. */
  lemma {:induction false} RegularServesForward(buffer: Bytes, chunks: seq<Bytes>)
    requires Regular(buffer + Joined(chunks))
    ensures ServesForward(buffer, chunks)
    decreases |chunks|
  {
    hide Regular, Forward, Drained;
    if chunks != [] {
      var s, t := buffer + chunks[0], Joined(chunks[1..]);
      assert buffer + Joined(chunks) == s + t;
      RegularPrefix(s, t);
      RegularDrainsForward(s);
      DrainedStaysRegular(s, t);
      RegularServesForward(Drained(s).1, chunks[1..]);
    }
  }

  /** Draining early and then again is draining late. */
  lemma {:induction false} DrainInTwoSteps(s: Bytes, t: Bytes)
    requires Regular(s + t) && !NullHidesAMessage(s + t)
    ensures var (first, rest) := Drained(s);
            var (second, last) := Drained(rest + t);
            Drained(s + t) == (first + second, last)
    ensures Regular(Drained(s).1 + t) && !NullHidesAMessage(Drained(s).1 + t)
    decreases |s|
  {
    hide Parse;
    if Next(s).Some? {
      NextIsStable(s, t);
      if Next(s).value.value != Null {
        DrainInTwoSteps(Rest(s), t);
        var (first, rest) := Drained(Rest(s));
        var (second, last) := Drained(rest + t);
        assert [Next(s).value.value] + (first + second) == ([Next(s).value.value] + first) + second;
      } else {
        assert [] + Drained(Rest(s) + t).0 == [];
      }
    } else {
      assert [] + Drained(s + t).0 == Drained(s + t).0;
    }
  }

  lemma {:induction false} DrainedIsSettled(s: Bytes)
    requires Regular(s) && !NullHidesAMessage(s)
    ensures Drained(Drained(s).1) == ([], Drained(s).1)
    decreases |s|
  {
    if Next(s).Some? {
      if Next(s).value.value != Null {
        DrainedIsSettled(Rest(s));
      }
    }
  }

  lemma {:induction false} ServedIsDrained(buffer: Bytes, chunks: seq<Bytes>)
    requires Regular(buffer + Joined(chunks)) && !NullHidesAMessage(buffer + Joined(chunks))
    requires Drained(buffer) == ([], buffer)
    ensures Served(buffer, chunks) == Drained(buffer + Joined(chunks))
    decreases |chunks|
  {
    if chunks == [] {
      assert buffer + [] == buffer;
    } else {
      var s, t := buffer + chunks[0], Joined(chunks[1..]);
      assert buffer + Joined(chunks) == s + t;
      DrainInTwoSteps(s, t);
      RegularPrefix(s, t);
      DrainedIsSettled(s);
      ServedIsDrained(Drained(s).1, chunks[1..]);
    }
  }

  lemma {:induction false} RegularPrefix(s: Bytes, t: Bytes)
    requires Regular(s + t)
    ensures Regular(s)
    ensures NullHidesAMessage(s) ==> NullHidesAMessage(s + t)
    decreases |s|
  {
    if !Parse(s).Incomplete? {
      NextIsStable(s, t);
      ParseIsStable(s, t);
      if Next(s).Some? {
        RegularPrefix(Rest(s), t);
        if Next(Rest(s)).Some? {
          NextIsStable(Rest(s), t);
        }
      }
    }
  }

  /** Fragmentation independence, with its exact condition: every way of cutting a
      regular stream into packets gives the commands and the leftover of the uncut
      stream if and only if no top-level null hides a complete message behind it. */
  lemma CutIndependence(stream: Bytes)
    requires Regular(stream)
    ensures (forall chunks: seq<Bytes> | Joined(chunks) == stream :: Served([], chunks) == Drained(stream))
       <==> !NullHidesAMessage(stream)
  {
    if NullHidesAMessage(stream) {
      var chunks := HidingCut(stream);
      assert Served([], chunks) != Drained(stream);
    } else {
      forall chunks: seq<Bytes> | Joined(chunks) == stream
        ensures Served([], chunks) == Drained(stream)
      {
        assert [] + stream == stream;
        ServedIsDrained([], chunks);
      }
    }
  }

  lemma ServedInTwo(a: Bytes, b: Bytes)
    requires Drained(a).1 == []
    ensures Joined([a, b]) == a + b
    ensures Served([], [a, b]).1 == Drained(b).1
  {
    var chunks: seq<Bytes> := [a, b];
    var last: seq<Bytes> := chunks[1..];
    assert last == [b] && last[1..] == [];
    assert Joined(last) == b + [] == b;
    assert [] + a == a && [] + b == b;
    assert Served([], chunks).1 == Served([], last).1;
  }

  /** A cut that shows the hidden message. */
  lemma HidingCut(stream: Bytes) returns (chunks: seq<Bytes>)
    requires Regular(stream) && NullHidesAMessage(stream)
    ensures Joined(chunks) == stream
    ensures Served([], chunks).1 != Drained(stream).1
  {
    var cut := HiddenAt(stream);
    chunks := [stream[..cut], stream[cut..]];
    assert stream[..cut] + stream[cut..] == stream;
    ServedInTwo(stream[..cut], stream[cut..]);
    DrainTakesSomething(stream[cut..]);
  }

  lemma DrainTakesSomething(s: Bytes)
    ensures |Drained(s).1| <= |s|
    ensures Next(s).Some? ==> |Drained(s).1| < |s|
    decreases |s|
  {
    if Next(s).Some? && Next(s).value.value != Null {
      DrainTakesSomething(Rest(s));
    }
  }

  /** Where the hiding null ends. */
  lemma {:induction false} HiddenAt(s: Bytes) returns (cut: nat)
    requires Regular(s) && NullHidesAMessage(s)
    ensures cut <= |s| && Drained(s).1 == s[cut..]
    ensures Drained(s[..cut]).1 == []
    ensures Next(s[cut..]).Some?
    decreases |s|
  {
    hide Parse;
    var c := Next(s).value.consumed;
    if Next(s).value.value == Null {
      cut := c;
    } else {
      cut := HiddenAt(Rest(s));
      assert s[c..][cut..] == s[c + cut..];
      cut := c + cut;
    }
    var front := s[..cut];
    WholeMessageParses(s, cut);
    if Next(s).value.value != Null {
      assert Rest(front) == Rest(s)[..cut - c];
    }
  }

  lemma WholeMessageParses(s: Bytes, cut: nat)
    requires Parse(s).Parsed? && Parse(s).consumed <= cut <= |s|
    ensures Next(s[..cut]) == Next(s)
  {
    ParseIsLocal(s, cut);
  }
}
