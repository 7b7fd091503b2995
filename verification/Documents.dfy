// JSON values and dotted field paths.
//
// A path is split at its dots and followed token by token, through dicts by name and through lists
// by position. A null on the way counts as missing.

module Documents {
  import opened ByteStrings
  import opened Numerals

  datatype Json =
    | Null
    | Bool(b: bool)
    | Num(n: real)
    | Str(s: Bytes)
    | List(items: seq<Json>)
    | Obj(fields: map<Bytes, Json>)

  // ---------- path.split(".") ----------

  function FindDot(path: Bytes): (n: nat)
    ensures n <= |path|
  {
    if path == [] || path[0] == '.' then 0 else FindDot(path[1..]) + 1
  }

  function Split(path: Bytes): seq<Bytes>
    decreases |path|
  {
    var n := FindDot(path);
    if n == |path| then [path] else [path[..n]] + Split(path[n + 1..])
  }

  lemma {:induction false} FindDotInJoin(a: Bytes, b: Bytes)
    ensures FindDot(a + ("." + b)) == FindDot(a)
  {
    var s := a + ("." + b);
    if a != [] {
      assert s[0] == a[0] && s[1..] == a[1..] + ("." + b);
      FindDotInJoin(a[1..], b);
    }
  }

  /** A joined path splits into the parts of both paths. */
  lemma {:induction false} SplitOfJoin(a: Bytes, b: Bytes)
    ensures Split(a + ("." + b)) == Split(a) + Split(b)
    decreases |a|
  {
    var s, n := a + ("." + b), FindDot(a);
    FindDotInJoin(a, b);
    assert s[..n] == a[..n];
    if n == |a| {
      assert s[n + 1..] == b;
    } else {
      assert s[n + 1..] == a[n + 1..] + ("." + b);
      SplitOfJoin(a[n + 1..], b);
    }
  }

  // ---------- Following a path ----------

  /** One step: a dict lookup, or a list position as Python counts it; None stands for a
      missing value and for a null. */
  function StepInto(curr: Json, token: Bytes): Option<Json> {
    var next :=
      match curr
      case Obj(fields) => Lookup(fields, token)
      case List(items) =>
        var idx := ReadInt(token);
        if idx == None then None
        else
          var i := if idx.value < 0 then idx.value + |items| else idx.value;
          if 0 <= i < |items| then Some(items[i]) else None
      case _ => None;
    if next == Some(Null) then None else next
  }

  /** The value at the end of a path of tokens. */
  function Follow(doc: Json, tokens: seq<Bytes>): Option<Json> {
    if tokens == [] then Some(doc)
    else
      var next := StepInto(doc, tokens[0]);
      if next == None then None else Follow(next.value, tokens[1..])
  }

  function Nested(doc: Json, path: Bytes): Option<Json> {
    Follow(doc, Split(path))
  }

  lemma {:induction false} FollowOfConcat(doc: Json, a: seq<Bytes>, b: seq<Bytes>)
    ensures var mid := Follow(doc, a);
            Follow(doc, a + b) == if mid == None then None else Follow(mid.value, b)
  {
    if a == [] {
      assert a + b == b;
    } else {
      assert (a + b)[1..] == a[1..] + b;
      var next := StepInto(doc, a[0]);
      if next != None {
        FollowOfConcat(next.value, a[1..], b);
      }
    }
  }

  /** A dotted path can be followed in two stages, split at any dot. */
  lemma NestedOfJoin(doc: Json, a: Bytes, b: Bytes)
    ensures var mid := Nested(doc, a);
            Nested(doc, a + ("." + b)) == if mid == None then None else Nested(mid.value, b)
  {
    hide Split, Follow;
    SplitOfJoin(a, b);
    FollowOfConcat(doc, Split(a), Split(b));
  }

  // ---------- One step ----------

  predicate NoDot(token: Bytes) {
    forall i :: 0 <= i < |token| ==> token[i] != '.'
  }

  lemma {:induction false} SplitOfToken(token: Bytes)
    requires NoDot(token)
    ensures FindDot(token) == |token| && Split(token) == [token]
  {
    if token != [] {
      SplitOfToken(token[1..]);
    }
  }

  lemma NestedIsStep(doc: Json, token: Bytes)
    requires NoDot(token)
    ensures Nested(doc, token) == StepInto(doc, token)
  {
    hide FindDot, Split, StepInto;
    SplitOfToken(token);
    var next := StepInto(doc, token);
    assert next.Some? ==> Follow(next.value, [token][1..]) == next;
  }

  /** A token finds the value of its name in a dict; a null counts as missing. */
  lemma FieldOfDict(fields: map<Bytes, Json>, token: Bytes)
    requires NoDot(token)
    ensures Nested(Obj(fields), token) == if token in fields && fields[token] != Null then Some(fields[token]) else None
  {
    NestedIsStep(Obj(fields), token);
  }

  /** The text of a number finds that position of a list, counted from the end if it is negative;
      a token that is no number finds nothing, and in a scalar no token does. */
  lemma ItemOfList(items: seq<Json>, n: int, token: Bytes, scalar: Json)
    requires NoDot(token)
    ensures 0 <= n < |items| && items[n] != Null ==> Nested(List(items), IntText(n)) == Some(items[n])
    ensures -|items| <= n < 0 && items[|items| + n] != Null ==>
              Nested(List(items), IntText(n)) == Some(items[|items| + n])
    ensures n < -|items| || |items| <= n ==> Nested(List(items), IntText(n)) == None
    ensures ReadInt(token) == None ==> Nested(List(items), token) == None
    ensures !scalar.Obj? && !scalar.List? ==> Nested(scalar, token) == None
  {
    hide ReadInt, IntText;
    ReadIntOfIntText(n);
    NumberHasNoDot(n);
    NestedIsStep(List(items), IntText(n));
    NestedIsStep(List(items), token);
    NestedIsStep(scalar, token);
  }

  lemma NumberHasNoDot(n: int)
    ensures NoDot(IntText(n))
  {
  }

  /** The value found by a nonempty walk is never null. */
  lemma {:induction false} FollowIsNotNull(doc: Json, tokens: seq<Bytes>)
    requires tokens != []
    ensures Follow(doc, tokens) != Some(Null)
  {
    var next := StepInto(doc, tokens[0]);
    if next != None && |tokens| > 1 {
      FollowIsNotNull(next.value, tokens[1..]);
    }
  }

  /** get_nested_field(doc, path): the loop over the tokens. */
  method GetNestedField(doc: Json, path: Bytes) returns (r: Option<Json>)
    ensures r == Nested(doc, path) && r != Some(Null)
  {
    hide ReadInt, Split;
    var tokens := Split(path);
    SplitIsNonEmpty(path);
    FollowIsNotNull(doc, tokens);
    var curr := doc;
    for i := 0 to |tokens|
      invariant Follow(doc, tokens) == Follow(curr, tokens[i..])
    {
      var token := tokens[i];
      assert tokens[i..][1..] == tokens[i + 1..];
      var next := Null;
      if curr.Obj? {
        next := if token in curr.fields then curr.fields[token] else Null;
      } else if curr.List? {
        var idx := ReadInt(token);
        if idx == None || idx.value >= |curr.items| || idx.value < -|curr.items| {
          return None;
        }
        next := curr.items[if idx.value < 0 then |curr.items| + idx.value else idx.value];
      } else {
        return None;
      }
      if next.Null? {
        return None;
      }
      curr := next;
    }
    return Some(curr);
  }

  lemma SplitIsNonEmpty(path: Bytes)
    ensures Split(path) != []
  {
  }
}
