/** Text forms of array and binary values. */
module Literals {
  import opened Wrappers
  import opened Wire
  import opened Numbers

  const QUOTE: byte := 34
  const BACKSLASH: byte := 92
  const OPEN: byte := 123
  const CLOSE: byte := 125

  // ---- array literals ----

  function Escape(s: bytes): bytes {
    if s == [] then []
    else (if s[0] == QUOTE || s[0] == BACKSLASH then [BACKSLASH, s[0]] else [s[0]]) + Escape(s[1..])
  }

  function Quoted(s: bytes): bytes {
    [QUOTE] + Escape(s) + [QUOTE]
  }

  /** The items from `i` on, each after the first of all behind a comma. */
  function Items(items: seq<bytes>, i: nat): bytes
    requires i <= |items|
    decreases |items| - i
  {
    if i == |items| then [] else (if i > 0 then [COMMA] else []) + items[i] + Items(items, i + 1)
  }

  function Literal(items: seq<bytes>): bytes {
    [OPEN] + Items(items, 0) + [CLOSE]
  }

  function QuotedAll(vec: seq<bytes>): (r: seq<bytes>)
    ensures |r| == |vec|
  {
    seq(|vec|, i requires 0 <= i < |vec| => Quoted(vec[i]))
  }

  function TextAll(vec: seq<int>): (r: seq<bytes>)
    ensures |r| == |vec|
  {
    seq(|vec|, i requires 0 <= i < |vec| => IntegerText(vec[i]))
  }

  method AddEscaped(before: bytes, v: bytes) returns (s: bytes)
    ensures s == before + Escape(v)
  {
    s := before;
    assert v[0..] == v;
    for i := 0 to |v|
      invariant s + Escape(v[i..]) == before + Escape(v)
    {
      var c := v[i];
      assert v[i..][1..] == v[i + 1..];
      Assoc(s, if c == QUOTE || c == BACKSLASH then [BACKSLASH, c] else [c], Escape(v[i + 1..]));
      if c == QUOTE || c == BACKSLASH {
        s := s + [BACKSLASH, c];
      } else {
        s := s + [c];
      }
    }
  }

  method FormatTextArray(vec: seq<bytes>) returns (s: bytes)
    ensures s == Literal(QuotedAll(vec))
  {
    ghost var items := QuotedAll(vec);
    s := [OPEN];
    for i := 0 to |vec|
      invariant s + Items(items, i) == [OPEN] + Items(items, 0)
    {
      ghost var s0 := s;
      if i > 0 {
        s := s + [COMMA];
      }
      ghost var s1 := s;
      s := s + [QUOTE];
      s := AddEscaped(s, vec[i]);
      s := s + [QUOTE];
      assert s == s1 + items[i];
      ItemsStep(s0, s1, items, i);
    }
    s := s + [CLOSE];
  }

  lemma ItemsStep(s0: bytes, s1: bytes, items: seq<bytes>, i: nat)
    requires i < |items| && s1 == s0 + if i > 0 then [COMMA] else []
    ensures s0 + Items(items, i) == s1 + items[i] + Items(items, i + 1)
  {
  }

  method FormatArray(vec: seq<int>) returns (s: bytes)
    ensures s == Literal(TextAll(vec))
  {
    ghost var items := TextAll(vec);
    s := [OPEN];
    for i := 0 to |vec|
      invariant s + Items(items, i) == [OPEN] + Items(items, 0)
    {
      ghost var s0 := s;
      if i > 0 {
        s := s + [COMMA];
      }
      ItemsStep(s0, s, items, i);
      s := s + IntegerText(vec[i]);
    }
    s := s + [CLOSE];
  }

  // ---- the server's reader of one-dimensional arrays ----

  /** A quoted element after its opening quote: its text and what follows it. */
  function ReadQuoted(s: bytes): Option<(bytes, bytes)>
    decreases |s|
  {
    if s == [] then None
    else if s[0] == QUOTE then Some(([], s[1..]))
    else if s[0] == BACKSLASH then
      if |s| < 2 then None else Prepend(s[1], ReadQuoted(s[2..]))
    else Prepend(s[0], ReadQuoted(s[1..]))
  }

  /** A bare element runs up to a comma or a brace. */
  function ReadBare(s: bytes): Option<(bytes, bytes)> {
    if s == [] || s[0] == QUOTE || s[0] == BACKSLASH || s[0] == OPEN then None
    else if s[0] == COMMA || s[0] == CLOSE then Some(([], s))
    else Prepend(s[0], ReadBare(s[1..]))
  }

  function Prepend(b: byte, r: Option<(bytes, bytes)>): Option<(bytes, bytes)> {
    if r.None? then None else Some(([b] + r.value.0, r.value.1))
  }

  function ReadItem(s: bytes): Option<(bytes, bytes)> {
    if s != [] && s[0] == QUOTE then ReadQuoted(s[1..])
    else
      var r := ReadBare(s);
      if r.Some? && r.value.0 == [] then None else r
  }

  /** Elements up to the closing brace, which has to be the end. */
  function ReadItems(s: bytes): Option<seq<bytes>>
    decreases |s|
  {
    var r := ReadItem(s);
    if r.None? || r.value.1 == [] || |r.value.1| > |s| then None
    else if r.value.1[0] == CLOSE then (if |r.value.1| == 1 then Some([r.value.0]) else None)
    else if r.value.1[0] == COMMA then
      var more := ReadItems(r.value.1[1..]);
      if more.None? then None else Some([r.value.0] + more.value)
    else None
  }

  function ReadLiteral(s: bytes): Option<seq<bytes>> {
    if s == [] || s[0] != OPEN then None
    else if s[1..] == [CLOSE] then Some([])
    else ReadItems(s[1..])
  }

  lemma {:induction false} QuotedIsRead(v: bytes, rest: bytes)
    ensures ReadQuoted(Escape(v) + [QUOTE] + rest) == Some((v, rest))
  {
    var s := Escape(v) + [QUOTE] + rest;
    if v == [] {
      assert s == [QUOTE] + rest;
    } else {
      QuotedIsRead(v[1..], rest);
      var tail := Escape(v[1..]) + [QUOTE] + rest;
      if v[0] == QUOTE || v[0] == BACKSLASH {
        assert s == [BACKSLASH, v[0]] + tail && s[2..] == tail;
      } else {
        assert s == [v[0]] + tail && s[1..] == tail;
      }
      assert [v[0]] + v[1..] == v;
    }
  }

  predicate Plain(s: bytes) {
    forall k | 0 <= k < |s| :: s[k] !in [QUOTE, BACKSLASH, OPEN, CLOSE, COMMA]
  }

  lemma {:induction false} BareIsRead(v: bytes, rest: bytes)
    requires Plain(v) && rest != [] && (rest[0] == COMMA || rest[0] == CLOSE)
    ensures ReadBare(v + rest) == Some((v, rest))
  {
    if v == [] {
      assert v + rest == rest;
    } else {
      BareIsRead(v[1..], rest);
      assert (v + rest)[1..] == v[1..] + rest && [v[0]] + v[1..] == v;
    }
  }

  /** Wherever it stands in a literal, the item is read as the value. */
  ghost predicate Denotes(item: bytes, value: bytes) {
    forall rest: bytes {:trigger ReadItem(item + rest)} | rest != [] && (rest[0] == COMMA || rest[0] == CLOSE) ::
      ReadItem(item + rest) == Some((value, rest))
  }

  ghost predicate AllDenote(items: seq<bytes>, values: seq<bytes>) {
    |items| == |values| && forall k | 0 <= k < |items| :: Denotes(items[k], values[k])
  }

  lemma ReadLastItem(item: bytes, value: bytes)
    requires Denotes(item, value)
    ensures ReadItems(item + [CLOSE]) == Some([value])
  {
  }

  lemma ReadOneItem(item: bytes, value: bytes, next: bytes, values: seq<bytes>)
    requires Denotes(item, value) && ReadItems(next) == Some(values)
    ensures ReadItems(item + ([COMMA] + next)) == Some([value] + values)
  {
    assert ([COMMA] + next)[1..] == next;
  }

  lemma RegroupItems(a: bytes, b: bytes, c: bytes, d: bytes)
    ensures a + ([COMMA] + b + c) + d == a + ([COMMA] + (b + c + d))
  {
  }

  lemma {:induction false} ItemsAreRead(items: seq<bytes>, values: seq<bytes>, i: nat)
    requires AllDenote(items, values) && i < |items|
    ensures ReadItems(items[i] + Items(items, i + 1) + [CLOSE]) == Some(values[i..])
    decreases |items| - i
  {
    if i + 1 == |items| {
      ReadLastItem(items[i], values[i]);
      assert items[i] + [] + [CLOSE] == items[i] + [CLOSE];
      assert values[i..] == [values[i]];
    } else {
      var next := items[i + 1] + Items(items, i + 2) + [CLOSE];
      ItemsAreRead(items, values, i + 1);
      ReadOneItem(items[i], values[i], next, values[i + 1..]);
      RegroupItems(items[i], items[i + 1], Items(items, i + 2), [CLOSE]);
      assert Items(items, i + 1) == [COMMA] + items[i + 1] + Items(items, i + 2);
      assert values[i..] == [values[i]] + values[i + 1..];
    }
  }

  lemma LiteralOpens(body: bytes)
    requires body != []
    ensures ReadLiteral([OPEN] + body) == if body == [CLOSE] then Some([]) else ReadItems(body)
  {
    assert ([OPEN] + body)[1..] == body;
  }

  lemma LiteralIsRead(items: seq<bytes>, values: seq<bytes>)
    requires AllDenote(items, values) && (items != [] ==> items[0] != [])
    ensures ReadLiteral(Literal(items)) == Some(values)
  {
    var body := Items(items, 0) + [CLOSE];
    assert Literal(items) == [OPEN] + body;
    LiteralOpens(body);
    if items == [] {
      assert body == [CLOSE];
    } else {
      FirstItem(items);
      ItemsAreRead(items, values, 0);
      assert values[0..] == values;
    }
  }

  lemma FirstItem(items: seq<bytes>)
    requires items != [] && items[0] != []
    ensures Items(items, 0) + [CLOSE] == items[0] + Items(items, 1) + [CLOSE] != [CLOSE]
  {
    assert |Items(items, 0)| >= 1;
  }

  lemma QuotedDenotes(v: bytes)
    ensures Denotes(Quoted(v), v)
  {
    forall rest: bytes | rest != [] && (rest[0] == COMMA || rest[0] == CLOSE)
      ensures ReadItem(Quoted(v) + rest) == Some((v, rest))
    {
      assert (Quoted(v) + rest)[1..] == Escape(v) + [QUOTE] + rest;
      QuotedIsRead(v, rest);
    }
  }

  lemma PlainDenotes(v: bytes)
    requires Plain(v) && v != []
    ensures Denotes(v, v)
  {
    forall rest: bytes | rest != [] && (rest[0] == COMMA || rest[0] == CLOSE)
      ensures ReadItem(v + rest) == Some((v, rest))
    {
      BareIsRead(v, rest);
    }
  }

  /** Every vector of strings reads back from its literal. */
  lemma TextArrayRoundTrip(vec: seq<bytes>)
    ensures ReadLiteral(Literal(QuotedAll(vec))) == Some(vec)
  {
    var items := QuotedAll(vec);
    forall k | 0 <= k < |items|
      ensures Denotes(items[k], vec[k])
    {
      QuotedDenotes(vec[k]);
    }
    LiteralIsRead(items, vec);
  }

  /** Different vectors have different literals. */
  lemma TextArrayInjective(a: seq<bytes>, b: seq<bytes>)
    requires Literal(QuotedAll(a)) == Literal(QuotedAll(b))
    ensures a == b
  {
    TextArrayRoundTrip(a);
    TextArrayRoundTrip(b);
  }

  lemma IntegerIsPlain(v: int)
    ensures Plain(IntegerText(v)) && IntegerText(v) != []
  {
    DigitsOfDecimal(if v < 0 then -v else v);
  }

  /** Every vector of integers reads back, element by element. */
  lemma IntegerArrayRoundTrip(vec: seq<int>)
    ensures ReadLiteral(Literal(TextAll(vec))) == Some(TextAll(vec))
    ensures forall k | 0 <= k < |vec| :: ReadInteger(TextAll(vec)[k]) == Some(vec[k])
  {
    var items := TextAll(vec);
    forall k | 0 <= k < |vec|
      ensures ReadInteger(items[k]) == Some(vec[k]) && Denotes(items[k], items[k]) && items[k] != []
    {
      IntegerRoundTrip(vec[k]);
      IntegerIsPlain(vec[k]);
      PlainDenotes(items[k]);
    }
    LiteralIsRead(items, items);
  }

  // ---- bytea ----

  function HexDigit(n: nat): byte
    requires n < 16
  {
    if n < 10 then '0' as int + n else 'a' as int + (n - 10)
  }

  function HexOf(data: bytes): bytes {
    if data == [] then [] else [HexDigit(data[0] / 16), HexDigit(data[0] % 16)] + HexOf(data[1..])
  }

  const PREFIX: bytes := [BACKSLASH, 120]

  method ToHexBytea(data: bytes) returns (s: bytes)
    ensures s == PREFIX + HexOf(data)
  {
    s := PREFIX;
    assert data[0..] == data;
    for i := 0 to |data|
      invariant s + HexOf(data[i..]) == PREFIX + HexOf(data)
    {
      assert data[i..][1..] == data[i + 1..];
      Assoc(s, [HexDigit(data[i] / 16), HexDigit(data[i] % 16)], HexOf(data[i + 1..]));
      s := s + [HexDigit(data[i] / 16), HexDigit(data[i] % 16)];
    }
  }

  /** A digit of either case; anything else counts as zero. */
  function HexValue(c: byte): (v: nat)
    ensures v < 16
  {
    if '0' as int <= c <= '9' as int then c - '0' as int
    else if 'a' as int <= c <= 'f' as int then c - 'a' as int + 10
    else if 'A' as int <= c <= 'F' as int then c - 'A' as int + 10
    else 0
  }

  /** Pairs of digits; an odd one at the end is dropped. */
  function BytesOf(s: bytes): bytes {
    if |s| < 2 then [] else [16 * HexValue(s[0]) + HexValue(s[1])] + BytesOf(s[2..])
  }

  predicate HasPrefix(s: bytes) {
    |s| >= 2 && s[0] == BACKSLASH && (s[1] == 'x' as int || s[1] == 'X' as int)
  }

  /** What a bytea cell holds. */
  function Binary(isNull: bool, binary: bool, s: bytes): bytes {
    if isNull then [] else if !binary && HasPrefix(s) then BytesOf(s[2..]) else s
  }

  lemma BytesStep(result: bytes, s: bytes, i: nat)
    requires i + 1 < |s|
    ensures result + BytesOf(s[i..]) == result + [16 * HexValue(s[i]) + HexValue(s[i + 1])] + BytesOf(s[i + 2..])
  {
    assert s[i..][2..] == s[i + 2..];
    Assoc(result, [16 * HexValue(s[i]) + HexValue(s[i + 1])], BytesOf(s[i + 2..]));
  }

  method AsBytea(isNull: bool, binary: bool, s: bytes) returns (result: bytes)
    ensures result == Binary(isNull, binary, s)
  {
    if isNull || |s| == 0 {
      return [];
    }
    if binary {
      return s;
    }
    if |s| >= 2 && s[0] == BACKSLASH && (s[1] == 'x' as int || s[1] == 'X' as int) {
      result := [];
      var i := 2;
      while i + 1 < |s|
        invariant 2 <= i <= |s|
        invariant result + BytesOf(s[i..]) == BytesOf(s[2..])
      {
        var b := 16 * HexValue(s[i]) + HexValue(s[i + 1]);
        BytesStep(result, s, i);
        result := result + [b];
        i := i + 2;
      }
      return;
    }
    return s;
  }

  lemma {:induction false} BytesOfHex(data: bytes)
    ensures BytesOf(HexOf(data)) == data
  {
    if data != [] {
      BytesOfHex(data[1..]);
      assert HexOf(data)[2..] == HexOf(data[1..]);
      assert [data[0]] + data[1..] == data;
    }
  }

  /** Binary data survives being sent as text and read as text. */
  lemma ByteaRoundTrip(data: bytes)
    ensures Binary(false, false, PREFIX + HexOf(data)) == data
  {
    assert (PREFIX + HexOf(data))[2..] == HexOf(data);
    BytesOfHex(data);
  }

  /** What else a cell can hold: nothing when it is null, its bytes when it is
      binary or text without the prefix, whatever they look like. */
  lemma OtherBytea(s: bytes)
    ensures Binary(true, false, s) == [] && Binary(true, true, s) == [] && Binary(false, true, s) == s
    ensures !(Text("\\x") <= s) && !(Text("\\X") <= s) ==> Binary(false, false, s) == s
    ensures Text("\\x") <= s || Text("\\X") <= s ==>
              Binary(false, false, s) == Binary(false, false, Text("\\x") + s[2..])
  {
    var prefix, upper := Text("\\x"), Text("\\X");
    assert |prefix| == 2 && prefix[0] == BACKSLASH && prefix[1] == 'x' as int;
    assert |upper| == 2 && upper[0] == BACKSLASH && upper[1] == 'X' as int;
    assert |s| >= 2 ==> (prefix + s[2..])[2..] == s[2..];
  }

  predicate IsHex(c: byte) {
    '0' as int <= c <= '9' as int || 'a' as int <= c <= 'f' as int || 'A' as int <= c <= 'F' as int
  }

  function LowerByte(c: byte): byte {
    if 'A' as int <= c <= 'F' as int then c + 32 else if IsHex(c) then c else '0' as int
  }

  /** Digits in lower case, and 0 for what is no digit. */
  function Lower(s: bytes): bytes {
    seq(|s|, i requires 0 <= i < |s| => LowerByte(s[i]))
  }

  lemma HexPair(s: bytes)
    requires |s| >= 2
    ensures var b := 16 * HexValue(s[0]) + HexValue(s[1]);
            [HexDigit(b / 16), HexDigit(b % 16)] == [LowerByte(s[0]), LowerByte(s[1])]
  {
  }

  lemma LowerTwo(s: bytes)
    requires |s| >= 2
    ensures Lower(s) == [LowerByte(s[0]), LowerByte(s[1])] + Lower(s[2..])
  {
  }

  /** What reading a text keeps of it: every pair, the case of a digit lost, what is
      no digit taken for 0, and a single digit at the end dropped. */
  lemma {:induction false} HexOfBytes(s: bytes)
    ensures HexOf(BytesOf(s)) == Lower(s[..|s| - |s| % 2])
    decreases |s|
  {
    if |s| >= 2 {
      var pairs := s[..|s| - |s| % 2];
      HexOfBytes(s[2..]);
      HexPair(s);
      LowerTwo(pairs);
      assert pairs[2..] == s[2..][..|s| - 2 - |s| % 2];
      assert BytesOf(s)[1..] == BytesOf(s[2..]);
    }
  }
}
