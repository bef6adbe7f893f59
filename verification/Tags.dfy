/** What a command tag says: the command, the OID of an INSERT, the row count. */
module Tags {
  import opened Wire
  import opened Numbers

  const BLANK: byte := 32
  const TWO_64 := 0x1_0000_0000_0000_0000

  function SkipBlanks(s: bytes): (t: bytes)
    ensures |t| <= |s| && (t != [] ==> t[0] != BLANK)
  {
    if s != [] && s[0] == BLANK then SkipBlanks(s[1..]) else s
  }

  /** The length of the word in front of `s`. */
  function WordEnd(s: bytes): (k: nat)
    ensures k <= |s| && (s != [] && s[0] != BLANK ==> k > 0)
  {
    if s == [] || s[0] == BLANK then 0 else 1 + WordEnd(s[1..])
  }

  function Words(s: bytes): seq<bytes>
    decreases |s|
  {
    var t := SkipBlanks(s);
    if t == [] then [] else [t[..WordEnd(t)]] + Words(t[WordEnd(t)..])
  }

  /** A number of digits only that fits 64 bits; anything else counts as 0. */
  function Number(s: bytes): nat {
    if s != [] && AllDigits(s) && Digits(s, 0) < TWO_64 then Digits(s, 0) else 0
  }

  const INSERT := Text("INSERT")

  datatype Tag = Tag(command: bytes, oid: nat, affected: nat)

  function TagOf(s: bytes): Tag {
    var words := Words(s);
    if words == [] then Tag([], 0, 0)
    else Tag(words[0], if |words| >= 3 && words[0] == INSERT then Number(words[1]) else 0, Number(words[|words| - 1]))
  }

  method ReadNumber(s: bytes) returns (n: nat)
    ensures n == Number(s)
  {
    var isNum := s != [];
    var i := 0;
    while i < |s| && isNum
      invariant i <= |s| && (isNum ==> s != [] && forall k | 0 <= k < i :: IsDigit(s[k]))
      invariant !isNum ==> s == [] || !AllDigits(s)
    {
      if !IsDigit(s[i]) {
        isNum := false;
      }
      i := i + 1;
    }
    n := 0;
    if isNum {
      var v := Digits(s, 0);
      if v < TWO_64 {
        n := v;
      }
    }
  }

  method ReadWords(s: bytes) returns (words: seq<bytes>)
    ensures words == Words(s)
  {
    words := [];
    var rest := s;
    assert [] + Words(s) == Words(s);
    while rest != []
      invariant words + Words(rest) == Words(s)
      decreases |rest|
    {
      var t := SkipBlanks(rest);
      if t == [] {
        break;
      }
      var k := WordEnd(t);
      Assoc(words, [t[..k]], Words(t[k..]));
      words := words + [t[..k]];
      rest := t[k..];
    }
    assert Words(rest) == [];
  }

  method ParseCommandTagParts(s: bytes) returns (tag: Tag)
    ensures tag == TagOf(s)
  {
    tag := Tag([], 0, 0);
    if s == [] {
      return;
    }
    var words := ReadWords(s);
    if words == [] {
      return;
    }
    var affected := ReadNumber(words[|words| - 1]);
    var oid := 0;
    if |words| >= 3 && words[0] == INSERT {
      oid := ReadNumber(words[1]);
    }
    tag := Tag(words[0], oid, affected);
  }

  // ---- what a server writes ----

  predicate IsWord(s: bytes) {
    s != [] && BLANK !in s
  }

  predicate AllWords(words: seq<bytes>) {
    forall k | 0 <= k < |words| :: IsWord(words[k])
  }

  /** Words, each behind a blank but the first. */
  function Spaced(words: seq<bytes>): bytes {
    if words == [] then [] else if |words| == 1 then words[0] else words[0] + [BLANK] + Spaced(words[1..])
  }

  lemma {:induction false} WordEndIs(w: bytes, rest: bytes)
    requires BLANK !in w && (rest == [] || rest[0] == BLANK)
    ensures WordEnd(w + rest) == |w|
  {
    if w == [] {
      assert w + rest == rest;
    } else {
      assert (w + rest)[1..] == w[1..] + rest;
      WordEndIs(w[1..], rest);
    }
  }

  lemma FirstWord(w: bytes, rest: bytes)
    requires IsWord(w) && (rest == [] || rest[0] == BLANK)
    ensures Words(w + rest) == [w] + Words(rest)
  {
    var s := w + rest;
    WordEndIs(w, rest);
    assert s[0] == w[0] && s[..|w|] == w && s[|w|..] == rest;
  }

  function Blanks(n: nat): bytes {
    if n == 0 then [] else [BLANK] + Blanks(n - 1)
  }

  /** However many blanks stand in front of the words, or alone. */
  lemma {:induction false} BlanksAreSkipped(n: nat, s: bytes)
    ensures Words(Blanks(n) + s) == Words(s) && Words(Blanks(n)) == []
    decreases n
  {
    if n == 0 {
      assert Blanks(0) + s == s;
    } else {
      BlanksAreSkipped(n - 1, s);
      FrontBlank(Blanks(n - 1) + s);
      FrontBlank(Blanks(n - 1));
      assert Blanks(n) + s == [BLANK] + (Blanks(n - 1) + s);
    }
  }

  lemma FrontBlank(s: bytes)
    ensures Words([BLANK] + s) == Words(s)
  {
    assert ([BLANK] + s)[1..] == s;
    assert SkipBlanks([BLANK] + s) == SkipBlanks(s);
  }

  lemma {:induction false} WordsOfSpaced(words: seq<bytes>)
    requires AllWords(words)
    ensures Words(Spaced(words)) == words
  {
    if |words| == 1 {
      assert Spaced(words) == words[0] + [];
      FirstWord(words[0], []);
    } else if |words| > 1 {
      var rest := Spaced(words[1..]);
      assert Spaced(words) == words[0] + ([BLANK] + rest);
      FirstWord(words[0], [BLANK] + rest);
      assert ([BLANK] + rest)[1..] == rest;
      assert SkipBlanks([BLANK] + rest) == SkipBlanks(rest);
      WordsOfSpaced(words[1..]);
      assert [words[0]] + words[1..] == words;
    }
  }

  lemma DecimalIsNumber(n: nat)
    requires n < TWO_64
    ensures Number(Decimal(n)) == n && IsWord(Decimal(n))
  {
    DigitsOfDecimal(n);
  }

  /** A count that does not fit 64 bits reads as 0. */
  lemma HugeCountIsZero(words: seq<bytes>, count: nat)
    requires AllWords(words) && words != [] && words[0] != INSERT && count >= TWO_64
    ensures TagOf(Spaced(words + [Decimal(count)])) == Tag(words[0], 0, 0)
  {
    DigitsOfDecimal(count);
    WordsOfSpaced(words + [Decimal(count)]);
  }

  /** An INSERT's tag gives its OID and its count back; a number alone is the count. */
  lemma InsertTagIsRead(oid: nat, count: nat)
    requires oid < TWO_64 && count < TWO_64
    ensures TagOf(Spaced([INSERT, Decimal(oid), Decimal(count)])) == Tag(INSERT, oid, count)
    ensures TagOf(Spaced([INSERT, Decimal(count)])) == Tag(INSERT, 0, count)
  {
    ShortInsert(count);
    DecimalIsNumber(oid);
    DecimalIsNumber(count);
    InsertWords(Decimal(oid), Decimal(count));
    InsertIs(Spaced([INSERT, Decimal(oid), Decimal(count)]), Decimal(oid), Decimal(count));
  }

  lemma ShortInsert(count: nat)
    requires count < TWO_64
    ensures TagOf(Spaced([INSERT, Decimal(count)])) == Tag(INSERT, 0, count)
  {
    assert INSERT[0] == 'I' as int;
    DecimalIsNumber(count);
    WordsOfSpaced([INSERT, Decimal(count)]);
  }

  lemma InsertWords(oid: bytes, count: bytes)
    requires IsWord(oid) && IsWord(count)
    ensures Words(Spaced([INSERT, oid, count])) == [INSERT, oid, count]
  {
    assert INSERT[0] == 'I' as int;
    WordsOfSpaced([INSERT, oid, count]);
  }

  lemma InsertIs(s: bytes, oid: bytes, count: bytes)
    requires Words(s) == [INSERT, oid, count]
    ensures TagOf(s) == Tag(INSERT, Number(oid), Number(count))
  {
  }

  lemma CountedTag(words: seq<bytes>, count: nat)
    requires AllWords(words) && words != [] && words[0] != INSERT && count < TWO_64
    ensures TagOf(Spaced(words + [Decimal(count)])) == Tag(words[0], 0, count)
  {
    DecimalIsNumber(count);
    WordsOfSpaced(words + [Decimal(count)]);
  }

  /** Any other tag gives the command's first word back, and the count when there
      is one; without a number at its end the count is 0. */
  lemma TagIsRead(words: seq<bytes>, count: nat)
    requires AllWords(words) && words != [] && words[0] != INSERT && count < TWO_64
    ensures TagOf(Spaced(words + [Decimal(count)])) == Tag(words[0], 0, count)
    ensures !AllDigits(words[|words| - 1]) ==> TagOf(Spaced(words)) == Tag(words[0], 0, 0)
  {
    CountedTag(words, count);
    WordsOfSpaced(words);
  }
}
