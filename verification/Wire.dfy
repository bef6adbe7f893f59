/** Big-endian integers and NUL-terminated strings, as every message of the
    protocol lays them out. */
module Wire {

  type byte = x: int | 0 <= x < 256 witness 0
  type bytes = seq<byte>

  /** The bytes of an ASCII literal. */
  function Text(s: string): bytes {
    seq(|s|, i requires 0 <= i < |s| => (s[i] as int) % 256)
  }

  const COMMA: byte := ',' as int

  const TWO_15 := 0x8000
  const TWO_16 := 0x1_0000
  const TWO_31 := 0x8000_0000
  const TWO_32 := 0x1_0000_0000

  function ReadU16(s: bytes, at: nat): (v: nat)
    requires at + 2 <= |s|
    ensures v < TWO_16
  {
    (s[at] as int) * 256 + s[at + 1]
  }

  function ReadU32(s: bytes, at: nat): (v: nat)
    requires at + 4 <= |s|
    ensures v < TWO_32
  {
    ReadU16(s, at) * TWO_16 + ReadU16(s, at + 2)
  }

  /** The two's complement readings of the same bits. */
  function Signed16(v: nat): int
    requires v < TWO_16
  {
    if v < TWO_15 then v else v - TWO_16
  }

  function Signed32(v: nat): int
    requires v < TWO_32
  {
    if v < TWO_31 then v else v - TWO_32
  }

  /** Writing truncates to the field's width, as the conversions to uint16_t
      and uint32_t do; a negative value is written in two's complement. */
  function WriteU16(v: int): (s: bytes)
    ensures |s| == 2
  {
    [v / 256 % 256, v % 256]
  }

  function WriteU32(v: int): (s: bytes)
    ensures |s| == 4
  {
    WriteU16(v / TWO_16) + WriteU16(v)
  }

  lemma ReadWriteU16(a: bytes, v: int, b: bytes)
    ensures ReadU16(a + WriteU16(v) + b, |a|) == v % TWO_16
  {
    var s := a + WriteU16(v) + b;
    assert s[|a|] == WriteU16(v)[0] && s[|a| + 1] == WriteU16(v)[1];
  }

  lemma ReadWriteU32(a: bytes, v: int, b: bytes)
    ensures ReadU32(a + WriteU32(v) + b, |a|) == v % TWO_32
  {
    var s := a + WriteU32(v) + b;
    assert s == a + WriteU16(v / TWO_16) + (WriteU16(v) + b);
    ReadWriteU16(a, v / TWO_16, WriteU16(v) + b);
    assert s == (a + WriteU16(v / TWO_16)) + WriteU16(v) + b;
    ReadWriteU16(a + WriteU16(v / TWO_16), v, b);
    WordHalves(v);
  }

  lemma WordHalves(v: int)
    ensures v / TWO_16 % TWO_16 * TWO_16 + v % TWO_16 == v % TWO_32
  {
  }

  lemma ReadWriteFitting(a: bytes, v: nat, b: bytes)
    requires v < TWO_32
    ensures ReadU32(a + WriteU32(v) + b, |a|) == v
  {
    ReadWriteU32(a, v, b);
  }

  lemma SignedModulo(v: int)
    ensures -TWO_31 <= v < TWO_31 ==> Signed32(v % TWO_32) == v
    ensures -TWO_15 <= v < TWO_15 ==> Signed16(v % TWO_16) == v
  {
  }

  /** Signed values in range survive the trip through the wire. */
  lemma ReadWriteSigned(a: bytes, v: int, b: bytes)
    ensures -TWO_31 <= v < TWO_31 ==> Signed32(ReadU32(a + WriteU32(v) + b, |a|)) == v
    ensures -TWO_15 <= v < TWO_15 ==> Signed16(ReadU16(a + WriteU16(v) + b, |a|)) == v
  {
    ReadWriteU32(a, v, b);
    ReadWriteU16(a, v, b);
    SignedModulo(v);
  }

  lemma WriteReadU16(s: bytes, at: nat, high: int)
    requires at + 2 <= |s|
    ensures WriteU16(high * TWO_16 + ReadU16(s, at)) == s[at..at + 2]
  {
    var v := high * TWO_16 + ReadU16(s, at);
    assert v == 256 * (high * 256 + s[at]) + s[at + 1];
    assert v / 256 == high * 256 + s[at];
  }

  lemma WriteReadU32(s: bytes, at: nat)
    requires at + 4 <= |s|
    ensures WriteU32(ReadU32(s, at)) == s[at..at + 4]
  {
    WriteReadU16(s, at, 0);
    WriteReadU16(s, at + 2, ReadU16(s, at));
    assert ReadU32(s, at) / TWO_16 == ReadU16(s, at);
  }

  lemma Slices(s: bytes, at: nat, from: nat, to: nat)
    requires from <= to <= |s| - at
    ensures s[at..][from..to] == s[at + from..at + to]
    ensures s[at..][from..] == s[at + from..]
  {
  }

  lemma Assoc<T>(a: seq<T>, b: seq<T>, c: seq<T>)
    ensures a + (b + c) == (a + b) + c
  {
  }

  lemma SliceOfSlice(s: bytes, a: nat, b: nat, c: nat, d: nat)
    requires a + c <= a + d <= b <= |s|
    ensures s[a..b][c..d] == s[a + c..a + d]
  {
    var t := s[a..b];
    assert forall k | 0 <= k < d - c :: t[c..d][k] == t[c + k] == s[a + c + k] == s[a + c..a + d][k];
  }

  lemma FrontGrows(pre: bytes, s: bytes, at: nat, n: nat)
    requires at + n <= |s|
    ensures pre + s[..at] + s[at..][..n] == pre + s[..at + n]
    ensures s[at..][n..] == s[at + n..]
  {
    assert s[..at] + s[at..][..n] == s[..at + n];
    assert pre + s[..at] + s[at..][..n] == pre + (s[..at] + s[at..][..n]);
  }

  /** Cutting `s + b` in two steps is cutting it once. */
  lemma CutTwice(s: bytes, b: bytes, first: nat, second: nat)
    requires first <= |s| && second <= |s| - first + |b|
    ensures var rest := s[first..] + b;
            && s[..first] + rest[..second] == (s + b)[..first + second]
            && rest[second..] == (s + b)[first + second..]
  {
  }

  predicate NulFree(s: bytes) {
    0 !in s
  }

  /** The first NUL at or after `from`, or the length when there is none. */
  function NulAt(s: bytes, from: nat): (k: nat)
    requires from <= |s|
    ensures from <= k <= |s|
    decreases |s| - from
  {
    if from == |s| || s[from] == 0 then from else NulAt(s, from + 1)
  }

  datatype CString = NoNul | CString(text: bytes, next: nat)

  function ReadCString(s: bytes, from: nat): (c: CString)
    requires from <= |s|
    ensures c.CString? ==> from < c.next <= |s|
  {
    var k := NulAt(s, from);
    if k == |s| then NoNul else CString(s[from..k], k + 1)
  }

  lemma {:induction false} NulAtIs(s: bytes, from: nat, k: nat)
    requires from <= k < |s| && s[k] == 0 && NulFree(s[from..k])
    ensures NulAt(s, from) == k
    decreases k - from
  {
    if from < k {
      assert s[from] == s[from..k][0];
      assert s[from + 1..k] == s[from..k][1..];
      NulAtIs(s, from + 1, k);
    }
  }

  lemma ReadCStringOf(a: bytes, text: bytes, b: bytes)
    requires NulFree(text)
    ensures ReadCString(a + text + [0] + b, |a|) == CString(text, |a| + |text| + 1)
  {
    var s := a + text + [0] + b;
    assert s[|a|..|a| + |text|] == text;
    NulAtIs(s, |a|, |a| + |text|);
  }

  lemma {:induction false} NulAtNone(s: bytes, from: nat)
    requires from <= |s|
    ensures NulAt(s, from) == |s| <==> NulFree(s[from..])
    decreases |s| - from
  {
    if from < |s| && s[from] != 0 {
      NulAtNone(s, from + 1);
      assert s[from..] == [s[from]] + s[from + 1..];
    }
  }

  /** Without a terminator there is no string. */
  lemma NoNulIff(s: bytes, from: nat)
    requires from <= |s|
    ensures ReadCString(s, from).NoNul? <==> NulFree(s[from..])
  {
    NulAtNone(s, from);
  }

  // ---- fields that stand in front of others ----

  lemma StringAt(s: bytes, at: nat, text: bytes, after: bytes)
    requires at <= |s| && s[at..] == text + [0] + after && NulFree(text)
    ensures ReadCString(s, at) == CString(text, at + |text| + 1)
    ensures at + |text| + 1 + |after| == |s| && s[at + |text| + 1..] == after
  {
    assert s == s[..at] + s[at..];
    assert s == s[..at] + text + [0] + after;
    ReadCStringOf(s[..at], text, after);
  }

  lemma TwoStringsAt(s: bytes, at: nat, first: bytes, second: bytes, after: bytes)
    requires at <= |s| && s[at..] == first + [0] + second + [0] + after && NulFree(first) && NulFree(second)
    ensures ReadCString(s, at) == CString(first, at + |first| + 1)
    ensures ReadCString(s, at + |first| + 1) == CString(second, at + |first| + 1 + |second| + 1)
    ensures var next := at + |first| + 1 + |second| + 1; next + |after| == |s| && s[next..] == after
  {
    var a := second + [0] + after;
    assert s[at..] == first + [0] + a;
    StringAt(s, at, first, a);
    StringAt(s, at + |first| + 1, second, after);
  }

  lemma U16At(s: bytes, at: nat, v: nat, after: bytes)
    requires at <= |s| && s[at..] == WriteU16(v) + after && v < TWO_16
    ensures at + 2 + |after| == |s| && ReadU16(s, at) == v && s[at + 2..] == after
  {
    assert s == s[..at] + s[at..];
    assert s == s[..at] + WriteU16(v) + after;
    ReadWriteU16(s[..at], v, after);
  }

  lemma U32At(s: bytes, at: nat, v: nat, after: bytes)
    requires at <= |s| && s[at..] == WriteU32(v) + after && v < TWO_32
    ensures at + 4 + |after| == |s| && ReadU32(s, at) == v && s[at + 4..] == after
  {
    assert s == s[..at] + s[at..];
    assert s == s[..at] + WriteU32(v) + after;
    ReadWriteFitting(s[..at], v, after);
  }

  lemma Signed16At(s: bytes, at: nat, v: int, after: bytes)
    requires at <= |s| && s[at..] == WriteU16(v) + after && -TWO_15 <= v < TWO_15
    ensures at + 2 + |after| == |s| && Signed16(ReadU16(s, at)) == v && s[at + 2..] == after
  {
    assert s == s[..at] + s[at..];
    assert s == s[..at] + WriteU16(v) + after;
    ReadWriteSigned(s[..at], v, after);
  }

  lemma Signed32At(s: bytes, at: nat, v: int, after: bytes)
    requires at <= |s| && s[at..] == WriteU32(v) + after && -TWO_31 <= v < TWO_31
    ensures at + 4 + |after| == |s| && Signed32(ReadU32(s, at)) == v && s[at + 4..] == after
  {
    assert s == s[..at] + s[at..];
    assert s == s[..at] + WriteU32(v) + after;
    ReadWriteSigned(s[..at], v, after);
  }

  /** The most significant byte comes first. */
  lemma BigEndian(s: bytes, at: nat)
    requires at + 4 <= |s|
    ensures ReadU16(s, at) == 0x100 * (s[at] as int) + s[at + 1]
    ensures ReadU32(s, at)
         == 0x1000000 * (s[at] as int) + 0x10000 * (s[at + 1] as int) + 0x100 * (s[at + 2] as int) + s[at + 3]
  {
  }
}
