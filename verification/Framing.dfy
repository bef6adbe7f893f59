/** Backend framing: a type byte, a 32-bit length that counts itself, a payload. */
module Framing {
  import opened Wire

  datatype Frame = Frame(kind: byte, payload: bytes)

  /** What one look at the unread bytes finds.

      `Malformed`: the length field is under 4; five bytes are consumed and the
      frame carries no payload.  `Wrapped`: the length field is 0xFFFFFFFF, for
      which the 32-bit sum 1 + length is 0: a frame is reported, but its payload
      is not in the buffer and nothing is consumed. */
  datatype Scanned = Short | Wrapped(kind: byte) | Malformed(kind: byte) | Complete(frame: Frame)
  {
    function Size(): nat {
      match this
      case Malformed(_) => 5
      case Complete(f) => 5 + |f.payload|
      case _ => 0
    }

    predicate Moves() {
      Malformed? || Complete?
    }
  }

  function Scan(s: bytes): (r: Scanned)
    ensures r.Size() <= |s|
    ensures r.Moves() <==> r.Size() > 0
  {
    if |s| < 5 then Short
    else
      var len := ReadU32(s, 1);
      if len < 4 then Malformed(s[0])
      else if len == TWO_32 - 1 then Wrapped(s[0])
      else if |s| < 1 + len then Short
      else Complete(Frame(s[0], s[5..1 + len]))
  }

  /** The frames that `Scan` can return. */
  predicate Fits(f: Frame) {
    4 + |f.payload| < TWO_32 - 1
  }

  predicate AllFit(fs: seq<Frame>) {
    forall i | 0 <= i < |fs| :: Fits(fs[i])
  }

  function Encode(f: Frame): (s: bytes)
    ensures |s| == 5 + |f.payload|
  {
    [f.kind] + WriteU32(4 + |f.payload|) + f.payload
  }

  function EncodeAll(fs: seq<Frame>): bytes {
    if fs == [] then [] else Encode(fs[0]) + EncodeAll(fs[1..])
  }

  lemma LengthEncoded(f: Frame, rest: bytes)
    requires Fits(f)
    ensures ReadU32(Encode(f) + rest, 1) == 4 + |f.payload|
  {
    var len, k := 4 + |f.payload|, [f.kind];
    Regrouped(k, WriteU32(len), f.payload, rest);
    ReadWriteFitting(k, len, f.payload + rest);
  }

  lemma Regrouped(a: bytes, b: bytes, c: bytes, d: bytes)
    ensures a + b + c + d == a + b + (c + d)
  {
  }

  lemma ScanEncode(f: Frame, rest: bytes)
    requires Fits(f)
    ensures Scan(Encode(f) + rest) == Complete(f)
    ensures (Encode(f) + rest)[Complete(f).Size()..] == rest
  {
    var s := Encode(f) + rest;
    LengthEncoded(f, rest);
    assert s[0] == f.kind && s[5..5 + |f.payload|] == f.payload;
  }

  lemma EncodeScan(s: bytes)
    requires Scan(s).Complete?
    ensures Fits(Scan(s).frame)
    ensures Encode(Scan(s).frame) == s[..Scan(s).Size()]
    ensures Encode(Scan(s).frame) + s[Scan(s).Size()..] == s
  {
    WriteReadU32(s, 1);
    var f := Scan(s).frame;
    assert s[..Scan(s).Size()] == [s[0]] + s[1..5] + f.payload;
  }

  /** More bytes never change a frame that is already there. */
  lemma ScanExtends(s: bytes, more: bytes)
    requires !Scan(s).Short?
    ensures Scan(s + more) == Scan(s)
    ensures (s + more)[Scan(s).Size()..] == s[Scan(s).Size()..] + more
  {
    assert ReadU32(s + more, 1) == ReadU32(s, 1);
    if Scan(s).Complete? {
      var len := ReadU32(s, 1);
      assert (s + more)[5..1 + len] == s[5..1 + len];
    }
  }

  /** All complete frames in front of `s`, and what follows them. */
  function Walk(s: bytes): (r: (seq<Frame>, bytes))
    ensures !Scan(r.1).Complete?
  {
    match Scan(s)
    case Complete(f) =>
      var (fs, rest) := Walk(s[Scan(s).Size()..]);
      ([f] + fs, rest)
    case _ => ([], s)
  }

  /** Framing undoes encoding, for every list of frames and every remainder
      that does not itself begin with a frame. */
  lemma {:induction false} WalkEncodeAll(fs: seq<Frame>, rest: bytes)
    requires AllFit(fs) && !Scan(rest).Complete?
    ensures Walk(EncodeAll(fs) + rest) == (fs, rest)
  {
    if fs == [] {
      assert EncodeAll(fs) + rest == rest;
    } else {
      var tail := EncodeAll(fs[1..]) + rest;
      assert EncodeAll(fs) + rest == Encode(fs[0]) + tail;
      ScanEncode(fs[0], tail);
      WalkEncodeAll(fs[1..], rest);
      assert [fs[0]] + fs[1..] == fs;
    }
  }

  lemma EncodeAllCons(f: Frame, fs: seq<Frame>)
    ensures EncodeAll([f] + fs) == Encode(f) + EncodeAll(fs)
  {
    assert ([f] + fs)[1..] == fs;
  }

  /** Encoding undoes framing, for every byte string. */
  lemma {:induction false} EncodeAllWalk(s: bytes)
    ensures AllFit(Walk(s).0)
    ensures EncodeAll(Walk(s).0) + Walk(s).1 == s
    decreases |s|
  {
    if Scan(s).Complete? {
      var f, rest := Scan(s).frame, s[Scan(s).Size()..];
      EncodeScan(s);
      EncodeAllWalk(rest);
      var (fs, tail) := Walk(rest);
      EncodeAllCons(f, fs);
      Assoc(Encode(f), EncodeAll(fs), tail);
    } else {
      assert Walk(s) == ([], s);
    }
  }

  lemma {:induction false} EncodeAllConcat(a: seq<Frame>, b: seq<Frame>)
    ensures EncodeAll(a + b) == EncodeAll(a) + EncodeAll(b)
  {
    if a == [] {
      assert a + b == b;
    } else {
      EncodeAllConcat(a[1..], b);
      assert (a + b)[1..] == a[1..] + b && (a + b)[0] == a[0];
      Assoc(Encode(a[0]), EncodeAll(a[1..]), EncodeAll(b));
    }
  }

  /** No frame boundary of `s` carries the length 0xFFFFFFFF. */
  predicate WrapFree(s: bytes)
    decreases |s|
  {
    var r := Scan(s);
    !r.Wrapped? && (r.Moves() ==> WrapFree(s[r.Size()..]))
  }

  /** `t` is what is left of `s` after some number of whole frames. */
  predicate Reaches(s: bytes, t: bytes)
    decreases |s|
  {
    s == t || (Scan(s).Moves() && Reaches(s[Scan(s).Size()..], t))
  }

  lemma {:induction false} ReachesTrans(s: bytes, t: bytes, u: bytes)
    requires Reaches(s, t) && Reaches(t, u)
    ensures Reaches(s, u)
    decreases |s|
  {
    if s != t {
      ReachesTrans(s[Scan(s).Size()..], t, u);
    }
  }

  lemma {:induction false} ReachesKeeps(s: bytes, t: bytes)
    requires Reaches(s, t)
    ensures |t| <= |s| && t == s[|s| - |t|..]
    ensures WrapFree(s) ==> WrapFree(t)
    decreases |s|
  {
    if s != t {
      ReachesKeeps(s[Scan(s).Size()..], t);
    }
  }

  lemma {:induction false} WrapFreeEncodeAll(fs: seq<Frame>)
    requires AllFit(fs)
    ensures WrapFree(EncodeAll(fs))
  {
    if fs != [] {
      ScanEncode(fs[0], EncodeAll(fs[1..]));
      WrapFreeEncodeAll(fs[1..]);
    }
  }

  /** A frame is bad exactly when its length does not even cover the length field. */
  lemma BadLengthIff(s: bytes)
    requires |s| >= 5
    ensures Scan(s).Malformed? <==> ReadU32(s, 1) < 4
    ensures Scan(s).Malformed? ==> Scan(s) == Malformed(s[0]) && Scan(s).Size() == 5
  {
  }

  /** A frame that is cut short is no frame yet. */
  lemma CutFrame(f: Frame, cut: bytes)
    requires Fits(f) && cut < Encode(f)
    ensures Scan(cut).Short?
  {
    if |cut| >= 5 {
      LengthEncoded(f, []);
      assert Encode(f) + [] == Encode(f);
      BigEndian(cut, 1);
      BigEndian(Encode(f), 1);
    }
  }

  /** The one length for which a reported frame leaves the reader where it was. */
  lemma FrameAdvancesIff(s: bytes)
    requires |s| >= 5
    ensures Scan(s).Wrapped? <==> ReadU32(s, 1) == TWO_32 - 1
    ensures !Scan(s).Short? ==> (Scan(s).Size() > 0 <==> ReadU32(s, 1) != TWO_32 - 1)
  {
  }

  /** Startup-style framing: a length that counts itself and a payload, no type
      byte.  `StartupUnder`: a length under 4, for which the payload size wraps
      below zero. */
  datatype StartupScanned = StartupShort | StartupUnder(len: nat) | StartupFrame(body: bytes)
  {
    function Size(): nat {
      match this
      case StartupShort => 0
      case StartupUnder(len) => len
      case StartupFrame(body) => 4 + |body|
    }
  }

  function ScanStartup(s: bytes): (r: StartupScanned)
    ensures r.Size() <= |s|
  {
    if |s| < 4 then StartupShort
    else
      var len := ReadU32(s, 0);
      if |s| < len then StartupShort
      else if len < 4 then StartupUnder(len)
      else StartupFrame(s[4..len])
  }

  /** `Scan` by position in a larger buffer. */
  lemma ScanAt(buf: bytes, at: nat)
    requires at <= |buf|
    ensures Scan(buf[at..])
         == if |buf| - at < 5 then Short
            else
              var len := ReadU32(buf, at + 1);
              if len < 4 then Malformed(buf[at])
              else if len == TWO_32 - 1 then Wrapped(buf[at])
              else if |buf| - at < 1 + len then Short
              else Complete(Frame(buf[at], buf[at + 5..at + 1 + len]))
  {
    var s := buf[at..];
    if |s| >= 5 {
      var len := ReadU32(buf, at + 1);
      assert len == ReadU32(s, 1);
      if 4 <= len < |s| {
        Slices(buf, at, 5, 1 + len);
      }
    }
  }

  /** The size of a frame in 32 bits. */
  lemma FrameSize(len: nat)
    requires len < TWO_32
    ensures (1 + len) % TWO_32 == if len == TWO_32 - 1 then 0 else 1 + len
  {
  }

  /** Reads a frame at the caller's offset, which moves past it. */
  method ReadFrame(buf: bytes, offset: nat) returns (r: Scanned, next: nat)
    requires offset <= |buf|
    ensures r == Scan(buf[offset..]) && next == offset + r.Size() <= |buf|
    ensures buf[next..] == buf[offset..][r.Size()..]
  {
    ScanAt(buf, offset);
    r, next := Short, offset;
    var available := |buf| - offset;
    if available >= 5 {
      var kind := buf[offset];
      var len := ReadU32(buf, offset + 1);
      if len < 4 {
        r, next := Malformed(kind), offset + 5;
      } else {
        FrameSize(len);
        var frameSize := (1 + len) % TWO_32;
        if frameSize == 0 {
          r := Wrapped(kind);
        } else if available >= frameSize {
          r, next := Complete(Frame(kind, buf[offset + 5..offset + frameSize])), offset + frameSize;
        }
      }
    }
    Slices(buf, offset, next - offset, next - offset);
  }

  /** The reader.  `owned`: it stands on a buffer of its own that can grow and
      shrink; otherwise on bytes it only looks at. */
  class PostgresStream {
    const owned: bool
    var buf: bytes
    var cursor: nat

    ghost predicate Valid()
      reads this
    {
      cursor <= |buf|
    }

    constructor ()
      ensures Valid() && owned && buf == [] && cursor == 0
    {
      owned, buf, cursor := true, [], 0;
    }

    constructor View(raw: bytes)
      ensures Valid() && !owned && buf == raw && cursor == 0
    {
      owned, buf, cursor := false, raw, 0;
    }

    function Seen(): bytes
      requires Valid()
      reads this
    {
      buf[..cursor]
    }

    function Unread(): bytes
      requires Valid()
      reads this
    {
      buf[cursor..]
    }

    function BufferedSize(): (n: nat)
      requires Valid()
      reads this
      ensures n == |Unread()|
    {
      |buf| - cursor
    }

    method Append(data: bytes)
      requires Valid()
      modifies this`buf
      ensures Valid() && Seen() == old(Seen()) && Unread() == old(Unread()) + if owned then data else []
    {
      if owned {
        buf := buf + data;
      }
    }

    method NextFrame() returns (r: Scanned)
      requires Valid()
      modifies this`cursor
      ensures Valid() && r == Scan(old(Unread())) && cursor == old(cursor) + r.Size()
      ensures Seen() == old(Seen()) + old(Unread())[..r.Size()]
      ensures Unread() == old(Unread())[r.Size()..]
    {
      ghost var before := cursor;
      r, cursor := ReadFrame(buf, cursor);
      FrontGrows([], buf, before, r.Size());
    }

    method NextStartupFrame() returns (r: StartupScanned)
      requires Valid()
      modifies this`cursor
      ensures Valid() && r == ScanStartup(old(Unread())) && cursor == old(cursor) + r.Size()
      ensures Seen() == old(Seen()) + old(Unread())[..r.Size()]
      ensures Unread() == old(Unread())[r.Size()..]
    {
      var available := |buf| - cursor;
      r := StartupShort;
      if available >= 4 {
        var len := ReadU32(buf, cursor);
        assert len == ReadU32(Unread(), 0);
        if available >= len {
          if len < 4 {
            r := StartupUnder(len);
          } else {
            Slices(buf, cursor, 4, len);
            r := StartupFrame(buf[cursor + 4..cursor + len]);
          }
          FrontGrows([], buf, cursor, len);
          cursor := cursor + len;
        }
      }
    }

    method TruncateUnconsumed()
      requires Valid()
      modifies this`buf
      ensures Valid() && Seen() == old(Seen()) && Unread() == if owned then [] else old(Unread())
    {
      if owned && |buf| > cursor {
        buf := buf[..cursor];
      }
    }

    /** Owned bytes are erased from the front; a view moves past them. */
    method Compact()
      requires Valid()
      modifies this
      ensures Valid() && cursor == 0 && buf == old(Unread())
    {
      if cursor > 0 {
        buf := buf[cursor..];
        cursor := 0;
      }
    }

    method Clear()
      modifies this
      ensures Valid() && buf == [] && cursor == 0
    {
      buf, cursor := [], 0;
    }
  }
}
