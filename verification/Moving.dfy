/** Where moves of the cursor lead, over encoded lists of frames and over any
    bytes. */
module Moving {
  import opened Wire
  import opened Framing
  import opened Parser
  import opened Cursor

  // ---- the lists the statements are about ----

  /** ReadyForQuery comes last or not at all. */
  predicate IdleLast(fs: seq<Frame>)
    decreases |fs|
  {
    fs == [] || (if RoleOf(fs[0].kind).Idle? then |fs| == 1 else IdleLast(fs[1..]))
  }

  predicate Clean(fs: seq<Frame>) {
    AllFit(fs) && IdleLast(fs)
  }

  // ---- one frame of an encoded list ----

  lemma MeetEncoded(fs: seq<Frame>)
    requires Clean(fs)
    ensures fs == [] ==> Meet(EncodeAll(fs)).Nothing? && EncodeAll(fs) == []
    ensures fs != [] ==>
              && EncodeAll(fs) != []
              && Meet(EncodeAll(fs)) == Met(RoleOf(fs[0].kind), fs[0].payload)
              && Behind(EncodeAll(fs)) == EncodeAll(fs[1..])
              && Clean(fs[1..])
  {
    if fs != [] {
      ScanEncode(fs[0], EncodeAll(fs[1..]));
    }
  }

  /** Passing over frames of an encoded list never meets a broken one, and stops
      at the end of the list or on a frame of it. */
  lemma {:induction false} SkipEncoded(fs: seq<Frame>, aim: Aim) returns (k: nat)
    requires Clean(fs)
    ensures k <= |fs| && Clean(fs[k..]) && Skip(EncodeAll(fs), aim) == EncodeAll(fs[k..])
    ensures k < |fs| ==> !aim.Passes(RoleOf(fs[k].kind))
    ensures forall i | 0 <= i < k :: aim.Passes(RoleOf(fs[i].kind))
    decreases |fs|
  {
    MeetEncoded(fs);
    if fs != [] && aim.Passes(RoleOf(fs[0].kind)) {
      var j := SkipEncoded(fs[1..], aim);
      k := j + 1;
      assert fs[1..][j..] == fs[k..];
      forall i | 0 <= i < k ensures aim.Passes(RoleOf(fs[i].kind)) {
        if i > 0 {
          assert fs[i] == fs[1..][i - 1];
        }
      }
    } else {
      k := 0;
      assert fs[0..] == fs;
    }
  }

  // ---- how many rows were fetched does not matter ----

  function AfterFetch(c: Position): Position {
    Fetch(c).after
  }

  function Iterate<A(!new)>(g: A -> A, a: A, k: nat): A
    decreases k
  {
    if k == 0 then a else Iterate(g, g(a), k - 1)
  }

  function FetchTimes(c: Position, k: nat): Position {
    Iterate(AfterFetch, c, k)
  }

  /** What one application of `g` does not change, no number of them changes. */
  lemma {:induction false} OrbitIsConstant<A(!new), B>(f: A -> B, g: A -> A, good: A -> bool, a: A, k: nat)
    requires good(a) && forall x :: good(x) ==> good(g(x)) && f(g(x)) == f(x)
    ensures f(Iterate(g, a, k)) == f(a)
    decreases k
  {
    if k > 0 {
      OrbitIsConstant(f, g, good, g(a), k - 1);
    }
  }

  /** One fetch, of a readable row, an unreadable one or none, changes neither
      where the next result set begins nor what is known of it. */
  lemma FetchIsNeutral(fs: seq<Frame>, c: Position) returns (left: seq<Frame>)
    requires Clean(fs) && c.rest == EncodeAll(fs)
    ensures Clean(left) && Fetch(c).after.rest == EncodeAll(left)
    ensures Next(Fetch(c).after) == Next(c)
  {
    left := fs;
    if !c.done && c.rest != [] {
      var j := SkipEncoded(fs, Row);
      MeetEncoded(fs[j..]);
      SkipFurther(c.rest, Row, End);
      if j == |fs| {
        left := [];
        AtTheEnd(c);
      } else if Fetch(c).after != c {
        left := fs[j..][1..];
        FetchBefore(fs[j..], c);
      }
    }
  }

  lemma AtTheEnd(c: Position)
    requires !c.done && c.rest != [] && Skip(c.rest, Row) == []
    requires Skip(c.rest, End) == Skip([], End)
    ensures Next(Fetch(c).after) == Next(c)
  {
    MeetEncoded([]);
  }

  /** The fetch stops on the first frame of `fs`. */
  lemma FetchBefore(fs: seq<Frame>, c: Position)
    requires Clean(fs) && fs != [] && !Row.Passes(RoleOf(fs[0].kind))
    requires !c.done && c.rest != [] && Skip(c.rest, Row) == EncodeAll(fs)
    requires Skip(c.rest, End) == Skip(EncodeAll(fs), End)
    requires Fetch(c).after != c
    ensures Fetch(c).after.rest == EncodeAll(fs[1..])
    ensures Next(Fetch(c).after) == Next(c)
  {
    MeetEncoded(fs);
    if RoleOf(fs[0].kind).Idle? {
      FetchIdleBefore(fs, c);
    } else if RoleOf(fs[0].kind).Closing? {
      FetchTagBefore(fs, c);
    } else {
      NextSkips(fs, c);
    }
  }

  lemma FetchIdleBefore(fs: seq<Frame>, c: Position)
    requires Clean(fs) && fs != [] && RoleOf(fs[0].kind) == Idle
    requires Skip(c.rest, End) == Skip(EncodeAll(fs), End)
    requires !c.done
    ensures Next(c.(rest := EncodeAll(fs[1..]), done := true)) == Next(c)
  {
    MeetEncoded(fs);
    MeetEncoded([]);
  }

  lemma NextAtClosing(c: Position, t: bytes, payload: bytes)
    requires !c.done && Skip(c.rest, End) == t && Meet(t) == Met(Closing, payload)
    ensures Next(c) == Seek(c.(tag := CommandTagOf(payload, c.tag), done := true), Behind(t))
  {
  }

  lemma NextWhenDone(c: Position)
    requires c.done
    ensures Next(c) == Seek(c, c.rest)
  {
  }

  lemma ClosingIsEnd(fs: seq<Frame>)
    requires Clean(fs) && fs != [] && RoleOf(fs[0].kind) == Closing
    ensures var t := EncodeAll(fs);
            && Skip(t, End) == t && Meet(t) == Met(Closing, fs[0].payload)
            && Behind(t) == EncodeAll(fs[1..]) && Clean(fs[1..])
  {
    MeetEncoded(fs);
    SkipNone(EncodeAll(fs), End);
  }

  lemma FetchTagBefore(fs: seq<Frame>, c: Position)
    requires Clean(fs) && fs != [] && RoleOf(fs[0].kind) == Closing
    requires Skip(c.rest, End) == Skip(EncodeAll(fs), End)
    requires !c.done
    ensures var d := c.(tag := CommandTagOf(fs[0].payload, c.tag), done := true);
            Next(d.(rest := EncodeAll(fs[1..]))) == Next(c)
  {
    var s', d := EncodeAll(fs[1..]), c.(tag := CommandTagOf(fs[0].payload, c.tag), done := true);
    ClosingIsEnd(fs);
    SeekFresh(fs[1..], d, s');
    TagBefore(c, EncodeAll(fs), fs[0].payload, s', d);
  }

  lemma TagBefore(c: Position, t: bytes, payload: bytes, s: bytes, d: Position)
    requires !c.done && Skip(c.rest, End) == t && Meet(t) == Met(Closing, payload) && Behind(t) == s
    requires d == c.(tag := CommandTagOf(payload, c.tag), done := true) && Seek(d, s) == Seek(d.(rest := s), s)
    ensures Next(d.(rest := s)) == Next(c)
  {
    NextAtClosing(c, t, payload);
    NextWhenDone(d.(rest := s));
  }

  /** A move begun inside a set passes over what does not end it. */
  lemma NextSkips(fs: seq<Frame>, c: Position)
    requires Clean(fs) && fs != [] && End.Passes(RoleOf(fs[0].kind))
    requires Skip(c.rest, End) == Skip(EncodeAll(fs), End)
    requires !c.done
    ensures Next(c.(rest := EncodeAll(fs[1..]))) == Next(c)
  {
    MeetEncoded(fs);
    var s' := EncodeAll(fs[1..]);
    assert Skip(EncodeAll(fs), End) == Skip(s', End);
    SeekEndFresh(fs[1..], c, s');
    assert SeekEnd(c, c.rest) == SeekEnd(c, s');
  }

  lemma SeekFresh(fs: seq<Frame>, c: Position, r: bytes)
    requires Clean(fs)
    ensures Seek(c, EncodeAll(fs)) == Seek(c.(rest := r), EncodeAll(fs))
  {
    var k := SkipEncoded(fs, NextSet);
    MeetEncoded(fs[k..]);
  }

  /** On an encoded list the old cursor plays no part in where a move ends. */
  lemma SeekEndFresh(fs: seq<Frame>, c: Position, r: bytes)
    requires Clean(fs)
    ensures SeekEnd(c, EncodeAll(fs)) == SeekEnd(c.(rest := r), EncodeAll(fs))
  {
    var m := SkipEncoded(fs, End);
    MeetEncoded(fs[m..]);
    if m < |fs| {
      assert fs[m..][1..] == fs[m + 1..];
      SeekFresh(fs[m + 1..], c.(tag := CommandTagOf(fs[m].payload, c.tag), done := true), r);
    } else {
      SeekFresh(fs[m..], c, r);
    }
  }

  lemma {:induction false} SkipFurther(s: bytes, few: Aim, many: Aim)
    requires forall role :: few.Passes(role) ==> many.Passes(role)
    ensures Skip(Skip(s, few), many) == Skip(s, many)
    decreases |s|
  {
    if Meet(s).Met? && few.Passes(Meet(s).role) {
      SkipFurther(Behind(s), few, many);
    }
  }

  /** The cursor stands before a clean list of frames. */
  ghost predicate OnClean(c: Position) {
    exists fs :: Clean(fs) && c.rest == EncodeAll(fs)
  }

  lemma AfterFetchIsNeutral(c: Position)
    requires OnClean(c)
    ensures OnClean(AfterFetch(c)) && Next(AfterFetch(c)) == Next(c)
  {
    var fs :| Clean(fs) && c.rest == EncodeAll(fs);
    var left := FetchIsNeutral(fs, c);
  }

  /** `next_result_set` lands at the same place with the same columns, tag and
      flags after any number of fetches, none and more than there are included. */
  lemma RowCountIndependence(fs: seq<Frame>, c: Position, k: nat)
    requires Clean(fs) && c.rest == EncodeAll(fs)
    ensures Next(FetchTimes(c, k)) == Next(c)
  {
    forall x | OnClean(x)
      ensures OnClean(AfterFetch(x)) && Next(AfterFetch(x)) == Next(x)
    {
      AfterFetchIsNeutral(x);
    }
    OrbitIsConstant(Next, AfterFetch, x => OnClean(x), c, k);
  }

  // ---- a frame of bad length ----

  lemma {:induction false} SkipPasses(fs: seq<Frame>, tail: bytes, aim: Aim)
    requires AllFit(fs) && forall f | f in fs :: aim.Passes(RoleOf(f.kind))
    requires !Meet(tail).Met?
    ensures Skip(EncodeAll(fs) + tail, aim) == tail
    decreases |fs|
  {
    if fs == [] {
      assert EncodeAll(fs) + tail == tail;
    } else {
      var s := EncodeAll(fs[1..]) + tail;
      assert EncodeAll(fs) + tail == Encode(fs[0]) + s;
      ScanEncode(fs[0], s);
      SkipPasses(fs[1..], tail, aim);
    }
  }

  /** Behind frames that mean nothing to the cursor stand `tail`, which begins with
      a frame whose length does not cover its length field.  Opening takes the five
      bytes of it and reading goes on behind them; a fetch and a move fail and leave
      everything as it was. */
  lemma BadFrameStops(aside: seq<Frame>, tail: bytes, c: Position)
    requires AllFit(aside) && forall f | f in aside :: RoleOf(f.kind).Aside?
    requires |tail| >= 5 && ReadU32(tail, 1) < 4
    requires c.rest == EncodeAll(aside) + tail
    ensures Metadata(c.rest) == Position(tail[5..], [], [], false)
    ensures Fetch(c) == Fetched(false, [], c)
    ensures Next(c) == Moved(false, c)
  {
    BadLengthIff(tail);
    assert Meet(tail) == Broken && Behind(tail) == tail[5..];
    SkipPasses(aside, tail, Header);
    SkipPasses(aside, tail, Row);
    SkipPasses(aside, tail, End);
    SkipPasses(aside, tail, NextSet);
  }

  // ---- the cursor never leaves the frame boundaries ----

  datatype Call = FetchRow | FetchAll | NextResultSet

  function Do(c: Position, call: Call): Position {
    match call
    case FetchRow => Fetch(c).after
    case FetchAll => Rows(c).1
    case NextResultSet => Next(c).after
  }

  function DoAll(c: Position, calls: seq<Call>): Position
    decreases |calls|
  {
    if calls == [] then c else DoAll(Do(c, calls[0]), calls[1..])
  }

  lemma {:induction false} SkipReaches(s: bytes, aim: Aim)
    ensures Reaches(s, Skip(s, aim)) && Reaches(s, Behind(Skip(s, aim)))
    decreases |s|
  {
    if Meet(s).Met? && aim.Passes(Meet(s).role) {
      SkipReaches(Behind(s), aim);
    }
  }

  lemma MetadataReaches(s: bytes)
    ensures Reaches(s, Metadata(s).rest)
  {
    SkipReaches(s, Header);
  }

  lemma FetchReaches(c: Position)
    ensures Reaches(c.rest, Fetch(c).after.rest)
  {
    SkipReaches(c.rest, Row);
  }

  lemma {:induction false} RowsReach(c: Position)
    ensures Reaches(c.rest, Rows(c).1.rest)
    decreases |c.rest|
  {
    FetchReaches(c);
    if Fetch(c).ok {
      RowsReach(Fetch(c).after);
      ReachesTrans(c.rest, Fetch(c).after.rest, Rows(c).1.rest);
    }
  }

  lemma SeekOpens(c: Position, s: bytes)
    requires var t := Skip(s, NextSet); Meet(t).Met? && !Meet(t).role.Idle?
    ensures Seek(c, s).after == Metadata(Skip(s, NextSet))
  {
  }

  lemma SeekReaches(c: Position, s: bytes)
    requires Reaches(c.rest, s)
    ensures Reaches(c.rest, Seek(c, s).after.rest)
  {
    var t := Skip(s, NextSet);
    SkipReaches(s, NextSet);
    match Meet(t) {
      case Nothing => ReachesTrans(c.rest, s, t);
      case Broken =>
      case Met(role, _) =>
        if role.Idle? {
          ReachesTrans(c.rest, s, Behind(t));
        } else {
          SeekOpens(c, s);
          MetadataReaches(t);
          ReachesTrans(c.rest, s, t);
          ReachesTrans(c.rest, t, Metadata(t).rest);
        }
    }
  }

  lemma SeekEndReaches(c: Position)
    ensures Reaches(c.rest, SeekEnd(c, c.rest).after.rest)
  {
    var t := Skip(c.rest, End);
    SkipReaches(c.rest, End);
    match Meet(t) {
      case Nothing =>
        SkipNone(t, NextSet);
        SeekReaches(c, t);
      case Broken =>
      case Met(role, payload) =>
        if role.Closing? {
          SeekReaches(c.(tag := CommandTagOf(payload, c.tag), done := true), Behind(t));
        }
    }
  }

  lemma NextReaches(c: Position)
    ensures Reaches(c.rest, Next(c).after.rest)
  {
    if c.done {
      SeekReaches(c, c.rest);
    } else {
      SeekEndReaches(c);
    }
  }

  /** Whatever the bytes and whatever calls are made, in any order: the cursor
      stands a whole number of frames into the buffer. */
  lemma {:induction false} CursorOnBoundary(c: Position, calls: seq<Call>)
    ensures Reaches(c.rest, DoAll(c, calls).rest)
    decreases |calls|
  {
    if calls != [] {
      var d := Do(c, calls[0]);
      match calls[0] {
        case FetchRow => FetchReaches(c);
        case FetchAll => RowsReach(c);
        case NextResultSet => NextReaches(c);
      }
      CursorOnBoundary(d, calls[1..]);
      ReachesTrans(c.rest, d.rest, DoAll(c, calls).rest);
    }
  }
}
