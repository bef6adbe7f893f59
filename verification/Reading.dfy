/** The cursor against a one-pass reading of the frame list. */
module Reading {
  import opened Wire
  import opened Framing
  import opened Parser
  import opened Cursor
  import opened Moving

  // ---- the reference: one pass over the frames ----

  /** `Cut`: a row of the set could not be read, which ends the set there. */
  datatype Phase = Fresh | Open | Cut | Closed

  datatype Progress = Progress(sets: seq<ResultSet>, cur: ResultSet, phase: Phase)
  {
    /** Before the first header, row or completion the current set is empty. */
    predicate Plausible() {
      phase.Fresh? ==> cur == ResultSet([], [], [])
    }

    function Outcome(): seq<ResultSet> {
      sets + [cur]
    }

    /** The state in which the next frame belongs to an unfinished set. */
    function Opened(): Progress {
      if phase.Closed? then Progress(sets + [cur], ResultSet([], [], []), Open) else this.(phase := Open)
    }

    function WithRow(row: seq<Datum>): Progress {
      this.(cur := cur.(rows := cur.rows + [row]))
    }
  }

  const START := Progress([], ResultSet([], [], []), Fresh)

  /** One frame.  `ideal`: CopyData after a completed set opens the next one;
      otherwise it is passed over.  Of a set cut short, nothing more is taken,
      not even the tag. */
  function Take(p: Progress, f: Frame, ideal: bool): Progress {
    if p.phase.Cut? then
      if RoleOf(f.kind).Closing? then p.(phase := Closed) else p
    else
      match RoleOf(f.kind)
      case Columns =>
        if p.phase.Open? then p
        else p.Opened().(cur := ResultSet(FieldsOf(f.payload), [], []))
      case Data =>
        var q := p.Opened();
        (match RowOf(f.payload, |q.cur.fields|)
         case None => q.(phase := Cut)
         case Some(row) => q.WithRow(row))
      case Copied =>
        if p.phase.Closed? && !ideal then p else p.Opened().WithRow([Value(f.payload)])
      case Closing =>
        var q := p.Opened();
        q.(cur := q.cur.(tag := CommandTagOf(f.payload, q.cur.tag)), phase := Closed)
      case _ => p
  }

  function OnePass(p: Progress, fs: seq<Frame>, ideal: bool): Progress
    decreases |fs|
  {
    if fs == [] then p else OnePass(Take(p, fs[0], ideal), fs[1..], ideal)
  }

  // ---- what a response can hold ----

  /** The whole frames in front of `s`. */
  function Frames(s: bytes): seq<Frame> {
    Walk(s).0
  }

  predicate Tidy(s: bytes) {
    IdleLast(Frames(s))
  }

  /** ReadyForQuery, if at all, in the last whole frame; behind the whole frames a
      part of one, or the five bytes taken of a frame of bad length. */
  predicate Held(s: bytes) {
    Tidy(s) && (Scan(Walk(s).1).Malformed? ==> |Walk(s).1| == 5)
  }

  lemma FirstFrame(s: bytes)
    requires Tidy(s) && Meet(s).Met?
    ensures var fs := Frames(s);
            && fs != [] && Meet(s) == Met(RoleOf(fs[0].kind), fs[0].payload)
            && |Behind(s)| < |s| && Frames(Behind(s)) == fs[1..] && Tidy(Behind(s))
            && (Held(s) ==> Held(Behind(s)))
            && (Meet(s).role.Idle? ==> Frames(Behind(s)) == [] && !Meet(Behind(s)).Met?)
  {
    assert Walk(s) == ([Scan(s).frame] + Walk(Behind(s)).0, Walk(Behind(s)).1);
  }

  lemma NoFrame(s: bytes)
    requires !Meet(s).Met?
    ensures Frames(s) == [] && Walk(s).1 == s
  {
  }

  // ---- moves from the same place ----

  /** What a move finds does not depend on the position it is made from, only on the
      bytes it starts at. */
  lemma SeekFinds(c: Position, d: Position, s: bytes)
    ensures Seek(c, s).ok == Seek(d, s).ok && (Seek(c, s).ok ==> Seek(c, s).after == Seek(d, s).after)
  {
  }

  lemma SeekEndFinds(c: Position, d: Position, s: bytes)
    ensures SeekEnd(c, s).ok == SeekEnd(d, s).ok
    ensures SeekEnd(c, s).ok ==> SeekEnd(c, s).after == SeekEnd(d, s).after
  {
    var t := Skip(s, End);
    match Meet(t)
    case Nothing => SeekFinds(c, d, t);
    case Broken =>
    case Met(role, payload) =>
      if role.Closing? {
        SeekFinds(c.(tag := CommandTagOf(payload, c.tag), done := true),
                  d.(tag := CommandTagOf(payload, d.tag), done := true), Behind(t));
      }
  }

  lemma AfterSeek(c: Position, d: Position)
    requires c.done && d.done && Skip(c.rest, NextSet) == Skip(d.rest, NextSet)
    ensures ReadAfter(c) == ReadAfter(d)
  {
    SeekFinds(c, d, c.rest);
  }

  lemma AfterSeekEnd(c: Position, d: Position)
    requires !c.done && !d.done && Skip(c.rest, End) == Skip(d.rest, End)
    ensures ReadAfter(c) == ReadAfter(d)
  {
    SeekEndFinds(c, d, c.rest);
  }

  lemma NothingAfter(c: Position)
    requires !Meet(c.rest).Met?
    ensures ReadAfter(c) == []
  {
    SkipNone(c.rest, End);
    SkipNone(c.rest, NextSet);
  }

  lemma IdleAfter(c: Position)
    requires !c.done && Meet(c.rest).Met? && Meet(c.rest).role.Idle?
    ensures ReadAfter(c) == []
  {
    SkipNone(c.rest, End);
    assert !SeekEnd(c, c.rest).ok;
  }

  /** The completion of a set that is not taken is passed over like the rest of it. */
  lemma TagAfter(c: Position, d: Position)
    requires !c.done && Meet(c.rest).Met? && Meet(c.rest).role.Closing?
    requires d.done && d.rest == Behind(c.rest)
    ensures ReadAfter(c) == ReadAfter(d)
  {
    SkipNone(c.rest, End);
    SeekFinds(c.(tag := CommandTagOf(Meet(c.rest).payload, c.tag), done := true), d, d.rest);
  }

  // ---- fetching ----

  /** A frame that a fetch passes over makes no difference to it, except that a
      fetch which fails on an unreadable row stays in front of that frame. */
  lemma FetchSkips(c: Position)
    requires Meet(c.rest).Met? && Row.Passes(Meet(c.rest).role) && !c.done
    ensures var d := c.(rest := Behind(c.rest));
            Fetch(c) == Fetch(d) || (Fetch(c) == Fetched(false, [], c) && Fetch(d) == Fetched(false, [], d))
  {
    assert Skip(c.rest, Row) == Skip(Behind(c.rest), Row);
  }

  lemma RowsSkip(c: Position)
    requires Meet(c.rest).Met? && Row.Passes(Meet(c.rest).role) && !c.done
    ensures var d := c.(rest := Behind(c.rest));
            Rows(c) == Rows(d) || (Rows(c) == ([], c) && Rows(d) == ([], d))
  {
    FetchSkips(c);
  }

  /** Either way what is read from there on is the same. */
  lemma ReadOnSkips(c: Position, before: seq<seq<Datum>>)
    requires Meet(c.rest).Met? && Row.Passes(Meet(c.rest).role) && !c.done
    ensures ReadOn(c, before) == ReadOn(c.(rest := Behind(c.rest)), before)
  {
    RowsSkip(c);
    AfterSeekEnd(c, c.(rest := Behind(c.rest)));
  }

  /** Any other frame in front decides the fetch. */
  lemma FetchMeets(c: Position)
    requires Meet(c.rest).Met? && !Row.Passes(Meet(c.rest).role) && !c.done
    ensures var payload, next := Meet(c.rest).payload, c.(rest := Behind(c.rest));
            Fetch(c) ==
            match Meet(c.rest).role
            case Data =>
              (match RowOf(payload, |c.fields|)
               case None => Fetched(false, [], c)
               case Some(row) => Fetched(true, row, next))
            case Copied => Fetched(true, [Value(payload)], next)
            case Closing => Fetched(false, [], next.(tag := CommandTagOf(payload, c.tag), done := true))
            case _ => Fetched(false, [], next.(done := true))
  {
  }

  /** Without a frame in front there is no row, and nothing after. */
  lemma FetchNothing(c: Position, before: seq<seq<Datum>>)
    requires !Meet(c.rest).Met?
    ensures !Fetch(c).ok && ReadOn(c, before) == [ResultSet(c.fields, before, c.tag)]
  {
    SkipNone(c.rest, Row);
    ReadOnCloses(c, before);
    NothingAfter(Fetch(c).after);
  }

  lemma ReadOnTakes(c: Position, before: seq<seq<Datum>>)
    requires Fetch(c).ok
    ensures ReadOn(c, before) == ReadOn(Fetch(c).after, before + [Fetch(c).row])
  {
    RowsStep(before, c);
  }

  lemma ReadOnCloses(c: Position, before: seq<seq<Datum>>)
    requires !Fetch(c).ok
    ensures var d := Fetch(c).after;
            ReadOn(c, before) == [ResultSet(d.fields, before, d.tag)] + ReadAfter(d)
  {
    assert before + [] == before;
  }

  // ---- refinement ----

  /** Reading on inside an open set is the one pass from there. */
  lemma {:induction false} OpenReads(s: bytes, p: Progress)
    requires Tidy(s) && p.phase.Open? && p.cur.tag == []
    ensures OnePass(p, Frames(s), false).Outcome()
         == p.sets + ReadOn(Position(s, p.cur.fields, [], false), p.cur.rows)
    decreases |s|, 1
  {
    var c := Position(s, p.cur.fields, [], false);
    if !Meet(s).Met? {
      NoFrame(s);
      FetchNothing(c, p.cur.rows);
    } else if Row.Passes(Meet(s).role) {
      FirstFrame(s);
      ReadOnSkips(c, p.cur.rows);
      OpenReads(Behind(s), p);
    } else {
      FrameReads(s, p, c);
    }
  }

  /** The same where the frame in front decides what is read next. */
  lemma FrameReads(s: bytes, p: Progress, c: Position)
    requires Tidy(s) && p.phase.Open? && p.cur.tag == []
    requires Meet(s).Met? && !Row.Passes(Meet(s).role)
    requires c == Position(s, p.cur.fields, [], false)
    ensures OnePass(p, Frames(s), false).Outcome() == p.sets + ReadOn(c, p.cur.rows)
    decreases |s|, 0
  {
    FirstFrame(s);
    var q, rest := Take(p, Frames(s)[0], false), Behind(s);
    FetchMeets(c);
    if Fetch(c).ok {
      ReadOnTakes(c, p.cur.rows);
      OpenReads(rest, q);
    } else {
      ReadOnCloses(c, p.cur.rows);
      match Meet(s).role
      case Data =>
        AfterSeekEnd(c, c.(rest := rest));
        CutReads(rest, q, c.(rest := rest));
      case Closing => ClosedReads(rest, q, Fetch(c).after);
      case _ => NothingAfter(Fetch(c).after);
    }
  }

  /** Moving on from a set cut short is the one pass from there. */
  lemma {:induction false} CutReads(s: bytes, p: Progress, c: Position)
    requires Tidy(s) && p.phase.Cut?
    requires !c.done && c.rest == s
    ensures OnePass(p, Frames(s), false).Outcome() == p.sets + ([p.cur] + ReadAfter(c))
    decreases |s|, 1
  {
    if !Meet(s).Met? {
      NoFrame(s);
      NothingAfter(c);
    } else {
      FirstFrame(s);
      var role, rest := Meet(s).role, Behind(s);
      if role.Closing? {
        TagAfter(c, c.(rest := rest, done := true));
        ClosedReads(rest, p.(phase := Closed), c.(rest := rest, done := true));
      } else if role.Idle? {
        IdleAfter(c);
      } else {
        AfterSeekEnd(c, c.(rest := rest));
        CutReads(rest, p, c.(rest := rest));
      }
    }
  }

  /** Opening a set on the first frame of `s` and reading on is the one pass. */
  lemma HeaderReads(s: bytes, p: Progress)
    requires Tidy(s) && p.phase in {Fresh, Closed} && p.Plausible()
    requires Meet(s).Met? && !Header.Passes(Meet(s).role)
    requires Meet(s).role.Copied? ==> p.phase.Fresh?
    ensures OnePass(p, Frames(s), false).Outcome() == p.Opened().sets + ReadOn(Metadata(s), [])
    decreases |s|, 1
  {
    FirstFrame(s);
    var f, role, rest, d := Frames(s)[0], Meet(s).role, Behind(s), Metadata(s);
    SkipNone(s, Header);
    if role.Columns? {
      OpenReads(rest, Take(p, f, false));
    } else if role.Closing? {
      ReadOnCloses(d, []);
      ClosedReads(rest, Take(p, f, false), d);
    } else {
      assert Take(p, f, false) == Take(p.Opened(), f, false);
      FrameReads(s, p.Opened(), d);
    }
  }

  /** Moving on from a completed set is the one pass from there. */
  lemma {:induction false} ClosedReads(s: bytes, p: Progress, c: Position)
    requires Tidy(s) && p.phase.Closed?
    requires c.done && c.rest == s
    ensures OnePass(p, Frames(s), false).Outcome() == p.sets + ([p.cur] + ReadAfter(c))
    decreases |s|, 2
  {
    if !Meet(s).Met? {
      NoFrame(s);
      NothingAfter(c);
    } else {
      FirstFrame(s);
      var role, rest := Meet(s).role, Behind(s);
      if NextSet.Passes(role) {
        ClosedPasses(s, p, c);
        ClosedReads(rest, p, c.(rest := rest));
      } else {
        NextMeets(s, c);
        if !role.Idle? {
          HeaderReads(s, p);
          RegroupRows(p.sets, p.cur, ReadAfter(c));
        }
      }
    }
  }

  lemma ClosedPasses(s: bytes, p: Progress, c: Position)
    requires Tidy(s) && p.phase.Closed? && Meet(s).Met? && NextSet.Passes(Meet(s).role)
    requires c.done && c.rest == s
    ensures OnePass(p, Frames(s), false) == OnePass(p, Frames(Behind(s)), false)
    ensures ReadAfter(c) == ReadAfter(c.(rest := Behind(s)))
  {
    FirstFrame(s);
    assert Take(p, Frames(s)[0], false) == p;
    AfterSeek(c, c.(rest := Behind(s)));
  }

  lemma RegroupRows(sets: seq<ResultSet>, cur: ResultSet, more: seq<ResultSet>)
    ensures sets + [cur] + more == sets + ([cur] + more)
  {
  }

  lemma NextMeets(s: bytes, c: Position)
    requires Meet(s).Met? && !NextSet.Passes(Meet(s).role)
    requires c.done && c.rest == s
    ensures ReadAfter(c) == if Meet(s).role.Idle? then [] else ReadOn(Metadata(s), [])
  {
    SkipNone(s, NextSet);
  }

  /** Without a frame there is one empty set, the five bytes of a bad frame or not. */
  lemma NothingReads(s: bytes)
    requires Held(s) && !Meet(s).Met?
    ensures ReadAll(s) == START.Outcome()
  {
    NoFrame(s);
    SkipNone(s, Header);
    FetchNothing(Metadata(s), []);
  }

  lemma StartSkips(s: bytes)
    requires Tidy(s) && Meet(s).Met? && Header.Passes(Meet(s).role)
    ensures ReadAll(s) == ReadAll(Behind(s))
    ensures OnePass(START, Frames(s), false) == OnePass(START, Frames(Behind(s)), false)
  {
    FirstFrame(s);
    assert Skip(s, Header) == Skip(Behind(s), Header);
  }

  lemma StartReads(s: bytes)
    requires Tidy(s) && Meet(s).Met? && !Header.Passes(Meet(s).role)
    ensures ReadAll(s) == OnePass(START, Frames(s), false).Outcome()
  {
    HeaderReads(s, START);
    NoneBefore(START.Opened().sets, ReadOn(Metadata(s), []));
  }

  lemma NoneBefore<T>(none: seq<T>, all: seq<T>)
    requires none == []
    ensures none + all == all
  {
  }

  /** For all bytes a response can hold, what the lazy cursor yields is what the one
      pass over their whole frames yields. */
  lemma {:induction false} CursorRefinesOnePass(s: bytes)
    requires Held(s)
    ensures ReadAll(s) == OnePass(START, Frames(s), false).Outcome()
    decreases |s|
  {
    if !Meet(s).Met? {
      NoFrame(s);
      NothingReads(s);
    } else if Header.Passes(Meet(s).role) {
      FirstFrame(s);
      StartSkips(s);
      CursorRefinesOnePass(Behind(s));
    } else {
      StartReads(s);
    }
  }

  /** An encoded list with ReadyForQuery last is such bytes. */
  lemma CleanIsHeld(fs: seq<Frame>)
    requires Clean(fs)
    ensures Held(EncodeAll(fs)) && Frames(EncodeAll(fs)) == fs
  {
    WalkEncodeAll(fs, []);
    assert EncodeAll(fs) + [] == EncodeAll(fs);
  }

  // ---- COPY rows of later statements ----

  /** No CopyData stands between a completed set and the next header, row or
      completion. */
  predicate NoLateCopy(fs: seq<Frame>, closed: bool)
    decreases |fs|
  {
    fs == [] ||
    match RoleOf(fs[0].kind)
    case Closing => NoLateCopy(fs[1..], true)
    case Columns => NoLateCopy(fs[1..], false)
    case Data => NoLateCopy(fs[1..], false)
    case Copied => !closed && NoLateCopy(fs[1..], false)
    case _ => NoLateCopy(fs[1..], closed)
  }

  lemma {:induction false} NoLateCopySame(fs: seq<Frame>, p: Progress)
    requires NoLateCopy(fs, p.phase.Closed?)
    ensures OnePass(p, fs, false) == OnePass(p, fs, true)
    decreases |fs|
  {
    if fs != [] {
      NoLateCopySame(fs[1..], Take(p, fs[0], true));
    }
  }

  /** What no later frame changes of the set begun in `p`: its place, its
      columns, and all of it once it is completed. */
  lemma {:induction false} SetIsKept(fs: seq<Frame>, p: Progress, ideal: bool)
    requires !p.phase.Fresh?
    ensures var all := OnePass(p, fs, ideal).Outcome();
            && |all| > |p.sets| && all[|p.sets|].fields == p.cur.fields
            && (p.phase.Closed? ==> all[|p.sets|] == p.cur)
    decreases |fs|
  {
    if fs != [] {
      var q := Take(p, fs[0], ideal);
      SetIsKept(fs[1..], q, ideal);
      if p.phase.Closed? && q != p {
        SetsAreKept(fs[1..], q, ideal);
      }
    }
  }

  lemma {:induction false} SetsAreKept(fs: seq<Frame>, p: Progress, ideal: bool)
    ensures p.sets <= OnePass(p, fs, ideal).sets
    decreases |fs|
  {
    if fs != [] {
      SetsAreKept(fs[1..], Take(p, fs[0], ideal), ideal);
    }
  }

  /** Of two readings in the same set, one with fewer rows: it stays so. */
  lemma {:induction false} FewerRows(fs: seq<Frame>, p: Progress, q: Progress)
    requires p.phase == q.phase && !p.phase.Fresh? && |p.sets| == |q.sets|
    requires p.cur.fields == q.cur.fields && |p.cur.rows| < |q.cur.rows|
    ensures OnePass(p, fs, false).Outcome() != OnePass(q, fs, true).Outcome()
    decreases |fs|
  {
    if fs == [] {
      assert p.Outcome()[|p.sets|] != q.Outcome()[|q.sets|];
    } else if p.phase.Closed? {
      SetIsKept(fs, p, false);
      SetIsKept(fs, q, true);
    } else {
      FewerRows(fs[1..], Take(p, fs[0], false), Take(q, fs[0], true));
    }
  }

  /** The ideal reading has opened a set on a late CopyData, the other has not. */
  lemma {:induction false} OneSetBehind(fs: seq<Frame>, p: Progress, q: Progress)
    requires p.phase.Closed? && q.phase.Open? && |q.sets| == |p.sets| + 1
    requires q.cur.fields == [] && q.cur.rows != []
    ensures OnePass(p, fs, false).Outcome() != OnePass(q, fs, true).Outcome()
    decreases |fs|
  {
    if fs != [] {
      var role, p', q' := RoleOf(fs[0].kind), Take(p, fs[0], false), Take(q, fs[0], true);
      if role.Columns? && p'.cur.fields != [] {
        SetIsKept(fs[1..], p', false);
        SetIsKept(fs[1..], q', true);
      } else if role in {Columns, Data, Closing} {
        FewerRows(fs[1..], p', q');
      } else {
        OneSetBehind(fs[1..], p', q');
      }
    }
  }

  lemma {:induction false} LateCopyDiffers(fs: seq<Frame>, p: Progress)
    requires !NoLateCopy(fs, p.phase.Closed?)
    ensures OnePass(p, fs, false).Outcome() != OnePass(p, fs, true).Outcome()
    decreases |fs|
  {
    var q := Take(p, fs[0], true);
    if RoleOf(fs[0].kind).Copied? && p.phase.Closed? {
      OneSetBehind(fs[1..], p, q);
    } else {
      LateCopyDiffers(fs[1..], q);
    }
  }

  /** The cursor shows every row, COPY rows included, exactly when no CopyData
      follows a completed set without a header, row or completion in between. */
  lemma CursorShowsCopyIff(s: bytes)
    requires Held(s)
    ensures ReadAll(s) == OnePass(START, Frames(s), true).Outcome() <==> NoLateCopy(Frames(s), false)
  {
    var fs := Frames(s);
    CursorRefinesOnePass(s);
    if NoLateCopy(fs, false) {
      NoLateCopySame(fs, START);
    } else {
      LateCopyDiffers(fs, START);
    }
  }

  /** A concrete stream on which it does not: one completed statement, then a
      COPY OUT of one empty row. */
  lemma LateCopyIsLost()
    ensures var tag := Frame('C' as int, Text("X") + [0]);
            var fs := [tag, Frame('d' as int, []), tag];
            !NoLateCopy(fs, false) && ReadAll(EncodeAll(fs)) != OnePass(START, fs, true).Outcome()
  {
    var tag, row := Frame('C' as int, Text("X") + [0]), Frame('d' as int, []);
    var fs := [tag, row, tag];
    assert fs[1..] == [row, tag] && [row, tag][1..] == [tag] && [tag][1..] == [];
    assert RoleOf(tag.kind) == Closing && RoleOf(row.kind) == Copied;
    assert IdleLast([]) && IdleLast([tag]) && IdleLast([row, tag]);
    assert !RoleOf(fs[0].kind).Idle? && IdleLast(fs[1..]);
    assert !NoLateCopy([row, tag], true);
    CleanIsHeld(fs);
    CursorShowsCopyIff(EncodeAll(fs));
  }
}
